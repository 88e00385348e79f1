/**
 * `loadLinks` of the Internet Archive provider: a "video-playlist" payload
 * becomes one link per URL, in ascending order, each labelled by `getName`;
 * any other payload is handed to the host's extractor for the item page.
 */
module ArchiveLinks {
  import opened Options
  import opened KotlinText
  import opened Collections
  import opened Grouping
  import opened StableSort
  import opened StringOrder
  import opened HostApi
  import opened ArchiveRecords
  import opened ArchiveLoad

  /** What `loadLinks` does with its payload. */
  datatype LinksOutcome =
    | Delegated(pageUrl: string)          // `loadExtractor` on the item page
    | Emitted(links: seq<ExtractorLink>)  // the links passed to `callback`, in order

  /**
   * `getName`'s directory: the last path segment before the file name,
   * without its extension, underscores shown as spaces.
   */
  function DirectoryLabel(url: string): (r: string)
    ensures '/' !in r && '_' !in r && |r| <= |url|
  {
    var dir := SubstringAfterLast(SubstringBeforeLast(url, '/'), '/');
    var stem := SubstringBeforeLast(dir, '.');
    assert forall k :: 0 <= k < |stem| ==> stem[k] == dir[k];
    ReplaceChar(stem, '_', ' ')
  }

  /** `getName`'s extension: the text after the last '.', a suffix of the URL. */
  function Extension(url: string): (r: string)
    ensures '.' !in r && |r| <= |url| && url[|url| - |r|..] == r
  {
    AfterLastIsSuffix(url, '.');
    SubstringAfterLast(url, '.')
  }

  /** `load.urls`: the payload's URLs as the set the JSON decoder builds. */
  function UrlSet(load: LoadData): seq<string> {
    Dedup(load.urls)
  }

  /** `getName(url)`. */
  function LinkName(load: LoadData, url: string): string {
    var directory := DirectoryLabel(url);
    if load.name != directory && |UrlSet(load)| > 1 then directory + " (" + Extension(url) + ")"
    else ProviderName
  }

  /** The link `loadLinks` emits for `url`, labelled `name`. */
  function PlaylistLink(name: string, url: string): ExtractorLink {
    ExtractorLink(ProviderName, name, url, "", QualityUnknown)
  }

  /** The links for `urls`, one each, in the same order, labelled by `nameOf` (`LinksForAt`). */
  function LinksFor(nameOf: string -> string, urls: seq<string>): (r: seq<ExtractorLink>)
    ensures |r| == |urls|
  {
    if urls == [] then []
    else LinksFor(nameOf, urls[..|urls| - 1]) + [PlaylistLink(nameOf(urls[|urls| - 1]), urls[|urls| - 1])]
  }

  lemma {:induction false} LinksForAt(nameOf: string -> string, urls: seq<string>, i: nat)
    requires i < |urls|
    ensures LinksFor(nameOf, urls)[i] == PlaylistLink(nameOf(urls[i]), urls[i])
    decreases |urls|
  {
    var n := |urls| - 1;
    if i < n {
      LinksForAt(nameOf, urls[..n], i);
    }
  }

  /** `load.urls.sorted()`. */
  function PlaylistUrls(load: LoadData): seq<string> {
    SortStrings(UrlSet(load))
  }

  /** The playlist branch: the links of the sorted URLs. */
  function PlaylistLinks(load: LoadData): seq<ExtractorLink> {
    LinksFor(url => LinkName(load, url), PlaylistUrls(load))
  }

  /** `loadLinks(data)` given the decoded payload (`None` when `data` is not a `LoadData`). */
  function LoadLinksOf(data: string, load: Option<LoadData>): LinksOutcome {
    if load.Some? && load.value.kind == "video-playlist" then Emitted(PlaylistLinks(load.value))
    else Delegated("https://archive.org/details/" + data)
  }

  /** `loadLinks`: emits the playlist's links one by one, and always reports success. */
  method LoadLinks(data: string, load: Option<LoadData>) returns (outcome: LinksOutcome, handled: bool)
    ensures outcome == LoadLinksOf(data, load)
    ensures handled
  {
    if load.Some? && load.value.kind == "video-playlist" {
      var urls := PlaylistUrls(load.value);
      var links: seq<ExtractorLink> := [];
      for i := 0 to |urls|
        invariant links == LinksFor(url => LinkName(load.value, url), urls[..i])
      {
        assert urls[..i + 1][..i] == urls[..i];
        links := links + [PlaylistLink(LinkName(load.value, urls[i]), urls[i])];
      }
      assert urls[..|urls|] == urls;
      outcome := Emitted(links);
    } else {
      outcome := Delegated("https://archive.org/details/" + data);
    }
    handled := true;
  }

  /**
   * Any payload but a "video-playlist" (or one that does not decode) is
   * handed over as the item's details page, the URL its search result has.
   */
  lemma DelegatesUnlessPlaylist(data: string, load: Option<LoadData>)
    requires load.None? || load.value.kind != "video-playlist"
    ensures LoadLinksOf(data, load) == Delegated(DetailsUrl(data))
  {
    assert DetailsUrl(data) == "https://archive.org/details/" + data;
  }

  /** The URLs of `links`, in order. */
  function UrlsOf(links: seq<ExtractorLink>): (r: seq<string>)
    ensures |r| == |links|
  {
    seq(|links|, i requires 0 <= i < |links| => links[i].url)
  }

  /**
   * The links of `LinksFor` carry the given URLs in order, with unknown
   * quality, no referer and the provider as source.
   */
  lemma LinksForFields(nameOf: string -> string, urls: seq<string>)
    ensures UrlsOf(LinksFor(nameOf, urls)) == urls
    ensures var links := LinksFor(nameOf, urls);
            forall i :: 0 <= i < |links| ==>
              links[i].quality == QualityUnknown && links[i].referer == "" && links[i].source == ProviderName
  {
    forall i | 0 <= i < |urls| {
      LinksForAt(nameOf, urls, i);
    }
  }

  /**
   * The playlist's URLs in emission order: every URL of the payload once,
   * in strictly ascending string order.
   */
  lemma PlaylistUrlsSpec(load: LoadData)
    ensures var urls := PlaylistUrls(load);
            && |urls| == |UrlSet(load)|
            && (forall u :: u in urls <==> u in load.urls)
            && forall i, j :: 0 <= i < j < |urls| ==> StrLe(urls[i], urls[j]) && urls[i] != urls[j]
  {
    var urls := PlaylistUrls(load);
    assert |urls| == |multiset(urls)| == |multiset(UrlSet(load))| == |UrlSet(load)|;
    DedupMembers(load.urls);
    SameElements(urls, UrlSet(load));
    forall i, j | 0 <= i < j < |urls|
      ensures StrLe(urls[i], urls[j]) && urls[i] != urls[j]
    {
      SortedDistinctAscending(UrlSet(load), i, j);
    }
  }

  /** Sequences with the same multiset have the same elements. */
  lemma SameElements<T>(a: seq<T>, b: seq<T>)
    requires multiset(a) == multiset(b)
    ensures forall x :: x in a <==> x in b
  {
    forall x ensures x in a <==> x in b {
      assert x in a <==> x in multiset(a);
      assert x in b <==> x in multiset(b);
    }
  }

  /**
   * A playlist emits one link per playlist URL, in that order, with
   * unknown quality, no referer and the provider as source.
   */
  lemma PlaylistLinksSpec(load: LoadData)
    ensures UrlsOf(PlaylistLinks(load)) == PlaylistUrls(load)
    ensures var links := PlaylistLinks(load);
            forall i :: 0 <= i < |links| ==>
              links[i].quality == QualityUnknown && links[i].referer == "" && links[i].source == ProviderName
  {
    LinksForFields(url => LinkName(load, url), PlaylistUrls(load));
  }

  /** Each playlist link is labelled by `getName` of its own URL. */
  lemma PlaylistLinkName(load: LoadData, i: nat)
    requires i < |PlaylistLinks(load)|
    ensures PlaylistLinks(load)[i].name == LinkName(load, PlaylistLinks(load)[i].url)
  {
    LinksForAt(url => LinkName(load, url), PlaylistUrls(load), i);
  }

  /**
   * The label rule: a link is labelled "directory (extension)" exactly when
   * its directory differs from the playlist's name and the playlist holds
   * more than one URL; otherwise it carries the provider's name.
   */
  lemma LabelRule(load: LoadData, url: string)
    ensures LinkName(load, url) != ProviderName
            <==> load.name != DirectoryLabel(url) && |UrlSet(load)| > 1
    ensures LinkName(load, url) != ProviderName ==>
              LinkName(load, url) == DirectoryLabel(url) + " (" + Extension(url) + ")"
  {
    var text := DirectoryLabel(url) + " (" + Extension(url) + ")";
    assert text[|text| - 1] == ')';
    assert ProviderName[|ProviderName| - 1] == 'e';
  }

  /**
   * The links of an episode built by `toLoadResponse` carry exactly the
   * URLs of the files in its group, once each.
   */
  lemma EpisodeLinks(e: Episode, names: seq<string>, urls: seq<string>)
    requires |names| == |urls| && IsGroupEpisode(e, names, urls)
    ensures var linkUrls := UrlsOf(PlaylistLinks(e.data));
            && |linkUrls| == |e.data.urls|
            && forall u :: u in linkUrls <==> exists k :: 0 <= k < |names| && names[k] == e.name && urls[k] == u
  {
    var group := e.data.urls;
    DedupMembers(ValuesOf(names, urls, e.name));
    DedupOfDistinct(group);
    PlaylistLinksSpec(e.data);
    PlaylistUrlsSpec(e.data);
    forall u
      ensures u in group <==> exists k :: 0 <= k < |names| && names[k] == e.name && urls[k] == u
    {
      GroupMembers(names, urls, e.name, u);
    }
  }
}
