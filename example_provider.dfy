/**
 * The example provider ("Archive.org"): its search-result and load-response
 * mappings, `load`, and its extractor, which takes every `video source` of
 * the item page that has a URL and a positive pixel height.
 */
module ExampleProvider {
  import opened Options
  import opened KotlinText
  import opened HostApi
  import opened Documents
  import ArchiveRecords
  import ArchiveLoad

  /** The provider's and the extractor's `name`; `mainUrl` is the archive's, as for the other provider. */
  const ExampleName: string := "Archive.org"

  datatype SearchEntry = SearchEntry(title: string, identifier: string)

  datatype VideoEntry = VideoEntry(title: string, description: string, identifier: string, creator: Option<string>)

  /**
   * What a request yields: `app.get` failed (it throws), or its text did
   * not decode (`tryParseJson` gives null), or the decoded value.
   */
  datatype Fetched<T> = RequestFailed | Undecodable | Decoded(value: T)

  /** A call that returns normally, or lets an exception escape (this provider has no `try`). */
  datatype Outcome<T> = Returned(value: T) | Threw

  /** `SearchEntry.toSearchResponse`: a movie under its title, with the item's details and poster URLs. */
  function ToSearchResponse(e: SearchEntry): (r: SearchResponse)
    ensures r.name == e.title && r.tvType == Movie
    ensures r.url == ArchiveRecords.DetailsUrl(e.identifier)
    ensures r.posterUrl == Some(ArchiveRecords.PosterUrl(e.identifier))
  {
    SearchResponse(e.title, ArchiveRecords.DetailsUrl(e.identifier), Movie, Some(ArchiveRecords.PosterUrl(e.identifier)))
  }

  /**
   * `search` and `getMainPage`: one result per decoded entry; nothing when
   * decoding fails; a failed request escapes as an exception.
   */
  function SearchResults(res: Fetched<seq<SearchEntry>>): (r: Outcome<seq<SearchResponse>>)
    ensures r.Threw? <==> res.RequestFailed?
    ensures res.Undecodable? ==> r == Returned([])
    ensures res.Decoded? ==> (r.Returned? && |r.value| == |res.value|
              && forall i :: 0 <= i < |r.value| ==> r.value[i] == ToSearchResponse(res.value[i]))
  {
    match res
    case RequestFailed => Threw
    case Undecodable => Returned([])
    case Decoded(entries) => Returned(seq(|entries|, i requires 0 <= i < |entries| => ToSearchResponse(entries[i])))
  }

  /**
   * Opening a search result requests the metadata of the same identifier,
   * and its poster URL ends with that identifier.
   */
  lemma SearchResultLoadsItsIdentifier(e: SearchEntry)
    requires '/' !in e.identifier
    ensures ArchiveLoad.MetadataRequestUrl(ToSearchResponse(e).url) == ArchiveRecords.MainUrl + "/metadata/" + e.identifier
    ensures ArchiveRecords.IdentifierOf(ToSearchResponse(e).posterUrl.value) == e.identifier
  {
    ArchiveRecords.AfterLastSlashOfJoin(ArchiveRecords.MainUrl + "/details", e.identifier);
    ArchiveRecords.AfterLastSlashOfJoin(ArchiveRecords.MainUrl + "/services/img", e.identifier);
  }

  /** `VideoEntry.toLoadResponse`: a movie whose data is the identifier; the creator, if any, is its one actor. */
  function ToLoadResponse(v: VideoEntry): (r: LoadResponse)
    ensures r.MovieLoad? && r.name == v.title && r.tvType == Movie && r.dataUrl == v.identifier
    ensures r.url == ArchiveRecords.DetailsUrl(v.identifier)
    ensures r.details.plot == Some(v.description) && r.details.year.None? && r.details.tags.None?
    ensures r.details.posterUrl == ArchiveRecords.PosterUrl(v.identifier)
    ensures r.details.actors.Some? && |r.details.actors.value| <= 1
    ensures r.details.actors.value == [] <==> v.creator.None?
    ensures v.creator.Some? ==> r.details.actors.value == [ActorData(v.creator.value, "Creator")]
  {
    var actors := match v.creator
      case None => []
      case Some(c) => [ActorData(c, "Creator")];
    MovieLoad(v.title, ArchiveRecords.DetailsUrl(v.identifier), Movie, v.identifier,
              Details(Some(v.description), None, None, ArchiveRecords.PosterUrl(v.identifier), Some(actors)))
  }

  /**
   * `load`: the identifier is the text after the URL's last '/'; `fetch`
   * is what the metadata request behind a URL yields. A failed request
   * throws, metadata that does not decode gives null.
   */
  function Load(url: string, fetch: string -> Fetched<VideoEntry>): (r: Outcome<Option<LoadResponse>>)
    ensures var res := fetch(ArchiveRecords.MainUrl + "/metadata/" + ArchiveRecords.IdentifierOf(url));
            && (r.Threw? <==> res.RequestFailed?)
            && (r == Returned(None) <==> res.Undecodable?)
            && (res.Decoded? ==> r == Returned(Some(ToLoadResponse(res.value))))
  {
    var identifier := SubstringAfterLast(url, '/');
    match fetch(ArchiveRecords.MainUrl + "/metadata/" + identifier)
    case RequestFailed => Threw
    case Undecodable => Returned(None)
    case Decoded(v) => Returned(Some(ToLoadResponse(v)))
  }

  /** Opening "path/identifier" requests the metadata of that identifier. */
  lemma LoadOfPath(path: string, identifier: string, fetch: string -> Fetched<VideoEntry>)
    requires '/' !in identifier
    ensures fetch(ArchiveRecords.MainUrl + "/metadata/" + identifier).Decoded? ==>
              Load(path + "/" + identifier, fetch) == Returned(Some(ToLoadResponse(fetch(ArchiveRecords.MainUrl + "/metadata/" + identifier).value)))
  {
    ArchiveRecords.AfterLastSlashOfJoin(path, identifier);
  }

  /** `it.attr("height").toIntOrNull() ?: 0`. */
  function HeightOf(e: Element): (h: int)
    ensures ToIntOrNull(Attr(e.height)).None? ==> h == 0
    ensures h != 0 ==> ToIntOrNull(Attr(e.height)) == Some(h)
  {
    ToIntOrNull(Attr(e.height)).GetOr(0)
  }

  /** A `video source` gives a link when it has a non-empty `src` and a positive height. */
  predicate Qualifies(e: Element) {
    |Attr(e.src)| > 0 && HeightOf(e) > 0
  }

  /** The qualifying sources, in document order. */
  function QualifyingSources(sources: seq<Element>): (r: seq<Element>)
    ensures |r| <= |sources|
    ensures forall e :: e in r <==> e in sources && Qualifies(e)
  {
    if sources == [] then []
    else
      var prev := QualifyingSources(sources[..|sources| - 1]);
      var last := sources[|sources| - 1];
      assert sources == sources[..|sources| - 1] + [last];
      if Qualifies(last) then prev + [last] else prev
  }

  /** The link of a qualifying source: its URL, its height as quality, the extractor's name as source and label. */
  function SourceLink(e: Element): ExtractorLink {
    ExtractorLink(ExampleName, ExampleName, Attr(e.src), "", Pixels(HeightOf(e)))
  }

  /** `document.select("video source").forEach { ... }`: one link per qualifying source, in document order. */
  function VideoLinks(sources: seq<Element>): (r: seq<ExtractorLink>)
    ensures |r| == |QualifyingSources(sources)|
  {
    var q := QualifyingSources(sources);
    seq(|q|, i requires 0 <= i < |q| => SourceLink(q[i]))
  }

  /**
   * Every emitted link has a non-empty URL, a positive 32-bit pixel height
   * as quality, no referer and the extractor's name as source and label,
   * and comes from a qualifying source of the page.
   */
  lemma VideoLinkFields(sources: seq<Element>)
    ensures forall l :: l in VideoLinks(sources) ==>
              && l.source == ExampleName && l.name == ExampleName && l.referer == "" && |l.url| > 0
              && l.quality.Pixels? && 0 < l.quality.height <= IntMax
              && exists e :: e in sources && Qualifies(e) && l.url == Attr(e.src)
  {
    var q := QualifyingSources(sources);
    forall l | l in VideoLinks(sources)
      ensures && l.source == ExampleName && l.name == ExampleName && l.referer == "" && |l.url| > 0
              && l.quality.Pixels? && 0 < l.quality.height <= IntMax
              && exists e :: e in sources && Qualifies(e) && l.url == Attr(e.src)
    {
      var i :| 0 <= i < |q| && VideoLinks(sources)[i] == l;
      assert q[i] in q;
    }
  }

  /** The loop body: the link of a qualifying source is passed on, any other source is skipped. */
  lemma VideoLinksSnoc(sources: seq<Element>, i: nat)
    requires i < |sources|
    ensures VideoLinks(sources[..i + 1])
            == VideoLinks(sources[..i]) + (if Qualifies(sources[i]) then [SourceLink(sources[i])] else [])
  {
    assert sources[..i + 1][..i] == sources[..i];
  }

  /** The `forEach`, passing each link on as it is found. */
  method EmitVideoLinks(sources: seq<Element>) returns (links: seq<ExtractorLink>)
    ensures links == VideoLinks(sources)
  {
    links := [];
    for i := 0 to |sources|
      invariant links == VideoLinks(sources[..i])
    {
      VideoLinksSnoc(sources, i);
      var videoUrl := Attr(sources[i].src);
      var height := ToIntOrNull(Attr(sources[i].height)).GetOr(0);
      if |videoUrl| > 0 && height > 0 {
        links := links + [ExtractorLink(ExampleName, ExampleName, videoUrl, "", Pixels(height))];
      }
    }
    assert sources[..|sources|] == sources;
  }

  /**
   * `getUrl` as a specification: the cache step, then the links of the
   * page's video sources; a failed fetch emits nothing.
   */
  function Resolve(entries: map<string, Document>, url: string, fetch: string -> Option<Document>)
    : (r: (seq<ExtractorLink>, map<string, Document>))
    ensures r.1 == Lookup(entries, url, fetch).1
    ensures Lookup(entries, url, fetch).0.None? ==> r.0 == []
  {
    var (doc, next) := Lookup(entries, url, fetch);
    match doc
    case None => ([], next)
    case Some(d) => (VideoLinks(d.videoSources), next)
  }

  /** `ExampleExtractor.getUrl`: `archivedItems` is the extractor's own companion cache. */
  method GetUrl(archivedItems: DocumentCache, url: string, fetch: string -> Option<Document>)
    returns (links: seq<ExtractorLink>)
    modifies archivedItems
    ensures (links, archivedItems.entries) == Resolve(old(archivedItems.entries), url, fetch)
    ensures Extends(old(archivedItems.entries), archivedItems.entries)
  {
    var document := archivedItems.Get(url, fetch);
    if document.None? {
      return [];
    }
    links := EmitVideoLinks(document.value.videoSources);
  }

  lemma SmallHeights()
    ensures ToIntOrNull("720") == Some(720)
    ensures ToIntOrNull("auto").None? && ToIntOrNull("-480").Some? && ToIntOrNull("-480").value < 0
  {
    var a := "720";
    assert a[..2] == "72" && "72"[..1] == "7" && "7"[..0] == [];
    var b := "-480";
    assert b[1..] == "480";
    assert "480"[..2] == "48" && "48"[..1] == "4" && "4"[..0] == [];
    assert !AllDigits("auto") by { assert !IsDigit("auto"[0]); }
  }

  /**
   * A page with a 720-pixel source, one whose height is not a number, one
   * with a negative height and one without a URL gives a single link.
   */
  lemma ExampleSources()
    ensures var sources := [Element(None, None, Some("a.mp4"), Some("720")),
                            Element(None, None, Some("b.mp4"), Some("auto")),
                            Element(None, None, Some("c.mp4"), Some("-480")),
                            Element(None, None, Some(""), Some("720"))];
            VideoLinks(sources) == [ExtractorLink(ExampleName, ExampleName, "a.mp4", "", Pixels(720))]
  {
    var sources := [Element(None, None, Some("a.mp4"), Some("720")),
                    Element(None, None, Some("b.mp4"), Some("auto")),
                    Element(None, None, Some("c.mp4"), Some("-480")),
                    Element(None, None, Some(""), Some("720"))];
    SmallHeights();
    assert Qualifies(sources[0]) && !Qualifies(sources[1]) && !Qualifies(sources[2]) && !Qualifies(sources[3]);
    assert sources[..1][..0] == [];
    assert QualifyingSources(sources[..1]) == [sources[0]];
    assert sources[..2][..1] == sources[..1];
    assert QualifyingSources(sources[..2]) == [sources[0]];
    assert sources[..3][..2] == sources[..2];
    assert QualifyingSources(sources[..3]) == [sources[0]];
    assert sources[..3] == sources[..|sources| - 1];
    assert QualifyingSources(sources) == [sources[0]];
  }
}
