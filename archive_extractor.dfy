/**
 * `InternetArchiveExtractor.getUrl`: the item page comes from the
 * extractor's page cache (or is fetched into it); its media download
 * anchors, or failing those its `og:video` metas, each become a link whose
 * quality tier is read off the file name and whose label is the decoded
 * file name with its extension in parentheses.
 */
module ArchiveExtractor {
  import opened Options
  import opened KotlinText
  import opened HostApi
  import opened Documents
  import opened ArchiveRecords
  import opened Collections
  import ArchiveLinks

  /** The extensions, compared ignoring case, that mark a download anchor as media. */
  const MediaExtensions: seq<string> := [".mp4", ".mpg", ".mkv", ".avi", ".ogv", ".ogg", ".mp3", ".wav", ".flac"]

  predicate HasMediaExtension(href: string) {
    exists k :: 0 <= k < |MediaExtensions| && EndsWithIgnoreCase(href, MediaExtensions[k])
  }

  /** A download anchor is kept when its href ends with a media extension. */
  predicate IsMediaAnchor(e: Element) { HasMediaExtension(Attr(e.href)) }

  /** `fileLinks`: the media anchors, in page order. */
  function FileLinks(anchors: seq<Element>): (r: seq<Element>)
    ensures |r| <= |anchors|
    ensures forall e :: e in r <==> e in anchors && IsMediaAnchor(e)
  {
    Filter(anchors, IsMediaAnchor)
  }

  /**
   * The selection keeps page order and multiplicity: each anchor in turn
   * is appended when it has a media extension and skipped otherwise.
   */
  lemma FileLinksSnoc(anchors: seq<Element>, i: nat)
    requires i < |anchors|
    ensures FileLinks(anchors[..i + 1]) == FileLinks(anchors[..i]) + (if IsMediaAnchor(anchors[i]) then [anchors[i]] else [])
  {
    FilterSnoc(anchors, i, IsMediaAnchor);
  }

  /**
   * `fileLinks.ifEmpty { og:video metas }`: the media anchors when there is
   * one, and the `og:video` metas only when there is none.
   */
  function Selected(doc: Document): (r: seq<Element>)
    ensures (forall e :: e in doc.downloadAnchors ==> !IsMediaAnchor(e)) ==> r == doc.ogVideoMetas
    ensures (exists e :: e in doc.downloadAnchors && IsMediaAnchor(e)) ==>
              r == FileLinks(doc.downloadAnchors) && forall e :: e in r <==> e in doc.downloadAnchors && IsMediaAnchor(e)
  {
    var fileLinks := FileLinks(doc.downloadAnchors);
    if fileLinks == [] then doc.ogVideoMetas
    else
      assert fileLinks[0] in fileLinks;
      fileLinks
  }

  /**
   * `mediaUrl`: an href is resolved against the site, otherwise the
   * `content` is taken as it is; an element with neither is skipped.
   */
  function MediaUrl(e: Element): (r: Option<string>)
    ensures r.None? <==> e.href.None? && e.content.None?
    ensures e.href.Some? ==> r == Some(MainUrl + e.href.value)
    ensures e.href.None? && e.content.Some? ==> r == Some(e.content.value)
  {
    if e.href.Some? then Some(MainUrl + e.href.value)
    else if e.content.Some? then Some(e.content.value)
    else None
  }

  /** `fileName`: the last path segment of the media URL. */
  function FileNameOf(mediaUrl: string): (r: string)
    ensures '/' !in r && |r| <= |mediaUrl|
  {
    SubstringAfterLast(mediaUrl, '/')
  }

  /** The quality `when`: "1080" before "720" before "480", anywhere in the file name. */
  function QualityOf(fileName: string): (q: Quality)
    ensures q == P1080 <==> ContainsIgnoreCase(fileName, "1080")
    ensures q == P720 <==> !ContainsIgnoreCase(fileName, "1080") && ContainsIgnoreCase(fileName, "720")
    ensures q == P480 <==> (!ContainsIgnoreCase(fileName, "1080") && !ContainsIgnoreCase(fileName, "720")
                            && ContainsIgnoreCase(fileName, "480"))
    ensures q == QualityUnknown <==> (!ContainsIgnoreCase(fileName, "1080") && !ContainsIgnoreCase(fileName, "720")
                                      && !ContainsIgnoreCase(fileName, "480"))
  {
    if ContainsIgnoreCase(fileName, "1080") then P1080
    else if ContainsIgnoreCase(fileName, "720") then P720
    else if ContainsIgnoreCase(fileName, "480") then P480
    else QualityUnknown
  }

  /**
   * The quality of a link depends on its file name only: markers in the
   * directories above it are ignored.
   */
  lemma QualityIgnoresDirectories(dirs: string, fileName: string)
    requires '/' !in fileName
    ensures QualityOf(FileNameOf(dirs + "/" + fileName)) == QualityOf(fileName)
  {
    LastCut(dirs, '/', fileName);
    assert dirs + "/" + fileName == dirs + ['/'] + fileName;
  }

  /**
   * The label of a link: for a URL of more than one character, the
   * decoded file name without its extension and the URL's extension in
   * parentheses; `None` when `decodeUri` throws. `decode` stands for
   * `URLDecoder.decode(_, "utf8")`.
   */
  function LinkLabel(mediaUrl: string, decode: string -> Option<string>): (r: Option<string>)
    ensures |mediaUrl| <= 1 ==> r == Some(ProviderName)
    ensures |mediaUrl| > 1 ==> (r.None? <==> decode(FileNameOf(mediaUrl)).None?)
  {
    if |mediaUrl| > 1 then
      match decode(FileNameOf(mediaUrl))
      case None => None
      case Some(decoded) => Some(SubstringBeforeLast(decoded, '.') + " (" + ArchiveLinks.Extension(mediaUrl) + ")")
    else Some(ProviderName)
  }

  /**
   * A file "stem.ext" whose name decodes to "title.ext" is labelled
   * "title (ext)".
   */
  lemma LabelOfFile(dirs: string, stem: string, ext: string, title: string, decode: string -> Option<string>)
    requires '/' !in stem && '/' !in ext && '.' !in ext
    requires decode(stem + "." + ext) == Some(title + "." + ext)
    ensures LinkLabel(dirs + "/" + stem + "." + ext, decode) == Some(title + " (" + ext + ")")
  {
    var url := dirs + "/" + stem + "." + ext;
    assert url == dirs + ['/'] + (stem + "." + ext);
    LastCut(dirs, '/', stem + "." + ext);
    assert url == (dirs + "/" + stem) + ['.'] + ext;
    LastCut(dirs + "/" + stem, '.', ext);
    assert title + "." + ext == title + ['.'] + ext;
    LastCut(title, '.', ext);
  }

  /** The links passed to `callback`, in order, and whether an exception ended the `forEach`. */
  datatype Emission = Emission(links: seq<ExtractorLink>, thrown: bool)

  /** The decoder is asked about `mediaUrl` and throws. */
  predicate Throws(mediaUrl: string, decode: string -> Option<string>) {
    |mediaUrl| > 1 && decode(FileNameOf(mediaUrl)).None?
  }

  /** One turn of the `forEach`: skip the element, emit its link, or throw. */
  function Step(acc: Emission, e: Element, decode: string -> Option<string>): (r: Emission)
    requires !acc.thrown
  {
    match MediaUrl(e)
    case None => acc
    case Some(mediaUrl) =>
      if |mediaUrl| == 0 then acc
      else match LinkLabel(mediaUrl, decode)
        case None => Emission(acc.links, true)
        case Some(name) =>
          Emission(acc.links + [ExtractorLink(ProviderName, name, mediaUrl, "", QualityOf(FileNameOf(mediaUrl)))], false)
  }

  /** `select.forEach { ... }` over the selected elements, stopping at an exception. */
  function EmitAll(select: seq<Element>, decode: string -> Option<string>): Emission {
    if select == [] then Emission([], false)
    else
      var prev := EmitAll(select[..|select| - 1], decode);
      if prev.thrown then prev else Step(prev, select[|select| - 1], decode)
  }

  /** The non-empty media URLs of the selected elements, in page order. */
  function MediaUrls(select: seq<Element>): (r: seq<string>)
    ensures forall u :: u in r ==> |u| > 0
  {
    if select == [] then []
    else
      var prev := MediaUrls(select[..|select| - 1]);
      match MediaUrl(select[|select| - 1])
      case Some(u) => if |u| > 0 then prev + [u] else prev
      case None => prev
  }

  /** Once the decoder has thrown, later elements change nothing. */
  lemma {:induction false} ThrownIsFinal(select: seq<Element>, i: nat, decode: string -> Option<string>)
    requires i <= |select| && EmitAll(select[..i], decode).thrown
    ensures EmitAll(select, decode) == EmitAll(select[..i], decode)
    decreases |select| - i
  {
    if i < |select| {
      assert select[..i + 1][..i] == select[..i];
      ThrownIsFinal(select, i + 1, decode);
    } else {
      assert select[..i] == select;
    }
  }

  /**
   * The emitted links carry the media URLs in page order, stopping short
   * only where the decoder throws; the `forEach` throws exactly when the
   * decoder fails on one of those URLs.
   */
  lemma EmitAllUrls(select: seq<Element>, decode: string -> Option<string>)
    ensures var out := EmitAll(select, decode);
            && ArchiveLinks.UrlsOf(out.links) <= MediaUrls(select)
            && (!out.thrown ==> ArchiveLinks.UrlsOf(out.links) == MediaUrls(select))
            && (out.thrown <==> exists u :: u in MediaUrls(select) && Throws(u, decode))
  {
    EmitAllPrefix(select, decode);
    EmitAllThrows(select, decode);
  }

  /** The emitted URLs are a prefix of the media URLs, all of them when nothing throws. */
  lemma {:induction false} EmitAllPrefix(select: seq<Element>, decode: string -> Option<string>)
    ensures var out := EmitAll(select, decode);
            && ArchiveLinks.UrlsOf(out.links) <= MediaUrls(select)
            && (!out.thrown ==> ArchiveLinks.UrlsOf(out.links) == MediaUrls(select))
  {
    if select != [] {
      var init, e := select[..|select| - 1], select[|select| - 1];
      EmitAllPrefix(init, decode);
      var prev := EmitAll(init, decode);
      if !prev.thrown {
        match MediaUrl(e)
        case None =>
        case Some(u) =>
          if |u| > 0 {
            assert MediaUrls(select) == MediaUrls(init) + [u];
            var out := EmitAll(select, decode);
            if !out.thrown {
              assert ArchiveLinks.UrlsOf(out.links) == ArchiveLinks.UrlsOf(prev.links) + [u];
            }
          }
      }
    }
  }

  /** The `forEach` throws exactly when the decoder fails on one of the media URLs. */
  lemma {:induction false} EmitAllThrows(select: seq<Element>, decode: string -> Option<string>)
    ensures EmitAll(select, decode).thrown <==> exists u :: u in MediaUrls(select) && Throws(u, decode)
  {
    if select != [] {
      var init, e := select[..|select| - 1], select[|select| - 1];
      EmitAllThrows(init, decode);
      var prev := EmitAll(init, decode);
      var urls := MediaUrls(init);
      if !prev.thrown {
        match MediaUrl(e)
        case None =>
        case Some(u) =>
          if |u| > 0 {
            assert MediaUrls(select) == urls + [u];
            if EmitAll(select, decode).thrown {
              assert Throws(u, decode);
            }
          }
      } else {
        var u0 :| u0 in urls && Throws(u0, decode);
        assert u0 in MediaUrls(select);
      }
    }
  }

  /**
   * Every emitted link has the extractor as source, no referer, a non-empty
   * URL, the quality of its file name, and a label from `LinkLabel`.
   */
  lemma {:induction false} EmittedLinkFields(select: seq<Element>, decode: string -> Option<string>)
    ensures forall l :: l in EmitAll(select, decode).links ==>
              && l.source == ProviderName && l.referer == "" && |l.url| > 0
              && l.quality == QualityOf(FileNameOf(l.url))
              && LinkLabel(l.url, decode) == Some(l.name)
  {
    if select != [] {
      EmittedLinkFields(select[..|select| - 1], decode);
    }
  }

  /** `forEach` with its early exit: emits link by link until the decoder throws. */
  method EmitLinks(select: seq<Element>, decode: string -> Option<string>)
    returns (links: seq<ExtractorLink>, thrown: bool)
    ensures Emission(links, thrown) == EmitAll(select, decode)
  {
    links, thrown := [], false;
    var i := 0;
    while i < |select| && !thrown
      invariant i <= |select|
      invariant Emission(links, thrown) == EmitAll(select[..i], decode)
    {
      assert select[..i + 1][..i] == select[..i];
      var out := Step(Emission(links, thrown), select[i], decode);
      links, thrown := out.links, out.thrown;
      i := i + 1;
    }
    if thrown {
      ThrownIsFinal(select, i, decode);
    } else {
      assert select[..i] == select;
    }
  }

  /**
   * `getUrl` as a specification: the cache step, then (when a page was
   * found) the emission over its selected elements; a failed fetch emits
   * nothing and does not throw.
   */
  function Resolve(entries: map<string, Document>, url: string, fetch: string -> Option<Document>,
                   decode: string -> Option<string>): (r: (Emission, map<string, Document>))
    ensures r.1 == Lookup(entries, url, fetch).1
    ensures Lookup(entries, url, fetch).0.None? ==> r.0 == Emission([], false)
  {
    var (doc, next) := Lookup(entries, url, fetch);
    match doc
    case None => (Emission([], false), next)
    case Some(d) => (EmitAll(Selected(d), decode), next)
  }

  /**
   * Resolving the same page twice emits the same links the second time,
   * from the cache, whatever the network would now return.
   */
  lemma ResolveTwice(entries: map<string, Document>, url: string, first: string -> Option<Document>,
                     second: string -> Option<Document>, decode: string -> Option<string>)
    requires Lookup(entries, url, first).0.Some?
    ensures var (out, next) := Resolve(entries, url, first, decode);
            Resolve(next, url, second, decode) == (out, next)
  {
    LookupTwice(entries, url, first, second);
  }

  /**
   * `getUrl`: `archivedItems` is the extractor's companion cache, `fetch`
   * stands for `Jsoup.connect(url).get()`.
   */
  method GetUrl(archivedItems: DocumentCache, url: string, fetch: string -> Option<Document>,
                decode: string -> Option<string>) returns (links: seq<ExtractorLink>, thrown: bool)
    modifies archivedItems
    ensures (Emission(links, thrown), archivedItems.entries) == Resolve(old(archivedItems.entries), url, fetch, decode)
    ensures Extends(old(archivedItems.entries), archivedItems.entries)
  {
    var document := archivedItems.Get(url, fetch);
    if document.None? {
      return [], false;
    }
    links, thrown := EmitLinks(Selected(document.value), decode);
  }
}
