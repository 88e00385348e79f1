/**
 * The parsed HTML pages the extractors read, and the process-wide page
 * cache each extractor keeps in its companion object (`archivedItems`):
 * a map from page URL to parsed document that is filled on a miss and
 * never evicted or overwritten.
 */
module Documents {
  import opened Options

  /**
   * An element of a page with the attributes the extractors read; an
   * absent attribute is `None` (`hasAttr` is false, `attr` gives "").
   */
  datatype Element = Element(href: Option<string>, content: Option<string>, src: Option<string>,
                             height: Option<string>)

  /** Jsoup's `attr(name)`: the attribute's value, or "" when it is absent. */
  function Attr(value: Option<string>): (r: string)
    ensures value.None? ==> r == []
    ensures value.Some? ==> r == value.value
  {
    value.GetOr([])
  }

  /**
   * A parsed page, given as the elements each extractor's CSS query selects,
   * in document order: `a[href*="/download/"]`, the head's
   * `meta[property="og:video"]`, and `video source`.
   */
  datatype Document = Document(downloadAnchors: seq<Element>, ogVideoMetas: seq<Element>,
                               videoSources: seq<Element>)

  /**
   * The cache step of `getUrl`: the cached page when there is one (the
   * fetch is not consulted), otherwise the fetched page, which is then
   * cached; a failed fetch leaves the cache as it was. The result is the
   * page `getUrl` works on (absent when it gives up) and the new cache.
   */
  function Lookup(entries: map<string, Document>, url: string, fetch: string -> Option<Document>)
    : (r: (Option<Document>, map<string, Document>))
    ensures url in entries ==> r == (Some(entries[url]), entries)
    ensures url !in entries ==> r.0 == fetch(url)
    ensures r.0.Some? <==> url in r.1
    ensures r.0.Some? ==> r.1[url] == r.0.value
    ensures r.1.Keys == entries.Keys + (if r.0.Some? then {url} else {})
  {
    if url in entries then (Some(entries[url]), entries)
    else match fetch(url)
      case None => (None, entries)
      case Some(doc) => (Some(doc), entries[url := doc])
  }

  /** `next` holds every entry of `prev` unchanged. */
  ghost predicate Extends(prev: map<string, Document>, next: map<string, Document>) {
    forall u :: u in prev ==> u in next && next[u] == prev[u]
  }

  /** The cache is insert-only: a lookup never removes or replaces an entry. */
  lemma LookupOnlyInserts(entries: map<string, Document>, url: string, fetch: string -> Option<Document>)
    ensures Extends(entries, Lookup(entries, url, fetch).1)
    ensures |Lookup(entries, url, fetch).1| <= |entries| + 1
  {
    var next := Lookup(entries, url, fetch).1;
    if url !in entries && next != entries {
      assert next.Keys == entries.Keys + {url};
      assert |next.Keys| == |entries.Keys| + 1;
    }
  }

  /**
   * Resolving a URL again after it was resolved once gives the same page,
   * whatever the network would now return, and leaves the cache as it is.
   */
  lemma LookupTwice(entries: map<string, Document>, url: string,
                    first: string -> Option<Document>, second: string -> Option<Document>)
    requires Lookup(entries, url, first).0.Some?
    ensures var (doc, next) := Lookup(entries, url, first);
            Lookup(next, url, second) == (doc, next)
  {
  }

  /** A page cache: `entries` is the companion object's `archivedItems`. */
  class DocumentCache {
    var entries: map<string, Document>

    constructor ()
      ensures entries == map[]
    {
      entries := map[];
    }

    /**
     * `archivedItems[url] ?: run { ... }`: look the page up, and on a miss
     * fetch it (`fetch` stands for `Jsoup.connect(url).get()`, `None` when
     * it throws) and store it.
     */
    method Get(url: string, fetch: string -> Option<Document>) returns (doc: Option<Document>)
      modifies this
      ensures (doc, entries) == Lookup(old(entries), url, fetch)
      ensures Extends(old(entries), entries)
      ensures url in old(entries) ==> doc == Some(old(entries)[url]) && entries == old(entries)
      ensures url !in old(entries) && doc.None? ==> entries == old(entries)
    {
      LookupOnlyInserts(entries, url, fetch);
      if url in entries {
        doc := Some(entries[url]);
        return;
      }
      doc := fetch(url);
      if doc.Some? {
        entries := entries[url := doc.value];
      }
    }
  }
}
