/**
 * The Internet Archive provider's decoded records and its mapping of a
 * search hit to a search result (`SearchEntry.toSearchResponse`).
 */
module ArchiveRecords {
  import opened Options
  import opened KotlinText
  import opened HostApi

  const MainUrl: string := "https://archive.org"
  const ProviderName: string := "Internet Archive"

  datatype SearchEntry = SearchEntry(identifier: string, mediatype: string, title: Option<string>)

  datatype MediaEntry = MediaEntry(identifier: string, mediatype: string, title: Option<string>,
                                   description: Option<string>, subject: Option<seq<string>>,
                                   creator: Option<seq<string>>, date: Option<string>)

  datatype MediaFile = MediaFile(name: string, source: string, format: string, original: Option<string>,
                                 length: Option<string>)

  datatype MetadataResult = MetadataResult(metadata: MediaEntry, files: seq<MediaFile>, dir: string,
                                           server: string)

  function DetailsUrl(identifier: string): string { MainUrl + "/details" + "/" + identifier }

  function PosterUrl(identifier: string): string { MainUrl + "/services/img" + "/" + identifier }

  /** Audio items are music; everything else is shown as a movie. */
  function TypeOf(mediatype: string): (t: TvType)
    ensures t == Music <==> mediatype == "audio"
    ensures t == Music || t == Movie
  {
    if mediatype == "audio" then Music else Movie
  }

  /** `load` takes the identifier as the text after the last '/' of the URL. */
  function IdentifierOf(url: string): (identifier: string)
    ensures '/' !in identifier
    ensures |identifier| <= |url| && url[|url| - |identifier|..] == identifier
    ensures '/' !in url ==> identifier == url
    ensures '/' in url ==> |identifier| < |url| && url[|url| - |identifier| - 1] == '/'
  {
    AfterLastIsSuffix(url, '/');
    SubstringAfterLast(url, '/')
  }

  /** A hit is shown under its title, or its identifier when it has none. */
  function ToSearchResponse(e: SearchEntry): (r: SearchResponse)
    ensures r.name == (if e.title.Some? then e.title.value else e.identifier)
    ensures r.tvType == Music <==> e.mediatype == "audio"
    ensures r.posterUrl.Some?
  {
    SearchResponse(e.title.GetOr(e.identifier), DetailsUrl(e.identifier), TypeOf(e.mediatype),
                   Some(PosterUrl(e.identifier)))
  }

  /**
   * The details URL of a search result leads `load` back to the same
   * identifier, and the poster URL ends with it too.
   */
  lemma SearchResultRoundTrip(e: SearchEntry)
    requires '/' !in e.identifier
    ensures IdentifierOf(ToSearchResponse(e).url) == e.identifier
    ensures IdentifierOf(ToSearchResponse(e).posterUrl.value) == e.identifier
  {
    AfterLastSlashOfJoin(MainUrl + "/details", e.identifier);
    AfterLastSlashOfJoin(MainUrl + "/services/img", e.identifier);
  }

  /** The text after the last '/' of `prefix + "/" + id` is `id` when `id` has no '/'. */
  lemma AfterLastSlashOfJoin(prefix: string, id: string)
    requires '/' !in id
    ensures SubstringAfterLast(prefix + "/" + id, '/') == id
  {
    var s := prefix + "/" + id;
    assert s[|prefix|] == '/';
    assert s[|prefix| + 1..] == id;
  }

  /**
   * `search` and `getMainPage`: one result per decoded hit, in order; a
   * response that fails to decode gives no results.
   */
  function SearchResults(docs: Option<seq<SearchEntry>>): (r: seq<SearchResponse>)
    ensures docs.None? ==> r == []
    ensures docs.Some? ==> |r| == |docs.value|
    ensures docs.Some? ==> forall i :: 0 <= i < |r| ==>
              r[i] == ToSearchResponse(docs.value[i])
              && r[i].posterUrl == Some(PosterUrl(docs.value[i].identifier))
              && r[i].url == DetailsUrl(docs.value[i].identifier)
  {
    match docs
    case None => []
    case Some(d) => seq(|d|, i requires 0 <= i < |d| => ToSearchResponse(d[i]))
  }
}
