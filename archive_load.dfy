/**
 * `MetadataResult.toLoadResponse` and `load` of the Internet Archive
 * provider: which files count as video, whether an item is shown as one
 * movie or as a playlist series, how files are grouped into episodes and
 * how the episodes are ordered.
 */
module ArchiveLoad {
  import opened Options
  import opened KotlinText
  import opened Collections
  import opened Grouping
  import opened StableSort
  import opened HostApi
  import opened ArchiveRecords
  import opened ArchiveClassifier

  /**
   * The filter of `toLoadResponse`: a file is a video when it lasts long
   * enough (`longEnough`, the duration test on the `length` field) and its
   * format names a video container.
   */
  predicate IsVideoFile(f: MediaFile, longEnough: Option<string> -> bool) {
    longEnough(f.length) && IsVideoFormat(f.format)
  }

  /** `videoFiles`: the video files, in file order. */
  function VideoFiles(files: seq<MediaFile>, longEnough: Option<string> -> bool): (r: seq<MediaFile>)
    ensures |r| <= |files|
    ensures forall f :: f in r <==> f in files && IsVideoFile(f, longEnough)
  {
    Filter(files, f => IsVideoFile(f, longEnough))
  }

  /**
   * The filter keeps file order and multiplicity: each file in turn is
   * appended when it is a video file and skipped otherwise.
   */
  lemma VideoFilesSnoc(files: seq<MediaFile>, i: nat, longEnough: Option<string> -> bool)
    requires i < |files|
    ensures VideoFiles(files[..i + 1], longEnough)
            == VideoFiles(files[..i], longEnough) + (if IsVideoFile(files[i], longEnough) then [files[i]] else [])
  {
    FilterSnoc(files, i, f => IsVideoFile(f, longEnough));
  }

  /** The cleaned name of each video file, in file order (`CleanedNamesAt`). */
  function CleanedNames(vs: seq<MediaFile>): (r: seq<string>)
    ensures |r| == |vs|
  {
    if vs == [] then [] else CleanedNames(vs[..|vs| - 1]) + [CleanedName(vs[|vs| - 1].name)]
  }

  lemma {:induction false} CleanedNamesAt(vs: seq<MediaFile>, k: nat)
    requires k < |vs|
    ensures CleanedNames(vs)[k] == CleanedName(vs[k].name)
  {
    if k < |vs| - 1 {
      CleanedNamesAt(vs[..|vs| - 1], k);
    }
  }

  /** The unique name of each video file, in file order (`UniqueNamesAt`). */
  function UniqueNames(vs: seq<MediaFile>): (r: seq<string>)
    ensures |r| == |vs|
  {
    if vs == [] then [] else UniqueNames(vs[..|vs| - 1]) + [UniqueName(vs[|vs| - 1].name)]
  }

  lemma {:induction false} UniqueNamesAt(vs: seq<MediaFile>, k: nat)
    requires k < |vs|
    ensures UniqueNames(vs)[k] == UniqueName(vs[k].name)
  {
    if k < |vs| - 1 {
      UniqueNamesAt(vs[..|vs| - 1], k);
    }
  }

  /** The URL of each video file, in file order (`FileUrlsAt`). */
  function FileUrls(server: string, dir: string, vs: seq<MediaFile>): (r: seq<string>)
    ensures |r| == |vs|
  {
    if vs == [] then [] else FileUrls(server, dir, vs[..|vs| - 1]) + [FileUrl(server, dir, vs[|vs| - 1].name)]
  }

  lemma {:induction false} FileUrlsAt(server: string, dir: string, vs: seq<MediaFile>, k: nat)
    requires k < |vs|
    ensures FileUrls(server, dir, vs)[k] == FileUrl(server, dir, vs[k].name)
  {
    if k < |vs| - 1 {
      FileUrlsAt(server, dir, vs[..|vs| - 1], k);
    }
  }

  /**
   * The body of the `forEach` that fills `urlMap`: the file's URL joins the
   * set of its cleaned name, and a name seen for the first time becomes a
   * new key at the end of the map's key order.
   */
  method AddFile(server: string, dir: string, file: MediaFile, keys: seq<string>, urlMap: map<string, seq<string>>)
    returns (keys': seq<string>, urlMap': map<string, seq<string>>)
    ensures var cleanedName := CleanedName(file.name);
            && keys' == (if cleanedName in urlMap then keys else keys + [cleanedName])
            && urlMap' == Put(urlMap, cleanedName, FileUrl(server, dir, file.name))
  {
    var cleanedName := CleanedName(file.name);
    var videoFileUrl := FileUrl(server, dir, file.name);
    keys', urlMap' := keys, urlMap;
    if cleanedName in urlMap' {
      var group := urlMap'[cleanedName];
      if videoFileUrl !in group {
        group := group + [videoFileUrl];
      }
      urlMap' := urlMap'[cleanedName := group];
    } else {
      urlMap' := urlMap'[cleanedName := [videoFileUrl]];
      keys' := keys' + [cleanedName];
    }
  }

  /**
   * The `forEach` that fills `urlMap` (a `LinkedHashMap` of
   * `LinkedHashSet`s): `keys` is the map's key order, each cleaned name
   * once, where a file first carries it; each key holds the URLs of exactly
   * the files with that name.
   */
  method GroupByCleanedName(server: string, dir: string, vs: seq<MediaFile>)
    returns (keys: seq<string>, urlMap: map<string, seq<string>>)
    ensures keys == Dedup(CleanedNames(vs))
    ensures forall key :: key in urlMap <==> key in keys
    ensures forall key :: key in urlMap ==> urlMap[key] == Group(CleanedNames(vs), FileUrls(server, dir, vs), key)
  {
    ghost var names, urls := CleanedNames(vs), FileUrls(server, dir, vs);
    keys, urlMap := [], map[];
    for i := 0 to |vs|
      invariant Grouped(names, urls, i, keys, urlMap)
    {
      ghost var keys0, urlMap0 := keys, urlMap;
      keys, urlMap := AddFile(server, dir, vs[i], keys, urlMap);
      CleanedNamesAt(vs, i);
      FileUrlsAt(server, dir, vs, i);
      GroupStep(names, urls, i, keys0, urlMap0, keys, urlMap);
    }
    GroupedAll(names, urls, keys, urlMap);
  }

  /** Two files in one item have one URL only when they have one name. */
  lemma FileUrlInjective(server: string, dir: string, a: string, b: string)
    requires FileUrl(server, dir, a) == FileUrl(server, dir, b)
    ensures a == b
  {
    var prefix := "https://" + server + dir + "/";
    assert FileUrl(server, dir, a) == prefix + a;
    assert FileUrl(server, dir, b) == prefix + b;
    assert a == (prefix + a)[|prefix|..];
  }

  /** A file's URL lands in the group of its own cleaned name and in no other. */
  lemma FileInItsGroupOnly(server: string, dir: string, vs: seq<MediaFile>, k: nat, key: string)
    requires k < |vs|
    ensures var names, urls := CleanedNames(vs), FileUrls(server, dir, vs);
            urls[k] in Group(names, urls, key) <==> key == names[k]
  {
    var names, urls := CleanedNames(vs), FileUrls(server, dir, vs);
    GroupMembers(names, urls, key, urls[k]);
    if urls[k] in Group(names, urls, key) {
      var j :| 0 <= j < |names| && names[j] == key && urls[j] == urls[k];
      FileUrlsAt(server, dir, vs, j);
      FileUrlsAt(server, dir, vs, k);
      FileUrlInjective(server, dir, vs[k].name, vs[j].name);
      CleanedNamesAt(vs, j);
      CleanedNamesAt(vs, k);
    }
  }

  /**
   * The episode of group `key`: named after the group, numbered and given a
   * thumbnail from the first video file with that cleaned name, and
   * carrying the group's URLs as a "video-playlist".
   */
  function EpisodeOf(m: MetadataResult, vs: seq<MediaFile>, key: string, urls: seq<string>): (e: Episode)
    requires key in CleanedNames(vs)
    ensures e.name == key && e.data == LoadData(urls, "video-playlist", key)
    ensures exists j :: 0 <= j < |vs| && CleanedNames(vs)[j] == key && key !in CleanedNames(vs)[..j]
                        && (e.season, e.episode) == EpisodeInfo(vs[j].name)
                        && e.posterUrl == ThumbnailUrl(m, vs[j].name)
  {
    var file := vs[FirstIndex(CleanedNames(vs), key)];
    var info := EpisodeInfo(file.name);
    Episode(LoadData(urls, "video-playlist", key), key, info.0, info.1, ThumbnailUrl(m, file.name))
  }

  /** `urlMap.map { ... }`: one episode per group, in key order. */
  function Episodes(m: MetadataResult, vs: seq<MediaFile>): (es: seq<Episode>)
    ensures var keys := Dedup(CleanedNames(vs));
            |es| == |keys|
            && (forall k :: 0 <= k < |keys| ==> keys[k] in CleanedNames(vs))
            && forall k :: 0 <= k < |es| ==>
                 es[k] == EpisodeOf(m, vs, keys[k], Group(CleanedNames(vs), FileUrls(m.server, m.dir, vs), keys[k]))
  {
    var names, urls := CleanedNames(vs), FileUrls(m.server, m.dir, vs);
    var keys := Dedup(names);
    DedupElementsIn(names);
    seq(|keys|, k requires 0 <= k < |keys| => EpisodeOf(m, vs, keys[k], Group(names, urls, keys[k])))
  }

  /** `compareBy` on a nullable number: null comes before any number. */
  predicate OptBefore(a: Option<int>, b: Option<int>) {
    (a.None? && b.Some?) || (a.Some? && b.Some? && a.value < b.value)
  }

  /** `compareBy({ it.season }, { it.episode })` as a "not after" relation. */
  predicate EpisodeLe(x: Episode, y: Episode) {
    OptBefore(x.season, y.season) || (x.season == y.season && !OptBefore(y.episode, x.episode))
  }

  /** The episode order is total and transitive, so sorting by it is well defined. */
  lemma EpisodeOrderIsTotalPreorder()
    ensures Total(EpisodeLe) && Transitive(EpisodeLe)
  {
    forall x: Episode, y: Episode ensures EpisodeLe(x, y) || EpisodeLe(y, x) {
      if x.season == y.season {
        assert !OptBefore(y.episode, x.episode) || !OptBefore(x.episode, y.episode);
      }
    }
  }

  /** An episode without a season comes before every episode with one. */
  lemma NullSeasonFirst(x: Episode, y: Episode)
    requires x.season.None? && y.season.Some?
    ensures EpisodeLe(x, y) && !EpisodeLe(y, x)
  {
  }

  /** `sortedWith(...)`: a stable sort by season, then episode. */
  function SortEpisodes(es: seq<Episode>): (r: seq<Episode>)
    ensures multiset(r) == multiset(es) && |r| == |es|
    ensures Sorted(r, EpisodeLe)
  {
    EpisodeOrderIsTotalPreorder();
    SortSorted(es, EpisodeLe);
    var r := Sort(es, EpisodeLe);
    assert |r| == |multiset(r)| == |multiset(es)| == |es|;
    r
  }

  /** Episodes that tie on (season, episode) keep their order in the group list. */
  lemma SortEpisodesIsStable(es: seq<Episode>, y: Episode)
    ensures Ties(SortEpisodes(es), y, EpisodeLe) == Ties(es, y, EpisodeLe)
  {
    EpisodeOrderIsTotalPreorder();
    SortStable(es, y, EpisodeLe);
  }

  /**
   * `tags`: a single subject is split on ';' (joining the pieces gives it
   * back); otherwise the subject list is used as it is.
   */
  function Tags(subject: Option<seq<string>>): (r: Option<seq<string>>)
    ensures subject.None? ==> r.None?
    ensures subject.Some? && |subject.value| == 1 ==>
              r.Some? && |r.value| >= 1 && Join(r.value, ';') == subject.value[0]
              && forall k :: 0 <= k < |r.value| ==> ';' !in r.value[k]
    ensures subject.Some? && |subject.value| != 1 ==> r == subject
  {
    if subject.Some? && |subject.value| == 1 then
      JoinSplit(subject.value[0], ';');
      Some(Split(subject.value[0], ';'))
    else subject
  }

  /** `actors`: every creator, credited as "Creator". */
  function Actors(creator: Option<seq<string>>): (r: Option<seq<ActorData>>)
    ensures r.None? <==> creator.None?
    ensures creator.Some? ==> (|r.value| == |creator.value|
              && forall k :: 0 <= k < |creator.value| ==> r.value[k] == ActorData(creator.value[k], "Creator"))
  {
    match creator
    case None => None
    case Some(c) => Some(seq(|c|, k requires 0 <= k < |c| => ActorData(c[k], "Creator")))
  }

  /** The fields both shapes of load response share. */
  function DetailsOf(e: MediaEntry): (d: Details)
    ensures d.posterUrl == PosterUrl(e.identifier)
    ensures d.year == ExtractYear(e.date) && d.plot == e.description
    ensures d.tags == Tags(e.subject) && d.actors == Actors(e.creator)
  {
    Details(e.description, ExtractYear(e.date), Tags(e.subject), PosterUrl(e.identifier), Actors(e.creator))
  }

  /** `videoFiles.distinctBy { getUniqueName(it.name) }.count() <= 1 || type == TvType.Music`. */
  predicate IsSingleItem(m: MetadataResult, vs: seq<MediaFile>) {
    |Dedup(UniqueNames(vs))| <= 1 || TypeOf(m.metadata.mediatype) == Music
  }

  /**
   * `toLoadResponse` as a specification: one movie (or music) item, or a
   * series of sorted episodes built from the grouped video files.
   */
  function LoadResponseOf(m: MetadataResult, longEnough: Option<string> -> bool): (r: LoadResponse)
    ensures r.name == (if m.metadata.title.Some? then m.metadata.title.value else m.metadata.identifier)
    ensures r.url == DetailsUrl(m.metadata.identifier)
    ensures r.details == DetailsOf(m.metadata)
    ensures r.MovieLoad? ==> r.dataUrl == m.metadata.identifier
                             && (r.tvType == Music <==> m.metadata.mediatype == "audio")
    ensures r.SeriesLoad? ==> r.tvType == TvSeries
    ensures r.MovieLoad? <==> IsSingleItem(m, VideoFiles(m.files, longEnough))
    ensures r.SeriesLoad? ==> r.episodes == SortEpisodes(Episodes(m, VideoFiles(m.files, longEnough)))
  {
    var vs := VideoFiles(m.files, longEnough);
    var t := TypeOf(m.metadata.mediatype);
    var name := m.metadata.title.GetOr(m.metadata.identifier);
    if IsSingleItem(m, vs) then
      MovieLoad(name, DetailsUrl(m.metadata.identifier), t, m.metadata.identifier, DetailsOf(m.metadata))
    else
      SeriesLoad(name, DetailsUrl(m.metadata.identifier), TvSeries, SortEpisodes(Episodes(m, vs)),
                 DetailsOf(m.metadata))
  }

  /** `toLoadResponse`: the filter, the shape decision, the grouping loop and the sort. */
  method ToLoadResponse(m: MetadataResult, longEnough: Option<string> -> bool) returns (r: LoadResponse)
    ensures r == LoadResponseOf(m, longEnough)
  {
    var videoFiles := VideoFiles(m.files, longEnough);
    var name := m.metadata.title.GetOr(m.metadata.identifier);
    var url := DetailsUrl(m.metadata.identifier);
    if IsSingleItem(m, videoFiles) {
      return MovieLoad(name, url, TypeOf(m.metadata.mediatype), m.metadata.identifier, DetailsOf(m.metadata));
    }
    var keys, urlMap := GroupByCleanedName(m.server, m.dir, videoFiles);
    DedupElementsIn(CleanedNames(videoFiles));
    var episodes := seq(|keys|, k requires 0 <= k < |keys| => EpisodeOf(m, videoFiles, keys[k], urlMap[keys[k]]));
    ghost var spec := Episodes(m, videoFiles);
    assert forall k :: 0 <= k < |keys| ==> episodes[k] == spec[k];
    assert episodes == spec;
    return SeriesLoad(name, url, TvSeries, SortEpisodes(episodes), DetailsOf(m.metadata));
  }

  /**
   * The shape decision: a single item exactly when the item is audio or all
   * video files share one unique name.
   */
  lemma ShapeDecision(m: MetadataResult, vs: seq<MediaFile>)
    ensures IsSingleItem(m, vs)
            <==> (m.metadata.mediatype == "audio"
                  || forall i, j :: 0 <= i < |vs| && 0 <= j < |vs| ==> UniqueName(vs[i].name) == UniqueName(vs[j].name))
  {
    if |Dedup(UniqueNames(vs))| >= 2 {
      TwoUniqueNames(vs);
    } else {
      OneUniqueName(vs);
    }
  }

  lemma TwoUniqueNames(vs: seq<MediaFile>)
    requires |Dedup(UniqueNames(vs))| >= 2
    ensures exists i, j :: 0 <= i < |vs| && 0 <= j < |vs| && UniqueName(vs[i].name) != UniqueName(vs[j].name)
  {
    var names := UniqueNames(vs);
    TwoDistinct(names);
    var i, j :| 0 <= i < |names| && 0 <= j < |names| && names[i] != names[j];
    UniqueNamesAt(vs, i);
    UniqueNamesAt(vs, j);
  }

  lemma OneUniqueName(vs: seq<MediaFile>)
    requires |Dedup(UniqueNames(vs))| < 2
    ensures forall i, j :: 0 <= i < |vs| && 0 <= j < |vs| ==> UniqueName(vs[i].name) == UniqueName(vs[j].name)
  {
    var names := UniqueNames(vs);
    TwoDistinct(names);
    forall i, j | 0 <= i < |vs| && 0 <= j < |vs|
      ensures UniqueName(vs[i].name) == UniqueName(vs[j].name)
    {
      UniqueNamesAt(vs, i);
      UniqueNamesAt(vs, j);
    }
  }

  /** Two files with different unique names have different cleaned names. */
  lemma TwoGroupsWhenTwoUniqueNames(vs: seq<MediaFile>)
    requires |Dedup(UniqueNames(vs))| >= 2
    ensures |Dedup(CleanedNames(vs))| >= 2
  {
    var names := UniqueNames(vs);
    TwoDistinct(names);
    var i, j :| 0 <= i < |names| && 0 <= j < |names| && names[i] != names[j];
    var cleaned := CleanedNames(vs);
    UniqueNamesAt(vs, i);
    UniqueNamesAt(vs, j);
    CleanedNamesAt(vs, i);
    CleanedNamesAt(vs, j);
    assert cleaned[i] != cleaned[j];
    TwoDistinct(cleaned);
  }

  /**
   * An episode of the series: a "video-playlist" named after its group
   * (a cleaned name that occurs), carrying exactly that group's URLs, and
   * never empty.
   */
  predicate IsGroupEpisode(e: Episode, names: seq<string>, urls: seq<string>)
    requires |names| == |urls|
  {
    && e.name == e.data.name && e.data.kind == "video-playlist" && e.name in names
    && e.data.urls == Group(names, urls, e.name) && |e.data.urls| > 0
  }

  /**
   * A series has at least two episodes, sorted by season then episode, a
   * reordering of the groups, each one a group's playlist.
   */
  lemma SeriesEpisodes(m: MetadataResult, vs: seq<MediaFile>)
    requires !IsSingleItem(m, vs)
    ensures var es := SortEpisodes(Episodes(m, vs));
            |es| >= 2 && Sorted(es, EpisodeLe) && multiset(es) == multiset(Episodes(m, vs))
            && forall e :: e in es ==> IsGroupEpisode(e, CleanedNames(vs), FileUrls(m.server, m.dir, vs))
  {
    var all := Episodes(m, vs);
    var es := SortEpisodes(all);
    TwoGroupsWhenTwoUniqueNames(vs);
    EpisodesAreGroups(m, vs);
    forall e | e in es
      ensures e in all
    {
      assert e in multiset(all);
    }
  }

  /** Every episode, before sorting, is the playlist of its group. */
  lemma EpisodesAreGroups(m: MetadataResult, vs: seq<MediaFile>)
    ensures forall e :: e in Episodes(m, vs) ==> IsGroupEpisode(e, CleanedNames(vs), FileUrls(m.server, m.dir, vs))
  {
    var names, urls := CleanedNames(vs), FileUrls(m.server, m.dir, vs);
    var all := Episodes(m, vs);
    forall k | 0 <= k < |all|
      ensures IsGroupEpisode(all[k], names, urls)
    {
      GroupIsNonEmpty(names, urls, Dedup(names)[k]);
    }
  }

  const MetadataPrefix: string := MainUrl + "/metadata/"

  /**
   * `load`'s request: the metadata of the identifier the URL ends with,
   * which is the whole URL when it has no '/' and otherwise the '/'-free
   * text after its last '/'.
   */
  function MetadataRequestUrl(url: string): (r: string)
    ensures |MetadataPrefix| <= |r| && r[..|MetadataPrefix|] == MetadataPrefix
    ensures var id := r[|MetadataPrefix|..];
            && '/' !in id && |id| <= |url| && url[|url| - |id|..] == id
            && ('/' !in url ==> id == url)
            && ('/' in url ==> |id| < |url| && url[|url| - |id| - 1] == '/')
  {
    var id := IdentifierOf(url);
    assert (MetadataPrefix + id)[|MetadataPrefix|..] == id;
    MetadataPrefix + id
  }

  /** The request for "path/identifier" asks for that identifier. */
  lemma MetadataRequestOfPath(path: string, identifier: string)
    requires '/' !in identifier
    ensures MetadataRequestUrl(path + "/" + identifier) == MetadataPrefix + identifier
  {
    AfterLastSlashOfJoin(path, identifier);
  }

  datatype LoadOutcome = Loaded(response: LoadResponse) | LoadFailed(message: string)

  /**
   * `load`: `fetch` is the decoded metadata behind a request URL, absent
   * when the request or the decoding fails, which `load` reports as an
   * error.
   */
  function Load(url: string, fetch: string -> Option<MetadataResult>, longEnough: Option<string> -> bool): (r: LoadOutcome)
    ensures r.LoadFailed? <==> fetch(MetadataRequestUrl(url)).None?
    ensures r.LoadFailed? ==> r.message == "Error loading: invalid json response"
    ensures r.Loaded? ==> r.response == LoadResponseOf(fetch(MetadataRequestUrl(url)).value, longEnough)
  {
    match fetch(MetadataRequestUrl(url))
    case None => LoadFailed("Error loading: invalid json response")
    case Some(res) => Loaded(LoadResponseOf(res, longEnough))
  }

  /** Opening a search result asks for the metadata of that very identifier. */
  lemma SearchResultLoadsItsIdentifier(e: SearchEntry)
    requires '/' !in e.identifier
    ensures MetadataRequestUrl(ToSearchResponse(e).url) == MainUrl + "/metadata/" + e.identifier
  {
    SearchResultRoundTrip(e);
  }
}
