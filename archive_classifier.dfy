/**
 * The file-name classifier of `MetadataResult`: season and episode numbers
 * from a file name, the year of a date string, the cleaned and unique names
 * that group files, the thumbnail of a file and the video-format test.
 */
module ArchiveClassifier {
  import opened Options
  import opened KotlinText
  import opened RegexScan
  import opened ArchiveRecords

  const PatternCount: nat := 5

  /** `seasonEpisodePatterns[k]`, in the order they are tried. */
  function PatternAt(k: nat): Pattern
    requires k < PatternCount
  {
    if k == 0 then SeasonEpisodeTight
    else if k == 1 then SeasonEpisodeSpaced
    else if k == 2 then SeasonThenEpisode
    else if k == 3 then EpisodeThenSeason
    else EpisodeAlone
  }

  /** The `when (groups.size)` of `extractEpisodeInfo`, applied to `groupValues`. */
  function PairFromGroups(groups: seq<string>): (r: (Option<int>, Option<int>))
    ensures (forall g :: 1 <= g < |groups| ==> |groups[g]| > 0 && AllDigits(groups[g])) ==>
              (r.0.Some? ==> 0 <= r.0.value <= IntMax) && (r.1.Some? ==> 0 <= r.1.value <= IntMax)
  {
    if |groups| == 3 then (ToIntOrNull(groups[1]), ToIntOrNull(groups[2]))
    else if |groups| == 2 then (None, ToIntOrNull(groups[1]))
    else if |groups| == 5 then (ToIntOrNull(groups[1]), ToIntOrNull(groups[3]))
    else (None, None)
  }

  /** The first pattern from index `k` on with a match anywhere in `s`, with its groups. */
  function FirstMatchFrom(s: string, k: nat): (r: Option<(nat, seq<string>)>)
    requires k <= PatternCount
    ensures r.Some? ==> k <= r.value.0 < PatternCount
                        && Find(PatternAt(r.value.0), s) == Some(r.value.1)
                        && forall j :: k <= j < r.value.0 ==> Find(PatternAt(j), s).None?
    ensures r.None? ==> forall j :: k <= j < PatternCount ==> Find(PatternAt(j), s).None?
    decreases PatternCount - k
  {
    if k == PatternCount then None
    else
      var found := Find(PatternAt(k), s);
      if found.Some? then Some((k, found.value))
      else
        var rest := FirstMatchFrom(s, k + 1);
        assert found.None?;
        rest
  }

  /**
   * `extractEpisodeInfo` as a specification: the first pattern (in list
   * order) that matches anywhere decides (`EpisodeInfoFirstMatch`), and
   * nothing matching gives (null, null) (`EpisodeInfoNoMatch`). Numbers are
   * never negative.
   */
  function EpisodeInfo(fileName: string): (r: (Option<int>, Option<int>))
    ensures r.0.Some? ==> 0 <= r.0.value <= IntMax
    ensures r.1.Some? ==> 0 <= r.1.value <= IntMax
  {
    match FirstMatchFrom(fileName, 0)
    case None => (None, None)
    case Some((_, g)) => PairFromGroups(g)
  }

  /** The first pattern with a match decides, through the `when (groups.size)`. */
  lemma EpisodeInfoFirstMatch(fileName: string, k: nat)
    requires k < PatternCount && Find(PatternAt(k), fileName).Some?
    requires forall j :: 0 <= j < k ==> Find(PatternAt(j), fileName).None?
    ensures EpisodeInfo(fileName) == PairFromGroups(Find(PatternAt(k), fileName).value)
  {
    var r := FirstMatchFrom(fileName, 0);
    assert r.Some? && r.value.0 == k;
  }

  /** No pattern matching gives (null, null). */
  lemma EpisodeInfoNoMatch(fileName: string)
    requires forall k :: 0 <= k < PatternCount ==> Find(PatternAt(k), fileName).None?
    ensures EpisodeInfo(fileName) == (None, None)
  {
    assert FirstMatchFrom(fileName, 0).None?;
  }

  /** None of the first `k` patterns matches anywhere in `s`. */
  predicate NoneMatchBefore(s: string, k: nat)
    requires k <= PatternCount
  {
    forall j :: 0 <= j < k ==> Find(PatternAt(j), s).None?
  }

  lemma NoneMatchStep(s: string, k: nat)
    requires k < PatternCount && NoneMatchBefore(s, k) && Find(PatternAt(k), s).None?
    ensures NoneMatchBefore(s, k + 1)
  {
  }

  /** `extractEpisodeInfo`: the loop over the patterns with its early return. */
  method ExtractEpisodeInfo(fileName: string) returns (season: Option<int>, episode: Option<int>)
    ensures (season, episode) == EpisodeInfo(fileName)
  {
    for k := 0 to PatternCount
      invariant NoneMatchBefore(fileName, k)
    {
      var matchResult := Find(PatternAt(k), fileName);
      if matchResult.Some? {
        var groups := matchResult.value;
        // Every pattern has one or two groups: the size-5 branch is never taken.
        assert |groups| == 2 || |groups| == 3;
        season, episode := PairFromGroups(groups).0, PairFromGroups(groups).1;
        EpisodeInfoFirstMatch(fileName, k);
        return;
      }
      NoneMatchStep(fileName, k);
    }
    EpisodeInfoNoMatch(fileName);
    return None, None;
  }

  /**
   * `extractYear`: nothing below four characters; a four-character string is
   * parsed whole; otherwise the first `YYYY-YYYY` range gives its start year,
   * else the first standalone four-digit year, else nothing.
   */
  function ExtractYear(date: Option<string>): (r: Option<int>)
    ensures date.None? || |date.value| < 4 ==> r.None?
    ensures date.Some? && |date.value| == 4 ==> r == ToIntOrNull(date.value)
    ensures date.Some? && |date.value| > 4 && r.Some? ==> 0 <= r.value <= 9999
  {
    if date.None? || |date.value| < 4 then None
    else if |date.value| == 4 then ToIntOrNull(date.value)
    else
      match Find(YearRange, date.value)
      case Some(g) => Some(YearValue(g[1]))
      case None =>
        match Find(Year, date.value)
        case Some(g) => Some(YearValue(g[1]))
        case None => None
  }

  /** `toInt()` of a four-digit capture group. */
  function YearValue(digits: string): (y: int)
    requires |digits| == 4 && AllDigits(digits)
    ensures 0 <= y <= 9999
    ensures ToIntOrNull(digits) == Some(y)
  {
    DigitsValueBound(digits);
    DigitsValue(digits)
  }

  /** The range pattern takes precedence over a bare year, wherever each occurs. */
  lemma YearRangeWins(date: string, i: nat)
    requires |date| > 4 && i <= |date| && YearRangeAt(date, i)
    requires forall j :: 0 <= j < i ==> !YearRangeAt(date, j)
    ensures ExtractYear(Some(date)) == Some(DigitsValue(date[i..i + 4]))
  {
    assert MatchAt(YearRange, date, i).Some?;
    assert forall j :: 0 <= j < i ==> MatchAt(YearRange, date, j).None?;
  }

  /** Without a range, the leftmost standalone year is used. */
  lemma FirstBareYear(date: string, i: nat)
    requires |date| > 4 && i <= |date| && YearAt(date, i)
    requires forall j :: 0 <= j <= |date| ==> !YearRangeAt(date, j)
    requires forall j :: 0 <= j < i ==> !YearAt(date, j)
    ensures ExtractYear(Some(date)) == Some(DigitsValue(date[i..i + 4]))
  {
    assert forall j :: 0 <= j <= |date| ==> MatchAt(YearRange, date, j).None?;
    assert MatchAt(Year, date, i).Some?;
    assert forall j :: 0 <= j < i ==> MatchAt(Year, date, j).None?;
  }

  /** With neither a range nor a standalone year anywhere, a long date gives nothing. */
  lemma NoYearGivesNull(date: string)
    requires |date| > 4
    requires forall j :: 0 <= j <= |date| ==> !YearRangeAt(date, j) && !YearAt(date, j)
    ensures ExtractYear(Some(date)).None?
  {
    assert forall j :: 0 <= j <= |date| ==> MatchAt(YearRange, date, j).None?;
    assert forall j :: 0 <= j <= |date| ==> MatchAt(Year, date, j).None?;
  }

  /** `getCleanedName`: the last path segment, without its extension, '_' read as ' '. */
  function CleanedName(fileName: string): (r: string)
    ensures '/' !in r && '_' !in r
    ensures |r| <= |fileName|
  {
    var base := SubstringAfterLast(fileName, '/');
    var stem := SubstringBeforeLast(base, '.');
    assert forall k :: 0 <= k < |stem| ==> stem[k] == base[k];
    ReplaceChar(stem, '_', ' ')
  }

  /** `getUniqueName`: the cleaned name with every ".ia" removed. */
  function UniqueName(fileName: string): (r: string)
    ensures |r| <= |CleanedName(fileName)|
  {
    RemoveAll(CleanedName(fileName), ".ia")
  }

  /** Appending ".ia" to a name changes nothing once ".ia" is removed. */
  lemma {:induction false} RemoveIaSuffix(x: string)
    ensures RemoveAll(x + ".ia", ".ia") == RemoveAll(x, ".ia")
    decreases |x|
  {
    var y := x + ".ia";
    if |x| == 0 {
      assert y == ".ia";
      assert y[3..] == [];
    } else if ".ia" <= x {
      assert y[3..] == x[3..] + ".ia";
      RemoveIaSuffix(x[3..]);
    } else {
      assert !(".ia" <= y) by {
        if |x| >= 3 {
          assert y[..3] == x[..3];
        } else if |x| == 1 {
          assert y[1] == '.';
        } else {
          assert y[2] == '.';
        }
      }
      assert y[1..] == x[1..] + ".ia";
      RemoveIaSuffix(x[1..]);
    }
  }

  /**
   * A file stored once as "stem.ia.ext" and once as "stem.ext", in the same
   * directory or both at the top level (`dir` is empty or ends with '/'),
   * has one unique name, so the pair is not taken for a playlist.
   */
  lemma IaVariantSharesUniqueName(dir: string, stem: string, ext: string)
    requires dir == [] || dir[|dir| - 1] == '/'
    requires '/' !in stem && '/' !in ext && '.' !in ext
    ensures UniqueName(dir + stem + ".ia." + ext) == UniqueName(dir + stem + "." + ext)
  {
    var withIa := stem + ".ia";
    CleanedNameOf(dir, withIa, ext);
    CleanedNameOf(dir, stem, ext);
    IaDotSplit(dir, stem, ext);
    var r := ReplaceChar(stem, '_', ' ');
    ReplaceCharAppend(stem, ".ia", '_', ' ');
    IaKeepsUnderscoreFree();
    RemoveIaSuffix(r);
  }

  lemma IaKeepsUnderscoreFree()
    ensures ReplaceChar(".ia", '_', ' ') == ".ia"
  {
    var s := ".ia";
    assert s[0] != '_' && s[1] != '_' && s[2] != '_';
  }

  lemma IaDotSplit(head: string, stem: string, ext: string)
    ensures head + stem + ".ia." + ext == head + (stem + ".ia") + "." + ext
  {
    assert ".ia." == ".ia" + ".";
  }

  /**
   * The cleaned name of "dir/stem.ext", or of a top-level "stem.ext" (`dir`
   * is empty or ends with '/'), is the stem with '_' read as ' '.
   */
  lemma CleanedNameOf(dir: string, stem: string, ext: string)
    requires dir == [] || dir[|dir| - 1] == '/'
    requires '/' !in stem && '/' !in ext && '.' !in ext
    ensures CleanedName(dir + stem + "." + ext) == ReplaceChar(stem, '_', ' ')
  {
    var base := stem + "." + ext;
    assert dir + stem + "." + ext == dir + base;
    if dir == [] {
      assert dir + base == base;
      assert '/' !in base;
    } else {
      var parent := dir[..|dir| - 1];
      assert dir + base == parent + ['/'] + base;
      LastCut(parent, '/', base);
    }
    assert base == stem + ['.'] + ext;
    LastCut(stem, '.', ext);
  }

  /** `files.find { it.format == "Thumbnail" && it.original == fileName }`. */
  predicate IsThumbnailOf(f: MediaFile, fileName: string) {
    f.format == "Thumbnail" && f.original == Some(fileName)
  }

  function FirstThumbnail(files: seq<MediaFile>, fileName: string): (r: Option<nat>)
    ensures r.None? <==> forall i :: 0 <= i < |files| ==> !IsThumbnailOf(files[i], fileName)
    ensures r.Some? ==> r.value < |files| && IsThumbnailOf(files[r.value], fileName)
                        && forall j :: 0 <= j < r.value ==> !IsThumbnailOf(files[j], fileName)
  {
    if files == [] then None
    else if IsThumbnailOf(files[0], fileName) then Some(0)
    else match FirstThumbnail(files[1..], fileName)
      case None => None
      case Some(i) => Some(i + 1)
  }

  /** "https://<server><dir>/<name>": where the archive serves a file. */
  function FileUrl(server: string, dir: string, name: string): string {
    "https://" + server + dir + "/" + name
  }

  /**
   * `getThumbnailUrl`: the URL of the first file listed as a thumbnail of
   * `fileName`, and none when no file is.
   */
  function ThumbnailUrl(m: MetadataResult, fileName: string): (r: Option<string>)
    ensures r.None? <==> forall i :: 0 <= i < |m.files| ==> !IsThumbnailOf(m.files[i], fileName)
    ensures r.Some? ==> exists i :: 0 <= i < |m.files| && IsThumbnailOf(m.files[i], fileName)
                                    && (forall j :: 0 <= j < i ==> !IsThumbnailOf(m.files[j], fileName))
                                    && r.value == FileUrl(m.server, m.dir, m.files[i].name)
  {
    match FirstThumbnail(m.files, fileName)
    case None => None
    case Some(i) => Some(FileUrl(m.server, m.dir, m.files[i].name))
  }

  /** The format test of `toLoadResponse`'s filter. */
  predicate IsVideoFormat(format: string) {
    ContainsIgnoreCase(format, "MPEG")
    || StartsWithIgnoreCase(format, "H.264")
    || StartsWithIgnoreCase(format, "Matroska")
    || StartsWithIgnoreCase(format, "DivX")
    || StartsWithIgnoreCase(format, "Ogg Video")
  }
}
