/**
 * The seven regular expressions of the Internet Archive provider, each
 * written as a scanner over the characters of the input, and `find`
 * (`Regex.find` / `Matcher.find`): the match that starts leftmost.
 *
 * Quantifiers are greedy. For `\d+`, `\s*` and the literal letters that
 * follow them, giving characters back can never let the rest match (the
 * character given back is a digit or a space, never the letter or space
 * that must come next), so the scanners take maximal runs. The one place
 * where backtracking matters, `\D*` before `Episode` or `Season`, is written out as a
 * search from the longest stretch down to the empty one.
 */
module RegexScan {
  import opened Options
  import opened KotlinText

  /** `\s` of java.util.regex: space, tab, newline, vertical tab, form feed, carriage return. */
  predicate IsRegexSpace(c: char) {
    c == ' ' || c == '\t' || c == '\n' || c as int == 11 || c as int == 12 || c == '\r'
  }

  /** The characters on either side of `\b` that count as word characters. */
  predicate IsWordChar(c: char) { IsAsciiLetter(c) || IsDigit(c) || c == '_' }

  /** `\b`: exactly one of the neighbours of position `p` is a word character. */
  predicate WordBoundary(s: string, p: nat)
    requires p <= |s|
  {
    (p > 0 && IsWordChar(s[p - 1])) != (p < |s| && IsWordChar(s[p]))
  }

  /** The length of the maximal run of digits starting at `i` (greedy `\d*`). */
  function DigitRun(s: string, i: nat): (n: nat)
    requires i <= |s|
    ensures i + n <= |s|
    ensures forall k :: i <= k < i + n ==> IsDigit(s[k])
    ensures i + n == |s| || !IsDigit(s[i + n])
    decreases |s| - i
  {
    if i < |s| && IsDigit(s[i]) then 1 + DigitRun(s, i + 1) else 0
  }

  /** The length of the maximal run of `\s` characters starting at `i` (greedy `\s*`). */
  function SpaceRun(s: string, i: nat): (n: nat)
    requires i <= |s|
    ensures i + n <= |s|
    ensures forall k :: i <= k < i + n ==> IsRegexSpace(s[k])
    ensures i + n == |s| || !IsRegexSpace(s[i + n])
    decreases |s| - i
  {
    if i < |s| && IsRegexSpace(s[i]) then 1 + SpaceRun(s, i + 1) else 0
  }

  /** The length of the maximal run of non-digits starting at `i` (greedy `\D*`). */
  function NonDigitRun(s: string, i: nat): (n: nat)
    requires i <= |s|
    ensures i + n <= |s|
    ensures forall k :: i <= k < i + n ==> !IsDigit(s[k])
    ensures i + n == |s| || IsDigit(s[i + n])
    decreases |s| - i
  {
    if i < |s| && !IsDigit(s[i]) then 1 + NonDigitRun(s, i + 1) else 0
  }

  /** The patterns, in the order of the source. */
  datatype Pattern =
    | SeasonEpisodeTight   // S(\d+)E(\d+)
    | SeasonEpisodeSpaced  // S(\d+)\s*E(\d+)
    | SeasonThenEpisode    // Season\s*(\d+)\D*Episode\s*(\d+)
    | EpisodeThenSeason    // Episode\s*(\d+)\D*Season\s*(\d+)
    | EpisodeAlone         // Episode\s*(\d+)
    | YearRange            // \b(\d{4})-(\d{4})\b
    | Year                 // \b(\d{4})\b

  function GroupCount(p: Pattern): nat {
    if p == EpisodeAlone || p == Year then 1 else 2
  }

  /** A capture group: the span `[start, end)` of the input. */
  datatype Span = Span(start: nat, end: nat)

  predicate DigitGroup(s: string, g: Span) {
    g.start < g.end <= |s| && AllDigits(s[g.start..g.end])
  }

  /** `Word\s*(\d+)` at `p`, the word compared ignoring case: the span of the number. */
  function LabelledNumberAt(s: string, p: nat, word: string): (r: Option<Span>)
    requires p <= |s|
    ensures r.Some? ==> DigitGroup(s, r.value) && p + |word| <= r.value.start
  {
    if RegionMatchesIgnoreCase(s, p, word) then
      var q := p + |word| + SpaceRun(s, p + |word|);
      var n := DigitRun(s, q);
      if n > 0 then Some(Span(q, q + n)) else None
    else None
  }

  /**
   * `\D*Word\s*(\d+)` at `j`, where `\D*` may take at most `k` characters:
   * the longest stretch is tried first, as a greedy quantifier backtracks.
   */
  function NonDigitsThenLabelled(s: string, j: nat, k: nat, word: string): (r: Option<Span>)
    requires j + k <= |s|
    ensures r.Some? ==> DigitGroup(s, r.value) && j <= r.value.start
    decreases k
  {
    match LabelledNumberAt(s, j + k, word)
    case Some(g) => Some(g)
    case None => if k == 0 then None else NonDigitsThenLabelled(s, j, k - 1, word)
  }

  /** `S(\d+)E(\d+)` (`spaced`: `S(\d+)\s*E(\d+)`) at `i`, ignoring case. */
  function LetterPairAt(s: string, i: nat, spaced: bool): (r: Option<(Span, Span)>)
    requires i <= |s|
    ensures r.Some? ==> DigitGroup(s, r.value.0) && DigitGroup(s, r.value.1)
    ensures r.Some? ==> i < r.value.0.start && r.value.0.end < r.value.1.start
  {
    if i < |s| && EqualsIgnoreCase(s[i], 'S') then
      var n1 := DigitRun(s, i + 1);
      var e := i + 1 + n1 + (if spaced then SpaceRun(s, i + 1 + n1) else 0);
      if n1 > 0 && e < |s| && EqualsIgnoreCase(s[e], 'E') then
        var n2 := DigitRun(s, e + 1);
        if n2 > 0 then Some((Span(i + 1, i + 1 + n1), Span(e + 1, e + 1 + n2))) else None
      else None
    else None
  }

  /** `First\s*(\d+)\D*Second\s*(\d+)` at `i`. */
  function LabelPairAt(s: string, i: nat, first: string, second: string): (r: Option<(Span, Span)>)
    requires i <= |s|
    ensures r.Some? ==> DigitGroup(s, r.value.0) && DigitGroup(s, r.value.1)
    ensures r.Some? ==> r.value.0.end <= r.value.1.start
  {
    match LabelledNumberAt(s, i, first)
    case None => None
    case Some(g1) =>
      match NonDigitsThenLabelled(s, g1.end, NonDigitRun(s, g1.end), second)
      case None => None
      case Some(g2) => Some((g1, g2))
  }

  /** `\b(\d{4})` followed by `\b` at `i`. */
  predicate YearAt(s: string, i: nat) {
    i + 4 <= |s| && WordBoundary(s, i) && AllDigits(s[i..i + 4]) && WordBoundary(s, i + 4)
  }

  /** `\b(\d{4})-(\d{4})\b` at `i`. */
  predicate YearRangeAt(s: string, i: nat) {
    i + 9 <= |s| && WordBoundary(s, i) && AllDigits(s[i..i + 4]) && s[i + 4] == '-'
    && AllDigits(s[i + 5..i + 9]) && WordBoundary(s, i + 9)
  }

  /** `groupValues` of a two-group match that starts at `i`. */
  function PairGroups(s: string, i: nat, g1: Span, g2: Span): (r: seq<string>)
    requires DigitGroup(s, g1) && DigitGroup(s, g2) && i <= g2.end
    ensures |r| == 3
    ensures forall g :: 1 <= g < 3 ==> |r[g]| > 0 && AllDigits(r[g])
  {
    [s[i..g2.end], s[g1.start..g1.end], s[g2.start..g2.end]]
  }

  /** `groupValues` of `S(\d+)E(\d+)` (`spaced`: `S(\d+)\s*E(\d+)`) at `i`. */
  function LetterPairMatch(s: string, i: nat, spaced: bool): (r: Option<seq<string>>)
    requires i <= |s|
    ensures r.Some? ==> |r.value| == 3 && forall g :: 1 <= g < 3 ==> |r.value[g]| > 0 && AllDigits(r.value[g])
  {
    match LetterPairAt(s, i, spaced)
    case None => None
    case Some((g1, g2)) => Some(PairGroups(s, i, g1, g2))
  }

  /** `groupValues` of `First\s*(\d+)\D*Second\s*(\d+)` at `i`. */
  function LabelPairMatch(s: string, i: nat, first: string, second: string): (r: Option<seq<string>>)
    requires i <= |s|
    ensures r.Some? ==> |r.value| == 3 && forall g :: 1 <= g < 3 ==> |r.value[g]| > 0 && AllDigits(r.value[g])
  {
    match LabelPairAt(s, i, first, second)
    case None => None
    case Some((g1, g2)) => Some(PairGroups(s, i, g1, g2))
  }

  /** `groupValues` of `Episode\s*(\d+)` at `i`. */
  function EpisodeAloneMatch(s: string, i: nat): (r: Option<seq<string>>)
    requires i <= |s|
    ensures r.Some? ==> |r.value| == 2 && |r.value[1]| > 0 && AllDigits(r.value[1])
  {
    match LabelledNumberAt(s, i, "Episode")
    case None => None
    case Some(g) => Some([s[i..g.end], s[g.start..g.end]])
  }

  /** `groupValues` of `\b(\d{4})-(\d{4})\b` at `i`. */
  function YearRangeMatch(s: string, i: nat): (r: Option<seq<string>>)
    ensures r.Some? ==> |r.value| == 3 && |r.value[1]| == 4
                        && forall g :: 1 <= g < 3 ==> |r.value[g]| > 0 && AllDigits(r.value[g])
  {
    if YearRangeAt(s, i) then Some([s[i..i + 9], s[i..i + 4], s[i + 5..i + 9]]) else None
  }

  /** `groupValues` of `\b(\d{4})\b` at `i`. */
  function YearMatch(s: string, i: nat): (r: Option<seq<string>>)
    ensures r.Some? ==> |r.value| == 2 && |r.value[1]| == 4 && AllDigits(r.value[1])
  {
    if YearAt(s, i) then Some([s[i..i + 4], s[i..i + 4]]) else None
  }

  /**
   * The match of `p` that starts at `i`, as Kotlin's `groupValues`: the
   * whole match first, then one entry per capture group.
   */
  function MatchAt(p: Pattern, s: string, i: nat): (r: Option<seq<string>>)
    requires i <= |s|
    ensures r.Some? ==> |r.value| == GroupCount(p) + 1
    ensures r.Some? ==> forall g :: 1 <= g < |r.value| ==> |r.value[g]| > 0 && AllDigits(r.value[g])
    ensures r.Some? && (p == Year || p == YearRange) ==> |r.value[1]| == 4
  {
    match p
    case SeasonEpisodeTight => LetterPairMatch(s, i, false)
    case SeasonEpisodeSpaced => LetterPairMatch(s, i, true)
    case SeasonThenEpisode => LabelPairMatch(s, i, "Season", "Episode")
    case EpisodeThenSeason => LabelPairMatch(s, i, "Episode", "Season")
    case EpisodeAlone => EpisodeAloneMatch(s, i)
    case YearRange => YearRangeMatch(s, i)
    case Year => YearMatch(s, i)
  }

  /** The leftmost start at or after `i` where `p` matches. */
  function FindFrom(p: Pattern, s: string, i: nat): (r: Option<nat>)
    requires i <= |s|
    ensures r.Some? ==> i <= r.value <= |s| && MatchAt(p, s, r.value).Some?
    ensures r.Some? ==> forall j :: i <= j < r.value ==> MatchAt(p, s, j).None?
    ensures r.None? ==> forall j :: i <= j <= |s| ==> MatchAt(p, s, j).None?
    decreases |s| - i
  {
    if MatchAt(p, s, i).Some? then Some(i)
    else if i == |s| then None
    else FindFrom(p, s, i + 1)
  }

  /** `Regex.find(s)?.groupValues`: the groups of the leftmost match. */
  function Find(p: Pattern, s: string): (r: Option<seq<string>>)
    ensures r.Some? ==> |r.value| == GroupCount(p) + 1
    ensures r.Some? ==> forall g :: 1 <= g < |r.value| ==> |r.value[g]| > 0 && AllDigits(r.value[g])
    ensures r.None? <==> forall j :: 0 <= j <= |s| ==> MatchAt(p, s, j).None?
    ensures r.Some? ==> exists i :: 0 <= i <= |s| && r == MatchAt(p, s, i)
                                    && forall j :: 0 <= j < i ==> MatchAt(p, s, j).None?
  {
    match FindFrom(p, s, 0)
    case None => None
    case Some(i) => MatchAt(p, s, i)
  }
}
