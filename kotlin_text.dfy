/**
 * The parts of Kotlin's `String` and `Char` library the plugins use,
 * modelled on sequences of characters. Case-insensitive comparison folds
 * ASCII letters only.
 */
module KotlinText {
  import opened Options

  predicate IsDigit(c: char) { '0' <= c <= '9' }

  predicate IsAsciiLetter(c: char) { 'a' <= c <= 'z' || 'A' <= c <= 'Z' }

  function LowerAscii(c: char): (r: char)
    ensures IsAsciiLetter(c) ==> 'a' <= r <= 'z'
    ensures !IsAsciiLetter(c) ==> r == c
  {
    if 'A' <= c <= 'Z' then (c as int + 32) as char else c
  }

  /** `Char.equals(other, ignoreCase = true)` on ASCII. */
  predicate EqualsIgnoreCase(a: char, b: char) { LowerAscii(a) == LowerAscii(b) }

  /** `Char.isWhitespace()`: Java's whitespace or space characters. */
  predicate IsWhitespace(c: char) {
    var n := c as int;
    (9 <= n <= 13) || (28 <= n <= 32) || n == 0xA0 || n == 0x1680
    || (0x2000 <= n <= 0x200A) || n == 0x2028 || n == 0x2029
    || n == 0x202F || n == 0x205F || n == 0x3000
  }

  /** `String?.isNullOrBlank()`. */
  predicate IsNullOrBlank(s: Option<string>) {
    s.None? || forall k :: 0 <= k < |s.value| ==> IsWhitespace(s.value[k])
  }

  /** `w` occurs in `s` at `i`, ignoring case. */
  predicate RegionMatchesIgnoreCase(s: string, i: nat, w: string) {
    i + |w| <= |s| && forall k :: 0 <= k < |w| ==> EqualsIgnoreCase(s[i + k], w[k])
  }

  predicate StartsWithIgnoreCase(s: string, w: string) {
    RegionMatchesIgnoreCase(s, 0, w)
  }

  predicate EndsWithIgnoreCase(s: string, w: string) {
    |w| <= |s| && RegionMatchesIgnoreCase(s, |s| - |w|, w)
  }

  predicate ContainsIgnoreCase(s: string, w: string) {
    exists i: nat :: i <= |s| && RegionMatchesIgnoreCase(s, i, w)
  }

  /** `lastIndexOf(c)`, absent when `c` does not occur. */
  function LastIndexOf(s: string, c: char): (r: Option<nat>)
    ensures r.None? <==> c !in s
    ensures r.Some? ==> r.value < |s| && s[r.value] == c && c !in s[r.value + 1..]
  {
    if |s| == 0 then None
    else if s[|s| - 1] == c then Some(|s| - 1)
    else
      var r := LastIndexOf(s[..|s| - 1], c);
      assert s[..|s| - 1] + [s[|s| - 1]] == s;
      r
  }

  /** `indexOf(c)`, absent when `c` does not occur. */
  function IndexOf(s: string, c: char): (r: Option<nat>)
    ensures r.None? <==> c !in s
    ensures r.Some? ==> r.value < |s| && s[r.value] == c && c !in s[..r.value]
  {
    if |s| == 0 then None
    else if s[0] == c then Some(0)
    else
      match IndexOf(s[1..], c)
      case None => None
      case Some(i) => Some(i + 1)
  }

  /** `substringAfterLast(c)`: the whole string when `c` does not occur. */
  function SubstringAfterLast(s: string, c: char): (r: string)
    ensures c !in r && |r| <= |s|
    ensures c !in s ==> r == s
    ensures c in s ==> |r| < |s| && s[|s| - |r| - 1] == c
  {
    match LastIndexOf(s, c)
    case None => s
    case Some(i) => s[i + 1..]
  }

  /** What `substringAfterLast` returns is a suffix of its input. */
  lemma AfterLastIsSuffix(s: string, c: char)
    ensures s[|s| - |SubstringAfterLast(s, c)|..] == SubstringAfterLast(s, c)
  {
  }

  /** `substringBeforeLast(c)`: the whole string when `c` does not occur. */
  function SubstringBeforeLast(s: string, c: char): (r: string)
    ensures |r| <= |s| && r == s[..|r|]
    ensures c !in s ==> r == s
    ensures c in s ==> |r| < |s| && s[|r|] == c && c !in s[|r| + 1..]
  {
    match LastIndexOf(s, c)
    case None => s
    case Some(i) => s[..i]
  }

  /** Cutting `prefix + [c] + suffix` at its last `c` gives back both parts when `suffix` holds no `c`. */
  lemma LastCut(prefix: string, c: char, suffix: string)
    requires c !in suffix
    ensures SubstringAfterLast(prefix + [c] + suffix, c) == suffix
    ensures SubstringBeforeLast(prefix + [c] + suffix, c) == prefix
  {
    var s := prefix + [c] + suffix;
    assert s[|prefix|] == c;
    assert s[|prefix| + 1..] == suffix;
    assert LastIndexOf(s, c) == Some(|prefix|);
    assert s[..|prefix|] == prefix;
  }

  /** `replace(a, b)` on characters. */
  function ReplaceChar(s: string, a: char, b: char): (r: string)
    ensures |r| == |s|
    ensures forall k :: 0 <= k < |s| ==> r[k] == (if s[k] == a then b else s[k])
    ensures a != b ==> a !in r
  {
    seq(|s|, k requires 0 <= k < |s| => if s[k] == a then b else s[k])
  }

  /** Replacing characters distributes over concatenation. */
  lemma ReplaceCharAppend(s: string, t: string, a: char, b: char)
    ensures ReplaceChar(s + t, a, b) == ReplaceChar(s, a, b) + ReplaceChar(t, a, b)
  {
    var l, r := ReplaceChar(s + t, a, b), ReplaceChar(s, a, b) + ReplaceChar(t, a, b);
    assert forall k :: 0 <= k < |l| ==> l[k] == r[k] by {
      forall k | 0 <= k < |l| ensures l[k] == r[k] {
        if k < |s| { assert (s + t)[k] == s[k]; } else { assert (s + t)[k] == t[k - |s|]; }
      }
    }
  }

  /**
   * `replace(pat, "")`: occurrences of `pat` are found from left to right
   * without overlapping and removed.
   */
  function RemoveAll(s: string, pat: string): (r: string)
    requires |pat| > 0
    ensures |r| <= |s|
    decreases |s|
  {
    if |s| == 0 then []
    else if pat <= s then RemoveAll(s[|pat|..], pat)
    else [s[0]] + RemoveAll(s[1..], pat)
  }

  /** `removeSuffix(suffix)`. */
  function RemoveSuffix(s: string, suffix: string): (r: string)
    ensures r + suffix == s || r == s
  {
    if |suffix| <= |s| && s[|s| - |suffix|..] == suffix then s[..|s| - |suffix|] else s
  }

  /** `split(sep)` with a one-character delimiter: empty pieces are kept. */
  function Split(s: string, sep: char): (parts: seq<string>)
    ensures |parts| >= 1
    ensures forall k :: 0 <= k < |parts| ==> sep !in parts[k]
    decreases |s|
  {
    match IndexOf(s, sep)
    case None => [s]
    case Some(i) => [s[..i]] + Split(s[i + 1..], sep)
  }

  /** `joinToString(sep)`: the inverse of `Split`. */
  function Join(parts: seq<string>, sep: char): string
    requires |parts| >= 1
  {
    if |parts| == 1 then parts[0] else parts[0] + [sep] + Join(parts[1..], sep)
  }

  lemma {:induction false} JoinSplit(s: string, sep: char)
    ensures Join(Split(s, sep), sep) == s
    decreases |s|
  {
    var idx := IndexOf(s, sep);
    if idx.Some? {
      var i := idx.value;
      var first, rest := s[..i], s[i + 1..];
      assert s == first + [sep] + rest;
      JoinSplit(rest, sep);
      SplitAtFirst(first, sep, rest);
      var parts := [first] + Split(rest, sep);
      assert parts[1..] == Split(rest, sep);
    }
  }

  lemma {:induction false} SplitJoin(parts: seq<string>, sep: char)
    requires |parts| >= 1
    requires forall k :: 0 <= k < |parts| ==> sep !in parts[k]
    ensures Split(Join(parts, sep), sep) == parts
  {
    if |parts| > 1 {
      SplitJoin(parts[1..], sep);
      SplitAtFirst(parts[0], sep, Join(parts[1..], sep));
      assert parts == [parts[0]] + parts[1..];
    } else {
      assert IndexOf(parts[0], sep).None?;
    }
  }

  /** Splitting at the first delimiter: the piece before it, then the rest split. */
  lemma SplitAtFirst(first: string, sep: char, rest: string)
    requires sep !in first
    ensures Split(first + [sep] + rest, sep) == [first] + Split(rest, sep)
  {
    var s := first + [sep] + rest;
    assert s[|first|] == sep && s[..|first|] == first;
    assert IndexOf(s, sep) == Some(|first|);
    assert s[|first| + 1..] == rest;
  }

  /** The value of a non-empty run of ASCII digits, read left to right. */
  function DigitsValue(s: string): (v: nat)
    requires forall k :: 0 <= k < |s| ==> IsDigit(s[k])
  {
    if |s| == 0 then 0
    else
      assert IsDigit(s[|s| - 1]);
      var d: nat := s[|s| - 1] as int - '0' as int;
      DigitsValue(s[..|s| - 1]) * 10 + d
  }

  lemma {:induction false} DigitsValueBound(s: string)
    requires forall k :: 0 <= k < |s| ==> IsDigit(s[k])
    ensures DigitsValue(s) < Pow10(|s|)
  {
    if |s| > 0 {
      DigitsValueBound(s[..|s| - 1]);
    }
  }

  function Pow10(n: nat): (p: nat)
    ensures p >= 1
  {
    if n == 0 then 1 else 10 * Pow10(n - 1)
  }

  const IntMin: int := -0x8000_0000
  const IntMax: int := 0x7FFF_FFFF

  predicate AllDigits(s: string) { forall k :: 0 <= k < |s| ==> IsDigit(s[k]) }

  /**
   * `String.toIntOrNull()` (radix 10): an optional '+' or '-' followed by
   * at least one digit, and the value must fit a 32-bit `Int`.
   */
  function ToIntOrNull(s: string): (r: Option<int>)
    ensures r.Some? ==> IntMin <= r.value <= IntMax
    ensures |s| > 0 && AllDigits(s) ==>
              r == (if DigitsValue(s) <= IntMax then Some(DigitsValue(s)) else None)
    ensures (|s| == 0 || (!AllDigits(s) && s[0] != '-' && s[0] != '+')) ==> r.None?
  {
    if |s| == 0 then None
    else if (s[0] == '-' || s[0] == '+') then
      if |s| == 1 || !AllDigits(s[1..]) then None
      else
        var v: int := if s[0] == '-' then -(DigitsValue(s[1..]) as int) else DigitsValue(s[1..]);
        if IntMin <= v <= IntMax then Some(v) else None
    else if AllDigits(s) then
      if DigitsValue(s) <= IntMax then Some(DigitsValue(s)) else None
    else None
  }
}
