/**
 * Worked inputs for the classifier: which pattern decides a file name and
 * which year a date string gives.
 */
module ArchiveExamples {
  import opened Options
  import opened KotlinText
  import opened RegexScan
  import opened ArchiveClassifier
  import opened Collections

  /** The leftmost match decides `find`. */
  lemma FindAt(p: Pattern, s: string, i: nat)
    requires i <= |s| && MatchAt(p, s, i).Some?
    requires forall j :: 0 <= j < i ==> MatchAt(p, s, j).None?
    ensures Find(p, s) == MatchAt(p, s, i)
  {
  }

  /** No match at any position means `find` gives null. */
  lemma FindNone(p: Pattern, s: string)
    requires forall j :: 0 <= j <= |s| ==> MatchAt(p, s, j).None?
    ensures Find(p, s).None?
  {
  }

  lemma SmallInts()
    ensures ToIntOrNull("02") == Some(2) && ToIntOrNull("05") == Some(5)
    ensures ToIntOrNull("7") == Some(7) && ToIntOrNull("1") == Some(1)
  {
    var a, b := "02", "05";
    assert a[..1] == "0" && b[..1] == "0";
    assert DigitsValue("0") == 0 by { assert "0"[..0] == []; }
    assert "7"[..0] == [] && "1"[..0] == [];
  }

  // "Show.S02E05.mkv"
  lemma TightGroups()
    ensures MatchAt(SeasonEpisodeTight, "Show.S02E05.mkv", 5) == Some(["S02E05", "02", "05"])
  {
    var s := "Show.S02E05.mkv";
    assert DigitRun(s, 6) == 2 by { assert DigitRun(s, 8) == 0; }
    assert DigitRun(s, 9) == 2 by { assert DigitRun(s, 11) == 0; }
    assert s[5..11] == "S02E05" && s[6..8] == "02" && s[9..11] == "05";
  }

  lemma TightNotEarlier()
    ensures forall j :: 0 <= j < 5 ==> MatchAt(SeasonEpisodeTight, "Show.S02E05.mkv", j).None?
  {
    assert DigitRun("Show.S02E05.mkv", 1) == 0;
  }

  lemma ExampleSeasonEpisodeTight()
    ensures EpisodeInfo("Show.S02E05.mkv") == (Some(2), Some(5))
  {
    TightGroups();
    TightNotEarlier();
    assert PatternAt(0) == SeasonEpisodeTight;
    FindAt(PatternAt(0), "Show.S02E05.mkv", 5);
    EpisodeInfoFirstMatch("Show.S02E05.mkv", 0);
    SmallInts();
  }

  /** A region equal to the word matches it ignoring case. */
  lemma RegionMatchesExact(s: string, i: nat, w: string)
    requires i + |w| <= |s| && s[i..i + |w|] == w
    ensures RegionMatchesIgnoreCase(s, i, w)
  {
    forall k | 0 <= k < |w|
      ensures EqualsIgnoreCase(s[i + k], w[k])
    {
      assert s[i..i + |w|][k] == s[i + k];
    }
  }

  /** `\D*` backtracks to the rightmost place, within its reach, where the labelled number matches. */
  lemma {:induction false} NonDigitsThenLabelledAt(s: string, j: nat, k: nat, word: string, m: nat)
    requires j + k <= |s| && j <= m <= j + k
    requires LabelledNumberAt(s, m, word).Some?
    requires forall q :: m < q <= j + k ==> LabelledNumberAt(s, q, word).None?
    ensures NonDigitsThenLabelled(s, j, k, word) == LabelledNumberAt(s, m, word)
    decreases k
  {
    if m < j + k {
      assert LabelledNumberAt(s, j + k, word).None?;
      NonDigitsThenLabelledAt(s, j, k - 1, word, m);
    }
  }

  // "Episode 7 Season 1"
  /** The only 's' letters are followed by letters, so `S(\d+)` never starts. */
  lemma BothWordsNoLetterPair(spaced: bool)
    ensures forall j :: 0 <= j <= 18 ==> LetterPairAt("Episode 7 Season 1", j, spaced).None?
  {
    var s := "Episode 7 Season 1";
    forall j | 0 <= j <= 18
      ensures LetterPairAt(s, j, spaced).None?
    {
      if j < 18 && EqualsIgnoreCase(s[j], 'S') {
        assert j == 3 || j == 10 || j == 13;
        assert DigitRun(s, j + 1) == 0;
      }
    }
  }

  lemma BothWordsSeasonOnlyAt10()
    ensures forall j :: 0 <= j <= 18 && j != 10 ==> !RegionMatchesIgnoreCase("Episode 7 Season 1", j, "Season")
  {
    var s := "Episode 7 Season 1";
    forall j | 0 <= j <= 18 && j != 10
      ensures !RegionMatchesIgnoreCase(s, j, "Season")
    {
      if j == 3 {
        assert !EqualsIgnoreCase(s[4], "Season"[1]);
      } else if j + 6 <= 18 {
        assert !EqualsIgnoreCase(s[j], "Season"[0]);
      }
    }
  }

  lemma BothWordsSeasonNumber()
    ensures LabelledNumberAt("Episode 7 Season 1", 10, "Season") == Some(Span(17, 18))
  {
    var s := "Episode 7 Season 1";
    assert s[10..16] == "Season";
    RegionMatchesExact(s, 10, "Season");
    assert SpaceRun(s, 16) == 1 by { assert IsRegexSpace(s[16]) && !IsRegexSpace(s[17]); assert SpaceRun(s, 17) == 0; }
    assert DigitRun(s, 17) == 1;
  }

  lemma BothWordsSeasonFirstFails()
    ensures forall j :: 0 <= j <= 18 ==> MatchAt(SeasonThenEpisode, "Episode 7 Season 1", j).None?
  {
    var s := "Episode 7 Season 1";
    BothWordsSeasonOnlyAt10();
    BothWordsSeasonNumber();
    assert NonDigitRun(s, 18) == 0;
  }

  lemma BothWordsEpisodeNumber()
    ensures LabelledNumberAt("Episode 7 Season 1", 0, "Episode") == Some(Span(8, 9))
  {
    var s := "Episode 7 Season 1";
    assert s[0..7] == "Episode";
    RegionMatchesExact(s, 0, "Episode");
    assert SpaceRun(s, 7) == 1 by { assert IsRegexSpace(s[7]) && !IsRegexSpace(s[8]); assert SpaceRun(s, 8) == 0; }
    assert DigitRun(s, 8) == 1 by { assert DigitRun(s, 9) == 0; }
  }

  lemma BothWordsGap()
    ensures NonDigitRun("Episode 7 Season 1", 9) == 8
  {
    var s := "Episode 7 Season 1";
    assert NonDigitRun(s, 17) == 0;
  }

  lemma BothWordsSeasonSearch()
    ensures NonDigitsThenLabelled("Episode 7 Season 1", 9, 8, "Season") == Some(Span(17, 18))
  {
    var s := "Episode 7 Season 1";
    BothWordsSeasonOnlyAt10();
    BothWordsSeasonNumber();
    NonDigitsThenLabelledAt(s, 9, 8, "Season", 10);
  }

  lemma BothWordsEpisodeFirst()
    ensures MatchAt(EpisodeThenSeason, "Episode 7 Season 1", 0) == Some(["Episode 7 Season 1", "7", "1"])
  {
    var s := "Episode 7 Season 1";
    BothWordsEpisodeNumber();
    BothWordsGap();
    BothWordsSeasonSearch();
    assert LabelPairAt(s, 0, "Episode", "Season") == Some((Span(8, 9), Span(17, 18)));
    assert s[0..18] == s && s[8..9] == "7" && s[17..18] == "1";
  }

  lemma BothWordsEarlierPatternsFail()
    ensures forall k :: 0 <= k < 3 ==> Find(PatternAt(k), "Episode 7 Season 1").None?
  {
    BothWordsNoLetterPair(false);
    BothWordsNoLetterPair(true);
    BothWordsSeasonFirstFails();
  }

  lemma BothWordsFound()
    ensures Find(PatternAt(3), "Episode 7 Season 1") == MatchAt(EpisodeThenSeason, "Episode 7 Season 1", 0)
    ensures MatchAt(EpisodeThenSeason, "Episode 7 Season 1", 0).Some?
  {
    BothWordsEpisodeFirst();
    assert PatternAt(3) == EpisodeThenSeason;
    FindAt(PatternAt(3), "Episode 7 Season 1", 0);
  }

  lemma ExampleEpisodeThenSeason()
    ensures EpisodeInfo("Episode 7 Season 1") == (Some(7), Some(1))
  {
    BothWordsEarlierPatternsFail();
    BothWordsFound();
    BothWordsEpisodeFirst();
    EpisodeInfoFirstMatch("Episode 7 Season 1", 3);
    SmallInts();
  }

  // "Episode 7"
  lemma EpisodeOnlyWordsAt0()
    ensures forall j :: 0 <= j <= 9 ==> !RegionMatchesIgnoreCase("Episode 7", j, "Season")
    ensures forall j :: 0 < j <= 9 ==> !RegionMatchesIgnoreCase("Episode 7", j, "Episode")
  {
    var s := "Episode 7";
    assert !EqualsIgnoreCase(s[4], "Season"[1]);
    assert !EqualsIgnoreCase(s[1], "Episode"[0]) && !EqualsIgnoreCase(s[2], "Episode"[0]);
    assert forall j :: 0 <= j < 3 ==> !EqualsIgnoreCase(s[j], "Season"[0]);
  }

  lemma EpisodeOnlyNumber()
    ensures LabelledNumberAt("Episode 7", 0, "Episode") == Some(Span(8, 9))
  {
    var s := "Episode 7";
    assert SpaceRun(s, 7) == 1 by { assert IsRegexSpace(s[7]) && !IsRegexSpace(s[8]); assert SpaceRun(s, 8) == 0; }
    assert DigitRun(s, 8) == 1;
  }

  lemma EpisodeOnlyNoPair()
    ensures forall j :: 0 <= j <= 9 ==> MatchAt(PatternAt(0), "Episode 7", j).None?
    ensures forall j :: 0 <= j <= 9 ==> MatchAt(PatternAt(1), "Episode 7", j).None?
    ensures forall j :: 0 <= j <= 9 ==> MatchAt(PatternAt(2), "Episode 7", j).None?
  {
    assert DigitRun("Episode 7", 4) == 0;
    EpisodeOnlyWordsAt0();
  }

  lemma EpisodeOnlyNoSeason()
    ensures forall j :: 0 <= j <= 9 ==> MatchAt(PatternAt(3), "Episode 7", j).None?
  {
    EpisodeOnlyWordsAt0();
    EpisodeOnlyNumber();
    assert NonDigitRun("Episode 7", 9) == 0;
  }

  lemma EpisodeOnlyGroups()
    ensures MatchAt(EpisodeAlone, "Episode 7", 0) == Some(["Episode 7", "7"])
  {
    var s := "Episode 7";
    EpisodeOnlyNumber();
    assert s[0..9] == s && s[8..9] == "7";
  }

  lemma EpisodeOnlyEarlierPatternsFail()
    ensures forall k :: 0 <= k < 4 ==> Find(PatternAt(k), "Episode 7").None?
  {
    var s := "Episode 7";
    EpisodeOnlyNoPair();
    EpisodeOnlyNoSeason();
    FindNone(PatternAt(0), s);
    FindNone(PatternAt(1), s);
    FindNone(PatternAt(2), s);
    FindNone(PatternAt(3), s);
  }

  lemma EpisodeOnlyFound()
    ensures Find(PatternAt(4), "Episode 7") == Some(["Episode 7", "7"])
  {
    EpisodeOnlyGroups();
    assert PatternAt(4) == EpisodeAlone;
    FindAt(PatternAt(4), "Episode 7", 0);
  }

  lemma ExampleEpisodeAlone()
    ensures EpisodeInfo("Episode 7") == (None, Some(7))
  {
    EpisodeOnlyEarlierPatternsFail();
    EpisodeOnlyFound();
    EpisodeInfoFirstMatch("Episode 7", 4);
    SmallInts();
  }

  // "random.mp4"
  /** A name with no 's' and no 'e' in either case matches none of the patterns. */
  lemma NoMarkerLetters(s: string, k: nat, j: nat)
    requires forall i :: 0 <= i < |s| ==> !EqualsIgnoreCase(s[i], 'S') && !EqualsIgnoreCase(s[i], 'E')
    requires k < PatternCount && j <= |s|
    ensures MatchAt(PatternAt(k), s, j).None?
  {
    if j < |s| {
      assert !EqualsIgnoreCase(s[j + 0], "Season"[0]);
      assert !EqualsIgnoreCase(s[j + 0], "Episode"[0]);
    }
  }

  lemma ExampleNoMatch()
    ensures EpisodeInfo("random.mp4") == (None, None)
  {
    var s := "random.mp4";
    assert forall i :: 0 <= i < |s| ==> !EqualsIgnoreCase(s[i], 'S') && !EqualsIgnoreCase(s[i], 'E');
    forall k, j | 0 <= k < 5 && 0 <= j <= |s|
      ensures MatchAt(PatternAt(k), s, j).None?
    {
      NoMarkerLetters(s, k, j);
    }
    EpisodeInfoNoMatch(s);
  }

  lemma FourDigitValues()
    ensures DigitsValue("1990") == 1990 && DigitsValue("1994") == 1994
  {
    var a, b := "1990", "1994";
    assert a[..3] == "199" && b[..3] == "199";
    assert "199"[..2] == "19" && "19"[..1] == "1" && "1"[..0] == [];
  }

  lemma ExampleYearRange()
    ensures ExtractYear(Some("1990-1991")) == Some(1990)
  {
    var s := "1990-1991";
    assert YearRangeAt(s, 0);
    YearRangeWins(s, 0);
    assert s[0..4] == "1990";
    FourDigitValues();
  }

  lemma ExampleIsoDate()
    ensures ExtractYear(Some("1994-05-01")) == Some(1994)
  {
    var s := "1994-05-01";
    assert !IsDigit(s[7]);
    assert forall j :: 0 <= j <= |s| ==> !YearRangeAt(s, j);
    assert YearAt(s, 0);
    FirstBareYear(s, 0);
    assert s[0..4] == "1994";
    FourDigitValues();
  }

  lemma NoRangeBeforeFive()
    ensures forall j :: 0 <= j < 5 ==> !YearRangeAt("1980 1990-1991", j)
  {
    var s := "1980 1990-1991";
    forall j | 0 <= j < 5 ensures !YearRangeAt(s, j) {
      if j == 0 {
        assert s[4] != '-';
      } else if j < 4 {
        assert !WordBoundary(s, j);
      } else {
        assert !IsDigit(s[4]);
      }
    }
  }

  lemma ExampleRangeAfterYear()
    ensures ExtractYear(Some("1980 1990-1991")) == Some(1990)
  {
    var s := "1980 1990-1991";
    NoRangeBeforeFive();
    assert s[5..9] == "1990" && s[10..14] == "1991";
    assert YearRangeAt(s, 5);
    YearRangeWins(s, 5);
    assert s[5..9] == "1990";
    FourDigitValues();
  }

  lemma ExampleRunTogether()
    ensures ExtractYear(Some("19940501")) == None
  {
    var s := "19940501";
    assert forall j :: 0 <= j <= |s| ==> !YearAt(s, j) by {
      forall j | 0 <= j <= |s| ensures !YearAt(s, j) {
        if j == 0 {
          assert !WordBoundary(s, 4);
        } else if j + 4 <= |s| {
          assert !WordBoundary(s, j);
        }
      }
    }
    assert forall j :: 0 <= j <= |s| ==> MatchAt(Year, s, j).None?;
    assert forall j :: 0 <= j <= |s| ==> MatchAt(YearRange, s, j).None?;
  }

  lemma ExampleIaVariant()
    ensures UniqueName("d/movie.ia.mp4") == UniqueName("d/movie.mp4")
    ensures UniqueName("movie.ia.mp4") == UniqueName("movie.mp4")
  {
    IaVariantSharesUniqueName("d/", "movie", "mp4");
    IaVariantSharesUniqueName("", "movie", "mp4");
    MovieNames();
  }

  lemma MovieNames()
    ensures "d/" + "movie" + ".ia." + "mp4" == "d/movie.ia.mp4"
    ensures "d/" + "movie" + "." + "mp4" == "d/movie.mp4"
    ensures "" + "movie" + ".ia." + "mp4" == "movie.ia.mp4"
    ensures "" + "movie" + "." + "mp4" == "movie.mp4"
  {
  }

  /** Replacing '_' by ' ' in "a_b", where neither part holds '_', gives "a b". */
  lemma UnderscoreToSpace(a: string, b: string)
    requires '_' !in a && '_' !in b
    ensures ReplaceChar(a + "_" + b, '_', ' ') == a + " " + b
  {
    var r := ReplaceChar(a + "_" + b, '_', ' ');
    forall k | 0 <= k < |r| ensures r[k] == (a + " " + b)[k] {
      if k < |a| {
        assert (a + "_" + b)[k] == a[k];
      } else if k > |a| {
        assert (a + "_" + b)[k] == b[k - |a| - 1];
      }
    }
  }

  /** The cleaned name of "a_b.ext" is "a b". */
  lemma CleanedOfParts(a: string, b: string, ext: string)
    requires '/' !in a && '/' !in b && '/' !in ext && '.' !in ext && '_' !in a && '_' !in b
    ensures CleanedName(a + "_" + b + "." + ext) == a + " " + b
  {
    assert a + "_" + b + "." + ext == "" + (a + "_" + b) + "." + ext;
    CleanedNameOf("", a + "_" + b, ext);
    UnderscoreToSpace(a, b);
  }

  lemma CleanedEp1At480()
    ensures CleanedName("Ep1_480p.mp4") == "Ep1 480p"
  {
    CleanedOfParts("Ep1", "480p", "mp4");
    Ep1At480Parts();
  }

  lemma Ep1At480Parts()
    ensures "Ep1" + "_" + "480p" + "." + "mp4" == "Ep1_480p.mp4"
    ensures "Ep1" + " " + "480p" == "Ep1 480p"
  {
  }

  lemma CleanedEp1At720()
    ensures CleanedName("Ep1_720p.mp4") == "Ep1 720p"
  {
    CleanedOfParts("Ep1", "720p", "mp4");
    Ep1At720Parts();
  }

  lemma Ep1At720Parts()
    ensures "Ep1" + "_" + "720p" + "." + "mp4" == "Ep1_720p.mp4"
    ensures "Ep1" + " " + "720p" == "Ep1 720p"
  {
  }

  lemma CleanedEp2At480()
    ensures CleanedName("Ep2_480p.mp4") == "Ep2 480p"
  {
    CleanedOfParts("Ep2", "480p", "mp4");
    Ep2At480Parts();
  }

  lemma Ep2At480Parts()
    ensures "Ep2" + "_" + "480p" + "." + "mp4" == "Ep2_480p.mp4"
    ensures "Ep2" + " " + "480p" == "Ep2 480p"
  {
  }

  /**
   * Quality markers are part of the cleaned name: three renditions
   * "Ep1_480p.mp4", "Ep1_720p.mp4" and "Ep2_480p.mp4" make three groups.
   */
  lemma ExampleQualityVariantsGroups()
    ensures var names := [CleanedName("Ep1_480p.mp4"), CleanedName("Ep1_720p.mp4"), CleanedName("Ep2_480p.mp4")];
            names == ["Ep1 480p", "Ep1 720p", "Ep2 480p"] && |Dedup(names)| == 3
  {
    CleanedEp1At480();
    CleanedEp1At720();
    CleanedEp2At480();
    ThreeNamesDistinct();
    DedupOfDistinct(["Ep1 480p", "Ep1 720p", "Ep2 480p"]);
  }

  lemma ThreeNamesDistinct()
    ensures NoDuplicates(["Ep1 480p", "Ep1 720p", "Ep2 480p"])
  {
    var names := ["Ep1 480p", "Ep1 720p", "Ep2 480p"];
    assert names[0][4] != names[1][4] && names[0][2] != names[2][2] && names[1][2] != names[2][2];
  }
}
