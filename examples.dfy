/**
 * Input/output pairs that test_xl_geocoder.py pins for `parse_street_name`,
 * proved of the model. Each pair is split into small facts (the matched
 * token, the deleted remainder, the stripped result) that two general
 * lemmas put together.
 */
module Examples {
  import opened Text
  import opened Wrappers
  import opened StreetName
  import opened StreetNamePg

  /** `building_number_first=True` and every other option left at its default. */
  const NumberFirstOnly: Options := Options([], [], false, true)

  // ----- general steps ------------------------------------------------------

  /** With a token at `p`, number-first is the moved token, ", " and the stripped remainder. */
  lemma NumberFirstFromParts(s: string, p: nat, m: string, rest: string)
    requires MatchesAt(s, p) && TokenMove(s[p..]) == Some(m)
    requires Strip(ReplaceAll(s, s[p..], "")) == rest
    ensures NumberFirst(s) == m + ", " + rest
  {
    TokenMovedToFront(s, p);
  }

  /** With only number-first on, a stripped number-first result is the whole answer. */
  lemma NumberFirstOnlyResult(s: string, o: Options, r: string)
    requires o.filter == [] && o.expand == [] && !o.removeAbbrev && o.numberFirst
    requires NumberFirst(s) == r && IsStripped(r)
    ensures Normalize(s, o) == Accepted(r)
  {
    StrippedFixpoint(r);
  }

  /** With only number-first on and no token, the answer is the name stripped. */
  lemma NoTokenResult(s: string, o: Options)
    requires o.filter == [] && o.expand == [] && !o.removeAbbrev && o.numberFirst
    requires TokenStart(s).None?
    ensures Normalize(s, o) == Accepted(Strip(s))
  {
    assert !FilterHit(s, o.filter);
    assert Prepared(s, o) == s;
    assert NumberFirst(s) == s;
  }

  /** Deleting the suffix from `k` on leaves the prefix, when the suffix's head does not occur before `k`. */
  lemma DeleteTail(s: string, k: nat)
    requires k < |s| && s[k] !in s[..k]
    ensures ReplaceAll(s, s[k..], "") == s[..k]
  {
    ReplaceAfterPrefix(s, s[k..], k);
    assert s[k..][|s[k..]|..] == [];
  }

  /** A head that cannot start the pattern is kept. */
  lemma ReplaceKeepsHead(s: string, pat: string)
    requires pat != [] && s != [] && s[0] != pat[0]
    ensures ReplaceAll(s, pat, "") == [s[0]] + ReplaceAll(s[1..], pat, "")
  {
    if |s| >= |pat| {
      assert !(pat <= s);
    } else {
      assert s == [s[0]] + s[1..];
    }
  }

  /** A prefix holding no occurrence of the pattern's head is kept as it is. */
  lemma {:induction false} ReplaceAfterPrefix(s: string, pat: string, k: nat)
    requires pat != [] && k <= |s| && pat[0] !in s[..k]
    ensures ReplaceAll(s, pat, "") == s[..k] + ReplaceAll(s[k..], pat, "")
    decreases k
  {
    if k > 0 {
      var t := s[1..];
      assert s[0] == s[..k][0];
      ReplaceKeepsHead(s, pat);
      assert t[..k - 1] == s[..k][1..];
      assert pat[0] !in t[..k - 1];
      ReplaceAfterPrefix(t, pat, k - 1);
      assert t[k - 1..] == s[k..];
      calc {
        ReplaceAll(s, pat, "");
        [s[0]] + (t[..k - 1] + ReplaceAll(s[k..], pat, ""));
        { Associative([s[0]], t[..k - 1], ReplaceAll(s[k..], pat, "")); }
        [s[0]] + t[..k - 1] + ReplaceAll(s[k..], pat, "");
        { assert [s[0]] + t[..k - 1] == s[..k]; }
        s[..k] + ReplaceAll(s[k..], pat, "");
      }
    } else {
      assert s[0..] == s;
    }
  }

  /** The number part starts with a digit. */
  lemma NoCoreWithoutDigitHead(x: string, hyphen: bool)
    requires x != [] && !IsDigit(x[0])
    ensures !IsNumberCore(x, hyphen)
  {
    assert DigitRun(x) == 0;
  }

  /** A token starts with a digit, so a text that does not is no token. */
  lemma NoTokenWithoutDigitHead(t: string)
    requires t != [] && !IsDigit(t[0])
    ensures TokenMove(t).None?
  {
    forall k | 1 <= k <= |t| ensures !IsNumberCore(t[..k], true) {
      assert t[..k][0] == t[0];
      NoCoreWithoutDigitHead(t[..k], true);
    }
    assert t[..|t|] == t;
  }

  /** In "3 Maja " followed by a text without spaces, only the starts 2 and 7 follow a space. */
  lemma SpacesOfThreeMaja(s: string, tail: string)
    requires s == "3 Maja " + tail && ' ' !in tail
    ensures forall i :: 0 <= i < |s| && s[i] == ' ' ==> i == 1 || i == 6
  {
    forall i | 7 <= i < |s| ensures s[i] != ' ' {
      assert s[i] == tail[i - 7];
    }
  }

  /** A name "3 Maja " + `tail` has no token when `tail` is none: "Maja ..." starts with a letter. */
  lemma NoTokenAfterThreeMaja(s: string, tail: string)
    requires s == "3 Maja " + tail && ' ' !in tail && TokenMove(tail).None?
    ensures TokenStart(s).None?
  {
    SpacesOfThreeMaja(s, tail);
    assert s[2..] == "Maja " + tail && s[7..] == tail;
    NoTokenWithoutDigitHead(s[2..]);
  }

  // ----- '3 Maja 2 a' gives '2a, 3 Maja' ------------------------------------

  lemma TokenTwoA(s: string)
    requires s == "3 Maja 2 a"
    ensures MatchesAt(s, 7) && TokenMove(s[7..]) == Some("2a")
  {
    var t := "2 a";
    assert s[7..] == t;
    assert IsNumberCore("2", true);
    assert !IsDigit(t[1]) && !IsDigit("2 "[1]);
    assert DigitRun(t) == 1 && DigitRun("2 ") == 1;
    assert !IsNumberCore(t, true);
    assert !IsNumberCore("2 ", true);
    assert t[..1] == "2" && t[..2] == "2 ";
    assert t[..1] + [t[2]] == "2a";
  }

  lemma RemainderTwoA(s: string)
    requires s == "3 Maja 2 a"
    ensures Strip(ReplaceAll(s, s[7..], "")) == "3 Maja"
  {
    assert s[..7] == "3 Maja " && s[7] == '2';
    DeleteTail(s, 7);
    StripThreeMaja();
  }

  lemma StripThreeMaja()
    ensures Strip("3 Maja ") == "3 Maja"
  {
    var s := "3 Maja ";
    assert !IsSpace(s[0]) && LeadingSpace(s) == 0;
    assert s[..|s| - 1] == "3 Maja";
    assert !IsSpace("3 Maja"[5]) && TrailingSpace("3 Maja") == 0;
    assert TrailingSpace(s) == 1;
    assert s[0..|s| - 1] == "3 Maja";
  }

  lemma AnswerTwoA(r: string)
    requires r == "2a, 3 Maja"
    ensures "2a" + ", " + "3 Maja" == r && IsStripped(r)
  {
  }

  /** The spacer between the number and the letter is dropped when the token moves. */
  lemma ThreeMajaTwoA(s: string, r: string)
    requires s == "3 Maja 2 a" && r == "2a, 3 Maja"
    ensures Normalize(s, NumberFirstOnly) == Accepted(r)
  {
    TokenTwoA(s);
    RemainderTwoA(s);
    AnswerTwoA(r);
    NumberFirstFromParts(s, 7, "2a", "3 Maja");
    NumberFirstOnlyResult(s, NumberFirstOnly, r);
  }

  // ----- '3 Maja 5/a' gives '5a, 3 Maja' ------------------------------------

  lemma TokenFiveA(s: string)
    requires s == "3 Maja 5/a"
    ensures MatchesAt(s, 7) && TokenMove(s[7..]) == Some("5a")
  {
    var t := "5/a";
    assert s[7..] == t;
    assert IsNumberCore("5", true);
    assert !IsDigit(t[1]) && !IsDigit("5/"[1]);
    assert DigitRun(t) == 1 && DigitRun("5/") == 1;
    assert t[2..] == "a" && !IsDigit(t[2]);
    assert !AllDigits(t[2..]);
    assert !IsNumberCore(t, true);
    assert !IsNumberCore("5/", true);
    assert t[..1] == "5" && t[..2] == "5/";
    assert t[..1] + [t[2]] == "5a";
  }

  lemma RemainderFiveA(s: string)
    requires s == "3 Maja 5/a"
    ensures Strip(ReplaceAll(s, s[7..], "")) == "3 Maja"
  {
    assert s[..7] == "3 Maja " && s[7] == '5';
    DeleteTail(s, 7);
    StripThreeMaja();
  }

  lemma AnswerFiveA(r: string)
    requires r == "5a, 3 Maja"
    ensures "5a" + ", " + "3 Maja" == r && IsStripped(r)
  {
  }

  /** A slash may stand as the spacer before the letter. */
  lemma ThreeMajaFiveSlashA(s: string, r: string)
    requires s == "3 Maja 5/a" && r == "5a, 3 Maja"
    ensures Normalize(s, NumberFirstOnly) == Accepted(r)
  {
    TokenFiveA(s);
    RemainderFiveA(s);
    AnswerFiveA(r);
    NumberFirstFromParts(s, 7, "5a", "3 Maja");
    NumberFirstOnlyResult(s, NumberFirstOnly, r);
  }

  // ----- '3 Maja 2-6' gives '2-6, 3 Maja' ----------------------------------

  lemma TokenRange(s: string)
    requires s == "3 Maja 2-6"
    ensures MatchesAt(s, 7) && TokenMove(s[7..]) == Some("2-6")
  {
    var t := "2-6";
    assert s[7..] == t;
    assert !IsDigit(t[1]);
    assert DigitRun(t) == 1;
    assert t[2..] == "6";
    assert IsNumberCore(t, true);
  }

  lemma RemainderRange(s: string)
    requires s == "3 Maja 2-6"
    ensures Strip(ReplaceAll(s, s[7..], "")) == "3 Maja"
  {
    assert s[..7] == "3 Maja " && s[7] == '2';
    DeleteTail(s, 7);
    StripThreeMaja();
  }

  lemma AnswerRange(r: string)
    requires r == "2-6, 3 Maja"
    ensures "2-6" + ", " + "3 Maja" == r && IsStripped(r)
  {
  }

  /** A hyphenated range is one token. */
  lemma ThreeMajaRange(s: string, r: string)
    requires s == "3 Maja 2-6" && r == "2-6, 3 Maja"
    ensures Normalize(s, NumberFirstOnly) == Accepted(r)
  {
    TokenRange(s);
    RemainderRange(s);
    AnswerRange(r);
    NumberFirstFromParts(s, 7, "2-6", "3 Maja");
    NumberFirstOnlyResult(s, NumberFirstOnly, r);
  }

  // ----- 'grudnia 1970 43' gives '43, grudnia 1970', and again '1970, 43, grudnia'

  /** One trailing space after a non-space, and no leading space: stripping drops that space. */
  lemma StripLastSpace(s: string)
    requires |s| >= 2 && !IsSpace(s[0]) && s[|s| - 1] == ' ' && !IsSpace(s[|s| - 2])
    ensures Strip(s) == s[..|s| - 1]
  {
    assert LeadingSpace(s) == 0;
    assert s[..|s| - 1][|s| - 2] == s[|s| - 2];
    assert TrailingSpace(s[..|s| - 1]) == 0;
    assert TrailingSpace(s) == 1;
    assert s[0..|s| - 1] == s[..|s| - 1];
  }

  lemma TokenFortyThree(s: string)
    requires s == "grudnia 1970 43"
    ensures MatchesAt(s, 13) && TokenMove(s[13..]) == Some("43")
  {
    var t := "43";
    assert s[13..] == t && s[12] == ' ';
    assert AllDigits(t);
  }

  lemma RemainderFortyThree(s: string)
    requires s == "grudnia 1970 43"
    ensures Strip(ReplaceAll(s, s[13..], "")) == "grudnia 1970"
  {
    var u := s[..13];
    HeadGrudnia(s, u);
    DeleteTail(s, 13);
    StripLastSpace(u);
  }

  lemma HeadGrudnia(s: string, u: string)
    requires s == "grudnia 1970 43" && u == s[..13]
    ensures u == "grudnia 1970 " && s[13] !in u && u[..12] == "grudnia 1970"
  {
  }

  lemma AnswerFortyThree(r: string)
    requires r == "43, grudnia 1970"
    ensures "43" + ", " + "grudnia 1970" == r && IsStripped(r)
  {
  }

  lemma TokenYear(s: string)
    requires s == "43, grudnia 1970"
    ensures MatchesAt(s, 12) && TokenMove(s[12..]) == Some("1970")
  {
    var t := "1970";
    assert s[12..] == t && s[11] == ' ';
    assert AllDigits(t);
  }

  lemma RemainderYear(s: string)
    requires s == "43, grudnia 1970"
    ensures Strip(ReplaceAll(s, s[12..], "")) == "43, grudnia"
  {
    var u := s[..12];
    HeadYear(s, u);
    DeleteTail(s, 12);
    StripLastSpace(u);
  }

  lemma HeadYear(s: string, u: string)
    requires s == "43, grudnia 1970" && u == s[..12]
    ensures u == "43, grudnia " && s[12] !in u && u[..11] == "43, grudnia"
  {
  }

  lemma AnswerYear(r: string)
    requires r == "1970, 43, grudnia"
    ensures "1970" + ", " + "43, grudnia" == r && IsStripped(r)
  {
  }

  /**
   * Number-first is not idempotent: its own answer still ends in a number
   * token (the year), which a second pass moves to the front in turn.
   */
  lemma GrudniaTwice(s: string, r1: string, r2: string)
    requires s == "grudnia 1970 43" && r1 == "43, grudnia 1970" && r2 == "1970, 43, grudnia"
    ensures Normalize(s, NumberFirstOnly) == Accepted(r1)
    ensures Normalize(r1, NumberFirstOnly) == Accepted(r2) && r2 != r1
  {
    TokenFortyThree(s);
    RemainderFortyThree(s);
    AnswerFortyThree(r1);
    NumberFirstFromParts(s, 13, "43", "grudnia 1970");
    NumberFirstOnlyResult(s, NumberFirstOnly, r1);
    TokenYear(r1);
    RemainderYear(r1);
    AnswerYear(r2);
    NumberFirstFromParts(r1, 12, "1970", "43, grudnia");
    NumberFirstOnlyResult(r1, NumberFirstOnly, r2);
    assert r2[0] != r1[0];
  }

  // ----- names left unchanged -----------------------------------------------

  lemma NotTokenTwentyThreeAA(t: string)
    requires t == "23aa"
    ensures TokenMove(t).None?
  {
    assert DigitRun(t[2..]) == 0 && DigitRun(t[1..]) == 1 && DigitRun(t) == 2;
    assert !AllDigits(t) && !IsNumberCore(t, true);
    var u := t[..3];
    assert u == "23a" && DigitRun(u[2..]) == 0 && DigitRun(u[1..]) == 1 && DigitRun(u) == 2;
    assert !AllDigits(u) && !IsNumberCore(u, true);
    assert !IsSpacer(t[3]) && !IsSpacer(t[2]);
  }

  lemma NoTokenTwentyThreeAA(s: string)
    requires s == "3 Maja 23aa"
    ensures TokenStart(s).None?
  {
    assert s == "3 Maja " + "23aa";
    NotTokenTwentyThreeAA("23aa");
    NoTokenAfterThreeMaja(s, "23aa");
  }

  lemma StrippedTwentyThreeAA(s: string)
    requires s == "3 Maja 23aa"
    ensures IsStripped(s)
  {
  }

  /** Two letters after the number are not a building number. */
  lemma ThreeMajaTwentyThreeAA(s: string)
    requires s == "3 Maja 23aa"
    ensures Normalize(s, NumberFirstOnly) == Accepted(s)
  {
    NoTokenTwentyThreeAA(s);
    StrippedTwentyThreeAA(s);
    NoTokenResult(s, NumberFirstOnly);
    StrippedFixpoint(s);
  }

  lemma NotTokenTwoDashA(t: string)
    requires t == "2-A"
    ensures TokenMove(t).None?
  {
    assert DigitRun(t[1..]) == 0 && DigitRun(t) == 1;
    assert t[2..] == "A" && t[2..][0] == 'A';
    assert !AllDigits(t) && !IsNumberCore(t, true);
    var u := t[..2];
    assert u == "2-" && DigitRun(u[1..]) == 0 && DigitRun(u) == 1;
    assert !AllDigits(u) && !IsNumberCore(u, true);
    assert !IsSpacer(t[2]) && !IsSpacer(t[1]);
  }

  lemma NoTokenTwoDashA(s: string)
    requires s == "3 Maja 2-A"
    ensures TokenStart(s).None?
  {
    assert s == "3 Maja " + "2-A";
    NotTokenTwoDashA("2-A");
    NoTokenAfterThreeMaja(s, "2-A");
  }

  lemma StrippedTwoDashA(s: string)
    requires s == "3 Maja 2-A"
    ensures IsStripped(s)
  {
  }

  /** A hyphen must be followed by digits. */
  lemma ThreeMajaTwoDashA(s: string)
    requires s == "3 Maja 2-A"
    ensures Normalize(s, NumberFirstOnly) == Accepted(s)
  {
    NoTokenTwoDashA(s);
    StrippedTwoDashA(s);
    NoTokenResult(s, NumberFirstOnly);
    StrippedFixpoint(s);
  }

  // ----- the filter ---------------------------------------------------------

  /** 'ul.' occurs in 'ul. Dworcowa 35', so a filter listing it rejects the name. */
  lemma FilterRejectsDworcowa(s: string, filter: seq<string>)
    requires s == "ul. Dworcowa 35" && filter == ["Krucza", "ul."]
    ensures Normalize(s, Options(filter, [], false, false)) == Rejected
  {
    OccursAt("ul.", s, 0);
    assert Occurs(filter[1], s);
  }

  /** A text whose first character does not occur in `s` does not occur in `s`. */
  lemma {:induction false} AbsentHead(p: string, s: string)
    requires p != [] && p[0] !in s
    ensures !Occurs(p, s)
    decreases |s|
  {
    if s != [] {
      assert s[0] in s;
      assert p[0] !in s[1..] by {
        forall i | 0 <= i < |s[1..]| ensures s[1..][i] != p[0] {
          assert s[1..][i] == s[i + 1];
        }
      }
      AbsentHead(p, s[1..]);
    }
  }

  lemma KruczaAbsent()
    ensures 'K' !in "ul. Dworcowa 35" && IsStripped("ul. Dworcowa 35")
  {
  }

  /** A filter entry that does not occur lets the name through unchanged. */
  lemma FilterKeepsDworcowa(s: string, filter: seq<string>)
    requires s == "ul. Dworcowa 35" && filter == ["Krucza"]
    ensures Normalize(s, Options(filter, [], false, false)) == Accepted(s)
  {
    KruczaAbsent();
    AbsentHead("Krucza", s);
    assert !FilterHit(s, filter);
    StrippedFixpoint(s);
  }

  // ----- abbreviation expansion ------------------------------------------------

  /** A text holding neither case of a letter has no character that lowers to it. */
  lemma NoCaseOf(p: string, lower: char, upper: char)
    requires lower !in p && upper !in p
    requires forall c :: LowerChar(c) == lower ==> c == lower || c == upper
    ensures forall c :: c in p ==> LowerChar(c) != lower
  {
  }

  /** Only 'ś' and 'Ś' lower to 'ś'. */
  lemma LowerCasesOfS()
    ensures forall c :: LowerChar(c) == 'ś' ==> c == 'ś' || c == 'Ś'
  {
    forall c | LowerChar(c) == 'ś' ensures c == 'ś' || c == 'Ś' {
      if 'A' <= c <= 'Z' {
        assert false;
      }
    }
  }

  /** Only 'u' and 'U' lower to 'u'. */
  lemma LowerCasesOfU()
    ensures forall c :: LowerChar(c) == 'u' ==> c == 'u' || c == 'U'
  {
    forall c | LowerChar(c) == 'u' ensures c == 'u' || c == 'U' {
      if 'A' <= c <= 'Z' {
        assert c as int + 32 == 'u' as int;
      }
    }
  }

  /** No character of " Jerzego 20" lowers to 'ś'. */
  lemma NoTitleIn(p: string)
    requires p == " Jerzego 20"
    ensures forall c :: c in p ==> LowerChar(c) != 'ś'
  {
    LowerCasesOfS();
    NoCaseOf(p, 'ś', 'Ś');
  }

  /** No character of "ul. " lowers to 'ś'. */
  lemma NoTitleInPrefix(p: string)
    requires p == "ul. "
    ensures forall c :: c in p ==> LowerChar(c) != 'ś'
  {
    LowerCasesOfS();
    NoCaseOf(p, 'ś', 'Ś');
  }

  /** No character of " świętego Jerzego 20" lowers to 'u'. */
  lemma NoStreetIn(p: string)
    requires p == " świętego Jerzego 20"
    ensures forall c :: c in p ==> LowerChar(c) != 'u'
  {
    LowerCasesOfU();
    NoCaseOf(p, 'u', 'U');
  }

  /** 'św.' and 'Św.' both match the title in 'ul. św. Jerzego 20', which becomes `val`. */
  lemma ReplaceTitle(s: string, key: string, val: string)
    requires s == "ul. św. Jerzego 20" && (key == "św." || key == "Św.")
    ensures ReplaceIgnoringCase(s, key, val) == "ul. " + val + " Jerzego 20"
  {
    var p, t := s[..4], s[4..];
    var rest := t[3..];
    TitleParts(s, p, t, rest);
    assert LowerChar(key[0]) == 'ś';
    NoTitleInPrefix(p);
    ReplaceIgnoringCaseSkips(p, t, key, val);
    ReplaceTitleAtStart(t, key, val);
    Associative(p, val, rest);
    TitleJoined(p, val, rest);
  }

  /** The title at the start of 'św. Jerzego 20' becomes `val`; the rest is copied. */
  lemma ReplaceTitleAtStart(t: string, key: string, val: string)
    requires t == "św. Jerzego 20" && (key == "św." || key == "Św.")
    ensures ReplaceIgnoringCase(t, key, val) == val + t[3..]
  {
    var rest := t[3..];
    assert rest == " Jerzego 20";
    assert LowerChar(key[0]) == 'ś';
    NoTitleIn(rest);
    TitleMatches(t, key);
    ReplaceIgnoringCaseHitAt(t, key, val, 0);
    assert t[0..] == t;
    ReplaceIgnoringCaseSkips(rest, [], key, val);
    assert rest + [] == rest && ReplaceIgnoringCase([], key, val) == [];
  }

  lemma TitleParts(s: string, p: string, t: string, rest: string)
    requires s == "ul. św. Jerzego 20" && p == s[..4] && t == s[4..] && rest == t[3..]
    ensures p == "ul. " && t == "św. Jerzego 20" && rest == " Jerzego 20" && p + t == s
  {
  }

  /** 'św. Jerzego 20' starts with the title in either case. */
  lemma TitleMatches(t: string, key: string)
    requires t == "św. Jerzego 20" && (key == "św." || key == "Św.")
    ensures MatchesIgnoringCaseAt(t, key, 0)
  {
    var head := t[0..3];
    assert head == "św.";
    if key == "Św." {
      CapitalTitle(key, head);
    }
  }

  /** 'Św.' and 'św.' are equal when case is ignored. */
  lemma CapitalTitle(a: string, b: string)
    requires a == "Św." && b == "św."
    ensures EqualIgnoringCase(a, b)
  {
    assert a == ['Ś'] + a[1..] && b == ['ś'] + b[1..] && a[1..] == b[1..];
  }

  lemma TitleJoined(p: string, val: string, rest: string)
    requires p == "ul. " && rest == " Jerzego 20"
    ensures p + val + rest == "ul. " + val + " Jerzego 20"
  {
  }

  /** 'ul.' at the start becomes 'ulica'; nothing after it starts with a 'u'. */
  lemma ReplaceStreetPrefix(s: string, key: string, val: string)
    requires s == "ul. świętego Jerzego 20" && key == "ul." && val == "ulica"
    ensures ReplaceIgnoringCase(s, key, val) == "ulica świętego Jerzego 20"
  {
    var rest := s[3..];
    assert rest == " świętego Jerzego 20";
    assert s[0..3] == key;
    assert LowerChar(key[0]) == 'u';
    NoStreetIn(rest);
    ReplaceIgnoringCaseHitAt(s, key, val, 0);
    assert s[0..] == s;
    ReplaceIgnoringCaseSkips(rest, [], key, val);
    assert rest + [] == rest && ReplaceIgnoringCase([], key, val) == [];
    assert ReplaceIgnoringCase(s, key, val) == val + rest;
    StreetJoined(val, rest);
  }

  lemma StreetJoined(a: string, b: string)
    requires a == "ulica" && b == " świętego Jerzego 20"
    ensures a + b == "ulica świętego Jerzego 20"
  {
  }

  /** With only `expand_abbrev` given, the result is the expanded name, stripped. */
  lemma ExpandOnly(s: string, e: seq<(string, string)>)
    ensures Normalize(s, Options([], e, false, false)) == Accepted(Strip(ExpandAll(s, e)))
  {
  }

  /** A one-entry mapping is a single replacement. */
  lemma ExpandOne(s: string, key: string, val: string)
    ensures ExpandAll(s, [(key, val)]) == ReplaceIgnoringCase(s, key, val)
  {
    assert [(key, val)][..0] == [];
  }

  /** A two-entry mapping replaces the first key, then the second. */
  lemma ExpandTwo(s: string, e1: (string, string), e2: (string, string))
    ensures ExpandAll(s, [e1, e2])
         == ReplaceIgnoringCase(ReplaceIgnoringCase(s, e1.0, e1.1), e2.0, e2.1)
  {
    assert [e1, e2][..1] == [e1];
    ExpandOne(s, e1.0, e1.1);
  }

  /**
   * `{'św.': 'świętego'}`, `{'Św.': 'świętego'}` and `{'św.': 'Świętego'}`:
   * the title is replaced, in either case, by the value as written.
   */
  lemma ExpandTitle(s: string, key: string, val: string)
    requires s == "ul. św. Jerzego 20" && (key == "św." || key == "Św.")
    requires val == "świętego" || val == "Świętego"
    ensures Normalize(s, Options([], [(key, val)], false, false))
         == Accepted("ul. " + val + " Jerzego 20")
  {
    ExpandOnly(s, [(key, val)]);
    ExpandOne(s, key, val);
    ReplaceTitle(s, key, val);
    TitleStripped("ul. " + val + " Jerzego 20", val);
  }

  lemma TitleStripped(r: string, val: string)
    requires val == "świętego" || val == "Świętego"
    requires r == "ul. " + val + " Jerzego 20"
    ensures Strip(r) == r
  {
    assert IsStripped(r);
    StrippedFixpoint(r);
  }

  /** `{'św.': 'świętego', 'ul.': 'ulica'}`: both keys are expanded, in mapping order. */
  lemma ExpandTitleAndPrefix(s: string)
    requires s == "ul. św. Jerzego 20"
    ensures ExpandAll(s, [("św.", "świętego"), ("ul.", "ulica")]) == "ulica świętego Jerzego 20"
    ensures Normalize(s, Options([], [("św.", "świętego"), ("ul.", "ulica")], false, false))
         == Accepted("ulica świętego Jerzego 20")
  {
    ExpandTwo(s, ("św.", "świętego"), ("ul.", "ulica"));
    ReplaceTitle(s, "św.", "świętego");
    TitleJoinedAs("ul. " + "świętego" + " Jerzego 20");
    ReplaceStreetPrefix("ul. świętego Jerzego 20", "ul.", "ulica");
    ExpandOnly(s, [("św.", "świętego"), ("ul.", "ulica")]);
    StreetStripped("ulica świętego Jerzego 20");
  }

  lemma TitleJoinedAs(r: string)
    requires r == "ul. " + "świętego" + " Jerzego 20"
    ensures r == "ul. świętego Jerzego 20"
  {
  }

  lemma StreetStripped(r: string)
    requires r == "ulica świętego Jerzego 20"
    ensures Strip(r) == r
  {
    assert IsStripped(r);
    StrippedFixpoint(r);
  }

  // ----- the older pattern --------------------------------------------------

  /** An older-pattern token starts with a digit. */
  lemma NoTokenPgWithoutDigitHead(t: string)
    requires t != [] && !IsDigit(t[0])
    ensures !IsTokenPg(t)
  {
    NoCoreWithoutDigitHead(t, false);
    if |t| >= 2 {
      assert t[..|t| - 1][0] == t[0];
      NoCoreWithoutDigitHead(t[..|t| - 1], false);
    }
  }

  lemma NotTokenPgTwoSpaceA(t: string)
    requires t == "2 a"
    ensures !IsTokenPg(t)
  {
    assert DigitRun(t[1..]) == 0 && DigitRun(t) == 1;
    assert !AllDigits(t) && !IsNumberCore(t, false);
    var u := t[..2];
    assert u == "2 " && DigitRun(u[1..]) == 0 && DigitRun(u) == 1;
    assert !AllDigits(u) && !IsNumberCore(u, false);
  }

  lemma NoOlderTokenTwoA(s: string)
    requires s == "3 Maja 2 a"
    ensures SearchFromPg(s, 1).None?
  {
    assert s[2..] == "Maja 2 a" && s[7..] == "2 a" && s[9..] == "a";
    NoTokenPgWithoutDigitHead(s[2..]);
    NotTokenPgTwoSpaceA(s[7..]);
    NoTokenPgWithoutDigitHead(s[9..]);
    assert forall i :: 0 <= i < |s| && s[i] == ' ' ==> i == 1 || i == 6 || i == 8;
  }

  /** The older pattern needs the letter attached, so '3 Maja 2 a' has no token. */
  lemma OlderKeepsTwoA(s: string)
    requires s == "3 Maja 2 a"
    ensures NumberFirstPg(s) == s
  {
    NoOlderTokenTwoA(s);
  }

  lemma NotTokenPgTwoSix(t: string)
    requires t == "2-6"
    ensures !IsTokenPg(t)
  {
    assert DigitRun(t[1..]) == 0 && DigitRun(t) == 1;
    assert !AllDigits(t) && !IsSeparator(t[1], false) && !IsNumberCore(t, false);
    assert !IsAsciiLetter(t[2]);
  }

  lemma NoOlderTokenTwoSix(s: string)
    requires s == "3 Maja 2-6"
    ensures SearchFromPg(s, 1).None?
  {
    assert s == "3 Maja " + "2-6";
    SpacesOfThreeMaja(s, "2-6");
    assert s[2..] == "Maja 2-6" && s[7..] == "2-6";
    NoTokenPgWithoutDigitHead(s[2..]);
    NotTokenPgTwoSix(s[7..]);
  }

  /** The older pattern has no hyphen, so '3 Maja 2-6' has no token. */
  lemma OlderKeepsRange(s: string)
    requires s == "3 Maja 2-6"
    ensures NumberFirstPg(s) == s
  {
    NoOlderTokenTwoSix(s);
  }
}
