/**
 * The street-name normaliser of xl_geocoder.py (`parse_street_name`): a
 * substring filter, case-insensitive abbreviation expansion, abbreviation
 * removal and building-number-first reordering, applied in that order.
 */
module StreetName {
  import opened Text
  import opened Wrappers

  /** The result of `parse_street_name`: `False` (rejected) or a string. */
  datatype Parsed = Rejected | Accepted(name: string)

  /**
   * The keyword arguments. A falsy `name_filter` or `expand_abbrev` is the
   * empty sequence; `expand_abbrev` is a dict, kept in its iteration order.
   */
  datatype Options = Options(
    filter: seq<string>,
    expand: seq<(string, string)>,
    removeAbbrev: bool,
    numberFirst: bool)

  // ----- step 1: the substring filter -------------------------------------

  /** Some filter entry occurs, case-sensitively, in the name. */
  predicate FilterHit(name: string, filter: seq<string>)
  {
    exists i :: 0 <= i < |filter| && Occurs(filter[i], name)
  }

  // ----- step 2: abbreviation expansion -----------------------------------

  /** `key` occurs in `s` at index `k` when case is ignored. */
  predicate MatchesIgnoringCaseAt(s: string, key: string, k: int)
  {
    0 <= k <= |s| - |key| && EqualIgnoringCase(s[k..k + |key|], key)
  }

  /**
   * `re.sub(key, val, s, flags=re.IGNORECASE)` with `key` and `val` read as
   * literal text: every non-overlapping occurrence, scanning from the left.
   * An empty key matches at every position, as an empty pattern does.
   */
  function ReplaceIgnoringCase(s: string, key: string, val: string): (r: string)
    ensures key != [] && |val| <= |key| ==> |r| <= |s|
    ensures key != [] && |val| >= |key| ==> |r| >= |s|
    decreases |s|
  {
    if key == [] then
      (if s == [] then val else val + [s[0]] + ReplaceIgnoringCase(s[1..], key, val))
    else if |s| < |key| then s
    else if EqualIgnoringCase(s[..|key|], key) then val + ReplaceIgnoringCase(s[|key|..], key, val)
    else [s[0]] + ReplaceIgnoringCase(s[1..], key, val)
  }

  /** A non-empty key that does not occur, in any case, leaves the text alone. */
  lemma ReplaceIgnoringCaseAbsent(s: string, key: string, val: string)
    requires key != []
    requires forall k :: !MatchesIgnoringCaseAt(s, key, k)
    ensures ReplaceIgnoringCase(s, key, val) == s
  {
    ReplaceIgnoringCaseCopies(s, key, val, |s|);
    assert s[..|s|] == s && s[|s|..] == [];
  }

  /**
   * An occurring key is replaced by its value: the text before the leftmost
   * case-insensitive occurrence is copied, the occurrence becomes `val`, and
   * the scan resumes after it.
   */
  lemma ReplaceIgnoringCaseLeftmost(s: string, key: string, val: string, k: nat)
    requires key != []
    requires MatchesIgnoringCaseAt(s, key, k)
    requires forall j :: 0 <= j < k ==> !MatchesIgnoringCaseAt(s, key, j)
    ensures ReplaceIgnoringCase(s, key, val)
         == s[..k] + val + ReplaceIgnoringCase(s[k + |key|..], key, val)
  {
    ReplaceIgnoringCaseCopies(s, key, val, k);
    ReplaceIgnoringCaseHitAt(s, key, val, k);
    Associative(s[..k], val, ReplaceIgnoringCase(s[k + |key|..], key, val));
  }

  /** An occurrence is replaced by the value and the scan resumes after it. */
  lemma ReplaceIgnoringCaseHitAt(s: string, key: string, val: string, k: nat)
    requires key != [] && MatchesIgnoringCaseAt(s, key, k)
    ensures ReplaceIgnoringCase(s[k..], key, val) == val + ReplaceIgnoringCase(s[k + |key|..], key, val)
  {
    var x := s[k..];
    MatchesIgnoringCaseSuffix(s, key, k);
    assert x[0..|key|] == x[..|key|];
    assert x[|key|..] == s[k + |key|..];
  }

  /** Before the first occurrence the text is copied unchanged. */
  lemma {:induction false} ReplaceIgnoringCaseCopies(s: string, key: string, val: string, k: nat)
    requires key != [] && k <= |s|
    requires forall j :: 0 <= j < k ==> !MatchesIgnoringCaseAt(s, key, j)
    ensures ReplaceIgnoringCase(s, key, val) == s[..k] + ReplaceIgnoringCase(s[k..], key, val)
    decreases k
  {
    if k == 0 {
      assert s[0..] == s;
    } else {
      ReplaceIgnoringCaseCopies(s, key, val, k - 1);
      ReplaceIgnoringCaseMissAt(s, key, val, k - 1);
      Associative(s[..k - 1], [s[k - 1]], ReplaceIgnoringCase(s[k..], key, val));
      SnocSlice(s, k);
    }
  }

  lemma Associative(a: string, b: string, c: string)
    ensures a + (b + c) == a + b + c
  {
  }

  lemma SnocSlice(s: string, k: nat)
    requires 1 <= k <= |s|
    ensures s[..k - 1] + [s[k - 1]] == s[..k]
  {
  }

  /** A character at which the key does not start is copied. */
  lemma ReplaceIgnoringCaseMissAt(s: string, key: string, val: string, i: nat)
    requires key != [] && i < |s| && !MatchesIgnoringCaseAt(s, key, i)
    ensures ReplaceIgnoringCase(s[i..], key, val) == [s[i]] + ReplaceIgnoringCase(s[i + 1..], key, val)
  {
    var x := s[i..];
    MatchesIgnoringCaseSuffix(s, key, i);
    ReplaceIgnoringCaseMiss(x, key, val);
    assert x[1..] == s[i + 1..];
  }

  /** Where the key does not occur at the start, the first character is copied. */
  lemma ReplaceIgnoringCaseMiss(s: string, key: string, val: string)
    requires key != [] && s != [] && !MatchesIgnoringCaseAt(s, key, 0)
    ensures ReplaceIgnoringCase(s, key, val) == [s[0]] + ReplaceIgnoringCase(s[1..], key, val)
  {
    if |s| >= |key| {
      assert s[0..|key|] == s[..|key|];
    } else {
      assert [s[0]] + s[1..] == s;
    }
  }

  /** An occurrence in a suffix is an occurrence in the whole text. */
  lemma MatchesIgnoringCaseSuffix(s: string, key: string, k: nat)
    requires k <= |s|
    ensures MatchesIgnoringCaseAt(s[k..], key, 0) <==> MatchesIgnoringCaseAt(s, key, k)
  {
    if |key| <= |s| - k {
      assert s[k..][0..|key|] == s[k..k + |key|];
    }
  }

  /**
   * A prefix none of whose characters equals the key's first one, in any
   * case, is copied unchanged.
   */
  lemma ReplaceIgnoringCaseSkips(p: string, t: string, key: string, val: string)
    requires key != []
    requires forall c :: c in p ==> LowerChar(c) != LowerChar(key[0])
    ensures ReplaceIgnoringCase(p + t, key, val) == p + ReplaceIgnoringCase(t, key, val)
  {
    var s := p + t;
    forall j | 0 <= j < |p| ensures !MatchesIgnoringCaseAt(s, key, j) {
      assert s[j] == p[j] && p[j] in p;
      if j + |key| <= |s| {
        assert Lower(s[j..j + |key|])[0] == LowerChar(s[j]);
      }
    }
    ReplaceIgnoringCaseCopies(s, key, val, |p|);
    assert s[..|p|] == p && s[|p|..] == t;
  }

  /** The expansions applied one after another, in mapping order. */
  function ExpandAll(s: string, expand: seq<(string, string)>): string
  {
    if expand == [] then s
    else
      var last := expand[|expand| - 1];
      ReplaceIgnoringCase(ExpandAll(s, expand[..|expand| - 1]), last.0, last.1)
  }

  // ----- step 3: abbreviation removal -------------------------------------

  /** The length of the run of word characters at the start of `s`. */
  function WordRun(s: string): (n: nat)
    ensures n <= |s|
    ensures forall i :: 0 <= i < n ==> IsWordChar(s[i])
    ensures n < |s| ==> !IsWordChar(s[n])
  {
    if s != [] && IsWordChar(s[0]) then 1 + WordRun(s[1..]) else 0
  }

  /**
   * `re.sub(r'\w+\.', '', s)`: a match can only start where a run of word
   * characters starts, and it matches when that whole run is followed by a dot;
   * the run and the dot are deleted, everything else is kept.
   */
  function RemoveAbbrevs(s: string): (r: string)
    decreases |s|
  {
    if s == [] then []
    else if IsWordChar(s[0]) then
      var n := WordRun(s);
      if n < |s| && s[n] == '.' then RemoveAbbrevs(s[n + 1..])
      else s[..n] + RemoveAbbrevs(s[n..])
    else [s[0]] + RemoveAbbrevs(s[1..])
  }

  /** No word character is directly followed by a dot. */
  predicate NoWordDot(s: string)
  {
    forall i :: 0 <= i < |s| - 1 ==> !(IsWordChar(s[i]) && s[i + 1] == '.')
  }

  lemma RemoveAbbrevsKeepsNonWordHead(s: string)
    requires s != [] && !IsWordChar(s[0])
    ensures RemoveAbbrevs(s) == [s[0]] + RemoveAbbrevs(s[1..])
  {
  }

  /** Two texts without a word-dot pair keep none when joined, unless the joint makes one. */
  lemma NoWordDotJoin(a: string, b: string)
    requires NoWordDot(a) && NoWordDot(b)
    requires a != [] && b != [] ==> !(IsWordChar(a[|a| - 1]) && b[0] == '.')
    ensures NoWordDot(a + b)
  {
    var r := a + b;
    forall i | 0 <= i < |r| - 1 ensures !(IsWordChar(r[i]) && r[i + 1] == '.') {
      if i >= |a| {
        assert r[i] == b[i - |a|] && r[i + 1] == b[i - |a| + 1];
      } else if i + 1 < |a| {
        assert r[i] == a[i] && r[i + 1] == a[i + 1];
      }
    }
  }

  /** A run of word characters holds no dot. */
  lemma WordRunNoWordDot(s: string)
    ensures NoWordDot(s[..WordRun(s)])
  {
    var n := WordRun(s);
    assert !IsWordChar('.');
    forall j | 0 <= j < n ensures s[..n][j] != '.' {
      assert IsWordChar(s[j]);
    }
  }

  /** After removal no abbreviation (word characters then a dot) is left. */
  lemma {:induction false} RemoveAbbrevsLeavesNoWordDot(s: string)
    ensures NoWordDot(RemoveAbbrevs(s))
    decreases |s|
  {
    if s == [] {
    } else if IsWordChar(s[0]) {
      var n := WordRun(s);
      if n < |s| && s[n] == '.' {
        RemoveAbbrevsLeavesNoWordDot(s[n + 1..]);
      } else {
        RemoveAbbrevsKeepsWord(s);
        RemoveAbbrevsLeavesNoWordDot(s[n..]);
        if n < |s| {
          RemoveAbbrevsKeepsNonWordHead(s[n..]);
        }
        WordRunNoWordDot(s);
        NoWordDotJoin(s[..n], RemoveAbbrevs(s[n..]));
      }
    } else {
      RemoveAbbrevsKeepsOther(s);
      RemoveAbbrevsLeavesNoWordDot(s[1..]);
      NoWordDotJoin([s[0]], RemoveAbbrevs(s[1..]));
    }
  }

  /** Removal touches nothing in a text without dots. */
  lemma {:induction false} RemoveAbbrevsNoDot(s: string)
    requires '.' !in s
    ensures RemoveAbbrevs(s) == s
    decreases |s|
  {
    if s != [] {
      if IsWordChar(s[0]) {
        var n := WordRun(s);
        assert n > 0;
        if n < |s| {
          assert s[n] in s;
        }
        NoDotSuffix(s, n);
        RemoveAbbrevsKeepsWord(s);
        RemoveAbbrevsNoDot(s[n..]);
        SplitJoin(s, n);
      } else {
        NoDotSuffix(s, 1);
        RemoveAbbrevsKeepsOther(s);
        RemoveAbbrevsNoDot(s[1..]);
      }
    }
  }

  /** A word not followed by a dot is kept. */
  lemma RemoveAbbrevsKeepsWord(s: string)
    requires s != [] && IsWordChar(s[0])
    requires WordRun(s) == |s| || s[WordRun(s)] != '.'
    ensures RemoveAbbrevs(s) == s[..WordRun(s)] + RemoveAbbrevs(s[WordRun(s)..])
  {
  }

  /** A character outside a word is kept. */
  lemma RemoveAbbrevsKeepsOther(s: string)
    requires s != [] && !IsWordChar(s[0])
    ensures RemoveAbbrevs(s) == [s[0]] + RemoveAbbrevs(s[1..])
  {
  }

  lemma SplitJoin(s: string, k: nat)
    requires k <= |s|
    ensures s[..k] + s[k..] == s
  {
  }

  lemma NoDotSuffix(s: string, k: nat)
    requires '.' !in s && k <= |s|
    ensures '.' !in s[k..]
  {
    forall i | 0 <= i < |s[k..]| ensures s[k..][i] != '.' {
      assert s[k..][i] == s[k + i];
    }
  }

  lemma NoWordDotSlice(s: string, i: int, j: int)
    requires NoWordDot(s) && 0 <= i <= j <= |s|
    ensures NoWordDot(s[i..j])
  {
    var t := s[i..j];
    forall k | 0 <= k < |t| - 1 ensures !(IsWordChar(t[k]) && t[k + 1] == '.') {
      assert t[k] == s[i + k] && t[k + 1] == s[i + k + 1];
    }
  }

  // ----- step 4: building number first ------------------------------------

  predicate AllDigits(x: string)
  {
    forall i :: 0 <= i < |x| ==> IsDigit(x[i])
  }

  /** The length of the run of digits at the start of `x`. */
  function DigitRun(x: string): (n: nat)
    ensures n <= |x|
    ensures forall i :: 0 <= i < n ==> IsDigit(x[i])
    ensures n < |x| ==> !IsDigit(x[n])
  {
    if x != [] && IsDigit(x[0]) then 1 + DigitRun(x[1..]) else 0
  }

  /** A separator allowed between the two digit groups. */
  predicate IsSeparator(c: char, hyphen: bool)
  {
    c == '/' || c == '\\' || (hyphen && c == '-')
  }

  /**
   * The number part `\d*(sep)?\d+` where the separator may only follow a
   * digit: either one run of digits, or digits, one separator, digits.
   */
  predicate IsNumberCore(x: string, hyphen: bool)
  {
    |x| > 0 &&
    (AllDigits(x) ||
     (var k := DigitRun(x);
      0 < k < |x| - 1 && IsSeparator(x[k], hyphen) && AllDigits(x[k + 1..])))
  }

  lemma NumberCoreShape(x: string, hyphen: bool)
    requires IsNumberCore(x, hyphen)
    ensures IsDigit(x[0]) && IsDigit(x[|x| - 1])
    ensures forall i :: 0 <= i < |x| ==> x[i] != ' '
  {
    if !AllDigits(x) {
      var k := DigitRun(x);
      assert x[|x| - 1] == x[k + 1..][|x| - k - 2];
      forall i | k < i < |x| ensures IsDigit(x[i]) {
        assert x[i] == x[k + 1..][i - k - 1];
      }
    }
  }

  /** The spacer `(?: |/|\\)?` that may stand between the number and the letter. */
  predicate IsSpacer(c: char)
  {
    c == ' ' || c == '/' || c == '\\'
  }

  /**
   * Matches the building-number pattern of xl_geocoder.py against the whole of
   * `t` (the pattern is anchored at the end): a number part, an optional
   * spacer, an optional single ASCII letter. On a match, gives the text that
   * is moved to the front: groups 1 to 4, which is `t` without its spacer.
   */
  function TokenMove(t: string): (m: Option<string>)
    ensures m.Some? ==> |t| > 0 && |m.value| > 0 && IsDigit(m.value[0])
    ensures m.Some? ==>
      m.value == t ||
      (|t| >= 2 && IsSpacer(t[|t| - 1]) && m.value == t[..|t| - 1]) ||
      (|t| >= 3 && IsSpacer(t[|t| - 2]) && IsAsciiLetter(t[|t| - 1]) &&
       m.value == t[..|t| - 2] + [t[|t| - 1]])
  {
    var n := |t|;
    if IsNumberCore(t, true) then
      NumberCoreShape(t, true);
      Some(t)
    else if n >= 2 && IsSpacer(t[n - 1]) && IsNumberCore(t[..n - 1], true) then
      NumberCoreShape(t[..n - 1], true);
      Some(t[..n - 1])
    else if n >= 2 && IsAsciiLetter(t[n - 1]) && IsNumberCore(t[..n - 1], true) then
      NumberCoreShape(t[..n - 1], true);
      Some(t)
    else if n >= 3 && IsAsciiLetter(t[n - 1]) && IsSpacer(t[n - 2]) && IsNumberCore(t[..n - 2], true) then
      NumberCoreShape(t[..n - 2], true);
      Some(t[..n - 2] + [t[n - 1]])
    else None
  }

  /** A number part at the start of `t` holds no space. */
  lemma CorePrefixNoSpace(t: string, k: nat)
    requires k <= |t| && IsNumberCore(t[..k], true)
    ensures forall i :: 0 <= i < k ==> t[i] != ' '
  {
    NumberCoreShape(t[..k], true);
    forall i | 0 <= i < k ensures t[i] != ' ' {
      assert t[i] == t[..k][i];
    }
  }

  /** A space can stand in a matched token only as its spacer: last or next to last. */
  lemma TokenSpaces(t: string, j: int)
    requires TokenMove(t).Some? && 0 <= j < |t| && t[j] == ' '
    ensures j >= |t| - 2
    ensures j == |t| - 2 ==> IsAsciiLetter(t[|t| - 1])
  {
    var n := |t|;
    // the length of the number part the match took
    var k :=
      if IsNumberCore(t, true) then n
      else if n >= 2 && IsNumberCore(t[..n - 1], true) then n - 1
      else n - 2;
    assert t[..n] == t;
    CorePrefixNoSpace(t, k);
  }

  /** The token may start at `p`: right after a space, and it runs to the end. */
  predicate MatchesAt(s: string, p: int)
  {
    1 <= p <= |s| && s[p - 1] == ' ' && TokenMove(s[p..]).Some?
  }

  /** `re.search`: the leftmost start at or after `p` where the token matches. */
  function SearchFrom(s: string, p: nat): (r: Option<nat>)
    requires p >= 1
    ensures r.Some? ==> p <= r.value && MatchesAt(s, r.value)
    ensures forall q :: p <= q && (r.None? || q < r.value) ==> !MatchesAt(s, q)
    decreases |s| + 1 - p
  {
    if p > |s| then None
    else if s[p - 1] == ' ' && TokenMove(s[p..]).Some? then Some(p)
    else SearchFrom(s, p + 1)
  }

  function TokenStart(s: string): (r: Option<nat>)
  {
    SearchFrom(s, 1)
  }

  /** A match, if one exists, is unique. */
  lemma MatchUnique(s: string, p: int, q: int)
    requires MatchesAt(s, p) && MatchesAt(s, q)
    ensures p == q
  {
    if p < q {
      MatchAfterMatch(s, p, q);
    } else if q < p {
      MatchAfterMatch(s, q, p);
    }
  }

  lemma MatchAfterMatch(s: string, p: int, q: int)
    requires MatchesAt(s, p) && p < q
    ensures !MatchesAt(s, q)
  {
    if 1 <= q <= |s| && s[q - 1] == ' ' {
      var t := s[p..];
      assert t[q - 1 - p] == ' ';
      TokenSpaces(t, q - 1 - p);
      if q - 1 - p == |t| - 2 {
        var u := s[q..];
        assert |u| == 1 && u[0] == t[|t| - 1];
        assert !IsDigit(u[0]);
      }
    }
  }

  /**
   * Building number first: the matched token (without its spacer) goes to
   * the front, followed by ", " and the rest of the name with every
   * occurrence of the token deleted and then stripped.
   */
  function NumberFirst(s: string): string
  {
    match TokenStart(s)
    case None => s
    case Some(p) =>
      TokenMove(s[p..]).value + ", " + Strip(ReplaceAll(s, s[p..], ""))
  }

  // ----- the whole normaliser ---------------------------------------------

  /** The name after expansion and removal, as number-first receives it. */
  function Prepared(name: string, o: Options): string
  {
    var expanded := ExpandAll(name, o.expand);
    if o.removeAbbrev then Strip(RemoveAbbrevs(expanded)) else expanded
  }

  /** `parse_street_name` of xl_geocoder.py as a function of its arguments. */
  function Normalize(name: string, o: Options): Parsed
  {
    if FilterHit(name, o.filter) then Rejected
    else
      var prepared := Prepared(name, o);
      Accepted(Strip(if o.numberFirst then NumberFirst(prepared) else prepared))
  }

  /** `parse_street_name`, with its filter loop and its expansion loop. */
  method ParseStreetName(streetName: string, o: Options) returns (r: Parsed)
    ensures r == Normalize(streetName, o)
  {
    for i := 0 to |o.filter|
      invariant forall j :: 0 <= j < i ==> !Occurs(o.filter[j], streetName)
    {
      if Occurs(o.filter[i], streetName) {
        return Rejected;
      }
    }
    var name := streetName;
    for i := 0 to |o.expand|
      invariant name == ExpandAll(streetName, o.expand[..i])
    {
      assert o.expand[..i + 1][..i] == o.expand[..i];
      name := ReplaceIgnoringCase(name, o.expand[i].0, o.expand[i].1);
    }
    assert o.expand[..|o.expand|] == o.expand;
    if o.removeAbbrev {
      name := Strip(RemoveAbbrevs(name));
    }
    if o.numberFirst {
      name := NumberFirst(name);
    }
    return Accepted(Strip(name));
  }

  // ----- properties ---------------------------------------------------------

  /** A filter hit rejects the name whatever the other options; otherwise it is accepted. */
  lemma FilterDecides(name: string, o: Options)
    ensures Normalize(name, o).Rejected? <==> FilterHit(name, o.filter)
  {
  }

  /** An empty filter rejects nothing. */
  lemma EmptyFilterIgnored(name: string, o: Options)
    requires o.filter == []
    ensures Normalize(name, o).Accepted?
  {
  }

  /** The result is `False` or a stripped string, never anything else. */
  lemma NormalizeStripped(name: string, o: Options)
    ensures Normalize(name, o).Accepted? ==> IsStripped(Normalize(name, o).name)
  {
    if !FilterHit(name, o.filter) {
      var prepared := Prepared(name, o);
      StripEnds(if o.numberFirst then NumberFirst(prepared) else prepared);
    }
  }

  /** With every option off the result is the input stripped. */
  lemma NoOptionsStrips(name: string)
    ensures Normalize(name, Options([], [], false, false)) == Accepted(Strip(name))
  {
  }

  /** Stripping keeps a text free of word characters followed by a dot. */
  lemma StripKeepsNoWordDot(r: string)
    requires NoWordDot(r)
    ensures NoWordDot(Strip(r))
  {
    var t := Strip(r);
    var i := LeadingSpace(r);
    StripSpan(r);
    NoWordDotSlice(r, i, i + |t|);
  }

  /** Removal followed by stripping leaves no word character followed by a dot. */
  lemma StrippedRemovalNoWordDot(e: string)
    ensures NoWordDot(Strip(Strip(RemoveAbbrevs(e))))
  {
    var r := RemoveAbbrevs(e);
    RemoveAbbrevsLeavesNoWordDot(e);
    StripKeepsNoWordDot(r);
    StripKeepsNoWordDot(Strip(r));
  }

  /** Abbreviation removal alone leaves no word character followed by a dot. */
  lemma RemovalLeavesNoAbbreviation(name: string, filter: seq<string>, expand: seq<(string, string)>)
    requires !FilterHit(name, filter)
    ensures Normalize(name, Options(filter, expand, true, false)).Accepted?
    ensures NoWordDot(Normalize(name, Options(filter, expand, true, false)).name)
  {
    StrippedRemovalNoWordDot(ExpandAll(name, expand));
  }

  /** Without a matching token number-first changes nothing. */
  lemma NoTokenUnchanged(s: string)
    requires forall p :: !MatchesAt(s, p)
    ensures NumberFirst(s) == s
  {
  }

  /**
   * With a match at `p` the result starts with the moved token, which begins
   * with a digit, and is followed by ", " and the stripped remainder.
   */
  lemma TokenMovedToFront(s: string, p: int)
    requires MatchesAt(s, p)
    ensures var m := TokenMove(s[p..]).value;
      NumberFirst(s) == m + ", " + Strip(ReplaceAll(s, s[p..], "")) && IsDigit(NumberFirst(s)[0])
  {
    var r := TokenStart(s);
    if r.Some? {
      MatchUnique(s, p, r.value);
    }
  }

  /** When number-first finds a token, the normalised name starts with a digit. */
  lemma NormalizedStartsWithNumber(name: string, o: Options, p: int)
    requires !FilterHit(name, o.filter) && o.numberFirst
    requires MatchesAt(Prepared(name, o), p)
    ensures Normalize(name, o).Accepted?
    ensures HasDigitHead(Normalize(name, o).name)
  {
    var n := NumberFirst(Prepared(name, o));
    TokenMovedToFront(Prepared(name, o), p);
    assert !IsSpace(n[0]);
    assert LeadingSpace(n) == 0;
  }

  predicate HasDigitHead(s: string)
  {
    s != [] && IsDigit(s[0])
  }
}
