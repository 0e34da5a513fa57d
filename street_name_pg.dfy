/**
 * The older street-name normaliser of geocoder_pg.py: a substring filter,
 * abbreviation removal and a narrower building-number-first reordering that
 * moves the matched token verbatim. It has no abbreviation expansion.
 */
module StreetNamePg {
  import opened Text
  import opened Wrappers
  import opened StreetName

  /**
   * The older pattern `\d*((?<=\d)(/|\\))?\d+[a-zA-Z]?$` against the whole of
   * `t`: a number part without hyphen, then at most one letter attached to it.
   */
  predicate IsTokenPg(t: string)
  {
    IsNumberCore(t, false) ||
    (|t| >= 2 && IsAsciiLetter(t[|t| - 1]) && IsNumberCore(t[..|t| - 1], false))
  }

  lemma TokenPgHasNoSpace(t: string)
    requires IsTokenPg(t)
    ensures |t| > 0 && IsDigit(t[0])
    ensures forall i :: 0 <= i < |t| ==> t[i] != ' '
  {
    if IsNumberCore(t, false) {
      NumberCoreShape(t, false);
    } else {
      NumberCoreShape(t[..|t| - 1], false);
      forall i | 0 <= i < |t| - 1 ensures t[i] != ' ' {
        assert t[i] == t[..|t| - 1][i];
      }
    }
  }

  predicate MatchesAtPg(s: string, p: int)
  {
    1 <= p <= |s| && s[p - 1] == ' ' && IsTokenPg(s[p..])
  }

  /** `re.search` with the older pattern: the leftmost start at or after `p`. */
  function SearchFromPg(s: string, p: nat): (r: Option<nat>)
    requires p >= 1
    ensures r.Some? ==> p <= r.value && MatchesAtPg(s, r.value)
    ensures forall q :: p <= q && (r.None? || q < r.value) ==> !MatchesAtPg(s, q)
    decreases |s| + 1 - p
  {
    if p > |s| then None
    else if s[p - 1] == ' ' && IsTokenPg(s[p..]) then Some(p)
    else SearchFromPg(s, p + 1)
  }

  /** The older token contains no space, so at most one start matches. */
  lemma MatchUniquePg(s: string, p: int, q: int)
    requires MatchesAtPg(s, p) && MatchesAtPg(s, q)
    ensures p == q
  {
    if p < q {
      TokenPgHasNoSpace(s[p..]);
    } else if q < p {
      TokenPgHasNoSpace(s[q..]);
    }
  }

  /**
   * Building number first, older form: the matched token goes verbatim to the
   * front, then ", " and the name with every occurrence of the token deleted.
   */
  function NumberFirstPg(s: string): string
  {
    match SearchFromPg(s, 1)
    case None => s
    case Some(p) => s[p..] + ", " + ReplaceAll(s, s[p..], "")
  }

  /** `parse_street_name` of geocoder_pg.py as a function of its arguments. */
  function NormalizePg(name: string, filter: seq<string>, removeAbbreviation: bool, numberFirst: bool): Parsed
  {
    if FilterHit(name, filter) then Rejected
    else
      var removed := if removeAbbreviation then Strip(RemoveAbbrevs(name)) else name;
      var reordered := if numberFirst then NumberFirstPg(removed) else removed;
      Accepted(Strip(reordered))
  }

  /** `parse_street_name` of geocoder_pg.py, with its filter loop. */
  method ParseStreetNamePg(streetName: string, filter: seq<string>, removeAbbreviation: bool, numberFirst: bool)
    returns (r: Parsed)
    ensures r == NormalizePg(streetName, filter, removeAbbreviation, numberFirst)
  {
    for i := 0 to |filter|
      invariant forall j :: 0 <= j < i ==> !Occurs(filter[j], streetName)
    {
      if Occurs(filter[i], streetName) {
        return Rejected;
      }
    }
    var name := streetName;
    if removeAbbreviation {
      name := Strip(RemoveAbbrevs(name));
    }
    if numberFirst {
      name := NumberFirstPg(name);
    }
    return Accepted(Strip(name));
  }

  // ----- properties ---------------------------------------------------------

  /** A filter hit rejects the name whatever the other options. */
  lemma FilterDecidesPg(name: string, filter: seq<string>, removeAbbreviation: bool, numberFirst: bool)
    ensures NormalizePg(name, filter, removeAbbreviation, numberFirst).Rejected? <==> FilterHit(name, filter)
  {
  }

  /** Removal leaves no word character followed by a dot. */
  lemma RemovalLeavesNoAbbreviationPg(name: string, filter: seq<string>)
    requires !FilterHit(name, filter)
    ensures NormalizePg(name, filter, true, false).Accepted?
    ensures NoWordDot(NormalizePg(name, filter, true, false).name)
  {
    StrippedRemovalNoWordDot(name);
  }

  /**
   * With a match at `p` the exact matched span, which starts with a digit,
   * is moved to the front; the whole result is then stripped.
   */
  lemma TokenMovedVerbatim(s: string, p: int)
    requires MatchesAtPg(s, p)
    ensures NumberFirstPg(s) == s[p..] + ", " + ReplaceAll(s, s[p..], "")
    ensures IsDigit(NumberFirstPg(s)[0])
  {
    var r := SearchFromPg(s, 1);
    if r.Some? {
      MatchUniquePg(s, p, r.value);
    }
    TokenPgHasNoSpace(s[p..]);
  }

  /** Without a match the older reordering changes nothing. */
  lemma NoTokenUnchangedPg(s: string)
    requires forall p :: !MatchesAtPg(s, p)
    ensures NumberFirstPg(s) == s
  {
  }

  /**
   * Every token the older pattern accepts, the newer one accepts too and
   * moves unchanged: the newer pattern only adds the hyphen and the spacer.
   */
  lemma {:induction false} NewerPatternExtendsOlder(t: string)
    requires IsTokenPg(t)
    ensures TokenMove(t) == Some(t)
  {
    if IsNumberCore(t, false) {
      assert IsNumberCore(t, true);
    } else {
      var n := |t|;
      assert IsNumberCore(t[..n - 1], true);
      NumberCoreShape(t[..n - 1], true);
      assert !IsNumberCore(t, true);
      assert !IsSpacer(t[n - 1]);
    }
  }
}
