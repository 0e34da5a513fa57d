/**
 * Character classes and the few Python `str` operations the geocoder relies on:
 * `strip()`, `replace()`, `find()`, `lower()`, `in`, and `str(int)`.
 */
module Text {

  /** Python's `str.isspace()` characters, which `str.strip()` removes. */
  predicate IsSpace(c: char)
  {
    c == ' ' || c == '\t' || c == '\n' || c == '\r' || c == '\U{0B}' || c == '\U{0C}'
    || ('\U{1C}' <= c <= '\U{1F}') || c == '\U{85}' || c == '\U{A0}' || c == '\U{1680}'
    || ('\U{2000}' <= c <= '\U{200A}') || c == '\U{2028}' || c == '\U{2029}'
    || c == '\U{202F}' || c == '\U{205F}' || c == '\U{3000}'
  }

  /** The regular-expression class `\d`, restricted to ASCII digits. */
  predicate IsDigit(c: char)
  {
    '0' <= c <= '9'
  }

  /** The regular-expression class `[a-zA-Z]`. */
  predicate IsAsciiLetter(c: char)
  {
    ('a' <= c <= 'z') || ('A' <= c <= 'Z')
  }

  /** The Polish letters outside ASCII, in both cases. */
  predicate IsPolishLetter(c: char)
  {
    c in "ąćęłńóśźżĄĆĘŁŃÓŚŹŻ"
  }

  /** The regular-expression class `\w`: letters, digits and underscore. */
  predicate IsWordChar(c: char)
  {
    IsDigit(c) || IsAsciiLetter(c) || c == '_' || IsPolishLetter(c)
  }

  /** `str.lower()` on one character: ASCII and Polish capitals. */
  function LowerChar(c: char): (r: char)
    ensures !IsAsciiLetter(c) && !IsPolishLetter(c) ==> r == c
  {
    if 'A' <= c <= 'Z' then (c as int + 32) as char
    else match c
      case 'Ą' => 'ą'
      case 'Ć' => 'ć'
      case 'Ę' => 'ę'
      case 'Ł' => 'ł'
      case 'Ń' => 'ń'
      case 'Ó' => 'ó'
      case 'Ś' => 'ś'
      case 'Ź' => 'ź'
      case 'Ż' => 'ż'
      case _ => c
  }

  function Lower(s: string): (r: string)
    ensures |r| == |s|
    ensures forall i :: 0 <= i < |s| ==> r[i] == LowerChar(s[i])
  {
    if s == [] then [] else [LowerChar(s[0])] + Lower(s[1..])
  }

  /** Case-insensitive equality of two strings of the same length, as `re.IGNORECASE` compares. */
  predicate EqualIgnoringCase(a: string, b: string)
  {
    Lower(a) == Lower(b)
  }

  /** Python's `p in s` for strings: `p` is a prefix of `s` or occurs in its tail. */
  predicate Occurs(p: string, s: string)
    decreases |s|
  {
    p <= s || (s != [] && Occurs(p, s[1..]))
  }

  /** A text that starts at some index of `s` occurs in `s`. */
  lemma {:induction false} OccursAt(p: string, s: string, k: nat)
    requires k <= |s| - |p| && p <= s[k..]
    ensures Occurs(p, s)
    decreases k
  {
    if k > 0 {
      assert s[1..][k - 1..] == s[k..];
      OccursAt(p, s[1..], k - 1);
    } else {
      assert s[0..] == s;
    }
  }

  /** An occurrence lies at some index: the converse of `OccursAt`. */
  lemma {:induction false} OccursSomewhere(p: string, s: string)
    requires Occurs(p, s)
    ensures exists k :: 0 <= k <= |s| - |p| && p <= s[k..]
    decreases |s|
  {
    if p <= s {
      assert s[0..] == s;
    } else {
      OccursSomewhere(p, s[1..]);
      var k :| 0 <= k <= |s| - 1 - |p| && p <= s[1..][k..];
      assert s[1..][k..] == s[k + 1..];
    }
  }

  /** The number of white-space characters at the start of `s`. */
  function LeadingSpace(s: string): (n: nat)
    ensures n <= |s|
    ensures forall k :: 0 <= k < n ==> IsSpace(s[k])
    ensures n < |s| ==> !IsSpace(s[n])
  {
    if s != [] && IsSpace(s[0]) then 1 + LeadingSpace(s[1..]) else 0
  }

  /** The number of white-space characters at the end of `s`. */
  function TrailingSpace(s: string): (n: nat)
    ensures n <= |s|
    ensures forall k :: |s| - n <= k < |s| ==> IsSpace(s[k])
    ensures n < |s| ==> !IsSpace(s[|s| - n - 1])
  {
    if s != [] && IsSpace(s[|s| - 1]) then 1 + TrailingSpace(s[..|s| - 1]) else 0
  }

  /** Python's `str.strip()` with no argument: what lies between the leading and the trailing white space. */
  function Strip(s: string): string
  {
    var i := LeadingSpace(s);
    if i == |s| then [] else s[i..|s| - TrailingSpace(s)]
  }

  /** The ends of a stripped string are not white space. */
  predicate IsStripped(s: string)
  {
    s == [] || (!IsSpace(s[0]) && !IsSpace(s[|s| - 1]))
  }

  /** `strip()` leaves no white space at either end. */
  lemma StripEnds(s: string)
    ensures IsStripped(Strip(s))
  {
    var i := LeadingSpace(s);
    if i < |s| {
      var j := |s| - TrailingSpace(s);
      assert Strip(s) == s[i..j];
      assert Strip(s)[0] == s[i];
      assert Strip(s)[|Strip(s)| - 1] == s[j - 1];
    }
  }

  /** `strip()` gives the span of its argument that starts after the leading white space. */
  lemma StripSpan(s: string)
    ensures var i := LeadingSpace(s); i + |Strip(s)| <= |s| && Strip(s) == s[i..i + |Strip(s)|]
  {
  }

  /** A stripped string is its own strip. */
  lemma StrippedFixpoint(s: string)
    requires IsStripped(s)
    ensures Strip(s) == s
  {
    if s != [] {
      assert LeadingSpace(s) == 0;
      assert TrailingSpace(s) == 0;
      assert s[0..|s|] == s;
    }
  }

  /** `strip()` is idempotent. */
  lemma StripIdempotent(s: string)
    ensures Strip(Strip(s)) == Strip(s)
  {
    StripEnds(s);
    StrippedFixpoint(Strip(s));
  }

  /** Python's `s.replace(pat, rep)`: every non-overlapping occurrence, scanning from the left. */
  function ReplaceAll(s: string, pat: string, rep: string): (r: string)
    requires pat != []
    decreases |s|
  {
    if |s| < |pat| then s
    else if pat <= s then rep + ReplaceAll(s[|pat|..], pat, rep)
    else [s[0]] + ReplaceAll(s[1..], pat, rep)
  }

  /** Replacing a text that does not occur changes nothing. */
  lemma {:induction false} ReplaceAbsent(s: string, pat: string, rep: string)
    requires pat != [] && !Occurs(pat, s)
    ensures ReplaceAll(s, pat, rep) == s
    decreases |s|
  {
    if |s| >= |pat| {
      ReplaceAbsent(s[1..], pat, rep);
    }
  }

  /** Deleting a text never lengthens the string. */
  lemma {:induction false} ReplaceDeleteShorter(s: string, pat: string)
    requires pat != []
    ensures |ReplaceAll(s, pat, "")| <= |s|
    decreases |s|
  {
    if |s| >= |pat| {
      if pat <= s {
        ReplaceDeleteShorter(s[|pat|..], pat);
      } else {
        ReplaceDeleteShorter(s[1..], pat);
      }
    }
  }

  /** Python's `s.find(c)`: the first index of `c`, or -1. */
  function Find(s: string, c: char): (r: int)
    ensures -1 <= r < |s|
    ensures r >= 0 ==> s[r] == c
  {
    if s == [] then -1
    else if s[0] == c then 0
    else var k := Find(s[1..], c); if k == -1 then -1 else k + 1
  }

  /** `find` gives -1 exactly when `c` is absent, and otherwise its first occurrence. */
  lemma {:induction false} FindFirst(s: string, c: char)
    ensures Find(s, c) == -1 <==> c !in s
    ensures Find(s, c) >= 0 ==> c !in s[..Find(s, c)]
  {
    if s != [] && s[0] != c {
      FindFirst(s[1..], c);
      assert s == [s[0]] + s[1..];
      if Find(s, c) >= 0 {
        assert s[..Find(s, c)] == [s[0]] + s[1..][..Find(s[1..], c)];
      }
    }
  }

  function Count(s: string, c: char): (r: nat)
    ensures r <= |s|
    ensures r == 0 <==> c !in s
  {
    if s == [] then 0 else (if s[0] == c then 1 else 0) + Count(s[1..], c)
  }

  function DigitChar(d: nat): (c: char)
    requires d < 10
    ensures IsDigit(c)
  {
    ('0' as int + d) as char
  }

  function NatToString(n: nat): (r: string)
    ensures |r| >= 1
    ensures forall i :: 0 <= i < |r| ==> IsDigit(r[i])
  {
    if n < 10 then [DigitChar(n)] else NatToString(n / 10) + [DigitChar(n % 10)]
  }

  /** Python's `str(i)` for an int: optional minus sign, then decimal digits. */
  function IntToString(i: int): (r: string)
    ensures |r| >= 1
    ensures i >= 0 ==> forall k :: 0 <= k < |r| ==> IsDigit(r[k])
    ensures i < 0 ==> r[0] == '-' && forall k :: 1 <= k < |r| ==> IsDigit(r[k])
  {
    if i < 0 then "-" + NatToString(-i) else NatToString(i)
  }
}
