/** The slice of Python's string built-ins the service relies on:
    `str.lower`/`str.upper`, `str.strip`, `str.split` on one character,
    `str.startswith`, the `in` operator on strings, `str(int)` / `"%d"` and
    the `int(str)` conversion. Characters outside ASCII are left as they are
    by the case mappings. */
module Strings {
  import opened Wrappers

  // ---------------------------------------------------------------------
  // Characters
  // ---------------------------------------------------------------------

  /** `str.isspace()` (and regex `\s`) on the Latin-1 range: TAB..CR,
      the four information separators, SPACE, NEL and NBSP. */
  predicate IsSpace(c: char) {
    (9 <= c as int <= 13) || (28 <= c as int <= 32) || c as int == 0x85 || c as int == 0xA0
  }

  predicate IsDigit(c: char) {
    '0' <= c <= '9'
  }

  predicate IsUpper(c: char) {
    'A' <= c <= 'Z'
  }

  predicate IsLowerLetter(c: char) {
    'a' <= c <= 'z'
  }

  function LowerChar(c: char): (d: char)
    ensures !IsUpper(d)
    ensures IsUpper(c) ==> IsLowerLetter(d) && d as int == c as int + 32
    ensures !IsUpper(c) ==> d == c
  {
    if IsUpper(c) then (c as int + 32) as char else c
  }

  function UpperChar(c: char): (d: char)
    ensures !IsLowerLetter(d)
    ensures IsLowerLetter(c) ==> IsUpper(d) && d as int + 32 == c as int
    ensures !IsLowerLetter(c) ==> d == c
  {
    if IsLowerLetter(c) then (c as int - 32) as char else c
  }

  // ---------------------------------------------------------------------
  // Case mapping
  // ---------------------------------------------------------------------

  /** `str.lower()` */
  function Lower(s: string): (r: string)
    ensures |r| == |s|
    ensures forall i :: 0 <= i < |s| ==> r[i] == LowerChar(s[i])
  {
    seq(|s|, i requires 0 <= i < |s| => LowerChar(s[i]))
  }

  /** `str.upper()` */
  function Upper(s: string): (r: string)
    ensures |r| == |s|
    ensures forall i :: 0 <= i < |s| ==> r[i] == UpperChar(s[i])
  {
    seq(|s|, i requires 0 <= i < |s| => UpperChar(s[i]))
  }

  predicate NoUpper(s: string) {
    forall i :: 0 <= i < |s| ==> !IsUpper(s[i])
  }

  lemma LowerOfNoUpper(s: string)
    requires NoUpper(s)
    ensures Lower(s) == s
  {
  }

  lemma LowerIdempotent(s: string)
    ensures Lower(Lower(s)) == Lower(s)
  {
  }

  /** Lower-casing forgets a preceding upper-casing. */
  lemma LowerOfUpper(s: string)
    ensures Lower(Upper(s)) == Lower(s)
  {
    assert forall i :: 0 <= i < |s| ==> Lower(Upper(s))[i] == Lower(s)[i];
  }

  lemma LowerConcat(a: string, b: string)
    ensures Lower(a + b) == Lower(a) + Lower(b)
  {
  }

  /** Upper-casing a string that has no upper-case letters and then
      lower-casing it gives the string back. */
  lemma LowerUpperOfNoUpper(s: string)
    requires NoUpper(s)
    ensures Lower(Upper(s)) == s
  {
    forall i | 0 <= i < |s|
      ensures Lower(Upper(s))[i] == s[i]
    {
    }
  }

  // ---------------------------------------------------------------------
  // Digits and integers
  // ---------------------------------------------------------------------

  /** Non-empty and made of ASCII digits only (`str.isdigit()` on ASCII). */
  predicate AllDigits(s: string) {
    |s| > 0 && forall i :: 0 <= i < |s| ==> IsDigit(s[i])
  }

  function DigitValue(c: char): nat
    requires IsDigit(c)
  {
    c as int - '0' as int
  }

  function DigitChar(d: nat): (c: char)
    requires d < 10
    ensures IsDigit(c) && DigitValue(c) == d
  {
    ('0' as int + d) as char
  }

  /** The value of a run of decimal digits (leading zeros allowed). */
  function DigitsToNat(s: string): nat
    requires forall i :: 0 <= i < |s| ==> IsDigit(s[i])
  {
    if |s| == 0 then 0 else DigitsToNat(s[..|s| - 1]) * 10 + DigitValue(s[|s| - 1])
  }

  /** `str(n)` for a non-negative integer: decimal without leading zeros. */
  function NatToString(n: nat): (r: string)
    ensures AllDigits(r)
    ensures |r| > 1 ==> r[0] != '0'
  {
    if n < 10 then [DigitChar(n)] else NatToString(n / 10) + [DigitChar(n % 10)]
  }

  lemma {:induction false} NatToStringValue(n: nat)
    ensures DigitsToNat(NatToString(n)) == n
  {
    if n >= 10 {
      var s := NatToString(n);
      assert s[..|s| - 1] == NatToString(n / 10);
      NatToStringValue(n / 10);
    }
  }

  /** `str(n)` and `"%d" % n` for any integer. */
  function IntToString(n: int): (r: string)
    ensures |r| > 0
    ensures n >= 0 ==> r == NatToString(n)
    ensures n < 0 ==> r == "-" + NatToString(-n)
    ensures n < 0 ==> r[0] == '-' && r[1..] == NatToString(-n)
  {
    if n < 0 then "-" + NatToString(-n) else NatToString(n)
  }

  /** `str()` never writes an upper-case letter. */
  lemma IntToStringNoUpper(n: int)
    ensures NoUpper(IntToString(n))
  {
    var s := IntToString(n);
    forall i | 0 <= i < |s| ensures !IsUpper(s[i]) {
      if n >= 0 {
        assert IsDigit(s[i]);
      } else if i > 0 {
        assert s[i] == NatToString(-n)[i - 1];
      }
    }
  }

  /** `int(s)` on a string: surrounding whitespace, an optional sign and at
      least one ASCII digit; anything else raises ValueError (None here). */
  function ParseInt(s: string): Option<int> {
    var t := Strip(s);
    if |t| > 0 && (t[0] == '-' || t[0] == '+') then
      if AllDigits(t[1..]) then
        Some(if t[0] == '-' then -(DigitsToNat(t[1..]) as int) else DigitsToNat(t[1..]))
      else None
    else if AllDigits(t) then Some(DigitsToNat(t))
    else None
  }

  /** `int()` accepts every string `str()` produces, and gives the number back. */
  lemma {:induction false} ParseIntOfIntToString(n: int)
    ensures ParseInt(IntToString(n)) == Some(n)
  {
    if n < 0 {
      ParseIntOfNegative(n);
    } else {
      NatToStringValue(n);
      ParseIntOfDigits(NatToString(n));
    }
  }

  /** The text of a negative number parses back to it. */
  lemma ParseIntOfNegative(n: int)
    requires n < 0
    ensures ParseInt(IntToString(n)) == Some(n)
  {
    NatToStringValue(-n);
    ParseIntOfMinus(IntToString(n), NatToString(-n), -n);
  }

  /** A minus sign followed by digits parses to the negated value. */
  lemma ParseIntOfMinus(s: string, d: string, v: nat)
    requires |s| > 0 && s[0] == '-' && s[1..] == d
    requires AllDigits(d) && DigitsToNat(d) == v
    ensures ParseInt(s) == Some(-(v as int))
  {
    assert s[|s| - 1] == s[1..][|s| - 2];
    StripUnpadded(s);
  }

  /** `int()` also accepts a leading plus sign. */
  lemma ParseIntOfPlus(s: string, d: string)
    requires |s| > 0 && s[0] == '+' && s[1..] == d && AllDigits(d)
    ensures ParseInt(s) == Some(DigitsToNat(d) as int)
    ensures NoUpper(s)
  {
    assert s[|s| - 1] == s[1..][|s| - 2];
    StripUnpadded(s);
    forall i | 0 < i < |s| ensures !IsUpper(s[i]) {
      assert s[i] == d[i - 1];
    }
  }

  /** A run of digits parses to its decimal value. */
  lemma ParseIntOfDigits(s: string)
    requires AllDigits(s)
    ensures ParseInt(s) == Some(DigitsToNat(s) as int)
  {
    StripUnpadded(s);
  }

  /** `int()` never accepts a string that contains a dot. */
  lemma {:induction false} ParseIntRejectsDot(s: string)
    requires '.' in s
    ensures ParseInt(s) == None
  {
    var t := Strip(s);
    var i :| 0 <= i < |s| && s[i] == '.';
    StripKeepsNonSpace(s, i);
    var j :| 0 <= j < |t| && t[j] == '.';
    if |t| > 0 && (t[0] == '-' || t[0] == '+') {
      assert j >= 1 && t[1..][j - 1] == '.';
    }
  }

  // ---------------------------------------------------------------------
  // Stripping whitespace
  // ---------------------------------------------------------------------

  function StripStart(s: string): (r: string)
    ensures |r| <= |s| && r == s[|s| - |r|..]
    ensures |r| > 0 ==> !IsSpace(r[0])
    ensures forall i :: 0 <= i < |s| - |r| ==> IsSpace(s[i])
  {
    if |s| > 0 && IsSpace(s[0]) then StripStart(s[1..]) else s
  }

  function StripEnd(s: string): (r: string)
    ensures |r| <= |s| && r == s[..|r|]
    ensures |r| > 0 ==> !IsSpace(r[|r| - 1])
    ensures forall i :: |r| <= i < |s| ==> IsSpace(s[i])
  {
    if |s| > 0 && IsSpace(s[|s| - 1]) then StripEnd(s[..|s| - 1]) else s
  }

  /** The number of whitespace characters `str.strip()` removes in front. */
  function LeadingSpace(s: string): (k: nat)
    ensures k <= |s|
  {
    |s| - |StripStart(s)|
  }

  /** A prefix `r` of a suffix `a` of `s`, all whitespace from `r`'s end to
      `a`'s, is an infix of `s` followed by whitespace only. */
  lemma StripInside(s: string, a: string, r: string)
    requires |a| <= |s| && a == s[|s| - |a|..]
    requires |r| <= |a| && r == a[..|r|]
    requires forall j :: |r| <= j < |a| ==> IsSpace(a[j])
    ensures r == s[|s| - |a|..|s| - |a| + |r|]
    ensures forall i :: |s| - |a| + |r| <= i < |s| ==> IsSpace(s[i])
  {
    var k := |s| - |a|;
    forall i | k + |r| <= i < |s| ensures IsSpace(s[i]) {
      assert s[i] == a[i - k];
    }
  }

  /** `str.strip()`: the infix left after removing whitespace at both ends;
      it neither starts nor ends with whitespace. */
  function Strip(s: string): (r: string)
    ensures LeadingSpace(s) + |r| <= |s|
    ensures r == s[LeadingSpace(s)..LeadingSpace(s) + |r|]
    ensures |r| > 0 ==> !IsSpace(r[0]) && !IsSpace(r[|r| - 1])
    ensures forall i :: 0 <= i < LeadingSpace(s) ==> IsSpace(s[i])
    ensures forall i :: LeadingSpace(s) + |r| <= i < |s| ==> IsSpace(s[i])
  {
    var a := StripStart(s);
    var r := StripEnd(a);
    StripInside(s, a, r);
    r
  }

  /** A string that neither starts nor ends with whitespace is its own strip. */
  lemma StripUnpadded(s: string)
    requires |s| > 0 ==> !IsSpace(s[0]) && !IsSpace(s[|s| - 1])
    ensures Strip(s) == s
  {
  }

  /** Stripping only removes whitespace, so every other character survives. */
  lemma StripKeepsNonSpace(s: string, i: int)
    requires 0 <= i < |s| && !IsSpace(s[i])
    ensures exists j :: 0 <= j < |Strip(s)| && Strip(s)[j] == s[i]
  {
    var r := Strip(s);
    var k := LeadingSpace(s);
    assert r[i - k] == s[i];
  }

  predicate AllSpace(s: string) {
    forall i :: 0 <= i < |s| ==> IsSpace(s[i])
  }

  lemma StripEmptyIffAllSpace(s: string)
    ensures Strip(s) == "" <==> AllSpace(s)
  {
    if !AllSpace(s) {
      var i :| 0 <= i < |s| && !IsSpace(s[i]);
      StripKeepsNonSpace(s, i);
    }
  }

  // ---------------------------------------------------------------------
  // Prefixes and infixes
  // ---------------------------------------------------------------------

  /** `s.startswith(p)` */
  predicate StartsWith(s: string, p: string) {
    |p| <= |s| && s[..|p|] == p
  }

  lemma StartsWithPrefix(s: string, p: string, q: string)
    requires StartsWith(s, p + q)
    ensures StartsWith(s, p)
  {
    assert s[..|p|] == s[..|p + q|][..|p|];
    assert (p + q)[..|p|] == p;
  }

  /** One differing position rules a prefix out. */
  lemma DiffersAt(s: string, p: string, i: nat)
    requires i < |p| && (i >= |s| || s[i] != p[i])
    ensures !StartsWith(s, p)
  {
    if |p| <= |s| {
      assert s[..|p|][i] == s[i];
    }
  }

  /** `sub in s` */
  predicate Contains(s: string, sub: string)
    decreases |s|
  {
    StartsWith(s, sub) || (|s| > 0 && Contains(s[1..], sub))
  }

  lemma {:induction false} ContainsPrefix(a: string, b: string, sub: string)
    requires Contains(a, sub)
    ensures Contains(a + b, sub)
    decreases |a|
  {
    if StartsWith(a, sub) {
      assert (a + b)[..|sub|] == a[..|sub|];
    } else {
      assert (a + b)[1..] == a[1..] + b;
      ContainsPrefix(a[1..], b, sub);
    }
  }

  lemma {:induction false} ContainsSuffix(a: string, b: string, sub: string)
    requires Contains(b, sub)
    ensures Contains(a + b, sub)
    decreases |a|
  {
    if |a| == 0 {
      assert a + b == b;
    } else {
      assert (a + b)[1..] == a[1..] + b;
      ContainsSuffix(a[1..], b, sub);
    }
  }

  lemma ContainsSelf(s: string)
    ensures Contains(s, s)
  {
  }

  /** Every string contains whatever is written in the middle of it. */
  lemma ContainsInfix(a: string, m: string, b: string)
    ensures Contains(a + m + b, m)
  {
    ContainsSelf(m);
    ContainsPrefix(m, b, m);
    ContainsSuffix(a, m + b, m);
    assert a + m + b == a + (m + b);
  }

  // ---------------------------------------------------------------------
  // Splitting on one character and joining
  // ---------------------------------------------------------------------

  function IndexOf(s: string, c: char): (i: nat)
    requires c in s
    ensures i < |s| && s[i] == c && c !in s[..i]
  {
    if s[0] == c then 0 else
      var j := IndexOf(s[1..], c);
      assert s[..j + 1] == [s[0]] + s[1..][..j];
      j + 1
  }

  /** `s.split(c)` for a one-character separator: always at least one part
      (see SplitPartsFree for the parts themselves). */
  function Split(s: string, c: char): (parts: seq<string>)
    ensures |parts| >= 1
    decreases |s|
  {
    if c in s then
      var i := IndexOf(s, c);
      [s[..i]] + Split(s[i + 1..], c)
    else [s]
  }

  /** One step of a split: the part before the first separator, then the
      split of what follows it. */
  lemma SplitStep(s: string, c: char)
    requires c in s
    ensures Split(s, c) == [s[..IndexOf(s, c)]] + Split(s[IndexOf(s, c) + 1..], c)
  {
  }

  /** A string without the separator is its own single part. */
  lemma SplitWhole(s: string, c: char)
    requires c !in s
    ensures Split(s, c) == [s]
  {
  }

  /** No part of a split contains the separator. */
  lemma {:induction false} SplitPartsFree(s: string, c: char)
    ensures forall i :: 0 <= i < |Split(s, c)| ==> c !in Split(s, c)[i]
    decreases |s|
  {
    if c in s {
      var i := IndexOf(s, c);
      SplitPartsFree(s[i + 1..], c);
    }
  }

  /** Splitting a separator-free string before a separator peels off one part. */
  lemma SplitCons(w: string, rest: string, c: char)
    requires c !in w
    ensures Split(w + [c] + rest, c) == [w] + Split(rest, c)
  {
    var s := w + [c] + rest;
    assert s[|w|] == c;
    var i := IndexOf(s, c);
    assert s[..|w|] == w;
    assert i == |w|;
    assert s[i + 1..] == rest;
  }

  /** `sep.join(parts)` */
  function Join(parts: seq<string>, sep: string): string {
    if |parts| == 0 then ""
    else if |parts| == 1 then parts[0]
    else parts[0] + sep + Join(parts[1..], sep)
  }

  /** Texts glued together without a separator. */
  function Concat(ps: seq<string>): string
    decreases |ps|
  {
    if |ps| == 0 then [] else ps[0] + Concat(ps[1..])
  }

  lemma {:induction false} ConcatSnoc(ps: seq<string>, p: string)
    ensures Concat(ps + [p]) == Concat(ps) + p
    decreases |ps|
  {
    if |ps| > 0 {
      assert (ps + [p])[1..] == ps[1..] + [p];
      ConcatSnoc(ps[1..], p);
    } else {
      assert ([p])[1..] == [];
    }
  }

  /** Joining one more part at the back. */
  lemma {:induction false} JoinSnoc(parts: seq<string>, p: string, sep: string)
    requires |parts| >= 1
    ensures Join(parts + [p], sep) == Join(parts, sep) + sep + p
    decreases |parts|
  {
    if |parts| == 1 {
      assert (parts + [p])[1..] == [p];
    } else {
      assert (parts + [p])[1..] == parts[1..] + [p];
      JoinSnoc(parts[1..], p, sep);
    }
  }

  /** Joining a part in front of at least one more. */
  lemma JoinCons(p: string, rest: seq<string>, sep: string)
    requires |rest| >= 1
    ensures Join([p] + rest, sep) == p + sep + Join(rest, sep)
  {
    assert ([p] + rest)[1..] == rest;
  }

  function CountChar(s: string, c: char): nat {
    if |s| == 0 then 0 else (if s[0] == c then 1 else 0) + CountChar(s[1..], c)
  }

  lemma {:induction false} CountCharConcat(a: string, b: string, c: char)
    ensures CountChar(a + b, c) == CountChar(a, c) + CountChar(b, c)
    decreases |a|
  {
    if |a| > 0 {
      assert (a + b)[1..] == a[1..] + b;
      CountCharConcat(a[1..], b, c);
    } else {
      assert a + b == b;
    }
  }

  lemma {:induction false} CountCharAbsent(s: string, c: char)
    requires c !in s
    ensures CountChar(s, c) == 0
    decreases |s|
  {
    if |s| > 0 {
      CountCharAbsent(s[1..], c);
    }
  }

  /** Splitting yields one part more than there are separators. */
  lemma {:induction false} SplitCount(s: string, c: char)
    ensures |Split(s, c)| == CountChar(s, c) + 1
    decreases |s|
  {
    if c in s {
      var i := IndexOf(s, c);
      assert s == s[..i] + ([c] + s[i + 1..]);
      CountCharConcat(s[..i], [c] + s[i + 1..], c);
      CountCharConcat([c], s[i + 1..], c);
      CountCharAbsent(s[..i], c);
      SplitCount(s[i + 1..], c);
    } else {
      CountCharAbsent(s, c);
    }
  }

  /** Joining the parts of a split with the separator restores the string. */
  lemma {:induction false} JoinSplit(s: string, c: char)
    ensures Join(Split(s, c), [c]) == s
    decreases |s|
  {
    if c in s {
      var i := IndexOf(s, c);
      var head, tail := s[..i], s[i + 1..];
      JoinSplit(tail, c);
      SplitStep(s, c);
      CutAt(s, i);
      JoinStep(s, head, tail, c, Split(tail, c));
    } else {
      SplitWhole(s, c);
    }
  }

  lemma CutAt(s: string, i: nat)
    requires i < |s|
    ensures s == s[..i] + [s[i]] + s[i + 1..]
  {
  }

  lemma JoinStep(s: string, head: string, tail: string, c: char, rest: seq<string>)
    requires s == head + [c] + tail && |rest| >= 1 && Join(rest, [c]) == tail
    ensures Join([head] + rest, [c]) == s
  {
    JoinCons(head, rest, [c]);
  }

  /** Splitting a join of separator-free parts gives the parts back. */
  lemma {:induction false} SplitJoin(parts: seq<string>, c: char)
    requires |parts| >= 1
    requires forall i :: 0 <= i < |parts| ==> c !in parts[i]
    ensures Split(Join(parts, [c]), c) == parts
    decreases |parts|
  {
    if |parts| > 1 {
      var s := Join(parts, [c]);
      var tail := Join(parts[1..], [c]);
      assert s == parts[0] + [c] + tail;
      assert c in s by { assert s[|parts[0]|] == c; }
      var i := IndexOf(s, c);
      assert s[..|parts[0]|] == parts[0];
      assert i == |parts[0]|;
      assert s[..i] == parts[0];
      assert s[i + 1..] == tail;
      SplitJoin(parts[1..], c);
    }
  }
}
