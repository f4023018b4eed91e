/** The "human" order of the spatial reference system names a
    GetCapabilities response lists, `natural_keys` and `atoi` of
    wfs/views.py: a name is cut at its runs of digits, as
    `re.split('(\d+)', text)` cuts it, the runs are read as numbers, and
    names compare as the lists of pieces so obtained. Digits are the ASCII
    ones. */
module NaturalKeys {
  import opened Strings

  predicate DigitFree(s: string) {
    forall i :: 0 <= i < |s| ==> !IsDigit(s[i])
  }

  lemma ConcatTwoMore(a: string, b: string, rest: seq<string>)
    ensures Concat([a, b] + rest) == a + b + Concat(rest)
  {
    var ps := [a, b] + rest;
    assert ps[1..] == [b] + rest;
    assert ps[1..][1..] == rest;
  }

  /** The length of the leading stretch without digits. */
  function NonDigitRun(s: string): (n: nat)
    ensures n <= |s|
    decreases |s|
  {
    if |s| == 0 || IsDigit(s[0]) then 0 else 1 + NonDigitRun(s[1..])
  }

  /** The stretch is digit-free and ends at a digit or at the end. */
  lemma {:induction false} NonDigitRunSpec(s: string)
    ensures DigitFree(s[..NonDigitRun(s)])
    ensures NonDigitRun(s) < |s| ==> IsDigit(s[NonDigitRun(s)])
    decreases |s|
  {
    if |s| > 0 && !IsDigit(s[0]) {
      NonDigitRunSpec(s[1..]);
      var n := NonDigitRun(s);
      assert forall i :: 1 <= i < n ==> s[..n][i] == s[1..][..n - 1][i - 1];
      if n < |s| {
        assert s[n] == s[1..][n - 1];
      }
    }
  }

  /** The length of the leading run of digits. */
  function DigitRun(s: string): (n: nat)
    ensures n <= |s|
    decreases |s|
  {
    if |s| == 0 || !IsDigit(s[0]) then 0 else 1 + DigitRun(s[1..])
  }

  /** The run is all digits and ends at a non-digit or at the end. */
  lemma {:induction false} DigitRunSpec(s: string)
    ensures forall i :: 0 <= i < DigitRun(s) ==> IsDigit(s[i])
    ensures DigitRun(s) < |s| ==> !IsDigit(s[DigitRun(s)])
    decreases |s|
  {
    if |s| > 0 && IsDigit(s[0]) {
      DigitRunSpec(s[1..]);
      var n := DigitRun(s);
      assert forall i :: 1 <= i < n ==> s[i] == s[1..][i - 1];
      if n < |s| {
        assert s[n] == s[1..][n - 1];
      }
    }
  }

  /** The shape of `re.split` with one group around `\d+`: digit-free
      text, then pairs of a run of digits and digit-free text, the text
      between two runs never empty. */
  predicate WellCut(r: seq<string>)
    decreases |r|
  {
    && |r| >= 1 && DigitFree(r[0])
    && (|r| == 1 || (|r| >= 3 && AllDigits(r[1]) && (|r| > 3 ==> |r[2]| > 0) && WellCut(r[2..])))
  }

  /** The same shape, position by position. */
  lemma {:induction false} WellCutAt(r: seq<string>, k: nat)
    requires WellCut(r) && k < |r|
    ensures |r| % 2 == 1
    ensures k % 2 == 0 ==> DigitFree(r[k])
    ensures k % 2 == 1 ==> AllDigits(r[k])
    ensures 0 < k < |r| - 1 && k % 2 == 0 ==> |r[k]| > 0
    decreases |r|
  {
    if k >= 2 {
      WellCutAt(r[2..], k - 2);
    } else if |r| > 1 {
      WellCutAt(r[2..], 0);
    }
  }

  /** `re.split('(\d+)', text)`: the text before the first run of
      digits, the run, and the same again for the rest. */
  function Pieces(s: string): (r: seq<string>)
    ensures WellCut(r) && Concat(r) == s
    ensures |s| > 0 && !IsDigit(s[0]) ==> |r[0]| > 0
    ensures |r| > 1 ==> |s| > 0
    decreases |s|
  {
    var i := NonDigitRun(s);
    NonDigitRunSpec(s);
    if i == |s| then
      assert s[..|s|] == s;
      SinglePiece(s);
      [s]
    else
      var d := DigitRun(s[i..]);
      RunCut(s, i, d);
      var rest := Pieces(s[i + d..]);
      var r := [s[..i], s[i..i + d]] + rest;
      PiecesStep(s, i, d, rest, r);
      r
  }

  /** The pieces position by position: an odd number of them, digit-free
      text at the even positions, non-empty between two runs, and runs of
      digits at the odd ones. */
  lemma PiecesShape(s: string)
    ensures |Pieces(s)| % 2 == 1
    ensures forall k :: 0 <= k < |Pieces(s)| && k % 2 == 0 ==> DigitFree(Pieces(s)[k])
    ensures forall k :: 0 <= k < |Pieces(s)| && k % 2 == 1 ==> AllDigits(Pieces(s)[k])
    ensures forall k :: 0 < k < |Pieces(s)| - 1 && k % 2 == 0 ==> |Pieces(s)[k]| > 0
  {
    var r := Pieces(s);
    WellCutAt(r, 0);
    forall k | 0 <= k < |r| ensures (k % 2 == 0 ==> DigitFree(r[k])) && (k % 2 == 1 ==> AllDigits(r[k]))
                                    && (0 < k < |r| - 1 && k % 2 == 0 ==> |r[k]| > 0) {
      WellCutAt(r, k);
    }
  }

  /** The cut of `s` from the cut of what follows its first digit run. */
  lemma PiecesStep(s: string, i: nat, d: nat, rest: seq<string>, r: seq<string>)
    requires i == NonDigitRun(s) && i < |s| && d == DigitRun(s[i..])
    requires i + d <= |s| && r == [s[..i], s[i..i + d]] + rest
    requires WellCut(rest) && Concat(rest) == s[i + d..]
    requires |s[i + d..]| > 0 && !IsDigit(s[i + d..][0]) ==> |rest[0]| > 0
    requires |rest| > 1 ==> |s[i + d..]| > 0
    ensures WellCut(r) && Concat(r) == s
    ensures |s| > 0 && !IsDigit(s[0]) ==> |r[0]| > 0
  {
    NonDigitRunSpec(s);
    RunCut(s, i, d);
    CutCons(s[..i], s[i..i + d], rest);
    ThreeSlices(s, i, i + d);
    if |s| > 0 && !IsDigit(s[0]) {
      assert i != 0;
    }
  }

  lemma ThreeSlices(s: string, i: nat, j: nat)
    requires i <= j <= |s|
    ensures s[..i] + s[i..j] + s[j..] == s
  {
  }

  lemma SinglePiece(s: string)
    requires DigitFree(s)
    ensures WellCut([s]) && Concat([s]) == s
  {
    assert [s][1..] == [];
  }

  /** The run found after the leading text: digits, non-empty, and
      followed by a non-digit if anything. */
  lemma RunCut(s: string, i: nat, d: nat)
    requires i < |s| && IsDigit(s[i])
    requires d == DigitRun(s[i..])
    ensures 0 < d && i + d <= |s| && AllDigits(s[i..i + d])
    ensures i + d < |s| ==> !IsDigit(s[i + d..][0])
  {
    DigitRunSpec(s[i..]);
    assert s[i..][0] == s[i];
    assert forall k :: 0 <= k < d ==> s[i..i + d][k] == s[i..][k];
    if i + d < |s| {
      assert s[i + d..][0] == s[i..][d];
    }
  }

  lemma CutCons(a: string, b: string, rest: seq<string>)
    requires DigitFree(a) && AllDigits(b) && WellCut(rest)
    requires |rest| > 1 ==> |rest[0]| > 0
    ensures WellCut([a, b] + rest)
    ensures Concat([a, b] + rest) == a + b + Concat(rest)
  {
    assert ([a, b] + rest)[2..] == rest;
    ConcatTwoMore(a, b, rest);
  }

  /** One item of a key: `atoi(c)`, a number for a run of digits and the
      text itself otherwise. */
  datatype KeyPart = Text(text: string) | Number(n: nat)

  function Atoi(piece: string): KeyPart {
    if AllDigits(piece) then Number(DigitsToNat(piece)) else Text(piece)
  }

  /** `natural_keys(text)`. */
  function Keys(s: string): (r: seq<KeyPart>)
    ensures |r| == |Pieces(s)| && |r| % 2 == 1
    ensures forall k :: 0 <= k < |r| && k % 2 == 0 ==> r[k] == Text(Pieces(s)[k])
    ensures forall k :: 0 <= k < |r| && k % 2 == 1 ==>
                          AllDigits(Pieces(s)[k]) && r[k] == Number(DigitsToNat(Pieces(s)[k]))
  {
    var ps := Pieces(s);
    PiecesShape(s);
    assert forall k :: 0 <= k < |ps| && k % 2 == 0 ==> !AllDigits(ps[k]) by {
      forall k | 0 <= k < |ps| && k % 2 == 0 && |ps[k]| > 0 ensures !IsDigit(ps[k][0]) {
        assert DigitFree(ps[k]);
      }
    }
    seq(|ps|, k requires 0 <= k < |ps| => Atoi(ps[k]))
  }

  /** Python compares the two key lists position by position and never
      meets a number against a text: the kinds alternate alike in every
      key, so the comparison cannot raise `TypeError`. */
  lemma KindsAlign(s: string, t: string)
    ensures forall k :: 0 <= k < |Keys(s)| && k < |Keys(t)| ==> (Keys(s)[k].Text? <==> Keys(t)[k].Text?)
  {
  }

  // ---------------------------------------------------------------------
  // Python's ordering of strings and lists
  // ---------------------------------------------------------------------

  /** Lexicographic order: the first differing position decides, and a
      proper prefix comes first. */
  function Lex<T(==)>(a: seq<T>, b: seq<T>, less: (T, T) -> bool): bool
    decreases |a|
  {
    if |a| == 0 then |b| > 0
    else if |b| == 0 then false
    else if a[0] != b[0] then less(a[0], b[0])
    else Lex(a[1..], b[1..], less)
  }

  ghost predicate StrictTotal<T(!new)>(less: (T, T) -> bool) {
    && (forall x :: !less(x, x))
    && (forall x, y, z :: less(x, y) && less(y, z) ==> less(x, z))
    && (forall x, y :: x != y ==> less(x, y) || less(y, x))
  }

  lemma {:induction false} LexIrreflexive<T>(a: seq<T>, less: (T, T) -> bool)
    ensures !Lex(a, a, less)
    decreases |a|
  {
    if |a| > 0 {
      LexIrreflexive(a[1..], less);
    }
  }

  lemma {:induction false} LexTransitive<T(!new)>(a: seq<T>, b: seq<T>, c: seq<T>, less: (T, T) -> bool)
    requires StrictTotal(less)
    requires Lex(a, b, less) && Lex(b, c, less)
    ensures Lex(a, c, less)
    decreases |a|
  {
    if |a| > 0 && a[0] == b[0] && b[0] == c[0] {
      LexTransitive(a[1..], b[1..], c[1..], less);
    }
  }

  lemma {:induction false} LexTotal<T(!new)>(a: seq<T>, b: seq<T>, less: (T, T) -> bool)
    requires StrictTotal(less)
    requires a != b
    ensures Lex(a, b, less) || Lex(b, a, less)
    decreases |a|
  {
    if |a| > 0 && |b| > 0 && a[0] == b[0] {
      assert a == [a[0]] + a[1..] && b == [b[0]] + b[1..];
      LexTotal(a[1..], b[1..], less);
    }
  }

  function CharLess(x: char, y: char): bool {
    x < y
  }

  /** `<` on two strings. */
  function TextLess(s: string, t: string): bool {
    Lex(s, t, CharLess)
  }

  /** `<` on two items of a key; a number against a text never happens
      (KindsAlign) and is ordered only to make the order total. */
  function PartLess(x: KeyPart, y: KeyPart): bool {
    match x
    case Text(s) => (match y case Text(t) => TextLess(s, t) case Number(_) => false)
    case Number(m) => (match y case Text(_) => true case Number(n) => m < n)
  }

  /** `<` on two keys. */
  function KeyLess(a: seq<KeyPart>, b: seq<KeyPart>): bool {
    Lex(a, b, PartLess)
  }

  lemma CharLessStrictTotal()
    ensures StrictTotal(CharLess)
  {
  }

  lemma PartLessStrictTotal()
    ensures StrictTotal(PartLess)
  {
    CharLessStrictTotal();
    forall x: KeyPart ensures !PartLess(x, x) {
      if x.Text? { LexIrreflexive(x.text, CharLess); }
    }
    forall x: KeyPart, y: KeyPart, z: KeyPart | PartLess(x, y) && PartLess(y, z) ensures PartLess(x, z) {
      if x.Text? && y.Text? && z.Text? { LexTransitive(x.text, y.text, z.text, CharLess); }
    }
    forall x: KeyPart, y: KeyPart | x != y ensures PartLess(x, y) || PartLess(y, x) {
      if x.Text? && y.Text? { LexTotal(x.text, y.text, CharLess); }
    }
  }

  /** The order of keys is a strict total order. */
  lemma KeyLessStrictTotal()
    ensures StrictTotal(KeyLess)
  {
    PartLessStrictTotal();
    forall a: seq<KeyPart> ensures !KeyLess(a, a) {
      LexIrreflexive(a, PartLess);
    }
    forall a: seq<KeyPart>, b: seq<KeyPart>, c: seq<KeyPart> | KeyLess(a, b) && KeyLess(b, c)
      ensures KeyLess(a, c)
    {
      LexTransitive(a, b, c, PartLess);
    }
    forall a: seq<KeyPart>, b: seq<KeyPart> | a != b ensures KeyLess(a, b) || KeyLess(b, a) {
      LexTotal(a, b, PartLess);
    }
  }

  // ---------------------------------------------------------------------
  // Human order
  // ---------------------------------------------------------------------

  /** A digit-free prefix followed by a number is cut there. */
  lemma PiecesOfNumbered(prefix: string, digits: string)
    requires DigitFree(prefix) && AllDigits(digits)
    ensures Pieces(prefix + digits) == [prefix, digits, ""]
  {
    var s := prefix + digits;
    assert s[..|prefix|] == prefix;
    NonDigitRunOf(s, |prefix|);
    assert s[|prefix|..] == digits;
    DigitRunWhole(digits);
    PiecesUnfold(s, |prefix|, |s|);
    assert s[|prefix|..|s|] == digits;
    assert s[|s|..] == [];
    PiecesOfEmpty();
  }

  lemma PiecesUnfold(s: string, i: nat, j: nat)
    requires i == NonDigitRun(s) && i < |s| && j == i + DigitRun(s[i..])
    ensures Pieces(s) == [s[..i], s[i..j]] + Pieces(s[j..])
  {
  }

  lemma PiecesOfEmpty()
    ensures Pieces([]) == [[]]
  {
  }

  lemma NonDigitRunOf(s: string, n: nat)
    requires n < |s| && DigitFree(s[..n]) && IsDigit(s[n])
    ensures NonDigitRun(s) == n
  {
    NonDigitRunSpec(s);
    var m := NonDigitRun(s);
    forall k | 0 <= k < n ensures !IsDigit(s[k]) {
      assert s[..n][k] == s[k];
    }
    forall k | 0 <= k < m ensures !IsDigit(s[k]) {
      assert s[..m][k] == s[k];
    }
  }

  lemma DigitRunWhole(s: string)
    requires AllDigits(s)
    ensures DigitRun(s) == |s|
    decreases |s|
  {
    assert IsDigit(s[0]);
    if |s| > 1 {
      assert forall i :: 0 <= i < |s| - 1 ==> s[1..][i] == s[i + 1];
      DigitRunWhole(s[1..]);
    }
  }

  /** Names that differ only in the number after a common digit-free
      prefix are ordered by the number, not by its text: `EPSG:4326` comes
      before `EPSG:31467`. */
  lemma {:induction false} NumbersInOrder(prefix: string, m: nat, n: nat)
    requires DigitFree(prefix)
    ensures KeyLess(Keys(prefix + NatToString(m)), Keys(prefix + NatToString(n))) <==> m < n
  {
    KeysOfNumbered(prefix, m);
    KeysOfNumbered(prefix, n);
    ThreeKeys(prefix, m, n);
  }

  lemma KeysOfNumbered(prefix: string, m: nat)
    requires DigitFree(prefix)
    ensures Keys(prefix + NatToString(m)) == [Text(prefix), Number(m), Text("")]
  {
    var s := prefix + NatToString(m);
    PiecesOfNumbered(prefix, NatToString(m));
    KeysOfThree(s, prefix, NatToString(m), "");
    NatToStringValue(m);
  }

  lemma KeysOfThree(s: string, a: string, b: string, c: string)
    requires Pieces(s) == [a, b, c] && AllDigits(b)
    ensures Keys(s) == [Text(a), Number(DigitsToNat(b)), Text(c)]
  {
    var r := Keys(s);
    assert |r| == 3;
    assert r[0] == Text(a);
    assert r[1] == Number(DigitsToNat(b));
    assert r[2] == Text(c);
  }

  lemma ThreeKeys(prefix: string, m: nat, n: nat)
    ensures KeyLess([Text(prefix), Number(m), Text("")], [Text(prefix), Number(n), Text("")]) <==> m < n
  {
    var a := [Text(prefix), Number(m), Text("")];
    var b := [Text(prefix), Number(n), Text("")];
    assert a[1..] == [Number(m), Text("")] && b[1..] == [Number(n), Text("")];
    assert KeyLess(a, b) == Lex(a[1..], b[1..], PartLess);
    if m == n {
      assert a[1..][1..] == [Text("")] && b[1..][1..] == [Text("")];
      assert Lex(a[1..], b[1..], PartLess) == Lex([Text("")], [Text("")], PartLess);
      LexIrreflexive([Text("")], PartLess);
    } else {
      assert Lex(a[1..], b[1..], PartLess) == PartLess(Number(m), Number(n));
    }
  }

  // ---------------------------------------------------------------------
  // `allsrsnames.sort(key=natural_keys)`
  // ---------------------------------------------------------------------

  /** `x` may stand before `y`. */
  predicate NotAfter(x: string, y: string) {
    !KeyLess(Keys(y), Keys(x))
  }

  lemma NotAfterTotal(x: string, y: string)
    ensures NotAfter(x, y) || NotAfter(y, x)
  {
    if KeyLess(Keys(x), Keys(y)) && KeyLess(Keys(y), Keys(x)) {
      PartLessStrictTotal();
      LexTransitive(Keys(x), Keys(y), Keys(x), PartLess);
      LexIrreflexive(Keys(x), PartLess);
    }
  }

  lemma NotAfterTransitive(x: string, y: string, z: string)
    requires NotAfter(x, y) && NotAfter(y, z)
    ensures NotAfter(x, z)
  {
    var kx, ky, kz := Keys(x), Keys(y), Keys(z);
    if KeyLess(kz, kx) {
      PartLessStrictTotal();
      if kx != ky {
        LexTotal(kx, ky, PartLess);
        LexTransitive(kz, kx, ky, PartLess);
      }
    }
  }

  /** Sorting by a key is sorting by a total preorder. */
  lemma NotAfterPreorder()
    ensures TotalPreorder(NotAfter)
  {
    forall x, y ensures NotAfter(x, y) || NotAfter(y, x) {
      NotAfterTotal(x, y);
    }
    forall x, y, z | NotAfter(x, y) && NotAfter(y, z) ensures NotAfter(x, z) {
      NotAfterTransitive(x, y, z);
    }
  }

  ghost predicate TotalPreorder<T(!new)>(le: (T, T) -> bool) {
    && (forall x, y :: le(x, y) || le(y, x))
    && (forall x, y, z :: le(x, y) && le(y, z) ==> le(x, z))
  }

  predicate SortedBy<T>(xs: seq<T>, le: (T, T) -> bool) {
    forall i, j :: 0 <= i < j < |xs| ==> le(xs[i], xs[j])
  }

  /** Insertion after every element not later than `x`. */
  function Insert<T>(x: T, ys: seq<T>, le: (T, T) -> bool): (r: seq<T>)
    ensures multiset(r) == multiset(ys) + multiset{x}
    decreases |ys|
  {
    if |ys| == 0 then [x]
    else if le(x, ys[0]) then
      assert ys == [ys[0]] + ys[1..];
      [x] + ys
    else
      assert ys == [ys[0]] + ys[1..];
      [ys[0]] + Insert(x, ys[1..], le)
  }

  lemma SortedCons<T>(y: T, rest: seq<T>, le: (T, T) -> bool)
    requires SortedBy(rest, le)
    requires forall j :: 0 <= j < |rest| ==> le(y, rest[j])
    ensures SortedBy([y] + rest, le)
  {
    var r := [y] + rest;
    forall i, j | 0 <= i < j < |r| ensures le(r[i], r[j]) {
      assert r[j] == rest[j - 1];
      if i > 0 { assert r[i] == rest[i - 1]; }
    }
  }

  /** What stands before `x` and every element of `ys` stands before every
      element of the insertion. */
  lemma {:induction false} InsertBelow<T>(y: T, x: T, ys: seq<T>, le: (T, T) -> bool)
    requires le(y, x)
    requires forall k :: 0 <= k < |ys| ==> le(y, ys[k])
    ensures forall j :: 0 <= j < |Insert(x, ys, le)| ==> le(y, Insert(x, ys, le)[j])
    decreases |ys|
  {
    if |ys| > 0 && !le(x, ys[0]) {
      InsertBelow(y, x, ys[1..], le);
      var r := Insert(x, ys, le);
      forall j | 0 < j < |r| ensures le(y, r[j]) {
        assert r[j] == Insert(x, ys[1..], le)[j - 1];
      }
    }
  }

  lemma {:induction false} InsertSorted<T(!new)>(x: T, ys: seq<T>, le: (T, T) -> bool)
    requires TotalPreorder(le)
    requires SortedBy(ys, le)
    ensures SortedBy(Insert(x, ys, le), le)
    decreases |ys|
  {
    if |ys| > 0 {
      if le(x, ys[0]) {
        SortedCons(x, ys, le);
      } else {
        InsertSorted(x, ys[1..], le);
        assert forall k :: 0 <= k < |ys[1..]| ==> le(ys[0], ys[1..][k]);
        InsertBelow(ys[0], x, ys[1..], le);
        SortedCons(ys[0], Insert(x, ys[1..], le), le);
      }
    }
  }

  lemma MultisetCons<T>(xs: seq<T>)
    requires |xs| > 0
    ensures multiset(xs) == multiset(xs[1..]) + multiset{xs[0]}
  {
    assert xs == [xs[0]] + xs[1..];
  }

  /** Insertion sort: the same elements, in order. */
  function SortBy<T(!new)>(xs: seq<T>, le: (T, T) -> bool): (r: seq<T>)
    requires TotalPreorder(le)
    ensures SortedBy(r, le)
    ensures multiset(r) == multiset(xs)
    decreases |xs|
  {
    if |xs| == 0 then []
    else
      var rest := SortBy(xs[1..], le);
      InsertSorted(xs[0], rest, le);
      MultisetCons(xs);
      Insert(xs[0], rest, le)
  }

  /** `allsrsnames.sort(key=natural_keys)`: the same names, each not
      later than the next by natural key. */
  function SortNames(names: seq<string>): (r: seq<string>)
    ensures multiset(r) == multiset(names)
    ensures forall i, j :: 0 <= i < j < |r| ==> !KeyLess(Keys(r[j]), Keys(r[i]))
  {
    NotAfterPreorder();
    SortBy(names, NotAfter)
  }
}
