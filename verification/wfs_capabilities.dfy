/** The reference systems a WFS 1.1.0 GetCapabilities response offers,
    `getcapabilities` in wfs/views.py: the `srs` of every feature type of
    the service and the parts of its `othersrs`, gathered into a set and
    listed in natural order. The set's own iteration order is replaced by
    the order of first occurrence; sorting makes it matter only among
    names of equal natural key. */
module Capabilities {
  import opened Wrappers
  import opened Models
  import opened NaturalKeys

  /** `x` is the `srs` of one of the types, or one of its other names. */
  predicate Offered(fts: seq<FeatureType>, x: string) {
    exists i :: 0 <= i < |fts| && fts[i].othersrs.Some?
                && (x == fts[i].srs || x in SplitCommaSeparated(fts[i].othersrs.value))
  }

  predicate SomeNull(fts: seq<FeatureType>) {
    exists i :: 0 <= i < |fts| && fts[i].othersrs.None?
  }

  /** Every name the loop adds to the set, in the order it adds them; the
      first type whose `othersrs` is NULL makes `get_other_srs_names`
      raise. */
  function Collected(fts: seq<FeatureType>): (r: Result<seq<string>, ModelError>)
    ensures r.Err? <==> SomeNull(fts)
    ensures r.Err? ==> r.error == NoneHasNoAttribute("strip")
    ensures r.Ok? ==> forall x :: x in r.value <==> Offered(fts, x)
    decreases |fts|
  {
    if |fts| == 0 then Ok([])
    else
      var rest := Collected(fts[1..]);
      CollectedCons(fts, rest);
      match OtherSrsNames(fts[0])
      case Err(e) => Err(e)
      case Ok(others) =>
        if rest.Err? then rest
        else Ok([fts[0].srs] + others + rest.value)
  }

  /** The outcome for a list from the outcome for its tail. */
  lemma CollectedCons(fts: seq<FeatureType>, rest: Result<seq<string>, ModelError>)
    requires |fts| > 0
    requires rest.Err? <==> SomeNull(fts[1..])
    requires rest.Ok? ==> forall x :: x in rest.value <==> Offered(fts[1..], x)
    ensures SomeNull(fts) <==> fts[0].othersrs.None? || SomeNull(fts[1..])
    ensures fts[0].othersrs.Some? && rest.Ok? ==>
              forall x :: x in [fts[0].srs] + SplitCommaSeparated(fts[0].othersrs.value) + rest.value <==> Offered(fts, x)
  {
    assert forall i :: 1 <= i < |fts| ==> fts[i] == fts[1..][i - 1];
    if SomeNull(fts[1..]) {
      var i :| 0 <= i < |fts[1..]| && fts[1..][i].othersrs.None?;
      assert fts[i + 1] == fts[1..][i];
    }
    if fts[0].othersrs.Some? && rest.Ok? {
      forall x | Offered(fts[1..], x) ensures Offered(fts, x) {
        var i :| 0 <= i < |fts[1..]| && fts[1..][i].othersrs.Some?
                 && (x == fts[1..][i].srs || x in SplitCommaSeparated(fts[1..][i].othersrs.value));
        assert fts[i + 1] == fts[1..][i];
      }
    }
  }

  predicate Unique(xs: seq<string>) {
    forall i, j :: 0 <= i < j < |xs| ==> xs[i] != xs[j]
  }

  /** The names each once, at its first occurrence: what `set` keeps. */
  function Distinct(xs: seq<string>): (r: seq<string>)
    ensures forall x :: x in r <==> x in xs
    ensures Unique(r)
    decreases |xs|
  {
    if |xs| == 0 then []
    else
      var init := xs[..|xs| - 1];
      var last := xs[|xs| - 1];
      var rest := Distinct(init);
      assert xs == init + [last];
      if last in rest then rest else rest + [last]
  }

  /** A list without repetitions holds every name at most once. */
  lemma {:induction false} UniqueCount(a: seq<string>, x: string)
    requires Unique(a)
    ensures multiset(a)[x] <= 1
    decreases |a|
  {
    if |a| > 0 {
      var init := a[..|a| - 1];
      assert a == init + [a[|a| - 1]];
      assert forall k :: 0 <= k < |init| ==> init[k] == a[k];
      UniqueCount(init, x);
    }
  }

  /** A name at two positions is counted twice. */
  lemma RepeatCount(b: seq<string>, i: nat, j: nat)
    requires i < j < |b| && b[i] == b[j]
    ensures multiset(b)[b[i]] >= 2
  {
    assert b == b[..j] + [b[j]] + b[j + 1..];
    assert b[..j][i] == b[i];
  }

  /** A rearrangement of a list without repetitions has none. */
  lemma UniquePermutation(a: seq<string>, b: seq<string>)
    requires Unique(a) && multiset(a) == multiset(b)
    ensures Unique(b)
  {
    forall i, j | 0 <= i < j < |b| ensures b[i] != b[j] {
      if b[i] == b[j] {
        RepeatCount(b, i, j);
        UniqueCount(a, b[i]);
      }
    }
  }

  /** `allsrsnames`: the names offered, each once, each not later than the
      next by natural key. */
  function AllSrsNames(fts: seq<FeatureType>): (r: Result<seq<string>, ModelError>)
    ensures r.Err? <==> SomeNull(fts)
    ensures r.Ok? ==> forall x :: x in r.value <==> Offered(fts, x)
    ensures r.Ok? ==> Unique(r.value)
    ensures r.Ok? ==> forall i, j :: 0 <= i < j < |r.value| ==> !KeyLess(Keys(r.value[j]), Keys(r.value[i]))
  {
    var names :- Collected(fts);
    var d := Distinct(names);
    var s := SortNames(d);
    UniquePermutation(d, s);
    assert forall x :: x in s <==> x in multiset(s);
    Ok(s)
  }
}
