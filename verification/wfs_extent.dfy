/** The running bounding box of a GetFeature response, wfs/views.py: each
    feature type (or feature id) contributes the `Extent` aggregate of its
    features, and the box so far is widened coordinate-wise with `min` and
    `max`. The aggregate of an empty selection is `None`. */
module Extents {
  import opened Wrappers
  import opened Exceptions

  /** `(minx, miny, maxx, maxy)`. */
  datatype Extent = Extent(minx: real, miny: real, maxx: real, maxy: real)

  function Min(a: real, b: real): real {
    if a <= b then a else b
  }

  function Max(a: real, b: real): real {
    if a >= b then a else b
  }

  /** The widening of one box by another, as the tuple of `min`/`max`. */
  function Union(a: Extent, b: Extent): (r: Extent)
    ensures Contains(r, a) && Contains(r, b)
    ensures forall c :: Contains(c, a) && Contains(c, b) ==> Contains(c, r)
  {
    Extent(Min(a.minx, b.minx), Min(a.miny, b.miny), Max(a.maxx, b.maxx), Max(a.maxy, b.maxy))
  }

  /** `outer` covers `inner`. */
  predicate Contains(outer: Extent, inner: Extent) {
    outer.minx <= inner.minx && outer.miny <= inner.miny && inner.maxx <= outer.maxx && inner.maxy <= outer.maxy
  }

  /** The report every failure inside the loop body turns into. */
  function Malformed(): Report {
    WfsException(MalformedJSONQuery, "query", None)
  }

  // ---------------------------------------------------------------------
  // The fold as written
  // ---------------------------------------------------------------------

  /** One step as written: an empty box so far takes the next aggregate,
      whatever it is; a box so far with an empty aggregate indexes `None`
      and the `TypeError` is reported as a malformed query. */
  function StepAsWritten(acc: Option<Extent>, next: Option<Extent>): Result<Option<Extent>, Report> {
    match acc
    case None => Ok(next)
    case Some(a) =>
      match next
      case None => Err(Malformed())
      case Some(b) => Ok(Some(Union(a, b)))
  }

  /** The box after the aggregates of the first `|rs|` feature types. */
  function FoldAsWritten(rs: seq<Option<Extent>>): Result<Option<Extent>, Report>
    decreases |rs|
  {
    if |rs| == 0 then Ok(None)
    else
      var acc :- FoldAsWritten(rs[..|rs| - 1]);
      StepAsWritten(acc, rs[|rs| - 1])
  }

  /** Some feature type with features comes before one without. */
  predicate EmptyAfterFilled(rs: seq<Option<Extent>>) {
    exists i, j :: 0 <= i < j < |rs| && rs[i].Some? && rs[j].None?
  }

  /** The fold as written fails exactly when an empty aggregate follows a
      non-empty one. */
  lemma {:induction false} AsWrittenFailsIff(rs: seq<Option<Extent>>)
    ensures FoldAsWritten(rs).Err? <==> EmptyAfterFilled(rs)
    ensures FoldAsWritten(rs).Err? ==> FoldAsWritten(rs).error == Malformed()
    ensures FoldAsWritten(rs).Ok? ==> (FoldAsWritten(rs).value.None? <==> forall i :: 0 <= i < |rs| ==> rs[i].None?)
    decreases |rs|
  {
    if |rs| > 0 {
      var init := rs[..|rs| - 1];
      AsWrittenFailsIff(init);
      EmptyAfterFilledLast(rs);
      assert forall i :: 0 <= i < |init| ==> init[i] == rs[i];
    }
  }

  /** An empty aggregate follows a non-empty one either before the last
      feature type, or at the last one after some non-empty aggregate. */
  lemma EmptyAfterFilledLast(rs: seq<Option<Extent>>)
    requires |rs| > 0
    ensures var init := rs[..|rs| - 1];
            EmptyAfterFilled(rs)
            <==> EmptyAfterFilled(init) || (rs[|rs| - 1].None? && exists i :: 0 <= i < |init| && init[i].Some?)
  {
    var init := rs[..|rs| - 1];
    if EmptyAfterFilled(rs) {
      var i, j :| 0 <= i < j < |rs| && rs[i].Some? && rs[j].None?;
      assert init[i].Some?;
      if j < |rs| - 1 {
        assert init[j].None?;
      }
    }
    if EmptyAfterFilled(init) {
      var i, j :| 0 <= i < j < |init| && init[i].Some? && init[j].None?;
      assert rs[i].Some? && rs[j].None?;
    }
    if rs[|rs| - 1].None? && exists i :: 0 <= i < |init| && init[i].Some? {
      var i :| 0 <= i < |init| && init[i].Some?;
      assert rs[i].Some?;
    }
  }

  /** The input that shows the failure: a feature type with no feature
      after one with features. */
  lemma AsWrittenRefusesEmptyAfterFilled(e: Extent)
    ensures FoldAsWritten([Some(e), None]) == Err(Malformed())
    ensures Fold([Some(e), None]) == Some(e)
  {
    var rs := [Some(e), None];
    assert rs[..1] == [Some(e)];
    assert [Some(e)][..0] == [];
    assert FoldAsWritten([Some(e)]) == Ok(Some(e));
    assert Fold([Some(e)]) == Some(e);
  }

  // ---------------------------------------------------------------------
  // The fold as intended: empty aggregates contribute nothing
  // ---------------------------------------------------------------------

  /** The smallest box holding every non-empty aggregate of `rs`. */
  function Fold(rs: seq<Option<Extent>>): (r: Option<Extent>)
    ensures r.None? <==> forall i :: 0 <= i < |rs| ==> rs[i].None?
    ensures r.Some? ==> forall i :: 0 <= i < |rs| && rs[i].Some? ==> Contains(r.value, rs[i].value)
    ensures r.Some? ==> forall c :: (forall i :: 0 <= i < |rs| && rs[i].Some? ==> Contains(c, rs[i].value))
                                      ==> Contains(c, r.value)
    decreases |rs|
  {
    if |rs| == 0 then None
    else
      var init := rs[..|rs| - 1];
      var acc := Fold(init);
      assert forall i :: 0 <= i < |init| ==> init[i] == rs[i];
      match rs[|rs| - 1]
      case None => acc
      case Some(b) =>
        match acc
        case None => Some(b)
        case Some(a) => Some(Union(a, b))
  }

  /** Where the fold as written does not fail, it computes the intended
      box. */
  lemma {:induction false} AsWrittenAgrees(rs: seq<Option<Extent>>)
    requires !EmptyAfterFilled(rs)
    ensures FoldAsWritten(rs) == Ok(Fold(rs))
    decreases |rs|
  {
    if |rs| > 0 {
      var init := rs[..|rs| - 1];
      EmptyAfterFilledLast(rs);
      AsWrittenAgrees(init);
    }
  }
}
