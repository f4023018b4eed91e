/** The shape shared by the parameter loops of wfs/views.py and views.py:
    the query parameters are visited once, in the order the query
    dictionary yields them, each one updating the handler's local state or
    returning an exception report at once. */
module ParamScan {
  import opened Wrappers
  import opened Exceptions

  /** One (key, value) pair of `request.GET.items()`. */
  datatype Param = Param(key: string, value: string)

  /** A fault found while scanning: the arguments `wfs_exception` gets. */
  datatype Fault = Fault(code: Code, locator: string, parameter: Option<string>)

  /** The loop over the parameters, stopping at the first fault. */
  function Fold<S>(ps: seq<Param>, s: S, step: (Param, S) -> Result<S, Fault>): Result<S, Fault>
    decreases |ps|
  {
    if |ps| == 0 then Ok(s)
    else
      var s' :- step(ps[0], s);
      Fold(ps[1..], s', step)
  }

  /** The position of the first element `bad` holds of. */
  function FirstWhere<T>(ps: seq<T>, bad: T -> bool): (r: Option<nat>)
    ensures r.Some? ==> r.value < |ps| && bad(ps[r.value])
    ensures forall j :: 0 <= j < (if r.Some? then r.value else |ps|) ==> !bad(ps[j])
    decreases |ps|
  {
    if |ps| == 0 then None
    else if bad(ps[0]) then Some(0)
    else match FirstWhere(ps[1..], bad)
      case None => None
      case Some(i) => Some(i + 1)
  }

  /** A step that fails on exactly the parameters `bad` holds of, each with
      its own fault, makes the loop fail at the first of them. */
  lemma {:induction false} FoldStopsAtFirst<S>(ps: seq<Param>, s: S, step: (Param, S) -> Result<S, Fault>,
                                               bad: Param -> bool, fault: Param -> Fault)
    requires forall p, t :: step(p, t).Err? <==> bad(p)
    requires forall p, t :: step(p, t).Err? ==> step(p, t).error == fault(p)
    ensures Fold(ps, s, step).Err? <==> FirstWhere(ps, bad).Some?
    ensures FirstWhere(ps, bad).Some? ==> Fold(ps, s, step).error == fault(ps[FirstWhere(ps, bad).value])
    decreases |ps|
  {
    if |ps| > 0 && !bad(ps[0]) {
      var s' := step(ps[0], s).value;
      FoldStopsAtFirst(ps[1..], s', step, bad, fault);
      var f := FirstWhere(ps[1..], bad);
      if f.Some? {
        assert ps[f.value + 1] == ps[1..][f.value];
      }
    }
  }

  /** What every step keeps, the loop keeps. */
  lemma {:induction false} FoldKeeps<S>(ps: seq<Param>, s: S, step: (Param, S) -> Result<S, Fault>, inv: S -> bool)
    requires forall p, t :: inv(t) && step(p, t).Ok? ==> inv(step(p, t).value)
    requires inv(s)
    ensures Fold(ps, s, step).Ok? ==> inv(Fold(ps, s, step).value)
    decreases |ps|
  {
    if |ps| > 0 && step(ps[0], s).Ok? {
      FoldKeeps(ps[1..], step(ps[0], s).value, step, inv);
    }
  }

  /** Two lists of parameters that every step treats alike loop alike. */
  lemma {:induction false} FoldAlike<S>(ps: seq<Param>, qs: seq<Param>, s: S, step: (Param, S) -> Result<S, Fault>)
    requires |ps| == |qs|
    requires forall i, t :: 0 <= i < |ps| ==> step(ps[i], t) == step(qs[i], t)
    ensures Fold(ps, s, step) == Fold(qs, s, step)
    decreases |ps|
  {
    if |ps| > 0 {
      assert step(ps[0], s) == step(qs[0], s);
      if step(ps[0], s).Ok? {
        forall i, t | 0 <= i < |ps| - 1
          ensures step(ps[1..][i], t) == step(qs[1..][i], t)
        {
          assert step(ps[i + 1], t) == step(qs[i + 1], t);
        }
        FoldAlike(ps[1..], qs[1..], step(ps[0], s).value, step);
      }
    }
  }
}
