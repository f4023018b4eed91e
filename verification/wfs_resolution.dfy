/** The choice of a feature type's resolution filter in `getfeature` of
    wfs/views.py: among the filters whose `min_resolution` does not exceed
    the requested resolution, the one with the greatest `min_resolution`
    (`filter(min_resolution__lte = resolution).order_by("-min_resolution")
    .first()`). The database leaves the order of equal thresholds open; the
    model takes the first of them in the order the filters are listed. */
module ResolutionFilters {
  import opened Wrappers

  /** A `ResolutionFilter` row: the threshold and the query it adds. */
  datatype ResolutionFilter = ResolutionFilter(minResolution: real, query: string)

  /** The filter applies at this resolution. */
  predicate Applies(f: ResolutionFilter, resolution: real) {
    f.minResolution <= resolution
  }

  /** The position of the chosen filter among the first `|fs|`, as the
      scan from the front keeps it: a later filter replaces the current
      choice only with a strictly greater threshold. */
  function Best(fs: seq<ResolutionFilter>, resolution: real): (r: Option<nat>)
    ensures r.Some? ==> r.value < |fs| && Applies(fs[r.value], resolution)
    ensures r.Some? ==> forall j :: 0 <= j < |fs| && Applies(fs[j], resolution) ==>
                          fs[j].minResolution <= fs[r.value].minResolution
    ensures r.Some? ==> forall j :: 0 <= j < r.value && Applies(fs[j], resolution) ==>
                          fs[j].minResolution < fs[r.value].minResolution
    ensures r.None? <==> forall j :: 0 <= j < |fs| ==> !Applies(fs[j], resolution)
    decreases |fs|
  {
    if |fs| == 0 then None
    else
      var rest := Best(fs[..|fs| - 1], resolution);
      var last := fs[|fs| - 1];
      assert forall j :: 0 <= j < |fs| - 1 ==> fs[..|fs| - 1][j] == fs[j];
      if Applies(last, resolution) && (rest.None? || fs[rest.value].minResolution < last.minResolution)
      then Some(|fs| - 1)
      else rest
  }

  /** The loop form of the choice, one pass over the filters. */
  method ChooseFilter(fs: seq<ResolutionFilter>, resolution: real) returns (r: Option<nat>)
    ensures r == Best(fs, resolution)
    ensures r.Some? ==> r.value < |fs| && Applies(fs[r.value], resolution)
    ensures r.None? <==> forall j :: 0 <= j < |fs| ==> !Applies(fs[j], resolution)
  {
    r := None;
    var i := 0;
    while i < |fs|
      invariant 0 <= i <= |fs|
      invariant r == Best(fs[..i], resolution)
    {
      assert fs[..i + 1][..i] == fs[..i];
      if Applies(fs[i], resolution) && (r.None? || fs[r.value].minResolution < fs[i].minResolution) {
        r := Some(i);
      }
      i := i + 1;
    }
    assert fs[..i] == fs;
  }

  /** What `getfeature` adds to the query: no filter without a resolution
      parameter, otherwise the chosen one, if any. */
  function FilterFor(fs: seq<ResolutionFilter>, resolution: Option<real>): (r: Option<ResolutionFilter>)
    ensures resolution.None? ==> r.None?
    ensures r.Some? ==> r.value in fs && Applies(r.value, resolution.value)
    ensures r.Some? ==> forall f :: f in fs && Applies(f, resolution.value) ==> f.minResolution <= r.value.minResolution
    ensures resolution.Some? ==> (r.None? <==> forall f :: f in fs ==> !Applies(f, resolution.value))
  {
    match resolution
    case None => None
    case Some(res) =>
      match Best(fs, res)
      case None => None
      case Some(k) => Some(fs[k])
  }

  /** A finer request never picks a filter of a greater threshold: the
      choice is monotone in the requested resolution. */
  lemma FinerPicksLower(fs: seq<ResolutionFilter>, fine: real, coarse: real)
    requires fine <= coarse
    requires FilterFor(fs, Some(fine)).Some?
    ensures FilterFor(fs, Some(coarse)).Some?
    ensures FilterFor(fs, Some(fine)).value.minResolution <= FilterFor(fs, Some(coarse)).value.minResolution
  {
    var f := FilterFor(fs, Some(fine)).value;
    assert Applies(f, coarse);
  }

  /** Adding a filter above the requested resolution changes nothing. */
  lemma IgnoresHigherThresholds(fs: seq<ResolutionFilter>, g: ResolutionFilter, resolution: real)
    requires !Applies(g, resolution)
    ensures FilterFor(fs + [g], Some(resolution)) == FilterFor(fs, Some(resolution))
  {
    assert (fs + [g])[..|fs|] == fs;
  }
}
