/** Feature identifiers `typename.id`, as `get_feature_from_parameter`
    reads them in wfs/views.py and in its older revision views.py, and the
    loop of `getfeature` that reads a comma-separated list of them. */
module FeatureIds {
  import opened Wrappers
  import opened Strings
  import opened Exceptions
  import opened ParamScan

  /** `get_feature_from_parameter(parameter)` of wfs/views.py: the text
      before the first dot, and the rest read by `int()`. A missing dot or
      a rest that is no integer raises `ValueError` (None here). */
  function FeatureFromParameter(parameter: string): (r: Option<(string, int)>)
    ensures r.Some? ==> var dot := |r.value.0|;
                        && dot < |parameter| && parameter[..dot] == r.value.0 && parameter[dot] == '.'
                        && '.' !in r.value.0 && ParseInt(parameter[dot + 1..]) == Some(r.value.1)
  {
    if '.' !in parameter then None
    else
      var dot := IndexOf(parameter, '.');
      match ParseInt(parameter[dot + 1..])
      case None => None
      case Some(n) => Some((parameter[..dot], n))
  }

  /** What the service writes as a feature id, it reads back. */
  lemma FeatureIdRoundTrip(name: string, n: int)
    requires '.' !in name
    ensures FeatureFromParameter(name + "." + IntToString(n)) == Some((name, n))
  {
    var p := name + "." + IntToString(n);
    FirstDotAfter(p, name, IntToString(n));
    ParseIntOfIntToString(n);
    FeatureFromParameterOf(p, |name|, n);
  }

  /** The first dot of `name.rest` is the one after the dot-free name. */
  lemma FirstDotAfter(p: string, name: string, rest: string)
    requires '.' !in name && p == name + "." + rest
    ensures '.' in p && IndexOf(p, '.') == |name| && p[..|name|] == name && p[|name| + 1..] == rest
  {
    assert p[|name|] == '.';
    assert p[..|name|] == name;
  }

  lemma FeatureFromParameterOf(p: string, dot: nat, n: int)
    requires '.' in p && IndexOf(p, '.') == dot && ParseInt(p[dot + 1..]) == Some(n)
    ensures FeatureFromParameter(p) == Some((p[..dot], n))
  {
  }

  /** A second dot is never part of an id: `int()` refuses it. */
  lemma TwoDotsRefused(parameter: string)
    requires '.' in parameter && '.' in parameter[IndexOf(parameter, '.') + 1..]
    ensures FeatureFromParameter(parameter) == None
  {
    var dot := IndexOf(parameter, '.');
    ParseIntRejectsDot(parameter[dot + 1..]);
    FeatureFromParameterNone(parameter, dot);
  }

  lemma FeatureFromParameterNone(p: string, dot: nat)
    requires '.' in p && IndexOf(p, '.') == dot && ParseInt(p[dot + 1..]) == None
    ensures FeatureFromParameter(p) == None
  {
  }

  /** `get_feature_from_parameter(parameter)` of views.py: exactly one dot,
      and the two texts around it. */
  function LegacyFeatureFromParameter(parameter: string): (r: Option<(string, string)>)
    ensures r.Some? <==> CountChar(parameter, '.') == 1
  {
    if CountChar(parameter, '.') != 1 then None
    else
      SplitCount(parameter, '.');
      var parts := Split(parameter, '.');
      Some((parts[0], parts[1]))
  }

  /** The two texts are dot-free and joined by the dot give the parameter
      back. */
  lemma LegacyParts(parameter: string)
    requires LegacyFeatureFromParameter(parameter).Some?
    ensures var (name, id) := LegacyFeatureFromParameter(parameter).value;
            '.' !in name && '.' !in id && name + "." + id == parameter
  {
    SplitCount(parameter, '.');
    SplitPartsFree(parameter, '.');
    JoinSplit(parameter, '.');
    var parts := Split(parameter, '.');
    assert parts == [parts[0]] + [parts[1]];
    JoinCons(parts[0], [parts[1]], ['.']);
  }

  /** Two dot-free texts joined by a dot are read back. */
  lemma LegacyRoundTrip(name: string, id: string)
    requires '.' !in name && '.' !in id
    ensures LegacyFeatureFromParameter(name + "." + id) == Some((name, id))
  {
    var p := name + "." + id;
    assert p == name + ['.'] + id;
    SplitCons(name, id, '.');
    SplitWhole(id, '.');
    CountCharConcat(name, ['.'] + id, '.');
    CountCharConcat(['.'], id, '.');
    CountCharAbsent(name, '.');
    CountCharAbsent(id, '.');
    assert CountChar(['.'], '.') == 1;
    assert p == name + (['.'] + id);
    LegacyOf(p, name, id);
  }

  lemma LegacyOf(p: string, name: string, id: string)
    requires CountChar(p, '.') == 1 && Split(p, '.') == [name, id]
    ensures LegacyFeatureFromParameter(p) == Some((name, id))
  {
  }

  /** Where the older revision hands on the id as text, the current one
      reads it as the number it spells. */
  lemma RevisionsAgree(name: string, n: int)
    requires '.' !in name
    ensures LegacyFeatureFromParameter(name + "." + IntToString(n)) == Some((name, IntToString(n)))
    ensures FeatureFromParameter(name + "." + IntToString(n)) == Some((name, n))
  {
    NoDotInNumber(n);
    LegacyRoundTrip(name, IntToString(n));
    FeatureIdRoundTrip(name, n);
  }

  lemma NoDotInNumber(n: int)
    ensures '.' !in IntToString(n)
  {
    var s := IntToString(n);
    forall i | 0 <= i < |s| ensures s[i] != '.' {
      if n < 0 && i > 0 {
        assert s[i] == NatToString(-n)[i - 1];
      }
    }
  }

  // ---------------------------------------------------------------------
  // The list of ids of a GetFeature request
  // ---------------------------------------------------------------------

  /** The report for a feature id that cannot be read or names no feature
      type of the service. */
  function BadFeatureId(feature: string): Report {
    WfsException(InvalidParameterValue, "featureid", Some(feature))
  }

  /** An id the loop refuses: `read` cannot read it, or it names a feature
      type the service does not have. */
  predicate Unresolved<T>(read: string -> Option<(string, T)>, knownType: string -> bool, feature: string) {
    read(feature).None? || !knownType(read(feature).value.0)
  }

  function UnresolvedFn<T>(read: string -> Option<(string, T)>, knownType: string -> bool): string -> bool {
    (feature: string) => Unresolved(read, knownType, feature)
  }

  /** The loop over `featureid.split(",")` up to the feature type lookup:
      every id read in order, or the report `refuse` makes of the first id
      that is refused. */
  function ResolveAll<T>(ids: seq<string>, read: string -> Option<(string, T)>, knownType: string -> bool,
                         refuse: string -> Report): (r: Result<seq<(string, T)>, Report>)
    ensures var k := FirstWhere(ids, UnresolvedFn(read, knownType));
            && (r.Err? <==> k.Some?)
            && (k.Some? ==> r.error == refuse(ids[k.value]))
    ensures r.Ok? ==> |r.value| == |ids|
    ensures r.Ok? ==> forall i :: 0 <= i < |ids| ==> Some(r.value[i]) == read(ids[i]) && knownType(r.value[i].0)
    decreases |ids|
  {
    if |ids| == 0 then Ok([])
    else if Unresolved(read, knownType, ids[0]) then Err(refuse(ids[0]))
    else
      var rest := ResolveAll(ids[1..], read, knownType, refuse);
      var k := FirstWhere(ids[1..], UnresolvedFn(read, knownType));
      if k.Some? then
        assert ids[k.value + 1] == ids[1..][k.value];
        rest
      else
        assert forall i :: 1 <= i < |ids| ==> ids[i] == ids[1..][i - 1];
        Ok([read(ids[0]).value] + rest.value)
  }

  /** `getfeature` of wfs/views.py: the ids as `get_feature_from_parameter`
      reads them, each of a feature type of the service. */
  function ResolveFeatureIds(ids: seq<string>, knownType: string -> bool): (r: Result<seq<(string, int)>, Report>)
    ensures var k := FirstWhere(ids, UnresolvedFn(FeatureFromParameter, knownType));
            && (r.Err? <==> k.Some?)
            && (k.Some? ==> r.error == BadFeatureId(ids[k.value]))
    ensures r.Ok? ==> |r.value| == |ids|
    ensures r.Ok? ==> forall i :: 0 <= i < |ids| ==>
                        FeatureFromParameter(ids[i]) == Some(r.value[i]) && knownType(r.value[i].0)
  {
    ResolveAll(ids, FeatureFromParameter, knownType, BadFeatureId)
  }

  /** `getfeature` of views.py: the same loop with the older reading of an
      id and the older report. */
  function LegacyResolveFeatureIds(ids: seq<string>, knownType: string -> bool): (r: Result<seq<(string, string)>, Report>)
    ensures var k := FirstWhere(ids, UnresolvedFn(LegacyFeatureFromParameter, knownType));
            && (r.Err? <==> k.Some?)
            && (k.Some? ==> r.error == LegacyBadFeatureId(ids[k.value]))
    ensures r.Ok? ==> |r.value| == |ids|
    ensures r.Ok? ==> forall i :: 0 <= i < |ids| ==>
                        LegacyFeatureFromParameter(ids[i]) == Some(r.value[i]) && knownType(r.value[i].0)
  {
    ResolveAll(ids, LegacyFeatureFromParameter, knownType, LegacyBadFeatureId)
  }

  function LegacyBadFeatureId(feature: string): Report {
    LegacyWfsException(InvalidParameterValue, "featureid", Some(feature))
  }
}
