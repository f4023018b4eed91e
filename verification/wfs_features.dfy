/** The features a GetFeature response streams, wfs/views.py: `RawFeature`
    turns one row of a raw SQL result into properties, an id and a
    geometry, and `type_feature_iter` runs through the selected feature
    types in order, yielding each type's features. Values of the database
    are left abstract (`V`), and so are the model objects (`O`); the
    conversion of a model object by `DjangoFeature` is not modelled. */
module Features {
  import opened Wrappers

  // ---------------------------------------------------------------------
  // An ordered dictionary of properties
  // ---------------------------------------------------------------------

  function KeysOf<V>(props: seq<(string, V)>): seq<string>
    decreases |props|
  {
    if |props| == 0 then [] else [props[0].0] + KeysOf(props[1..])
  }

  /** `props[key]`, or None when the key is absent. */
  function Lookup<V>(props: seq<(string, V)>, key: string): Option<V>
    decreases |props|
  {
    if |props| == 0 then None
    else if props[0].0 == key then Some(props[0].1)
    else Lookup(props[1..], key)
  }

  /** `props[key] = value`: a present key keeps its place and takes the new
      value, a new key goes at the end. */
  function Put<V>(props: seq<(string, V)>, key: string, value: V): (r: seq<(string, V)>)
    ensures KeysOf(r) == if key in KeysOf(props) then KeysOf(props) else KeysOf(props) + [key]
    ensures Lookup(r, key) == Some(value)
    ensures forall other :: other != key ==> Lookup(r, other) == Lookup(props, other)
    decreases |props|
  {
    if |props| == 0 then
      assert [(key, value)][1..] == [];
      [(key, value)]
    else if props[0].0 == key then
      assert ([(key, value)] + props[1..])[1..] == props[1..];
      [(key, value)] + props[1..]
    else
      var rest := Put(props[1..], key, value);
      assert ([props[0]] + rest)[1..] == rest;
      [props[0]] + rest
  }

  // ---------------------------------------------------------------------
  // RawFeature
  // ---------------------------------------------------------------------

  /** A parsed geometry and the reference system it is expressed in. */
  datatype Geometry<V> = Geometry(source: V, srid: int)

  datatype Feature<V> = Feature(props: seq<(string, V)>, id: Option<V>, geometry: Option<Geometry<V>>)

  /** `_is_geom_column`: the column named `shape` holds the geometry. */
  const ShapeColumn := "shape"

  /** `_is_id_column`. */
  const IdColumn := "id"

  /** `GEOSGeometry(value)`, transformed into `srid` when one is given and
      differs from the stored one: the result is always in the requested
      system, or in the stored one when none is requested. */
  function Placed<V>(value: V, srid: Option<int>, sridOf: V -> int): (r: Geometry<V>)
    ensures r.source == value
    ensures r.srid == if srid.Some? then srid.value else sridOf(value)
  {
    var geom := Geometry(value, sridOf(value));
    if srid.Some? && srid.value != geom.srid then geom.(srid := srid.value) else geom
  }

  /** `RawFeature(colinfos, row, srid)` over the first `|names|` columns:
      `names` are the column names of the result set and `sridOf` reads the
      reference system a stored geometry carries. */
  function RawFeature<V>(names: seq<string>, row: seq<V>, srid: Option<int>, sridOf: V -> int): Feature<V>
    requires |names| == |row|
    decreases |names|
  {
    if |names| == 0 then Feature([], None, None)
    else
      var n := |names| - 1;
      var f := RawFeature(names[..n], row[..n], srid, sridOf);
      var value := row[n];
      if names[n] == ShapeColumn then f.(geometry := Some(Placed(value, srid, sridOf)))
      else
        f.(id := if names[n] == IdColumn then Some(value) else f.id,
           props := Put(f.props, names[n], value))
  }

  /** The position of the last column of that name. */
  function LastIndex(names: seq<string>, name: string): (r: Option<nat>)
    ensures r.None? <==> name !in names
    ensures r.Some? ==> r.value < |names| && names[r.value] == name
    ensures r.Some? ==> forall j :: r.value < j < |names| ==> names[j] != name
    decreases |names|
  {
    if |names| == 0 then None
    else if names[|names| - 1] == name then Some(|names| - 1)
    else
      var r := LastIndex(names[..|names| - 1], name);
      assert names == names[..|names| - 1] + [names[|names| - 1]];
      r
  }

  /** The value of the last column of that name. */
  function LastValue<V>(names: seq<string>, row: seq<V>, name: string): Option<V>
    requires |names| == |row|
  {
    match LastIndex(names, name)
    case None => None
    case Some(j) => Some(row[j])
  }

  lemma LastValueStep<V>(names: seq<string>, row: seq<V>, name: string)
    requires |names| == |row| > 0
    ensures var n := |names| - 1;
            LastValue(names, row, name)
              == if names[n] == name then Some(row[n]) else LastValue(names[..n], row[..n], name)
  {
    var n := |names| - 1;
    if names[n] != name {
      var a, b := LastIndex(names, name), LastIndex(names[..n], name);
      if a.Some? {
        assert names[..n][a.value] == name;
      }
      if b.Some? {
        assert names[b.value] == name;
      }
    }
  }

  /** The names in the order of their first occurrence, each once. */
  function FirstOccurrences(names: seq<string>): (r: seq<string>)
    ensures forall x :: x in r <==> x in names
    decreases |names|
  {
    if |names| == 0 then []
    else
      var init := FirstOccurrences(names[..|names| - 1]);
      var last := names[|names| - 1];
      assert names == names[..|names| - 1] + [last];
      if last in init then init else init + [last]
  }

  function WithoutShape(names: seq<string>): (r: seq<string>)
    ensures forall x :: x in r <==> x in names && x != ShapeColumn
    decreases |names|
  {
    if |names| == 0 then []
    else
      var init := WithoutShape(names[..|names| - 1]);
      var last := names[|names| - 1];
      assert names == names[..|names| - 1] + [last];
      if last == ShapeColumn then init else init + [last]
  }

  /** Every column but the geometry becomes a property whose value is that
      of the last column of the name, in the order the names first appear. */
  lemma {:induction false} RawFeatureProps<V>(names: seq<string>, row: seq<V>, srid: Option<int>, sridOf: V -> int)
    requires |names| == |row|
    ensures var props := RawFeature(names, row, srid, sridOf).props;
            && KeysOf(props) == FirstOccurrences(WithoutShape(names))
            && (forall k :: k != ShapeColumn ==> Lookup(props, k) == LastValue(names, row, k))
            && Lookup(props, ShapeColumn).None?
    decreases |names|
  {
    if |names| > 0 {
      var n := |names| - 1;
      RawFeatureProps(names[..n], row[..n], srid, sridOf);
      forall k ensures LastValue(names, row, k) == if names[n] == k then Some(row[n]) else LastValue(names[..n], row[..n], k) {
        LastValueStep(names, row, k);
      }
      KeysOfFirstOccurrences(names, n);
    }
  }

  /** The id is the value of the last `id` column, if any. */
  lemma {:induction false} RawFeatureId<V>(names: seq<string>, row: seq<V>, srid: Option<int>, sridOf: V -> int)
    requires |names| == |row|
    ensures RawFeature(names, row, srid, sridOf).id == LastValue(names, row, IdColumn)
    decreases |names|
  {
    if |names| > 0 {
      var n := |names| - 1;
      RawFeatureId(names[..n], row[..n], srid, sridOf);
      LastValueStep(names, row, IdColumn);
    }
  }

  /** The geometry is that of the last `shape` column, brought into the
      requested reference system when one is given, and there is none
      without such a column. */
  lemma {:induction false} RawFeatureGeometry<V>(names: seq<string>, row: seq<V>, srid: Option<int>, sridOf: V -> int)
    requires |names| == |row|
    ensures var g := RawFeature(names, row, srid, sridOf).geometry;
            && (g.None? <==> ShapeColumn !in names)
            && (g.Some? ==>
                  && Some(g.value.source) == LastValue(names, row, ShapeColumn)
                  && g.value.srid == (if srid.Some? then srid.value else sridOf(g.value.source)))
    decreases |names|
  {
    if |names| > 0 {
      var n := |names| - 1;
      RawFeatureGeometry(names[..n], row[..n], srid, sridOf);
      LastValueStep(names, row, ShapeColumn);
      if names[n] != ShapeColumn {
        assert names == names[..n] + [names[n]];
      }
    }
  }

  lemma KeysOfFirstOccurrences(names: seq<string>, n: nat)
    requires n + 1 == |names|
    ensures WithoutShape(names) == if names[n] == ShapeColumn then WithoutShape(names[..n]) else WithoutShape(names[..n]) + [names[n]]
  {
  }

  /** A row without a `shape` column has no geometry, the case
      `getfeature` reports as `NoGeometryField`. */
  lemma NoShapeNoGeometry<V>(names: seq<string>, row: seq<V>, srid: Option<int>, sridOf: V -> int)
    requires |names| == |row| && ShapeColumn !in names
    ensures RawFeature(names, row, srid, sridOf).geometry.None?
  {
    RawFeatureGeometry(names, row, srid, sridOf);
  }

  /** A column of the result set holds the geometry, and the row's value
      there is NULL. */
  predicate NullShapeAt<V>(names: seq<string>, row: seq<V>, isNull: V -> bool, i: int)
    requires |names| == |row|
  {
    0 <= i < |names| && names[i] == ShapeColumn && isNull(row[i])
  }

  /** `RawFeature(colinfos, row, srid)` as it runs on a row that may hold
      NULLs (`isNull`): `GEOSGeometry(None)` raises `TypeError` at the first
      `shape` column whose value is NULL, and the result is the position of
      that column; otherwise the feature is built, with no geometry exactly
      when the row has no `shape` column. */
  function ReadRawFeature<V>(names: seq<string>, row: seq<V>, srid: Option<int>, sridOf: V -> int,
                              isNull: V -> bool): (r: Result<Feature<V>, nat>)
    requires |names| == |row|
    ensures r.Err? <==> exists i :: NullShapeAt(names, row, isNull, i)
    ensures r.Err? ==> NullShapeAt(names, row, isNull, r.error)
                       && forall j :: 0 <= j < r.error ==> !NullShapeAt(names, row, isNull, j)
    ensures r.Ok? ==> && r.value == RawFeature(names, row, srid, sridOf)
                      && (r.value.geometry.None? <==> ShapeColumn !in names)
    decreases |names|
  {
    if |names| == 0 then Ok(Feature([], None, None))
    else
      var n := |names| - 1;
      var head := ReadRawFeature(names[..n], row[..n], srid, sridOf, isNull);
      if head.Err? then
        assert NullShapeAt(names, row, isNull, head.error);
        forall j | 0 <= j < head.error ensures !NullShapeAt(names, row, isNull, j) {
          assert !NullShapeAt(names[..n], row[..n], isNull, j);
        }
        head
      else if names[n] == ShapeColumn && isNull(row[n]) then
        forall j | 0 <= j < n ensures !NullShapeAt(names, row, isNull, j) {
          assert !NullShapeAt(names[..n], row[..n], isNull, j);
        }
        assert NullShapeAt(names, row, isNull, n);
        Err(n)
      else
        forall i | 0 <= i < |names| ensures !NullShapeAt(names, row, isNull, i) {
          if i < n {
            assert !NullShapeAt(names[..n], row[..n], isNull, i);
          }
        }
        RawFeatureGeometry(names, row, srid, sridOf);
        Ok(RawFeature(names, row, srid, sridOf))
  }

  // ---------------------------------------------------------------------
  // type_feature_iter
  // ---------------------------------------------------------------------

  /** One entry of `types_with_features`: a feature type named `typeName`
      with its cursor (column names and rows) when it has no model, or its
      query set of model objects. */
  datatype Group<V, O> =
    | RawGroup(typeName: string, names: seq<string>, rows: seq<seq<V>>)
    | ModelGroup(typeName: string, objs: seq<O>)

  /** What the iterator yields for one feature: a `RawFeature`, the model
      object itself for XML output, or the object as `DjangoFeature`
      converts it for JSON output. */
  datatype Item<V, O> = FromRow(feature: Feature<V>) | Object(obj: O) | Converted(obj: O)

  predicate RowsFit<V, O>(g: Group<V, O>) {
    g.RawGroup? ==> forall i :: 0 <= i < |g.rows| ==> |g.rows[i]| == |g.names|
  }

  /** The rows of every raw group are as wide as its column list. */
  predicate AllFit<V, O>(groups: seq<Group<V, O>>) {
    forall i :: 0 <= i < |groups| ==> RowsFit(groups[i])
  }

  function Size<V, O>(g: Group<V, O>): nat {
    match g
    case RawGroup(_, _, rows) => |rows|
    case ModelGroup(_, objs) => |objs|
  }

  /** The features of one group, each paired with its type. */
  function GroupItems<V, O>(g: Group<V, O>, raw: bool, srid: Option<int>, sridOf: V -> int): (r: seq<(string, Item<V, O>)>)
    requires RowsFit(g)
    ensures |r| == Size(g)
    ensures forall i :: 0 <= i < |r| ==> r[i].0 == g.typeName
    ensures g.RawGroup? ==> forall i :: 0 <= i < |r| ==> r[i].1 == FromRow(RawFeature(g.names, g.rows[i], srid, sridOf))
    ensures g.ModelGroup? ==> forall i :: 0 <= i < |r| ==> r[i].1 == (if raw then Object(g.objs[i]) else Converted(g.objs[i]))
  {
    match g
    case RawGroup(t, names, rows) =>
      seq(|rows|, i requires 0 <= i < |rows| => (t, FromRow(RawFeature(names, rows[i], srid, sridOf))))
    case ModelGroup(t, objs) =>
      seq(|objs|, i requires 0 <= i < |objs| => (t, if raw then Object(objs[i]) else Converted(objs[i])))
  }

  /** The items of a group as a total function of it: a raw group whose
      rows do not fit its columns (which `Stream` excludes) yields none. */
  function ItemsFn<V, O>(raw: bool, srid: Option<int>, sridOf: V -> int): Group<V, O> -> seq<(string, Item<V, O>)> {
    g => if RowsFit(g) then GroupItems(g, raw, srid, sridOf) else []
  }

  /** The concatenation of `items(g)` over the groups, in order. */
  function Flatten<G, X>(gs: seq<G>, items: G -> seq<X>): seq<X>
    decreases |gs|
  {
    if |gs| == 0 then [] else items(gs[0]) + Flatten(gs[1..], items)
  }

  lemma {:induction false} FlattenAppend<G, X>(a: seq<G>, b: seq<G>, items: G -> seq<X>)
    ensures Flatten(a + b, items) == Flatten(a, items) + Flatten(b, items)
    decreases |a|
  {
    if |a| == 0 {
      assert a + b == b;
    } else {
      assert (a + b)[1..] == a[1..] + b;
      assert (a + b)[0] == a[0];
      FlattenAppend(a[1..], b, items);
    }
  }

  /** `iter(type_feature_iter)`: the groups in the order they were added. */
  function Stream<V, O>(groups: seq<Group<V, O>>, raw: bool, srid: Option<int>, sridOf: V -> int): seq<(string, Item<V, O>)>
    requires AllFit(groups)
  {
    Flatten(groups, ItemsFn(raw, srid, sridOf))
  }

  function TotalSize<V, O>(groups: seq<Group<V, O>>): nat
    decreases |groups|
  {
    if |groups| == 0 then 0 else Size(groups[0]) + TotalSize(groups[1..])
  }

  /** A single type yields its own features. */
  lemma StreamOne<V, O>(g: Group<V, O>, raw: bool, srid: Option<int>, sridOf: V -> int)
    requires RowsFit(g)
    ensures Stream([g], raw, srid, sridOf) == GroupItems(g, raw, srid, sridOf)
  {
    var items := ItemsFn(raw, srid, sridOf);
    assert [g][1..] == [];
    assert items(g) == GroupItems(g, raw, srid, sridOf);
    assert Flatten([g], items) == items(g) + Flatten([g][1..], items);
  }

  /** Adding a type after others appends its features after theirs. */
  lemma StreamAppend<V, O>(a: seq<Group<V, O>>, b: seq<Group<V, O>>, raw: bool, srid: Option<int>, sridOf: V -> int)
    requires AllFit(a) && AllFit(b)
    ensures AllFit(a + b)
    ensures Stream(a + b, raw, srid, sridOf) == Stream(a, raw, srid, sridOf) + Stream(b, raw, srid, sridOf)
  {
    FlattenAppend(a, b, ItemsFn(raw, srid, sridOf));
  }

  /** Every feature of every type is yielded once. */
  lemma {:induction false} StreamLength<V, O>(groups: seq<Group<V, O>>, raw: bool, srid: Option<int>, sridOf: V -> int)
    requires AllFit(groups)
    ensures |Stream(groups, raw, srid, sridOf)| == TotalSize(groups)
    decreases |groups|
  {
    if |groups| > 0 {
      assert AllFit(groups[1..]) by {
        forall i | 0 <= i < |groups| - 1 ensures RowsFit(groups[1..][i]) {
          assert groups[1..][i] == groups[i + 1];
        }
      }
      StreamLength(groups[1..], raw, srid, sridOf);
      assert RowsFit(groups[0]);
      var items := ItemsFn(raw, srid, sridOf);
      assert items(groups[0]) == GroupItems(groups[0], raw, srid, sridOf);
      assert Stream(groups, raw, srid, sridOf) == items(groups[0]) + Stream(groups[1..], raw, srid, sridOf);
    }
  }
}
