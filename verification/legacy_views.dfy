/** `getfeature` of the older views.py: the parameter scan, the blanket
    refusal of the parameters it does not support, the loop over feature
    ids, and the XML fragments `featuretype_to_xml` and `features_to_xml`
    build from the fields a feature type lists. */
module LegacyGetFeature {
  import opened Wrappers
  import opened Strings
  import opened Exceptions
  import opened ParamScan
  import opened FeatureIds

  // ---------------------------------------------------------------------
  // The parameter scan
  // ---------------------------------------------------------------------

  /** The local variables of `getfeature` after the scan; all values are
      lower-cased. */
  datatype Request = Request(
    propertyName: Option<string>,
    featureVersion: Option<string>,
    maxFeatures: Option<int>,
    typeName: Option<string>,
    featureId: Option<string>,
    filter: Option<string>,
    bbox: Option<string>)

  const Initial: Request := Request(None, None, None, None, None, None, None)

  /** One parameter: only `maxfeatures` can be refused, when it is no
      integer or below one, and it is reported with its value as given. */
  function Step(p: Param, q: Request): Result<Request, Fault> {
    var k := Lower(p.key);
    var v := Lower(p.value);
    if k == "propertyname" then Ok(q.(propertyName := Some(v)))
    else if k == "featureversion" then Ok(q.(featureVersion := Some(v)))
    else if k == "maxfeatures" then
      match ParseInt(v)
      case None => Err(Fault(InvalidParameterValue, "maxfeatures", Some(p.value)))
      case Some(n) =>
        if n < 1 then Err(Fault(InvalidParameterValue, "maxfeatures", Some(p.value)))
        else Ok(q.(maxFeatures := Some(n)))
    else if k == "typename" then Ok(q.(typeName := Some(v)))
    else if k == "featureid" then Ok(q.(featureId := Some(v)))
    else if k == "filter" then Ok(q.(filter := Some(v)))
    else if k == "bbox" then Ok(q.(bbox := Some(v)))
    else Ok(q)
  }

  function StepFn(): (Param, Request) -> Result<Request, Fault> {
    (p: Param, q: Request) => Step(p, q)
  }

  /** A `maxfeatures` value that is no integer of at least one. */
  predicate Rejected(p: Param) {
    Lower(p.key) == "maxfeatures" && (ParseInt(Lower(p.value)).None? || ParseInt(Lower(p.value)).value < 1)
  }

  function RejectedFn(): Param -> bool {
    (p: Param) => Rejected(p)
  }

  function FaultOf(p: Param): Fault {
    Fault(InvalidParameterValue, "maxfeatures", Some(p.value))
  }

  function FaultFn(): Param -> Fault {
    (p: Param) => FaultOf(p)
  }

  function ScanParams(ps: seq<Param>): Result<Request, Fault> {
    Fold(ps, Initial, StepFn())
  }

  /** The scan fails exactly at the first refused `maxfeatures`. */
  lemma ScanStopsAtFirstRejected(ps: seq<Param>)
    ensures ScanParams(ps).Err? <==> FirstWhere(ps, RejectedFn()).Some?
    ensures FirstWhere(ps, RejectedFn()).Some? ==>
              ScanParams(ps).error == FaultOf(ps[FirstWhere(ps, RejectedFn()).value])
  {
    forall p, t ensures StepFn()(p, t).Err? <==> RejectedFn()(p) {
      StepRejects(p, t);
    }
    forall p, t | StepFn()(p, t).Err? ensures StepFn()(p, t).error == FaultFn()(p) {
      StepRejects(p, t);
    }
    FoldStopsAtFirst(ps, Initial, StepFn(), RejectedFn(), FaultFn());
  }

  lemma StepRejects(p: Param, q: Request)
    ensures Step(p, q).Err? <==> Rejected(p)
    ensures Step(p, q).Err? ==> Step(p, q).error == FaultOf(p)
  {
  }

  /** How `getfeature` goes on after the scan. */
  datatype Outcome =
    | Refused(report: Report)
    | NotImplemented
    | ByFeatureIds(ids: seq<string>)
    | ByTypeNames(names: seq<string>)

  /** The scan, then `NotImplementedError` for any of `propertyname`,
      `featureversion`, `filter` or `bbox`, then feature ids, else type
      names, else the missing type name. */
  function GetFeatureParams(ps: seq<Param>): (r: Outcome)
    ensures r.Refused? ==> r.report.code in {InvalidParameterValue, MissingParameter}
  {
    ScanStopsAtFirstRejected(ps);
    match ScanParams(ps)
    case Err(f) => Refused(LegacyWfsException(f.code, f.locator, f.parameter))
    case Ok(q) =>
      if q.propertyName.Some? || q.featureVersion.Some? || q.filter.Some? || q.bbox.Some? then NotImplemented
      else if q.featureId.Some? then ByFeatureIds(Split(q.featureId.value, ','))
      else if q.typeName.Some? then ByTypeNames(Split(q.typeName.value, ','))
      else Refused(LegacyWfsException(MissingParameter, "typename", None))
  }

  /** The first refused `maxfeatures` is reported; otherwise any of the
      four unsupported parameters raises, a bounding box included; feature
      ids win over type names; with neither the type name is missing. */
  lemma OutcomeOrder(ps: seq<Param>)
    ensures var k := FirstWhere(ps, RejectedFn());
            k.Some? ==> GetFeatureParams(ps)
                          == Refused(LegacyWfsException(InvalidParameterValue, "maxfeatures", Some(ps[k.value].value)))
    ensures ScanParams(ps).Ok? ==>
              var q := ScanParams(ps).value;
              var r := GetFeatureParams(ps);
              && (q.propertyName.Some? || q.featureVersion.Some? || q.filter.Some? || q.bbox.Some? <==> r.NotImplemented?)
              && (r.ByFeatureIds? <==> !r.NotImplemented? && q.featureId.Some?)
              && (r.ByTypeNames? <==> !r.NotImplemented? && q.featureId.None? && q.typeName.Some?)
              && (r.Refused? <==> !r.NotImplemented? && q.featureId.None? && q.typeName.None?)
              && (r.Refused? ==> r.report == LegacyWfsException(MissingParameter, "typename", None))
  {
    ScanStopsAtFirstRejected(ps);
  }

  /** Any `bbox` parameter makes a request that passes the scan raise. */
  lemma BoxNotImplemented(ps: seq<Param>, i: nat)
    requires i < |ps| && Lower(ps[i].key) == "bbox"
    requires ScanParams(ps).Ok?
    ensures GetFeatureParams(ps) == NotImplemented
  {
    ScanSetsBox(ps, Initial, i);
  }

  /** A `bbox` key anywhere leaves a box in the state of a scan that goes
      through. */
  lemma {:induction false} ScanSetsBox(ps: seq<Param>, q: Request, i: nat)
    requires i < |ps| && Lower(ps[i].key) == "bbox"
    requires Fold(ps, q, StepFn()).Ok?
    ensures Fold(ps, q, StepFn()).value.bbox.Some?
    decreases |ps|
  {
    var q' := Step(ps[0], q).value;
    assert Fold(ps, q, StepFn()) == Fold(ps[1..], q', StepFn());
    if i == 0 {
      assert q'.bbox.Some?;
      BoxKept(ps[1..], q');
    } else {
      ScanSetsBox(ps[1..], q', i - 1);
    }
  }

  /** Once set, a box stays set. */
  lemma BoxKept(ps: seq<Param>, q: Request)
    requires q.bbox.Some? && Fold(ps, q, StepFn()).Ok?
    ensures Fold(ps, q, StepFn()).value.bbox.Some?
  {
    FoldKeeps(ps, q, StepFn(), HasBox);
  }

  function HasBox(q: Request): bool {
    q.bbox.Some?
  }

  // ---------------------------------------------------------------------
  // The feature ids
  // ---------------------------------------------------------------------

  /** How serving the ids can end early: with an exception report, or with
      the `ValueError` of `json.loads` on a type's stored query. The
      decoding sits outside the inner blanket `except`, and the outer one
      catches only `FeatureType.DoesNotExist`, so that error leaves the view
      unanswered. */
  datatype IdFault =
    | Reported(report: Report)
    | QueryNotJson(typeName: string)

  /** What goes wrong with one id, if anything, in the order the loop body
      meets it: the id does not split into a type name and an id, or names
      no feature type of the service (`InvalidParameterValue`); the type's
      stored query is not JSON (`decodes`), which escapes; the filtered
      query set does not yield the id, which the inner blanket `except`
      reports as a malformed query. */
  function IdProblem(feature: string, knownType: string -> bool, decodes: string -> bool,
                     found: (string, string) -> bool): Option<IdFault> {
    match LegacyFeatureFromParameter(feature)
    case None => Some(Reported(LegacyBadFeatureId(feature)))
    case Some((name, id)) =>
      if !knownType(name) then Some(Reported(LegacyBadFeatureId(feature)))
      else if !decodes(name) then Some(QueryNotJson(name))
      else if !found(name, id) then Some(Reported(LegacyWfsException(MalformedJSONQuery, "query", None)))
      else None
  }

  function HasProblem(knownType: string -> bool, decodes: string -> bool,
                      found: (string, string) -> bool): string -> bool {
    (feature: string) => IdProblem(feature, knownType, decodes, found).Some?
  }

  /** The loop over `featureid.split(",")`: the pairs of every id in order,
      or the fault of the first id that has one. */
  function FeaturesById(ids: seq<string>, knownType: string -> bool, decodes: string -> bool,
                        found: (string, string) -> bool)
    : (r: Result<seq<(string, string)>, IdFault>)
    ensures var k := FirstWhere(ids, HasProblem(knownType, decodes, found));
            && (r.Err? <==> k.Some?)
            && (k.Some? ==> r.error == IdProblem(ids[k.value], knownType, decodes, found).value)
    ensures r.Ok? ==> |r.value| == |ids|
    ensures r.Ok? ==> forall i :: 0 <= i < |ids| ==>
                        && LegacyFeatureFromParameter(ids[i]) == Some(r.value[i])
                        && knownType(r.value[i].0) && decodes(r.value[i].0)
                        && found(r.value[i].0, r.value[i].1)
    decreases |ids|
  {
    if |ids| == 0 then Ok([])
    else if IdProblem(ids[0], knownType, decodes, found).Some? then
      Err(IdProblem(ids[0], knownType, decodes, found).value)
    else
      var rest := FeaturesById(ids[1..], knownType, decodes, found);
      var k := FirstWhere(ids[1..], HasProblem(knownType, decodes, found));
      if k.Some? then
        assert ids[k.value + 1] == ids[1..][k.value];
        rest
      else
        assert forall i :: 1 <= i < |ids| ==> ids[i] == ids[1..][i - 1];
        Ok([LegacyFeatureFromParameter(ids[0]).value] + rest.value)
  }

  /** An id whose number the type's query does not yield is reported as a
      malformed query, not as a bad id. */
  lemma MissingIdIsMalformedQuery(name: string, id: string, knownType: string -> bool, decodes: string -> bool,
                                  found: (string, string) -> bool)
    requires '.' !in name && '.' !in id && knownType(name) && decodes(name) && !found(name, id)
    ensures FeaturesById([name + "." + id], knownType, decodes, found)
              == Err(Reported(LegacyWfsException(MalformedJSONQuery, "query", None)))
  {
    LegacyRoundTrip(name, id);
  }

  /** A known type whose stored query is not JSON ends the view with the
      decoding error, whether or not the id exists, and before any id that
      follows is read. */
  lemma UndecodableQueryEscapes(name: string, id: string, more: seq<string>, knownType: string -> bool,
                                decodes: string -> bool, found: (string, string) -> bool)
    requires '.' !in name && '.' !in id && knownType(name) && !decodes(name)
    ensures FeaturesById([name + "." + id] + more, knownType, decodes, found) == Err(QueryNotJson(name))
  {
    LegacyRoundTrip(name, id);
  }

  // ---------------------------------------------------------------------
  // The XML fragments
  // ---------------------------------------------------------------------

  /** A field of the model: its name and whether it is a geometry. */
  datatype Field = Field(name: string, isGeometry: bool)

  /** `len(ft.fields) == 0 or field.name in ft.fields.split(",")` */
  predicate Selected(fields: string, name: string) {
    |fields| == 0 || name in Split(fields, ',')
  }

  /** The fields `features_to_xml` writes an element for, in model order:
      the selected ones, the geometry only when the feature has GML. */
  function Emitted(fields: string, fs: seq<Field>, hasGml: bool): (r: seq<Field>)
    ensures forall f :: f in r <==> f in fs && Selected(fields, f.name) && (f.isGeometry ==> hasGml)
    ensures |r| <= |fs|
    decreases |fs|
  {
    if |fs| == 0 then []
    else
      var rest := Emitted(fields, fs[1..], hasGml);
      assert forall f :: f in fs <==> f == fs[0] || f in fs[1..];
      if Selected(fields, fs[0].name) && (fs[0].isGeometry ==> hasGml) then [fs[0]] + rest else rest
  }

  /** The element of one emitted field. */
  function Element(f: Field, valueOf: string -> string, gml: string): string {
    if f.isGeometry then "<geometry>" + gml + "</geometry>"
    else "<" + f.name + ">" + valueOf(f.name) + "</" + f.name + ">"
  }

  /** `feature.xml` as `features_to_xml` builds it, field by field; `gml`
      is `feature.gml`, absent or empty when the feature has none. */
  function FeatureXml(fields: string, fs: seq<Field>, valueOf: string -> string, gml: Option<string>): string
    decreases |fs|
  {
    if |fs| == 0 then ""
    else
      var f := fs[0];
      var piece :=
        if !Selected(fields, f.name) then ""
        else if f.isGeometry then (if gml.Some? && |gml.value| > 0 then Element(f, valueOf, gml.value) else "")
        else Element(f, valueOf, "");
      piece + FeatureXml(fields, fs[1..], valueOf, gml)
  }

  function Elements(fs: seq<Field>, valueOf: string -> string, gml: string): (r: seq<string>)
    ensures |r| == |fs|
  {
    seq(|fs|, i requires 0 <= i < |fs| => Element(fs[i], valueOf, gml))
  }

  predicate HasGml(gml: Option<string>) {
    gml.Some? && |gml.value| > 0
  }

  /** The fragment is the elements of the emitted fields, one after the
      other. */
  lemma {:induction false} FeatureXmlOfEmitted(fields: string, fs: seq<Field>, valueOf: string -> string, gml: Option<string>)
    ensures FeatureXml(fields, fs, valueOf, gml)
              == Concat(Elements(Emitted(fields, fs, HasGml(gml)), valueOf, if HasGml(gml) then gml.value else ""))
    decreases |fs|
  {
    if |fs| > 0 {
      FeatureXmlOfEmitted(fields, fs[1..], valueOf, gml);
      var g := if HasGml(gml) then gml.value else "";
      var rest := Emitted(fields, fs[1..], HasGml(gml));
      ElementsCons(fs[0], rest, valueOf, g);
    }
  }

  lemma ElementsCons(f: Field, rest: seq<Field>, valueOf: string -> string, gml: string)
    ensures Concat(Elements([f] + rest, valueOf, gml)) == Element(f, valueOf, gml) + Concat(Elements(rest, valueOf, gml))
  {
    var e := Elements([f] + rest, valueOf, gml);
    assert e == [Element(f, valueOf, gml)] + Elements(rest, valueOf, gml);
  }

  /** With no field list every field of the model is written, and without
      GML never the geometry. */
  lemma {:induction false} EmptyListEmitsAll(fs: seq<Field>)
    ensures Emitted("", fs, true) == fs
    decreases |fs|
  {
    if |fs| > 0 {
      EmptyListEmitsAll(fs[1..]);
    }
  }

  lemma NoGmlNoGeometry(fields: string, fs: seq<Field>)
    ensures forall f :: f in Emitted(fields, fs, false) ==> !f.isGeometry
  {
  }

  /** One element declaration of the schema. */
  function Declaration(f: Field): string {
    "<element name=\"" + (if f.isGeometry then "geometry\" type=\"gml:PointPropertyType\"/>" else f.name + "\" type=\"string\"/>")
  }

  /** `ft.xml` as `featuretype_to_xml` builds it: an element declaration
      for every selected field, the geometry as a GML point property. */
  function SchemaXml(fields: string, fs: seq<Field>): string
    decreases |fs|
  {
    if |fs| == 0 then ""
    else (if Selected(fields, fs[0].name) then Declaration(fs[0]) else "") + SchemaXml(fields, fs[1..])
  }

  function Declarations(fs: seq<Field>): (r: seq<string>)
    ensures |r| == |fs|
  {
    seq(|fs|, i requires 0 <= i < |fs| => Declaration(fs[i]))
  }

  /** The schema declares exactly the selected fields, geometry included
      whatever a feature holds. */
  lemma {:induction false} SchemaXmlOfSelected(fields: string, fs: seq<Field>)
    ensures SchemaXml(fields, fs) == Concat(Declarations(Emitted(fields, fs, true)))
    decreases |fs|
  {
    if |fs| > 0 {
      SchemaXmlOfSelected(fields, fs[1..]);
      DeclarationsCons(fs[0], Emitted(fields, fs[1..], true));
    }
  }

  lemma DeclarationsCons(f: Field, rest: seq<Field>)
    ensures Concat(Declarations([f] + rest)) == Declaration(f) + Concat(Declarations(rest))
  {
    assert Declarations([f] + rest) == [Declaration(f)] + Declarations(rest);
  }
}
