/** The parameter scan of `getfeature` in wfs/views.py, up to the point
    where the request turns into database work.

    Every parameter is looked at once, in the order the query dictionary
    yields them, key and value lower-cased; a bad `maxfeatures`,
    `resolution`, `precision`, `bbox`, `srsname` or `outputformat` value is
    reported at once. After the scan the unsupported parameters raise, and
    the request is served by feature ids, else by type names, else refused.
    Decimal numbers are parsed by an oracle `number` standing for Python's
    `float()`; the geometry of the bounding box is kept as its four corners
    and its SRID. */
module FeatureRequest {
  import opened Wrappers
  import opened Strings
  import opened Exceptions
  import C = Crs
  import D = Dispatch
  import opened ParamScan

  datatype OutputFormat = JsonOutput | XmlOutput

  /** `ALL_JSON_OUTPUT_FORMATS` and `ALL_XML_OUTPUT_FORMATS` */
  const JsonFormats: seq<string> := ["application/json", "json"]
  const XmlFormats: seq<string> := ["application/gml+xml", "application/xml", "text/xml", "xml", "gml"]

  /** `Polygon.from_bbox(...)` after `set_srid`. */
  datatype Box = Box(minx: real, miny: real, maxx: real, maxy: real, srid: int)

  /** The local variables of `getfeature` after the scan. */
  datatype Request = Request(
    propertyName: Option<string>,
    featureVersion: Option<string>,
    maxFeatures: Option<int>,
    typeName: Option<string>,
    featureId: Option<string>,
    filter: Option<string>,
    resolution: Option<real>,
    precision: Option<real>,
    bbox: Option<Box>,
    bboxHasCrs: bool,
    crs: C.Crs,
    outputFormat: Option<OutputFormat>)

  /** Nothing given yet; the CRS falls back to WGS84. */
  const Initial: Request := Request(None, None, None, None, None, None, None, None, None, false, C.Wgs84, None)

  // ---------------------------------------------------------------------
  // The bounding box
  // ---------------------------------------------------------------------

  /** Four corner values, or five with a CRS, the latter not in WFS 1.0.0. */
  predicate BoxArityOk(n: nat, version: string) {
    n == 4 || (version != "1.0.0" && n == 5)
  }

  /** The CRS a bounding box is given in: its fifth value, else the
      request's CRS so far. */
  function BoxCrs(values: seq<string>, current: C.Crs): Result<C.Crs, C.CrsError> {
    if |values| == 5 then C.Parse(C.FromUri(values[4])) else Ok(current)
  }

  /** The box `minx,miny,maxx,maxy[,crs]`; a box given in CRS84 has
      latitude first and is turned round into WGS84. */
  function ParseBox(values: seq<string>, current: C.Crs, number: string -> Option<real>): (r: Option<Box>)
    requires |values| == 4 || |values| == 5
  {
    match BoxCrs(values, current)
    case Err(_) => None
    case Ok(c) =>
      var swap := c.crsid == C.Crs84;
      var x0, y0, x1, y1 := number(values[0]), number(values[1]), number(values[2]), number(values[3]);
      if x0.None? || y0.None? || x1.None? || y1.None? then None
      else if swap then Some(Box(y0.value, x0.value, y1.value, x1.value, C.Wgs84Srid))
      else Some(Box(x0.value, y0.value, x1.value, y1.value, c.srid))
  }

  /** A box is refused for its own values, whatever the request's CRS. */
  predicate BoxRejected(values: seq<string>, number: string -> Option<real>)
    requires |values| == 4 || |values| == 5
  {
    || (|values| == 5 && C.Parse(C.FromUri(values[4])).Err?)
    || number(values[0]).None? || number(values[1]).None?
    || number(values[2]).None? || number(values[3]).None?
  }

  lemma ParseBoxFails(values: seq<string>, current: C.Crs, number: string -> Option<real>)
    requires |values| == 4 || |values| == 5
    ensures ParseBox(values, current, number).None? <==> BoxRejected(values, number)
  {
  }

  // ---------------------------------------------------------------------
  // One parameter
  // ---------------------------------------------------------------------

  /** `srsname`: a CRS84 request is served in WGS84. */
  function RequestCrs(c: C.Crs): (r: C.Crs)
    ensures r.crsid != C.Crs84
  {
    if c.crsid == C.Crs84 then C.Wgs84 else c
  }

  /** The output format family of a lower-cased value. */
  function FormatOf(v: string): Option<OutputFormat> {
    if v in JsonFormats then Some(JsonOutput)
    else if v in XmlFormats then Some(XmlOutput)
    else None
  }

  function Invalid(locator: string, value: string): Fault {
    Fault(InvalidParameterValue, locator, Some(value))
  }

  /** One parameter of the scan. A bad `srsname` is reported under the
      locator `maxfeatures`, as the service does. */
  function Step(p: Param, q: Request, version: string, number: string -> Option<real>): Result<Request, Fault> {
    var k := Lower(p.key);
    var v := Lower(p.value);
    if k == "propertyname" then Ok(q.(propertyName := Some(v)))
    else if k == "featureversion" then Ok(q.(featureVersion := Some(v)))
    else if k == "maxfeatures" then
      match ParseInt(v)
      case None => Err(Invalid("maxfeatures", p.value))
      case Some(n) => if n < 1 then Err(Invalid("maxfeatures", p.value)) else Ok(q.(maxFeatures := Some(n)))
    else if k == "typename" then Ok(q.(typeName := Some(v)))
    else if k == "featureid" then Ok(q.(featureId := Some(v)))
    else if k == "filter" then Ok(q.(filter := Some(v)))
    else if k == "resolution" then
      match number(v)
      case None => Err(Invalid("resolution", p.value))
      case Some(x) => Ok(q.(resolution := Some(x)))
    else if k == "precision" then
      match number(v)
      case None => Err(Invalid("precision", p.value))
      case Some(x) => Ok(q.(precision := Some(x)))
    else if k == "bbox" then
      var values := Split(v, ',');
      if !BoxArityOk(|values|, version) then Err(Invalid("bbox", p.value))
      else match ParseBox(values, q.crs, number)
        case None => Err(Invalid("bbox", p.value))
        case Some(b) => Ok(q.(bbox := Some(b), bboxHasCrs := |values| == 5))
    else if k == "srsname" then
      match C.Parse(C.FromUri(v))
      case Err(_) => Err(Invalid("maxfeatures", p.value))
      case Ok(c) =>
        var crs := RequestCrs(c);
        var bbox := if q.bbox.Some? && !q.bboxHasCrs then Some(q.bbox.value.(srid := crs.srid)) else q.bbox;
        Ok(q.(crs := crs, bbox := bbox))
    else if k == "outputformat" then
      match FormatOf(v)
      case None => Err(Invalid("outputformat", p.value))
      case Some(f) => Ok(q.(outputFormat := Some(f)))
    else Ok(q)
  }

  /** What every state of the scan keeps: the request CRS is never CRS84,
      a box without a CRS of its own is in the request CRS, and a box with
      one is present. */
  predicate Consistent(q: Request) {
    && q.crs.crsid != C.Crs84
    && (q.bbox.Some? && !q.bboxHasCrs ==> q.bbox.value.srid == q.crs.srid)
    && (q.bboxHasCrs ==> q.bbox.Some?)
  }

  lemma InitialConsistent()
    ensures Consistent(Initial)
  {
    assert C.Wgs84.crsid == "4326";
  }

  function StepFn(version: string, number: string -> Option<real>): (Param, Request) -> Result<Request, Fault> {
    (p: Param, q: Request) => Step(p, q, version, number)
  }

  /** The scan, stopping at the first fault. */
  function ScanParams(ps: seq<Param>, q: Request, version: string, number: string -> Option<real>): Result<Request, Fault> {
    Fold(ps, q, StepFn(version, number))
  }

  /** A scan that goes through ends in a consistent state. */
  lemma ScanConsistent(ps: seq<Param>, version: string, number: string -> Option<real>)
    ensures ScanParams(ps, Initial, version, number).Ok? ==> Consistent(ScanParams(ps, Initial, version, number).value)
  {
    InitialConsistent();
    forall p, t ensures Consistent(t) && StepFn(version, number)(p, t).Ok? ==> Consistent(StepFn(version, number)(p, t).value) {
      StepConsistent(p, t, version, number);
    }
    FoldKeeps(ps, Initial, StepFn(version, number), Consistent);
  }

  lemma StepConsistent(p: Param, q: Request, version: string, number: string -> Option<real>)
    ensures Consistent(q) && Step(p, q, version, number).Ok? ==> Consistent(Step(p, q, version, number).value)
  {
    if Consistent(q) && Lower(p.key) == "bbox" {
      var values := Split(Lower(p.value), ',');
      StepOfBox(p, q, version, number, values);
      if |values| == 4 {
        ParseBoxInRequestCrs(values, q.crs, number);
      }
    }
  }

  /** A box of four values is in the request's CRS. */
  lemma ParseBoxInRequestCrs(values: seq<string>, current: C.Crs, number: string -> Option<real>)
    requires |values| == 4 && current.crsid != C.Crs84
    ensures ParseBox(values, current, number).Some? ==> ParseBox(values, current, number).value.srid == current.srid
  {
  }

  // ---------------------------------------------------------------------
  // Reference reading of the scan
  // ---------------------------------------------------------------------

  /** A parameter the scan refuses, whatever came before it. */
  predicate Rejected(p: Param, version: string, number: string -> Option<real>) {
    var k := Lower(p.key);
    var v := Lower(p.value);
    || (k == "maxfeatures" && (ParseInt(v).None? || ParseInt(v).value < 1))
    || ((k == "resolution" || k == "precision") && number(v).None?)
    || (k == "bbox" && var values := Split(v, ',');
                       !BoxArityOk(|values|, version) || BoxRejected(values, number))
    || (k == "srsname" && C.Parse(C.FromUri(v)).Err?)
    || (k == "outputformat" && FormatOf(v).None?)
  }

  /** The locator a refused parameter is reported under. */
  function LocatorOf(key: string): string {
    var k := Lower(key);
    if k == "srsname" then "maxfeatures" else k
  }

  function RejectedFn(version: string, number: string -> Option<real>): Param -> bool {
    (p: Param) => Rejected(p, version, number)
  }

  /** The fault a refused parameter is reported with. */
  function FaultOf(p: Param): Fault {
    Invalid(LocatorOf(p.key), p.value)
  }

  function FirstRejected(ps: seq<Param>, version: string, number: string -> Option<real>): (r: Option<nat>)
    ensures r.Some? ==> r.value < |ps| && Rejected(ps[r.value], version, number)
    ensures forall j :: 0 <= j < (if r.Some? then r.value else |ps|) ==> !Rejected(ps[j], version, number)
  {
    FirstWhere(ps, RejectedFn(version, number))
  }

  lemma StepRejects(p: Param, q: Request, version: string, number: string -> Option<real>)
    ensures Step(p, q, version, number).Err? <==> Rejected(p, version, number)
    ensures Rejected(p, version, number) ==> Step(p, q, version, number).error == FaultOf(p)
  {
    var k := Lower(p.key);
    if k == "bbox" {
      var values := Split(Lower(p.value), ',');
      StepOfBox(p, q, version, number, values);
      if BoxArityOk(|values|, version) {
        ParseBoxFails(values, q.crs, number);
      }
    } else if k == "srsname" {
      assert Step(p, q, version, number).Err? <==> C.Parse(C.FromUri(Lower(p.value))).Err?;
    }
  }

  /** The first refused parameter in scan order is the one reported. */
  lemma ScanStopsAtFirstRejected(ps: seq<Param>, q: Request, version: string, number: string -> Option<real>)
    ensures ScanParams(ps, q, version, number).Err? <==> FirstRejected(ps, version, number).Some?
    ensures FirstRejected(ps, version, number).Some? ==>
              ScanParams(ps, q, version, number).error == FaultOf(ps[FirstRejected(ps, version, number).value])
  {
    forall p, t ensures StepFn(version, number)(p, t).Err? <==> RejectedFn(version, number)(p) {
      StepRejects(p, t, version, number);
    }
    forall p, t ensures StepFn(version, number)(p, t).Err? ==> StepFn(version, number)(p, t).error == FaultOf(p) {
      StepRejects(p, t, version, number);
    }
    FoldStopsAtFirst(ps, q, StepFn(version, number), RejectedFn(version, number), FaultOf);
  }

  // ---------------------------------------------------------------------
  // Single parameters
  // ---------------------------------------------------------------------

  /** `maxfeatures` is accepted exactly when it is an integer of at least 1. */
  lemma MaxFeaturesAccepted(p: Param, q: Request, version: string, number: string -> Option<real>)
    requires Lower(p.key) == "maxfeatures"
    ensures Step(p, q, version, number).Ok? <==> ParseInt(Lower(p.value)).Some? && ParseInt(Lower(p.value)).value >= 1
    ensures Step(p, q, version, number).Ok? ==> Step(p, q, version, number).value.maxFeatures == ParseInt(Lower(p.value))
  {
  }

  /** `outputformat` is accepted exactly when it names one of the two
      families, and picks that family. */
  lemma OutputFormatAccepted(p: Param, q: Request, version: string, number: string -> Option<real>)
    requires Lower(p.key) == "outputformat"
    ensures Step(p, q, version, number).Ok? <==> Lower(p.value) in JsonFormats + XmlFormats
    ensures Step(p, q, version, number).Ok? ==>
              (Step(p, q, version, number).value.outputFormat == Some(JsonOutput) <==> Lower(p.value) in JsonFormats)
  {
  }

  /** A bounding box of the wrong number of values is refused: five values
      only from WFS 1.1.0 on. */
  lemma BoxArity(p: Param, q: Request, version: string, number: string -> Option<real>)
    requires Lower(p.key) == "bbox"
    ensures !BoxArityOk(|Split(Lower(p.value), ',')|, version) ==>
              Step(p, q, version, number) == Err(Invalid("bbox", p.value))
    ensures version == "1.0.0" && |Split(Lower(p.value), ',')| == 5 ==> Step(p, q, version, number).Err?
  {
  }

  /** A box given in CRS84 is turned round into WGS84 longitude/latitude. */
  lemma BoxInCrs84Swapped(p: Param, q: Request, version: string, number: string -> Option<real>, c: C.Crs)
    requires Lower(p.key) == "bbox" && version != "1.0.0"
    requires var values := Split(Lower(p.value), ',');
             && |values| == 5
             && C.Parse(C.FromUri(values[4])) == Ok(c) && c.crsid == C.Crs84
             && number(values[0]).Some? && number(values[1]).Some?
             && number(values[2]).Some? && number(values[3]).Some?
    ensures var values := Split(Lower(p.value), ',');
            var r := Step(p, q, version, number);
            && r.Ok? && r.value.bboxHasCrs
            && r.value.bbox == Some(Box(number(values[1]).value, number(values[0]).value,
                                        number(values[3]).value, number(values[2]).value, 4326))
  {
    var values := Split(Lower(p.value), ',');
    ParseBoxSwapped(values, q.crs, number, c);
    StepOfBox(p, q, version, number, values);
  }

  lemma ParseBoxSwapped(values: seq<string>, current: C.Crs, number: string -> Option<real>, c: C.Crs)
    requires |values| == 5 && C.Parse(C.FromUri(values[4])) == Ok(c) && c.crsid == C.Crs84
    requires number(values[0]).Some? && number(values[1]).Some?
    requires number(values[2]).Some? && number(values[3]).Some?
    ensures ParseBox(values, current, number) == Some(Box(number(values[1]).value, number(values[0]).value,
                                                          number(values[3]).value, number(values[2]).value, 4326))
  {
  }

  /** The `bbox` branch of a step. */
  lemma StepOfBox(p: Param, q: Request, version: string, number: string -> Option<real>, values: seq<string>)
    requires Lower(p.key) == "bbox" && values == Split(Lower(p.value), ',')
    ensures Step(p, q, version, number)
            == if !BoxArityOk(|values|, version) then Err(Invalid("bbox", p.value))
               else match ParseBox(values, q.crs, number)
                 case None => Err(Invalid("bbox", p.value))
                 case Some(b) => Ok(q.(bbox := Some(b), bboxHasCrs := |values| == 5))
  {
  }

  /** A box in any other CRS keeps its axis order and takes that CRS's
      SRID; without a fifth value, the request's CRS. */
  lemma BoxKeepsOrder(p: Param, q: Request, version: string, number: string -> Option<real>, c: C.Crs)
    requires Lower(p.key) == "bbox"
    requires var values := Split(Lower(p.value), ',');
             && BoxArityOk(|values|, version)
             && BoxCrs(values, q.crs) == Ok(c) && c.crsid != C.Crs84
             && number(values[0]).Some? && number(values[1]).Some?
             && number(values[2]).Some? && number(values[3]).Some?
    ensures var values := Split(Lower(p.value), ',');
            var r := Step(p, q, version, number);
            && r.Ok? && (r.value.bboxHasCrs <==> |values| == 5)
            && r.value.bbox == Some(Box(number(values[0]).value, number(values[1]).value,
                                        number(values[2]).value, number(values[3]).value, c.srid))
  {
  }

  // ---------------------------------------------------------------------
  // After the scan
  // ---------------------------------------------------------------------

  /** How `getfeature` goes on: refused with a report, raising
      `NotImplementedError`, or served by feature ids or by type names. */
  datatype Outcome =
    | Refused(report: Report)
    | NotImplemented
    | ByFeatureIds(ids: seq<string>, request: Request)
    | ByTypeNames(names: seq<string>, request: Request)

  function GetFeatureParams(version: string, ps: seq<Param>, number: string -> Option<real>): (r: Outcome)
    ensures r.ByFeatureIds? || r.ByTypeNames? ==> Consistent(r.request) && r.request.crs.crsid != C.Crs84
  {
    ScanConsistent(ps, version, number);
    match ScanParams(ps, Initial, version, number)
    case Err(f) => Refused(D.Raise(f))
    case Ok(q) =>
      if q.propertyName.Some? || q.featureVersion.Some? || q.filter.Some? then NotImplemented
      else if q.featureId.Some? then ByFeatureIds(Split(q.featureId.value, ','), q)
      else if q.typeName.Some? then ByTypeNames(Split(q.typeName.value, ','), q)
      else Refused(WfsException(MissingParameter, "typename", None))
  }

  /** The unsupported parameters raise before feature ids or type names
      are looked at; feature ids win over type names; with neither the
      type name is reported missing. */
  lemma OutcomeOrder(version: string, ps: seq<Param>, number: string -> Option<real>)
    requires ScanParams(ps, Initial, version, number).Ok?
    ensures var q := ScanParams(ps, Initial, version, number).value;
            var r := GetFeatureParams(version, ps, number);
            && (q.propertyName.Some? || q.featureVersion.Some? || q.filter.Some? <==> r.NotImplemented?)
            && (r.ByFeatureIds? <==> !r.NotImplemented? && q.featureId.Some?)
            && (r.ByTypeNames? <==> !r.NotImplemented? && q.featureId.None? && q.typeName.Some?)
            && (r.Refused? <==> !r.NotImplemented? && q.featureId.None? && q.typeName.None?)
            && (r.Refused? ==> r.report == WfsException(MissingParameter, "typename", None))
  {
  }

  /** A request served is in the CRS of its box when the box carries none,
      whatever order `bbox` and `srsname` came in. */
  lemma BoxFollowsRequestCrs(version: string, ps: seq<Param>, number: string -> Option<real>)
    requires GetFeatureParams(version, ps, number).ByFeatureIds? || GetFeatureParams(version, ps, number).ByTypeNames?
    ensures var q := GetFeatureParams(version, ps, number).request;
            q.bbox.Some? && !q.bboxHasCrs ==> q.bbox.value.srid == q.crs.srid
  {
  }

  /** A refused parameter is reported as `InvalidParameterValue` with its
      value as given. */
  lemma FirstRefusalReported(version: string, ps: seq<Param>, number: string -> Option<real>, i: nat)
    requires FirstRejected(ps, version, number) == Some(i)
    ensures GetFeatureParams(version, ps, number)
            == Refused(WfsException(InvalidParameterValue, LocatorOf(ps[i].key), Some(ps[i].value)))
  {
    ScanStopsAtFirstRejected(ps, Initial, version, number);
  }

  /** The output is GeoJSON exactly when a JSON format was asked for;
      otherwise, asked for or not, it is GML. */
  predicate RendersJson(q: Request) {
    q.outputFormat == Some(JsonOutput)
  }
}
