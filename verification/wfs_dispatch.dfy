/** The request dispatcher, `global_handler` in wfs/views.py and in its
    older revision views.py.

    A request names its service by id in the path and carries its
    key-value parameters. The service is looked up first; then every
    parameter is scanned once, in the order the query dictionary yields
    them, keys compared lower-cased; `request`, `version` and `service`
    values are checked as they are met and the first bad one is reported.
    After the scan a missing `request` is reported before a missing
    `service`, and otherwise the request goes to its operation. The
    parameters are given as the (key, value) pairs `request.GET.items()`
    yields, so one value per distinct key, in that order; the service
    lookup is given as its outcome. */
module Dispatch {
  import opened Wrappers
  import opened Strings
  import opened Exceptions
  import opened ParamScan

  datatype Operation = GetCapabilities | DescribeFeatureType | GetFeature

  /** What the scan has collected so far. */
  datatype Scan = Scan(requestType: Option<string>, service: Option<string>, version: string)

  /** The version assumed when the request names none. */
  const DefaultVersion: string := "1.1.0"

  const InitialScan: Scan := Scan(None, None, DefaultVersion)

  predicate IsRequest(v: string) {
    v == "getcapabilities" || v == "describefeaturetype" || v == "getfeature"
  }

  predicate IsService(v: string) {
    v == "wfs"
  }

  /** The version check of wfs/views.py: one of two exact texts. */
  predicate VersionOk(v: string) {
    v == "1.0.0" || v == "1.1.0"
  }

  /** The version check of views.py: `map(int, value.split("."))` succeeds
      and gives three numbers. */
  predicate LegacyVersionOk(v: string) {
    var parts := Split(v, '.');
    |parts| == 3 && ParseInt(parts[0]).Some? && ParseInt(parts[1]).Some? && ParseInt(parts[2]).Some?
  }

  // ---------------------------------------------------------------------
  // The scan
  // ---------------------------------------------------------------------

  /** One parameter of the scan. A bad request value is reported as given,
      a bad service value lower-cased. */
  function Step(p: Param, st: Scan, versionOk: string -> bool): Result<Scan, Fault> {
    var k := Lower(p.key);
    var v := Lower(p.value);
    if k == "request" then
      if IsRequest(v) then Ok(st.(requestType := Some(v)))
      else Err(Fault(InvalidRequest, "request", Some(p.value)))
    else if k == "version" then
      if versionOk(p.value) then Ok(st.(version := p.value))
      else Err(Fault(VersionNegotiationFailed, "version", Some(p.value)))
    else if k == "service" then
      if IsService(v) then Ok(st.(service := Some(v)))
      else Err(Fault(InvalidService, "service", Some(v)))
    else Ok(st)
  }

  function StepFn(versionOk: string -> bool): (Param, Scan) -> Result<Scan, Fault> {
    (p: Param, st: Scan) => Step(p, st, versionOk)
  }

  /** The scan state's version passes the check. */
  function VersionIn(versionOk: string -> bool): Scan -> bool {
    (st: Scan) => versionOk(st.version)
  }

  /** The scan over the parameters in order, stopping at the first fault. */
  function ScanParams(ps: seq<Param>, st: Scan, versionOk: string -> bool): Result<Scan, Fault> {
    Fold(ps, st, StepFn(versionOk))
  }

  // ---------------------------------------------------------------------
  // Reference reading of the scan
  // ---------------------------------------------------------------------

  /** A parameter the scan rejects, whatever came before it. */
  predicate Rejected(p: Param, versionOk: string -> bool) {
    var k := Lower(p.key);
    || (k == "request" && !IsRequest(Lower(p.value)))
    || (k == "version" && !versionOk(p.value))
    || (k == "service" && !IsService(Lower(p.value)))
  }

  /** The fault a rejected parameter is reported with. */
  function FaultOf(p: Param): Fault {
    var k := Lower(p.key);
    if k == "request" then Fault(InvalidRequest, "request", Some(p.value))
    else if k == "version" then Fault(VersionNegotiationFailed, "version", Some(p.value))
    else Fault(InvalidService, "service", Some(Lower(p.value)))
  }

  function RejectedFn(versionOk: string -> bool): Param -> bool {
    (p: Param) => Rejected(p, versionOk)
  }

  /** The position of the first rejected parameter. */
  function FirstRejected(ps: seq<Param>, versionOk: string -> bool): (r: Option<nat>)
    ensures r.Some? ==> r.value < |ps| && Rejected(ps[r.value], versionOk)
    ensures forall j :: 0 <= j < (if r.Some? then r.value else |ps|) ==> !Rejected(ps[j], versionOk)
  {
    FirstWhere(ps, RejectedFn(versionOk))
  }

  /** The value of the last parameter whose lower-cased key is `name`. */
  function LastValue(ps: seq<Param>, name: string): (r: Option<string>)
    ensures r.None? <==> forall j :: 0 <= j < |ps| ==> Lower(ps[j].key) != name
    ensures r.Some? ==> exists j :: 0 <= j < |ps| && Lower(ps[j].key) == name && ps[j].value == r.value
    decreases |ps|
  {
    if |ps| == 0 then None
    else
      var rest := LastValue(ps[1..], name);
      if rest.Some? then
        ghost var j :| 0 <= j < |ps[1..]| && Lower(ps[1..][j].key) == name && ps[1..][j].value == rest.value;
        assert ps[j + 1] == ps[1..][j];
        rest
      else if Lower(ps[0].key) == name then Some(ps[0].value)
      else
        assert forall j :: 1 <= j < |ps| ==> ps[j] == ps[1..][j - 1];
        None
  }

  function LowerOpt(o: Option<string>): Option<string> {
    match o
    case None => None
    case Some(s) => Some(Lower(s))
  }

  function OrElse<T>(o: Option<T>, d: T): T {
    if o.Some? then o.value else d
  }

  function OrElseOpt<T>(o: Option<T>, d: Option<T>): Option<T> {
    if o.Some? then o else d
  }

  /** The scan stops at the first rejected parameter and reports it. */
  lemma ScanStopsAtFirstRejected(ps: seq<Param>, st: Scan, versionOk: string -> bool)
    ensures ScanParams(ps, st, versionOk).Err? <==> FirstRejected(ps, versionOk).Some?
    ensures FirstRejected(ps, versionOk).Some? ==>
              ScanParams(ps, st, versionOk).error == FaultOf(ps[FirstRejected(ps, versionOk).value])
  {
    forall p, t ensures StepFn(versionOk)(p, t).Err? <==> RejectedFn(versionOk)(p) {
      StepRejects(p, t, versionOk);
    }
    forall p, t ensures StepFn(versionOk)(p, t).Err? ==> StepFn(versionOk)(p, t).error == FaultOf(p) {
      StepRejects(p, t, versionOk);
    }
    FoldStopsAtFirst(ps, st, StepFn(versionOk), RejectedFn(versionOk), FaultOf);
  }

  /** One step fails exactly on a rejected parameter, with its fault. */
  lemma StepRejects(p: Param, st: Scan, versionOk: string -> bool)
    ensures Step(p, st, versionOk).Err? <==> Rejected(p, versionOk)
    ensures Rejected(p, versionOk) ==> Step(p, st, versionOk).error == FaultOf(p)
  {
  }

  /** A scan without fault leaves the lower-cased last request and service
      values and the last version value given, over what was there. */
  lemma {:induction false} ScanCollectsLastValues(ps: seq<Param>, st: Scan, versionOk: string -> bool)
    requires FirstRejected(ps, versionOk).None?
    ensures ScanParams(ps, st, versionOk)
            == Ok(Scan(OrElseOpt(LowerOpt(LastValue(ps, "request")), st.requestType),
                       OrElseOpt(LowerOpt(LastValue(ps, "service")), st.service),
                       OrElse(LastValue(ps, "version"), st.version)))
    decreases |ps|
  {
    if |ps| > 0 {
      assert !Rejected(ps[0], versionOk);
      var st' := Step(ps[0], st, versionOk).value;
      assert FirstRejected(ps[1..], versionOk).None?;
      ScanCollectsLastValues(ps[1..], st', versionOk);
    }
  }

  /** Keys are compared lower-cased: parameters whose keys differ only in
      case scan alike. */
  lemma ScanIgnoresKeyCase(ps: seq<Param>, qs: seq<Param>, st: Scan, versionOk: string -> bool)
    requires |ps| == |qs|
    requires forall i :: 0 <= i < |ps| ==> Lower(ps[i].key) == Lower(qs[i].key) && ps[i].value == qs[i].value
    ensures ScanParams(ps, st, versionOk) == ScanParams(qs, st, versionOk)
  {
    forall i, t | 0 <= i < |ps| ensures StepFn(versionOk)(ps[i], t) == StepFn(versionOk)(qs[i], t) {
      assert Step(ps[i], t, versionOk) == Step(qs[i], t, versionOk);
    }
    FoldAlike(ps, qs, st, StepFn(versionOk));
  }

  // ---------------------------------------------------------------------
  // The handlers
  // ---------------------------------------------------------------------

  function Route(requestType: string): Option<Operation> {
    if requestType == "getcapabilities" then Some(GetCapabilities)
    else if requestType == "describefeaturetype" then Some(DescribeFeatureType)
    else if requestType == "getfeature" then Some(GetFeature)
    else None
  }

  function Raise(f: Fault): Report {
    WfsException(f.code, f.locator, f.parameter)
  }

  /** `global_handler(request, service_id)` of wfs/views.py: the operation
      to run and the protocol version it runs under, or the report. */
  function GlobalHandler(serviceExists: bool, serviceId: string, ps: seq<Param>): (r: Result<(Operation, string), Report>)
    ensures r.Ok? ==> VersionOk(r.value.1)
  {
    if !serviceExists then Err(WfsException(UnknownService, "", Some(serviceId)))
    else
      FoldKeeps(ps, InitialScan, StepFn(VersionOk), VersionIn(VersionOk));
      match ScanParams(ps, InitialScan, VersionOk)
      case Err(f) => Err(Raise(f))
      case Ok(st) =>
        if st.requestType.None? then Err(WfsException(MissingParameter, "request", None))
        else if st.service.None? then Err(WfsException(MissingParameter, "service", None))
        else match Route(st.requestType.value)
          case Some(op) => Ok((op, st.version))
          case None => Err(WfsException(UnknownError, "", None))
  }

  /** An unknown service is reported before any parameter is looked at. */
  lemma UnknownServiceFirst(serviceId: string, ps: seq<Param>)
    ensures GlobalHandler(false, serviceId, ps) == Err(Report(UnknownService, "", ExceptionText(UnknownService, "", Some(serviceId))))
  {
  }

  /** The first bad request, version or service value in scan order is the
      one reported. */
  lemma FirstBadValueReported(serviceId: string, ps: seq<Param>, i: nat)
    requires FirstRejected(ps, VersionOk) == Some(i)
    ensures GlobalHandler(true, serviceId, ps) == Err(Raise(FaultOf(ps[i])))
  {
    ScanStopsAtFirstRejected(ps, InitialScan, VersionOk);
  }

  /** Without a bad value, a missing request is reported first, then a
      missing service; otherwise the operation named by the last request
      value runs, under the last version given or 1.1.0. The fallback
      `UnknownError` is never reached. */
  lemma ScanOutcome(serviceId: string, ps: seq<Param>)
    requires FirstRejected(ps, VersionOk).None?
    ensures LastValue(ps, "request").None? ==>
              GlobalHandler(true, serviceId, ps) == Err(WfsException(MissingParameter, "request", None))
    ensures LastValue(ps, "request").Some? && LastValue(ps, "service").None? ==>
              GlobalHandler(true, serviceId, ps) == Err(WfsException(MissingParameter, "service", None))
    ensures LastValue(ps, "request").Some? && LastValue(ps, "service").Some? ==>
              GlobalHandler(true, serviceId, ps).Ok?
              && Some(GlobalHandler(true, serviceId, ps).value.0) == Route(Lower(LastValue(ps, "request").value))
              && GlobalHandler(true, serviceId, ps).value.1 == OrElse(LastValue(ps, "version"), DefaultVersion)
  {
    ScanCollectsLastValues(ps, InitialScan, VersionOk);
    var st := ScanParams(ps, InitialScan, VersionOk).value;
    HandlerOfScan(serviceId, ps, st);
    var req := LastValue(ps, "request");
    if req.Some? {
      var j :| 0 <= j < |ps| && Lower(ps[j].key) == "request" && ps[j].value == req.value;
      assert !Rejected(ps[j], VersionOk);
      RouteOfRequest(Lower(req.value));
    }
  }

  /** The handler after a scan that went through. */
  lemma HandlerOfScan(serviceId: string, ps: seq<Param>, st: Scan)
    requires ScanParams(ps, InitialScan, VersionOk) == Ok(st)
    ensures GlobalHandler(true, serviceId, ps)
            == if st.requestType.None? then Err(WfsException(MissingParameter, "request", None))
               else if st.service.None? then Err(WfsException(MissingParameter, "service", None))
               else match Route(st.requestType.value)
                 case Some(op) => Ok((op, st.version))
                 case None => Err(WfsException(UnknownError, "", None))
  {
  }

  /** Every accepted request value names an operation. */
  lemma RouteOfRequest(v: string)
    requires IsRequest(v)
    ensures Route(v).Some?
  {
  }

  /** The handler's answer does not depend on the case of the keys. */
  lemma HandlerIgnoresKeyCase(serviceExists: bool, serviceId: string, ps: seq<Param>, qs: seq<Param>)
    requires |ps| == |qs|
    requires forall i :: 0 <= i < |ps| ==> Lower(ps[i].key) == Lower(qs[i].key) && ps[i].value == qs[i].value
    ensures GlobalHandler(serviceExists, serviceId, ps) == GlobalHandler(serviceExists, serviceId, qs)
  {
    ScanIgnoresKeyCase(ps, qs, InitialScan, VersionOk);
  }

  // ---------------------------------------------------------------------
  // The older revision (views.py)
  // ---------------------------------------------------------------------

  function LegacyRaise(f: Fault): Report {
    LegacyWfsException(f.code, f.locator, f.parameter)
  }

  /** `global_handler(request, service_id)` of views.py: the same scan with
      the three-number version check; the version is not passed on. */
  function LegacyGlobalHandler(serviceExists: bool, serviceId: string, ps: seq<Param>): (r: Result<Operation, Report>)
  {
    if !serviceExists then Err(LegacyWfsException(UnknownService, "", Some(serviceId)))
    else match ScanParams(ps, InitialScan, LegacyVersionOk)
      case Err(f) => Err(LegacyRaise(f))
      case Ok(st) =>
        if st.requestType.None? then Err(LegacyWfsException(MissingParameter, "request", None))
        else if st.service.None? then Err(LegacyWfsException(MissingParameter, "service", None))
        else match Route(st.requestType.value)
          case Some(op) => Ok(op)
          case None => Err(LegacyWfsException(UnknownError, "", None))
  }

  /** The older version check accepts any three dot-separated numbers. */
  lemma LegacyAcceptsThreeNumbers(a: nat, b: nat, c: nat)
    ensures LegacyVersionOk(NatToString(a) + "." + NatToString(b) + "." + NatToString(c))
  {
    var x, y, z := NatToString(a), NatToString(b), NatToString(c);
    DotsJoin(x, y, z);
    ThreeParts(x + "." + y + "." + z, x, y, z);
  }

  lemma DotsJoin(x: string, y: string, z: string)
    ensures x + "." + y + "." + z == x + ['.'] + (y + ['.'] + z)
  {
  }

  lemma ThreeParts(v: string, x: string, y: string, z: string)
    requires AllDigits(x) && AllDigits(y) && AllDigits(z)
    requires v == x + ['.'] + (y + ['.'] + z)
    ensures LegacyVersionOk(v)
  {
    SplitThree(v, x, y, z);
    ParseIntOfDigits(x);
    ParseIntOfDigits(y);
    ParseIntOfDigits(z);
  }

  lemma SplitThree(v: string, x: string, y: string, z: string)
    requires AllDigits(x) && AllDigits(y) && AllDigits(z)
    requires v == x + ['.'] + (y + ['.'] + z)
    ensures Split(v, '.') == [x, y, z]
  {
    NoDotInDigits(x);
    NoDotInDigits(y);
    NoDotInDigits(z);
    SplitWhole(z, '.');
    SplitCons(y, z, '.');
    SplitCons(x, y + ['.'] + z, '.');
  }

  lemma NoDotInDigits(s: string)
    requires AllDigits(s)
    ensures '.' !in s
  {
    forall i | 0 <= i < |s| ensures s[i] != '.' {
      assert IsDigit(s[i]);
    }
  }

  /** Both versions the current revision accepts pass the older check. */
  lemma LegacyAcceptsCurrent(v: string)
    requires VersionOk(v)
    ensures LegacyVersionOk(v)
  {
    ThreeParts(v, [v[0]], [v[2]], [v[4]]);
  }

  /** Fewer or more than three parts fail the older check. */
  lemma LegacyRejectsTwoParts(a: nat, b: nat)
    ensures !LegacyVersionOk(NatToString(a) + "." + NatToString(b))
  {
    var x, y := NatToString(a), NatToString(b);
    NoDotInDigits(x);
    NoDotInDigits(y);
    SplitWhole(y, '.');
    SplitCons(x, y, '.');
  }

  /** The older revision orders its reports the same way. */
  lemma LegacyOrder(serviceExists: bool, serviceId: string, ps: seq<Param>)
    ensures !serviceExists ==>
              LegacyGlobalHandler(serviceExists, serviceId, ps) == Err(LegacyWfsException(UnknownService, "", Some(serviceId)))
    ensures serviceExists && FirstRejected(ps, LegacyVersionOk).Some? ==>
              LegacyGlobalHandler(serviceExists, serviceId, ps)
              == Err(LegacyRaise(FaultOf(ps[FirstRejected(ps, LegacyVersionOk).value])))
    ensures serviceExists && FirstRejected(ps, LegacyVersionOk).None? && LastValue(ps, "request").None? ==>
              LegacyGlobalHandler(serviceExists, serviceId, ps) == Err(LegacyWfsException(MissingParameter, "request", None))
    ensures serviceExists && FirstRejected(ps, LegacyVersionOk).None? && LastValue(ps, "request").Some?
            && LastValue(ps, "service").None? ==>
              LegacyGlobalHandler(serviceExists, serviceId, ps) == Err(LegacyWfsException(MissingParameter, "service", None))
  {
    if serviceExists {
      ScanStopsAtFirstRejected(ps, InitialScan, LegacyVersionOk);
      if FirstRejected(ps, LegacyVersionOk).None? {
        ScanCollectsLastValues(ps, InitialScan, LegacyVersionOk);
      }
    }
  }
}
