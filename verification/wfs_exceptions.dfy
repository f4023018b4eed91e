/** The exception reports of the service, `wfs_exception` in wfs/views.py
    and its older revision in views.py: a report carries a code, a locator
    (the parameter at fault) and a human-readable text built from the code,
    the locator and the offending value. The rendering of the report into
    an XML document is the template's and is left out. */
module Exceptions {
  import opened Wrappers

  /** The codes the handlers raise. */
  datatype Code =
    | InvalidParameterValue
    | VersionNegotiationFailed
    | InvalidRequest
    | InvalidService
    | MissingParameter
    | UnknownService
    | MalformedJSONQuery
    | NoGeometryField
    | UnknownError

  /** What the exception document shows. */
  datatype Report = Report(code: Code, locator: string, text: string)

  /** `str(parameter)`: an absent parameter prints as `None`. */
  function PyStr(p: Option<string>): string {
    match p
    case None => "None"
    case Some(s) => s
  }

  /** The text of a report, as `wfs_exception` builds it. */
  function ExceptionText(code: Code, locator: string, parameter: Option<string>): string {
    var p := PyStr(parameter);
    match code
    case InvalidParameterValue => "Invalid value '" + p + "' in parameter '" + locator + "'."
    case VersionNegotiationFailed => "'" + p + "' is an invalid version number."
    case InvalidRequest => "'" + p + "' is an invalid request."
    case InvalidService => "'" + p + "' is an invalid service."
    case MissingParameter => "Missing required '" + locator + "' parameter."
    case UnknownService => "No available WFS service with id '" + p + "'."
    case MalformedJSONQuery => "The JSON query defined for this feature type is malformed."
    case NoGeometryField => "The feature does not reference at least one geometry field."
    case UnknownError => "Something went wrong."
  }

  /** `wfs_exception(request, code, locator, parameter)` */
  function WfsException(code: Code, locator: string, parameter: Option<string>): (r: Report)
    ensures r.code == code && r.locator == locator
    ensures |r.text| > 0
  {
    Report(code, locator, ExceptionText(code, locator, parameter))
  }

  /** The older revision knows no `NoGeometryField` and leaves its text
      empty. */
  function LegacyExceptionText(code: Code, locator: string, parameter: Option<string>): string {
    var p := PyStr(parameter);
    match code
    case InvalidParameterValue => "Invalid value '" + p + "' in parameter '" + locator + "'."
    case VersionNegotiationFailed => "'" + p + "' is an invalid version number."
    case InvalidRequest => "'" + p + "' is an invalid request."
    case InvalidService => "'" + p + "' is an invalid service."
    case MissingParameter => "Missing required '" + locator + "' parameter."
    case UnknownService => "No available WFS service with id '" + p + "'."
    case MalformedJSONQuery => "The JSON query defined for this feature type is malformed."
    case NoGeometryField => ""
    case UnknownError => "Something went wrong."
  }

  function LegacyWfsException(code: Code, locator: string, parameter: Option<string>): (r: Report)
    ensures r.code == code && r.locator == locator
    ensures |r.text| == 0 <==> code == NoGeometryField
  {
    Report(code, locator, LegacyExceptionText(code, locator, parameter))
  }

  // ---------------------------------------------------------------------
  // Where the offending value sits in the text
  // ---------------------------------------------------------------------

  /** The text before and after the quoted value, for the codes whose text
      quotes one; `None` for the others. */
  function Frame(code: Code, locator: string): Option<(string, string)> {
    match code
    case InvalidParameterValue => Some(("Invalid value '", "' in parameter '" + locator + "'."))
    case VersionNegotiationFailed => Some(("'", "' is an invalid version number."))
    case InvalidRequest => Some(("'", "' is an invalid request."))
    case InvalidService => Some(("'", "' is an invalid service."))
    case UnknownService => Some(("No available WFS service with id '", "'."))
    case _ => None
  }

  /** Reads the quoted value back out of a report text. */
  function QuotedValue(code: Code, locator: string, text: string): Option<string> {
    match Frame(code, locator)
    case None => None
    case Some((before, after)) =>
      if |before| + |after| <= |text| && text[..|before|] == before && text[|text| - |after|..] == after
      then Some(text[|before|..|text| - |after|])
      else None
  }

  /** A code with a frame shows the value, and it can be read back. */
  lemma QuotedValueRecovered(code: Code, locator: string, parameter: Option<string>)
    requires Frame(code, locator).Some?
    ensures QuotedValue(code, locator, ExceptionText(code, locator, parameter)) == Some(PyStr(parameter))
  {
    var p := PyStr(parameter);
    var (before, after) := Frame(code, locator).value;
    if code == InvalidParameterValue {
      InvalidValueFramed(p, locator);
    }
    assert ExceptionText(code, locator, parameter) == before + p + after;
    Unframe(before, p, after);
  }

  lemma InvalidValueFramed(p: string, locator: string)
    ensures "Invalid value '" + p + "' in parameter '" + locator + "'."
            == "Invalid value '" + p + ("' in parameter '" + locator + "'.")
  {
  }

  /** The middle of `before + s + after`, cut by the outer lengths. */
  lemma Unframe(before: string, s: string, after: string)
    ensures var t := before + s + after;
            && |before| + |after| <= |t|
            && t[..|before|] == before
            && t[|t| - |after|..] == after
            && t[|before|..|t| - |after|] == s
  {
  }

  /** A code without a frame has a text that does not depend on the
      offending value. */
  lemma UnframedIgnoresValue(code: Code, locator: string, p: Option<string>, q: Option<string>)
    requires Frame(code, locator).None?
    ensures ExceptionText(code, locator, p) == ExceptionText(code, locator, q)
    ensures code != MissingParameter ==> ExceptionText(code, locator, p) == ExceptionText(code, "", None)
  {
  }

  /** The two revisions agree on every code but the one the older lacks. */
  lemma LegacyAgrees(code: Code, locator: string, parameter: Option<string>)
    ensures code != NoGeometryField ==>
              LegacyExceptionText(code, locator, parameter) == ExceptionText(code, locator, parameter)
    ensures code == NoGeometryField ==>
              LegacyExceptionText(code, locator, parameter) != ExceptionText(code, locator, parameter)
  {
  }
}
