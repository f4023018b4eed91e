/** The coordinate reference system identifier parser of wfs/helpers.py.

    A CRS is given either as an integer SRID, as an OGC URN
    `urn:{domain}:def:crs:{authority}:{version}?:{id}` following the OGC URN
    policy, or in one of three legacy EPSG spellings. Matching is done on the
    lower-cased input. Every failure is a `SyntaxError` in the service; the
    error datatype keeps the reason apart. */
module Crs {
  import opened Wrappers
  import opened Strings

  /** The EPSG registry version written for integer and legacy inputs. */
  const DefaultEpsgVersion: string := "6.9"

  /** The OGC-authority identifier of longitude/latitude WGS84. */
  const Crs84: string := "CRS84"

  const Wgs84Srid: int := 4326

  datatype Crs = Crs(domain: string, authority: string, version: Option<string>, crsid: string, srid: int)

  /** The constructor accepts a Python `int` or a string. */
  datatype CrsInput = FromSrid(n: int) | FromUri(uri: string)

  datatype CrsError =
    | UnknownDomain(domain: string)
    | UnknownOgcId(id: string)
    | UnknownAuthority(authority: string)
    | AlphanumericSrid
    | UnknownUri

  /** The groups 1, 2, 3 and 5 of the URN regular expression. */
  datatype UrnMatch = UrnMatch(domain: string, authority: string, version: Option<string>, id: string)

  /** The legacy prefixes, tried in this order on the lower-cased input. */
  const LegacyHeads: seq<string> := [
    "epsg:",
    "http:" + "//www.opengis.net/def/crs/epsg/0/",
    "http:" + "//www.opengis.net/gml/srs/epsg.xml#"
  ]

  // ---------------------------------------------------------------------
  // The URN regular expression
  //   ^urn:([a-z]+):def:crs:([a-z]+):([0-9]+\.[0-9]+(\.[0-9]+)?)?:([0-9]+|crs84)$
  // No group can hold a colon, so the string matches exactly when splitting
  // it on ':' yields seven fields of the required shapes.
  // ---------------------------------------------------------------------

  /** `[a-z]+` */
  predicate IsWord(s: string) {
    |s| > 0 && forall i :: 0 <= i < |s| ==> IsLowerLetter(s[i])
  }

  /** `[0-9]+\.[0-9]+(\.[0-9]+)?` */
  predicate IsVersion(v: string) {
    var ps := Split(v, '.');
    (|ps| == 2 || |ps| == 3) && forall i :: 0 <= i < |ps| ==> AllDigits(ps[i])
  }

  /** `[0-9]+|crs84` */
  predicate IsUrnId(s: string) {
    AllDigits(s) || s == "crs84"
  }

  predicate UrnFields(p: seq<string>) {
    && |p| == 7
    && p[0] == "urn" && IsWord(p[1]) && p[2] == "def" && p[3] == "crs"
    && IsWord(p[4]) && (p[5] == "" || IsVersion(p[5])) && IsUrnId(p[6])
  }

  /** An absent optional group is Python's `None`. */
  function VersionGroup(v: string): Option<string> {
    if v == "" then None else Some(v)
  }

  function MatchWhole(l: string): (m: Option<UrnMatch>)
    ensures m.Some? ==> UrnFields(Split(l, ':'))
  {
    var p := Split(l, ':');
    if UrnFields(p) then Some(UrnMatch(p[1], p[4], VersionGroup(p[5]), p[6])) else None
  }

  /** `CRS_URN_REGEX.match(l)`: Python's `$` also matches right before a
      final newline, so a URN followed by one "\n" matches too. */
  function MatchUrn(l: string): Option<UrnMatch> {
    var m := MatchWhole(l);
    if m.Some? then m
    else if |l| > 0 && l[|l| - 1] == '\n' then MatchWhole(l[..|l| - 1])
    else None
  }

  // ---------------------------------------------------------------------
  // Parsing
  // ---------------------------------------------------------------------

  /** What every successfully parsed CRS satisfies: a known domain and
      authority, OGC only for CRS84 at SRID 4326, and for EPSG an id whose
      `int()` is the SRID. */
  predicate WellFormed(c: Crs) {
    && (c.domain == "ogc" || c.domain == "opengis")
    && (|| (c.authority == "EPSG" && ParseInt(c.crsid) == Some(c.srid))
        || (c.authority == "OGC" && c.crsid == Crs84 && c.srid == Wgs84Srid))
  }

  /** The branch of `CRS.__init__` taken once the URN expression matched. */
  function FromUrn(m: UrnMatch): (r: Result<Crs, CrsError>)
    ensures r.Ok? ==> r.value.domain == m.domain && r.value.version == m.version
  {
    if m.domain != "ogc" && m.domain != "opengis" then Err(UnknownDomain(m.domain))
    else
      var authority := Upper(m.authority);
      if authority == "EPSG" then
        match ParseInt(m.id)
        case Some(n) => Ok(Crs(m.domain, authority, m.version, m.id, n))
        case None => Err(AlphanumericSrid)
      else if authority == "OGC" then
        var id := Upper(m.id);
        if id != Crs84 then Err(UnknownOgcId(id))
        else Ok(Crs(m.domain, authority, m.version, id, Wgs84Srid))
      else Err(UnknownAuthority(authority))
  }

  /** The index of the first legacy prefix `l` starts with. */
  function LegacyHead(l: string): (k: Option<nat>)
    ensures k.Some? ==> k.value < |LegacyHeads| && StartsWith(l, LegacyHeads[k.value])
    ensures k.None? ==> forall i :: 0 <= i < |LegacyHeads| ==> !StartsWith(l, LegacyHeads[i])
  {
    if StartsWith(l, LegacyHeads[0]) then Some(0)
    else if StartsWith(l, LegacyHeads[1]) then Some(1)
    else if StartsWith(l, LegacyHeads[2]) then Some(2)
    else None
  }

  /** The legacy loop: the remainder after the prefix is the id, and its
      `int()` the SRID. */
  function FromLegacy(l: string): (r: Result<Crs, CrsError>)
    ensures r.Ok? ==> r.value.authority == "EPSG" && r.value.domain == "ogc"
                      && r.value.version == Some(DefaultEpsgVersion)
                      && ParseInt(r.value.crsid) == Some(r.value.srid)
  {
    match LegacyHead(l)
    case None => Err(UnknownUri)
    case Some(k) =>
      var id := l[|LegacyHeads[k]|..];
      match ParseInt(id)
      case Some(n) => Ok(Crs("ogc", "EPSG", Some(DefaultEpsgVersion), id, n))
      case None => Err(AlphanumericSrid)
  }

  /** `CRS(uri)` */
  function Parse(input: CrsInput): (r: Result<Crs, CrsError>)
    ensures r.Ok? ==> WellFormed(r.value)
    ensures input.FromSrid? ==> r.Ok? && r.value.srid == input.n
  {
    match input
    case FromSrid(n) =>
      ParseIntOfIntToString(n);
      Ok(Crs("ogc", "EPSG", Some(DefaultEpsgVersion), IntToString(n), n))
    case FromUri(uri) =>
      var l := Lower(uri);
      match MatchUrn(l)
      case Some(m) => FromUrn(m)
      case None => FromLegacy(l)
  }

  /** `WGS84_CRS = CRS(4326)` */
  const Wgs84: Crs := Crs("ogc", "EPSG", Some(DefaultEpsgVersion), "4326", Wgs84Srid)

  // ---------------------------------------------------------------------
  // Rendering
  // ---------------------------------------------------------------------

  /** `get_legacy()`: `"EPSG:%d" % srid` */
  function GetLegacy(c: Crs): string {
    "EPSG:" + IntToString(c.srid)
  }

  function UrnText(domain: string, authority: string, version: string, id: string): string {
    "urn:" + domain + ":def:crs:" + authority + ":" + version + ":" + id
  }

  /** Python's `"%s" % None` */
  function PyStrOfVersion(v: Option<string>): string {
    match v
    case None => "None"
    case Some(s) => s
  }

  /** `get_urn()` as written: an absent version is rendered through `%s`,
      i.e. as the text "None". */
  function GetUrn(c: Crs): string {
    UrnText(c.domain, c.authority, PyStrOfVersion(c.version), c.crsid)
  }

  /** `get_urn()` as evidently intended: an absent version stays empty, as
      in the URN it was parsed from. */
  function GetUrnFixed(c: Crs): string {
    UrnText(c.domain, c.authority, if c.version.Some? then c.version.value else "", c.crsid)
  }

  // ---------------------------------------------------------------------
  // Lemmas
  // ---------------------------------------------------------------------

  lemma {:induction false} SplitUrnText(d: string, a: string, v: string, id: string)
    requires ':' !in d && ':' !in a && ':' !in v && ':' !in id
    ensures Split(UrnText(d, a, v, id), ':') == ["urn", d, "def", "crs", a, v, id]
  {
    assert UrnText(d, a, v, id) == "urn" + ":" + d + ":" + "def" + ":" + "crs" + ":" + a + ":" + v + ":" + id;
    SplitSeven("urn", d, "def", "crs", a, v, id);
  }

  lemma ColonsNest(p0: string, p1: string, p2: string, p3: string, p4: string, p5: string, p6: string)
    ensures p0 + ":" + p1 + ":" + p2 + ":" + p3 + ":" + p4 + ":" + p5 + ":" + p6
            == p0 + ":" + (p1 + ":" + (p2 + ":" + (p3 + ":" + (p4 + ":" + (p5 + ":" + p6)))))
  {
  }

  /** Seven separator-free fields joined by ':' split back into themselves. */
  lemma {:induction false} SplitSeven(p0: string, p1: string, p2: string, p3: string, p4: string, p5: string, p6: string)
    requires ':' !in p0 && ':' !in p1 && ':' !in p2 && ':' !in p3 && ':' !in p4 && ':' !in p5 && ':' !in p6
    ensures Split(p0 + ":" + p1 + ":" + p2 + ":" + p3 + ":" + p4 + ":" + p5 + ":" + p6, ':')
            == [p0, p1, p2, p3, p4, p5, p6]
  {
    var parts := [p0, p1, p2, p3, p4, p5, p6];
    JoinSeven(p0, p1, p2, p3, p4, p5, p6);
    assert forall i :: 0 <= i < |parts| ==> ':' !in parts[i];
    SplitJoin(parts, ':');
  }

  lemma JoinSeven(p0: string, p1: string, p2: string, p3: string, p4: string, p5: string, p6: string)
    ensures Join([p0, p1, p2, p3, p4, p5, p6], ":")
            == p0 + ":" + p1 + ":" + p2 + ":" + p3 + ":" + p4 + ":" + p5 + ":" + p6
  {
    ColonsNest(p0, p1, p2, p3, p4, p5, p6);
    JoinCons(p5, [p6], ":");
    assert [p5] + [p6] == [p5, p6];
    JoinCons(p4, [p5, p6], ":");
    assert [p4] + [p5, p6] == [p4, p5, p6];
    JoinCons(p3, [p4, p5, p6], ":");
    assert [p3] + [p4, p5, p6] == [p3, p4, p5, p6];
    JoinCons(p2, [p3, p4, p5, p6], ":");
    assert [p2] + [p3, p4, p5, p6] == [p2, p3, p4, p5, p6];
    JoinCons(p1, [p2, p3, p4, p5, p6], ":");
    assert [p1] + [p2, p3, p4, p5, p6] == [p1, p2, p3, p4, p5, p6];
    JoinCons(p0, [p1, p2, p3, p4, p5, p6], ":");
    assert [p0] + [p1, p2, p3, p4, p5, p6] == [p0, p1, p2, p3, p4, p5, p6];
  }

  lemma LowerUrnText(d: string, a: string, v: string, id: string)
    ensures Lower(UrnText(d, a, v, id)) == UrnText(Lower(d), Lower(a), Lower(v), Lower(id))
  {
  }

  /** Lower-casing neither introduces nor removes a character that is not
      a letter. */
  lemma LowerKeepsChar(s: string, c: char)
    requires !IsUpper(c) && !IsLowerLetter(c)
    ensures c in s <==> c in Lower(s)
  {
    if c in s {
      var i :| 0 <= i < |s| && s[i] == c;
      assert Lower(s)[i] == c;
    }
    if c in Lower(s) {
      var i :| 0 <= i < |s| && Lower(s)[i] == c;
      assert s[i] == c;
    }
  }

  /** A string that starts with "urn:" matches no legacy prefix. */
  lemma UrnIsNotLegacy(l: string)
    requires StartsWith(l, "urn:")
    ensures FromLegacy(l) == Err(UnknownUri)
  {
    assert l[0] == 'u';
    DiffersAt(l, LegacyHeads[0], 0);
    DiffersAt(l, LegacyHeads[1], 0);
    DiffersAt(l, LegacyHeads[2], 0);
  }

  /** The fields of a URN-shaped text, as the URN expression sees them. */
  function UrnParts(d: string, a: string, v: string, id: string): seq<string> {
    ["urn", d, "def", "crs", a, v, id]
  }

  lemma {:induction false} MatchWholeOfText(d: string, a: string, v: string, id: string)
    requires ':' !in d && ':' !in a && ':' !in v && ':' !in id
    ensures var p := UrnParts(d, a, v, id);
            MatchWhole(UrnText(d, a, v, id))
              == if UrnFields(p) then Some(UrnMatch(d, a, VersionGroup(v), id)) else None
  {
    SplitUrnText(d, a, v, id);
  }

  /** A URN-shaped text whose id has no newline matches the URN expression
      exactly when its fields have the required shapes. */
  lemma {:induction false} MatchUrnOfText(d: string, a: string, v: string, id: string)
    requires ':' !in d && ':' !in a && ':' !in v && ':' !in id && '\n' !in id
    ensures var p := UrnParts(d, a, v, id);
            MatchUrn(UrnText(d, a, v, id))
              == if UrnFields(p) then Some(UrnMatch(d, a, VersionGroup(v), id)) else None
  {
    var l := UrnText(d, a, v, id);
    MatchWholeOfText(d, a, v, id);
    assert l[|l| - 1] != '\n' by {
      assert l == (UrnText(d, a, v, "") + id);
      if |id| > 0 {
        assert l[|l| - 1] == id[|id| - 1];
      } else {
        assert l[|l| - 1] == ':';
      }
    }
  }

  /** The field shapes the URN expression demands. */
  predicate UrnShaped(d: string, a: string, v: string, id: string) {
    IsWord(d) && IsWord(a) && (v == "" || IsVersion(v)) && IsUrnId(id)
  }

  lemma UrnFieldsOfParts(d: string, a: string, v: string, id: string)
    ensures UrnFields(UrnParts(d, a, v, id)) <==> UrnShaped(d, a, v, id)
  {
  }

  /** How a URN-shaped input is parsed, field by field: the fields are
      matched lower-cased, and a shape mismatch falls through to the legacy
      forms, none of which starts with "urn:". */
  lemma {:induction false} ParseUrnText(d: string, a: string, v: string, id: string)
    requires ':' !in d && ':' !in a && ':' !in v && ':' !in id && '\n' !in id
    ensures Parse(FromUri(UrnText(d, a, v, id)))
              == if UrnShaped(Lower(d), Lower(a), Lower(v), Lower(id))
                 then FromUrn(UrnMatch(Lower(d), Lower(a), VersionGroup(Lower(v)), Lower(id)))
                 else Err(UnknownUri)
  {
    var l := Lower(UrnText(d, a, v, id));
    LowerUrnText(d, a, v, id);
    LowerKeepsChar(d, ':');
    LowerKeepsChar(a, ':');
    LowerKeepsChar(v, ':');
    LowerKeepsChar(id, ':');
    LowerKeepsChar(id, '\n');
    MatchUrnOfText(Lower(d), Lower(a), Lower(v), Lower(id));
    UrnFieldsOfParts(Lower(d), Lower(a), Lower(v), Lower(id));
    if !UrnShaped(Lower(d), Lower(a), Lower(v), Lower(id)) {
      assert l[..4] == "urn:";
      UrnIsNotLegacy(l);
    }
  }

  /** `Upper` maps a lower-case word to "EPSG" or "OGC" exactly when the
      word is "epsg" or "ogc". */
  lemma UpperOfWord(w: string)
    requires IsWord(w)
    ensures Upper(w) == "EPSG" <==> w == "epsg"
    ensures Upper(w) == "OGC" <==> w == "ogc"
  {
    assert NoUpper(w);
    LowerUpperOfNoUpper(w);
    assert Lower("EPSG") == "epsg";
    assert Lower("OGC") == "ogc";
  }

  /** Input is lower-cased before any matching: upper- or lower-casing it
      first changes nothing. */
  lemma ParseIgnoresCase(uri: string)
    ensures Parse(FromUri(Lower(uri))) == Parse(FromUri(uri))
    ensures Parse(FromUri(Upper(uri))) == Parse(FromUri(uri))
  {
    LowerIdempotent(uri);
    LowerOfUpper(uri);
    ParseOfSameLower(Lower(uri), uri);
    ParseOfSameLower(Upper(uri), uri);
  }

  /** Two inputs that lower-case alike parse alike. */
  lemma ParseOfSameLower(a: string, b: string)
    requires Lower(a) == Lower(b)
    ensures Parse(FromUri(a)) == Parse(FromUri(b))
  {
  }

  /** An integer n is EPSG n in domain ogc at registry version 6.9. */
  lemma ParseSrid(n: int)
    ensures Parse(FromSrid(n)) == Ok(Crs("ogc", "EPSG", Some("6.9"), IntToString(n), n))
    ensures GetUrn(Parse(FromSrid(n)).value) == "urn:ogc:def:crs:EPSG:6.9:" + IntToString(n)
  {
    var id := IntToString(n);
    assert GetUrn(Parse(FromSrid(n)).value) == UrnText("ogc", "EPSG", "6.9", id);
    SridUrnText(id);
  }

  lemma SridUrnText(id: string)
    ensures UrnText("ogc", "EPSG", "6.9", id) == "urn:ogc:def:crs:EPSG:6.9:" + id
  {
  }

  lemma Wgs84IsSrid4326()
    ensures Parse(FromSrid(4326)) == Ok(Wgs84)
    ensures GetUrn(Wgs84) == UrnText("ogc", "EPSG", "6.9", "4326")
  {
    IntToStringOf4326();
  }

  lemma IntToStringOf4326()
    ensures IntToString(4326) == "4326"
  {
    assert NatToString(4) == "4";
    assert NatToString(43) == "43";
    assert NatToString(432) == "432";
  }

  lemma LowerOfLiterals()
    ensures Lower("EPSG") == "epsg" && Lower("OGC") == "ogc" && Lower("CRS84") == "crs84"
    ensures Lower("ogc") == "ogc" && Lower("opengis") == "opengis" && Lower("None") == "none"
  {
  }

  lemma UpperOfAuthorities()
    ensures Upper("epsg") == "EPSG" && Upper("ogc") == "OGC"
  {
  }

  /** The URN branch for EPSG: the id's `int()` is the SRID. */
  lemma FromEpsgUrn(d: string, v: Option<string>, id: string)
    requires d == "ogc" || d == "opengis"
    requires AllDigits(id)
    ensures FromUrn(UrnMatch(d, "epsg", v, id)) == Ok(Crs(d, "EPSG", v, id, DigitsToNat(id)))
  {
    UpperOfAuthorities();
    ParseIntOfDigits(id);
  }

  /** A lower-case URN of the required shape reaches the URN branch with
      its own fields. */
  lemma {:induction false} ParseShapedUrn(d: string, a: string, v: string, id: string)
    requires UrnShaped(d, a, v, id)
    ensures Parse(FromUri(UrnText(d, a, v, id))) == FromUrn(UrnMatch(d, a, VersionGroup(v), id))
  {
    WordFacts(d);
    WordFacts(a);
    CharsOfVersion(v);
    LowerOfDigits(v);
    if AllDigits(id) {
      DigitsNoColon(id);
      LowerOfDigits(id);
    } else {
      assert Lower("crs84") == "crs84";
    }
    ParseUrnText(d, a, v, id);
  }

  /** An EPSG URN with a digit id: SRID is the id's value, for an empty
      version or one with two or three numeric components, in either
      domain spelling. */
  lemma {:induction false} ParseEpsgUrn(d: string, v: string, id: string)
    requires d == "ogc" || d == "opengis"
    requires v == "" || IsVersion(v)
    requires AllDigits(id)
    ensures Parse(FromUri(UrnText(d, "epsg", v, id)))
            == Ok(Crs(d, "EPSG", VersionGroup(v), id, DigitsToNat(id)))
  {
    assert IsWord("ogc") && IsWord("opengis") && IsWord("epsg");
    ParseShapedUrn(d, "epsg", v, id);
    FromEpsgUrn(d, VersionGroup(v), id);
  }

  /** The URN branch for OGC: only CRS84 (any case) is known. */
  lemma FromOgcUrn(d: string, v: Option<string>, id: string)
    requires d == "ogc" || d == "opengis"
    ensures Upper(id) == "CRS84" ==> FromUrn(UrnMatch(d, "ogc", v, id)) == Ok(Crs(d, "OGC", v, "CRS84", 4326))
    ensures Upper(id) != "CRS84" ==> FromUrn(UrnMatch(d, "ogc", v, id)) == Err(UnknownOgcId(Upper(id)))
  {
    UpperOfAuthorities();
  }

  /** An OGC URN is accepted only for CRS84, which is SRID 4326. */
  lemma {:induction false} ParseOgcUrn(d: string, v: string, id: string)
    requires d == "ogc" || d == "opengis"
    requires v == "" || IsVersion(v)
    requires IsUrnId(id)
    ensures id == "crs84" ==>
      Parse(FromUri(UrnText(d, "ogc", v, id))) == Ok(Crs(d, "OGC", VersionGroup(v), "CRS84", 4326))
    ensures id != "crs84" ==> Parse(FromUri(UrnText(d, "ogc", v, id))) == Err(UnknownOgcId(id))
  {
    assert IsWord("ogc") && IsWord("opengis");
    ParseShapedUrn(d, "ogc", v, id);
    FromOgcUrn(d, VersionGroup(v), id);
    if id == "crs84" {
      assert Upper("crs84") == "CRS84";
    } else {
      UpperOfDigits(id);
      assert id != "CRS84" by { assert !IsDigit("CRS84"[0]); }
    }
  }

  /** Letter case does not matter: whatever lower-cases to a URN parses
      as that URN does. */
  lemma ParseAnyCase(uri: string, l: string)
    requires Lower(uri) == l
    ensures Parse(FromUri(uri)) == Parse(FromUri(l))
  {
    ParseIgnoresCase(uri);
  }

  /** A URN whose domain is neither ogc nor opengis is refused. */
  lemma {:induction false} ParseUrnUnknownDomain(d: string, a: string, v: string, id: string)
    requires UrnShaped(d, a, v, id) && d != "ogc" && d != "opengis"
    ensures Parse(FromUri(UrnText(d, a, v, id))) == Err(UnknownDomain(d))
  {
    ParseShapedUrn(d, a, v, id);
  }

  /** A URN whose authority is neither EPSG nor OGC is refused. */
  lemma {:induction false} ParseUrnUnknownAuthority(d: string, a: string, v: string, id: string)
    requires UrnShaped(d, a, v, id) && (d == "ogc" || d == "opengis")
    requires a != "epsg" && a != "ogc"
    ensures Parse(FromUri(UrnText(d, a, v, id))) == Err(UnknownAuthority(Upper(a)))
  {
    ParseShapedUrn(d, a, v, id);
    UpperOfWord(a);
  }

  /** An EPSG URN whose id is CRS84 is refused: an SRID number is expected. */
  lemma {:induction false} ParseEpsgUrnCrs84(d: string, v: string)
    requires d == "ogc" || d == "opengis"
    requires v == "" || IsVersion(v)
    ensures Parse(FromUri(UrnText(d, "epsg", v, "crs84"))) == Err(AlphanumericSrid)
  {
    assert IsWord("ogc") && IsWord("opengis") && IsWord("epsg");
    ParseShapedUrn(d, "epsg", v, "crs84");
    Crs84IsNoInteger();
    FromEpsgUrnNoInteger(d, VersionGroup(v), "crs84");
  }

  lemma Crs84IsNoInteger()
    ensures ParseInt("crs84") == None
  {
    assert !AllDigits("crs84") by { assert !IsDigit("crs84"[0]); }
    StripUnpadded("crs84");
  }

  /** The URN branch for EPSG with an id that is no integer. */
  lemma FromEpsgUrnNoInteger(d: string, v: Option<string>, id: string)
    requires d == "ogc" || d == "opengis"
    requires ParseInt(id) == None
    ensures FromUrn(UrnMatch(d, "epsg", v, id)) == Err(AlphanumericSrid)
  {
    UpperOfAuthorities();
  }

  /** A version that is neither empty nor two or three numeric components
      does not fit the URN expression, and nothing else accepts the input. */
  lemma {:induction false} ParseUrnBadVersion(d: string, a: string, v: string, id: string)
    requires ':' !in d && ':' !in a && ':' !in v && ':' !in id && '\n' !in id
    requires NoUpper(v) && v != "" && !IsVersion(v)
    ensures Parse(FromUri(UrnText(d, a, v, id))) == Err(UnknownUri)
  {
    LowerOfNoUpper(v);
    ParseUrnText(d, a, v, id);
  }

  /** A one-component version such as `7` is such a version. */
  lemma OneComponentIsNoVersion(n: string)
    requires AllDigits(n)
    ensures NoUpper(n) && !IsVersion(n)
  {
    DigitsNoColon(n);
    assert '.' !in n;
  }

  /** The first legacy prefix a string starts with is the one it was
      built from: no prefix is a prefix of an earlier one. */
  lemma LegacyHeadOf(l: string, k: nat)
    requires k < |LegacyHeads| && StartsWith(l, LegacyHeads[k])
    ensures LegacyHead(l) == Some(k)
  {
    assert l[..|LegacyHeads[k]|] == LegacyHeads[k];
    if k > 0 {
      assert l[0] == l[..|LegacyHeads[k]|][0] == 'h';
      DiffersAt(l, LegacyHeads[0], 0);
    }
    if k == 2 {
      assert l[23] == l[..|LegacyHeads[2]|][23] == 'g';
      DiffersAt(l, LegacyHeads[1], 23);
    }
  }

  /** A lower-case legacy input: the remainder after the prefix is parsed
      with `int()`. */
  lemma {:induction false} ParseLegacyText(k: nat, id: string)
    requires k < |LegacyHeads| && NoUpper(id)
    ensures Parse(FromUri(LegacyHeads[k] + id))
            == match ParseInt(id)
               case Some(n) => Ok(Crs("ogc", "EPSG", Some(DefaultEpsgVersion), id, n))
               case None => Err(AlphanumericSrid)
  {
    var l := LegacyHeads[k] + id;
    LowerOfNoUpper(l);
    assert l[..|LegacyHeads[k]|] == LegacyHeads[k];
    NotUrnByFirstField(l, k);
    LegacyHeadOf(l, k);
    assert l[|LegacyHeads[k]|..] == id;
  }

  /** The three legacy prefixes, in any letter case, give EPSG at the
      default registry version with the remainder's value as SRID. */
  lemma {:induction false} ParseLegacyForm(k: nat, head: string, id: string)
    requires k < |LegacyHeads| && Lower(head) == LegacyHeads[k]
    requires AllDigits(id)
    ensures Parse(FromUri(head + id))
            == Ok(Crs("ogc", "EPSG", Some(DefaultEpsgVersion), id, DigitsToNat(id)))
  {
    LowerConcat(head, id);
    LowerOfDigits(id);
    ParseIgnoresCase(head + id);
    ParseLegacyText(k, id);
    ParseIntOfDigits(id);
  }

  /** A legacy remainder that is not a number is refused. */
  lemma {:induction false} ParseLegacyAlphanumeric(k: nat, id: string)
    requires k < |LegacyHeads|
    requires NoUpper(id) && ParseInt(id).None?
    ensures Parse(FromUri(LegacyHeads[k] + id)) == Err(AlphanumericSrid)
  {
    ParseLegacyText(k, id);
  }

  /** `EPSG:CRS84` is refused: an SRID number is expected. */
  lemma ParseLegacyCrs84()
    ensures Parse(FromUri("EPSG:CRS84")) == Err(AlphanumericSrid)
  {
    assert Lower("EPSG:CRS84") == LegacyHeads[0] + "crs84";
    assert !AllDigits("crs84") by { assert !IsDigit("crs84"[0]); }
    StripUnpadded("crs84");
    ParseLegacyAlphanumeric(0, "crs84");
    ParseIgnoresCase("EPSG:CRS84");
    LowerOfNoUpper(LegacyHeads[0] + "crs84");
  }

  /** The same digits after any legacy prefix or as the id of an EPSG URN
      give the same SRID. */
  lemma DialectsAgree(k: nat, d: string, v: string, id: string)
    requires k < |LegacyHeads| && (d == "ogc" || d == "opengis") && (v == "" || IsVersion(v))
    requires AllDigits(id)
    ensures Parse(FromUri(LegacyHeads[k] + id)).Ok?
    ensures Parse(FromUri(UrnText(d, "epsg", v, id))).Ok?
    ensures Parse(FromUri(LegacyHeads[k] + id)).value.srid
         == Parse(FromUri(UrnText(d, "epsg", v, id))).value.srid
  {
    LowerOfDigits(id);
    ParseLegacyText(k, id);
    ParseIntOfDigits(id);
    ParseEpsgUrn(d, v, id);
  }

  /** `get_legacy()` re-parses to the same SRID, for every SRID. */
  lemma {:induction false} LegacyRoundTrip(c: Crs)
    ensures Parse(FromUri(GetLegacy(c))).Ok?
    ensures Parse(FromUri(GetLegacy(c))).value.srid == c.srid
  {
    var s := IntToString(c.srid);
    IntToStringNoUpper(c.srid);
    LowerConcat("EPSG:", s);
    LowerOfNoUpper(s);
    assert Lower("EPSG:") == LegacyHeads[0];
    ParseAnyCase(GetLegacy(c), LegacyHeads[0] + s);
    ParseLegacyText(0, s);
    ParseIntOfIntToString(c.srid);
  }

  /** The CRS values `get_urn()` is meant to describe exactly: what the URN
      branch produces, and integer or legacy inputs with a digit id. */
  predicate Canonical(c: Crs) {
    && (c.domain == "ogc" || c.domain == "opengis")
    && (c.version.None? || IsVersion(c.version.value))
    && (|| (c.authority == "EPSG" && AllDigits(c.crsid) && c.srid == DigitsToNat(c.crsid))
        || (c.authority == "OGC" && c.crsid == Crs84 && c.srid == Wgs84Srid))
  }

  /** Every CRS parsed from an integer >= 0 is canonical. */
  lemma SridIsCanonical(n: nat)
    ensures Canonical(Parse(FromSrid(n)).value)
  {
    NatToStringValue(n);
    DefaultVersionIsVersion();
  }

  lemma DefaultVersionIsVersion()
    ensures IsVersion(DefaultEpsgVersion)
  {
    assert AllDigits("6") && AllDigits("9");
    VersionTwoParts("6", "9");
    assert "6" + "." + "9" == DefaultEpsgVersion;
  }

  /** Every CRS parsed from a URN is canonical. */
  lemma {:induction false} UrnIsCanonical(m: UrnMatch)
    requires IsWord(m.authority) && (m.version.None? || IsVersion(m.version.value)) && IsUrnId(m.id)
    requires FromUrn(m).Ok?
    ensures Canonical(FromUrn(m).value)
  {
    UpperOfWord(m.authority);
    if Upper(m.authority) == "EPSG" {
      if AllDigits(m.id) {
        ParseIntOfDigits(m.id);
      } else {
        Crs84IsNoInteger();
      }
    }
  }

  /** The corrected rendering re-parses to the very same CRS. */
  lemma {:induction false} UrnRoundTripFixed(c: Crs)
    requires Canonical(c)
    ensures Parse(FromUri(GetUrnFixed(c))) == Ok(c)
  {
    var v := if c.version.Some? then c.version.value else "";
    RoundTripCommon(c, v);
  }

  /** The rendering as written round-trips whenever a version is present. */
  lemma {:induction false} UrnRoundTripWithVersion(c: Crs)
    requires Canonical(c) && c.version.Some?
    ensures Parse(FromUri(GetUrn(c))) == Ok(c)
  {
    RoundTripCommon(c, c.version.value);
  }

  /** The rendering as written loses every canonical CRS without a version:
      "None" is written where the version was, and the result no longer
      parses. */
  lemma {:induction false} UrnWithoutVersionDoesNotRoundTrip(c: Crs)
    requires Canonical(c) && c.version.None?
    ensures Parse(FromUri(GetUrn(c))) == Err(UnknownUri)
    ensures Parse(FromUri(GetUrnFixed(c))) == Ok(c)
  {
    assert Lower("None") == "none";
    assert !IsVersion("none") by {
      assert '.' !in "none";
      assert Split("none", '.') == ["none"];
    }
    IdOfCanonical(c);
    ParseUrnText(c.domain, c.authority, "None", c.crsid);
    UrnRoundTripFixed(c);
  }

  /** The concrete instance: `urn:ogc:def:crs:epsg::4258` parses, and its
      `get_urn()` is `urn:ogc:def:crs:EPSG:None:4258`. */
  lemma UrnWithoutVersionExample()
    ensures Parse(FromUri(UrnText("ogc", "epsg", "", "4258"))) == Ok(Crs("ogc", "EPSG", None, "4258", 4258))
    ensures GetUrn(Crs("ogc", "EPSG", None, "4258", 4258)) == UrnText("ogc", "EPSG", "None", "4258")
  {
    ValueOf4258();
    ParseEpsgUrn("ogc", "", "4258");
  }

  lemma ValueOf4258()
    ensures AllDigits("4258") && DigitsToNat("4258") == 4258
  {
    assert "4258"[..3] == "425" && "425"[..2] == "42" && "42"[..1] == "4" && "4"[..0] == "";
    assert DigitsToNat("4") == 4;
    assert DigitsToNat("42") == 42;
    assert DigitsToNat("425") == 425;
  }

  /** Outside the canonical domain neither rendering round-trips: an EPSG
      id that starts with a sign or with whitespace, which `int()` accepts
      but the id group of the URN expression does not, makes the rendered
      URN unparseable. */
  lemma {:induction false} SignedIdDoesNotRoundTrip(c: Crs)
    requires c.domain == "ogc" && c.authority == "EPSG" && c.version == Some(DefaultEpsgVersion)
    requires |c.crsid| > 0 && (c.crsid[0] == '-' || c.crsid[0] == '+' || IsSpace(c.crsid[0]))
    requires ':' !in c.crsid && '\n' !in c.crsid
    ensures Parse(FromUri(GetUrn(c))) == Err(UnknownUri)
    ensures Parse(FromUri(GetUrnFixed(c))) == Err(UnknownUri)
  {
    assert Lower(c.crsid)[0] == c.crsid[0];
    assert !IsDigit(Lower(c.crsid)[0]);
    assert Lower(c.crsid) != "crs84" by {
      assert "crs84"[0] == 'c';
    }
    assert ':' !in DefaultEpsgVersion;
    ParseUrnText(c.domain, c.authority, DefaultEpsgVersion, c.crsid);
  }

  /** `CRS(n)` for a negative `n` renders an id with a minus sign, so its
      URN does not parse back, while its legacy form does. */
  lemma NegativeSridDoesNotRoundTrip(n: int)
    requires n < 0
    ensures var c := Parse(FromSrid(n)).value;
            && Parse(FromUri(GetUrn(c))) == Err(UnknownUri)
            && Parse(FromUri(GetLegacy(c))).Ok? && Parse(FromUri(GetLegacy(c))).value.srid == n
  {
    var c := Parse(FromSrid(n)).value;
    var digits := NatToString(-n);
    assert c.crsid == "-" + digits;
    DigitsNoColon(digits);
    assert ':' !in c.crsid && '\n' !in c.crsid;
    LegacyRoundTrip(c);
    SignedIdDoesNotRoundTrip(c);
  }

  /** A legacy id with a plus sign, such as `EPSG:+4326`, is accepted with
      the value of its digits, but the id keeps the sign, so its URN does
      not parse back. */
  lemma PlusSignLegacyDoesNotRoundTrip(k: nat, digits: string)
    requires k < |LegacyHeads| && AllDigits(digits) && |digits| > 0
    ensures var r := Parse(FromUri(LegacyHeads[k] + ("+" + digits)));
            && r.Ok? && r.value.srid == DigitsToNat(digits) && r.value.crsid == "+" + digits
            && Parse(FromUri(GetUrn(r.value))) == Err(UnknownUri)
  {
    var id := "+" + digits;
    ParseIntOfPlus(id, digits);
    ParseLegacyText(k, id);
    DigitsNoColon(digits);
    assert ':' !in id && '\n' !in id;
    SignedIdDoesNotRoundTrip(Crs("ogc", "EPSG", Some(DefaultEpsgVersion), id, DigitsToNat(digits)));
  }

  // ---------------------------------------------------------------------
  // Helper lemmas
  // ---------------------------------------------------------------------

  /** A canonical id has neither colon nor newline, and lower-cases to
      the text the URN expression expects. */
  lemma IdOfCanonical(c: Crs)
    requires Canonical(c)
    ensures ':' !in c.crsid && '\n' !in c.crsid
    ensures c.authority == "EPSG" ==> Lower(c.crsid) == c.crsid
    ensures c.authority == "OGC" ==> Lower(c.crsid) == "crs84"
  {
    if c.authority == "EPSG" {
      DigitsNoColon(c.crsid);
      LowerOfDigits(c.crsid);
    }
  }

  lemma {:induction false} RoundTripCommon(c: Crs, v: string)
    requires Canonical(c)
    requires v == (if c.version.Some? then c.version.value else "")
    ensures Parse(FromUri(UrnText(c.domain, c.authority, v, c.crsid))) == Ok(c)
  {
    CharsOfVersion(v);
    LowerOfDigits(v);
    IdOfCanonical(c);
    assert VersionGroup(v) == c.version;
    var a := Lower(c.authority);
    LowerOfLiterals();
    LowerUrnText(c.domain, c.authority, v, c.crsid);
    ParseAnyCase(UrnText(c.domain, c.authority, v, c.crsid), UrnText(c.domain, a, v, Lower(c.crsid)));
    if c.authority == "EPSG" {
      assert a == "epsg";
      ParseEpsgUrn(c.domain, v, c.crsid);
    } else {
      assert a == "ogc";
      ParseOgcUrn(c.domain, v, "crs84");
    }
  }

  /** Digits and dots only: what `IsVersion` admits, and the empty string. */
  predicate DigitsOrDots(s: string) {
    forall i :: 0 <= i < |s| ==> IsDigit(s[i]) || s[i] == '.'
  }

  lemma {:induction false} CharsOfVersion(v: string)
    requires v == "" || IsVersion(v)
    ensures DigitsOrDots(v)
    ensures ':' !in v
  {
    if v != "" {
      var ps := Split(v, '.');
      JoinSplit(v, '.');
      JoinOfDigitParts(ps);
    }
  }

  lemma {:induction false} JoinOfDigitParts(ps: seq<string>)
    requires forall i :: 0 <= i < |ps| ==> AllDigits(ps[i])
    ensures DigitsOrDots(Join(ps, "."))
    decreases |ps|
  {
    if |ps| > 1 {
      JoinOfDigitParts(ps[1..]);
      var rest := Join(ps[1..], ".");
      assert Join(ps, ".") == ps[0] + "." + rest;
    }
  }

  lemma LowerOfDigits(s: string)
    requires DigitsOrDots(s)
    ensures Lower(s) == s
  {
  }

  lemma DigitsNoColon(s: string)
    requires AllDigits(s)
    ensures ':' !in s && '\n' !in s && DigitsOrDots(s)
  {
  }

  lemma UpperOfDigits(s: string)
    requires AllDigits(s)
    ensures Upper(s) == s
  {
  }

  lemma WordFacts(w: string)
    requires IsWord(w)
    ensures Lower(w) == w && ':' !in w
  {
  }

  lemma VersionTwoParts(a: string, b: string)
    requires AllDigits(a) && AllDigits(b)
    ensures IsVersion(a + "." + b)
  {
    SplitJoin([a, b], '.');
    assert Join([a, b], ".") == a + "." + b;
  }

  /** The text before the first colon of each legacy prefix. */
  function LegacyScheme(k: nat): string {
    if k == 0 then "epsg" else "http"
  }

  lemma LegacySchemeIsPrefix(l: string, k: nat)
    requires k < |LegacyHeads| && StartsWith(l, LegacyHeads[k])
    ensures StartsWith(l, LegacyScheme(k) + ":")
  {
    LegacyHeadsBySchemes();
    if k == 0 {
      StartsWithPrefix(l, "epsg:", "");
    } else if k == 1 {
      StartsWithPrefix(l, "http:", "//www.opengis.net/def/crs/epsg/0/");
    } else {
      StartsWithPrefix(l, "http:", "//www.opengis.net/gml/srs/epsg.xml#");
    }
  }

  lemma LegacyHeadsBySchemes()
    ensures LegacyHeads[0] == "epsg:" + ""
    ensures LegacyHeads[1] == "http:" + "//www.opengis.net/def/crs/epsg/0/"
    ensures LegacyHeads[2] == "http:" + "//www.opengis.net/gml/srs/epsg.xml#"
  {
  }

  /** A string starting with a legacy prefix is not a URN: its first
      colon-separated field is "epsg" or "http". */
  lemma {:induction false} NotUrnByFirstField(l: string, k: nat)
    requires k < |LegacyHeads| && StartsWith(l, LegacyHeads[k])
    ensures MatchUrn(l) == None
  {
    var w := LegacyScheme(k);
    LegacySchemeIsPrefix(l, k);
    FirstFieldOf(l, w);
    if |l| > 0 && l[|l| - 1] == '\n' {
      var l' := l[..|l| - 1];
      assert l[|w|] == l[..|w| + 1][|w|] == ':';
      assert l'[..|w| + 1] == l[..|w| + 1];
      FirstFieldOf(l', w);
    }
  }

  lemma FirstFieldOf(l: string, w: string)
    requires StartsWith(l, w + ":") && ':' !in w && w != "urn"
    ensures MatchWhole(l) == None
  {
    assert l[|w|] == ':';
    var i := IndexOf(l, ':');
    assert l[..|w|] == w;
    assert i == |w|;
    assert Split(l, ':')[0] == w;
  }
}
