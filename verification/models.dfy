/** The pure helpers of the persisted configuration, wfs/models.py: the
    comma-separated list fields, the choice of the first geometry field,
    the field-list reset on save, the service URL and the text form of a
    bounding box. The database rows are plain values here; the model
    classes a feature type points to appear only through a field
    classifier. */
module Models {
  import opened Wrappers
  import opened Strings

  // ---------------------------------------------------------------------
  // split_comma_separated
  // ---------------------------------------------------------------------

  predicate NoLeadingSpace(p: string) {
    |p| == 0 || !IsSpace(p[0])
  }

  predicate NoTrailingSpace(p: string) {
    |p| == 0 || !IsSpace(p[|p| - 1])
  }

  /** One part of `re.split("\s*,\s*", s)`, given the part `part` that
      `s.split(",")` yields at position `i` of `n`. The pattern always
      consumes a comma, so its leftmost match starts at the whitespace run
      just before a comma and, being greedy, ends after the whitespace run
      just behind it; the search then resumes after the match. A part thus
      loses its trailing whitespace when a comma follows it and its leading
      whitespace when a comma precedes it. */
  function TrimPart(part: string, i: nat, n: nat): (r: string)
    ensures i > 0 ==> NoLeadingSpace(r)
    ensures i + 1 < n ==> NoTrailingSpace(r)
    ensures NoLeadingSpace(part) ==> NoLeadingSpace(r)
    ensures NoTrailingSpace(part) ==> NoTrailingSpace(r)
    ensures ',' !in part ==> ',' !in r
  {
    TrimPartFacts(part, i, n, ',');
    TrimBack(TrimFront(part, i > 0), i + 1 < n)
  }

  /** The leading whitespace removed, when `on`. */
  function TrimFront(p: string, on: bool): string {
    if on then StripStart(p) else p
  }

  /** The trailing whitespace removed, when `on`. */
  function TrimBack(p: string, on: bool): string {
    if on then StripEnd(p) else p
  }

  /** Trimming the front keeps a suffix, which ends as the part does. */
  lemma TrimFrontFacts(p: string, on: bool, c: char)
    ensures var a := TrimFront(p, on);
            && (on ==> NoLeadingSpace(a))
            && (NoLeadingSpace(p) ==> NoLeadingSpace(a))
            && (NoTrailingSpace(p) ==> NoTrailingSpace(a))
            && (c !in p ==> c !in a)
  {
    var a := TrimFront(p, on);
    assert |a| <= |p| && a == p[|p| - |a|..];
    if |a| > 0 {
      assert a[|a| - 1] == p[|p| - 1];
    }
    if c !in p {
      SliceFree(p, c, |p| - |a|, |p|);
    }
  }

  /** Trimming the back keeps a prefix, which starts as the part does. */
  lemma TrimBackFacts(p: string, on: bool, c: char)
    ensures var b := TrimBack(p, on);
            && (on ==> NoTrailingSpace(b))
            && (NoTrailingSpace(p) ==> NoTrailingSpace(b))
            && (NoLeadingSpace(p) ==> NoLeadingSpace(b))
            && (c !in p ==> c !in b)
  {
    var b := TrimBack(p, on);
    assert |b| <= |p| && b == p[..|b|];
    if |b| > 0 {
      assert b[0] == p[0];
    }
    if c !in p {
      SliceFree(p, c, 0, |b|);
    }
  }

  /** A trimmed part: unpadded at each end that a comma touched, and
      unpadded wherever the raw part was; it holds no character the raw
      part lacks. */
  lemma TrimPartFacts(part: string, i: nat, n: nat, c: char)
    ensures var r := TrimBack(TrimFront(part, i > 0), i + 1 < n);
            && (i > 0 ==> NoLeadingSpace(r))
            && (i + 1 < n ==> NoTrailingSpace(r))
            && (NoLeadingSpace(part) ==> NoLeadingSpace(r))
            && (NoTrailingSpace(part) ==> NoTrailingSpace(r))
            && (c !in part ==> c !in r)
  {
    TrimFrontFacts(part, i > 0, c);
    TrimBackFacts(TrimFront(part, i > 0), i + 1 < n, c);
  }

  /** A slice of a string without `c` is without `c`. */
  lemma SliceFree(s: string, c: char, lo: nat, hi: nat)
    requires lo <= hi <= |s| && c !in s
    ensures c !in s[lo..hi]
  {
    var t := s[lo..hi];
    assert forall k :: 0 <= k < |t| ==> t[k] == s[lo + k];
  }

  /** Every part trimmed according to its position. */
  function TrimParts(parts: seq<string>): (r: seq<string>)
    ensures |r| == |parts|
    ensures forall i :: 0 <= i < |r| ==> r[i] == TrimPart(parts[i], i, |r|)
  {
    seq(|parts|, i requires 0 <= i < |parts| => TrimPart(parts[i], i, |parts|))
  }

  /** `re.split("\s*,\s*", s)` */
  function ReSplitComma(s: string): (r: seq<string>)
    ensures |r| == |Split(s, ',')|
  {
    TrimParts(Split(s, ','))
  }

  /** `split_comma_separated(value)`: the stripped value cut at its commas,
      no part carrying whitespace at either end; a blank value gives no
      parts at all. */
  function SplitCommaSeparated(value: string): (r: seq<string>)
    ensures r == [] <==> AllSpace(value)
    ensures r != [] ==> |r| == CountChar(value, ',') + 1
    ensures forall i :: 0 <= i < |r| ==> ',' !in r[i] && NoLeadingSpace(r[i]) && NoTrailingSpace(r[i])
  {
    var s := Strip(value);
    StripEmptyIffAllSpace(value);
    if s == "" then []
    else
      CountCharStrip(value, ',');
      SplitCount(s, ',');
      ReSplitUnpadded(s);
      var r := ReSplitComma(s);
      r
  }

  /** Splitting an unpadded string leaves every part unpadded. */
  lemma ReSplitUnpadded(s: string)
    requires NoLeadingSpace(s) && NoTrailingSpace(s)
    ensures var r := ReSplitComma(s);
            forall i :: 0 <= i < |r| ==> ',' !in r[i] && NoLeadingSpace(r[i]) && NoTrailingSpace(r[i])
  {
    SplitPartsFree(s, ',');
    FirstPartUnpadded(s, ',');
    LastPartUnpadded(s, ',');
    TrimPartsUnpadded(Split(s, ','));
  }

  /** Parts free of commas, the first not starting and the last not ending
      in whitespace, are trimmed to unpadded parts. */
  lemma TrimPartsUnpadded(parts: seq<string>)
    requires |parts| > 0 && NoLeadingSpace(parts[0]) && NoTrailingSpace(Last(parts))
    requires forall i :: 0 <= i < |parts| ==> ',' !in parts[i]
    ensures var r := TrimParts(parts);
            forall i :: 0 <= i < |r| ==> ',' !in r[i] && NoLeadingSpace(r[i]) && NoTrailingSpace(r[i])
  {
    var r := TrimParts(parts);
    forall i | 0 <= i < |r| ensures ',' !in r[i] && NoLeadingSpace(r[i]) && NoTrailingSpace(r[i]) {
      assert i + 1 == |parts| ==> parts[i] == Last(parts);
    }
  }

  lemma FirstPartUnpadded(s: string, c: char)
    requires NoLeadingSpace(s)
    ensures NoLeadingSpace(Split(s, c)[0])
  {
    SplitFirstIsPrefix(s, c);
    var p := Split(s, c)[0];
    if |p| > 0 {
      assert p[0] == s[0];
    }
  }

  function Last(parts: seq<string>): string
    requires |parts| > 0
  {
    parts[|parts| - 1]
  }

  lemma LastOfCons(a: string, rest: seq<string>)
    requires |rest| > 0
    ensures Last([a] + rest) == Last(rest)
  {
  }

  /** What follows a separator ends where the whole string ends. */
  lemma AfterSeparatorUnpadded(s: string, c: char)
    requires NoTrailingSpace(s) && c in s
    ensures NoTrailingSpace(s[IndexOf(s, c) + 1..])
  {
  }

  lemma {:induction false} LastPartUnpadded(s: string, c: char)
    requires NoTrailingSpace(s)
    ensures NoTrailingSpace(Last(Split(s, c)))
    decreases |s|
  {
    if c in s {
      var i := IndexOf(s, c);
      AfterSeparatorUnpadded(s, c);
      LastPartUnpadded(s[i + 1..], c);
      SplitStep(s, c);
      LastOfCons(s[..i], Split(s[i + 1..], c));
    }
  }

  /** The first part of a split is a prefix of the string. */
  lemma SplitFirstIsPrefix(s: string, c: char)
    ensures var parts := Split(s, c);
            |parts[0]| <= |s| && parts[0] == s[..|parts[0]|]
  {
  }

  /** Stripping removes only whitespace, never a comma. */
  lemma CountCharStrip(value: string, ch: char)
    requires !IsSpace(ch)
    ensures CountChar(Strip(value), ch) == CountChar(value, ch)
  {
    var k := LeadingSpace(value);
    var r := Strip(value);
    SpaceFree(value, ch, 0, k);
    SpaceFree(value, ch, k + |r|, |value|);
    CountInfix(value, k, k + |r|, ch);
  }

  /** An infix holds every `ch` when the rest holds none. */
  lemma CountInfix(s: string, lo: nat, hi: nat, ch: char)
    requires lo <= hi <= |s| && ch !in s[0..lo] && ch !in s[hi..|s|]
    ensures CountChar(s[lo..hi], ch) == CountChar(s, ch)
  {
    assert s == s[0..lo] + (s[lo..hi] + s[hi..|s|]);
    CountBetween(s[0..lo], s[lo..hi], s[hi..|s|], ch);
  }

  lemma CountBetween(front: string, r: string, back: string, ch: char)
    requires ch !in front && ch !in back
    ensures CountChar(front + (r + back), ch) == CountChar(r, ch)
  {
    CountCharConcat(front, r + back, ch);
    CountCharConcat(r, back, ch);
    CountCharAbsent(front, ch);
    CountCharAbsent(back, ch);
  }

  /** A run of whitespace holds no other character. */
  lemma SpaceFree(s: string, ch: char, lo: nat, hi: nat)
    requires lo <= hi <= |s| && !IsSpace(ch)
    requires forall i :: lo <= i < hi ==> IsSpace(s[i])
    ensures ch !in s[lo..hi]
  {
    var t := s[lo..hi];
    assert forall k :: 0 <= k < |t| ==> t[k] == s[lo + k];
  }

  /** Each part stripped on its own. */
  function StripAll(parts: seq<string>): (r: seq<string>)
    ensures |r| == |parts|
    ensures forall i :: 0 <= i < |parts| ==> r[i] == Strip(parts[i])
  {
    seq(|parts|, i requires 0 <= i < |parts| => Strip(parts[i]))
  }

  /** The regular-expression split agrees with the plain reading of the
      docstring: strip the value, split it at every comma, strip every
      part. */
  lemma SplitCommaSeparatedIsStripSplit(value: string)
    requires !AllSpace(value)
    ensures SplitCommaSeparated(value) == StripAll(Split(Strip(value), ','))
  {
    StripEmptyIffAllSpace(value);
    var parts := Split(Strip(value), ',');
    var r := SplitCommaSeparated(value);
    assert r == TrimParts(parts);
    TrimPartsAreStrips(parts);
  }

  /** Trimmed parts that came out unpadded are the stripped parts. */
  lemma TrimPartsAreStrips(parts: seq<string>)
    requires forall i :: 0 <= i < |parts| ==>
               NoLeadingSpace(TrimParts(parts)[i]) && NoTrailingSpace(TrimParts(parts)[i])
    ensures TrimParts(parts) == StripAll(parts)
  {
    var r := TrimParts(parts);
    forall i | 0 <= i < |r| ensures r[i] == Strip(parts[i]) {
      TrimPartIsStrip(parts[i], i, |parts|);
    }
  }

  /** A part that is already unpadded where `TrimPart` leaves it alone is
      stripped exactly as `str.strip` would. */
  lemma TrimPartIsStrip(part: string, i: nat, n: nat)
    requires NoLeadingSpace(TrimPart(part, i, n)) && NoTrailingSpace(TrimPart(part, i, n))
    ensures TrimPart(part, i, n) == Strip(part)
  {
    var r := TrimPart(part, i, n);
    if i == 0 && |part| > 0 && IsSpace(part[0]) {
      // only the trailing end was trimmed, and nothing but whitespace is left
      assert r == StripEnd(part) && |r| == 0;
      assert AllSpace(part);
      StripEmptyIffAllSpace(part);
    } else {
      assert StripStart(part) == (if i > 0 then StripStart(part) else part);
      if i + 1 >= n {
        StripUnpadded(r);
      }
    }
  }

  // ---------------------------------------------------------------------
  // Rows
  // ---------------------------------------------------------------------

  /** What calling a method on a missing (null) column raises. */
  datatype ModelError =
    | NoneHasNoAttribute(attribute: string)
    | FieldDoesNotExist(name: string)
    | DoesNotExist(pk: nat)

  /** A `Service` row; the nullable columns are options. */
  datatype Service = Service(
    pk: nat,
    name: string,
    title: string,
    keywords: Option<string>,
    abstractText: Option<string>,
    fees: Option<string>,
    accessConstraints: Option<string>)

  /** A `FeatureType` row. `model` names the content type of the Django
      model, or is absent for a raw SQL feature type; `pk` is absent until
      the row was first saved. */
  datatype FeatureType = FeatureType(
    pk: Option<nat>,
    name: string,
    title: Option<string>,
    keywords: Option<string>,
    abstractText: Option<string>,
    srs: string,
    othersrs: Option<string>,
    model: Option<nat>,
    fields: Option<string>,
    query: string)

  /** `split_comma_separated` of a nullable column: `None.strip()` raises. */
  function SplitColumn(column: Option<string>): (r: Result<seq<string>, ModelError>)
    ensures r.Ok? <==> column.Some?
    ensures r.Ok? ==> r.value == SplitCommaSeparated(column.value)
    ensures r.Err? ==> r.error == NoneHasNoAttribute("strip")
  {
    match column
    case None => Err(NoneHasNoAttribute("strip"))
    case Some(v) => Ok(SplitCommaSeparated(v))
  }

  /** `Service.get_keywords_list` */
  function ServiceKeywords(s: Service): (r: Result<seq<string>, ModelError>)
    ensures r.Ok? <==> s.keywords.Some?
    ensures r.Err? ==> r.error == NoneHasNoAttribute("strip")
    ensures r.Ok? ==> (r.value == [] <==> AllSpace(s.keywords.value))
    ensures r.Ok? ==> forall i :: 0 <= i < |r.value| ==> ',' !in r.value[i] && NoLeadingSpace(r.value[i]) && NoTrailingSpace(r.value[i])
  {
    SplitColumn(s.keywords)
  }

  /** `FeatureType.get_keywords_list` */
  function FeatureTypeKeywords(ft: FeatureType): (r: Result<seq<string>, ModelError>)
    ensures r.Ok? <==> ft.keywords.Some?
    ensures r.Err? ==> r.error == NoneHasNoAttribute("strip")
    ensures r.Ok? ==> (r.value == [] <==> AllSpace(ft.keywords.value))
    ensures r.Ok? ==> forall i :: 0 <= i < |r.value| ==> ',' !in r.value[i] && NoLeadingSpace(r.value[i]) && NoTrailingSpace(r.value[i])
  {
    SplitColumn(ft.keywords)
  }

  /** `FeatureType.get_other_srs_names` */
  function OtherSrsNames(ft: FeatureType): (r: Result<seq<string>, ModelError>)
    ensures r.Ok? <==> ft.othersrs.Some?
    ensures r.Err? ==> r.error == NoneHasNoAttribute("strip")
    ensures r.Ok? ==> (r.value == [] <==> AllSpace(ft.othersrs.value))
    ensures r.Ok? ==> forall i :: 0 <= i < |r.value| ==> ',' !in r.value[i] && NoLeadingSpace(r.value[i]) && NoTrailingSpace(r.value[i])
  {
    SplitColumn(ft.othersrs)
  }

  // ---------------------------------------------------------------------
  // find_first_geometry_field
  // ---------------------------------------------------------------------

  /** What the model's `_meta.get_field(name)` finds. */
  datatype FieldKind = Missing | Plain | Geometry

  /** Position `i` holds the first name of kind `kind`, and every name
      before it is a plain field. */
  predicate FirstOfKind(names: seq<string>, classify: string -> FieldKind, i: int, kind: FieldKind) {
    && 0 <= i < |names|
    && classify(names[i]) == kind
    && forall j :: 0 <= j < i ==> classify(names[j]) == Plain
  }

  /** The outcome of looking `names` up in order: the first geometry field,
      the first name the model lacks, or nothing when all are plain. */
  function FirstGeometry(names: seq<string>, classify: string -> FieldKind): (r: Result<Option<string>, ModelError>)
    ensures r == Ok(None) <==> forall j :: 0 <= j < |names| ==> classify(names[j]) == Plain
    ensures r.Ok? && r.value.Some? ==>
              exists i :: FirstOfKind(names, classify, i, Geometry) && names[i] == r.value.value
    ensures r.Err? ==>
              exists i :: FirstOfKind(names, classify, i, Missing) && r.error == FieldDoesNotExist(names[i])
    decreases |names|
  {
    if |names| == 0 then Ok(None)
    else
      match classify(names[0])
      case Missing =>
        assert FirstOfKind(names, classify, 0, Missing);
        Err(FieldDoesNotExist(names[0]))
      case Geometry =>
        assert FirstOfKind(names, classify, 0, Geometry);
        Ok(Some(names[0]))
      case Plain =>
        var r := FirstGeometry(names[1..], classify);
        FirstOfKindShift(names, classify);
        r
  }

  /** Behind a plain first name, first positions move up by one. */
  lemma FirstOfKindShift(names: seq<string>, classify: string -> FieldKind)
    requires |names| > 0 && classify(names[0]) == Plain
    ensures forall i, kind :: FirstOfKind(names[1..], classify, i, kind) ==> FirstOfKind(names, classify, i + 1, kind)
    ensures (forall j :: 0 <= j < |names[1..]| ==> classify(names[1..][j]) == Plain)
            <==> (forall j :: 0 <= j < |names| ==> classify(names[j]) == Plain)
  {
    forall i, kind | FirstOfKind(names[1..], classify, i, kind)
      ensures FirstOfKind(names, classify, i + 1, kind)
    {
      forall j | 0 <= j < i + 1 ensures classify(names[j]) == Plain {
        if j > 0 {
          assert names[j] == names[1..][j - 1];
        }
      }
    }
    if forall j :: 0 <= j < |names[1..]| ==> classify(names[1..][j]) == Plain {
      forall j | 0 <= j < |names| ensures classify(names[j]) == Plain {
        if j > 0 {
          assert names[j] == names[1..][j - 1];
        }
      }
    }
  }

  /** `find_first_geometry_field`: scans the raw comma-split of `fields`
      (the parts are not stripped) and returns the first geometry field.
      Looking a name up raises when the model has no such field, and
      looking anything up raises when the feature type has no model. */
  method FindFirstGeometryField(ft: FeatureType, classify: string -> FieldKind)
    returns (r: Result<Option<string>, ModelError>)
    ensures ft.fields.None? ==> r == Err(NoneHasNoAttribute("split"))
    ensures ft.fields.Some? && ft.model.None? ==> r == Err(NoneHasNoAttribute("model_class"))
    ensures ft.fields.Some? && ft.model.Some? ==> r == FirstGeometry(Split(ft.fields.value, ','), classify)
  {
    if ft.fields.None? {
      return Err(NoneHasNoAttribute("split"));
    }
    if ft.model.None? {
      return Err(NoneHasNoAttribute("model_class"));
    }
    var names := Split(ft.fields.value, ',');
    var k := 0;
    while k < |names|
      invariant 0 <= k <= |names|
      invariant FirstGeometry(names[k..], classify) == FirstGeometry(names, classify)
    {
      var kind := classify(names[k]);
      assert names[k..][0] == names[k];
      if kind == Missing {
        return Err(FieldDoesNotExist(names[k]));
      } else if kind == Geometry {
        return Ok(Some(names[k]));
      }
      assert names[k..][1..] == names[k + 1..];
      k := k + 1;
    }
    return Ok(None);
  }

  // ---------------------------------------------------------------------
  // FeatureType.save
  // ---------------------------------------------------------------------

  /** `FeatureType.save` before the row is written: a row that exists
      already and whose model changed loses its field list. `stored` is the
      row as the database holds it under `ft.pk`, if any. */
  function Save(ft: FeatureType, stored: Option<FeatureType>): (r: Result<FeatureType, ModelError>)
    ensures ft.pk.Some? && stored.None? ==> r == Err(DoesNotExist(ft.pk.value))
    ensures r.Ok? ==> r.value.(fields := ft.fields) == ft
    ensures r.Ok? ==> (r.value.fields != ft.fields ==> r.value.fields == Some(""))
    ensures r.Ok? ==> (r.value.fields == ft.fields <==>
                         ft.pk.None? || stored.value.model == ft.model || ft.fields == Some(""))
  {
    if ft.pk.None? then Ok(ft)
    else if stored.None? then Err(DoesNotExist(ft.pk.value))
    else if stored.value.model != ft.model then Ok(ft.(fields := Some("")))
    else Ok(ft)
  }

  /** Saving the saved row again changes nothing. */
  lemma SaveIdempotent(ft: FeatureType, stored: FeatureType)
    requires ft.pk.Some? && Save(ft, Some(stored)).Ok?
    ensures var saved := Save(ft, Some(stored)).value;
            Save(saved, Some(saved)) == Ok(saved)
  {
  }

  // ---------------------------------------------------------------------
  // Service.online_resource and BoundingBox.__str__
  // ---------------------------------------------------------------------

  /** `Service.online_resource`: the site's domain, given an `http://`
      scheme unless it carries one, followed by the service's path
      `absolutePath` (the URL `reverse` yields). */
  function OnlineResource(domain: string, absolutePath: string): (r: string)
    ensures r == domain + absolutePath || r == "http://" + domain + absolutePath
    ensures r == domain + absolutePath <==> Contains(domain, "://")
  {
    if Contains(domain, "://") then domain + absolutePath
    else "http://" + domain + absolutePath
  }

  /** The resource URL always names a scheme and ends in the path. */
  lemma OnlineResourceHasScheme(domain: string, absolutePath: string)
    ensures Contains(OnlineResource(domain, absolutePath), "://")
    ensures var r := OnlineResource(domain, absolutePath);
            |absolutePath| <= |r| && r[|r| - |absolutePath|..] == absolutePath
  {
    var r := OnlineResource(domain, absolutePath);
    if Contains(domain, "://") {
      ContainsPrefix(domain, absolutePath, "://");
    } else {
      assert r == "http" + "://" + (domain + absolutePath);
      ContainsInfix("http", "://", domain + absolutePath);
    }
  }

  /** Applying the rule to its own result adds nothing more. */
  lemma OnlineResourceStable(domain: string)
    ensures OnlineResource(OnlineResource(domain, ""), "") == OnlineResource(domain, "")
  {
    OnlineResourceHasScheme(domain, "");
  }

  datatype BoundingBox = BoundingBox(minx: string, miny: string, maxx: string, maxy: string)

  /** `BoundingBox.__str__`: `((minx, miny), (maxx, maxy))`. */
  function BoxText(b: BoundingBox): (r: string)
    ensures |r| == |b.minx| + |b.miny| + |b.maxx| + |b.maxy| + 12
  {
    "((" + b.minx + ", " + b.miny + "), (" + b.maxx + ", " + b.maxy + "))"
  }

  /** With comma-free coordinates the text cuts at its commas into the
      four coordinates, each with its bracketing. */
  lemma BoxTextFields(b: BoundingBox)
    requires ',' !in b.minx && ',' !in b.miny && ',' !in b.maxx && ',' !in b.maxy
    ensures Split(BoxText(b), ',') == ["((" + b.minx, " " + b.miny + ")", " (" + b.maxx, " " + b.maxy + "))"]
  {
    var p0 := "((" + b.minx;
    var p1 := " " + b.miny + ")";
    var p2 := " (" + b.maxx;
    var p3 := " " + b.maxy + "))";
    BoxTextShape(b);
    SplitFour(p0, p1, p2, p3);
  }

  lemma BoxTextShape(b: BoundingBox)
    ensures BoxText(b) == ("((" + b.minx) + [','] + ((" " + b.miny + ")") + [','] + ((" (" + b.maxx) + [','] + (" " + b.maxy + "))")))
  {
  }

  lemma ConsFour(a: string, b: string, c: string, d: string)
    ensures [a] + ([b] + ([c] + [d])) == [a, b, c, d]
  {
  }

  /** Four comma-free parts joined by commas split back into themselves. */
  lemma SplitFour(p0: string, p1: string, p2: string, p3: string)
    requires ',' !in p0 && ',' !in p1 && ',' !in p2 && ',' !in p3
    ensures Split(p0 + [','] + (p1 + [','] + (p2 + [','] + p3)), ',') == [p0, p1, p2, p3]
  {
    SplitCons(p0, p1 + [','] + (p2 + [','] + p3), ',');
    SplitCons(p1, p2 + [','] + p3, ',');
    SplitCons(p2, p3, ',');
    SplitWhole(p3, ',');
    ConsFour(p0, p1, p2, p3);
  }
}
