/** The statements the GetFeature view of wfs/views.py prepares for a
    feature type backed by a raw SQL query (a type without a model): the
    stored query is parsed, its `shape` entry is wrapped in `ST_Simplify`
    when a precision is asked for, the resolution filter and a bounding box
    test are added as conditions, and the statement goes to the cursor with
    one argument per `%s`. The numbers are the parsed request values; the
    bounding box is given as the hex EWKB text handed to the cursor. */
module RawQuery {
  import opened Wrappers
  import opened SqlUtils

  /** A value handed to `cursor.execute` next to the SQL text. */
  datatype Arg =
    | Resolution(resolution: Option<real>)
    | Precision(precision: real)
    | FeatureId(fid: int)
    | BoxHex(hex: string)

  /** What goes to the cursor: the statement and its arguments. */
  datatype Plan = Plan(sql: Token, args: seq<Arg>)

  /** The parsed stored query with the positions of its select list and of
      the `shape` and `id` entries in that list. */
  datatype Prepared = Prepared(select: Token, list: nat, shape: nat, id: nat)

  predicate Valid(p: Prepared) {
    && p.select.Group?
    && p.list < |p.select.tokens|
    && IsIdentifierList(p.select.tokens[p.list])
    && p.shape < |p.select.tokens[p.list].tokens|
    && p.id < |p.select.tokens[p.list].tokens|
    && p.select.tokens[p.list].tokens[p.shape].Group?
    && p.select.tokens[p.list].tokens[p.id].Group?
  }

  function ShapeOf(p: Prepared): Token
    requires Valid(p)
  {
    p.select.tokens[p.list].tokens[p.shape]
  }

  function IdOf(p: Prepared): Token
    requires Valid(p)
  {
    p.select.tokens[p.list].tokens[p.id]
  }

  /** Only a group has a name. */
  lemma NamedIsGroup(t: Token, alias: string)
    requires NamedAs(t, alias)
    ensures t.Group?
  {
    if t.Leaf? {
      LeafUnnamed(t);
    }
  }

  lemma LeafUnnamed(t: Token)
    requires t.Leaf?
    ensures GetName(t) == None
  {
    assert GetAlias(t) == None && GetRealName(t) == None;
  }

  /** `parse_single(ft.query)`, `get_identifiers`, and `find_identifier`
      for `shape` and then `id`; any of them can raise. */
  function Prepare(statements: seq<Token>): (r: Result<Prepared, SqlError>)
    ensures |statements| != 1 ==> r == Err(NotOneStatement(|statements|))
    ensures r.Ok? ==> Valid(r.value) && [r.value.select] == statements
    ensures r.Ok? ==> NamedAs(ShapeOf(r.value), "shape") && NamedAs(IdOf(r.value), "id")
  {
    var select :- ParseSingle(statements);
    if select.Leaf? then Err(NotATokenList)
    else
      var list :- GetIdentifiers(select);
      var ids := select.tokens[list];
      var shape :- FindIdentifier(ids, "shape");
      var id :- FindIdentifier(ids, "id");
      NamedIsGroup(ids.tokens[shape], "shape");
      NamedIsGroup(ids.tokens[id], "id");
      Ok(Prepared(select, list, shape, id))
  }

  /** `replace_identifier(identifiers, shape,
      build_function_call("ST_Simplify", shape, 1, True))`. */
  function Simplified(p: Prepared): (r: Token)
    requires Valid(p)
    ensures r.Group? && r.kind == p.select.kind
  {
    var ids := p.select.tokens[p.list];
    var call := BuildFunctionCall("ST_Simplify", ShapeOf(p), 1, true);
    Group(p.select.kind, p.select.tokens[p.list := ReplaceIdentifier(ids, p.shape, call)])
  }

  function Simplify(p: Prepared, precision: Option<real>): (r: Token)
    requires Valid(p)
    ensures r.Group? && r.kind == p.select.kind
  {
    if precision.Some? then Simplified(p) else p.select
  }

  // ---------------------------------------------------------------------
  // Type names: every feature of a raw type
  // ---------------------------------------------------------------------

  /** The arguments of the type query. The `ST_Simplify` placeholder is
      given the requested resolution, not the precision; without a
      resolution that is SQL NULL. */
  function TypeArgs(precision: Option<real>, resolution: Option<real>, bboxHex: Option<string>): (r: seq<Arg>)
    ensures |r| == (if precision.Some? then 1 else 0) + (if bboxHex.Some? then 1 else 0)
  {
    (if precision.Some? then [Resolution(resolution)] else [])
      + (if bboxHex.Some? then [BoxHex(bboxHex.value)] else [])
  }

  /** The statement for one raw feature type under `typename`. The
      resolution filter (the parsed query of the filter chosen for the
      requested resolution, if any) is added only when a resolution is
      given; the bounding box test is built from the original `shape`
      entry, without its alias. */
  function TypePlan(statements: seq<Token>, precision: Option<real>, resolution: Option<real>,
                    resFilter: Option<seq<Token>>, bboxHex: Option<string>): (r: Result<Plan, SqlError>)
    ensures r.Ok? ==> Prepare(statements).Ok?
    ensures r.Ok? ==> |r.value.args| == (if precision.Some? then 1 else 0) + (if bboxHex.Some? then 1 else 0)
    ensures r.Ok? && precision.Some? ==> r.value.args[0] == Resolution(resolution)
    ensures r.Ok? && bboxHex.Some? ==> r.value.args[|r.value.args| - 1] == BoxHex(bboxHex.value)
    ensures r.Ok? ==> forall i :: 0 <= i < |r.value.args| ==> !r.value.args[i].Precision?
    ensures Prepare(statements).Err? ==> r.Err? && r.error == Prepare(statements).error
  {
    var p :- Prepare(statements);
    var s1 := Simplify(p, precision);
    var s2 :- if resolution.Some? && resFilter.Some? then AddCondition(s1, SqlText(resFilter.value)) else Ok(s1);
    var s3 :- if bboxHex.Some? then AddCondition(s2, Built(BuildFunctionCall("ST_Intersects", ShapeOf(p), 1, false)))
              else Ok(s2);
    Ok(Plan(s3, TypeArgs(precision, resolution, bboxHex)))
  }

  /** The type query fails only where the source raises: a stored query
      that is not one statement or lacks a select list or a `shape` or
      `id` entry, or a resolution filter that is not one statement. */
  lemma TypePlanFails(statements: seq<Token>, precision: Option<real>, resolution: Option<real>,
                      resFilter: Option<seq<Token>>, bboxHex: Option<string>)
    ensures TypePlan(statements, precision, resolution, resFilter, bboxHex).Ok?
            <==> Prepare(statements).Ok?
                 && (resolution.Some? && resFilter.Some? ==> ConditionTokens(SqlText(resFilter.value)).Ok?)
  {
  }

  /** A stored query and resolution filter without placeholders of their
      own give a statement with exactly one `%s` per argument. */
  lemma TypePlanParameterised(statements: seq<Token>, precision: Option<real>, resolution: Option<real>,
                              resFilter: Option<seq<Token>>, bboxHex: Option<string>)
    requires PlaceholdersAll(statements) == 0
    requires resFilter.Some? ==> PlaceholdersAll(resFilter.value) == 0
    ensures var r := TypePlan(statements, precision, resolution, resFilter, bboxHex);
            r.Ok? ==> Placeholders(r.value.sql) == |r.value.args|
  {
    var r := TypePlan(statements, precision, resolution, resFilter, bboxHex);
    if r.Ok? {
      var p := Prepare(statements).value;
      CountOne(p.select);
      var s1 := Simplify(p, precision);
      SimplifyCount(p, precision);
      ShapeCount(p);
      var s2 := s1;
      if resolution.Some? && resFilter.Some? {
        s2 := AddCondition(s1, SqlText(resFilter.value)).value;
        AddConditionCount(s1, SqlText(resFilter.value));
        SqlTextCount(resFilter.value);
      }
      if bboxHex.Some? {
        var call := BuildFunctionCall("ST_Intersects", ShapeOf(p), 1, false);
        assert r.value.sql == AddCondition(s2, Built(call)).value;
        AddConditionCount(s2, Built(call));
        assert ConditionTokens(Built(call)).value == call.tokens;
        assert Placeholders(call) == PlaceholdersAll(call.tokens);
        FunctionCallIsParameterised("ST_Intersects", ShapeOf(p), 1, false);
      } else {
        assert r.value.sql == s2;
      }
    }
  }

  /** Without a WHERE clause or `order` in the stored query, the filter
      and the bounding box test end the statement in that order. */
  lemma TypePlanConditionOrder(statements: seq<Token>, precision: Option<real>, resolution: real,
                               filter: seq<Token>, hex: string)
    requires Prepare(statements).Ok?
    requires var ts := Prepare(statements).value.select.tokens;
             FirstFrom(ts, 0, IsWhere).None? && FirstFrom(ts, 0, IsOrder).None?
    requires ConditionTokens(SqlText(filter)).Ok?
    ensures var p := Prepare(statements).value;
            var r := TypePlan(statements, precision, Some(resolution), Some(filter), Some(hex));
            && r.Ok?
            && Render(r.value.sql)
               == Render(Simplify(p, precision)) + " where " + RenderAll(ConditionTokens(SqlText(filter)).value)
                  + " and " + Render(BuildFunctionCall("ST_Intersects", ShapeOf(p), 1, false))
  {
    var p := Prepare(statements).value;
    var s1 := Simplify(p, precision);
    SimplifyKeepsClauses(p, precision);
    var c1 := ConditionTokens(SqlText(filter)).value;
    var call := BuildFunctionCall("ST_Intersects", ShapeOf(p), 1, false);
    assert ConditionTokens(Built(call)).value == call.tokens;
    AddConditionTwice(s1.tokens, c1, call.tokens);
  }

  /** Wrapping `shape` touches only the select list: the positions of a
      WHERE clause and of `order` stay as they were. */
  lemma SimplifyKeepsClauses(p: Prepared, precision: Option<real>)
    requires Valid(p)
    ensures FirstFrom(Simplify(p, precision).tokens, 0, IsWhere) == FirstFrom(p.select.tokens, 0, IsWhere)
    ensures FirstFrom(Simplify(p, precision).tokens, 0, IsOrder) == FirstFrom(p.select.tokens, 0, IsOrder)
  {
    if precision.Some? {
      var ts := p.select.tokens;
      var x := Simplified(p).tokens[p.list];
      assert Simplified(p).tokens == ts[p.list := x];
      FirstFromUpdate(ts, p.list, x, IsWhere, 0);
      FirstFromUpdate(ts, p.list, x, IsOrder, 0);
    }
  }

  lemma {:induction false} FirstFromUpdate(ts: seq<Token>, i: nat, x: Token, q: Token -> bool, from: nat)
    requires i < |ts| && from <= |ts| && !q(ts[i]) && !q(x)
    ensures FirstFrom(ts[i := x], from, q) == FirstFrom(ts, from, q)
    decreases |ts| - from
  {
    if from < |ts| {
      FirstFromUpdate(ts, i, x, q, from + 1);
    }
  }

  // ---------------------------------------------------------------------
  // Feature ids: one feature of a raw type
  // ---------------------------------------------------------------------

  /** The statement the featureid branch prepares: `shape` simplified
      when a precision is asked for, and `id = %s` added. */
  function IdStatement(p: Prepared, precision: Option<real>): (r: Token)
    requires Valid(p)
    ensures r.Group? && r.kind == p.select.kind
  {
    var s1 := Simplify(p, precision);
    Group(s1.kind, AddConditionTokens(s1.tokens, BuildComparison(IdOf(p), "=").tokens))
  }

  /** The arguments of the featureid query: the precision, when given,
      then the feature's number. */
  function IdArgs(precision: Option<real>, fid: int): (r: seq<Arg>)
    ensures |r| == (if precision.Some? then 2 else 1) && r[|r| - 1] == FeatureId(fid)
    ensures precision.Some? ==> r[0] == Precision(precision.value)
  {
    (if precision.Some? then [Precision(precision.value)] else []) + [FeatureId(fid)]
  }

  /** The featureid branch as written: the prepared statement is built
      (and only logged), while the cursor runs the stored query itself. */
  function IdPlanAsWritten(statements: seq<Token>, precision: Option<real>, fid: int): (r: Result<Plan, SqlError>)
    ensures r.Ok? <==> Prepare(statements).Ok?
    ensures r.Ok? ==> [r.value.sql] == statements
    ensures r.Ok? ==> |r.value.args| == if precision.Some? then 2 else 1
    ensures r.Ok? ==> r.value.args[|r.value.args| - 1] == FeatureId(fid)
  {
    var p :- Prepare(statements);
    var logged := IdStatement(p, precision);
    Ok(Plan(p.select, IdArgs(precision, fid)))
  }

  /** The stored query has no `%s` for the feature's number, so the
      cursor gets more arguments than placeholders. */
  lemma IdPlanAsWrittenMismatch(statements: seq<Token>, precision: Option<real>, fid: int)
    requires PlaceholdersAll(statements) == 0
    ensures var r := IdPlanAsWritten(statements, precision, fid);
            r.Ok? ==> Placeholders(r.value.sql) == 0 < |r.value.args|
  {
    var r := IdPlanAsWritten(statements, precision, fid);
    if r.Ok? {
      CountOne(r.value.sql);
    }
  }

  /** The featureid branch running the statement it prepared. */
  function IdPlan(statements: seq<Token>, precision: Option<real>, fid: int): (r: Result<Plan, SqlError>)
    ensures r.Ok? <==> Prepare(statements).Ok?
    ensures r.Ok? ==> |r.value.args| == (if precision.Some? then 2 else 1)
                      && r.value.args[|r.value.args| - 1] == FeatureId(fid)
    ensures r.Ok? && precision.Some? ==> r.value.args[0] == Precision(precision.value)
  {
    var p :- Prepare(statements);
    Ok(Plan(IdStatement(p, precision), IdArgs(precision, fid)))
  }

  /** With the prepared statement run, every argument has its `%s`. */
  lemma IdPlanParameterised(statements: seq<Token>, precision: Option<real>, fid: int)
    requires PlaceholdersAll(statements) == 0
    ensures var r := IdPlan(statements, precision, fid);
            r.Ok? ==> Placeholders(r.value.sql) == |r.value.args|
  {
    var r := IdPlan(statements, precision, fid);
    if r.Ok? {
      var p := Prepare(statements).value;
      CountOne(p.select);
      SimplifyCount(p, precision);
      ShapeCount(p);
      var s1 := Simplify(p, precision);
      var cmp := BuildComparison(IdOf(p), "=");
      ComparisonIsParameterised(IdOf(p), "=");
      assert Placeholders(cmp) == PlaceholdersAll(cmp.tokens);
      PlaceholdersAddCondition(s1.tokens, cmp.tokens);
    }
  }

  // ---------------------------------------------------------------------
  // Counting placeholders through the rewrites
  // ---------------------------------------------------------------------

  lemma PlaceholdersUpdate(ts: seq<Token>, i: nat, x: Token)
    requires i < |ts|
    ensures PlaceholdersAll(ts[i := x]) + Placeholders(ts[i]) == PlaceholdersAll(ts) + Placeholders(x)
  {
    assert ts == ts[..i] + [ts[i]] + ts[i + 1..];
    assert ts[i := x] == ts[..i] + [x] + ts[i + 1..];
    PlaceholdersConcat(ts[..i] + [ts[i]], ts[i + 1..]);
    PlaceholdersConcat(ts[..i], [ts[i]]);
    PlaceholdersConcat(ts[..i] + [x], ts[i + 1..]);
    PlaceholdersConcat(ts[..i], [x]);
    CountOne(ts[i]);
    CountOne(x);
  }

  lemma PlaceholdersReplaceAt(ts: seq<Token>, i: nat, x: Token)
    requires i < |ts|
    ensures PlaceholdersAll(ReplaceAt(ts, i, x)) + Placeholders(ts[i]) == PlaceholdersAll(ts) + Placeholders(x)
  {
    var n := NextSolid(ts, i + 1);
    var a, b, c := ts[..i], ts[i + 1..n], ts[n..];
    assert ts == a + [ts[i]] + b + c;
    assert ReplaceAt(ts, i, x) == a + b + [x] + c;
    PlaceholdersConcat(a + [ts[i]] + b, c);
    PlaceholdersConcat(a + [ts[i]], b);
    PlaceholdersConcat(a, [ts[i]]);
    PlaceholdersConcat(a + b + [x], c);
    PlaceholdersConcat(a + b, [x]);
    PlaceholdersConcat(a, b);
    CountOne(ts[i]);
    CountOne(x);
  }

  /** The `shape` entry holds no more placeholders than its statement. */
  lemma ShapeCount(p: Prepared)
    requires Valid(p)
    ensures Placeholders(ShapeOf(p)) <= Placeholders(p.select)
  {
    var ids := p.select.tokens[p.list];
    PlaceholdersUpdate(p.select.tokens, p.list, Space);
    PlaceholdersUpdate(ids.tokens, p.shape, Space);
  }

  /** Simplifying trades the `shape` entry for a call with one `%s`. */
  lemma SimplifyCount(p: Prepared, precision: Option<real>)
    requires Valid(p)
    ensures Placeholders(Simplify(p, precision)) + (if precision.Some? then Placeholders(ShapeOf(p)) else 0)
            == Placeholders(p.select) + (if precision.Some? then 1 else 0)
  {
    if precision.Some? {
      var ts := p.select.tokens;
      var ids := ts[p.list];
      var call := BuildFunctionCall("ST_Simplify", ShapeOf(p), 1, true);
      var list := ReplaceIdentifier(ids, p.shape, call);
      PlaceholdersUpdate(ts, p.list, list);
      PlaceholdersReplaceAt(ids.tokens, p.shape, call);
      FunctionCallIsParameterised("ST_Simplify", ShapeOf(p), 1, true);
    }
  }

  /** Adding a condition adds its placeholders and no others. */
  lemma PlaceholdersAddCondition(ts: seq<Token>, cond: seq<Token>)
    ensures PlaceholdersAll(AddConditionTokens(ts, cond)) == PlaceholdersAll(ts) + PlaceholdersAll(cond)
  {
    CountThree(Space, Leaf(Keyword, "and"), Space);
    CountTwo(Leaf(Keyword, "where"), Space);
    match FirstFrom(ts, 0, IsWhere)
    case Some(w) =>
      var clause := ts[w].tokens + AndSeparator + cond;
      PlaceholdersUpdate(ts, w, Group(Where, clause));
      PlaceholdersConcat(ts[w].tokens + AndSeparator, cond);
      PlaceholdersConcat(ts[w].tokens, AndSeparator);
    case None =>
      var clause := Group(Where, WherePrefix + cond);
      PlaceholdersConcat(WherePrefix, cond);
      match FirstFrom(ts, 0, IsOrder)
      case Some(k) =>
        assert ts == ts[..k] + ts[k..];
        PlaceholdersConcat(ts[..k] + [clause], ts[k..]);
        PlaceholdersConcat(ts[..k], [clause]);
        PlaceholdersConcat(ts[..k], ts[k..]);
        CountOne(clause);
      case None =>
        PlaceholdersConcat(ts, [Space, clause]);
        CountTwo(Space, clause);
  }

  lemma AddConditionCount(s: Token, c: Condition)
    requires s.Group?
    ensures AddCondition(s, c).Ok? ==>
              Placeholders(AddCondition(s, c).value) == Placeholders(s) + PlaceholdersAll(ConditionTokens(c).value)
  {
    if AddCondition(s, c).Ok? {
      PlaceholdersAddCondition(s.tokens, ConditionTokens(c).value);
    }
  }

  lemma SqlTextCount(statements: seq<Token>)
    requires ConditionTokens(SqlText(statements)).Ok?
    ensures PlaceholdersAll(ConditionTokens(SqlText(statements)).value) == PlaceholdersAll(statements)
  {
    CountOne(statements[0]);
  }
}

/** The simplification example of the repository's tests, on the tree the
    parser builds for its stored query. */
module RawQueryExamples {
  import opened Wrappers
  import opened SqlUtils
  import opened SqlExamples
  import opened RawQuery

  /** The select list is the statement's third token; `id` is its first
      entry and `shape` its last. */
  const Example: Prepared := Prepared(SimplifyQuery, 2, 7, 0)

  lemma ExampleFindsEntries()
    ensures FindIdentifier(SelectList, "shape") == Ok(7)
    ensures FindIdentifier(SelectList, "id") == Ok(0)
  {
    FindsId();
    FindsShape();
  }

  lemma FindsId()
    ensures FindIdentifier(SelectList, "id") == Ok(0)
  {
    IdColumnAlias();
  }

  lemma FindsShape()
    ensures FindIdentifier(SelectList, "shape") == Ok(7)
  {
    NestedShapeAlias();
    IdColumnAlias();
    IdentName("name");
    IdentName("area");
    FindsLastOfFour(IdColumn, Ident("name"), Ident("area"), ShapeColumn, "shape");
  }

  /** In a list `a, b,c,d` of groups, an alias that only `d` has is found
      at `d`. */
  lemma FindsLastOfFour(a: Token, b: Token, c: Token, d: Token, alias: string)
    requires a.Group? && b.Group? && c.Group? && d.Group?
    requires !NamedAs(a, alias) && !NamedAs(b, alias) && !NamedAs(c, alias) && NamedAs(d, alias)
    ensures FindFrom([a, Leaf(Punctuation, ","), Space, b, Leaf(Punctuation, ","), c, Leaf(Punctuation, ","), d], alias, 0)
            == Ok(7)
  {
    var ts := [a, Leaf(Punctuation, ","), Space, b, Leaf(Punctuation, ","), c, Leaf(Punctuation, ","), d];
    assert IsComma(ts[1]) && IsWhitespace(ts[2]) && IsComma(ts[4]) && IsComma(ts[6]);
    assert FindFrom(ts, alias, 7) == Ok(7);
    assert FindFrom(ts, alias, 5) == Ok(7);
    assert FindFrom(ts, alias, 3) == Ok(7);
  }

  /** The stored query prepares: both entries are found by their nested
      aliases. */
  lemma ExampleQueryPrepares()
    ensures Prepare([SimplifyQuery]) == Ok(Example)
  {
    ExampleFindsEntries();
    var ts := SimplifyQuery.tokens;
    assert FindIdentifierList(ts, 2) == Some(2);
    assert FindIdentifierList(ts, 0) == Some(2);
  }

  lemma IdColumnText()
    ensures Render(IdColumn) == "objectid as id"
  {
    RenderFive(Leaf(Name, "objectid"), Space, Leaf(Keyword, "as"), Space, Ident("id"));
    RenderAllOne(Leaf(Name, "id"));
  }

  /** The select list after the replacement. */
  function SimplifiedList(): seq<Token> {
    SelectList.tokens[..7] + [BuildFunctionCall("ST_Simplify", ShapeColumn, 1, true)]
  }

  lemma SimplifiedListIs()
    ensures ReplaceIdentifier(SelectList, 7, BuildFunctionCall("ST_Simplify", ShapeColumn, 1, true))
            == Group(IdentifierList, SimplifiedList())
  {
    assert NextSolid(SelectList.tokens, 8) == 8;
  }

  lemma HeadText()
    ensures RenderAll(SelectList.tokens[..7]) == "objectid as id, name,area,"
  {
    var ts := SelectList.tokens;
    IdColumnText();
    RenderAllOne(Leaf(Name, "name"));
    RenderAllOne(Leaf(Name, "area"));
    assert ts[..7] == [IdColumn, Leaf(Punctuation, ","), Space, Ident("name")] + [Leaf(Punctuation, ","), Ident("area"), Leaf(Punctuation, ",")];
    RenderAllConcat([IdColumn, Leaf(Punctuation, ","), Space, Ident("name")], [Leaf(Punctuation, ","), Ident("area"), Leaf(Punctuation, ",")]);
    RenderFour(IdColumn, Leaf(Punctuation, ","), Space, Ident("name"));
    RenderThree(Leaf(Punctuation, ","), Ident("area"), Leaf(Punctuation, ","));
  }

  lemma AppendText(a: seq<Token>, t: Token, x: string, y: string)
    requires RenderAll(a) == x && Render(t) == y
    ensures RenderAll(a + [t]) == x + y
  {
    RenderAllConcat(a, [t]);
    RenderAllOne(t);
  }

  lemma SelectHead()
    ensures "select" + " " + "objectid as id, name,area," == "select objectid as id, name,area,"
  {
  }

  lemma FromTail(table: string)
    requires table == "import" + "." + "abc_polygon"
    ensures " " + ("from" + " " + table) == " from import.abc_polygon"
  {
  }

  lemma StatementText(call: string, table: string)
    requires table == "import" + "." + "abc_polygon"
    ensures "select" + " " + ("objectid as id, name,area," + call) + " " + ("from" + " " + table)
            == "select objectid as id, name,area," + call + " from import.abc_polygon"
  {
    SelectHead();
    FromTail(table);
  }

  lemma SimplifiedListText()
    ensures RenderAll(SimplifiedList()) == "objectid as id, name,area," + "ST_Simplify(wkb_geometry,%s) AS shape"
  {
    SimplifyCall();
    HeadText();
    AppendText(SelectList.tokens[..7], BuildFunctionCall("ST_Simplify", ShapeColumn, 1, true),
               "objectid as id, name,area,", "ST_Simplify(wkb_geometry,%s) AS shape");
  }

  /** Simplifying the example wraps its geometry column in `ST_Simplify`
      and keeps the alias, giving the text the test expects (written in
      three pieces). */
  lemma ExampleSimplifiedText()
    ensures Render(Simplified(Example))
            == "select objectid as id, name,area," + "ST_Simplify(wkb_geometry,%s) AS shape" + " from import.abc_polygon"
  {
    SimplifiedListIs();
    SimplifiedListText();
    var list := Group(IdentifierList, SimplifiedList());
    var table := Group(Identifier, [Leaf(Name, "import"), Leaf(Punctuation, "."), Leaf(Name, "abc_polygon")]);
    RenderThree(Leaf(Name, "import"), Leaf(Punctuation, "."), Leaf(Name, "abc_polygon"));
    var a := [Leaf(Keyword, "select"), Space, list, Space];
    var b := [Leaf(Keyword, "from"), Space, table];
    assert Simplified(Example).tokens == a + b;
    RenderAllConcat(a, b);
    RenderFour(Leaf(Keyword, "select"), Space, list, Space);
    RenderThree(Leaf(Keyword, "from"), Space, table);
    StatementText("ST_Simplify(wkb_geometry,%s) AS shape", Render(table));
  }
}
