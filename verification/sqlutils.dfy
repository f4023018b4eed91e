/** The SQL rewriting helpers of wfs/sqlutils.py.

    They work on the token tree the sqlparse library builds for a SELECT
    statement: leaves carry a token type and their text, groups (statement,
    identifier list, identifier, function, parenthesis, comparison, WHERE
    clause) carry their children. The text of a tree is the concatenation
    of its leaves. Lexing and grouping are the library's and are taken as
    given: `parse` appears only as the list of statements it produced. */
module SqlUtils {
  import opened Wrappers
  import opened Strings

  datatype TokenType =
    | Name | Punctuation | Whitespace | Newline | Keyword
    | ComparisonOp | Wildcard | Literal | Operator | Comment

  datatype GroupKind =
    | Statement | IdentifierList | Identifier | Comparison
    | Function | Parenthesis | Where | OtherGroup

  datatype Token =
    | Leaf(ttype: TokenType, value: string)
    | Group(kind: GroupKind, tokens: seq<Token>)

  datatype SqlError =
    | NotOneStatement(count: nat)
    | NoIdentifierList
    | NoSuchIdentifier(alias: string)
    | UnnamedEntry
    | NotATokenList

  /** A condition is either SQL text, given here as what the parser made
      of it, or a token built by the helpers below. */
  datatype Condition = SqlText(statements: seq<Token>) | Built(token: Token)

  // ---------------------------------------------------------------------
  // Rendering: `str(token)`
  // ---------------------------------------------------------------------

  function Render(t: Token): string
    decreases t, 1
  {
    match t
    case Leaf(_, v) => v
    case Group(_, ts) => RenderAll(ts)
  }

  function RenderAll(ts: seq<Token>): string
    decreases ts, 0
  {
    if |ts| == 0 then "" else Render(ts[0]) + RenderAll(ts[1..])
  }

  lemma {:induction false} RenderAllConcat(a: seq<Token>, b: seq<Token>)
    ensures RenderAll(a + b) == RenderAll(a) + RenderAll(b)
    decreases |a|
  {
    if |a| > 0 {
      assert (a + b)[1..] == a[1..] + b;
      RenderAllConcat(a[1..], b);
    } else {
      assert a + b == b;
    }
  }

  lemma RenderAllSplit(ts: seq<Token>, i: nat)
    requires i <= |ts|
    ensures RenderAll(ts) == RenderAll(ts[..i]) + RenderAll(ts[i..])
  {
    assert ts == ts[..i] + ts[i..];
    RenderAllConcat(ts[..i], ts[i..]);
  }

  lemma RenderAllOne(t: Token)
    ensures RenderAll([t]) == Render(t)
  {
    assert [t][1..] == [];
  }

  /** Replacing one token replaces its text. */
  lemma RenderAllUpdate(ts: seq<Token>, i: nat, x: Token)
    requires i < |ts|
    ensures RenderAll(ts[i := x]) == RenderAll(ts[..i]) + Render(x) + RenderAll(ts[i + 1..])
  {
    assert ts[i := x] == ts[..i] + [x] + ts[i + 1..];
    RenderAllConcat(ts[..i] + [x], ts[i + 1..]);
    RenderAllConcat(ts[..i], [x]);
    RenderAllOne(x);
  }

  lemma RenderTwo(a: Token, b: Token)
    ensures RenderAll([a, b]) == Render(a) + Render(b)
  {
    assert [a, b][1..] == [b];
    RenderAllOne(b);
  }

  lemma RenderThree(a: Token, b: Token, c: Token)
    ensures RenderAll([a, b, c]) == Render(a) + Render(b) + Render(c)
  {
    assert [a, b, c][1..] == [b, c];
    RenderTwo(b, c);
  }

  lemma RenderFour(a: Token, b: Token, c: Token, d: Token)
    ensures RenderAll([a, b, c, d]) == Render(a) + Render(b) + Render(c) + Render(d)
  {
    assert [a, b, c, d][1..] == [b, c, d];
    RenderThree(b, c, d);
  }

  lemma RenderFive(a: Token, b: Token, c: Token, d: Token, e: Token)
    ensures RenderAll([a, b, c, d, e]) == Render(a) + Render(b) + Render(c) + Render(d) + Render(e)
  {
    assert [a, b, c, d, e][1..] == [b, c, d, e];
    RenderFour(b, c, d, e);
  }

  // ---------------------------------------------------------------------
  // Token classes
  // ---------------------------------------------------------------------

  /** `token.is_whitespace` */
  predicate IsWhitespace(t: Token) {
    t.Leaf? && (t.ttype == Whitespace || t.ttype == Newline)
  }

  predicate IsComma(t: Token) {
    t == Leaf(Punctuation, ",")
  }

  /** What `IdentifierList.get_identifiers()` yields: neither whitespace
      nor a comma. */
  predicate IsEntry(t: Token) {
    !IsWhitespace(t) && !IsComma(t)
  }

  predicate IsNameLeaf(t: Token) {
    t.Leaf? && t.ttype == Name
  }

  // ---------------------------------------------------------------------
  // parse_single
  // ---------------------------------------------------------------------

  /** `parse_single(sql)` on the statements the parser produced. */
  function ParseSingle(statements: seq<Token>): (r: Result<Token, SqlError>)
    ensures r.Ok? <==> |statements| == 1
    ensures r.Ok? ==> r.value == statements[0]
    ensures r.Err? ==> r.error == NotOneStatement(|statements|)
  {
    if |statements| != 1 then Err(NotOneStatement(|statements|)) else Ok(statements[0])
  }

  // ---------------------------------------------------------------------
  // get_identifiers
  // ---------------------------------------------------------------------

  predicate IsIdentifierList(t: Token) {
    t.Group? && t.kind == IdentifierList
  }

  /** The position of the first identifier list among the statement's
      top-level tokens (`token_matching(..., 0)`). */
  function FindIdentifierList(ts: seq<Token>, from: nat): (r: Option<nat>)
    requires from <= |ts|
    ensures r.Some? ==> from <= r.value < |ts| && IsIdentifierList(ts[r.value])
    ensures forall j :: from <= j < (if r.Some? then r.value else |ts|) ==> !IsIdentifierList(ts[j])
    decreases |ts| - from
  {
    if from == |ts| then None
    else if IsIdentifierList(ts[from]) then Some(from)
    else FindIdentifierList(ts, from + 1)
  }

  /** `get_identifiers(select)`: the index of the select list in the
      statement's tokens. */
  function GetIdentifiers(select: Token): (r: Result<nat, SqlError>)
    requires select.Group?
    ensures r.Ok? ==> r.value < |select.tokens| && IsIdentifierList(select.tokens[r.value])
    ensures r.Ok? ==> forall j :: 0 <= j < r.value ==> !IsIdentifierList(select.tokens[j])
    ensures r.Err? ==> r.error == NoIdentifierList
                       && forall j :: 0 <= j < |select.tokens| ==> !IsIdentifierList(select.tokens[j])
  {
    match FindIdentifierList(select.tokens, 0)
    case Some(i) => Ok(i)
    case None => Err(NoIdentifierList)
  }

  // ---------------------------------------------------------------------
  // Names and aliases of a group (`get_alias`, `get_real_name`, `get_name`)
  // ---------------------------------------------------------------------

  /** The first index at or after `from` whose token satisfies `p`. */
  function FirstFrom(ts: seq<Token>, from: nat, p: Token -> bool): (r: Option<nat>)
    requires from <= |ts|
    ensures r.Some? ==> from <= r.value < |ts| && p(ts[r.value])
    ensures forall j :: from <= j < (if r.Some? then r.value else |ts|) ==> !p(ts[j])
    decreases |ts| - from
  {
    if from == |ts| then None
    else if p(ts[from]) then Some(from)
    else FirstFrom(ts, from + 1, p)
  }

  predicate IsAsKeyword(t: Token) {
    t.Leaf? && t.ttype == Keyword && Upper(t.value) == "AS"
  }

  predicate IsDot(t: Token) {
    t == Leaf(Punctuation, ".")
  }

  /** A leaf whose text `_get_first_name` takes: a name or a wildcard, and
      a keyword too when the name follows AS. */
  predicate IsNameLike(t: Token, keywords: bool) {
    t.Leaf? && (t.ttype == Name || t.ttype == Wildcard || (keywords && t.ttype == Keyword))
  }

  /** A child `_get_first_name` asks for its own name: an identifier or a
      function, as the parser nests them (`x as shape` holds `shape` as an
      identifier of its own). */
  predicate IsNamedGroup(t: Token) {
    t.Group? && (t.kind == Identifier || t.kind == Function)
  }

  /** `_get_first_name(from, keywords=keywords, real_name=realName)`: the
      first child from `from` on that is a name-like leaf (its text) or a
      nested identifier or function (its real name or its name). */
  function FirstName(ts: seq<Token>, from: nat, keywords: bool, realName: bool): Option<string>
    requires from <= |ts|
    decreases ts, 1, |ts| - from
  {
    if from == |ts| then None
    else if IsNameLike(ts[from], keywords) then Some(ts[from].value)
    else if IsNamedGroup(ts[from]) then
      if realName then GetRealName(ts[from]) else GetName(ts[from])
    else FirstName(ts, from + 1, keywords, realName)
  }

  /** `_get_first_name(reverse=True)`: the same search over the children
      below `upto`, from the last one backwards. */
  function LastName(ts: seq<Token>, upto: nat): Option<string>
    requires upto <= |ts|
    decreases ts, 1, upto
  {
    if upto == 0 then None
    else if IsNameLike(ts[upto - 1], false) then Some(ts[upto - 1].value)
    else if IsNamedGroup(ts[upto - 1]) then GetName(ts[upto - 1])
    else LastName(ts, upto - 1)
  }

  /** `get_alias()`: the first name after an AS keyword, keywords allowed;
      without one, the last name, when the group has more than two tokens
      and some whitespace. */
  function GetAlias(t: Token): Option<string>
    decreases t, 2, 0
  {
    match t
    case Leaf(_, _) => None
    case Group(_, ts) =>
      match FirstFrom(ts, 0, IsAsKeyword)
      case Some(k) => FirstName(ts, k + 1, true, false)
      case None =>
        if |ts| > 2 && FirstFrom(ts, 0, IsWhitespace).Some? then LastName(ts, |ts|)
        else None
  }

  /** `get_real_name()`: the first name from the first dot on, or from the
      start when there is no dot; nested groups give their real name. */
  function GetRealName(t: Token): Option<string>
    decreases t, 2, 0
  {
    match t
    case Leaf(_, _) => None
    case Group(_, ts) =>
      var start := match FirstFrom(ts, 0, IsDot) case Some(d) => d case None => 0;
      FirstName(ts, start, false, true)
  }

  /** `get_name()`: `get_alias() or get_real_name()`, so an empty alias
      counts as none. */
  function GetName(t: Token): Option<string>
    decreases t, 3, 0
  {
    var a := GetAlias(t);
    if a.Some? && a.value != "" then a else GetRealName(t)
  }

  // ---------------------------------------------------------------------
  // find_identifier
  // ---------------------------------------------------------------------

  predicate NamedAs(t: Token, alias: string) {
    GetName(t) == Some(alias)
  }

  /** The loop of `find_identifier` from entry position `from` on. A plain
      leaf among the entries has no `get_name` and stops the search. */
  function FindFrom(ts: seq<Token>, alias: string, from: nat): (r: Result<nat, SqlError>)
    requires from <= |ts|
    ensures r.Ok? ==> from <= r.value < |ts| && IsEntry(ts[r.value]) && ts[r.value].Group?
                      && NamedAs(ts[r.value], alias)
    ensures r.Ok? ==> forall j :: from <= j < r.value && IsEntry(ts[j]) ==> ts[j].Group? && !NamedAs(ts[j], alias)
    ensures r.Err? && r.error.NoSuchIdentifier? ==>
              r.error.alias == alias
              && forall j :: from <= j < |ts| && IsEntry(ts[j]) ==> ts[j].Group? && !NamedAs(ts[j], alias)
    ensures r.Err? ==> r.error.NoSuchIdentifier? || r.error.UnnamedEntry?
    ensures r.Err? && r.error.UnnamedEntry? ==> exists j :: from <= j < |ts| && IsEntry(ts[j]) && ts[j].Leaf?
    decreases |ts| - from
  {
    if from == |ts| then Err(NoSuchIdentifier(alias))
    else if !IsEntry(ts[from]) then FindFrom(ts, alias, from + 1)
    else if ts[from].Leaf? then Err(UnnamedEntry)
    else if NamedAs(ts[from], alias) then Ok(from)
    else FindFrom(ts, alias, from + 1)
  }

  /** `find_identifier(identifiers, alias)`: the position, in the select
      list, of the first entry named `alias`. */
  function FindIdentifier(identifiers: Token, alias: string): (r: Result<nat, SqlError>)
    requires identifiers.Group?
    ensures r.Ok? ==> r.value < |identifiers.tokens| && NamedAs(identifiers.tokens[r.value], alias)
  {
    FindFrom(identifiers.tokens, alias, 0)
  }

  // ---------------------------------------------------------------------
  // replace_identifier
  // ---------------------------------------------------------------------

  /** `token_next(idx, skip_ws=True)`: the first position after `from - 1`
      that does not hold whitespace, or the end. */
  function NextSolid(ts: seq<Token>, from: nat): (n: nat)
    requires from <= |ts|
    ensures from <= n <= |ts|
    ensures n < |ts| ==> !IsWhitespace(ts[n])
    ensures forall j :: from <= j < n ==> IsWhitespace(ts[j])
    decreases |ts| - from
  {
    if from == |ts| || !IsWhitespace(ts[from]) then from else NextSolid(ts, from + 1)
  }

  /** `insert_after(original, replacement)` followed by
      `tokens.remove(original)`: the replacement goes in front of the next
      token that is not whitespace (or at the end), then the original goes. */
  function ReplaceAt(ts: seq<Token>, i: nat, replacement: Token): (r: seq<Token>)
    requires i < |ts|
    ensures |r| == |ts|
  {
    var n := NextSolid(ts, i + 1);
    ts[..i] + ts[i + 1..n] + [replacement] + ts[n..]
  }

  /** `replace_identifier(identifiers, original, replacement)` with the
      original given by its position. */
  function ReplaceIdentifier(identifiers: Token, i: nat, replacement: Token): (r: Token)
    requires identifiers.Group? && i < |identifiers.tokens|
    ensures r.Group? && r.kind == identifiers.kind
  {
    Group(identifiers.kind, ReplaceAt(identifiers.tokens, i, replacement))
  }

  /** The tokens that are not whitespace, in order. */
  function Solid(ts: seq<Token>): seq<Token> {
    if |ts| == 0 then []
    else (if IsWhitespace(ts[0]) then [] else [ts[0]]) + Solid(ts[1..])
  }

  lemma {:induction false} SolidConcat(a: seq<Token>, b: seq<Token>)
    ensures Solid(a + b) == Solid(a) + Solid(b)
    decreases |a|
  {
    if |a| > 0 {
      assert (a + b)[1..] == a[1..] + b;
      SolidConcat(a[1..], b);
    } else {
      assert a + b == b;
    }
  }

  lemma {:induction false} SolidOfWhitespace(ts: seq<Token>)
    requires forall j :: 0 <= j < |ts| ==> IsWhitespace(ts[j])
    ensures Solid(ts) == []
    decreases |ts|
  {
    if |ts| > 0 {
      SolidOfWhitespace(ts[1..]);
    }
  }

  lemma SolidOne(t: Token)
    ensures Solid([t]) == if IsWhitespace(t) then [] else [t]
  {
    assert [t][1..] == [];
  }

  /** Only whitespace moves: the tokens that are not whitespace keep their
      order, with the replacement where the original was. */
  lemma {:induction false} ReplaceAtKeepsOrder(ts: seq<Token>, i: nat, replacement: Token)
    requires i < |ts| && !IsWhitespace(ts[i]) && !IsWhitespace(replacement)
    ensures var k := |Solid(ts[..i])|;
            k < |Solid(ts)| && Solid(ReplaceAt(ts, i, replacement)) == Solid(ts)[k := replacement]
  {
    var n := NextSolid(ts, i + 1);
    ReplaceAtPieces(ts, i, replacement);
    SolidMoves(ts[..i], ts[i], ts[i + 1..n], ts[n..], replacement);
  }

  /** Moving a solid token across a whitespace run, and changing it on the
      way, changes only its entry among the solid tokens. */
  lemma SolidMoves(pre: seq<Token>, t: Token, mid: seq<Token>, post: seq<Token>, u: Token)
    requires !IsWhitespace(t) && !IsWhitespace(u)
    requires forall j :: 0 <= j < |mid| ==> IsWhitespace(mid[j])
    ensures |Solid(pre)| < |Solid(pre + [t] + mid + post)|
    ensures Solid(pre + mid + [u] + post) == Solid(pre + [t] + mid + post)[|Solid(pre)| := u]
  {
    var a, b := Solid(pre), Solid(post);
    assert Solid(pre + [t] + mid + post) == a + [t] + b by {
      SolidOfWhitespace(mid);
      SolidOne(t);
      SolidAround(pre, [t], mid, post);
    }
    assert Solid(pre + mid + [u] + post) == a + [u] + b by {
      SolidOfWhitespace(mid);
      SolidOne(u);
      SolidAround(pre, mid, [u], post);
    }
    UpdateBetween(a, t, u, b);
  }

  /** The tokens before the original, the original, the whitespace run
      after it and the rest; the replacement goes after the run. */
  lemma ReplaceAtPieces(ts: seq<Token>, i: nat, replacement: Token)
    requires i < |ts|
    ensures var n := NextSolid(ts, i + 1);
            && ts == ts[..i] + [ts[i]] + ts[i + 1..n] + ts[n..]
            && ReplaceAt(ts, i, replacement) == ts[..i] + ts[i + 1..n] + [replacement] + ts[n..]
            && AllWhitespace(ts[i + 1..n])
  {
    var n := NextSolid(ts, i + 1);
    RunOfWhitespace(ts, i + 1, n);
    CutFour(ts, i, n);
  }

  predicate AllWhitespace(ts: seq<Token>) {
    forall j :: 0 <= j < |ts| ==> IsWhitespace(ts[j])
  }

  lemma RunOfWhitespace(ts: seq<Token>, from: nat, n: nat)
    requires from <= n <= |ts|
    requires forall j :: from <= j < n ==> IsWhitespace(ts[j])
    ensures forall j :: 0 <= j < n - from ==> IsWhitespace(ts[from..n][j])
  {
    forall j | 0 <= j < n - from ensures IsWhitespace(ts[from..n][j]) {
      assert ts[from..n][j] == ts[from + j];
    }
  }

  lemma CutFour(ts: seq<Token>, i: nat, n: nat)
    requires i < n <= |ts|
    ensures ts == ts[..i] + [ts[i]] + ts[i + 1..n] + ts[n..]
  {
  }

  /** The solid tokens of four pieces are the solid tokens of each. */
  lemma SolidAround(a: seq<Token>, b: seq<Token>, c: seq<Token>, d: seq<Token>)
    ensures Solid(a + b + c + d) == Solid(a) + Solid(b) + Solid(c) + Solid(d)
  {
    SolidConcat(a + b + c, d);
    SolidConcat(a + b, c);
    SolidConcat(a, b);
  }

  lemma UpdateBetween(a: seq<Token>, t: Token, u: Token, b: seq<Token>)
    ensures |a| < |a + [t] + b|
    ensures (a + [t] + b)[|a| := u] == a + [u] + b
  {
  }

  /** When no whitespace follows the original, the replacement takes its
      very position and nothing else changes. */
  lemma ReplaceAtInPlace(ts: seq<Token>, i: nat, replacement: Token)
    requires i < |ts| && (i + 1 == |ts| || !IsWhitespace(ts[i + 1]))
    ensures ReplaceAt(ts, i, replacement) == ts[i := replacement]
  {
  }

  // ---------------------------------------------------------------------
  // bare_identifier, build_comparison, build_function_call
  // ---------------------------------------------------------------------

  predicate IsNameOrPunctuation(t: Token) {
    t.Leaf? && (t.ttype == Name || t.ttype == Punctuation)
  }

  /** The leading name and punctuation leaves, copied. */
  function BareTokens(ts: seq<Token>): (r: seq<Token>)
    ensures |r| <= |ts| && r == ts[..|r|]
    ensures forall j :: 0 <= j < |r| ==> IsNameOrPunctuation(r[j])
    ensures |r| < |ts| ==> !IsNameOrPunctuation(ts[|r|])
  {
    if |ts| == 0 || !IsNameOrPunctuation(ts[0]) then []
    else [Leaf(ts[0].ttype, ts[0].value)] + BareTokens(ts[1..])
  }

  /** The copy is exactly the run of names and punctuation at the front. */
  lemma {:induction false} BareTokensOf(ts: seq<Token>, k: nat)
    requires k <= |ts| && (k == |ts| || !IsNameOrPunctuation(ts[k]))
    requires forall j :: 0 <= j < k ==> IsNameOrPunctuation(ts[j])
    ensures BareTokens(ts) == ts[..k]
    decreases k
  {
    if k > 0 {
      BareTokensOf(ts[1..], k - 1);
      assert ts[..k] == [ts[0]] + ts[1..][..k - 1];
    }
  }

  /** `bare_identifier(identifier)`: the identifier without its alias. */
  function BareIdentifier(identifier: Token): (r: Token)
    requires identifier.Group?
    ensures r.Group? && r.kind == Identifier
  {
    Group(Identifier, BareTokens(identifier.tokens))
  }

  const Placeholder: Token := Leaf(Wildcard, "%s")
  const Space: Token := Leaf(Whitespace, " ")

  /** `build_comparison(identifier, operator)`: `bare op %s`. */
  function BuildComparison(identifier: Token, operator: string): (r: Token)
    requires identifier.Group?
    ensures r.Group? && r.kind == Comparison && |r.tokens| == 5
  {
    Group(Comparison, [BareIdentifier(identifier), Space, Leaf(ComparisonOp, operator), Space, Placeholder])
  }

  /** The `num_params` repetitions of `,` and `%s`. */
  function Params(n: nat): (r: seq<Token>)
    ensures |r| == 2 * n
  {
    if n == 0 then [] else Params(n - 1) + [Leaf(Punctuation, ","), Placeholder]
  }

  function AliasTokens(identifier: Token, addAlias: bool): seq<Token> {
    var alias := GetAlias(identifier);
    if addAlias && alias.Some? then
      [Space, Leaf(Keyword, "AS"), Space, Leaf(Name, alias.value)]
    else []
  }

  /** `build_function_call(function, identifier, num_params, add_alias)`. */
  function BuildFunctionCall(fname: string, identifier: Token, numParams: nat, addAlias: bool): (r: Token)
    requires identifier.Group?
    ensures r.Group? && r.kind == Function
  {
    var args := Group(IdentifierList, [BareIdentifier(identifier)] + Params(numParams));
    Group(Function,
      [Leaf(Name, fname),
       Group(Parenthesis, [Leaf(Punctuation, "("), args, Leaf(Punctuation, ")")])]
      + AliasTokens(identifier, addAlias))
  }

  // ---------------------------------------------------------------------
  // What the builders render to
  // ---------------------------------------------------------------------

  function RepeatParam(n: nat): string {
    if n == 0 then "" else RepeatParam(n - 1) + ",%s"
  }

  lemma {:induction false} RenderParams(n: nat)
    ensures RenderAll(Params(n)) == RepeatParam(n)
  {
    if n > 0 {
      RenderParams(n - 1);
      RenderAllConcat(Params(n - 1), [Leaf(Punctuation, ","), Placeholder]);
      RenderTwo(Leaf(Punctuation, ","), Placeholder);
    }
  }

  lemma RenderComparison(identifier: Token, operator: string)
    requires identifier.Group?
    ensures Render(BuildComparison(identifier, operator))
            == Render(BareIdentifier(identifier)) + " " + operator + " %s"
  {
    RenderFive(BareIdentifier(identifier), Space, Leaf(ComparisonOp, operator), Space, Placeholder);
  }

  function AliasText(identifier: Token, addAlias: bool): string {
    var alias := GetAlias(identifier);
    if addAlias && alias.Some? then " AS " + alias.value else ""
  }

  lemma RenderAlias(identifier: Token, addAlias: bool)
    ensures RenderAll(AliasTokens(identifier, addAlias)) == AliasText(identifier, addAlias)
  {
    var alias := GetAlias(identifier);
    if addAlias && alias.Some? {
      RenderFour(Space, Leaf(Keyword, "AS"), Space, Leaf(Name, alias.value));
    }
  }

  /** The text of a built call is `f(bare,%s,...)`, with ` AS alias` only
      when asked for and the identifier has an alias. */
  lemma RenderFunctionCall(fname: string, identifier: Token, numParams: nat, addAlias: bool)
    requires identifier.Group?
    ensures Render(BuildFunctionCall(fname, identifier, numParams, addAlias))
            == fname + "(" + Render(BareIdentifier(identifier)) + RepeatParam(numParams) + ")"
               + AliasText(identifier, addAlias)
  {
    var bare := BareIdentifier(identifier);
    var argTokens := [bare] + Params(numParams);
    RenderAllConcat([bare], Params(numParams));
    RenderAllOne(bare);
    RenderParams(numParams);
    var paren := [Leaf(Punctuation, "("), Group(IdentifierList, argTokens), Leaf(Punctuation, ")")];
    RenderThree(Leaf(Punctuation, "("), Group(IdentifierList, argTokens), Leaf(Punctuation, ")"));
    var args := Render(bare) + RepeatParam(numParams);
    assert RenderAll(argTokens) == args;
    assert RenderAll(paren) == "(" + args + ")";
    var head := [Leaf(Name, fname), Group(Parenthesis, paren)];
    RenderTwo(Leaf(Name, fname), Group(Parenthesis, paren));
    assert RenderAll(head) == fname + ("(" + args + ")");
    RenderAllConcat(head, AliasTokens(identifier, addAlias));
    RenderAlias(identifier, addAlias);
    CallTextNests(fname, Render(bare), RepeatParam(numParams), AliasText(identifier, addAlias));
  }

  lemma CallTextNests(f: string, b: string, p: string, a: string)
    ensures f + ("(" + (b + p) + ")") + a == f + "(" + b + p + ")" + a
  {
  }

  // ---------------------------------------------------------------------
  // Placeholders and literals
  // ---------------------------------------------------------------------

  /** The number of `%s` wildcards in a tree. */
  function Placeholders(t: Token): nat
    decreases t, 1
  {
    match t
    case Leaf(ty, _) => if ty == Wildcard then 1 else 0
    case Group(_, ts) => PlaceholdersAll(ts)
  }

  function PlaceholdersAll(ts: seq<Token>): nat
    decreases ts, 0
  {
    if |ts| == 0 then 0 else Placeholders(ts[0]) + PlaceholdersAll(ts[1..])
  }

  lemma {:induction false} PlaceholdersConcat(a: seq<Token>, b: seq<Token>)
    ensures PlaceholdersAll(a + b) == PlaceholdersAll(a) + PlaceholdersAll(b)
    decreases |a|
  {
    if |a| > 0 {
      assert (a + b)[1..] == a[1..] + b;
      PlaceholdersConcat(a[1..], b);
    } else {
      assert a + b == b;
    }
  }

  /** No leaf of the tree is a literal value, and every wildcard is `%s`. */
  predicate LiteralFree(t: Token)
    decreases t, 1
  {
    match t
    case Leaf(ty, v) => ty != Literal && (ty == Wildcard ==> v == "%s")
    case Group(_, ts) => LiteralFreeAll(ts)
  }

  predicate LiteralFreeAll(ts: seq<Token>)
    decreases ts, 0
  {
    |ts| == 0 || (LiteralFree(ts[0]) && LiteralFreeAll(ts[1..]))
  }

  lemma {:induction false} LiteralFreeConcat(a: seq<Token>, b: seq<Token>)
    ensures LiteralFreeAll(a + b) <==> LiteralFreeAll(a) && LiteralFreeAll(b)
    decreases |a|
  {
    if |a| > 0 {
      assert (a + b)[1..] == a[1..] + b;
      LiteralFreeConcat(a[1..], b);
    } else {
      assert a + b == b;
    }
  }

  lemma CountOne(a: Token)
    ensures PlaceholdersAll([a]) == Placeholders(a)
  {
    assert [a][1..] == [];
  }

  lemma CountTwo(a: Token, b: Token)
    ensures PlaceholdersAll([a, b]) == (Placeholders(a) + Placeholders(b))
  {
    assert [a, b][1..] == [b];
    CountOne(b);
  }

  lemma CountThree(a: Token, b: Token, c: Token)
    ensures PlaceholdersAll([a, b, c]) == (Placeholders(a) + Placeholders(b) + Placeholders(c))
  {
    assert [a, b, c][1..] == [b, c];
    CountTwo(b, c);
  }

  lemma CountFour(a: Token, b: Token, c: Token, d: Token)
    ensures PlaceholdersAll([a, b, c, d]) == (Placeholders(a) + Placeholders(b) + Placeholders(c) + Placeholders(d))
  {
    assert [a, b, c, d][1..] == [b, c, d];
    CountThree(b, c, d);
  }

  lemma CountFive(a: Token, b: Token, c: Token, d: Token, e: Token)
    ensures PlaceholdersAll([a, b, c, d, e])
            == (Placeholders(a) + Placeholders(b) + Placeholders(c) + Placeholders(d) + Placeholders(e))
  {
    assert [a, b, c, d, e][1..] == [b, c, d, e];
    CountFour(b, c, d, e);
  }

  lemma FreeOne(a: Token)
    ensures LiteralFreeAll([a]) == LiteralFree(a)
  {
    assert [a][1..] == [];
  }

  lemma FreeTwo(a: Token, b: Token)
    ensures LiteralFreeAll([a, b]) == (LiteralFree(a) && LiteralFree(b))
  {
    assert [a, b][1..] == [b];
    FreeOne(b);
  }

  lemma FreeThree(a: Token, b: Token, c: Token)
    ensures LiteralFreeAll([a, b, c]) == (LiteralFree(a) && LiteralFree(b) && LiteralFree(c))
  {
    assert [a, b, c][1..] == [b, c];
    FreeTwo(b, c);
  }

  lemma FreeFour(a: Token, b: Token, c: Token, d: Token)
    ensures LiteralFreeAll([a, b, c, d]) == (LiteralFree(a) && LiteralFree(b) && LiteralFree(c) && LiteralFree(d))
  {
    assert [a, b, c, d][1..] == [b, c, d];
    FreeThree(b, c, d);
  }

  lemma FreeFive(a: Token, b: Token, c: Token, d: Token, e: Token)
    ensures LiteralFreeAll([a, b, c, d, e])
            == (LiteralFree(a) && LiteralFree(b) && LiteralFree(c) && LiteralFree(d) && LiteralFree(e))
  {
    assert [a, b, c, d, e][1..] == [b, c, d, e];
    FreeFour(b, c, d, e);
  }

  /** The bare copy keeps only names and punctuation: no wildcard and no
      literal, whatever the identifier held after them. */
  lemma {:induction false} BareIsPlain(ts: seq<Token>)
    ensures PlaceholdersAll(BareTokens(ts)) == 0 && LiteralFreeAll(BareTokens(ts))
    decreases |ts|
  {
    if |ts| > 0 && IsNameOrPunctuation(ts[0]) {
      BareIsPlain(ts[1..]);
    }
  }

  lemma {:induction false} ParamsArePlaceholders(n: nat)
    ensures PlaceholdersAll(Params(n)) == n && LiteralFreeAll(Params(n))
  {
    if n > 0 {
      ParamsArePlaceholders(n - 1);
      var two := [Leaf(Punctuation, ","), Placeholder];
      CountTwo(Leaf(Punctuation, ","), Placeholder);
      FreeTwo(Leaf(Punctuation, ","), Placeholder);
      PlaceholdersConcat(Params(n - 1), two);
      LiteralFreeConcat(Params(n - 1), two);
    }
  }

  /** A comparison carries exactly one placeholder and no literal value,
      whatever identifier it was built from. */
  lemma ComparisonIsParameterised(identifier: Token, operator: string)
    requires identifier.Group?
    ensures Placeholders(BuildComparison(identifier, operator)) == 1
    ensures LiteralFree(BuildComparison(identifier, operator))
  {
    BareIsPlain(identifier.tokens);
    var bare := BareIdentifier(identifier);
    CountFive(bare, Space, Leaf(ComparisonOp, operator), Space, Placeholder);
    FreeFive(bare, Space, Leaf(ComparisonOp, operator), Space, Placeholder);
  }

  /** A function call carries exactly `num_params` placeholders and no
      literal value, whatever identifier it was built from. */
  lemma FunctionCallIsParameterised(fname: string, identifier: Token, numParams: nat, addAlias: bool)
    requires identifier.Group?
    ensures Placeholders(BuildFunctionCall(fname, identifier, numParams, addAlias)) == numParams
    ensures LiteralFree(BuildFunctionCall(fname, identifier, numParams, addAlias))
  {
    var bare := BareIdentifier(identifier);
    BareIsPlain(identifier.tokens);
    ParamsArePlaceholders(numParams);
    CountOne(bare);
    FreeOne(bare);
    PlaceholdersConcat([bare], Params(numParams));
    LiteralFreeConcat([bare], Params(numParams));
    var argTokens := [bare] + Params(numParams);
    var paren := [Leaf(Punctuation, "("), Group(IdentifierList, argTokens), Leaf(Punctuation, ")")];
    CountThree(Leaf(Punctuation, "("), Group(IdentifierList, argTokens), Leaf(Punctuation, ")"));
    FreeThree(Leaf(Punctuation, "("), Group(IdentifierList, argTokens), Leaf(Punctuation, ")"));
    var head := [Leaf(Name, fname), Group(Parenthesis, paren)];
    CountTwo(Leaf(Name, fname), Group(Parenthesis, paren));
    FreeTwo(Leaf(Name, fname), Group(Parenthesis, paren));
    var alias := AliasTokens(identifier, addAlias);
    var a := GetAlias(identifier);
    if addAlias && a.Some? {
      CountFour(Space, Leaf(Keyword, "AS"), Space, Leaf(Name, a.value));
      FreeFour(Space, Leaf(Keyword, "AS"), Space, Leaf(Name, a.value));
    }
    PlaceholdersConcat(head, alias);
    LiteralFreeConcat(head, alias);
  }

  // ---------------------------------------------------------------------
  // add_condition
  // ---------------------------------------------------------------------

  predicate IsWhere(t: Token) {
    t.Group? && t.kind == Where
  }

  /** The `order` keyword is matched by its exact text. */
  predicate IsOrder(t: Token) {
    t == Leaf(Keyword, "order")
  }

  /** The tokens a condition contributes: its children. */
  function ConditionTokens(c: Condition): (r: Result<seq<Token>, SqlError>)
    ensures c.SqlText? && |c.statements| != 1 ==> r == Err(NotOneStatement(|c.statements|))
  {
    var t :- match c
             case SqlText(statements) => ParseSingle(statements)
             case Built(token) => Ok(token);
    if t.Leaf? then Err(NotATokenList) else Ok(t.tokens)
  }

  const AndSeparator: seq<Token> := [Space, Leaf(Keyword, "and"), Space]
  const WherePrefix: seq<Token> := [Leaf(Keyword, "where"), Space]

  /** The statement's tokens after adding a condition given by its tokens. */
  function AddConditionTokens(ts: seq<Token>, cond: seq<Token>): seq<Token> {
    match FirstFrom(ts, 0, IsWhere)
    case Some(w) => ts[w := Group(Where, ts[w].tokens + AndSeparator + cond)]
    case None =>
      var clause := Group(Where, WherePrefix + cond);
      match FirstFrom(ts, 0, IsOrder)
      case Some(k) => ts[..k] + [clause] + ts[k..]
      case None => ts + [Space, clause]
  }

  /** `add_condition(select, condition)` */
  function AddCondition(select: Token, condition: Condition): (r: Result<Token, SqlError>)
    requires select.Group?
    ensures r.Ok? ==> r.value.Group? && r.value.kind == select.kind
    ensures r.Ok? <==> ConditionTokens(condition).Ok?
  {
    var cond :- ConditionTokens(condition);
    Ok(Group(select.kind, AddConditionTokens(select.tokens, cond)))
  }

  // ---------------------------------------------------------------------
  // What add_condition renders to
  // ---------------------------------------------------------------------

  lemma RenderWherePrefix(cond: seq<Token>)
    ensures RenderAll(WherePrefix + cond) == "where " + RenderAll(cond)
  {
    RenderAllConcat(WherePrefix, cond);
    RenderTwo(Leaf(Keyword, "where"), Space);
  }

  lemma RenderAndSeparator(before: seq<Token>, cond: seq<Token>)
    ensures RenderAll(before + AndSeparator + cond) == RenderAll(before) + " and " + RenderAll(cond)
  {
    RenderAllConcat(before + AndSeparator, cond);
    RenderAllConcat(before, AndSeparator);
    RenderThree(Space, Leaf(Keyword, "and"), Space);
  }

  /** Without a WHERE clause and an `order` keyword, the condition is
      appended as ` where <condition>`. */
  lemma RenderNewWhereAtEnd(ts: seq<Token>, cond: seq<Token>)
    requires FirstFrom(ts, 0, IsWhere).None? && FirstFrom(ts, 0, IsOrder).None?
    ensures RenderAll(AddConditionTokens(ts, cond)) == RenderAll(ts) + " where " + RenderAll(cond)
  {
    var clause := Group(Where, WherePrefix + cond);
    NewWhereAtEnd(ts, cond);
    RenderAllConcat(ts, [Space, clause]);
    RenderTwo(Space, clause);
    assert Render(clause) == RenderAll(WherePrefix + cond);
    RenderWherePrefix(cond);
    SpacedWhere(RenderAll(ts), RenderAll(cond));
  }

  lemma SpacedWhere(before: string, after: string)
    ensures before + (" " + ("where " + after)) == before + " where " + after
  {
  }

  lemma NewWhereAtEnd(ts: seq<Token>, cond: seq<Token>)
    requires FirstFrom(ts, 0, IsWhere).None? && FirstFrom(ts, 0, IsOrder).None?
    ensures AddConditionTokens(ts, cond) == ts + [Space, Group(Where, WherePrefix + cond)]
  {
  }

  /** Without a WHERE clause but with an `order` keyword, `where
      <condition>` goes right in front of the keyword. */
  lemma RenderNewWhereBeforeOrder(ts: seq<Token>, cond: seq<Token>)
    requires FirstFrom(ts, 0, IsWhere).None? && FirstFrom(ts, 0, IsOrder).Some?
    ensures var k := FirstFrom(ts, 0, IsOrder).value;
            RenderAll(AddConditionTokens(ts, cond))
              == RenderAll(ts[..k]) + "where " + RenderAll(cond) + RenderAll(ts[k..])
  {
    var k := FirstFrom(ts, 0, IsOrder).value;
    var clause := Group(Where, WherePrefix + cond);
    assert AddConditionTokens(ts, cond) == ts[..k] + [clause] + ts[k..];
    RenderAllConcat(ts[..k] + [clause], ts[k..]);
    RenderAllConcat(ts[..k], [clause]);
    RenderAllOne(clause);
    RenderWherePrefix(cond);
  }

  /** With a WHERE clause, ` and <condition>` is appended to it and the
      rest of the statement stays as it was. */
  lemma RenderExtendWhere(ts: seq<Token>, cond: seq<Token>)
    requires FirstFrom(ts, 0, IsWhere).Some?
    ensures var w := FirstFrom(ts, 0, IsWhere).value;
            RenderAll(AddConditionTokens(ts, cond))
              == RenderAll(ts[..w]) + Render(ts[w]) + " and " + RenderAll(cond) + RenderAll(ts[w + 1..])
  {
    var w := FirstFrom(ts, 0, IsWhere).value;
    var clause := Group(Where, ts[w].tokens + AndSeparator + cond);
    assert AddConditionTokens(ts, cond) == ts[w := clause];
    RenderAllUpdate(ts, w, clause);
    RenderAndSeparator(ts[w].tokens, cond);
  }

  /** When the WHERE clause is the statement's last token, the condition
      lands at the very end after ` and `. */
  lemma RenderExtendLastWhere(ts: seq<Token>, cond: seq<Token>)
    requires |ts| > 0 && FirstFrom(ts, 0, IsWhere) == Some(|ts| - 1)
    ensures RenderAll(AddConditionTokens(ts, cond)) == RenderAll(ts) + " and " + RenderAll(cond)
  {
    var w := |ts| - 1;
    RenderExtendWhere(ts, cond);
    assert ts[w + 1..] == [];
    RenderAllSplit(ts, w);
    assert ts[w..] == [ts[w]];
    RenderAllOne(ts[w]);
  }

  /** Conditions are AND-joined in call order: two conditions added to a
      statement without WHERE and `order` render as
      ` where <first> and <second>` at its end. */
  lemma {:induction false} AddConditionTwice(ts: seq<Token>, c1: seq<Token>, c2: seq<Token>)
    requires FirstFrom(ts, 0, IsWhere).None? && FirstFrom(ts, 0, IsOrder).None?
    ensures RenderAll(AddConditionTokens(AddConditionTokens(ts, c1), c2))
            == RenderAll(ts) + " where " + RenderAll(c1) + " and " + RenderAll(c2)
  {
    var once := AddConditionTokens(ts, c1);
    var clause := Group(Where, WherePrefix + c1);
    assert once == ts + [Space, clause];
    assert FirstFrom(once, 0, IsWhere) == Some(|ts| + 1) by {
      assert forall j :: 0 <= j < |ts| ==> once[j] == ts[j];
      FirstIsFirst(once, IsWhere, |ts| + 1);
    }
    RenderNewWhereAtEnd(ts, c1);
    RenderExtendLastWhere(once, c2);
  }

  /** The first index satisfying `p` is found. */
  lemma FirstIsFirst(ts: seq<Token>, p: Token -> bool, i: nat)
    requires i < |ts| && p(ts[i]) && forall j :: 0 <= j < i ==> !p(ts[j])
    ensures FirstFrom(ts, 0, p) == Some(i)
  {
    FirstIsFirstFrom(ts, p, 0, i);
  }

  lemma FirstIsFirstFrom(ts: seq<Token>, p: Token -> bool, from: nat, i: nat)
    requires from <= i < |ts| && p(ts[i]) && forall j :: from <= j < i ==> !p(ts[j])
    ensures FirstFrom(ts, from, p) == Some(i)
  {
  }
}

/** The select-list entries of the repository's own examples. */
module SqlExamples {
  import opened Wrappers
  import opened SqlUtils

  /** A lone name as the parser groups it: an identifier holding it. */
  function Ident(n: string): Token {
    Group(Identifier, [Leaf(Name, n)])
  }

  /** `wkb_geometry as shape`, grouped as the parser groups it: the alias
      after AS is an identifier of its own. */
  const ShapeColumn: Token :=
    Group(Identifier, [Leaf(Name, "wkb_geometry"), Space, Leaf(Keyword, "as"), Space, Ident("shape")])

  /** The same entry with the alias as a plain name, the way the builders
      write an alias. */
  const FlatShapeColumn: Token :=
    Group(Identifier, [Leaf(Name, "wkb_geometry"), Space, Leaf(Keyword, "as"), Space, Leaf(Name, "shape")])

  /** `a.wkb_geometry as shape` */
  const QualifiedShapeColumn: Token :=
    Group(Identifier, [Leaf(Name, "a"), Leaf(Punctuation, "."), Leaf(Name, "wkb_geometry"),
                       Space, Leaf(Keyword, "as"), Space, Ident("shape")])

  /** `objectid as id` */
  const IdColumn: Token :=
    Group(Identifier, [Leaf(Name, "objectid"), Space, Leaf(Keyword, "as"), Space, Ident("id")])

  /** `objectid as id, name,area,wkb_geometry as shape` */
  const SelectList: Token :=
    Group(IdentifierList, [IdColumn, Leaf(Punctuation, ","), Space, Ident("name"), Leaf(Punctuation, ","),
                           Ident("area"), Leaf(Punctuation, ","), ShapeColumn])

  /** `select objectid as id, name,area,wkb_geometry as shape from
      import.abc_polygon`, the stored query of the simplification
      examples. */
  const SimplifyQuery: Token :=
    Group(Statement, [Leaf(Keyword, "select"), Space, SelectList, Space, Leaf(Keyword, "from"), Space,
                      Group(Identifier, [Leaf(Name, "import"), Leaf(Punctuation, "."), Leaf(Name, "abc_polygon")])])

  lemma AsKeyword()
    ensures IsAsKeyword(Leaf(Keyword, "as"))
  {
    assert Strings.Upper("as") == "AS";
  }

  lemma IdentName(n: string)
    ensures GetAlias(Ident(n)) == None
    ensures GetRealName(Ident(n)) == Some(n)
    ensures GetName(Ident(n)) == Some(n)
  {
    var ts := Ident(n).tokens;
    assert FirstFrom(ts, 0, IsAsKeyword) == None by {
      assert FirstFrom(ts, 1, IsAsKeyword) == None;
    }
    assert FirstFrom(ts, 0, IsDot) == None by {
      assert FirstFrom(ts, 1, IsDot) == None;
    }
  }

  /** An entry `head as alias`, whatever the head holds before the AS, is
      named by its alias, whether the alias is a plain name or the
      identifier the parser nests. */
  lemma AliasAfterAs(head: seq<Token>, alias: string, nested: bool)
    requires forall j :: 0 <= j < |head| ==> !IsAsKeyword(head[j])
    requires alias != ""
    ensures var t := Group(Identifier, head + [Space, Leaf(Keyword, "as"), Space,
                                               if nested then Ident(alias) else Leaf(Name, alias)]);
            GetAlias(t) == Some(alias) && GetName(t) == Some(alias)
  {
    AsKeyword();
    var last := if nested then Ident(alias) else Leaf(Name, alias);
    var ts := head + [Space, Leaf(Keyword, "as"), Space, last];
    var k := |head| + 1;
    assert ts[k] == Leaf(Keyword, "as");
    assert forall j :: 0 <= j < |head| ==> ts[j] == head[j];
    assert ts[|head|] == Space;
    FirstIsFirst(ts, IsAsKeyword, k);
    IdentName(alias);
    assert ts[k + 1] == Space && ts[k + 2] == last;
    assert FirstName(ts, k + 1, true, false) == FirstName(ts, k + 2, true, false);
  }

  /** The entries of the examples are found by their aliases: `shape` and
      `id`, with the nested alias as well as with a plain one, while the
      real name of the shape entry stays the column. */
  lemma ShapeColumnAlias()
    ensures GetAlias(ShapeColumn) == Some("shape")
    ensures GetName(ShapeColumn) == Some("shape")
    ensures GetName(FlatShapeColumn) == Some("shape")
    ensures GetName(QualifiedShapeColumn) == Some("shape")
    ensures GetName(IdColumn) == Some("id")
    ensures GetRealName(ShapeColumn) == Some("wkb_geometry")
  {
    NestedShapeAlias();
    FlatShapeAlias();
    QualifiedShapeAlias();
    IdColumnAlias();
    ShapeRealName();
  }

  lemma NestedShapeAlias()
    ensures GetAlias(ShapeColumn) == Some("shape") && GetName(ShapeColumn) == Some("shape")
  {
    AliasAfterAs([Leaf(Name, "wkb_geometry")], "shape", true);
    assert [Leaf(Name, "wkb_geometry")] + [Space, Leaf(Keyword, "as"), Space, Ident("shape")] == ShapeColumn.tokens;
  }

  lemma FlatShapeAlias()
    ensures GetName(FlatShapeColumn) == Some("shape")
  {
    AliasAfterAs([Leaf(Name, "wkb_geometry")], "shape", false);
    assert [Leaf(Name, "wkb_geometry")] + [Space, Leaf(Keyword, "as"), Space, Leaf(Name, "shape")] == FlatShapeColumn.tokens;
  }

  lemma QualifiedShapeAlias()
    ensures GetName(QualifiedShapeColumn) == Some("shape")
  {
    var q := [Leaf(Name, "a"), Leaf(Punctuation, "."), Leaf(Name, "wkb_geometry")];
    AsKeyword();
    assert !IsAsKeyword(q[0]) && !IsAsKeyword(q[1]) && !IsAsKeyword(q[2]);
    AliasAfterAs(q, "shape", true);
    assert q + [Space, Leaf(Keyword, "as"), Space, Ident("shape")] == QualifiedShapeColumn.tokens;
  }

  lemma IdColumnAlias()
    ensures GetName(IdColumn) == Some("id")
  {
    AliasAfterAs([Leaf(Name, "objectid")], "id", true);
    assert [Leaf(Name, "objectid")] + [Space, Leaf(Keyword, "as"), Space, Ident("id")] == IdColumn.tokens;
  }

  lemma ShapeRealName()
    ensures GetRealName(ShapeColumn) == Some("wkb_geometry")
  {
    var ts := ShapeColumn.tokens;
    assert FirstFrom(ts, 5, IsDot) == None;
    assert FirstFrom(ts, 4, IsDot) == None;
    assert FirstFrom(ts, 3, IsDot) == None;
    assert FirstFrom(ts, 2, IsDot) == None;
    assert FirstFrom(ts, 1, IsDot) == None;
    assert FirstFrom(ts, 0, IsDot) == None;
  }

  /** The bare copy drops the alias and keeps a table qualifier. */
  lemma ShapeColumnBare()
    ensures Render(BareIdentifier(ShapeColumn)) == "wkb_geometry"
    ensures Render(BareIdentifier(QualifiedShapeColumn)) == "a.wkb_geometry"
  {
    ShapeBare();
    QualifiedBare();
  }

  lemma ShapeBare()
    ensures Render(BareIdentifier(ShapeColumn)) == "wkb_geometry"
  {
    BareTokensOf(ShapeColumn.tokens, 1);
    assert ShapeColumn.tokens[..1] == [Leaf(Name, "wkb_geometry")];
    RenderAllOne(Leaf(Name, "wkb_geometry"));
  }

  lemma QualifiedBare()
    ensures Render(BareIdentifier(QualifiedShapeColumn)) == "a.wkb_geometry"
  {
    BareTokensOf(QualifiedShapeColumn.tokens, 3);
    assert QualifiedShapeColumn.tokens[..3] == [Leaf(Name, "a"), Leaf(Punctuation, "."), Leaf(Name, "wkb_geometry")];
    RenderThree(Leaf(Name, "a"), Leaf(Punctuation, "."), Leaf(Name, "wkb_geometry"));
  }

  /** `ST_Simplify(wkb_geometry,%s) AS shape`, as in the simplification
      example. */
  lemma SimplifyCall()
    ensures Render(BuildFunctionCall("ST_Simplify", ShapeColumn, 1, true))
            == "ST_Simplify(wkb_geometry,%s) AS shape"
  {
    ShapeAliasText();
    ShapeColumnBare();
    SimplifyCallOf(ShapeColumn);
  }

  lemma SimplifyCallOf(id: Token)
    requires id.Group?
    requires Render(BareIdentifier(id)) == "wkb_geometry" && AliasText(id, true) == " AS shape"
    ensures Render(BuildFunctionCall("ST_Simplify", id, 1, true)) == "ST_Simplify(wkb_geometry,%s) AS shape"
  {
    RenderFunctionCall("ST_Simplify", id, 1, true);
    RepeatOne();
    SimplifyText();
  }

  lemma RepeatOne()
    ensures RepeatParam(1) == ",%s"
  {
  }

  lemma SimplifyText()
    ensures "ST_Simplify" + "(" + "wkb_geometry" + ",%s" + ")" + " AS shape" == "ST_Simplify(wkb_geometry,%s) AS shape"
  {
  }

  lemma IntersectsText()
    ensures "ST_Intersects" + "(" + "wkb_geometry" + ",%s" + ")" + "" == "ST_Intersects(wkb_geometry,%s)"
  {
  }

  lemma ShapeAliasText()
    ensures AliasText(ShapeColumn, true) == " AS shape"
  {
    ShapeColumnAlias();
  }

  /** `ST_Intersects(wkb_geometry,%s)`: without `add_alias` no alias is
      written. */
  lemma IntersectsCall()
    ensures Render(BuildFunctionCall("ST_Intersects", ShapeColumn, 1, false))
            == "ST_Intersects(wkb_geometry,%s)"
  {
    ShapeColumnBare();
    RenderFunctionCall("ST_Intersects", ShapeColumn, 1, false);
    RepeatOne();
    assert AliasText(ShapeColumn, false) == "";
    IntersectsText();
  }
}
