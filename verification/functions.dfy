/** The function markers of query JSON documents, wfs/functions.py.

    While a query document is decoded, every object is handed to a hook
    after its members have been decoded (innermost first, in document
    order). An object holding the key `__function__` is replaced by the
    value of the function it names, from a cache that lives for one decoding
    call. The decoding of the JSON text itself is the library's: the model
    starts from the decoded tree, and a function's value is represented by
    the function's name and the ordinal of the evaluation that produced it,
    standing for the clock reading the function would take. Numbers are
    kept as integers: a decoded document may also hold floats, which the
    hook passes through untouched like any other value that is not an
    object. */
module QueryFunctions {
  import opened Wrappers

  datatype Json =
    | JNull
    | JBool(b: bool)
    | JNumber(n: int)
    | JString(s: string)
    | JArray(items: seq<Json>)
    | JObject(members: seq<Member>)
    | Computed(name: string, ordinal: nat)

  /** One `"key": value` member of a decoded object. */
  datatype Member = Member(key: string, value: Json)

  const FunctionKey: string := "__function__"

  /** The names of `context`. */
  const Registry: set<string> := {"current_datetime", "current_timestamp_millis", "current_timestamp_seconds"}

  datatype FnError =
    | UnsupportedFunction(name: Json)
    | UnhashableName(name: Json)

  /** The per-call cache and the number of evaluations made so far. */
  datatype Memo = Memo(cache: map<string, Json>, calls: nat)

  const EmptyMemo: Memo := Memo(map[], 0)

  /** Only registered names are cached, each once, as the value of the
      evaluation that first met it. */
  predicate Valid(m: Memo) {
    && m.cache.Keys <= Registry
    && |m.cache.Keys| == m.calls
    && forall s :: s in m.cache ==> m.cache[s].Computed? && m.cache[s].name == s && m.cache[s].ordinal < m.calls
  }

  /** The cache only grows, and what it held stays. */
  predicate Extends(m2: Memo, m1: Memo) {
    && m1.calls <= m2.calls
    && forall s :: s in m1.cache ==> s in m2.cache && m2.cache[s] == m1.cache[s]
  }

  // ---------------------------------------------------------------------
  // The object hook
  // ---------------------------------------------------------------------

  /** `key in dct`, for the members of a decoded object. */
  predicate HasKey(members: seq<Member>, key: string) {
    exists i :: 0 <= i < |members| && members[i].key == key
  }

  /** `dct[key]`: when a key repeats, the last member wins. */
  function Lookup(members: seq<Member>, key: string): (v: Json)
    requires HasKey(members, key)
    ensures exists i :: && 0 <= i < |members| && members[i].key == key && members[i].value == v
                        && forall j :: i < j < |members| ==> members[j].key != key
  {
    var last := members[|members| - 1];
    if last.key == key then last.value
    else
      var i :| 0 <= i < |members| && members[i].key == key;
      assert i < |members| - 1;
      var init := members[..|members| - 1];
      assert HasKey(init, key) by {
        assert init[i] == members[i];
      }
      var v := Lookup(init, key);
      var k :| && 0 <= k < |init| && init[k].key == key && init[k].value == v
               && forall j :: k < j < |init| ==> init[j].key != key;
      assert members[k] == init[k];
      assert forall j :: k < j < |members| ==> members[j].key != key by {
        forall j | k < j < |members| ensures members[j].key != key {
          if j < |init| {
            assert members[j] == init[j];
          }
        }
      }
      v
  }

  predicate Hashable(j: Json) {
    !j.JArray? && !j.JObject?
  }

  /** `evaluate_functions(dct, cache)` */
  function Hook(members: seq<Member>, m: Memo): (r: Result<(Json, Memo), FnError>)
    requires Valid(m)
    ensures r.Ok? ==> Valid(r.value.1) && Extends(r.value.1, m)
    ensures !HasKey(members, FunctionKey) ==> r == Ok((JObject(members), m))
  {
    if !HasKey(members, FunctionKey) then Ok((JObject(members), m))
    else
      var name := Lookup(members, FunctionKey);
      if !Hashable(name) then Err(UnhashableName(name))
      else if !name.JString? || name.s !in Registry then Err(UnsupportedFunction(name))
      else if name.s in m.cache then Ok((m.cache[name.s], m))
      else
        var v := Computed(name.s, m.calls);
        var m' := Memo(m.cache[name.s := v], m.calls + 1);
        assert m'.cache.Keys == m.cache.Keys + {name.s};
        Ok((v, m'))
  }

  // ---------------------------------------------------------------------
  // Bottom-up rewriting
  // ---------------------------------------------------------------------

  function Rewrite(j: Json, m: Memo): (r: Result<(Json, Memo), FnError>)
    requires Valid(m)
    ensures r.Ok? ==> Valid(r.value.1) && Extends(r.value.1, m)
    decreases j, 2
  {
    match j
    case JArray(items) =>
      var (items', m') :- RewriteAll(items, m);
      Ok((JArray(items'), m'))
    case JObject(members) =>
      var (members', m') :- RewriteMembers(members, m);
      Hook(members', m')
    case _ => Ok((j, m))
  }

  function RewriteAll(items: seq<Json>, m: Memo): (r: Result<(seq<Json>, Memo), FnError>)
    requires Valid(m)
    ensures r.Ok? ==> Valid(r.value.1) && Extends(r.value.1, m) && |r.value.0| == |items|
    decreases items, 1
  {
    if |items| == 0 then Ok(([], m))
    else
      var (head, m1) :- Rewrite(items[0], m);
      var (tail, m2) :- RewriteAll(items[1..], m1);
      Ok(([head] + tail, m2))
  }

  function RewriteMembers(members: seq<Member>, m: Memo): (r: Result<(seq<Member>, Memo), FnError>)
    requires Valid(m)
    ensures r.Ok? ==> Valid(r.value.1) && Extends(r.value.1, m) && |r.value.0| == |members|
    ensures r.Ok? ==> forall i :: 0 <= i < |members| ==> r.value.0[i].key == members[i].key
    decreases members, 1
  {
    if |members| == 0 then Ok(([], m))
    else
      var (value, m1) :- Rewrite(members[0].value, m);
      var (tail, m2) :- RewriteMembers(members[1..], m1);
      Ok(([Member(members[0].key, value)] + tail, m2))
  }

  /** `parse_query(query)` on the decoded document: every call starts
      from an empty cache. */
  function ParseQuery(doc: Json): (r: Result<Json, FnError>)
  {
    var (j, _) :- Rewrite(doc, EmptyMemo);
    Ok(j)
  }

  // ---------------------------------------------------------------------
  // Properties
  // ---------------------------------------------------------------------

  /** No object anywhere in the document holds the marker key. */
  predicate MarkerFree(j: Json)
    decreases j, 2
  {
    match j
    case JArray(items) => MarkerFreeAll(items)
    case JObject(members) => !HasKey(members, FunctionKey) && MarkerFreeMembers(members)
    case _ => true
  }

  predicate MarkerFreeAll(items: seq<Json>)
    decreases items, 1
  {
    |items| == 0 || (MarkerFree(items[0]) && MarkerFreeAll(items[1..]))
  }

  predicate MarkerFreeMembers(members: seq<Member>)
    decreases members, 1
  {
    |members| == 0 || (MarkerFree(members[0].value) && MarkerFreeMembers(members[1..]))
  }

  /** A document without markers comes back unchanged, and the cache is
      not touched. */
  lemma {:induction false} MarkerFreeUnchanged(j: Json, m: Memo)
    requires Valid(m) && MarkerFree(j)
    ensures Rewrite(j, m) == Ok((j, m))
    decreases j, 2
  {
    match j
    case JArray(items) => MarkerFreeAllUnchanged(items, m);
    case JObject(members) => MarkerFreeMembersUnchanged(members, m);
    case _ =>
  }

  lemma {:induction false} MarkerFreeAllUnchanged(items: seq<Json>, m: Memo)
    requires Valid(m) && MarkerFreeAll(items)
    ensures RewriteAll(items, m) == Ok((items, m))
    decreases items, 1
  {
    if |items| > 0 {
      MarkerFreeUnchanged(items[0], m);
      MarkerFreeAllUnchanged(items[1..], m);
      assert [items[0]] + items[1..] == items;
    }
  }

  lemma {:induction false} MarkerFreeMembersUnchanged(members: seq<Member>, m: Memo)
    requires Valid(m) && MarkerFreeMembers(members)
    ensures RewriteMembers(members, m) == Ok((members, m))
    decreases members, 1
  {
    if |members| > 0 {
      MarkerFreeUnchanged(members[0].value, m);
      MarkerFreeMembersUnchanged(members[1..], m);
      assert [Member(members[0].key, members[0].value)] + members[1..] == members;
    }
  }

  /** A marker object: the key with a name, and possibly other members. */
  function Marker(name: string, others: seq<Member>): Json {
    JObject([Member(FunctionKey, JString(name))] + others)
  }

  /** A marker naming a function outside `context` fails, whatever else
      the object holds. */
  lemma UnknownFunctionFails(name: string, others: seq<Member>, m: Memo)
    requires Valid(m) && name !in Registry
    requires MarkerFreeMembers(others) && !HasKey(others, FunctionKey)
    ensures Rewrite(Marker(name, others), m) == Err(UnsupportedFunction(JString(name)))
  {
    var members := [Member(FunctionKey, JString(name))] + others;
    MarkerFreeHead(name, others);
    MarkerFreeMembersUnchanged(members, m);
    LookupOnlyHead(name, others);
  }

  /** A marker object is replaced as a whole by the function's value: on
      the first occurrence by a fresh evaluation, later by the cached one;
      the object's other members are dropped. */
  lemma MarkerReplaced(name: string, others: seq<Member>, m: Memo)
    requires Valid(m) && name in Registry
    requires MarkerFreeMembers(others) && !HasKey(others, FunctionKey)
    ensures Rewrite(Marker(name, others), m).Ok?
    ensures name in m.cache ==> Rewrite(Marker(name, others), m) == Ok((m.cache[name], m))
    ensures name !in m.cache ==>
              Rewrite(Marker(name, others), m)
              == Ok((Computed(name, m.calls), Memo(m.cache[name := Computed(name, m.calls)], m.calls + 1)))
  {
    var members := [Member(FunctionKey, JString(name))] + others;
    MarkerFreeHead(name, others);
    MarkerFreeMembersUnchanged(members, m);
    LookupOnlyHead(name, others);
  }

  lemma MarkerFreeHead(name: string, others: seq<Member>)
    requires MarkerFreeMembers(others)
    ensures MarkerFreeMembers([Member(FunctionKey, JString(name))] + others)
  {
    assert ([Member(FunctionKey, JString(name))] + others)[1..] == others;
  }

  lemma {:induction false} LookupOnlyHead(name: string, others: seq<Member>)
    requires !HasKey(others, FunctionKey)
    ensures var members := [Member(FunctionKey, JString(name))] + others;
            HasKey(members, FunctionKey) && Lookup(members, FunctionKey) == JString(name)
  {
    var members := [Member(FunctionKey, JString(name))] + others;
    assert members[0].key == FunctionKey;
    var v := Lookup(members, FunctionKey);
    var i :| 0 <= i < |members| && members[i].key == FunctionKey && members[i].value == v;
  }

  /** Within one call every name is evaluated at most once: the number of
      evaluations never exceeds the number of registered names, three. */
  lemma AtMostOneEvaluationPerName(doc: Json)
    requires Rewrite(doc, EmptyMemo).Ok?
    ensures Rewrite(doc, EmptyMemo).value.1.calls <= |Registry|
    ensures Rewrite(doc, EmptyMemo).value.1.calls <= 3
  {
    var m := Rewrite(doc, EmptyMemo).value.1;
    assert Valid(m);
    SubsetCardinality(m.cache.Keys, Registry);
  }

  lemma SubsetCardinality(a: set<string>, b: set<string>)
    requires a <= b
    ensures |a| <= |b|
  {
    assert b == a + (b - a);
  }

  /** Every function value in the document is the one the memo caches
      for its name. */
  predicate Agrees(j: Json, m: Memo)
    decreases j, 2
  {
    match j
    case Computed(name, _) => name in m.cache && m.cache[name] == j
    case JArray(items) => AgreesAll(items, m)
    case JObject(members) => AgreesMembers(members, m)
    case _ => true
  }

  predicate AgreesAll(items: seq<Json>, m: Memo)
    decreases items, 1
  {
    |items| == 0 || (Agrees(items[0], m) && AgreesAll(items[1..], m))
  }

  predicate AgreesMembers(members: seq<Member>, m: Memo)
    decreases members, 1
  {
    |members| == 0 || (Agrees(members[0].value, m) && AgreesMembers(members[1..], m))
  }

  /** What agrees with a memo agrees with every memo extending it. */
  lemma {:induction false} AgreesGrows(j: Json, m1: Memo, m2: Memo)
    requires Agrees(j, m1) && Extends(m2, m1)
    ensures Agrees(j, m2)
    decreases j, 2
  {
    match j
    case JArray(items) => AgreesAllGrows(items, m1, m2);
    case JObject(members) => AgreesMembersGrows(members, m1, m2);
    case _ =>
  }

  lemma {:induction false} AgreesAllGrows(items: seq<Json>, m1: Memo, m2: Memo)
    requires AgreesAll(items, m1) && Extends(m2, m1)
    ensures AgreesAll(items, m2)
    decreases items, 1
  {
    if |items| > 0 {
      AgreesGrows(items[0], m1, m2);
      AgreesAllGrows(items[1..], m1, m2);
    }
  }

  lemma {:induction false} AgreesMembersGrows(members: seq<Member>, m1: Memo, m2: Memo)
    requires AgreesMembers(members, m1) && Extends(m2, m1)
    ensures AgreesMembers(members, m2)
    decreases members, 1
  {
    if |members| > 0 {
      AgreesGrows(members[0].value, m1, m2);
      AgreesMembersGrows(members[1..], m1, m2);
    }
  }

  /** The hook's result agrees with the memo it hands on: a marker becomes
      the value cached for its name. */
  lemma HookAgrees(members: seq<Member>, m: Memo)
    requires Valid(m) && AgreesMembers(members, m) && Hook(members, m).Ok?
    ensures Agrees(Hook(members, m).value.0, Hook(members, m).value.1)
  {
  }

  /** Rewriting keeps a document in agreement with the memo: every
      function value it holds, old or new, is the cached one. */
  lemma {:induction false} RewriteAgrees(j: Json, m: Memo)
    requires Valid(m) && Agrees(j, m) && Rewrite(j, m).Ok?
    ensures Agrees(Rewrite(j, m).value.0, Rewrite(j, m).value.1)
    decreases j, 2
  {
    match j
    case JArray(items) => RewriteAllAgrees(items, m);
    case JObject(members) =>
      RewriteMembersAgrees(members, m);
      var (members', m') := RewriteMembers(members, m).value;
      HookAgrees(members', m');
    case _ =>
  }

  lemma {:induction false} RewriteAllAgrees(items: seq<Json>, m: Memo)
    requires Valid(m) && AgreesAll(items, m) && RewriteAll(items, m).Ok?
    ensures AgreesAll(RewriteAll(items, m).value.0, RewriteAll(items, m).value.1)
    decreases items, 1
  {
    if |items| > 0 {
      RewriteAgrees(items[0], m);
      var (head, m1) := Rewrite(items[0], m).value;
      AgreesAllGrows(items[1..], m, m1);
      RewriteAllAgrees(items[1..], m1);
      var (tail, m2) := RewriteAll(items[1..], m1).value;
      AgreesGrows(head, m1, m2);
      assert ([head] + tail)[1..] == tail;
    }
  }

  lemma {:induction false} RewriteMembersAgrees(members: seq<Member>, m: Memo)
    requires Valid(m) && AgreesMembers(members, m) && RewriteMembers(members, m).Ok?
    ensures AgreesMembers(RewriteMembers(members, m).value.0, RewriteMembers(members, m).value.1)
    decreases members, 1
  {
    if |members| > 0 {
      RewriteAgrees(members[0].value, m);
      var (value, m1) := Rewrite(members[0].value, m).value;
      AgreesMembersGrows(members[1..], m, m1);
      RewriteMembersAgrees(members[1..], m1);
      var (tail, m2) := RewriteMembers(members[1..], m1).value;
      AgreesGrows(value, m1, m2);
      assert ([Member(members[0].key, value)] + tail)[1..] == tail;
    }
  }

  /** Within one decoding, all markers naming one function get one value:
      for a document that holds no function values yet, every function
      value in the result is the one cached for its name at the end of the
      call, and the cache holds a single value per name. */
  lemma OneValuePerName(doc: Json)
    requires Agrees(doc, EmptyMemo) && Rewrite(doc, EmptyMemo).Ok?
    ensures Valid(Rewrite(doc, EmptyMemo).value.1)
    ensures Agrees(Rewrite(doc, EmptyMemo).value.0, Rewrite(doc, EmptyMemo).value.1)
  {
    RewriteAgrees(doc, EmptyMemo);
  }

  /** Two markers with the same name give the identical value: the one
      computed by the first evaluation. */
  lemma RepeatedMarkerShared(name: string)
    requires name in Registry
    ensures ParseQuery(JArray([Marker(name, []), Marker(name, [])]))
            == Ok(JArray([Computed(name, 0), Computed(name, 0)]))
  {
    var mk := Marker(name, []);
    var v := Computed(name, 0);
    assert !HasKey([], FunctionKey);
    MarkerReplaced(name, [], EmptyMemo);
    var m1 := Memo(EmptyMemo.cache[name := v], 1);
    MarkerReplaced(name, [], m1);
    RewriteTwo(mk, mk, EmptyMemo, v, m1, v, m1);
  }

  /** An array of two elements is rewritten element by element, the memo
      threaded from the first to the second. */
  lemma RewriteTwo(a: Json, b: Json, m: Memo, va: Json, m1: Memo, vb: Json, m2: Memo)
    requires Valid(m) && Rewrite(a, m) == Ok((va, m1))
    requires Rewrite(b, m1) == Ok((vb, m2))
    ensures Rewrite(JArray([a, b]), m) == Ok((JArray([va, vb]), m2))
  {
    RewriteOne(b, m1, vb, m2);
    var items := [a, b];
    assert items[0] == a && items[1..] == [b];
    assert RewriteAll(items, m) == Ok(([va] + [vb], m2));
    assert [va] + [vb] == [va, vb];
  }

  lemma RewriteOne(b: Json, m: Memo, vb: Json, m2: Memo)
    requires Valid(m) && Rewrite(b, m) == Ok((vb, m2))
    ensures RewriteAll([b], m) == Ok(([vb], m2))
  {
    assert [b][0] == b && [b][1..] == [];
    assert RewriteAll([], m2) == Ok(([], m2));
    assert [vb] + [] == [vb];
  }

  /** Each decoding starts afresh: a marker is always evaluated at
      ordinal 0 when it is the first one met, whatever came before. */
  lemma FreshCachePerParse(name: string)
    requires name in Registry
    ensures ParseQuery(Marker(name, [])) == Ok(Computed(name, 0))
  {
    assert !HasKey([], FunctionKey);
    MarkerReplaced(name, [], EmptyMemo);
  }
}
