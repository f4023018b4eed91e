/** The streamed JSON bodies of wfs/views.py: `GeoJsonIterator`, which
    writes a GeoJSON feature collection into a buffer and hands the buffer
    on whenever it has grown past 16383 characters, and
    `RelatedJsonIterator`, which hands on one piece per object. The JSON
    encodings of a geometry, of a property dictionary and of a bounding box
    are inputs; `json.dumps` of a text is the parameter `quote`. */
module GeoJson {
  import opened Wrappers
  import opened Strings
  import opened ParamScan
  import opened FeatureIds

  /** The buffer is handed on once `os.tell()` exceeds this. */
  const ChunkLimit := 16383

  /** What a feature offers to the writer: its type's name, its id as
      `"%d"` reads it, the JSON text of its geometry and the JSON text
      `json.dumps(props, cls=DecimalEncoder)` gives. Each of these can be
      missing, and each missing one makes the writer raise:
      - `id` is None for a raw row without an `id` column, and for an id
        `"%d"` refuses, such as a text column;
      - `geometry` is None for a feature without a geometry;
      - `props` is None when the encoder meets a value it cannot write, such
        as a `date`, since `DecimalEncoder` adds only `Decimal`. */
  datatype FeatureOut = FeatureOut(typeName: string, id: Option<int>, geometry: Option<string>, props: Option<string>)

  predicate Unrenderable(f: FeatureOut) {
    f.id.None? || f.geometry.None? || f.props.None?
  }

  /** `"%s.%d" % (ftype.name, feature.id)`. */
  function IdText(typeName: string, id: int): string {
    typeName + "." + IntToString(id)
  }

  /** The id a response carries is read back by `get_feature_from_parameter`
      as the type and number it was written from. */
  lemma IdTextReadBack(typeName: string, id: int)
    requires '.' !in typeName
    ensures FeatureFromParameter(IdText(typeName, id)) == Some((typeName, id))
  {
    FeatureIdRoundTrip(typeName, id);
  }

  /** One feature object, without the separator. */
  function FeatureText(f: FeatureOut, quote: string -> string): string
    requires !Unrenderable(f)
  {
    "{\"type\":\"Feature\",\"id\":" + quote(IdText(f.typeName, f.id.value))
      + ",\"geometry\":" + f.geometry.value + ",\"properties\":" + f.props.value + "}"
  }

  /** The texts of features that can all be written, in order. */
  function Texts(fs: seq<FeatureOut>, quote: string -> string): (r: seq<string>)
    requires forall i :: 0 <= i < |fs| ==> !Unrenderable(fs[i])
    ensures |r| == |fs|
    decreases |fs|
  {
    if |fs| == 0 then [] else [FeatureText(fs[0], quote)] + Texts(fs[1..], quote)
  }

  /** The opening of the collection; the bounding box is written only when
      there is one (`if self.bbox`). */
  function Header(crsJson: string, bboxJson: Option<string>): string {
    "{\"type\":\"FeatureCollection\",\"crs\":{\"type\":\"name\",\"properties\":{\"name\":" + crsJson + "}}"
      + (if bboxJson.Some? then ",\"bbox\":" + bboxJson.value else "")
      + ",\"features\":["
  }

  function Footer(count: nat): string {
    "],\"totalFeatures\":" + IntToString(count) + "}"
  }

  /** The whole response body for features that all render. */
  function Document(crsJson: string, bboxJson: Option<string>, texts: seq<string>): string {
    Header(crsJson, bboxJson) + Join(texts, ",") + Footer(|texts|)
  }

  /** The texts of the features up to the first one that cannot be
      written. */
  function Rendered(features: seq<FeatureOut>, quote: string -> string): (r: seq<string>)
    ensures var k := FirstWhere(features, Unrenderable);
            |r| == (if k.Some? then k.value else |features|)
    ensures |r| <= |features| && r == Texts(features[..|r|], quote)
    decreases |features|
  {
    if |features| == 0 || Unrenderable(features[0]) then []
    else
      var rest := Rendered(features[1..], quote);
      RenderedCons(features, rest, quote);
      [FeatureText(features[0], quote)] + rest
  }

  lemma RenderedCons(features: seq<FeatureOut>, rest: seq<string>, quote: string -> string)
    requires |features| > 0 && !Unrenderable(features[0])
    requires var k := FirstWhere(features[1..], Unrenderable);
             |rest| == (if k.Some? then k.value else |features| - 1)
    requires rest == Texts(features[1..][..|rest|], quote)
    ensures var r := [FeatureText(features[0], quote)] + rest;
            && r == Texts(features[..|r|], quote)
            && var k := FirstWhere(features, Unrenderable);
               |r| == (if k.Some? then k.value else |features|)
  {
    FirstWhereCons(features, Unrenderable);
    TextsCons(features, |rest|, quote);
  }

  /** The first bad element after a good head is one further on. */
  lemma FirstWhereCons<T>(ps: seq<T>, bad: T -> bool)
    requires |ps| > 0 && !bad(ps[0])
    ensures var k := FirstWhere(ps[1..], bad);
            FirstWhere(ps, bad) == if k.Some? then Some(k.value + 1) else None
  {
    var k := FirstWhere(ps[1..], bad);
    if k.Some? {
      assert ps[k.value + 1] == ps[1..][k.value];
    } else {
      assert forall j :: 1 <= j < |ps| ==> ps[j] == ps[1..][j - 1];
    }
  }

  lemma TextsCons(fs: seq<FeatureOut>, n: nat, quote: string -> string)
    requires n < |fs| && forall j :: 0 <= j <= n ==> !Unrenderable(fs[j])
    ensures Texts(fs[..n + 1], quote) == [FeatureText(fs[0], quote)] + Texts(fs[1..][..n], quote)
  {
    assert fs[..n + 1][1..] == fs[1..][..n];
  }

  /** `GeoJsonIterator.__iter__`: the pieces handed to the response. When
      a feature cannot be written the generator raises (`failed`), and only
      the pieces handed on before it have been sent. */
  method GeoJsonChunks(crsJson: string, bboxJson: Option<string>, features: seq<FeatureOut>, quote: string -> string)
    returns (chunks: seq<string>, failed: bool)
    ensures var k := FirstWhere(features, Unrenderable);
            && (failed <==> k.Some?)
            && (failed ==> Concat(chunks) <= Header(crsJson, bboxJson) + Join(Texts(features[..k.value], quote), ","))
    ensures !failed ==> |chunks| >= 1 && Concat(chunks) == Document(crsJson, bboxJson, Texts(features, quote))
    ensures !failed ==> forall j :: 0 <= j < |chunks| - 1 ==> |chunks[j]| > ChunkLimit
    ensures failed ==> forall j :: 0 <= j < |chunks| ==> |chunks[j]| > ChunkLimit
    ensures !failed && |Header(crsJson, bboxJson) + Join(Texts(features, quote), ",")| <= ChunkLimit ==> |chunks| == 1
  {
    var head := Header(crsJson, bboxJson);
    var texts := Rendered(features, quote);
    var buf;
    chunks, buf := WriteTexts(head, texts, ",");
    failed := |texts| < |features|;
    if failed {
      PrefixOfSum(Concat(chunks), buf);
    } else {
      assert features[..|texts|] == features;
      var tail := Footer(|features|);
      Close(chunks, buf, head, Join(texts, ","), tail);
      chunks := chunks + [buf + tail];
    }
  }

  /** Writing the closing into the buffer and handing it on completes the
      body; nothing was handed on before it when the body stayed within the
      limit. */
  lemma Close(chunks: seq<string>, buf: string, head: string, body: string, tail: string)
    requires Concat(chunks) + buf == head + body
    requires |chunks| > 0 ==> |Concat(chunks)| > ChunkLimit
    ensures Concat(chunks + [buf + tail]) == head + body + tail
    ensures |head + body| <= ChunkLimit ==> chunks == []
  {
    ConcatSnoc(chunks, buf + tail);
    assert Concat(chunks) + (buf + tail) == (Concat(chunks) + buf) + tail;
    assert |Concat(chunks)| <= |Concat(chunks) + buf|;
  }

  /** The loop of `__iter__` after the opening `head` is in the buffer:
      each text is written after the separator (none before the first),
      and the buffer is handed on whenever it is longer than the limit. */
  method WriteTexts(head: string, texts: seq<string>, sep: string) returns (chunks: seq<string>, buf: string)
    ensures Concat(chunks) + buf == head + Join(texts, sep)
    ensures forall j :: 0 <= j < |chunks| ==> |chunks[j]| > ChunkLimit
    ensures |chunks| > 0 ==> |Concat(chunks)| > ChunkLimit
  {
    chunks := [];
    buf := head;
    var i := 0;
    while i < |texts|
      invariant 0 <= i <= |texts|
      invariant Concat(chunks) + buf == head + Join(texts[..i], sep)
      invariant forall j :: 0 <= j < |chunks| ==> |chunks[j]| > ChunkLimit
      invariant |chunks| > 0 ==> |Concat(chunks)| > ChunkLimit
    {
      var before := if i == 0 then [] else sep;
      WriteStep(Concat(chunks), buf, head, texts, i, sep);
      buf := buf + before + texts[i];
      if |buf| > ChunkLimit {
        ConcatSnoc(chunks, buf);
        chunks := chunks + [buf];
        buf := [];
      }
      i := i + 1;
    }
    assert texts[..i] == texts;
  }

  lemma PrefixOfSum(a: string, b: string)
    ensures a <= a + b
  {
    assert (a + b)[..|a|] == a;
  }

  /** Writing the next text after its separator extends the body by it. */
  lemma WriteStep(done: string, buf: string, head: string, texts: seq<string>, i: nat, sep: string)
    requires i < |texts| && done + buf == head + Join(texts[..i], sep)
    ensures done + (buf + (if i == 0 then [] else sep) + texts[i]) == head + Join(texts[..i + 1], sep)
  {
    var before := if i == 0 then [] else sep;
    assert done + (buf + before + texts[i]) == (done + buf) + before + texts[i];
    assert texts[..i + 1] == texts[..i] + [texts[i]];
    if i == 0 {
      assert Join(texts[..1], sep) == texts[0];
    } else {
      JoinSnoc(texts[..i], texts[i], sep);
    }
  }

  // ---------------------------------------------------------------------
  // RelatedJsonIterator
  // ---------------------------------------------------------------------

  const RelatedHeader := "{\"type\":\"RelationCollection\",\"objects\":["

  function RelatedFooter(count: nat): string {
    "],\"totalObjects\":" + IntToString(count) + "}"
  }

  /** `RelatedJsonIterator.__iter__` over the JSON texts of the objects'
      concrete, non-relation fields: the opening, one piece per object
      (with the separating comma in front of all but the first), and the
      closing with the count. */
  method RelatedChunks(objs: seq<string>) returns (chunks: seq<string>)
    ensures |chunks| == |objs| + 2
    ensures chunks[0] == RelatedHeader && chunks[|chunks| - 1] == RelatedFooter(|objs|)
    ensures forall i :: 0 <= i < |objs| ==> chunks[i + 1] == (if i == 0 then "" else ",") + objs[i]
    ensures Concat(chunks) == RelatedHeader + Join(objs, ",") + RelatedFooter(|objs|)
  {
    chunks := [RelatedHeader];
    var i := 0;
    assert Concat([RelatedHeader]) == RelatedHeader by {
      assert [RelatedHeader][1..] == [];
    }
    while i < |objs|
      invariant 0 <= i <= |objs|
      invariant |chunks| == i + 1 && chunks[0] == RelatedHeader
      invariant forall j :: 0 <= j < i ==> chunks[j + 1] == (if j == 0 then "" else ",") + objs[j]
      invariant Concat(chunks) == RelatedHeader + Join(objs[..i], ",")
    {
      var piece := (if i == 0 then "" else ",") + objs[i];
      ConcatSnoc(chunks, piece);
      assert objs[..i + 1] == objs[..i] + [objs[i]];
      if i > 0 {
        JoinSnoc(objs[..i], objs[i], ",");
      }
      chunks := chunks + [piece];
      i := i + 1;
    }
    assert objs[..i] == objs;
    ConcatSnoc(chunks, RelatedFooter(i));
    chunks := chunks + [RelatedFooter(i)];
  }
}
