// Schema lines and chunking (sdk/toon_extended.py).  Escaping, splitting and
// unescaping are the functions of Toon, which the source repeats.
module ToonExtended {
  import opened Results
  import opened Seqs
  import opened PythonStrings
  import opened Toon

  // What _cast_value returns: the text itself, None, a truth value, or what int() or
  // float() makes of the text.
  datatype Value = Text(s: string) | NoneValue | BoolValue(b: bool) | Converted(kind: string, s: string)

  // Python's int() and float(); None where they raise.
  datatype Casts = Casts(toInt: string -> Option<Value>, toFloat: string -> Option<Value>)

  function LowerChar(c: char): (r: char)
    ensures r as int == if 65 <= c as int <= 90 then c as int + 32 else c as int
  {
    if 'A' <= c <= 'Z' then c + ' ' else c
  }

  // lower(), on the letters that matter for comparison with ASCII words.
  function Lower(s: string): (r: string)
    ensures |r| == |s|
    ensures forall i {:trigger r[i]} :: 0 <= i < |s| && 'A' <= s[i] <= 'Z' ==> r[i] as int == s[i] as int + 32
    ensures forall i {:trigger r[i]} :: 0 <= i < |s| && !('A' <= s[i] <= 'Z') ==> r[i] == s[i]
  {
    seq(|s|, i requires 0 <= i < |s| => LowerChar(s[i]))
  }

  predicate IsTypeWord(s: string) {
    var t := Lower(s);
    t == "int" || t == "integer" || t == "float" || t == "double" || t == "number" || t == "str" || t == "string" ||
    t == "bool" || t == "boolean"
  }

  // _cast_value
  function CastValue(s: string, typ: Option<string>, casts: Casts): Value {
    if typ.None? then Text(s)
    else if s == "" && typ.value != "str" then NoneValue
    else
      var t := Lower(typ.value);
      if t == "int" || t == "integer" then OrText(casts.toInt(s), s)
      else if t == "float" || t == "double" || t == "number" then OrText(casts.toFloat(s), s)
      else if t == "bool" || t == "boolean" then CastBool(s)
      else Text(s)
  }

  // A conversion that raises leaves the text.
  function OrText(c: Option<Value>, s: string): Value {
    if c.Some? then c.value else Text(s)
  }

  // The words for true and for false; any other text that is not empty is true.
  function CastBool(s: string): Value {
    var ls := Lower(s);
    if ls == "true" || ls == "1" || ls == "yes" || ls == "y" then BoolValue(true)
    else if ls == "false" || ls == "0" || ls == "no" || ls == "n" then BoolValue(false)
    else BoolValue(s != "")
  }

  type TypedObject = map<string, Value>

  // The second line is taken for a schema when all its parts are type words.
  predicate SchemaLike(line: string, delim: string)
    requires delim != ""
  {
    forall p | p in SplitOn(line, delim) :: IsTypeWord(p)
  }

  function TypeOf(types: Option<seq<string>>, i: nat): Option<string> {
    if types.Some? && i < |types.value| then Some(types.value[i]) else None
  }

  // The loop over the fields of one row.
  function ToTyped(fields: seq<string>, values: seq<string>, types: Option<seq<string>>, casts: Casts): (o: TypedObject)
    ensures o.Keys == Elems(fields)
  {
    if fields == [] then map[]
    else
      var n := |fields| - 1;
      assert fields == fields[..n] + [fields[n]];
      ElemsSnoc(fields[..n], fields[n]);
      ToTyped(fields[..n], values, types, casts)[fields[n] :=
        CastValue(if n < |values| then values[n] else "", TypeOf(types, n), casts)]
  }

  function ReadTyped(fields: seq<string>, lines: seq<string>, types: Option<seq<string>>, delim: string, casts: Casts)
      : (r: seq<TypedObject>)
    ensures |r| == |lines|
    ensures forall i {:trigger r[i]} :: 0 <= i < |lines| ==>
      r[i] == ToTyped(fields, UnescapeEach(SplitEscaped(lines[i], delim)), types, casts)
  {
    seq(|lines|, i requires 0 <= i < |lines| =>
      ToTyped(fields, UnescapeEach(SplitEscaped(lines[i], delim)), types, casts))
  }

  // from_toon
  function Read(text: string, delim: string, casts: Casts): seq<TypedObject>
    requires delim != ""
  {
    var lines := SplitLines(text);
    if lines == [] then []
    else
      var fields := HeaderFields(lines[0], delim);
      if |lines| > 1 && SchemaLike(lines[1], delim) then
        ReadTyped(fields, lines[2..], Some(SplitOn(lines[1], delim)), delim, casts)
      else ReadTyped(fields, lines[1..], None, delim, casts)
  }

  // to_toon: with a schema line of the given types, or without.
  function Write(objects: seq<Object>, fields: seq<string>, schema: Option<seq<string>>, delim: string): string {
    if objects == [] then ""
    else
      Join("\n", [Join(delim, fields)] + (if schema.Some? then [Join(delim, schema.value)] else [])
        + Rows(objects, fields, delim))
  }

  // to_toon, for given fields and types.
  method ToToon(objects: seq<Object>, fields: seq<string>, schema: Option<seq<string>>, delim: string)
      returns (r: string)
    ensures r == Write(objects, fields, schema, delim)
  {
    if |objects| == 0 {
      return "";
    }
    var rows: seq<string> := [];
    for i := 0 to |objects|
      invariant rows == Rows(objects, fields, delim)[..i]
    {
      var rowValues: seq<string> := [];
      for j := 0 to |fields|
        invariant rowValues == EscapeEach(ValuesOf(objects[i], fields), delim)[..j]
      {
        rowValues := rowValues + [EscapeValue(Get(objects[i], fields[j]), delim)];
      }
      assert rowValues == EscapeEach(ValuesOf(objects[i], fields), delim);
      rows := rows + [Join(delim, rowValues)];
    }
    assert rows == Rows(objects, fields, delim);
    var outLines := [Join(delim, fields)];
    if schema.Some? {
      outLines := outLines + [Join(delim, schema.value)];
    }
    return Join("\n", outLines + rows);
  }

  // The loop body of from_toon.
  method ReadRow(fields: seq<string>, line: string, types: Option<seq<string>>, delim: string, casts: Casts)
      returns (obj: TypedObject)
    ensures obj == ToTyped(fields, UnescapeEach(SplitEscaped(line, delim)), types, casts)
  {
    var values := ReadValues(line, delim);
    obj := map[];
    for i := 0 to |fields|
      invariant obj == ToTyped(fields[..i], values, types, casts)
    {
      assert fields[..i + 1][..i] == fields[..i];
      var value := if i < |values| then values[i] else "";
      obj := obj[fields[i] := CastValue(value, TypeOf(types, i), casts)];
    }
    assert fields[..|fields|] == fields;
  }

  lemma {:induction false} OneMoreRow(fields: seq<string>, rows: seq<string>, k: nat, types: Option<seq<string>>,
      delim: string, casts: Casts)
    requires k < |rows|
    ensures ReadTyped(fields, rows[..k + 1], types, delim, casts) == ReadTyped(fields, rows[..k], types, delim, casts)
         + [ToTyped(fields, UnescapeEach(SplitEscaped(rows[k], delim)), types, casts)]
  {
  }

  // The loop over the lines.
  method ReadRows(fields: seq<string>, rows: seq<string>, types: Option<seq<string>>, delim: string, casts: Casts)
      returns (objs: seq<TypedObject>)
    ensures objs == ReadTyped(fields, rows, types, delim, casts)
  {
    objs := [];
    for k := 0 to |rows|
      invariant objs == ReadTyped(fields, rows[..k], types, delim, casts)
    {
      OneMoreRow(fields, rows, k, types, delim, casts);
      var o := ReadRow(fields, rows[k], types, delim, casts);
      objs := objs + [o];
    }
    assert rows[..|rows|] == rows;
  }

  // from_toon.  An empty delimiter makes split raise: on the header unless it is
  // empty, and on any second line.
  method FromToon(text: string, delim: string, casts: Casts) returns (r: Result<seq<TypedObject>, string>)
    ensures delim != "" ==> r == Ok(Read(text, delim, casts))
    ensures delim == "" ==>
      (r.Err? <==> SplitLines(text) != [] && (SplitLines(text)[0] != "" || |SplitLines(text)| > 1))
    ensures r.Err? ==> r.error == "empty separator"
  {
    var lines := SplitLines(text);
    if |lines| == 0 {
      return Ok([]);
    }
    if delim == "" && (lines[0] != "" || |lines| > 1) {
      return Err("empty separator");
    }
    var fields := if lines[0] == "" then [] else SplitOn(lines[0], delim);
    var types: Option<seq<string>> := None;
    var rows := lines[1..];
    if |lines| > 1 && SchemaLike(lines[1], delim) {
      types := Some(SplitOn(lines[1], delim));
      rows := lines[2..];
    }
    var objs := ReadRows(fields, rows, types, delim, casts);
    return Ok(objs);
  }

  // ------------------------------------------------------------------
  // chunk_toon

  // k * size, added up.
  function Times(k: nat, size: int): nat
    requires size > 0
  {
    if k == 0 then 0 else Times(k - 1, size) + size
  }

  lemma {:induction false} TimesIsProduct(k: nat, size: int)
    requires size > 0
    ensures Times(k, size) == k * size
  {
    if k > 0 {
      TimesIsProduct(k - 1, size);
      assert k * size == (k - 1) * size + size;
    }
  }

  // How many chunks n objects make.
  function ChunkCount(n: nat, size: int): nat
    requires size > 0
  {
    if n == 0 then 0 else 1 + ChunkCount(if n > size then n - size else 0, size)
  }

  datatype Chunk = Chunk(index: int, total: int, start: int, end: int, toon: string)

  function ChunkOf(objects: seq<Object>, size: int, fields: seq<string>, schema: Option<seq<string>>, delim: string,
      i: int): Chunk
    requires size > 0 && 0 <= i && Times(i, size) < |objects|
  {
    var start := Times(i, size);
    var end := if start + size < |objects| then start + size else |objects|;
    Chunk(i, ChunkCount(|objects|, size), start, end,
      Write(objects[start..end], fields, if i == 0 then schema else None, delim))
  }

  ghost predicate ChunkAt(objects: seq<Object>, size: int, fields: seq<string>, schema: Option<seq<string>>,
      delim: string, chunks: seq<Chunk>, k: int)
    requires size > 0 && 0 <= k < |chunks|
  {
    Times(k, size) < |objects| && chunks[k] == ChunkOf(objects, size, fields, schema, delim, k)
  }

  // The chunks tile the objects in order: one for every start below the length, so
  // as many as the length divided by the size, rounded up, and none is empty.
  ghost predicate Tiles(objects: seq<Object>, size: int, fields: seq<string>, schema: Option<seq<string>>,
      delim: string, chunks: seq<Chunk>)
    requires size > 0
  {
    && |chunks| == ChunkCount(|objects|, size)
    && forall k {:trigger ChunkAt(objects, size, fields, schema, delim, chunks, k)} ::
      0 <= k < |chunks| ==> ChunkAt(objects, size, fields, schema, delim, chunks, k)
  }

  lemma {:induction false} OneMoreChunk(objects: seq<Object>, size: int, fields: seq<string>,
      schema: Option<seq<string>>, delim: string, chunks: seq<Chunk>, c: Chunk)
    requires size > 0 && Times(|chunks|, size) < |objects|
    requires c == ChunkOf(objects, size, fields, schema, delim, |chunks|)
    requires forall k {:trigger ChunkAt(objects, size, fields, schema, delim, chunks, k)} :: 0 <= k < |chunks| ==>
      ChunkAt(objects, size, fields, schema, delim, chunks, k)
    ensures forall k {:trigger ChunkAt(objects, size, fields, schema, delim, chunks + [c], k)} :: 0 <= k <= |chunks| ==>
      ChunkAt(objects, size, fields, schema, delim, chunks + [c], k)
  {
    forall k | 0 <= k <= |chunks|
      ensures ChunkAt(objects, size, fields, schema, delim, chunks + [c], k)
    {
      assert k < |chunks| ==> ChunkAt(objects, size, fields, schema, delim, chunks, k);
    }
  }

  // For a given field list; the schema line goes into the first chunk only.
  method ChunkToon(objects: seq<Object>, size: int, fields: seq<string>, schema: Option<seq<string>>, delim: string)
      returns (r: Result<seq<Chunk>, string>)
    ensures r.Err? <==> size <= 0
    ensures r.Err? ==> r.error == "chunk_size must be > 0"
    ensures r.Ok? ==> Tiles(objects, size, fields, schema, delim, r.value)
    ensures r.Ok? ==> |r.value| == (|objects| + size - 1) / size
  {
    if size <= 0 {
      return Err("chunk_size must be > 0");
    }
    var total := (|objects| + size - 1) / size;
    var chunks: seq<Chunk> := [];
    CountChunks(|objects|, size);
    for i := 0 to total
      invariant |chunks| == i
      invariant forall k {:trigger ChunkAt(objects, size, fields, schema, delim, chunks, k)} :: 0 <= k < i ==>
        ChunkAt(objects, size, fields, schema, delim, chunks, k)
    {
      ChunkStarts(|objects|, size, i);
      TimesIsProduct(i, size);
      var start := i * size;
      var end := if start + size < |objects| then start + size else |objects|;
      var toonText := ToToon(objects[start..end], fields, if i == 0 then schema else None, delim);
      var chunk := Chunk(i, total, start, end, toonText);
      OneMoreChunk(objects, size, fields, schema, delim, chunks, chunk);
      chunks := chunks + [chunk];
    }
    return Ok(chunks);
  }

  // The count is the length divided by the size, rounded up.
  lemma {:induction false} CountChunks(n: nat, size: int)
    requires size > 0
    ensures ChunkCount(n, size) == (n + size - 1) / size
  {
    if n > size {
      CountChunks(n - size, size);
      var q := (n - size + size - 1) / size;
      assert q * size <= n - 1 < q * size + size;
      assert (q + 1) * size == q * size + size;
      QuotientIs(n + size - 1, size, q + 1);
    } else {
      QuotientIs(n + size - 1, size, if n > 0 then 1 else 0);
    }
  }

  lemma {:induction false} QuotientIs(a: nat, b: nat, q: nat)
    requires b > 0 && q * b <= a < q * b + b
    ensures a / b == q
  {
    var k := a / b;
    assert k * b <= a < k * b + b;
    if k < q {
      OneMoreTime(k, q, b);
    } else if k > q {
      OneMoreTime(q, k, b);
    }
  }

  lemma {:induction false} OneMoreTime(i: nat, j: nat, size: int)
    requires size > 0 && i < j
    ensures i * size + size <= j * size
  {
    TimesIsProduct(i, size);
    TimesIsProduct(j, size);
    TimesGrows(i + 1, j, size);
  }

  // Every chunk but the last is full, and the last is not empty.
  lemma {:induction false} CountTimes(n: nat, size: int)
    requires size > 0
    ensures n <= Times(ChunkCount(n, size), size)
    ensures n > 0 ==> ChunkCount(n, size) > 0 && Times(ChunkCount(n, size) - 1, size) < n
  {
    if n > size {
      CountTimes(n - size, size);
    }
  }

  lemma {:induction false} TimesGrows(i: nat, j: nat, size: int)
    requires size > 0 && i <= j
    ensures Times(i, size) <= Times(j, size)
  {
    if i < j {
      TimesGrows(i, j - 1, size);
    }
  }

  lemma {:induction false} ChunkStarts(n: nat, size: int, i: int)
    requires size > 0 && 0 <= i < ChunkCount(n, size)
    ensures Times(i, size) < n
  {
    CountTimes(n, size);
    TimesGrows(i, ChunkCount(n, size) - 1, size);
  }

  // ------------------------------------------------------------------
  // What reading gives back

  // The text values of an object under the given fields.
  function Projected(obj: Object, fields: seq<string>): TypedObject {
    map f | f in fields :: Text(Get(obj, f))
  }

  function ProjectedAll(objects: seq<Object>, fields: seq<string>): (r: seq<TypedObject>)
    ensures |r| == |objects| && forall i {:trigger r[i]} :: 0 <= i < |objects| ==> r[i] == Projected(objects[i], fields)
  {
    seq(|objects|, i requires 0 <= i < |objects| => Projected(objects[i], fields))
  }

  // Two or more fields whose names, and whose values in the object, fit on a line.
  ghost predicate GoodRow(obj: Object, fields: seq<string>) {
    forall i :: 0 <= i < |fields| ==> GoodValue(Get(obj, fields[i]))
  }

  ghost predicate Suitable(objects: seq<Object>, fields: seq<string>, d: char) {
    && GoodDelimiter(d) && |fields| >= 2
    && (forall f {:trigger GoodName(f, d)} :: f in fields ==> GoodName(f, d))
    && (forall i {:trigger GoodRow(objects[i], fields)} :: 0 <= i < |objects| ==> GoodRow(objects[i], fields))
  }

  lemma {:induction false} ToTypedValue(fields: seq<string>, values: seq<string>, types: Option<seq<string>>,
      casts: Casts, f: string) returns (i: nat)
    requires f in ToTyped(fields, values, types, casts)
    ensures i < |fields| && fields[i] == f
    ensures ToTyped(fields, values, types, casts)[f] ==
      CastValue(if i < |values| then values[i] else "", TypeOf(types, i), casts)
  {
    var n := |fields| - 1;
    if fields[n] == f {
      i := n;
    } else {
      i := ToTypedValue(fields[..n], values, types, casts, f);
    }
  }

  // Types that leave text alone.
  ghost predicate TextOnly(types: Option<seq<string>>) {
    types.Some? ==> forall i :: 0 <= i < |types.value| ==> types.value[i] == "str"
  }

  lemma {:induction false} CastText(s: string, casts: Casts)
    ensures CastValue(s, None, casts) == Text(s) && CastValue(s, Some("str"), casts) == Text(s)
  {
    assert Lower("str") == "str";
  }

  lemma {:induction false} TypedIsProjected(obj: Object, fields: seq<string>, vs: seq<string>,
      types: Option<seq<string>>, casts: Casts)
    requires vs == ValuesOf(obj, fields) && TextOnly(types)
    ensures ToTyped(fields, vs, types, casts) == Projected(obj, fields)
  {
    forall f | f in Elems(fields)
      ensures ToTyped(fields, vs, types, casts)[f] == Text(Get(obj, f))
    {
      var i := ToTypedValue(fields, vs, types, casts, f);
      CastText(vs[i], casts);
    }
    assert Projected(obj, fields).Keys == Elems(fields);
  }

  // An object as it is read back with types for its fields.
  function Typed(obj: Object, fields: seq<string>, types: Option<seq<string>>, casts: Casts): TypedObject {
    ToTyped(fields, ValuesOf(obj, fields), types, casts)
  }

  function TypedAll(objects: seq<Object>, fields: seq<string>, types: Option<seq<string>>, casts: Casts)
      : (r: seq<TypedObject>)
    ensures |r| == |objects|
    ensures forall i {:trigger r[i]} :: 0 <= i < |objects| ==> r[i] == Typed(objects[i], fields, types, casts)
  {
    seq(|objects|, i requires 0 <= i < |objects| => Typed(objects[i], fields, types, casts))
  }

  lemma {:induction false} RowsRead(objects: seq<Object>, fields: seq<string>, d: char, types: Option<seq<string>>,
      casts: Casts)
    requires GoodDelimiter(d) && fields != []
    ensures ReadTyped(fields, Rows(objects, fields, [d]), types, [d], casts) == TypedAll(objects, fields, types, casts)
  {
    forall i | 0 <= i < |objects|
      ensures UnescapeEach(SplitEscaped(Row(objects[i], fields, [d]), [d])) == ValuesOf(objects[i], fields)
    {
      RowRoundTrip(ValuesOf(objects[i], fields), d);
    }
  }

  lemma {:induction false} TextStaysText(objects: seq<Object>, fields: seq<string>, types: Option<seq<string>>,
      casts: Casts)
    requires TextOnly(types)
    ensures TypedAll(objects, fields, types, casts) == ProjectedAll(objects, fields)
  {
    forall i | 0 <= i < |objects|
      ensures Typed(objects[i], fields, types, casts) == Projected(objects[i], fields)
    {
      TypedIsProjected(objects[i], fields, ValuesOf(objects[i], fields), types, casts);
    }
  }

  lemma {:induction false} LowerStr()
    ensures Lower("str") == "str"
  {
  }

  function WriteLines(objects: seq<Object>, fields: seq<string>, schema: Option<seq<string>>, d: char): seq<string> {
    [Join([d], fields)] + SchemaLines(schema, d) + Rows(objects, fields, [d])
  }

  // The lines that the schema line makes; a type with a line boundary makes several.
  function SchemaLines(schema: Option<seq<string>>, d: char): (ls: seq<string>)
    ensures ls != [] <==> schema.Some?
  {
    if schema.None? then []
    else
      SomeLines(Join([d], schema.value) + "\n");
      SplitLines(Join([d], schema.value) + "\n")
  }

  lemma {:induction false} RowsBreakFree(objects: seq<Object>, fields: seq<string>, d: char)
    requires Suitable(objects, fields, d)
    ensures AllBreakFree(Rows(objects, fields, [d])) && BreakFree(Join([d], fields))
  {
    forall k | 0 <= k < |objects|
      ensures BreakFree(Row(objects[k], fields, [d]))
    {
      assert GoodRow(objects[k], fields);
      RowBreakFree(objects[k], fields, d);
    }
    HeaderBreakFree(fields, d);
  }

  lemma {:induction false} WrittenLines(objects: seq<Object>, fields: seq<string>, schema: Option<seq<string>>, d: char)
    requires Suitable(objects, fields, d) && objects != []
    ensures SplitLines(Write(objects, fields, schema, [d])) == WriteLines(objects, fields, schema, d)
  {
    var rows := Rows(objects, fields, [d]);
    GoodRows(objects, fields, d);
    if schema.Some? {
      BlockLines(Join([d], fields), Join([d], schema.value), rows);
    } else {
      PlainLines(Join([d], fields), rows);
      HeadOnly(Join([d], fields), rows);
    }
  }

  lemma {:induction false} HeadOnly<T>(head: T, rows: seq<T>)
    ensures [head] + [] + rows == [head] + rows
  {
  }

  lemma {:induction false} GoodRows(objects: seq<Object>, fields: seq<string>, d: char)
    requires Suitable(objects, fields, d) && objects != []
    ensures var rows := Rows(objects, fields, [d]);
      BreakFree(Join([d], fields)) && AllBreakFree(rows) && rows != [] && rows[|rows| - 1] != ""
  {
    RowsBreakFree(objects, fields, d);
    EmptyRow(objects[|objects| - 1], fields, d);
  }

  lemma {:induction false} PlainLines(header: string, rows: seq<string>)
    requires BreakFree(header) && AllBreakFree(rows) && rows != [] && rows[|rows| - 1] != ""
    ensures SplitLines(Join("\n", [header] + rows)) == [header] + rows
  {
    SplitLinesJoin(rows);
    SplitLinesCons(header, Join("\n", rows));
    assert ([header] + rows)[1..] == rows;
  }

  lemma {:induction false} BlockLines(header: string, line: string, rows: seq<string>)
    requires BreakFree(header) && AllBreakFree(rows) && rows != [] && rows[|rows| - 1] != ""
    ensures SplitLines(Join("\n", [header] + [line] + rows)) == [header] + SplitLines(line + "\n") + rows
  {
    JoinThree(header, line, rows);
    SplitLinesJoin(rows);
    SplitLinesCons(header, line + "\n" + Join("\n", rows));
    SplitLinesBlock(line, Join("\n", rows));
    assert [header] + (SplitLines(line + "\n") + rows) == [header] + SplitLines(line + "\n") + rows;
  }

  lemma {:induction false} JoinThree(header: string, line: string, rows: seq<string>)
    requires rows != []
    ensures Join("\n", [header] + [line] + rows) == header + "\n" + (line + "\n" + Join("\n", rows))
  {
    var lines := [header] + [line] + rows;
    assert lines[1..] == [line] + rows && lines[1..][1..] == rows;
  }

  lemma {:induction false} HeaderReads(fields: seq<string>, d: char)
    requires |fields| >= 2 && forall f {:trigger GoodName(f, d)} :: f in fields ==> GoodName(f, d)
    ensures HeaderFields(Join([d], fields), [d]) == fields
  {
    forall i | 0 <= i < |fields|
      ensures d !in fields[i]
    {
      assert GoodName(fields[i], d);
    }
    HeaderComesBack(fields, d);
  }

  // Types that a schema line can carry: type words without the delimiter.
  predicate IsSchema(types: seq<string>, d: char) {
    types != [] && forall i {:trigger types[i]} :: 0 <= i < |types| ==> IsTypeWord(types[i]) && d !in types[i]
  }

  lemma {:induction false} SchemaReads(types: seq<string>, d: char)
    requires GoodDelimiter(d) && IsSchema(types, d)
    ensures BreakFree(Join([d], types)) && SplitOn(Join([d], types), [d]) == types && SchemaLike(Join([d], types), [d])
  {
    forall i | 0 <= i < |types|
      ensures BreakFree(types[i])
    {
      forall c | c in types[i]
        ensures !IsBreak(c)
      {
        TypeWordPlain(types[i], d, c);
      }
    }
    JoinBreakFree(types, d);
    SplitOnJoin(types, d);
  }

  // A schema line is one line when no type holds a line boundary.
  lemma {:induction false} OneSchemaLine(types: seq<string>, d: char)
    requires BreakFree(Join([d], types))
    ensures SchemaLines(Some(types), d) == [Join([d], types)]
  {
    SplitLinesCons(Join([d], types), "");
    assert Join([d], types) + "\n" + "" == Join([d], types) + "\n";
  }

  // The types the parser ends up with: those of the line after the header when it is
  // made of type words, be it the schema line or the first row.
  function FirstTypes(objects: seq<Object>, fields: seq<string>, schema: Option<seq<string>>, d: char)
      : Option<seq<string>>
  {
    var ls := SchemaLines(schema, d);
    if ls != [] then if SchemaLike(ls[0], [d]) then Some(SplitOn(ls[0], [d])) else None
    else if objects != [] && SchemaLike(Row(objects[0], fields, [d]), [d]) then Some(ValuesOf(objects[0], fields))
    else None
  }

  // The schema's lines that are not taken for types, and so read as rows.
  function Stray(schema: Option<seq<string>>, d: char): seq<string> {
    var ls := SchemaLines(schema, d);
    if ls != [] && SchemaLike(ls[0], [d]) then ls[1..] else ls
  }

  // A first row that is taken for types is lost.
  function Lost(objects: seq<Object>, fields: seq<string>, schema: Option<seq<string>>, d: char): (n: nat)
    ensures n <= |objects| && n <= 1
  {
    if schema.None? && objects != [] && SchemaLike(Row(objects[0], fields, [d]), [d]) then 1 else 0
  }

  // What the first n objects read as: what is left of the schema, and then the objects
  // with the types the parser ends up with.
  function Reading(objects: seq<Object>, fields: seq<string>, schema: Option<seq<string>>, d: char, casts: Casts,
      n: nat): seq<TypedObject>
    requires n <= |objects|
  {
    if n == 0 then []
    else
      var types := FirstTypes(objects, fields, schema, d);
      ReadTyped(fields, Stray(schema, d), types, [d], casts)
      + TypedAll(objects[Lost(objects, fields, schema, d)..n], fields, types, casts)
  }

  // What every text reads as.
  lemma {:induction false} WrittenReads(objects: seq<Object>, fields: seq<string>, schema: Option<seq<string>>, d: char,
      casts: Casts)
    requires Suitable(objects, fields, d)
    ensures Read(Write(objects, fields, schema, [d]), [d], casts)
         == Reading(objects, fields, schema, d, casts, |objects|)
  {
    if objects != [] {
      WrittenLines(objects, fields, schema, d);
      HeaderReads(fields, d);
      HeadAndRest(Join([d], fields), SchemaLines(schema, d), Rows(objects, fields, [d]));
      LinesRead(objects, fields, schema, d, casts);
    }
  }

  // What is read from the lines after the header.
  function ReadLines(fields: seq<string>, lines: seq<string>, d: char, casts: Casts): seq<TypedObject> {
    if lines != [] && SchemaLike(lines[0], [d]) then
      ReadTyped(fields, lines[1..], Some(SplitOn(lines[0], [d])), [d], casts)
    else ReadTyped(fields, lines, None, [d], casts)
  }

  lemma {:induction false} LinesRead(objects: seq<Object>, fields: seq<string>, schema: Option<seq<string>>, d: char,
      casts: Casts)
    requires GoodDelimiter(d) && fields != [] && objects != []
    ensures ReadLines(fields, SchemaLines(schema, d) + Rows(objects, fields, [d]), d, casts)
         == Reading(objects, fields, schema, d, casts, |objects|)
  {
    if schema.Some? {
      SchemaLinesRead(objects, fields, schema, d, casts);
    } else {
      assert [] + Rows(objects, fields, [d]) == Rows(objects, fields, [d]);
      PlainLinesRead(objects, fields, d, casts);
    }
  }

  lemma {:induction false} SchemaLinesRead(objects: seq<Object>, fields: seq<string>, schema: Option<seq<string>>,
      d: char, casts: Casts)
    requires GoodDelimiter(d) && fields != [] && objects != [] && schema.Some?
    ensures ReadLines(fields, SchemaLines(schema, d) + Rows(objects, fields, [d]), d, casts)
         == Reading(objects, fields, schema, d, casts, |objects|)
  {
    assert objects[0..|objects|] == objects;
    BlockRead(fields, SchemaLines(schema, d), Rows(objects, fields, [d]), d, casts);
    RowsRead(objects, fields, d, FirstTypes(objects, fields, schema, d), casts);
  }

  lemma {:induction false} BlockRead(fields: seq<string>, block: seq<string>, rows: seq<string>, d: char, casts: Casts)
    requires block != []
    ensures ReadLines(fields, block + rows, d, casts) ==
      if SchemaLike(block[0], [d]) then
        ReadTyped(fields, block[1..], Some(SplitOn(block[0], [d])), [d], casts)
        + ReadTyped(fields, rows, Some(SplitOn(block[0], [d])), [d], casts)
      else ReadTyped(fields, block, None, [d], casts) + ReadTyped(fields, rows, None, [d], casts)
  {
    assert (block + rows)[0] == block[0] && (block + rows)[1..] == block[1..] + rows;
    ReadTypedJoin(fields, block[1..], rows, Some(SplitOn(block[0], [d])), [d], casts);
    ReadTypedJoin(fields, block, rows, None, [d], casts);
  }

  lemma {:induction false} PlainLinesRead(objects: seq<Object>, fields: seq<string>, d: char, casts: Casts)
    requires GoodDelimiter(d) && fields != [] && objects != []
    ensures ReadLines(fields, Rows(objects, fields, [d]), d, casts)
      == TypedAll(objects[Lost(objects, fields, None, d)..|objects|], fields, FirstTypes(objects, fields, None, d),
           casts)
  {
    assert objects[0..|objects|] == objects && objects[1..|objects|] == objects[1..];
    var rows := Rows(objects, fields, [d]);
    BadRowExactly(objects[0], fields, d);
    if SchemaLike(rows[0], [d]) {
      RowsRead(objects[1..], fields, d, FirstTypes(objects, fields, None, d), casts);
      assert Rows(objects[1..], fields, [d]) == rows[1..];
    } else {
      RowsRead(objects, fields, d, None, casts);
    }
  }

  lemma {:induction false} ReadTypedJoin(fields: seq<string>, a: seq<string>, b: seq<string>,
      types: Option<seq<string>>, delim: string, casts: Casts)
    ensures ReadTyped(fields, a + b, types, delim, casts)
         == ReadTyped(fields, a, types, delim, casts) + ReadTyped(fields, b, types, delim, casts)
  {
  }

  lemma {:induction false} HeadAndRest<T>(head: T, a: seq<T>, b: seq<T>)
    ensures var all := [head] + a + b;
      all[0] == head && all[1..] == a + b && (a + b != [] ==> all[1] == (a + b)[0] && all[2..] == (a + b)[1..])
  {
    var all := [head] + a + b;
    assert all == [head] + (a + b);
  }

  // A schema of one line is taken for types exactly when every type is made of type
  // words between delimiters.
  lemma {:induction false} SchemaTakenExactly(objects: seq<Object>, fields: seq<string>, types: seq<string>, d: char)
    requires BreakFree(Join([d], types))
    ensures FirstTypes(objects, fields, Some(types), d).Some? <==>
      types != [] && forall i {:trigger types[i]} :: 0 <= i < |types| ==> SchemaLike(types[i], [d])
  {
    OneSchemaLine(types, d);
    LineOfTypes(types, d);
  }

  lemma {:induction false} LineOfTypes(types: seq<string>, d: char)
    ensures SchemaLike(Join([d], types), [d]) <==>
      types != [] && forall i {:trigger types[i]} :: 0 <= i < |types| ==> SchemaLike(types[i], [d])
  {
    if |types| == 0 {
      assert "" in SplitOn("", [d]) && Lower("") == "";
    } else if |types| > 1 {
      LineOfTypes(types[1..], d);
      SplitOnBlock(types[0], d, Join([d], types[1..]));
      assert types == [types[0]] + types[1..];
      var a, b := SplitOn(types[0], [d]), SplitOn(Join([d], types[1..]), [d]);
      assert (forall p :: p in a + b ==> IsTypeWord(p)) <==>
        (forall p :: p in a ==> IsTypeWord(p)) && (forall p :: p in b ==> IsTypeWord(p)) by {
        if forall p :: p in a + b ==> IsTypeWord(p) {
          forall p | p in a || p in b
            ensures IsTypeWord(p)
          {
            assert p in a + b;
          }
        }
      }
    }
  }

  // It gives the types it was written for, and nothing else, exactly when they are
  // type words without the delimiter.
  lemma {:induction false} SchemaGivesTypesExactly(objects: seq<Object>, fields: seq<string>, types: seq<string>,
      d: char)
    requires GoodDelimiter(d)
    ensures FirstTypes(objects, fields, Some(types), d) == Some(types) && Stray(Some(types), d) == [] <==>
      IsSchema(types, d)
  {
    if IsSchema(types, d) {
      SchemaReads(types, d);
      OneSchemaLine(types, d);
    } else if FirstTypes(objects, fields, Some(types), d) == Some(types) {
      var line := SchemaLines(Some(types), d)[0];
      var i :| 0 <= i < |types| && !(IsTypeWord(types[i]) && d !in types[i]);
      SplitOnChars(line, d, d);
    }
  }

  // What a written value v of type t reads as.
  ghost predicate ReadsAs(v: string, t: string, casts: Casts, r: Value) {
    var word := Lower(t);
    && (v == "" && t != "str" ==> r == NoneValue)
    && (word in {"str", "string"} && (v != "" || t == "str") ==> r == Text(v))
    && (word in {"int", "integer"} && v != "" ==>
      r == match casts.toInt(v) case Some(x) => x case None => Text(v))
    && (word in {"float", "double", "number"} && v != "" ==>
      r == match casts.toFloat(v) case Some(x) => x case None => Text(v))
    && (word in {"bool", "boolean"} && v != "" ==> r == BoolValue(Lower(v) !in {"false", "0", "no", "n"}))
  }

  // With a schema line of type words, every value comes back as its type says, or as
  // text when there are fewer types than fields.
  lemma {:induction false} TypedReads(objects: seq<Object>, fields: seq<string>, types: seq<string>, d: char,
      casts: Casts, i: nat, j: nat)
    requires Suitable(objects, fields, d) && IsSchema(types, d) && NoDup(fields) && i < |objects| && j < |fields|
    ensures var r := Read(Write(objects, fields, Some(types), [d]), [d], casts);
      && |r| == |objects| && fields[j] in r[i]
      && if j < |types| then ReadsAs(Get(objects[i], fields[j]), types[j], casts, r[i][fields[j]])
         else r[i][fields[j]] == Text(Get(objects[i], fields[j]))
  {
    SchemaTypes(objects, fields, types, d, casts);
    TypedField(objects[i], fields, types, casts, j);
  }

  lemma {:induction false} SchemaTypes(objects: seq<Object>, fields: seq<string>, types: seq<string>, d: char,
      casts: Casts)
    requires Suitable(objects, fields, d) && IsSchema(types, d)
    ensures Read(Write(objects, fields, Some(types), [d]), [d], casts) == TypedAll(objects, fields, Some(types), casts)
  {
    WrittenReads(objects, fields, Some(types), d, casts);
    SchemaGivesTypesExactly(objects, fields, types, d);
    assert objects[0..|objects|] == objects;
  }

  lemma {:induction false} TypedField(obj: Object, fields: seq<string>, types: seq<string>, casts: Casts, j: nat)
    requires NoDup(fields) && j < |fields|
    ensures var r := Typed(obj, fields, Some(types), casts);
      && fields[j] in r
      && if j < |types| then ReadsAs(Get(obj, fields[j]), types[j], casts, r[fields[j]])
         else r[fields[j]] == Text(Get(obj, fields[j]))
  {
    var vs := ValuesOf(obj, fields);
    assert fields[j] in Elems(fields);
    var k := ToTypedValue(fields, vs, Some(types), casts, fields[j]);
    NoDupSame(fields, j, k);
    if j < |types| {
      CastReads(vs[j], types[j], casts);
    }
  }

  lemma {:induction false} NoDupSame<T>(s: seq<T>, j: nat, k: nat)
    requires NoDup(s) && j < |s| && k < |s| && s[j] == s[k]
    ensures j == k
  {
    if j < k {
      NoDupAt(s, j, k);
    } else if k < j {
      NoDupAt(s, k, j);
    }
  }

  lemma {:induction false} CastReads(v: string, t: string, casts: Casts)
    ensures ReadsAs(v, t, casts, CastValue(v, Some(t), casts))
  {
    assert Lower("str") == "str";
  }

  // The words that the parser takes for types.
  lemma {:induction false} TypeWords(s: string)
    ensures IsTypeWord(s) <==>
      Lower(s) in {"int", "integer", "float", "double", "number", "str", "string", "bool", "boolean"}
  {
  }

  // Without a schema line, a first row made only of type words is taken for one: it is
  // lost, and the other objects are read with its words as types.  Otherwise every
  // object comes back with its text values.
  lemma {:induction false} PlainReads(objects: seq<Object>, fields: seq<string>, d: char, casts: Casts)
    requires Suitable(objects, fields, d) && objects != []
    ensures Read(Write(objects, fields, None, [d]), [d], casts) ==
      if SchemaLike(Row(objects[0], fields, [d]), [d]) then
        TypedAll(objects[1..], fields, Some(ValuesOf(objects[0], fields)), casts)
      else ProjectedAll(objects, fields)
  {
    WrittenReads(objects, fields, None, d, casts);
    assert objects[0..|objects|] == objects && objects[1..|objects|] == objects[1..] && Stray(None, d) == [];
    TextStaysText(objects, fields, None, casts);
  }

  // A schema line of "str" for every field protects whatever the rows hold, exactly
  // when the delimiter does not occur in the type word.
  lemma {:induction false} SchemaProtects(objects: seq<Object>, fields: seq<string>, d: char, types: seq<string>,
      casts: Casts)
    requires Suitable(objects, fields, d) && objects != []
    requires |types| == |fields| && forall i :: 0 <= i < |types| ==> types[i] == "str"
    ensures Read(Write(objects, fields, Some(types), [d]), [d], casts) == ProjectedAll(objects, fields) <==> d !in "str"
  {
    LowerStr();
    if d !in "str" {
      WrittenReads(objects, fields, Some(types), d, casts);
      SchemaGivesTypesExactly(objects, fields, types, d);
      assert objects[0..|objects|] == objects;
      TextStaysText(objects, fields, Some(types), casts);
    } else {
      SchemaUnread(objects, fields, d, types, casts);
    }
  }

  // Otherwise the schema line is read as one more object.
  lemma {:induction false} SchemaUnread(objects: seq<Object>, fields: seq<string>, d: char, types: seq<string>,
      casts: Casts)
    requires Suitable(objects, fields, d) && objects != [] && d in "str"
    requires |types| == |fields| && forall i :: 0 <= i < |types| ==> types[i] == "str"
    ensures |Read(Write(objects, fields, Some(types), [d]), [d], casts)| == |objects| + 1
  {
    StrLine(types, d);
    OneSchemaLine(types, d);
    WrittenReads(objects, fields, Some(types), d, casts);
  }

  lemma {:induction false} StrLine(types: seq<string>, d: char)
    requires |types| > 1 && (forall i :: 0 <= i < |types| ==> types[i] == "str") && d in "str"
    ensures BreakFree(Join([d], types)) && !SchemaLike(Join([d], types), [d])
  {
    JoinBreakFree(types, d);
    var line := Join([d], types);
    assert line == "str" + ([d] + Join([d], types[1..]));
    CutWord(line, d);
    assert SplitOn(line, [d])[0] in SplitOn(line, [d]);
  }

  // The first part is cut short inside the word.
  lemma {:induction false} CutWord(line: string, d: char)
    requires "str" <= line && d in "str"
    ensures !IsTypeWord(SplitOn(line, [d])[0])
  {
    var one, two := line[1..], line[1..][1..];
    assert line[0] == 's' && one[0] == 't' && two[0] == 'r';
    assert line[..1] == ['s'] && one[..1] == ['t'] && two[..1] == ['r'];
    var part := SplitOn(line, [d])[0];
    if d == 's' {
      assert part == "";
    } else if d == 't' {
      assert SplitOn(one, [d])[0] == "" && part == "s" + "";
    } else {
      assert SplitOn(two, [d])[0] == "" && SplitOn(one, [d])[0] == "t" + "" && part == "s" + ("t" + "");
    }
    assert |part| < 3;
    assert |Lower(part)| < 3;
  }

  // ------------------------------------------------------------------
  // Chunking is transparent

  // What reading the first k chunks one after the other gives.
  function ReadChunks(chunks: seq<Chunk>, delim: string, casts: Casts, k: nat): seq<TypedObject>
    requires delim != "" && k <= |chunks|
  {
    if k == 0 then [] else ReadChunks(chunks, delim, casts, k - 1) + Read(chunks[k - 1].toon, delim, casts)
  }

  // A chunk starts with a row that would be taken for a schema line.
  ghost predicate BadStart(objects: seq<Object>, fields: seq<string>, d: char, start: int)
    requires 0 <= start < |objects|
  {
    SchemaLike(Row(objects[start], fields, [d]), [d])
  }

  // Chunk j starts with such a row.
  ghost predicate BadChunk(objects: seq<Object>, size: int, fields: seq<string>, d: char, j: nat)
    requires size > 0
  {
    Times(j, size) < |objects| && BadStart(objects, fields, d, Times(j, size))
  }

  // How many objects the first k chunks cover.
  function Covered(n: nat, size: int, k: nat): (c: nat)
    requires size > 0
    ensures c <= n
  {
    if Times(k, size) < n then Times(k, size) else n
  }

  // Chunk k holds the objects from where the chunks before it end.
  lemma {:induction false} ChunkHolds(objects: seq<Object>, size: int, fields: seq<string>, schema: Option<seq<string>>,
      d: char, chunks: seq<Chunk>, k: nat)
    requires size > 0 && Tiles(objects, size, fields, schema, [d], chunks) && k < |chunks|
    ensures var (from, to) := (Covered(|objects|, size, k), Covered(|objects|, size, k + 1));
      from < to && chunks[k].toon == Write(objects[from..to], fields, if k == 0 then schema else None, [d])
    ensures Times(k, size) == Covered(|objects|, size, k) < |objects| && (k == 0 ==> Times(k, size) == 0)
  {
    assert ChunkAt(objects, size, fields, schema, [d], chunks, k);
  }

  lemma {:induction false} PartSuitable(objects: seq<Object>, fields: seq<string>, d: char, from: nat, to: nat)
    requires Suitable(objects, fields, d) && from <= to <= |objects|
    ensures Suitable(objects[from..to], fields, d)
  {
    forall i | 0 <= i < to - from
      ensures GoodRow(objects[from..to][i], fields)
    {
      assert GoodRow(objects[from + i], fields);
    }
  }

  // Reading objects a to b gave their text values, or fewer objects.
  ghost predicate PartRead(objects: seq<Object>, fields: seq<string>, a: nat, b: nat, r: seq<TypedObject>, clean: bool)
    requires a <= b <= |objects|
  {
    if clean then r == ProjectedAll(objects[a..b], fields) else |r| < b - a
  }

  lemma {:induction false} LaterChunkReads(objects: seq<Object>, size: int, fields: seq<string>,
      schema: Option<seq<string>>, d: char, casts: Casts, chunks: seq<Chunk>, k: nat)
    requires size > 0 && Tiles(objects, size, fields, schema, [d], chunks) && Suitable(objects, fields, d)
    requires 0 < k < |chunks|
    ensures var (from, to) := (Covered(|objects|, size, k), Covered(|objects|, size, k + 1));
      from < to
      && PartRead(objects, fields, from, to, Read(chunks[k].toon, [d], casts), !BadChunk(objects, size, fields, d, k))
  {
    ChunkHolds(objects, size, fields, schema, d, chunks, k);
    var from, to := Covered(|objects|, size, k), Covered(|objects|, size, k + 1);
    PartSuitable(objects, fields, d, from, to);
    PlainReads(objects[from..to], fields, d, casts);
  }

  // What the first chunk reads as, with the types T that the parser ends up with.
  lemma {:induction false} FirstChunkReads(objects: seq<Object>, size: int, fields: seq<string>,
      schema: Option<seq<string>>, d: char, casts: Casts, chunks: seq<Chunk>)
    requires size > 0 && Tiles(objects, size, fields, schema, [d], chunks) && Suitable(objects, fields, d)
    requires objects != []
    ensures |chunks| > 0
    ensures Read(chunks[0].toon, [d], casts) == Reading(objects, fields, schema, d, casts, Covered(|objects|, size, 1))
  {
    FirstChunkHolds(objects, size, fields, schema, d, chunks);
    FrontReads(objects, fields, schema, d, casts, Covered(|objects|, size, 1));
  }

  lemma {:induction false} FirstChunkHolds(objects: seq<Object>, size: int, fields: seq<string>,
      schema: Option<seq<string>>, d: char, chunks: seq<Chunk>)
    requires size > 0 && Tiles(objects, size, fields, schema, [d], chunks) && objects != []
    ensures |chunks| > 0 && 0 < Covered(|objects|, size, 1)
    ensures chunks[0].toon == Write(objects[0..Covered(|objects|, size, 1)], fields, schema, [d])
  {
    ChunkHolds(objects, size, fields, schema, d, chunks, 0);
  }

  lemma {:induction false} FrontReads(objects: seq<Object>, fields: seq<string>, schema: Option<seq<string>>, d: char,
      casts: Casts, to: nat)
    requires Suitable(objects, fields, d) && 0 < to <= |objects|
    ensures Read(Write(objects[0..to], fields, schema, [d]), [d], casts)
         == Reading(objects, fields, schema, d, casts, to)
  {
    PartSuitable(objects, fields, d, 0, to);
    WrittenReads(objects[0..to], fields, schema, d, casts);
    SameStart(objects, fields, schema, d, casts, to);
  }

  // The first part of the objects decides what the first row is taken for.
  lemma {:induction false} SameStart(objects: seq<Object>, fields: seq<string>, schema: Option<seq<string>>, d: char,
      casts: Casts, to: nat)
    requires 0 < to <= |objects|
    ensures Reading(objects[0..to], fields, schema, d, casts, to) == Reading(objects, fields, schema, d, casts, to)
  {
    var lost := Lost(objects, fields, schema, d);
    assert objects[0..to][lost..to] == objects[lost..to];
  }

  // The chunks from the second up to the k-th do not start badly.
  ghost predicate Clean(objects: seq<Object>, size: int, fields: seq<string>, d: char, k: nat)
    requires size > 0
  {
    forall j: nat {:trigger BadChunk(objects, size, fields, d, j)} ::
      0 < j < k ==> !BadChunk(objects, size, fields, d, j)
  }

  lemma {:induction false} CleanStep(objects: seq<Object>, size: int, fields: seq<string>, d: char, k: nat)
    requires size > 0 && k > 0
    ensures Clean(objects, size, fields, d, k + 1) <==>
      Clean(objects, size, fields, d, k) && !BadChunk(objects, size, fields, d, k)
  {
    assert !BadChunk(objects, size, fields, d, k) || BadChunk(objects, size, fields, d, k);
  }

  // One more part read: exact when both were.
  lemma {:induction false} PartsRead(objects: seq<Object>, fields: seq<string>, a: nat, b: nat, c: nat,
      r: seq<TypedObject>, part: seq<TypedObject>, cleanBefore: bool, cleanPart: bool)
    requires a <= b < c <= |objects|
    requires PartRead(objects, fields, a, b, r, cleanBefore) && PartRead(objects, fields, b, c, part, cleanPart)
    ensures PartRead(objects, fields, a, c, r + part, cleanBefore && cleanPart)
  {
    if cleanBefore && cleanPart {
      assert objects[a..c] == objects[a..b] + objects[b..c];
    }
  }

  // What reading the chunks up to the k-th gives after the first.
  function Later(chunks: seq<Chunk>, delim: string, casts: Casts, k: nat): seq<TypedObject>
    requires delim != "" && 0 < k <= |chunks|
  {
    if k == 1 then [] else Later(chunks, delim, casts, k - 1) + Read(chunks[k - 1].toon, delim, casts)
  }

  lemma {:induction false} FirstAndLater(chunks: seq<Chunk>, delim: string, casts: Casts, k: nat)
    requires delim != "" && 0 < k <= |chunks|
    ensures ReadChunks(chunks, delim, casts, k) == Read(chunks[0].toon, delim, casts) + Later(chunks, delim, casts, k)
  {
    var first, last := Read(chunks[0].toon, delim, casts), Read(chunks[k - 1].toon, delim, casts);
    if k == 1 {
      assert ReadChunks(chunks, delim, casts, 0) == [] && [] + first == first + [];
    } else {
      FirstAndLater(chunks, delim, casts, k - 1);
      JoinTwice(first, Later(chunks, delim, casts, k - 1), last);
    }
  }

  lemma {:induction false} JoinTwice<T>(a: seq<T>, b: seq<T>, c: seq<T>)
    ensures (a + b) + c == a + (b + c)
  {
  }

  lemma {:induction false} LaterChunksRead(objects: seq<Object>, size: int, fields: seq<string>,
      schema: Option<seq<string>>, d: char, casts: Casts, chunks: seq<Chunk>, k: nat)
    requires size > 0 && Tiles(objects, size, fields, schema, [d], chunks) && Suitable(objects, fields, d)
    requires 0 < k <= |chunks|
    ensures Covered(|objects|, size, 1) <= Covered(|objects|, size, k)
    ensures PartRead(objects, fields, Covered(|objects|, size, 1), Covered(|objects|, size, k),
      Later(chunks, [d], casts, k), Clean(objects, size, fields, d, k))
  {
    if k > 1 {
      LaterChunksRead(objects, size, fields, schema, d, casts, chunks, k - 1);
      LaterChunkReads(objects, size, fields, schema, d, casts, chunks, k - 1);
      CleanStep(objects, size, fields, d, k - 1);
      PartsRead(objects, fields, Covered(|objects|, size, 1), Covered(|objects|, size, k - 1),
        Covered(|objects|, size, k), Later(chunks, [d], casts, k - 1), Read(chunks[k - 1].toon, [d], casts),
        Clean(objects, size, fields, d, k - 1), !BadChunk(objects, size, fields, d, k - 1));
    }
  }

  // The objects from the n-th on read the same with and without the types.
  ghost predicate TypesIdle(objects: seq<Object>, fields: seq<string>, types: Option<seq<string>>, casts: Casts, n: nat)
  {
    forall i {:trigger objects[i]} ::
      n <= i < |objects| ==> Typed(objects[i], fields, types, casts) == Projected(objects[i], fields)
  }

  // Reading the chunks one after the other equals reading the whole text if and only
  // if no chunk but the first starts with a row of type words, and the types that the
  // parser takes from the start of the text make no difference after the first chunk.
  lemma {:induction false} ChunkingIsTransparent(objects: seq<Object>, size: int, fields: seq<string>,
      schema: Option<seq<string>>, d: char, casts: Casts, chunks: seq<Chunk>)
    requires size > 0 && Tiles(objects, size, fields, schema, [d], chunks) && Suitable(objects, fields, d)
    ensures ReadChunks(chunks, [d], casts, |chunks|) == Read(Write(objects, fields, schema, [d]), [d], casts) <==>
      Clean(objects, size, fields, d, |chunks|) &&
      TypesIdle(objects, fields, FirstTypes(objects, fields, schema, d), casts, Covered(|objects|, size, 1))
  {
    if objects == [] {
      return;
    }
    FirstChunkReads(objects, size, fields, schema, d, casts, chunks);
    FirstAndLater(chunks, [d], casts, |chunks|);
    LaterChunksRead(objects, size, fields, schema, d, casts, chunks, |chunks|);
    WrittenReads(objects, fields, schema, d, casts);
    AllCovered(objects, size, fields, schema, d, chunks);
    ReadingsAgree(objects, fields, schema, d, casts, Covered(|objects|, size, 1), Later(chunks, [d], casts, |chunks|),
      Clean(objects, size, fields, d, |chunks|));
  }

  // The reading of the first c objects and what is read later make the whole.
  lemma {:induction false} ReadingsAgree(objects: seq<Object>, fields: seq<string>, schema: Option<seq<string>>,
      d: char, casts: Casts, c: nat, later: seq<TypedObject>, clean: bool)
    requires 0 < c <= |objects| && PartRead(objects, fields, c, |objects|, later, clean)
    ensures (Reading(objects, fields, schema, d, casts, c) + later
         == Reading(objects, fields, schema, d, casts, |objects|)) <==>
      clean && TypesIdle(objects, fields, FirstTypes(objects, fields, schema, d), casts, c)
  {
    var lost, types := Lost(objects, fields, schema, d), FirstTypes(objects, fields, schema, d);
    var part, whole := TypedAll(objects[lost..c], fields, types, casts),
      TypedAll(objects[lost..|objects|], fields, types, casts);
    assert objects[lost..|objects|] == objects[lost..];
    TailsAgree(objects, fields, types, casts, lost, c, part, later, clean);
    SamePrefix(ReadTyped(fields, Stray(schema, d), types, [d], casts), part, later, whole);
  }

  lemma {:induction false} SamePrefix<T>(prefix: seq<T>, a: seq<T>, b: seq<T>, c: seq<T>)
    ensures prefix + a + b == prefix + c <==> a + b == c
  {
    assert prefix + a + b == prefix + (a + b);
    SameTail(prefix, a + b, c);
  }

  lemma {:induction false} AllCovered(objects: seq<Object>, size: int, fields: seq<string>, schema: Option<seq<string>>,
      d: char, chunks: seq<Chunk>)
    requires size > 0 && Tiles(objects, size, fields, schema, [d], chunks)
    ensures Covered(|objects|, size, |chunks|) == |objects|
  {
    CountTimes(|objects|, size);
  }

  lemma {:induction false} TailsAgree(objects: seq<Object>, fields: seq<string>, types: Option<seq<string>>,
      casts: Casts, lost: nat, c: nat, first: seq<TypedObject>, later: seq<TypedObject>, clean: bool)
    requires lost <= c <= |objects| && first == TypedAll(objects[lost..c], fields, types, casts)
    requires PartRead(objects, fields, c, |objects|, later, clean)
    ensures first + later == TypedAll(objects[lost..], fields, types, casts) <==>
      clean && TypesIdle(objects, fields, types, casts, c)
  {
    TypedParts(objects, fields, types, casts, lost, c);
    SameTail(first, later, TypedAll(objects[c..], fields, types, casts));
    RestAgrees(objects, fields, types, casts, c, later, clean);
  }

  lemma {:induction false} SameTail<T>(a: seq<T>, b: seq<T>, c: seq<T>)
    ensures a + b == a + c <==> b == c
  {
    assert (a + b)[|a|..] == b && (a + c)[|a|..] == c;
  }

  lemma {:induction false} TypedParts(objects: seq<Object>, fields: seq<string>, types: Option<seq<string>>,
      casts: Casts, lost: nat, c: nat)
    requires lost <= c <= |objects|
    ensures TypedAll(objects[lost..], fields, types, casts)
         == TypedAll(objects[lost..c], fields, types, casts) + TypedAll(objects[c..], fields, types, casts)
  {
  }

  lemma {:induction false} RestAgrees(objects: seq<Object>, fields: seq<string>, types: Option<seq<string>>,
      casts: Casts, c: nat, later: seq<TypedObject>, clean: bool)
    requires c <= |objects| && PartRead(objects, fields, c, |objects|, later, clean)
    ensures later == TypedAll(objects[c..], fields, types, casts) <==>
      clean && TypesIdle(objects, fields, types, casts, c)
  {
    var rest := TypedAll(objects[c..], fields, types, casts);
    assert objects[c..|objects|] == objects[c..];
    if clean && later == rest {
      forall i | c <= i < |objects|
        ensures Typed(objects[i], fields, types, casts) == Projected(objects[i], fields)
      {
        assert rest[i - c] == later[i - c] && objects[c..][i - c] == objects[i];
      }
    }
  }

  // The smallest loss: chunks of one object, the second of which holds only the type
  // word "int".
  lemma {:induction false} TypeWordChunkIsLost(first: Object, second: Object, fields: seq<string>, d: char,
      casts: Casts, chunks: seq<Chunk>)
    requires |fields| == 2 && Get(second, fields[0]) == Get(second, fields[1]) == "int" && d !in "int"
    requires d !in Get(first, fields[0])
    requires !IsTypeWord(Get(first, fields[0])) && Suitable([first, second], fields, d)
    requires Tiles([first, second], 1, fields, None, [d], chunks)
    ensures ReadChunks(chunks, [d], casts, |chunks|) != Read(Write([first, second], fields, None, [d]), [d], casts)
  {
    var objects := [first, second];
    assert Lower("int") == "int";
    BadRowExactly(second, fields, d);
    assert Times(1, 1) == 1 && BadChunk(objects, 1, fields, d, 1);
    assert |chunks| == 2;
    ChunkingIsTransparent(objects, 1, fields, None, d, casts, chunks);
  }

  // ------------------------------------------------------------------
  // Which rows start badly

  lemma {:induction false} TypeWordPlain(s: string, d: char, c: char)
    requires IsTypeWord(s) && c in s
    ensures c != '\\' && !IsBreak(c) && s != ""
  {
    var i :| 0 <= i < |s| && s[i] == c;
    assert Lower(s)[i] == LowerChar(c);
  }

  lemma {:induction false} EscapePlain(s: string, d: char)
    requires '\\' !in s && '\n' !in s && d !in s
    ensures EscapeAll(s, d) == s
  {
    if s != "" {
      EscapePlain(s[1..], d);
    }
  }

  lemma {:induction false} EscapeMarks(s: string, d: char)
    ensures '\\' in EscapeAll(s, d) <==> '\\' in s || '\n' in s || d in s
    ensures '\\' !in EscapeAll(s, d) ==> EscapeAll(s, d) == s
  {
    if s != "" {
      EscapeMarks(s[1..], d);
      assert s == [s[0]] + s[1..];
    }
  }

  lemma {:induction false} JoinHolds(parts: seq<string>, d: char, c: char)
    requires Holds(parts, c)
    ensures c in Join([d], parts)
  {
    var i :| 0 <= i < |parts| && c in parts[i];
    if |parts| > 1 && i > 0 {
      assert c in parts[1..][i - 1];
      JoinHolds(parts[1..], d, c);
    }
  }

  // A row is taken for a schema line exactly when every value is a type word that
  // does not contain the delimiter.
  lemma {:induction false} BadRowExactly(obj: Object, fields: seq<string>, d: char)
    requires GoodDelimiter(d) && fields != []
    ensures SchemaLike(Row(obj, fields, [d]), [d]) <==>
      forall i :: 0 <= i < |fields| ==> IsTypeWord(Get(obj, fields[i])) && d !in Get(obj, fields[i])
    ensures SchemaLike(Row(obj, fields, [d]), [d]) ==> SplitOn(Row(obj, fields, [d]), [d]) == ValuesOf(obj, fields)
  {
    var vs, es := ValuesOf(obj, fields), EscapeEach(ValuesOf(obj, fields), [d]);
    forall i | 0 <= i < |fields|
      ensures es[i] == EscapeAll(vs[i], d)
    {
      PassesAreOneMap(vs[i], d);
    }
    if forall i :: 0 <= i < |fields| ==> IsTypeWord(vs[i]) && d !in vs[i] {
      PlainRow(vs, es, d);
      SplitOnJoin(vs, d);
    }
    if SchemaLike(Row(obj, fields, [d]), [d]) {
      NoMarks(es, d);
      forall i | 0 <= i < |fields|
        ensures es[i] == vs[i] && d !in vs[i]
      {
        assert '\\' in es[i] ==> Holds(es, '\\');
        EscapeMarks(vs[i], d);
      }
      assert es == vs;
      SplitOnJoin(vs, d);
      forall i | 0 <= i < |fields|
        ensures IsTypeWord(vs[i])
      {
        assert vs[i] in SplitOn(Join([d], vs), [d]);
      }
    }
  }

  lemma {:induction false} PlainRow(vs: seq<string>, es: seq<string>, d: char)
    requires |vs| == |es| && forall i :: 0 <= i < |vs| ==>
      es[i] == EscapeAll(vs[i], d) && IsTypeWord(vs[i]) && d !in vs[i]
    ensures es == vs
  {
    forall i | 0 <= i < |vs|
      ensures es[i] == vs[i]
    {
      forall c | c in vs[i]
        ensures c != '\\' && c != '\n'
      {
        TypeWordPlain(vs[i], d, c);
      }
      EscapePlain(vs[i], d);
    }
  }

  // A line taken for a schema holds no backslash.
  lemma {:induction false} NoMarks(es: seq<string>, d: char)
    requires d != '\\' && SchemaLike(Join([d], es), [d])
    ensures !Holds(es, '\\')
  {
    if Holds(es, '\\') {
      JoinHolds(es, d, '\\');
      var parts := SplitOn(Join([d], es), [d]);
      SplitOnChars(Join([d], es), d, '\\');
      var i :| 0 <= i < |parts| && '\\' in parts[i];
      TypeWordPlain(parts[i], d, '\\');
    }
  }
}
