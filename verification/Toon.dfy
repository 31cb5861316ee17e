// The TOON printer and parser (sdk/toon.py), for objects whose values are strings.
module Toon {
  import opened Results
  import opened Seqs
  import opened PythonStrings

  type Object = map<string, string>

  // ------------------------------------------------------------------
  // Escaping and unescaping one value

  // _escape_value: three replacement passes, one after the other.
  function EscapeValue(val: string, delim: string): string {
    var s := Replace(Replace(val, "\\", "\\\\"), "\n", "\\n");
    if delim != "" then Replace(s, delim, "\\" + delim) else s
  }

  function EscapeChar(c: char, d: char): string {
    if c == '\\' then "\\\\" else if c == '\n' then "\\n" else if c == d then ['\\', d] else [c]
  }

  // The same, character by character.
  function EscapeAll(s: string, d: char): string {
    if s == "" then "" else EscapeChar(s[0], d) + EscapeAll(s[1..], d)
  }

  // The three passes do not disturb each other as long as the delimiter is not one
  // of the characters they introduce.
  lemma {:induction false} PassesAreOneMap(s: string, d: char)
    requires d != '\\' && d != 'n'
    ensures EscapeValue(s, [d]) == EscapeAll(s, d)
  {
    ReplaceIsSubst(s, '\\', "\\\\");
    ReplaceIsSubst(Subst(s, '\\', "\\\\"), '\n', "\\n");
    ReplaceIsSubst(Subst(Subst(s, '\\', "\\\\"), '\n', "\\n"), d, "\\" + [d]);
    SubstsAreOneMap(s, d);
  }

  lemma {:induction false} SubstsAreOneMap(s: string, d: char)
    requires d != '\\' && d != 'n'
    ensures Subst(Subst(Subst(s, '\\', "\\\\"), '\n', "\\n"), d, "\\" + [d]) == EscapeAll(s, d)
  {
    if s != "" {
      var h, t := [s[0]], s[1..];
      assert s == h + t;
      var h1, t1 := Subst(h, '\\', "\\\\"), Subst(t, '\\', "\\\\");
      SubstAppend(h, t, '\\', "\\\\");
      SubstAppend(h1, t1, '\n', "\\n");
      SubstAppend(Subst(h1, '\n', "\\n"), Subst(t1, '\n', "\\n"), d, "\\" + [d]);
      SubstsAreOneMap(t, d);
      OneChar(s[0], d);
    }
  }

  lemma {:induction false} SubstOne(x: char, c: char, rep: string)
    ensures Subst([x], c, rep) == if x == c then rep else [x]
  {
  }

  lemma {:induction false} SubstTwo(x: char, y: char, c: char, rep: string)
    ensures Subst([x, y], c, rep) == (if x == c then rep else [x]) + (if y == c then rep else [y])
  {
    assert [x, y] == [x] + [y];
    SubstAppend([x], [y], c, rep);
    SubstOne(x, c, rep);
    SubstOne(y, c, rep);
  }

  lemma {:induction false} OneChar(c: char, d: char)
    requires d != '\\' && d != 'n'
    ensures Subst(Subst(Subst([c], '\\', "\\\\"), '\n', "\\n"), d, "\\" + [d]) == EscapeChar(c, d)
  {
    SubstOne(c, '\\', "\\\\");
    SubstOne(c, '\n', "\\n");
    SubstOne(c, d, "\\" + [d]);
    SubstTwo('\\', '\\', '\n', "\\n");
    SubstTwo('\\', '\\', d, "\\" + [d]);
    SubstTwo('\\', 'n', d, "\\" + [d]);
    assert "\\" + [d] == ['\\', d];
  }

  function Unescape(s: string): string {
    if s == "" then ""
    else if s[0] == '\\' then
      if |s| == 1 then "\\" else [if s[1] == 'n' then '\n' else s[1]] + Unescape(s[2..])
    else [s[0]] + Unescape(s[1..])
  }

  lemma {:induction false} UnescapeStep(r: string, rest: string)
    requires rest != ""
    ensures r + Unescape(rest) ==
      if rest[0] != '\\' then r + [rest[0]] + Unescape(rest[1..])
      else if |rest| == 1 then r + "\\"
      else r + [if rest[1] == 'n' then '\n' else rest[1]] + Unescape(rest[2..])
  {
  }

  // _unescape_value
  method UnescapeValue(s: string) returns (r: string)
    ensures r == Unescape(s)
  {
    r := "";
    var i := 0;
    assert s[0..] == s;
    while i < |s|
      invariant 0 <= i <= |s|
      invariant r + Unescape(s[i..]) == Unescape(s)
    {
      var c := s[i];
      UnescapeStep(r, s[i..]);
      if c == '\\' {
        i := i + 1;
        if i >= |s| {
          r := r + "\\";
          return;
        }
        assert s[i - 1..][2..] == s[i + 1..];
        r := r + [if s[i] == 'n' then '\n' else s[i]];
        i := i + 1;
      } else {
        assert s[i..][1..] == s[i + 1..];
        r := r + [c];
        i := i + 1;
      }
    }
    assert s[|s|..] == "" && r + "" == r;
  }

  lemma {:induction false} UnescapeChar(c: char, d: char, t: string)
    requires d != 'n'
    ensures Unescape(EscapeChar(c, d) + t) == [c] + Unescape(t)
  {
    var e := EscapeChar(c, d);
    assert (e + t)[|e|..] == t;
    if c == '\\' || c == '\n' || c == d {
      assert e[0] == '\\' && (e + t)[1] == e[1];
    }
  }

  lemma {:induction false} UnescapeAppend(s: string, d: char, rest: string)
    requires d != 'n'
    ensures Unescape(EscapeAll(s, d) + rest) == s + Unescape(rest)
  {
    if s == "" {
      assert EscapeAll(s, d) + rest == rest;
    } else {
      var t := EscapeAll(s[1..], d) + rest;
      assert EscapeAll(s, d) + rest == EscapeChar(s[0], d) + t;
      UnescapeChar(s[0], d, t);
      UnescapeAppend(s[1..], d, rest);
      assert [s[0]] + (s[1..] + Unescape(rest)) == s + Unescape(rest);
    }
  }

  // Unescaping undoes escaping.
  lemma {:induction false} UnescapeEscape(s: string, d: char)
    requires d != '\\' && d != 'n'
    ensures Unescape(EscapeValue(s, [d])) == s
  {
    PassesAreOneMap(s, d);
    UnescapeAppend(s, d, "");
    assert EscapeAll(s, d) + "" == EscapeAll(s, d) && s + "" == s;
  }

  // And only for such delimiters does it: a delimiter that escaping itself uses
  // corrupts the values that contain it.
  lemma {:induction false} UnescapeEscapeExactly(d: char)
    ensures (forall s :: Unescape(EscapeValue(s, [d])) == s) <==> d != '\\' && d != 'n'
  {
    if d != '\\' && d != 'n' {
      forall s
        ensures Unescape(EscapeValue(s, [d])) == s
      {
        UnescapeEscape(s, d);
      }
    } else {
      var s := [d];
      ReplaceIsSubst(s, '\\', "\\\\");
      SubstOne(d, '\\', "\\\\");
      var s1 := if d == 'n' then "n" else "\\\\";
      ReplaceIsSubst(s1, '\n', "\\n");
      SubstOne('n', '\n', "\\n");
      SubstTwo('\\', '\\', '\n', "\\n");
      ReplaceIsSubst(s1, d, "\\" + [d]);
      SubstOne('n', d, "\\" + [d]);
      SubstTwo('\\', '\\', d, "\\" + [d]);
      var e := EscapeValue(s, [d]);
      assert e == if d == 'n' then "\\n" else "\\\\\\\\";
      if d == '\\' {
        assert e[2..] == "\\\\" && |Unescape(e[2..])| >= 1;
      }
      assert Unescape(e) != s;
    }
  }

  lemma {:induction false} UnescapeChars(s: string, c: char)
    ensures c in Unescape(s) ==> c in s || c == '\n'
  {
    if s != "" {
      if s[0] == '\\' && |s| > 1 {
        UnescapeChars(s[2..], c);
      } else {
        UnescapeChars(s[1..], c);
      }
    }
  }

  // ------------------------------------------------------------------
  // Splitting a row at its unescaped delimiters

  function SplitEscaped(line: string, delim: string): (r: seq<string>)
    ensures r != []
  {
    if line == "" then [""]
    else if line[0] == '\\' then
      if |line| > 1 then Glue(line[..2], SplitEscaped(line[2..], delim)) else ["\\"]
    else if delim != "" && [line[0]] == delim then [""] + SplitEscaped(line[1..], delim)
    else Glue([line[0]], SplitEscaped(line[1..], delim))
  }

  lemma {:induction false} GlueParts(parts: seq<string>, cur: string, more: seq<string>)
    requires more != []
    ensures parts + Glue(cur, [""] + more) == parts + [cur] + Glue("", more)
  {
    GlueGlue("", "", more);
    GlueHead(cur, more);
    assert parts + ([cur] + more) == parts + [cur] + more;
  }

  // One step of the scan, with `cur` the part being collected.
  lemma {:induction false} SplitStep(parts: seq<string>, cur: string, rest: string, delim: string)
    requires rest != ""
    ensures parts + Glue(cur, SplitEscaped(rest, delim)) ==
      if rest[0] == '\\' then
        if |rest| > 1 then parts + Glue(cur + rest[..2], SplitEscaped(rest[2..], delim))
        else parts + Glue(cur + "\\", SplitEscaped("", delim))
      else if delim != "" && [rest[0]] == delim then parts + [cur] + Glue("", SplitEscaped(rest[1..], delim))
      else parts + Glue(cur + [rest[0]], SplitEscaped(rest[1..], delim))
  {
    if rest[0] == '\\' {
      if |rest| > 1 {
        GlueGlue(cur, rest[..2], SplitEscaped(rest[2..], delim));
      } else {
        GlueHead(cur + "\\", []);
        assert [""] + [] == [""];
      }
    } else if delim != "" && [rest[0]] == delim {
      GlueParts(parts, cur, SplitEscaped(rest[1..], delim));
    } else {
      GlueGlue(cur, [rest[0]], SplitEscaped(rest[1..], delim));
    }
  }

  // _split_escaped
  method SplitRow(line: string, delim: string) returns (parts: seq<string>)
    ensures parts == SplitEscaped(line, delim)
  {
    parts := [];
    var cur := "";
    var i := 0;
    GlueGlue("", "", SplitEscaped(line, delim));
    assert line[0..] == line;
    while i < |line|
      invariant 0 <= i <= |line|
      invariant parts + Glue(cur, SplitEscaped(line[i..], delim)) == SplitEscaped(line, delim)
    {
      SplitStep(parts, cur, line[i..], delim);
      var c := line[i];
      if c == '\\' {
        if i + 1 < |line| {
          assert line[i..][..2] == ['\\', line[i + 1]] && line[i..][2..] == line[i + 2..];
          cur := cur + ['\\', line[i + 1]];
          i := i + 2;
        } else {
          assert line[i + 1..] == "";
          cur := cur + "\\";
          i := i + 1;
        }
      } else {
        assert line[i..][1..] == line[i + 1..];
        if delim != "" && [c] == delim {
          parts := parts + [cur];
          cur := "";
        } else {
          cur := cur + [c];
        }
        i := i + 1;
      }
    }
    GlueHead(cur, []);
    assert [""] + [] == [""] && line[|line|..] == "";
    parts := parts + [cur];
  }

  lemma {:induction false} SplitEscapedChar(x: char, d: char, rest: string)
    requires d != '\\'
    ensures SplitEscaped(EscapeChar(x, d) + rest, [d]) == Glue(EscapeChar(x, d), SplitEscaped(rest, [d]))
  {
    var e := EscapeChar(x, d);
    assert (e + rest)[|e|..] == rest && (e + rest)[..|e|] == e;
  }

  lemma {:induction false} SplitEscapedText(s: string, d: char, rest: string)
    requires d != '\\'
    ensures SplitEscaped(EscapeAll(s, d) + rest, [d]) == Glue(EscapeAll(s, d), SplitEscaped(rest, [d]))
  {
    var r := SplitEscaped(rest, [d]);
    if s == "" {
      assert EscapeAll(s, d) + rest == rest;
      GlueGlue("", "", r);
    } else {
      var e, t := EscapeChar(s[0], d), EscapeAll(s[1..], d);
      assert EscapeAll(s, d) + rest == e + (t + rest);
      SplitEscapedText(s[1..], d, rest);
      SplitEscapedChar(s[0], d, t + rest);
      GlueGlue(e, t, r);
    }
  }

  function EscapeEach(vs: seq<string>, delim: string): (r: seq<string>)
    ensures |r| == |vs| && forall i :: 0 <= i < |vs| ==> r[i] == EscapeValue(vs[i], delim)
  {
    seq(|vs|, i requires 0 <= i < |vs| => EscapeValue(vs[i], delim))
  }

  function UnescapeEach(ps: seq<string>): (r: seq<string>)
    ensures |r| == |ps| && forall i :: 0 <= i < |ps| ==> r[i] == Unescape(ps[i])
  {
    seq(|ps|, i requires 0 <= i < |ps| => Unescape(ps[i]))
  }

  lemma {:induction false} SplitJoined(vs: seq<string>, d: char)
    requires vs != [] && d != '\\' && d != 'n'
    ensures SplitEscaped(Join([d], EscapeEach(vs, [d])), [d]) == EscapeEach(vs, [d])
  {
    var es := EscapeEach(vs, [d]);
    var e := EscapeAll(vs[0], d);
    PassesAreOneMap(vs[0], d);
    if |vs| == 1 {
      SplitEscapedText(vs[0], d, "");
      assert e + "" == e && Glue(e, [""]) == [e];
    } else {
      assert es[1..] == EscapeEach(vs[1..], [d]);
      var rest := [d] + Join([d], es[1..]);
      SplitEscapedText(vs[0], d, rest);
      assert es[0] + [d] + Join([d], es[1..]) == es[0] + rest;
      assert rest[1..] == Join([d], es[1..]);
      SplitJoined(vs[1..], d);
      assert SplitEscaped(rest, [d]) == [""] + es[1..];
      GlueHead(e, es[1..]);
      assert [e] + es[1..] == es;
    }
  }

  // The values of a row come back from its text.
  lemma {:induction false} RowRoundTrip(vs: seq<string>, d: char)
    requires vs != [] && d != '\\' && d != 'n'
    ensures UnescapeEach(SplitEscaped(Join([d], EscapeEach(vs, [d])), [d])) == vs
  {
    SplitJoined(vs, d);
    forall i | 0 <= i < |vs|
      ensures Unescape(EscapeEach(vs, [d])[i]) == vs[i]
    {
      UnescapeEscape(vs[i], d);
    }
  }

  // ------------------------------------------------------------------
  // Printing

  function Get(obj: Object, f: string): string {
    if f in obj then obj[f] else ""
  }

  function ValuesOf(obj: Object, fields: seq<string>): (r: seq<string>)
    ensures |r| == |fields| && forall i :: 0 <= i < |fields| ==> r[i] == Get(obj, fields[i])
  {
    seq(|fields|, i requires 0 <= i < |fields| => Get(obj, fields[i]))
  }

  function Row(obj: Object, fields: seq<string>, delim: string): string {
    Join(delim, EscapeEach(ValuesOf(obj, fields), delim))
  }

  function Rows(objects: seq<Object>, fields: seq<string>, delim: string): (r: seq<string>)
    ensures |r| == |objects| && forall i :: 0 <= i < |objects| ==> r[i] == Row(objects[i], fields, delim)
  {
    seq(|objects|, i requires 0 <= i < |objects| => Row(objects[i], fields, delim))
  }

  function Print(objects: seq<Object>, fields: seq<string>, delim: string): string {
    if objects == [] then "" else Join(delim, fields) + "\n" + Join("\n", Rows(objects, fields, delim))
  }

  // to_toon, for a given field list.
  method ToToon(objects: seq<Object>, fields: seq<string>, delim: string) returns (r: string)
    ensures r == Print(objects, fields, delim)
  {
    if |objects| == 0 {
      return "";
    }
    var header := Join(delim, fields);
    var rows: seq<string> := [];
    for i := 0 to |objects|
      invariant rows == Rows(objects, fields, delim)[..i]
    {
      var rowValues: seq<string> := [];
      for j := 0 to |fields|
        invariant rowValues == EscapeEach(ValuesOf(objects[i], fields), delim)[..j]
      {
        rowValues := rowValues + [EscapeValue(Get(objects[i], fields[j]), delim)];
      }
      assert rowValues == EscapeEach(ValuesOf(objects[i], fields), delim);
      rows := rows + [Join(delim, rowValues)];
    }
    assert rows == Rows(objects, fields, delim);
    return header + "\n" + Join("\n", rows);
  }

  // ------------------------------------------------------------------
  // Parsing

  // Each field with the value in its place, and "" when the row is too short.
  function ToObject(fields: seq<string>, values: seq<string>): (o: Object)
    ensures o.Keys == Elems(fields)
  {
    if fields == [] then map[]
    else
      var n := |fields| - 1;
      assert fields == fields[..n] + [fields[n]];
      ElemsSnoc(fields[..n], fields[n]);
      ToObject(fields[..n], values)[fields[n] := if n < |values| then values[n] else ""]
  }

  function ParseRow(fields: seq<string>, line: string, delim: string): Object {
    ToObject(fields, UnescapeEach(SplitEscaped(line, delim)))
  }

  function ParseRows(fields: seq<string>, lines: seq<string>, delim: string): (r: seq<Object>)
    ensures |r| == |lines| && forall i :: 0 <= i < |lines| ==> r[i] == ParseRow(fields, lines[i], delim)
  {
    seq(|lines|, i requires 0 <= i < |lines| => ParseRow(fields, lines[i], delim))
  }

  function HeaderFields(header: string, delim: string): seq<string>
    requires delim != ""
  {
    if header == "" then [] else SplitOn(header, delim)
  }

  function Parse(text: string, delim: string): seq<Object>
    requires delim != ""
  {
    var lines := SplitLines(text);
    if lines == [] then [] else ParseRows(HeaderFields(lines[0], delim), lines[1..], delim)
  }

  // The values of one line.
  method ReadValues(line: string, delim: string) returns (values: seq<string>)
    ensures values == UnescapeEach(SplitEscaped(line, delim))
  {
    var parts := SplitRow(line, delim);
    values := [];
    for j := 0 to |parts|
      invariant values == UnescapeEach(parts)[..j]
    {
      var v := UnescapeValue(parts[j]);
      values := values + [v];
    }
    assert values == UnescapeEach(parts);
  }

  // The loop body of from_toon.
  method ReadRow(fields: seq<string>, line: string, delim: string) returns (o: Object)
    ensures o == ParseRow(fields, line, delim)
  {
    var values := ReadValues(line, delim);
    return ToObject(fields, values);
  }

  // from_toon.  An empty delimiter makes Python's split raise, except on an empty
  // header line, which is never split.
  method FromToon(text: string, delim: string) returns (r: Result<seq<Object>, string>)
    ensures delim != "" ==> r == Ok(Parse(text, delim))
    ensures delim == "" ==> (r.Err? <==> SplitLines(text) != [] && SplitLines(text)[0] != "")
    ensures r.Err? ==> r.error == "empty separator"
  {
    if text == "" {
      return Ok([]);
    }
    var lines := SplitLines(text);
    if |lines| == 0 {
      return Ok([]);
    }
    if lines[0] != "" && delim == "" {
      return Err("empty separator");
    }
    var fields := if lines[0] == "" then [] else SplitOn(lines[0], delim);
    var rows := lines[1..];
    var objs: seq<Object> := [];
    for k := 0 to |rows|
      invariant objs == ParseRows(fields, rows, delim)[..k]
    {
      var o := ReadRow(fields, rows[k], delim);
      objs := objs + [o];
    }
    assert objs == ParseRows(fields, rows, delim);
    return Ok(objs);
  }

  // ------------------------------------------------------------------
  // The round trip

  // A delimiter the format supports: one character that escaping does not use and
  // splitlines does not break at.
  predicate GoodDelimiter(d: char) {
    d != '\\' && d != 'n' && !IsBreak(d)
  }

  predicate GoodName(f: string, d: char) {
    d !in f && BreakFree(f)
  }

  // The only break a value may hold is the newline, which is escaped.
  predicate GoodValue(v: string) {
    forall c {:trigger IsBreak(c)} :: c in v ==> c == '\n' || !IsBreak(c)
  }

  // With fewer than two fields a row can be empty, and so be lost at the end of the
  // text; an empty header names no field.
  predicate EnoughFields(objects: seq<Object>, fields: seq<string>) {
    |fields| >= 2 ||
    (|fields| == 1 && fields[0] != "" && (objects != [] ==> Get(objects[|objects| - 1], fields[0]) != ""))
  }

  // Objects that all have exactly the given fields.
  ghost predicate Uniform(objects: seq<Object>, fields: seq<string>) {
    NoDup(fields) && forall i :: 0 <= i < |objects| ==> objects[i].Keys == Elems(fields)
  }

  // Names and values that fit on lines.
  ghost predicate Lineable(objects: seq<Object>, fields: seq<string>, d: char) {
    && (forall f {:trigger GoodName(f, d)} :: f in fields ==> GoodName(f, d))
    && (forall i, f {:trigger GoodValue(objects[i][f])} ::
      0 <= i < |objects| && f in objects[i] ==> GoodValue(objects[i][f]))
  }

  ghost predicate Printable(objects: seq<Object>, fields: seq<string>, d: char) {
    Lineable(objects, fields, d) && EnoughFields(objects, fields)
  }

  // The text, line by line.
  function TextLines(objects: seq<Object>, fields: seq<string>, d: char): (r: seq<string>)
    ensures |r| == |objects| + 1
  {
    [Join([d], fields)] + Rows(objects, fields, [d])
  }

  lemma {:induction false} PrintIsJoin(objects: seq<Object>, fields: seq<string>, d: char)
    requires objects != []
    ensures Print(objects, fields, [d]) == Join("\n", TextLines(objects, fields, d))
  {
    assert TextLines(objects, fields, d)[1..] == Rows(objects, fields, [d]);
  }

  lemma {:induction false} AppendBreakFree(s: string, t: string)
    requires BreakFree(s) && BreakFree(t)
    ensures BreakFree(s + t)
  {
  }

  lemma {:induction false} JoinBreakFree(parts: seq<string>, d: char)
    requires !IsBreak(d) && AllBreakFree(parts)
    ensures BreakFree(Join([d], parts))
  {
    if parts != [] {
      assert BreakFree(parts[0]);
      if |parts| > 1 {
        var rest := parts[1..];
        forall i | 0 <= i < |rest|
          ensures BreakFree(rest[i])
        {
          assert BreakFree(parts[i + 1]);
        }
        JoinBreakFree(rest, d);
        AppendBreakFree(parts[0], [d]);
        AppendBreakFree(parts[0] + [d], Join([d], rest));
      }
    }
  }

  lemma {:induction false} JoinNotEmpty(parts: seq<string>, d: char)
    ensures Join([d], parts) == "" <==> parts == [] || parts == [""]
  {
    if |parts| > 1 {
      assert |Join([d], parts)| >= 1;
    }
  }

  lemma {:induction false} EscapeBreakFree(v: string, d: char)
    requires GoodDelimiter(d) && GoodValue(v)
    ensures BreakFree(EscapeAll(v, d)) && (EscapeAll(v, d) == "" <==> v == "")
  {
    if v != "" {
      assert forall c :: c in v[1..] ==> c in v;
      EscapeBreakFree(v[1..], d);
      assert v[0] in v;
    }
  }

  lemma {:induction false} RowBreakFree(obj: Object, fields: seq<string>, d: char)
    requires GoodDelimiter(d) && forall i :: 0 <= i < |fields| ==> GoodValue(Get(obj, fields[i]))
    ensures BreakFree(Row(obj, fields, [d]))
  {
    var vs := ValuesOf(obj, fields);
    forall i | 0 <= i < |fields|
      ensures BreakFree(EscapeEach(vs, [d])[i])
    {
      PassesAreOneMap(vs[i], d);
      EscapeBreakFree(vs[i], d);
    }
    JoinBreakFree(EscapeEach(vs, [d]), d);
  }

  lemma {:induction false} ConsBreakFree(line: string, lines: seq<string>)
    requires BreakFree(line) && AllBreakFree(lines)
    ensures AllBreakFree([line] + lines)
  {
    forall i | 0 <= i < |lines| + 1
      ensures BreakFree(([line] + lines)[i])
    {
      assert i > 0 ==> BreakFree(lines[i - 1]);
    }
  }

  lemma {:induction false} LinesBreakFree(objects: seq<Object>, fields: seq<string>, d: char)
    requires GoodDelimiter(d) && Uniform(objects, fields) && Lineable(objects, fields, d)
    ensures AllBreakFree(TextLines(objects, fields, d))
  {
    forall k | 0 <= k < |objects|
      ensures BreakFree(Rows(objects, fields, [d])[k])
    {
      RowKBreakFree(objects, fields, d, k);
    }
    HeaderBreakFree(fields, d);
    ConsBreakFree(Join([d], fields), Rows(objects, fields, [d]));
  }

  lemma {:induction false} RowKBreakFree(objects: seq<Object>, fields: seq<string>, d: char, k: nat)
    requires GoodDelimiter(d) && Uniform(objects, fields) && Lineable(objects, fields, d) && k < |objects|
    ensures BreakFree(Row(objects[k], fields, [d]))
  {
    ValuesGood(objects, fields, d, k);
    RowBreakFree(objects[k], fields, d);
  }

  lemma {:induction false} HeaderBreakFree(fields: seq<string>, d: char)
    requires GoodDelimiter(d) && forall f {:trigger GoodName(f, d)} :: f in fields ==> GoodName(f, d)
    ensures BreakFree(Join([d], fields))
  {
    forall i | 0 <= i < |fields|
      ensures BreakFree(fields[i])
    {
      assert GoodName(fields[i], d);
    }
    JoinBreakFree(fields, d);
  }

  lemma {:induction false} ValuesGood(objects: seq<Object>, fields: seq<string>, d: char, k: nat)
    requires Uniform(objects, fields) && k < |objects| && Lineable(objects, fields, d)
    ensures forall i :: 0 <= i < |fields| ==> GoodValue(Get(objects[k], fields[i]))
  {
    forall i | 0 <= i < |fields|
      ensures GoodValue(Get(objects[k], fields[i]))
    {
      assert fields[i] in Elems(fields);
      assert GoodValue(objects[k][fields[i]]);
    }
  }

  lemma {:induction false} EmptyRow(obj: Object, fields: seq<string>, d: char)
    requires GoodDelimiter(d) && fields != []
    ensures Row(obj, fields, [d]) == "" <==> |fields| == 1 && Get(obj, fields[0]) == ""
  {
    var es := EscapeEach(ValuesOf(obj, fields), [d]);
    JoinNotEmpty(es, d);
    PassesAreOneMap(Get(obj, fields[0]), d);
    if |fields| == 1 {
      assert es == [EscapeAll(Get(obj, fields[0]), d)];
    }
  }

  // A row parses back to the object it was printed from.
  lemma {:induction false} RowParses(obj: Object, fields: seq<string>, d: char)
    requires GoodDelimiter(d) && fields != [] && NoDup(fields) && obj.Keys == Elems(fields)
    ensures ParseRow(fields, Row(obj, fields, [d]), [d]) == obj
  {
    var vs := ValuesOf(obj, fields);
    RowRoundTrip(vs, d);
    ObjectRoundTrip(obj, fields, vs);
  }

  lemma {:induction false} ObjectRoundTrip(obj: Object, fields: seq<string>, vs: seq<string>)
    requires |vs| == |fields| && obj.Keys == Elems(fields)
    requires forall i :: 0 <= i < |fields| ==> vs[i] == Get(obj, fields[i])
    ensures ToObject(fields, vs) == obj
  {
    forall f | f in obj
      ensures ToObject(fields, vs)[f] == obj[f]
    {
      var i := ToObjectValue(fields, vs, f);
    }
  }

  lemma {:induction false} LinesComeBack(objects: seq<Object>, fields: seq<string>, d: char)
    requires GoodDelimiter(d) && Uniform(objects, fields) && objects != [] && fields != []
    requires AllBreakFree(TextLines(objects, fields, d))
    ensures SplitLines(Print(objects, fields, [d])) ==
      if |fields| == 1 && Get(objects[|objects| - 1], fields[0]) == "" then TextLines(objects, fields, d)[..|objects|]
      else TextLines(objects, fields, d)
  {
    PrintIsJoin(objects, fields, d);
    var lines := TextLines(objects, fields, d);
    SplitLinesJoin(lines);
    assert lines[|lines| - 1] == Row(objects[|objects| - 1], fields, [d]);
    EmptyRow(objects[|objects| - 1], fields, d);
  }

  lemma {:induction false} HeaderComesBack(fields: seq<string>, d: char)
    requires fields != [] && fields != [""] && forall i :: 0 <= i < |fields| ==> d !in fields[i]
    ensures HeaderFields(Join([d], fields), [d]) == fields
  {
    JoinNotEmpty(fields, d);
    SplitOnJoin(fields, d);
  }

  // Sufficiency: printable objects survive printing and parsing.
  lemma {:induction false} PrintableRoundTrip(objects: seq<Object>, fields: seq<string>, d: char)
    requires GoodDelimiter(d) && Uniform(objects, fields) && objects != [] && Printable(objects, fields, d)
    ensures Parse(Print(objects, fields, [d]), [d]) == objects
  {
    var lines := TextLines(objects, fields, d);
    LinesBreakFree(objects, fields, d);
    LinesComeBack(objects, fields, d);
    forall i | 0 <= i < |fields|
      ensures d !in fields[i]
    {
      assert GoodName(fields[i], d);
    }
    HeaderComesBack(fields, d);
    assert lines[1..] == Rows(objects, fields, [d]);
    forall i | 0 <= i < |objects|
      ensures ParseRow(fields, Row(objects[i], fields, [d]), [d]) == objects[i]
    {
      RowParses(objects[i], fields, d);
    }
  }

  // ------------------------------------------------------------------
  // Necessity: what comes out of the parser is always printable

  lemma {:induction false} ParsedNames(text: string, d: char, f: string)
    requires SplitLines(text) != [] && f in HeaderFields(SplitLines(text)[0], [d])
    ensures GoodName(f, d)
  {
    var header := SplitLines(text)[0];
    SplitLinesChars(text, 0);
    var parts := SplitOn(header, [d]);
    var i :| 0 <= i < |parts| && parts[i] == f;
    forall c | c in f
      ensures c != d && !IsBreak(c)
    {
      assert Holds(parts, c);
      SplitOnChars(header, d, c);
    }
  }

  lemma {:induction false} SplitEscapedChars(line: string, delim: string, c: char)
    ensures Holds(SplitEscaped(line, delim), c) ==> c in line
  {
    if line == "" {
      HoldsCons("", [], c);
      assert [""] + [] == [""];
    } else if line[0] == '\\' {
      if |line| > 1 {
        var t := SplitEscaped(line[2..], delim);
        SplitEscapedChars(line[2..], delim, c);
        HoldsCons(t[0], t[1..], c);
        HoldsCons(line[..2] + t[0], t[1..], c);
        assert t == [t[0]] + t[1..] && line == line[..2] + line[2..];
      } else {
        HoldsCons("\\", [], c);
        assert ["\\"] + [] == ["\\"] && line == "\\";
      }
    } else {
      var t := SplitEscaped(line[1..], delim);
      SplitEscapedChars(line[1..], delim, c);
      HoldsCons("", t, c);
      HoldsCons(t[0], t[1..], c);
      HoldsCons([line[0]] + t[0], t[1..], c);
      assert t == [t[0]] + t[1..] && line == [line[0]] + line[1..];
    }
  }

  lemma {:induction false} ToObjectValue(fields: seq<string>, values: seq<string>, f: string) returns (i: nat)
    requires f in ToObject(fields, values)
    ensures i < |fields| && fields[i] == f && ToObject(fields, values)[f] == if i < |values| then values[i] else ""
  {
    var n := |fields| - 1;
    if fields[n] == f {
      i := n;
    } else {
      i := ToObjectValue(fields[..n], values, f);
    }
  }

  lemma {:induction false} ParsedValues(fields: seq<string>, line: string, delim: string, f: string)
    requires BreakFree(line) && f in ParseRow(fields, line, delim)
    ensures GoodValue(ParseRow(fields, line, delim)[f])
  {
    var parts := SplitEscaped(line, delim);
    var i := ToObjectValue(fields, UnescapeEach(parts), f);
    if i < |parts| {
      forall c | c in Unescape(parts[i])
        ensures c == '\n' || !IsBreak(c)
      {
        UnescapeChars(parts[i], c);
        if c in parts[i] {
          assert Holds(parts, c);
          SplitEscapedChars(line, delim, c);
        }
      }
    }
  }

  lemma {:induction false} NamesComeFromHeader(objects: seq<Object>, fields: seq<string>, d: char, f: string)
    requires Uniform(objects, fields) && objects != [] && f in fields
    requires Parse(Print(objects, fields, [d]), [d]) == objects
    ensures SplitLines(Print(objects, fields, [d])) != []
    ensures f in HeaderFields(SplitLines(Print(objects, fields, [d]))[0], [d])
  {
    var lines := SplitLines(Print(objects, fields, [d]));
    var names := HeaderFields(lines[0], [d]);
    assert f in Elems(fields);
    assert objects[0] == ParseRow(names, lines[1], [d]);
    assert f in Elems(names);
  }

  lemma {:induction false} NamesComeBackGood(objects: seq<Object>, fields: seq<string>, d: char, f: string)
    requires Uniform(objects, fields) && objects != [] && f in fields
    requires Parse(Print(objects, fields, [d]), [d]) == objects
    ensures GoodName(f, d)
  {
    NamesComeFromHeader(objects, fields, d, f);
    ParsedNames(Print(objects, fields, [d]), d, f);
  }

  lemma {:induction false} ParsedGood(text: string, delim: string, i: nat, f: string)
    requires delim != "" && i < |Parse(text, delim)| && f in Parse(text, delim)[i]
    ensures GoodValue(Parse(text, delim)[i][f])
  {
    var lines := SplitLines(text);
    SplitLinesChars(text, i + 1);
    ParsedValues(HeaderFields(lines[0], delim), lines[i + 1], delim, f);
  }

  lemma {:induction false} ComesBackPrintable(objects: seq<Object>, fields: seq<string>, d: char)
    requires Uniform(objects, fields) && objects != []
    requires Parse(Print(objects, fields, [d]), [d]) == objects
    ensures Lineable(objects, fields, d)
  {
    forall f | f in fields
      ensures GoodName(f, d)
    {
      NamesComeBackGood(objects, fields, d, f);
    }
    forall i, f | 0 <= i < |objects| && f in objects[i]
      ensures GoodValue(objects[i][f])
    {
      ParsedGood(Print(objects, fields, [d]), [d], i, f);
    }
  }

  lemma {:induction false} ComesBackEnough(objects: seq<Object>, fields: seq<string>, d: char)
    requires GoodDelimiter(d) && Uniform(objects, fields) && objects != []
    requires Parse(Print(objects, fields, [d]), [d]) == objects
    ensures EnoughFields(objects, fields)
  {
    ComesBackPrintable(objects, fields, d);
    var text := Print(objects, fields, [d]);
    if fields == [] {
      NoFieldsLoseARow(objects, d);
    } else if |fields| == 1 {
      LinesBreakFree(objects, fields, d);
      LinesComeBack(objects, fields, d);
      assert SplitLines(text)[0] == fields[0];
      NamesComeFromHeader(objects, fields, d, fields[0]);
    }
  }

  lemma {:induction false} NoFieldsLoseARow(objects: seq<Object>, d: char)
    requires objects != []
    ensures |Parse(Print(objects, [], [d]), [d])| < |objects|
  {
    PrintIsJoin(objects, [], d);
    var lines := TextLines(objects, [], d);
    forall i | 0 <= i < |lines|
      ensures lines[i] == "" && BreakFree(lines[i])
    {
    }
    SplitLinesJoin(lines);
  }

  // The round trip of the format, exactly: objects sharing distinct field names come
  // back from their text if and only if the names and values fit on lines and there
  // are enough fields for no row to vanish.
  lemma {:induction false} RoundTripExactly(objects: seq<Object>, fields: seq<string>, d: char)
    requires GoodDelimiter(d) && Uniform(objects, fields)
    ensures Parse(Print(objects, fields, [d]), [d]) == objects <==> objects == [] || Printable(objects, fields, d)
  {
    if objects != [] {
      if Printable(objects, fields, d) {
        PrintableRoundTrip(objects, fields, d);
      }
      if Parse(Print(objects, fields, [d]), [d]) == objects {
        ComesBackPrintable(objects, fields, d);
        ComesBackEnough(objects, fields, d);
      }
    }
  }
}
