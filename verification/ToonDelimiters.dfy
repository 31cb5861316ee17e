// Which delimiters the TOON format supports, and its smallest failures (sdk/toon.py).
module ToonDelimiters {
  import opened Seqs
  import opened PythonStrings
  import opened Toon

  // Two or more names without the delimiter and without line boundaries, and values
  // without line boundaries other than the newline.
  ghost predicate Plain(objects: seq<Object>, fields: seq<string>, delim: string) {
    && |fields| >= 2 && Uniform(objects, fields)
    && (forall f {:trigger BreakFree(f)} :: f in fields ==> BreakFree(f) && !Contains(f, delim))
    && (forall i, f {:trigger GoodValue(objects[i][f])} ::
      0 <= i < |objects| && f in objects[i] ==> GoodValue(objects[i][f]))
  }

  ghost predicate ComesBack(objects: seq<Object>, fields: seq<string>, delim: string)
    requires delim != ""
  {
    Plain(objects, fields, delim) ==> Parse(Print(objects, fields, delim), delim) == objects
  }

  // The round trip works for all plain objects exactly when the delimiter is a single
  // character that escaping does not use and splitlines does not break at.
  lemma {:induction false} DelimiterExactly(delim: string)
    requires delim != ""
    ensures (forall objects, fields {:trigger ComesBack(objects, fields, delim)} :: ComesBack(objects, fields, delim))
      <==> |delim| == 1 && GoodDelimiter(delim[0])
  {
    if |delim| == 1 && GoodDelimiter(delim[0]) {
      forall objects, fields
        ensures ComesBack(objects, fields, delim)
      {
        GoodComesBack(objects, fields, delim[0]);
        assert delim == [delim[0]];
      }
    } else {
      var value := if delim == "n" then "n" else "";
      var objects: seq<Object> := [map["a" := value, "b" := "y"]];
      WitnessPlain(objects, value, delim);
      WitnessLost(objects, value, delim);
      assert !ComesBack(objects, ["a", "b"], delim);
    }
  }

  lemma {:induction false} GoodComesBack(objects: seq<Object>, fields: seq<string>, d: char)
    requires GoodDelimiter(d)
    ensures ComesBack(objects, fields, [d])
  {
    if Plain(objects, fields, [d]) && objects != [] {
      forall f | f in fields
        ensures GoodName(f, d)
      {
        if d in f {
          var i :| 0 <= i < |f| && f[i] == d;
          assert f[i..][..1] == [d];
          assert Contains(f, [d]);
          assert false;
        }
      }
      PrintableRoundTrip(objects, fields, d);
    }
  }

  // ------------------------------------------------------------------
  // The other delimiters lose one object with two fields

  lemma {:induction false} WitnessPlain(objects: seq<Object>, value: string, delim: string)
    requires value == (if delim == "n" then "n" else "") && objects == [map["a" := value, "b" := "y"]]
    requires delim != "" && !(|delim| == 1 && GoodDelimiter(delim[0]))
    ensures Plain(objects, ["a", "b"], delim)
  {
    NoDupTwo("a", "b");
    assert Elems(["a", "b"]) == {"a", "b"};
    assert GoodValue(value) && GoodValue("y");
    forall f | f in ["a", "b"]
      ensures BreakFree(f) && !Contains(f, delim)
    {
      if Contains(f, delim) {
        var i :| 0 <= i <= |f| - |delim| && f[i..][..|delim|] == delim;
      }
    }
  }

  lemma {:induction false} NoDupTwo(a: string, b: string)
    requires a != b
    ensures NoDup([a, b])
  {
    assert !Differ([a, b], 0, 1) || Differ([a, b], 0, 1);
  }

  lemma {:induction false} FirstLine(text: string)
    requires SplitLines(text) != []
    ensures SplitLines(text)[0] <= text && BreakFree(SplitLines(text)[0])
  {
    SplitLinesChars(text, 0);
    if !IsBreak(text[0]) && SplitLines(text[1..]) != [] {
      FirstLine(text[1..]);
    }
  }

  lemma {:induction false} FirstPart(s: string, delim: string)
    requires delim != ""
    ensures SplitOn(s, delim)[0] <= s
  {
    if |s| >= |delim| && s[..|delim|] != delim {
      FirstPart(s[1..], delim);
    }
  }

  // No character is ever compared equal to such a delimiter.
  lemma {:induction false} NeverSplits(line: string, delim: string)
    requires |delim| > 1 || delim == "\\"
    ensures |SplitEscaped(line, delim)| == 1
  {
    if line != "" && line[0] == '\\' && |line| > 1 {
      NeverSplits(line[2..], delim);
    } else if line != "" && line[0] != '\\' {
      NeverSplits(line[1..], delim);
    }
  }

  // Then only the first name of the header gets a value.
  lemma {:induction false} FirstNameOnly(header: string, line: string, delim: string, f: string)
    requires |delim| > 1 || delim == "\\"
    requires f != "" && f in ParseRow(HeaderFields(header, delim), line, delim)
    requires ParseRow(HeaderFields(header, delim), line, delim)[f] != ""
    ensures header != "" && header[0] == f[0]
  {
    NeverSplits(line, delim);
    FirstPart(header, delim);
    var i := ToObjectValue(HeaderFields(header, delim), UnescapeEach(SplitEscaped(line, delim)), f);
  }

  // With the delimiter n no part keeps an n.
  lemma {:induction false} PartsLackN(line: string, i: nat)
    requires i < |SplitEscaped(line, "n")|
    ensures 'n' !in Unescape(SplitEscaped(line, "n")[i])
  {
    if line != "" {
      if line[0] == '\\' {
        if |line| > 1 {
          var rest := SplitEscaped(line[2..], "n");
          PartsLackN(line[2..], i);
          assert (line[..2] + rest[0])[2..] == rest[0];
        }
      } else if line[0] == 'n' {
        if i > 0 {
          PartsLackN(line[1..], i - 1);
        }
      } else {
        var rest := SplitEscaped(line[1..], "n");
        PartsLackN(line[1..], i);
        assert ([line[0]] + rest[0])[1..] == rest[0];
      }
    }
  }

  lemma {:induction false} NoBareN(names: seq<string>, line: string, f: string)
    requires f in ParseRow(names, line, "n")
    ensures 'n' !in ParseRow(names, line, "n")[f]
  {
    var parts := SplitEscaped(line, "n");
    var i := ToObjectValue(names, UnescapeEach(parts), f);
    if i < |parts| {
      PartsLackN(line, i);
    }
  }

  // All names come out of the header line.
  lemma {:induction false} ParsedFromHeader(header: string, line: string, d: char, f: string, c: char)
    requires f in ParseRow(HeaderFields(header, [d]), line, [d]) && c in f
    ensures c in header
  {
    var parts := SplitOn(header, [d]);
    assert f in Elems(HeaderFields(header, [d]));
    var i :| 0 <= i < |parts| && parts[i] == f;
    assert Holds(parts, c);
    SplitOnChars(header, d, c);
  }

  lemma {:induction false} WitnessText(objects: seq<Object>, delim: string)
    requires |objects| == 1
    ensures |Print(objects, ["a", "b"], delim)| > |delim|
    ensures Print(objects, ["a", "b"], delim)[0] == 'a' && Print(objects, ["a", "b"], delim)[1..][..|delim|] == delim
  {
    var text := Print(objects, ["a", "b"], delim);
    assert ["a", "b"][1..] == ["b"];
    assert Join(delim, ["a", "b"]) == "a" + delim + "b";
    assert text == "a" + (delim + ("b" + "\n" + Join("\n", Rows(objects, ["a", "b"], delim))));
    assert text[1..] == delim + ("b" + "\n" + Join("\n", Rows(objects, ["a", "b"], delim)));
  }

  lemma {:induction false} WitnessLost(objects: seq<Object>, value: string, delim: string)
    requires value == (if delim == "n" then "n" else "") && objects == [map["a" := value, "b" := "y"]]
    requires delim != "" && !(|delim| == 1 && GoodDelimiter(delim[0]))
    ensures Parse(Print(objects, ["a", "b"], delim), delim) != objects
  {
    var text := Print(objects, ["a", "b"], delim);
    if Parse(text, delim) == objects {
      var header, line := SplitLines(text)[0], SplitLines(text)[1];
      FirstLine(text);
      WitnessText(objects, delim);
      assert objects[0] == ParseRow(HeaderFields(header, delim), line, delim);
      if delim == "n" {
        assert 'n' in value;
        NoBareN(HeaderFields(header, delim), line, "a");
      } else if |delim| > 1 || delim == "\\" {
        FirstNameOnly(header, line, delim, "b");
      } else {
        var d := delim[0];
        assert delim == [d] && text[1] == text[1..][..1][0] == d;
        ParsedFromHeader(header, line, d, "b", 'b');
        ShortHeader(header, text);
      }
    }
  }

  // A line boundary at the second character leaves at most the first one.
  lemma {:induction false} ShortHeader(header: string, text: string)
    requires header <= text && BreakFree(header) && |text| > 1 && IsBreak(text[1]) && text[0] == 'a'
    ensures 'b' !in header
  {
    if |header| > 1 {
      assert false;
    }
  }

  // ------------------------------------------------------------------
  // The smallest loss with a supported delimiter: one field, empty in the last object

  lemma {:induction false} LastEmptyRowIsLost(f: string, d: char)
    requires GoodDelimiter(d) && GoodName(f, d) && f != ""
    ensures var objects: seq<Object> := [map[f := "x"], map[f := ""]];
      |Parse(Print(objects, [f], [d]), [d])| == 1
  {
    var objects: seq<Object> := [map[f := "x"], map[f := ""]];
    assert Elems([f]) == {f};
    assert GoodValue("x") && GoodValue("");
    LinesBreakFree(objects, [f], d);
    LinesComeBack(objects, [f], d);
  }
}
