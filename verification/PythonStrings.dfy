// The Python string operations the TOON printer and parser are built from.
module PythonStrings {

  // s.replace(pat, rep), for a non-empty pattern.
  function Replace(s: string, pat: string, rep: string): string
    requires pat != ""
  {
    if |s| < |pat| then s
    else if s[..|pat|] == pat then rep + Replace(s[|pat|..], pat, rep)
    else [s[0]] + Replace(s[1..], pat, rep)
  }

  // delim.join(parts)
  function Join(delim: string, parts: seq<string>): string {
    if parts == [] then ""
    else if |parts| == 1 then parts[0]
    else parts[0] + delim + Join(delim, parts[1..])
  }

  // s.split(delim), for a non-empty delimiter.
  function SplitOn(s: string, delim: string): (r: seq<string>)
    requires delim != ""
    ensures r != []
  {
    if |s| < |delim| then [s]
    else if s[..|delim|] == delim then [""] + SplitOn(s[|delim|..], delim)
    else Glue([s[0]], SplitOn(s[1..], delim))
  }

  // Text put in front of the first part.
  function Glue(text: string, parts: seq<string>): (r: seq<string>)
    requires parts != []
    ensures |r| == |parts|
  {
    [text + parts[0]] + parts[1..]
  }

  lemma {:induction false} GlueGlue(a: string, b: string, parts: seq<string>)
    requires parts != []
    ensures Glue(a, Glue(b, parts)) == Glue(a + b, parts)
    ensures Glue("", parts) == parts
  {
    assert a + (b + parts[0]) == (a + b) + parts[0] && "" + parts[0] == parts[0];
  }

  lemma {:induction false} GlueHead(p: string, parts: seq<string>)
    ensures Glue(p, [""] + parts) == [p] + parts
  {
    assert p + "" == p;
    assert ([""] + parts)[1..] == parts;
  }

  lemma {:induction false} GlueAppend(p: string, a: seq<string>, b: seq<string>)
    requires a != []
    ensures Glue(p, a + b) == Glue(p, a) + b
  {
    assert (a + b)[1..] == a[1..] + b;
  }

  // The characters at which splitlines() breaks.
  predicate IsBreak(c: char) {
    c == '\n' || c == '\r' || c == '\U{0b}' || c == '\U{0c}' || c == '\U{1c}' || c == '\U{1d}' || c == '\U{1e}' ||
    c == '\U{85}' || c == '\U{2028}' || c == '\U{2029}'
  }

  predicate BreakFree(s: string) {
    forall c {:trigger IsBreak(c)} :: c in s ==> !IsBreak(c)
  }

  // s.splitlines(): a carriage return and the newline after it are one break, and a
  // break at the end starts no further line.
  function SplitLines(s: string): seq<string> {
    if s == "" then []
    else if IsBreak(s[0]) then [""] + SplitLines(if s[0] == '\r' && |s| > 1 && s[1] == '\n' then s[2..] else s[1..])
    else
      var r := SplitLines(s[1..]);
      if r == [] then [[s[0]]] else Glue([s[0]], r)
  }

  // t in s
  predicate Contains(s: string, t: string) {
    exists i {:trigger s[i..]} :: 0 <= i <= |s| - |t| && s[i..][..|t|] == t
  }

  lemma {:induction false} ContainsExactly(s: string, t: string)
    ensures Contains(s, t) <==> exists a, b {:trigger Around(s, a, t, b)} :: Around(s, a, t, b)
  {
    if Contains(s, t) {
      var i :| 0 <= i <= |s| - |t| && s[i..][..|t|] == t;
      assert s == s[..i] + s[i..] && s[i..] == t + s[i..][|t|..];
      assert Around(s, s[..i], t, s[i..][|t|..]);
    }
    if a, b :| Around(s, a, t, b) {
      assert s[|a|..] == t + b && (t + b)[..|t|] == t;
    }
  }

  // s consists of a, t and b.
  ghost predicate Around(s: string, a: string, t: string, b: string) {
    s == a + t + b
  }

  // Replacing is splitting and joining again.
  lemma {:induction false} ReplaceIsSplitJoin(s: string, pat: string, rep: string)
    requires pat != ""
    ensures Replace(s, pat, rep) == Join(rep, SplitOn(s, pat))
  {
    if |s| >= |pat| && s[..|pat|] == pat {
      var rest := s[|pat|..];
      ReplaceIsSplitJoin(rest, pat, rep);
      JoinCons(rep, "", SplitOn(rest, pat));
      assert "" + rep + Join(rep, SplitOn(rest, pat)) == rep + Join(rep, SplitOn(rest, pat));
    } else if |s| >= |pat| {
      var rest := s[1..];
      ReplaceIsSplitJoin(rest, pat, rep);
      JoinGlue(rep, [s[0]], SplitOn(rest, pat));
    }
  }

  lemma {:induction false} JoinCons(delim: string, p: string, parts: seq<string>)
    requires parts != []
    ensures Join(delim, [p] + parts) == p + delim + Join(delim, parts)
  {
    assert ([p] + parts)[1..] == parts;
  }

  lemma {:induction false} JoinGlue(delim: string, p: string, parts: seq<string>)
    requires parts != []
    ensures Join(delim, Glue(p, parts)) == p + Join(delim, parts)
  {
    if |parts| > 1 {
      assert Glue(p, parts)[1..] == parts[1..];
      assert (p + parts[0]) + delim + Join(delim, parts[1..]) == p + (parts[0] + delim + Join(delim, parts[1..]));
    }
  }

  // Splitting loses nothing, ...
  lemma {:induction false} SplitOnJoinsBack(s: string, delim: string)
    requires delim != ""
    ensures Join(delim, SplitOn(s, delim)) == s
  {
    if |s| >= |delim| && s[..|delim|] == delim {
      SplitOnJoinsBack(s[|delim|..], delim);
      JoinCons(delim, "", SplitOn(s[|delim|..], delim));
      assert s == delim + s[|delim|..];
    } else if |s| >= |delim| {
      SplitOnJoinsBack(s[1..], delim);
      JoinGlue(delim, [s[0]], SplitOn(s[1..], delim));
      assert s == [s[0]] + s[1..];
    }
  }

  // ... and leaves a text whole only when the delimiter does not occur in it.
  lemma {:induction false} SplitOnSplits(s: string, delim: string)
    requires delim != ""
    ensures |SplitOn(s, delim)| == 1 <==> !Contains(s, delim)
  {
    if |s| >= |delim| && s[..|delim|] == delim {
      assert s[0..][..|delim|] == delim;
    } else if |s| >= |delim| {
      SplitOnSplits(s[1..], delim);
      if i :| 0 <= i <= |s| - |delim| && s[i..][..|delim|] == delim {
        assert i > 0 && s[i..] == s[1..][i - 1..];
      }
      if i :| 0 <= i <= |s[1..]| - |delim| && s[1..][i..][..|delim|] == delim {
        assert s[i + 1..] == s[1..][i..];
      }
    }
  }

  // ------------------------------------------------------------------
  // Replacing a single character

  // Every c replaced by rep, character by character.
  function Subst(s: string, c: char, rep: string): string {
    if s == "" then "" else (if s[0] == c then rep else [s[0]]) + Subst(s[1..], c, rep)
  }

  lemma {:induction false} ReplaceIsSubst(s: string, c: char, rep: string)
    ensures Replace(s, [c], rep) == Subst(s, c, rep)
  {
    if s != "" {
      assert s[..1] == [s[0]];
      ReplaceIsSubst(s[1..], c, rep);
    }
  }

  lemma {:induction false} SubstAppend(s: string, t: string, c: char, rep: string)
    ensures Subst(s + t, c, rep) == Subst(s, c, rep) + Subst(t, c, rep)
  {
    if s == "" {
      assert s + t == t;
    } else {
      assert (s + t)[1..] == s[1..] + t;
      SubstAppend(s[1..], t, c, rep);
    }
  }

  // ------------------------------------------------------------------
  // Splitting what was joined

  lemma {:induction false} SplitOnText(s: string, d: char, rest: string)
    requires d !in s
    ensures SplitOn(s + rest, [d]) == Glue(s, SplitOn(rest, [d]))
  {
    var r := SplitOn(rest, [d]);
    if s == "" {
      assert s + rest == rest;
      GlueGlue("", "", r);
    } else {
      assert (s + rest)[..1] == [s[0]] && (s + rest)[1..] == s[1..] + rest;
      assert s[0] in s && d != s[0];
      SplitOnText(s[1..], d, rest);
      GlueGlue([s[0]], s[1..], r);
      assert [s[0]] + s[1..] == s;
    }
  }

  lemma {:induction false} SplitOnJoin(parts: seq<string>, d: char)
    requires parts != [] && forall i :: 0 <= i < |parts| ==> d !in parts[i]
    ensures SplitOn(Join([d], parts), [d]) == parts
  {
    if |parts| == 1 {
      SplitOnText(parts[0], d, "");
      assert parts[0] + "" == parts[0];
    } else {
      var rest := [d] + Join([d], parts[1..]);
      assert parts[0] + [d] + Join([d], parts[1..]) == parts[0] + rest;
      SplitOnText(parts[0], d, rest);
      assert rest[..1] == [d] && rest[1..] == Join([d], parts[1..]);
      SplitOnJoin(parts[1..], d);
      assert parts[0] + "" == parts[0];
      assert SplitOn(rest, [d]) == [""] + parts[1..];
    }
  }

  // The parts of a text around a delimiter are those before it and those after it.
  lemma {:induction false} SplitOnBlock(s: string, d: char, rest: string)
    ensures SplitOn(s + [d] + rest, [d]) == SplitOn(s, [d]) + SplitOn(rest, [d])
  {
    var all := s + [d] + rest;
    if s == "" {
      assert all[..1] == [d] && all[1..] == rest;
    } else {
      assert all[..1] == [s[0]] && all[1..] == s[1..] + [d] + rest && s[..1] == [s[0]];
      SplitOnBlock(s[1..], d, rest);
      if s[0] == d {
        assert [""] + (SplitOn(s[1..], [d]) + SplitOn(rest, [d])) == [""] + SplitOn(s[1..], [d]) + SplitOn(rest, [d]);
      } else {
        GlueAppend([s[0]], SplitOn(s[1..], [d]), SplitOn(rest, [d]));
      }
    }
  }

  ghost predicate Holds(parts: seq<string>, c: char) {
    exists i :: 0 <= i < |parts| && c in parts[i]
  }

  lemma {:induction false} HoldsCons(p: string, parts: seq<string>, c: char)
    ensures Holds([p] + parts, c) <==> c in p || Holds(parts, c)
  {
    var r := [p] + parts;
    if c in p {
      assert c in r[0];
    }
    if i :| 0 <= i < |parts| && c in parts[i] {
      assert c in r[i + 1];
    }
    if i :| 0 <= i < |r| && c in r[i] {
      assert i > 0 ==> c in parts[i - 1];
    }
  }

  // The parts hold no delimiter, and between them exactly the other characters.
  lemma {:induction false} SplitOnChars(s: string, d: char, c: char)
    ensures Holds(SplitOn(s, [d]), c) <==> c in s && c != d
  {
    if s == "" {
      HoldsCons(s, [], c);
      assert [s] + [] == [s];
    } else {
      assert s[..1] == [s[0]] && s == [s[0]] + s[1..];
      var t := SplitOn(s[1..], [d]);
      SplitOnChars(s[1..], d, c);
      HoldsCons("", t, c);
      HoldsCons(t[0], t[1..], c);
      HoldsCons([s[0]] + t[0], t[1..], c);
      assert t == [t[0]] + t[1..];
    }
  }

  // ------------------------------------------------------------------
  // Lines that were joined by newlines

  lemma {:induction false} SplitLinesText(s: string, rest: string)
    requires BreakFree(s)
    ensures var r := SplitLines(rest);
      SplitLines(s + rest) == if r == [] then (if s == "" then [] else [s]) else Glue(s, r)
  {
    if s == "" {
      assert s + rest == rest;
      if SplitLines(rest) != [] {
        GlueGlue("", "", SplitLines(rest));
      }
    } else {
      assert s[0] in s;
      assert (s + rest)[1..] == s[1..] + rest;
      assert forall c :: c in s[1..] ==> c in s;
      SplitLinesText(s[1..], rest);
      assert [s[0]] + s[1..] == s;
      if SplitLines(rest) != [] {
        GlueGlue([s[0]], s[1..], SplitLines(rest));
      } else if s[1..] != "" {
        assert SplitLines(s + rest) == Glue([s[0]], [s[1..]]);
      } else {
        assert [s[0]] == s;
      }
    }
  }

  lemma {:induction false} SplitLinesCons(line: string, rest: string)
    requires BreakFree(line)
    ensures SplitLines(line + "\n" + rest) == [line] + SplitLines(rest)
  {
    var tail := "\n" + rest;
    assert line + "\n" + rest == line + tail;
    assert tail[0] == '\n' && tail[1..] == rest;
    SplitLinesText(line, tail);
    GlueHead(line, SplitLines(rest));
  }

  lemma {:induction false} SomeLines(s: string)
    requires s != ""
    ensures SplitLines(s) != []
  {
  }

  // Whatever stands before a newline, the lines up to it and those after it are apart.
  lemma {:induction false} SplitLinesBlock(s: string, rest: string)
    ensures SplitLines(s + "\n" + rest) == SplitLines(s + "\n") + SplitLines(rest)
    decreases |s|
  {
    var all, block := s + "\n" + rest, s + "\n";
    if s == "" {
      assert all[1..] == rest && block[1..] == "";
    } else if IsBreak(s[0]) {
      var n := if s[0] == '\r' && block[1] == '\n' then 2 else 1;
      assert all[1] == block[1];
      if |s| < n {
        assert all[2..] == rest && block[2..] == "";
      } else {
        assert all[n..] == s[n..] + "\n" + rest && block[n..] == s[n..] + "\n";
        SplitLinesBlock(s[n..], rest);
        assert [""] + (SplitLines(block[n..]) + SplitLines(rest)) == [""] + SplitLines(block[n..]) + SplitLines(rest);
      }
    } else {
      assert all[1..] == s[1..] + "\n" + rest && block[1..] == s[1..] + "\n";
      SplitLinesBlock(s[1..], rest);
      SomeLines(block[1..]);
      GlueAppend([s[0]], SplitLines(block[1..]), SplitLines(rest));
    }
  }

  // A line ends at any of ten characters.
  lemma {:induction false} BreakCodes(c: char)
    ensures IsBreak(c) <==> c as int in {10, 11, 12, 13, 28, 29, 30, 133, 8232, 8233}
  {
  }

  // A carriage return and a newline after it end one line, any other boundary ends one
  // by itself.
  lemma {:induction false} SplitLinesAt(line: string, c: char, rest: string)
    requires BreakFree(line) && IsBreak(c)
    ensures SplitLines(line + [c] + rest) ==
      [line] + SplitLines(if c as int == 13 && rest != "" && rest[0] as int == 10 then rest[1..] else rest)
  {
    var tail := [c] + rest;
    assert line + [c] + rest == line + tail && tail[1..] == rest;
    if rest != "" {
      assert tail[1] == rest[0] && tail[2..] == rest[1..];
    }
    SplitLinesText(line, tail);
    GlueHead(line, SplitLines(if c as int == 13 && rest != "" && rest[0] as int == 10 then rest[1..] else rest));
  }

  ghost predicate AllBreakFree(lines: seq<string>) {
    forall i {:trigger BreakFree(lines[i])} :: 0 <= i < |lines| ==> BreakFree(lines[i])
  }

  // All lines come back, except that an empty last line is lost.
  lemma {:induction false} SplitLinesJoin(lines: seq<string>)
    requires lines != [] && AllBreakFree(lines)
    ensures SplitLines(Join("\n", lines)) == if lines[|lines| - 1] == "" then lines[..|lines| - 1] else lines
  {
    assert BreakFree(lines[0]);
    if |lines| == 1 {
      SplitOneLine(lines[0]);
    } else {
      var rest := lines[1..];
      forall i | 0 <= i < |rest|
        ensures BreakFree(rest[i])
      {
        assert BreakFree(lines[i + 1]);
      }
      SplitLinesCons(lines[0], Join("\n", rest));
      SplitLinesJoin(rest);
      assert lines == [lines[0]] + rest;
      assert lines[..|lines| - 1] == [lines[0]] + rest[..|rest| - 1];
    }
  }

  lemma {:induction false} SplitOneLine(line: string)
    requires BreakFree(line)
    ensures SplitLines(line) == if line == "" then [] else [line]
  {
    SplitLinesText(line, "");
    assert line + "" == line;
  }

  // No line holds a break, and lines hold only characters of the text.
  lemma {:induction false} SplitLinesChars(s: string, i: nat)
    requires i < |SplitLines(s)|
    ensures BreakFree(SplitLines(s)[i]) && forall c :: c in SplitLines(s)[i] ==> c in s
  {
    if IsBreak(s[0]) {
      var t := if s[0] == '\r' && |s| > 1 && s[1] == '\n' then s[2..] else s[1..];
      if i > 0 {
        SplitLinesChars(t, i - 1);
        assert forall c :: c in t ==> c in s;
      }
    } else {
      var r := SplitLines(s[1..]);
      if r != [] {
        SplitLinesChars(s[1..], i);
      }
      assert forall c :: c in s[1..] ==> c in s;
      assert s[0] in s;
    }
  }
}
