// The text form in which an adapter hands a manifest's unpinned dependencies to the walk.
module DeclaredDeps {
  import opened Text

  datatype DeclaredDep = DeclaredDep(name: string, constraint: string)

  // What the line format can carry.
  predicate Encodable(d: DeclaredDep) {
    d.name != "" && '\t' !in d.name && '\n' !in d.name && '\n' !in d.constraint
  }

  function Line(d: DeclaredDep): string {
    d.name + "\t" + d.constraint + "\n"
  }

  // Entries that would corrupt the format are skipped.
  function Encoded(deps: seq<DeclaredDep>): string {
    if deps == [] then ""
    else Encoded(deps[..|deps| - 1]) + (if Encodable(deps[|deps| - 1]) then Line(deps[|deps| - 1]) else "")
  }

  // One line back: everything after the first tab is the constraint; a nameless line says nothing.
  function FromLine(line: string): seq<DeclaredDep> {
    if line == "" then []
    else
      var i := IndexOf(line, '\t');
      if i < 0 then [DeclaredDep(line, "")]
      else if i == 0 then []
      else [DeclaredDep(line[..i], line[i + 1..])]
  }

  function FromLines(lines: seq<string>): seq<DeclaredDep> {
    if lines == [] then [] else FromLines(lines[..|lines| - 1]) + FromLine(lines[|lines| - 1])
  }

  function Decoded(s: string): seq<DeclaredDep> {
    FromLines(Split(s, '\n'))
  }

  function Kept(deps: seq<DeclaredDep>): seq<DeclaredDep> {
    if deps == [] then []
    else Kept(deps[..|deps| - 1]) + (if Encodable(deps[|deps| - 1]) then [deps[|deps| - 1]] else [])
  }

  method Encode(deps: seq<DeclaredDep>) returns (s: string)
    ensures s == Encoded(deps)
  {
    s := "";
    for i := 0 to |deps|
      invariant s == Encoded(deps[..i])
    {
      var d := deps[i];
      assert deps[..i + 1][..i] == deps[..i];
      if d.name == "" || '\t' in d.name || '\n' in d.name || '\n' in d.constraint {
        assert deps[..i + 1][i] == d && !Encodable(d);
        continue;
      }
      var was := s;
      s := s + d.name;
      s := s + "\t";
      s := s + d.constraint;
      s := s + "\n";
      assert s == was + Line(d);
    }
    assert deps[..|deps|] == deps;
  }

  method Decode(s: string) returns (deps: seq<DeclaredDep>)
    ensures deps == Decoded(s)
  {
    deps := [];
    var lines := Split(s, '\n');
    for i := 0 to |lines|
      invariant deps == FromLines(lines[..i])
    {
      var line := lines[i];
      assert lines[..i + 1][..i] == lines[..i];
      if line == "" {
        continue;
      }
      var tab := IndexOf(line, '\t');
      var name := if tab < 0 then line else line[..tab];
      var constraint := if tab < 0 then "" else line[tab + 1..];
      if name != "" {
        deps := deps + [DeclaredDep(name, constraint)];
      }
    }
    assert lines[..|lines|] == lines;
  }

  lemma {:induction false} FromLinesAppend(a: seq<string>, b: seq<string>)
    ensures FromLines(a + b) == FromLines(a) + FromLines(b)
  {
    if b == [] {
      assert a + b == a;
    } else {
      assert (a + b)[..|a + b| - 1] == a + b[..|b| - 1];
      FromLinesAppend(a, b[..|b| - 1]);
    }
  }

  lemma LineRoundTrip(d: DeclaredDep)
    requires Encodable(d)
    ensures FromLine(d.name + "\t" + d.constraint) == [d]
  {
    var line := d.name + "\t" + d.constraint;
    FirstIndex(d.name, '\t', d.constraint);
    assert line == d.name + ['\t'] + d.constraint;
    assert line[..|d.name|] == d.name && line[|d.name| + 1..] == d.constraint;
  }

  lemma FromOneLine(line: string)
    ensures FromLines([line]) == FromLine(line)
  {
    assert FromLines([]) == [];
  }

  // A complete prefix of lines decodes on its own: the text after its last newline starts afresh.
  lemma DecodeExtends(s: string, line: string)
    requires s == "" || s[|s| - 1] == '\n'
    requires '\n' !in line
    ensures Decoded(s + line + "\n") == Decoded(s) + FromLine(line)
  {
    hide Split, FromLines, FromLine;
    var before: seq<string> := [];
    if s == "" {
      SplitWhole(line, '\n');
      SplitWhole("", '\n');
      assert s + line == line;
    } else {
      var t := s[..|s| - 1];
      before := Split(t, '\n');
      assert s == t + ['\n'] + "" && s + line == t + ['\n'] + line;
      SplitLast(t, '\n', "");
      SplitLast(t, '\n', line);
    }
    assert Split(s, '\n') == before + [""] && Split(s + line, '\n') == before + [line];
    SplitLast(s + line, '\n', "");
    assert s + line + "\n" == s + line + ['\n'] + "";
    FromLinesAppend(before, [""]);
    FromLinesAppend(before, [line]);
    FromLinesAppend(before + [line], [""]);
    FromOneLine(line);
    FromOneLine("");
    NothingFromNothing();
  }

  lemma NothingFromNothing()
    ensures FromLine("") == []
  {
  }

  lemma {:induction false} EncodedEndsInNewline(deps: seq<DeclaredDep>)
    ensures Encoded(deps) == "" || Encoded(deps)[|Encoded(deps)| - 1] == '\n'
  {
    if deps != [] {
      EncodedEndsInNewline(deps[..|deps| - 1]);
    }
  }

  // The walk reads back exactly the entries the format can carry: order and repeats kept, tabs
  // inside constraints preserved.
  lemma {:induction false} RoundTrip(deps: seq<DeclaredDep>)
    ensures Decoded(Encoded(deps)) == Kept(deps)
  {
    if deps == [] {
      SplitWhole("", '\n');
      FromOneLine("");
    } else {
      var init, d := deps[..|deps| - 1], deps[|deps| - 1];
      RoundTrip(init);
      if Encodable(d) {
        hide Decoded, FromLine;
        var line := d.name + "\t" + d.constraint;
        EncodedEndsInNewline(init);
        LineRoundTrip(d);
        DecodeExtends(Encoded(init), line);
        assert Line(d) == line + "\n";
        assert Encoded(deps) == Encoded(init) + line + "\n";
      } else {
        assert Encoded(deps) == Encoded(init);
      }
    }
  }

  // Nothing but the unencodable is lost, so encoding is faithful exactly on encodable lists.
  lemma {:induction false} KeepsAllExactly(deps: seq<DeclaredDep>)
    ensures Kept(deps) == deps <==> forall i :: 0 <= i < |deps| ==> Encodable(deps[i])
    ensures |Kept(deps)| <= |deps|
  {
    if deps != [] {
      KeepsAllExactly(deps[..|deps| - 1]);
      assert deps == deps[..|deps| - 1] + [deps[|deps| - 1]];
    }
  }

  // Whatever text the attribute holds, what is read from it can be written back.
  lemma DecodedIsEncodable(s: string)
    ensures forall i :: 0 <= i < |Decoded(s)| ==> Encodable(Decoded(s)[i])
    ensures Decoded(Encoded(Decoded(s))) == Decoded(s)
  {
    PiecesHoldNoSeparator(s, '\n');
    FromLinesEncodable(Split(s, '\n'));
    KeepsAllExactly(Decoded(s));
    RoundTrip(Decoded(s));
  }

  lemma {:induction false} FromLinesEncodable(lines: seq<string>)
    requires forall k :: 0 <= k < |lines| ==> '\n' !in lines[k]
    ensures forall i :: 0 <= i < |FromLines(lines)| ==> Encodable(FromLines(lines)[i])
  {
    if lines != [] {
      FromLinesEncodable(lines[..|lines| - 1]);
    }
  }

  // ----- The lines, in characters -----

  // An entry is written as its name, a tab, its constraint and a newline, after those before it; one with
  // an empty name, a tab or a newline in the name, or a newline in the constraint is not.
  lemma WrittenInText(deps: seq<DeclaredDep>, name: string, constraint: string)
    ensures Encoded(deps + [DeclaredDep(name, constraint)]) ==
            Encoded(deps) + (if name != "" && '\t' !in name && '\n' !in name && '\n' !in constraint then
                               name + "\t" + constraint + "\n"
                             else "")
    ensures Encoded([]) == ""
  {
    var d := DeclaredDep(name, constraint);
    assert (deps + [d])[..|deps|] == deps;
  }

  // A line is read up to its newline: what stands before the first tab is the name, all after it the
  // constraint; a line without a tab has none, and one without a name says nothing.
  lemma ReadInText(name: string, constraint: string, rest: string)
    requires '\t' !in name && '\n' !in name && '\n' !in constraint
    ensures Decoded(name + "\t" + constraint + "\n" + rest) ==
            (if name != "" then [DeclaredDep(name, constraint)] else []) + Decoded(rest)
    ensures Decoded(name + "\n" + rest) == (if name != "" then [DeclaredDep(name, "")] else []) + Decoded(rest)
    ensures Decoded("") == []
  {
    var line := name + "\t" + constraint;
    assert line == name + ['\t'] + constraint;
    LineIsRead(line, rest);
    LineIsRead(name, rest);
    FirstIndex(name, '\t', constraint);
    assert line[..|name|] == name && line[|name| + 1..] == constraint;
    assert FromLine(name) == if name != "" then [DeclaredDep(name, "")] else [];
    assert Decoded("") == FromLines([""]);
    hide Decoded, IndexOf;
  }

  lemma LineIsRead(line: string, rest: string)
    requires '\n' !in line
    ensures Decoded(line + "\n" + rest) == FromLine(line) + Decoded(rest)
  {
    SplitFirst(line, '\n', rest);
    assert line + "\n" + rest == line + ['\n'] + rest;
    FirstLine(line, Split(rest, '\n'));
    hide Split, FromLine;
  }

  lemma {:induction false} FirstLine(line: string, lines: seq<string>)
    ensures FromLines([line] + lines) == FromLine(line) + FromLines(lines)
  {
    hide FromLine;
    var all := [line] + lines;
    if lines == [] {
      assert all[..0] == [] && all[0] == line;
    } else {
      FirstLine(line, lines[..|lines| - 1]);
      assert all[..|all| - 1] == [line] + lines[..|lines| - 1];
    }
  }
}
