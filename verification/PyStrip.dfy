// What the strippers lose, what they never lose, and where the documentation promises more
// than that.
module PyStrip {
  import opened PyScan

  // ----- Dropping comments and a docstring -----

  // What stands at the cut decides the kind of segment.
  lemma KindOf(src: string, before: seq<Segment>, g: Segment)
    requires InertNext(src, before, g)
    ensures var o := |Flat(before)|;
            && (g.Docstring? <==> DropsHere(src, before))
            && (g.Comment? <==> src[o] == '#')
            && (g.Copied? ==> IsQuote(src[o]))
            && (g.Plain? ==> g.c == src[o] && !IsQuote(src[o]))
  {
    var o := |Flat(before)|;
    if src[o] == '#' {
      NoCommentOpens(src, o);
    }
    hide StringEnd, StringOpen;
    if g.Plain? {
      assert src[o] == src[o..o + |TextOf(g)|][0];
    }
  }

  // Two cuts of one text that agree so far agree on the next segment.
  lemma NextIsUnique(src: string, before: seq<Segment>, g: Segment, h: Segment)
    requires InertNext(src, before, g) && InertNext(src, before, h)
    ensures g == h
  {
    KindOf(src, before, g);
    KindOf(src, before, h);
    hide DropsHere, StringEnd, StringOpen;
    var o := |Flat(before)|;
    if g.Comment? && h.Comment? {
      SameLine(src, o, o + |g.text|, o + |h.text|);
    }
  }

  lemma SameLine(src: string, o: nat, a: nat, b: nat)
    requires o <= a <= |src| && o <= b <= |src| && '\n' !in src[o..a] && '\n' !in src[o..b]
    requires (a == |src| || src[a] == '\n') && (b == |src| || src[b] == '\n')
    ensures a == b
  {
    forall p | o <= p < a || o <= p < b
      ensures src[p] != '\n'
    {
      assert p < a ==> src[o..a][p - o] == src[p];
      assert p < b ==> src[o..b][p - o] == src[p];
    }
  }

  lemma {:induction false} CutsAgree(src: string, a: seq<Segment>, b: seq<Segment>, k: nat)
    requires InertCut(src, a) && InertCut(src, b) && k <= |a| && k <= |b|
    ensures a[..k] == b[..k]
  {
    hide InertNext;
    if k > 0 {
      CutsAgree(src, a, b, k - 1);
      InertCutAt(src, a, k - 1);
      InertCutAt(src, b, k - 1);
      NextIsUnique(src, a[..k - 1], a[k - 1], b[k - 1]);
      assert a[..k] == a[..k - 1] + [a[k - 1]] && b[..k] == b[..k - 1] + [b[k - 1]];
    }
  }

  // A text has one cut, so the stripped text is determined.
  lemma InertCutIsUnique(src: string, a: seq<Segment>, b: seq<Segment>)
    requires InertCut(src, a) && InertCut(src, b) && Flat(a) == src && Flat(b) == src
    ensures a == b
  {
    hide InertCut, Flat;
    assert a[..|a|] == a && b[..|b|] == b;
    if |a| <= |b| {
      CutsAgree(src, a, b, |a|);
      NothingFollows(src, b, |a|);
    } else {
      CutsAgree(src, a, b, |b|);
      NothingFollows(src, a, |b|);
    }
  }

  lemma NothingFollows(src: string, segs: seq<Segment>, k: nat)
    requires InertCut(src, segs) && k <= |segs| && Flat(segs[..k]) == src
    ensures k == |segs| && segs[..k] == segs
  {
    hide Flat, DropsHere, StringEnd;
    forall j | 0 <= j < |segs|
      ensures |Flat(segs[..j])| < |src|
    {
      InertCutAt(src, segs, j);
    }
  }

  lemma InertIsUnique(src: string, a: string, b: string)
    requires IsInert(src, a) && IsInert(src, b)
    ensures a == b
  {
    hide InertCut, Flat, Output;
    var s :| InertCut(src, s) && Flat(s) == src && Output(s) == a;
    var t :| InertCut(src, t) && Flat(t) == src && Output(t) == b;
    InertCutIsUnique(src, s, t);
  }

  ghost predicate Subsequence(a: string, b: string) {
    || a == ""
    || (b != "" && a[|a| - 1] == b[|b| - 1] && Subsequence(a[..|a| - 1], b[..|b| - 1]))
    || (b != "" && Subsequence(a, b[..|b| - 1]))
  }

  lemma {:induction false} SubsequenceKeeps(a: string, b: string, t: string)
    requires Subsequence(a, b)
    ensures Subsequence(a + t, b + t)
    decreases |t|
  {
    if t == "" {
      assert a + t == a && b + t == b;
    } else {
      SubsequenceKeeps(a, b, t[..|t| - 1]);
      assert (a + t)[..|a + t| - 1] == a + t[..|t| - 1] && (b + t)[..|b + t| - 1] == b + t[..|t| - 1];
    }
  }

  lemma {:induction false} SubsequenceDrops(a: string, b: string, t: string)
    requires Subsequence(a, b)
    ensures Subsequence(a, b + t)
    decreases |t|
  {
    if t == "" {
      assert b + t == b;
    } else {
      SubsequenceDrops(a, b, t[..|t| - 1]);
      assert (b + t)[..|b + t| - 1] == b + t[..|t| - 1];
    }
  }

  lemma {:induction false} OutputIsSubsequence(segs: seq<Segment>)
    requires forall k :: 0 <= k < |segs| ==> !segs[k].Blanked?
    ensures Subsequence(Output(segs), Flat(segs))
  {
    if segs != [] {
      var init, g := segs[..|segs| - 1], segs[|segs| - 1];
      OutputIsSubsequence(init);
      if OutputOf(g) == "" {
        SubsequenceDrops(Output(init), Flat(init), TextOf(g));
        assert Output(init) + "" == Output(init);
      } else {
        SubsequenceKeeps(Output(init), Flat(init), TextOf(g));
      }
    }
  }

  // Nothing is reordered or invented, and besides comments at most one literal is lost.
  lemma LittleIsLost(src: string, segs: seq<Segment>)
    requires InertCut(src, segs) && Flat(segs) == src
    ensures Subsequence(Output(segs), src)
    ensures forall j, k :: 0 <= j < k < |segs| ==> !(segs[j].Docstring? && segs[k].Docstring?)
    ensures forall k :: 0 <= k < |segs| && OutputOf(segs[k]) != TextOf(segs[k]) ==>
              segs[k].Comment? || segs[k].Docstring?
  {
    forall k | 0 <= k < |segs|
      ensures segs[k].Comment? || segs[k].Docstring? || segs[k].Copied? || segs[k].Plain?
    {
      InertCutAt(src, segs, k);
    }
    OutputIsSubsequence(segs);
    forall j, k | 0 <= j < k < |segs|
      ensures !(segs[j].Docstring? && segs[k].Docstring?)
    {
      InertCutAt(src, segs, k);
      assert segs[..k][j] == segs[j];
    }
  }

  // Blanks, newlines and comments only.
  predicate IsBlank(g: Segment) {
    g.Comment? || (g.Plain? && (g.c == '\n' || g.c == ' ' || g.c == '\t' || g.c == '\r'))
  }

  ghost predicate Leading(segs: seq<Segment>, k: nat)
    requires k <= |segs|
  {
    forall j :: 0 <= j < k ==> IsBlank(segs[j])
  }

  // A literal opens after the first k segments, where the scanner believes a statement starts.
  ghost predicate OpensStatement(src: string, segs: seq<Segment>, k: nat)
    requires k <= |segs|
  {
    StartsStatement(segs[..k]) && |Flat(segs[..k])| <= |src| && StringOpen(src, |Flat(segs[..k])|) >= 0
  }

  lemma {:induction false} LeadingStarts(segs: seq<Segment>)
    requires Leading(segs, |segs|)
    ensures StartsStatement(segs)
  {
    if segs != [] {
      LeadingStarts(segs[..|segs| - 1]);
    }
  }

  // Where a literal opens a statement, it or an earlier one is dropped.
  lemma OneIsDropped(src: string, segs: seq<Segment>, k: nat)
    requires InertCut(src, segs) && k < |segs| && OpensStatement(src, segs, k)
    ensures exists j :: 0 <= j <= k && segs[j].Docstring?
  {
    InertCutAt(src, segs, k);
    KindOf(src, segs[..k], segs[k]);
    hide InertNext, InertCut, StringOpen, StartsStatement, Flat;
    if HasDocstring(segs[..k]) {
      var j :| 0 <= j < k && segs[..k][j].Docstring?;
      assert segs[j].Docstring?;
    } else {
      assert segs[k].Docstring?;
    }
  }

  lemma NoCommentOpens(src: string, o: nat)
    requires o < |src| && src[o] == '#'
    ensures StringOpen(src, o) < 0
  {
  }

  // Nothing but blanks from i to the end of the statement.
  predicate EndsStatement(src: string, i: nat)
    requires i <= |src|
    decreases |src| - i
  {
    i == |src| || src[i] in "\n;#" || (src[i] in " \t\r" && EndsStatement(src, i + 1))
  }

  // The literal at p is a whole statement, and neither formatted nor bytes.
  predicate IsBareString(src: string, p: nat)
    requires p <= |src| && StringOpen(src, p) >= 0
  {
    var q := StringOpen(src, p);
    (forall i :: p <= i < q ==> src[i] !in "fFbB") && EndsStatement(src, StringEnd(src, q))
  }

  // The module docstring opens after the first k segments: a bare string with nothing but blanks and
  // comments before it.
  ghost predicate OpensDocstring(src: string, segs: seq<Segment>, k: nat)
    requires k <= |segs|
  {
    Leading(segs, k) && OpensStatement(src, segs, k) && IsBareString(src, |Flat(segs[..k])|)
  }

  // A module docstring is what is dropped.
  lemma DocstringIsDropped(src: string, segs: seq<Segment>, k: nat)
    requires InertCut(src, segs) && k < |segs| && OpensDocstring(src, segs, k)
    ensures segs[k].Docstring?
  {
    hide StartsStatement, StringOpen, InertCut, IsBareString, Flat;
    OneIsDropped(src, segs, k);
    var j :| 0 <= j <= k && segs[j].Docstring?;
    assert j < k ==> IsBlank(segs[j]);
  }

  // The documentation promises that only the module docstring is dropped.  That holds exactly when the
  // text begins with one, or no literal anywhere opens a line.
  lemma OnlyTheDocstringExactly(src: string, segs: seq<Segment>)
    requires InertCut(src, segs) && Flat(segs) == src
    ensures (forall k :: 0 <= k < |segs| && segs[k].Docstring? ==> OpensDocstring(src, segs, k)) <==>
              || (exists k :: 0 <= k < |segs| && OpensDocstring(src, segs, k))
              || (forall k :: 0 <= k < |segs| ==> !OpensStatement(src, segs, k))
  {
    hide StartsStatement, StringOpen, InertNext, IsBlank, IsBareString;
    LittleIsLost(src, segs);
    forall k | 0 <= k < |segs| && segs[k].Docstring?
      ensures OpensStatement(src, segs, k)
    {
      DocstringOpens(src, segs, k);
    }
    if k :| 0 <= k < |segs| && OpensStatement(src, segs, k) {
      OneIsDropped(src, segs, k);
    }
    if k :| 0 <= k < |segs| && OpensDocstring(src, segs, k) {
      DocstringIsDropped(src, segs, k);
    }
  }

  lemma DocstringOpens(src: string, segs: seq<Segment>, k: nat)
    requires InertCut(src, segs) && k < |segs| && segs[k].Docstring?
    ensures OpensStatement(src, segs, k)
  {
    InertCutAt(src, segs, k);
    hide StringOpen, StringEnd, StartsStatement;
  }

  // A call argument on its own line is dropped: of
  //   (
  //   'x'
  // only the parenthesis and the newline are kept.
  lemma ArgumentIsDropped()
    ensures IsInert("(\n'x'", "(\n")
  {
    var src := "(\n'x'";
    var a, b, c := Plain('('), Plain('\n'), Docstring("'x'");
    ArgumentText(a, b, c);
    hide Flat, Output, InertCut, InertNext;
    ArgumentParens(src, a, b);
    LiteralFits(src, a, b);
    CutOfThree(src, a, b, c);
  }

  lemma ArgumentParens(src: string, a: Segment, b: Segment)
    requires src == "(\n'x'" && a == Plain('(') && b == Plain('\n') && Flat([]) == "" && Flat([a]) == "("
    ensures InertNext(src, [], a) && InertNext(src, [a], b)
  {
    hide Flat, InertNext;
    PlainFits(src, [], a);
    PlainFits(src, [a], b);
  }

  lemma CutOfThree(src: string, a: Segment, b: Segment, c: Segment)
    requires InertNext(src, [], a) && InertNext(src, [a], b) && InertNext(src, [a, b], c)
    ensures InertCut(src, [a, b, c])
  {
    assert InertCut(src, []);
    hide InertNext, InertCut;
    assert [] + [a] == [a] && [a] + [b] == [a, b] && [a, b] + [c] == [a, b, c];
    InertAppends(src, [], a);
    InertAppends(src, [a], b);
    InertAppends(src, [a, b], c);
  }

  lemma ArgumentText(a: Segment, b: Segment, c: Segment)
    requires a == Plain('(') && b == Plain('\n') && c == Docstring("'x'")
    ensures Flat([]) == "" && Flat([a]) == "(" && Flat([a, b]) == "(\n" && Flat([a, b, c]) == "(\n'x'"
    ensures Output([a, b, c]) == "(\n"
  {
    assert Flat([]) == "" && Output([]) == "";
    hide Flat, Output;
    Appended([], a);
    Appended([a], b);
    Appended([a, b], c);
    assert [] + [a] == [a] && [a] + [b] == [a, b] && [a, b] + [c] == [a, b, c];
  }

  lemma PlainFits(src: string, before: seq<Segment>, g: Segment)
    requires |Flat(before)| < |src| && g == Plain(src[|Flat(before)|]) && !IsPrefixLetter(g.c) && !IsQuote(g.c) &&
             g.c != '#'
    ensures InertNext(src, before, g)
  {
    var o := |Flat(before)|;
    assert src[o..o + 1] == [src[o]];
    assert StringOpen(src, o) == -1;
    hide Flat, StringOpen;
  }

  lemma LiteralFits(src: string, a: Segment, b: Segment)
    requires src == "(\n'x'" && a == Plain('(') && b == Plain('\n') && Flat([a, b]) == "(\n"
    ensures InertNext(src, [a, b], Docstring("'x'"))
  {
    assert StringOpen(src, 2) == 2;
    assert src[2..5] == "'x'";
    assert SingleEnd(src, '\'', 3) == SingleEnd(src, '\'', 4) == 5;
    assert StringEnd(src, 2) == 5;
    hide StringOpen, StringEnd, Flat;
    assert StartsStatement([a, b]) && !HasDocstring([a, b]);
  }

  // So is a formatted string, calls and all: f'{x()}' runs x.
  lemma FormattedIsDropped()
    ensures IsInert("f'{x()}'", "")
  {
    FormattedCut("f'{x()}'");
  }

  lemma FormattedCut(src: string)
    requires src == "f'{x()}'"
    ensures IsInert(src, "")
  {
    var g := Docstring(src);
    assert Flat([]) == "" && Output([]) == "" && InertCut(src, []) && [] + [g] == [g];
    FormattedFits(src, g);
    Appended([], g);
    hide Flat, Output, InertNext, InertCut;
    assert "" + src == src && "" + "" == "";
    InertAppends(src, [], g);
  }

  // It begins the text, but is no bare string.
  lemma FormattedFits(src: string, g: Segment)
    requires src == "f'{x()}'" && g == Docstring(src)
    ensures InertNext(src, [], g)
    ensures OpensStatement(src, [], 0) && !IsBareString(src, 0)
  {
    assert StringOpen(src, 0) == 1 by {
      assert SkipPrefix(src, 0, 2) == SkipPrefix(src, 1, 2);
    }
    assert StringEnd(src, 1) == 8 by {
      assert SingleEnd(src, '\'', 2) == SingleEnd(src, '\'', 4) == SingleEnd(src, '\'', 6) == SingleEnd(src, '\'', 7) ==
             8;
    }
    assert src[0..8] == src && src[0] in "fFbB";
    assert Flat([]) == "";
    hide StringOpen, StringEnd, Flat;
    assert StartsStatement([]) && !HasDocstring([]);
  }
}
