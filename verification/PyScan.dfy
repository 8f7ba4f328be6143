// The hand-written scanners that tell Python code from text, ahead of capability scanning.
module PyScan {

  // ----- String literals -----

  predicate IsPrefixLetter(c: char) {
    c in "rRbBuUfF"
  }

  predicate IsQuote(c: char) {
    c == '"' || c == '\''
  }

  // Up to two prefix letters from i on.
  function SkipPrefix(s: string, i: nat, limit: nat): (j: nat)
    requires i <= |s| && i <= limit
    ensures i <= j <= |s| && j <= limit
    decreases limit - i
  {
    if i < limit && i < |s| && IsPrefixLetter(s[i]) then SkipPrefix(s, i + 1, limit) else i
  }

  // The opening quote of a literal that begins at i, or -1.
  function StringOpen(s: string, i: nat): (q: int)
    requires i <= |s|
    ensures q == -1 || (i <= q < |s| && q <= i + 2 && IsQuote(s[q]) && forall k :: i <= k < q ==> IsPrefixLetter(s[k]))
  {
    var j := SkipPrefix(s, i, i + 2);
    PrefixOnly(s, i, i + 2);
    if j < |s| && IsQuote(s[j]) then j else -1
  }

  lemma {:induction false} PrefixOnly(s: string, i: nat, limit: nat)
    requires i <= |s| && i <= limit
    ensures forall k :: i <= k < SkipPrefix(s, i, limit) ==> IsPrefixLetter(s[k])
    decreases limit - i
  {
    if i < limit && i < |s| && IsPrefixLetter(s[i]) {
      PrefixOnly(s, i + 1, limit);
    }
  }

  method PyStringOpen(s: string, i: nat) returns (q: int)
    requires i <= |s|
    ensures q == StringOpen(s, i)
  {
    var j := i;
    while j < i + 2 && j < |s|
      invariant i <= j <= |s| && j <= i + 2
      invariant SkipPrefix(s, i, i + 2) == SkipPrefix(s, j, i + 2)
    {
      if IsPrefixLetter(s[j]) {
        j := j + 1;
        continue;
      }
      break;
    }
    if j < |s| && (s[j] == '"' || s[j] == '\'') {
      return j;
    }
    return -1;
  }

  // Just past a single-quoted body: its closing quote, or the newline or end that cuts it short.
  function SingleEnd(s: string, q: char, i: nat): (e: nat)
    ensures e <= |s| && (i <= |s| ==> i <= e)
    decreases |s| - i
  {
    if i >= |s| then |s|
    else if s[i] == '\\' then SingleEnd(s, q, i + 2)
    else if s[i] == q then i + 1
    else if s[i] == '\n' then i
    else SingleEnd(s, q, i + 1)
  }

  function TripleEnd(s: string, q: char, i: nat): (e: nat)
    ensures e <= |s| && (i <= |s| ==> i <= e)
    decreases |s| - i
  {
    if i >= |s| then |s|
    else if s[i] == '\\' then TripleEnd(s, q, i + 2)
    else if s[i] == q && i + 2 < |s| && s[i + 1] == q && s[i + 2] == q then i + 3
    else TripleEnd(s, q, i + 1)
  }

  predicate IsTriple(s: string, i: nat)
    requires i < |s|
  {
    i + 2 < |s| && s[i + 1] == s[i] && s[i + 2] == s[i]
  }

  // Just past the literal whose opening quote is at i.  It always advances and never leaves the text.
  function StringEnd(s: string, i: nat): (e: nat)
    requires i < |s|
    ensures i < e <= |s|
  {
    if IsTriple(s, i) then TripleEnd(s, s[i], i + 3) else SingleEnd(s, s[i], i + 1)
  }

  method ScanPyString(s: string, start: nat) returns (e: nat)
    requires start < |s|
    ensures e == StringEnd(s, start) && start < e <= |s|
  {
    var n, i, q := |s|, start, s[start];
    if i + 2 < n && s[i + 1] == q && s[i + 2] == q {
      i := i + 3;
      while i < n
        invariant StringEnd(s, start) == TripleEnd(s, q, i)
        decreases n - i
      {
        if s[i] == '\\' {
          i := i + 2;
          continue;
        }
        if s[i] == q && i + 2 < n && s[i + 1] == q && s[i + 2] == q {
          return i + 3;
        }
        i := i + 1;
      }
      return n;
    }
    i := i + 1;
    while i < n
      invariant StringEnd(s, start) == SingleEnd(s, q, i)
      decreases n - i
    {
      if s[i] == '\\' {
        i := i + 2;
      } else if s[i] == q {
        return i + 1;
      } else if s[i] == '\n' {
        return i;
      } else {
        i := i + 1;
      }
    }
    return n;
  }

  // i can be reached from start one character at a time, an escape counting as one.
  ghost predicate Unescaped(s: string, start: nat, i: nat)
    decreases i - start
  {
    start == i || (start < i && start < |s| && Unescaped(s, if s[start] == '\\' then start + 2 else start + 1, i))
  }

  // A single-quoted literal that ends in its quote ends at the first one that is not escaped, and
  // spans no unescaped newline.
  lemma {:induction false} SingleEndIsFirst(s: string, q: char, i: nat, k: nat)
    requires q != '\n' && q != '\\' && i <= k && k + 1 <= SingleEnd(s, q, i) && Unescaped(s, i, k) && k < |s| &&
             s[k] != '\\'
    ensures s[k] != '\n'
    ensures s[k] == q ==> SingleEnd(s, q, i) == k + 1
    decreases k - i
  {
    if i < k {
      SingleEndIsFirst(s, q, if s[i] == '\\' then i + 2 else i + 1, k);
    }
  }

  // ----- Segments: how a scanner cuts its input -----

  // Plain: one character kept.  Copied: a literal kept whole.  Opener: the start of a display call.
  // Blanked: a literal whose contents are dropped.  Comment and Docstring: text dropped.
  datatype Segment =
    | Plain(c: char)
    | Copied(text: string)
    | Opener(text: string)
    | Blanked(text: string)
    | Comment(text: string)
    | Docstring(text: string)

  function TextOf(g: Segment): string {
    match g
    case Plain(c) => [c]
    case Copied(t) => t
    case Opener(t) => t
    case Blanked(t) => t
    case Comment(t) => t
    case Docstring(t) => t
  }

  function OutputOf(g: Segment): string {
    match g
    case Plain(c) => [c]
    case Copied(t) => t
    case Opener(t) => t
    case Blanked(_) => "\"\""
    case Comment(_) => ""
    case Docstring(_) => ""
  }

  // The input the segments cut up, and the output they make.
  function Flat(segs: seq<Segment>): string {
    if segs == [] then "" else Flat(segs[..|segs| - 1]) + TextOf(segs[|segs| - 1])
  }

  function Output(segs: seq<Segment>): string {
    if segs == [] then "" else Output(segs[..|segs| - 1]) + OutputOf(segs[|segs| - 1])
  }

  lemma Appended(segs: seq<Segment>, g: Segment)
    ensures Flat(segs + [g]) == Flat(segs) + TextOf(g) && Output(segs + [g]) == Output(segs) + OutputOf(g)
  {
    assert (segs + [g])[..|segs|] == segs;
  }

  lemma {:induction false} FlatPrefix(segs: seq<Segment>, k: nat)
    requires k <= |segs|
    ensures Flat(segs[..k]) <= Flat(segs)
  {
    if k == |segs| {
      assert segs[..k] == segs;
    } else {
      FlatPrefix(segs[..|segs| - 1], k);
      assert segs[..|segs| - 1][..k] == segs[..k];
    }
  }

  // ----- Dropping comments and the docstring -----

  // Whether the scanner believes a statement starts after these segments: nothing but blanks and
  // comments since the last newline outside a literal.
  predicate StartsStatement(segs: seq<Segment>) {
    if segs == [] then true
    else
      match segs[|segs| - 1]
      case Plain(c) => c == '\n' || ((c == ' ' || c == '\t' || c == '\r') && StartsStatement(segs[..|segs| - 1]))
      case Comment(_) => StartsStatement(segs[..|segs| - 1])
      case _ => false
  }

  ghost predicate HasDocstring(segs: seq<Segment>) {
    exists i :: 0 <= i < |segs| && segs[i].Docstring?
  }

  // Where the one literal is dropped: the first that opens where a statement could start.
  ghost predicate DropsHere(src: string, before: seq<Segment>) {
    var o := |Flat(before)|;
    o <= |src| && StartsStatement(before) && !HasDocstring(before) && StringOpen(src, o) >= 0
  }

  // The next segment stripPyInert cuts.
  ghost predicate InertNext(src: string, before: seq<Segment>, g: Segment) {
    var o := |Flat(before)|;
    && o < |src|
    && var end := o + |TextOf(g)|;
       && end <= |src| && TextOf(g) == src[o..end]
       && (match g
           case Docstring(_) => DropsHere(src, before) && end == StringEnd(src, StringOpen(src, o))
           case Comment(t) => src[o] == '#' && '\n' !in t && (end == |src| || src[end] == '\n')
           case Copied(_) => !DropsHere(src, before) && IsQuote(src[o]) && end == StringEnd(src, o)
           case Plain(c) => !DropsHere(src, before) && c != '#' && !IsQuote(c)
           case _ => false)
  }

  ghost predicate InertCut(src: string, segs: seq<Segment>) {
    segs != [] ==> InertCut(src, segs[..|segs| - 1]) && InertNext(src, segs[..|segs| - 1], segs[|segs| - 1])
  }

  lemma {:induction false} InertCutAt(src: string, segs: seq<Segment>, k: nat)
    requires InertCut(src, segs) && k < |segs|
    ensures InertNext(src, segs[..k], segs[k])
  {
    hide InertNext;
    var init := segs[..|segs| - 1];
    if k < |init| {
      InertCutAt(src, init, k);
      assert init[..k] == segs[..k];
    }
  }

  lemma InertAppends(src: string, segs: seq<Segment>, g: Segment)
    requires InertCut(src, segs) && InertNext(src, segs, g)
    ensures InertCut(src, segs + [g])
  {
    hide InertNext;
    assert (segs + [g])[..|segs|] == segs;
  }

  lemma DocstringAppends(segs: seq<Segment>, g: Segment)
    ensures HasDocstring(segs + [g]) <==> HasDocstring(segs) || g.Docstring?
  {
    var more := segs + [g];
    assert more[|segs|] == g;
    if HasDocstring(segs) {
      var i :| 0 <= i < |segs| && segs[i].Docstring?;
      assert more[i] == segs[i];
    }
  }

  // The loop's state mirrors the segments cut so far.
  ghost predicate InertAt(src: string, i: nat, out: string, atStart: bool, dropped: bool, segs: seq<Segment>) {
    && i <= |src| && Flat(segs) == src[..i] && Output(segs) == out
    && InertCut(src, segs) && atStart == StartsStatement(segs) && dropped == HasDocstring(segs)
  }

  lemma InertSteps(src: string, i: nat, out: string, atStart: bool, dropped: bool, segs: seq<Segment>, g: Segment,
                   end: nat)
    requires InertAt(src, i, out, atStart, dropped, segs) && i < end <= |src| && TextOf(g) == src[i..end]
    requires InertNext(src, segs, g)
    ensures InertAt(src, end, out + OutputOf(g), StartsStatement(segs + [g]), dropped || g.Docstring?, segs + [g])
  {
    hide InertNext, InertCut, StartsStatement, HasDocstring, Flat, Output;
    Appended(segs, g);
    InertAppends(src, segs, g);
    DocstringAppends(segs, g);
    assert src[..i] + src[i..end] == src[..end];
  }

  lemma StatementSteps(segs: seq<Segment>, g: Segment)
    ensures StartsStatement(segs + [g]) ==
            match g
            case Plain(c) => c == '\n' || ((c == ' ' || c == '\t' || c == '\r') && StartsStatement(segs))
            case Comment(_) => StartsStatement(segs)
            case _ => false
  {
    assert (segs + [g])[..|segs|] == segs;
  }

  // Skips to the end of the line.
  method SkipLine(src: string, start: nat) returns (i: nat)
    requires start < |src| && src[start] == '#'
    ensures start < i <= |src| && '\n' !in src[start..i] && (i == |src| || src[i] == '\n')
  {
    i := start;
    while i < |src| && src[i] != '\n'
      invariant start <= i <= |src| && '\n' !in src[start..i]
    {
      assert src[start..i + 1] == src[start..i] + [src[i]];
      i := i + 1;
    }
  }

  // What one step cuts at i when nothing is dropped there.
  method CutInert(src: string, i: nat, atStart: bool) returns (end: nat, keep: bool, starts: bool, ghost g: Segment)
    requires i < |src|
    ensures i < end <= |src| && TextOf(g) == src[i..end] && OutputOf(g) == if keep then src[i..end] else ""
    ensures g.Comment? || g.Copied? || g.Plain?
    ensures g.Comment? ==> src[i] == '#' && '\n' !in g.text && (end == |src| || src[end] == '\n')
    ensures g.Copied? ==> IsQuote(src[i]) && end == StringEnd(src, i)
    ensures g.Plain? ==> g.c != '#' && !IsQuote(g.c)
    ensures starts == match g
                      case Plain(c) => c == '\n' || ((c == ' ' || c == '\t' || c == '\r') && atStart)
                      case Comment(_) => atStart
                      case _ => false
  {
    var c := src[i];
    if c == '#' {
      end := SkipLine(src, i);
      g := Comment(src[i..end]);
      keep, starts := false, atStart;
    } else if c == '"' || c == '\'' {
      end := ScanPyString(src, i);
      g := Copied(src[i..end]);
      keep, starts := true, false;
    } else {
      end := i + 1;
      g := Plain(c);
      assert src[i..i + 1] == [c];
      keep, starts := true, c == '\n' || ((c == ' ' || c == '\t' || c == '\r') && atStart);
    }
  }

  // The text with its comments, and the one literal of its cut, left out.
  ghost predicate IsInert(src: string, out: string) {
    exists segs :: InertCut(src, segs) && Flat(segs) == src && Output(segs) == out
  }

  // Drops comments, and the first literal that opens where a statement could start.
  method StripPyInert(src: string) returns (out: string)
    ensures IsInert(src, out)
  {
    hide InertAt, InertNext, StartsStatement;
    out := "";
    ghost var segs: seq<Segment> := [];
    var i, n := 0, |src|;
    var atStart, dropped := true, false;
    InertStarts(src);
    while i < n
      invariant i <= n && InertAt(src, i, out, atStart, dropped, segs)
      decreases n - i
    {
      InertPosition(src, i, out, atStart, dropped, segs);
      if atStart && !dropped {
        var q := PyStringOpen(src, i);
        if q >= 0 {
          var end := ScanPyString(src, q);
          ghost var g := Docstring(src[i..end]);
          assert InertNext(src, segs, g) by {
            DocstringFits(src, i, out, segs, end);
          }
          InertSteps(src, i, out, atStart, dropped, segs, g, end);
          StatementSteps(segs, g);
          assert out + "" == out;
          segs := segs + [g];
          i, dropped, atStart := end, true, false;
          continue;
        }
      }
      var end, keep, starts;
      ghost var g;
      end, keep, starts, g := CutInert(src, i, atStart);
      SegmentFits(src, i, out, atStart, dropped, segs, g, end);
      InertSteps(src, i, out, atStart, dropped, segs, g, end);
      StatementSteps(segs, g);
      assert out + "" == out;
      if keep {
        out := out + src[i..end];
      }
      segs := segs + [g];
      i, atStart := end, starts;
    }
    InertEnds(src, i, out, atStart, dropped, segs);
  }

  lemma InertStarts(src: string)
    ensures InertAt(src, 0, "", true, false, [])
  {
  }

  lemma InertPosition(src: string, i: nat, out: string, atStart: bool, dropped: bool, segs: seq<Segment>)
    requires InertAt(src, i, out, atStart, dropped, segs)
    ensures |Flat(segs)| == i && atStart == StartsStatement(segs) &&
            (DropsHere(src, segs) <==> atStart && !dropped && StringOpen(src, i) >= 0)
  {
    hide StartsStatement, StringOpen, InertNext;
  }

  lemma DocstringFits(src: string, i: nat, out: string, segs: seq<Segment>, end: nat)
    requires |Flat(segs)| == i < end <= |src| && DropsHere(src, segs) && end == StringEnd(src, StringOpen(src, i))
    ensures InertNext(src, segs, Docstring(src[i..end]))
  {
    hide DropsHere, StringEnd;
  }

  lemma SegmentFits(src: string, i: nat, out: string, atStart: bool, dropped: bool, segs: seq<Segment>, g: Segment,
                    end: nat)
    requires |Flat(segs)| == i < end <= |src| && TextOf(g) == src[i..end] && (src[i] == '#' || !DropsHere(src, segs))
    requires g.Comment? || g.Copied? || g.Plain?
    requires g.Comment? ==> src[i] == '#' && '\n' !in g.text && (end == |src| || src[end] == '\n')
    requires g.Copied? ==> IsQuote(src[i]) && end == StringEnd(src, i)
    requires g.Plain? ==> g.c != '#' && !IsQuote(g.c)
    ensures InertNext(src, segs, g)
  {
    hide DropsHere, StringEnd;
    if g.Plain? {
      assert src[i..end] == [g.c];
      assert src[i] == src[i..end][0];
    }
  }

  lemma InertEnds(src: string, i: nat, out: string, atStart: bool, dropped: bool, segs: seq<Segment>)
    requires InertAt(src, i, out, atStart, dropped, segs) && i == |src|
    ensures Flat(segs) == src && InertCut(src, segs) && out == Output(segs)
  {
    assert src[..|src|] == src;
  }
}
