// Emptying the string literals a setup script only displays: which ones, how deep in the call, and what is
// never touched.
module PyDisplay {
  import opened PyScan
  import opened PyStrip

  predicate IsIdentChar(c: char) {
    c == '_' || 'a' <= c <= 'z' || 'A' <= c <= 'Z' || '0' <= c <= '9'
  }

  // Calls whose string arguments are shown to a person, or become the exit message.
  const OPENERS := ["print(", "sys.exit(", "sys.stderr.write(", "sys.stdout.write(", "warnings.warn("]

  predicate OpensAt(s: string, i: nat, op: string)
    requires i <= |s|
  {
    op <= s[i..]
  }

  // The preceding character must not make the name another one.
  predicate Freestanding(s: string, i: nat)
    requires i <= |s|
  {
    i == 0 || (!IsIdentChar(s[i - 1]) && s[i - 1] != '.')
  }

  // The length of the display call that begins at i, or 0.
  ghost predicate IsOpenerAt(s: string, i: nat, n: nat)
    requires i <= |s|
  {
    if !Freestanding(s, i) then n == 0
    else if exists k :: 0 <= k < |OPENERS| && OpensAt(s, i, OPENERS[k]) then
      exists k :: 0 <= k < |OPENERS| && OpensAt(s, i, OPENERS[k]) && n == |OPENERS[k]| && forall j :: 0 <= j < k ==>
          !OpensAt(s, i, OPENERS[j])
    else n == 0
  }

  method DisplaySinkOpenerAt(s: string, i: nat) returns (n: nat)
    requires i <= |s|
    ensures IsOpenerAt(s, i, n) && i + n <= |s|
  {
    hide OpensAt;
    if i > 0 {
      var p := s[i - 1];
      if IsIdentChar(p) || p == '.' {
        return 0;
      }
    }
    for k := 0 to |OPENERS|
      invariant forall j :: 0 <= j < k ==> !OpensAt(s, i, OPENERS[j])
    {
      if OpensAt(s, i, OPENERS[k]) {
        FitsWithin(s, i, OPENERS[k]);
        return |OPENERS[k]|;
      }
    }
    return 0;
  }

  lemma FitsWithin(s: string, i: nat, op: string)
    requires i <= |s| && OpensAt(s, i, op)
    ensures i + |op| <= |s| && s[i..i + |op|] == op
  {
    assert s[i..][..|op|] == op;
  }

  predicate HasF(prefix: string) {
    exists i :: 0 <= i < |prefix| && (prefix[i] == 'f' || prefix[i] == 'F')
  }

  method HasPyFPrefix(prefix: string) returns (has: bool)
    ensures has == HasF(prefix)
  {
    for i := 0 to |prefix|
      invariant forall j :: 0 <= j < i ==> prefix[j] != 'f' && prefix[j] != 'F'
    {
      if prefix[i] == 'f' || prefix[i] == 'F' {
        return true;
      }
    }
    return false;
  }

  // How many parentheses of a display call are open after these segments; none outside one.
  function Depth(segs: seq<Segment>): nat {
    if segs == [] then 0
    else
      var d := Depth(segs[..|segs| - 1]);
      match segs[|segs| - 1]
      case Opener(_) => 1
      case Plain(c) => if d > 0 && c == '(' then d + 1 else if d > 0 && c == ')' then d - 1 else d
      case _ => d
  }

  // A literal, with any prefix, begins here and does not continue an identifier.
  predicate LiteralAt(s: string, i: nat)
    requires i <= |s|
  {
    StringOpen(s, i) >= 0 && (i == 0 || !IsIdentChar(s[i - 1]))
  }

  // The next segment: outside display calls literals are copied; inside, a literal is emptied unless it
  // is formatted, in which case it may hold code and is copied.
  ghost predicate DisplayNext(src: string, before: seq<Segment>, g: Segment) {
    var o := |Flat(before)|;
    && o < |src|
    && var end := o + |TextOf(g)|;
       && end <= |src| && TextOf(g) == src[o..end]
       && (match g
           case Copied(_) => LiteralAt(src, o) && end == StringEnd(src, StringOpen(src, o))
                             && (Depth(before) > 0 ==> HasF(src[o..StringOpen(src, o)]))
           case Blanked(_) => LiteralAt(src, o) && end == StringEnd(src, StringOpen(src, o))
                              && Depth(before) > 0 && !HasF(src[o..StringOpen(src, o)])
           case Opener(t) => !LiteralAt(src, o) && Depth(before) == 0 && |t| > 0 && IsOpenerAt(src, o, |t|)
           case Plain(_) => !LiteralAt(src, o) && (Depth(before) == 0 ==> IsOpenerAt(src, o, 0))
           case _ => false)
  }

  ghost predicate DisplayCut(src: string, segs: seq<Segment>) {
    segs != [] ==> DisplayCut(src, segs[..|segs| - 1]) && DisplayNext(src, segs[..|segs| - 1], segs[|segs| - 1])
  }

  lemma {:induction false} DisplayCutAt(src: string, segs: seq<Segment>, k: nat)
    requires DisplayCut(src, segs) && k < |segs|
    ensures DisplayNext(src, segs[..k], segs[k])
  {
    hide DisplayNext;
    var init := segs[..|segs| - 1];
    if k < |init| {
      DisplayCutAt(src, init, k);
      assert init[..k] == segs[..k];
    }
  }

  lemma DisplayAppends(src: string, segs: seq<Segment>, g: Segment)
    requires DisplayCut(src, segs) && DisplayNext(src, segs, g)
    ensures DisplayCut(src, segs + [g])
  {
    hide DisplayNext;
    assert (segs + [g])[..|segs|] == segs;
  }

  lemma DepthSteps(segs: seq<Segment>, g: Segment)
    ensures Depth(segs + [g]) ==
            match g
            case Opener(_) => 1
            case Plain(c) => if Depth(segs) > 0 && c == '(' then Depth(segs) + 1 else if Depth(segs) > 0 &&
                c == ')' then Depth(segs) - 1 else Depth(segs)
            case _ => Depth(segs)
  {
    assert (segs + [g])[..|segs|] == segs;
  }

  ghost predicate DisplayAt(src: string, i: nat, out: string, depth: nat, segs: seq<Segment>) {
    i <= |src| && Flat(segs) == src[..i] && Output(segs) == out && DisplayCut(src, segs) && depth == Depth(segs)
  }

  lemma DisplaySteps(src: string, i: nat, out: string, depth: nat, segs: seq<Segment>, g: Segment, end: nat)
    requires DisplayAt(src, i, out, depth, segs) && i < end <= |src| && TextOf(g) == src[i..end] &&
             DisplayNext(src, segs, g)
    ensures DisplayAt(src, end, out + OutputOf(g), Depth(segs + [g]), segs + [g])
  {
    hide DisplayNext, DisplayCut, Depth, Flat, Output;
    Appended(segs, g);
    DisplayAppends(src, segs, g);
    assert src[..i] + src[i..end] == src[..end];
  }

  lemma DisplayPosition(src: string, i: nat, out: string, depth: nat, segs: seq<Segment>)
    requires DisplayAt(src, i, out, depth, segs)
    ensures |Flat(segs)| == i && depth == Depth(segs)
  {
    hide Depth, DisplayNext;
  }

  // One character kept.
  method KeepChar(src: string, i: nat, out0: string, depth0: nat, ghost segs0: seq<Segment>)
    returns (out: string, depth: nat, ghost segs: seq<Segment>)
    requires i < |src| && DisplayAt(src, i, out0, depth0, segs0)
    requires !LiteralAt(src, i) && (depth0 == 0 ==> IsOpenerAt(src, i, 0))
    ensures DisplayAt(src, i + 1, out, depth, segs) && (depth0 == 0 ==> depth == 0)
  {
    hide DisplayAt, Depth, LiteralAt, IsOpenerAt;
    DisplayPosition(src, i, out0, depth0, segs0);
    var c := src[i];
    ghost var g := Plain(c);
    assert src[i..i + 1] == [c];
    DisplaySteps(src, i, out0, depth0, segs0, g, i + 1);
    DepthSteps(segs0, g);
    depth := depth0;
    if depth > 0 {
      if c == '(' {
        depth := depth + 1;
      } else if c == ')' {
        depth := depth - 1;
      }
    }
    out := out0 + [c];
    segs := segs0 + [g];
  }

  // One literal, copied or emptied.
  method KeepLiteral(src: string, i: nat, q: nat, out0: string, depth: nat, ghost segs0: seq<Segment>)
    returns (end: nat, out: string, ghost segs: seq<Segment>)
    requires i < |src| && DisplayAt(src, i, out0, depth, segs0) && LiteralAt(src, i) && q == StringOpen(src, i)
    ensures i < end <= |src| && DisplayAt(src, end, out, depth, segs)
  {
    hide DisplayAt, Depth, IsOpenerAt, HasF, StringEnd;
    DisplayPosition(src, i, out0, depth, segs0);
    end := ScanPyString(src, q);
    var formatted := HasPyFPrefix(src[i..q]);
    ghost var g;
    if depth == 0 || formatted {
      g := Copied(src[i..end]);
      out := out0 + src[i..end];
    } else {
      g := Blanked(src[i..end]);
      out := out0 + "\"\"";
    }
    hide StringOpen, LiteralAt;
    DisplaySteps(src, i, out0, depth, segs0, g, end);
    DepthSteps(segs0, g);
    segs := segs0 + [g];
  }

  // Enters a display call and walks its argument list to the closing parenthesis.
  method WalkArguments(src: string, start: nat, op: nat, out0: string, ghost segs0: seq<Segment>)
    returns (i: nat, out: string, ghost segs: seq<Segment>)
    requires start < |src| && DisplayAt(src, start, out0, 0, segs0) && !LiteralAt(src, start)
    requires op > 0 && start + op <= |src| && IsOpenerAt(src, start, op)
    ensures start < i <= |src|
    ensures DisplayAt(src, i, out, 0, segs) || (i == |src| && exists d :: DisplayAt(src, i, out, d, segs))
  {
    hide DisplayAt, Depth, LiteralAt, IsOpenerAt;
    DisplayPosition(src, start, out0, 0, segs0);
    ghost var g := Opener(src[start..start + op]);
    DisplaySteps(src, start, out0, 0, segs0, g, start + op);
    DepthSteps(segs0, g);
    out, i, segs := out0 + src[start..start + op], start + op, segs0 + [g];
    var depth := 1;
    while i < |src| && depth > 0
      invariant start < i <= |src| && depth >= 0 && DisplayAt(src, i, out, depth, segs)
      decreases |src| - i
    {
      var q := PyStringOpen(src, i);
      if q >= 0 && (i == 0 || !IsIdentChar(src[i - 1])) {
        assert LiteralAt(src, i) by {
          LiteralHere(src, i);
        }
        i, out, segs := KeepLiteral(src, i, q, out, depth, segs);
        continue;
      }
      assert !LiteralAt(src, i) by {
        LiteralHere(src, i);
      }
      out, depth, segs := KeepChar(src, i, out, depth, segs);
      i := i + 1;
    }
  }

  lemma LiteralHere(s: string, i: nat)
    requires i <= |s|
    ensures LiteralAt(s, i) <==> StringOpen(s, i) >= 0 && (i == 0 || !IsIdentChar(s[i - 1]))
  {
  }

  // The text with the literals its display calls show emptied.
  ghost predicate IsMuted(src: string, out: string) {
    exists segs :: DisplayCut(src, segs) && Flat(segs) == src && Output(segs) == out
  }

  method StripPyDisplayStrings(src: string) returns (out: string)
    ensures IsMuted(src, out)
  {
    hide DisplayAt, Depth, LiteralAt, IsOpenerAt;
    out := "";
    ghost var segs: seq<Segment> := [];
    var i, n := 0, |src|;
    ghost var depth := 0;
    DisplayStarts(src);
    while i < n
      invariant i <= n && DisplayAt(src, i, out, depth, segs) && (i < n ==> depth == 0)
      decreases n - i
    {
      var q := PyStringOpen(src, i);
      LiteralHere(src, i);
      if q >= 0 && (i == 0 || !IsIdentChar(src[i - 1])) {
        i, out, segs := KeepLiteral(src, i, q, out, 0, segs);
        continue;
      }
      var op := DisplaySinkOpenerAt(src, i);
      if op > 0 {
        i, out, segs := WalkArguments(src, i, op, out, segs);
        depth :| DisplayAt(src, i, out, depth, segs) && (i < n ==> depth == 0);
        continue;
      }
      var d;
      out, d, segs := KeepChar(src, i, out, 0, segs);
      depth := d;
      i := i + 1;
    }
    DisplayEnds(src, i, out, depth, segs);
  }

  lemma DisplayStarts(src: string)
    ensures DisplayAt(src, 0, "", 0, [])
  {
  }

  lemma DisplayEnds(src: string, i: nat, out: string, depth: nat, segs: seq<Segment>)
    requires DisplayAt(src, i, out, depth, segs) && i == |src|
    ensures Flat(segs) == src && DisplayCut(src, segs) && out == Output(segs)
  {
    assert src[..|src|] == src;
  }

  // ----- What it never touches -----

  // Every literal that is emptied stands inside a display call and is not formatted; everything else
  // comes through as it was.
  lemma OnlyDisplayedTextIsEmptied(src: string, segs: seq<Segment>, k: nat)
    requires DisplayCut(src, segs) && k < |segs|
    ensures OutputOf(segs[k]) == if segs[k].Blanked? then "\"\"" else TextOf(segs[k])
    ensures segs[k].Blanked? ==>
              var o := |Flat(segs[..k])|;
              Depth(segs[..k]) > 0 && o <= |src| && LiteralAt(src, o) && !HasF(src[o..StringOpen(src, o)])
  {
    DisplayCutAt(src, segs, k);
    hide StringOpen, StringEnd, HasF, IsOpenerAt;
  }

  lemma {:induction false} NoCallNoDepth(segs: seq<Segment>)
    requires forall k :: 0 <= k < |segs| ==> !segs[k].Opener?
    ensures Depth(segs) == 0
  {
    if segs != [] {
      NoCallNoDepth(segs[..|segs| - 1]);
    }
  }

  lemma {:induction false} CutWithoutCalls(src: string, segs: seq<Segment>)
    requires DisplayCut(src, segs) && forall k :: 0 <= k < |segs| ==> !segs[k].Opener?
    ensures Output(segs) == Flat(segs)
  {
    hide DisplayNext, StringOpen;
    if segs != [] {
      var init := segs[..|segs| - 1];
      CutWithoutCalls(src, init);
      NoCallNoDepth(init);
      OnlyDisplayedTextIsEmptied(src, segs, |segs| - 1);
    }
  }

  // A text in which no display call begins anywhere comes through unchanged.
  lemma NoCallNoChange(src: string, out: string)
    requires IsMuted(src, out) && forall i :: 0 <= i < |src| ==> IsOpenerAt(src, i, 0)
    ensures out == src
  {
    hide DisplayCut, Flat, Output, IsOpenerAt;
    var segs: seq<Segment> :| DisplayCut(src, segs) && Flat(segs) == src && Output(segs) == out;
    forall k | 0 <= k < |segs|
      ensures !segs[k].Opener?
    {
      DisplayCutAt(src, segs, k);
      NoOpenerHere(src, segs[..k], segs[k]);
    }
    CutWithoutCalls(src, segs);
  }

  lemma NoOpenerHere(src: string, before: seq<Segment>, g: Segment)
    requires DisplayNext(src, before, g)
    requires |Flat(before)| <= |src| ==> IsOpenerAt(src, |Flat(before)|, 0)
    ensures !g.Opener?
  {
    hide IsOpenerAt, LiteralAt, Depth, Flat;
    if g.Opener? {
      OpenerIsUnique(src, |Flat(before)|, |g.text|, 0);
    }
  }

  // What stands at the cut decides the next segment, so a text has one cut and one result.
  lemma NextIsUnique(src: string, before: seq<Segment>, g: Segment, h: Segment)
    requires DisplayNext(src, before, g) && DisplayNext(src, before, h)
    ensures g == h
  {
    hide StringOpen, StringEnd, HasF, LiteralAt, Depth;
    var o := |Flat(before)|;
    if g.Opener? && h.Opener? {
      OpenerIsUnique(src, o, |g.text|, |h.text|);
    }
    if g.Opener? && h.Plain? {
      OpenerIsUnique(src, o, |g.text|, 0);
    }
    if g.Plain? && h.Opener? {
      OpenerIsUnique(src, o, 0, |h.text|);
    }
    hide IsOpenerAt;
  }

  lemma OpenerIsUnique(s: string, i: nat, m: nat, n: nat)
    requires i <= |s| && IsOpenerAt(s, i, m) && IsOpenerAt(s, i, n)
    ensures m == n
  {
    hide OpensAt;
  }

  lemma {:induction false} CutsAgree(src: string, a: seq<Segment>, b: seq<Segment>, k: nat)
    requires DisplayCut(src, a) && DisplayCut(src, b) && k <= |a| && k <= |b|
    ensures a[..k] == b[..k]
  {
    hide DisplayNext;
    if k > 0 {
      CutsAgree(src, a, b, k - 1);
      DisplayCutAt(src, a, k - 1);
      DisplayCutAt(src, b, k - 1);
      NextIsUnique(src, a[..k - 1], a[k - 1], b[k - 1]);
      assert a[..k] == a[..k - 1] + [a[k - 1]] && b[..k] == b[..k - 1] + [b[k - 1]];
    }
  }

  lemma DisplayCutIsUnique(src: string, a: seq<Segment>, b: seq<Segment>)
    requires DisplayCut(src, a) && DisplayCut(src, b) && Flat(a) == src && Flat(b) == src
    ensures a == b
  {
    hide DisplayCut, Flat;
    assert a[..|a|] == a && b[..|b|] == b;
    if |a| <= |b| {
      CutsAgree(src, a, b, |a|);
      NothingFollows(src, b, |a|);
    } else {
      CutsAgree(src, a, b, |b|);
      NothingFollows(src, a, |b|);
    }
  }

  lemma MutedIsUnique(src: string, a: string, b: string)
    requires IsMuted(src, a) && IsMuted(src, b)
    ensures a == b
  {
    hide DisplayCut, Flat, Output;
    var s :| DisplayCut(src, s) && Flat(s) == src && Output(s) == a;
    var t :| DisplayCut(src, t) && Flat(t) == src && Output(t) == b;
    DisplayCutIsUnique(src, s, t);
  }

  lemma NothingFollows(src: string, segs: seq<Segment>, k: nat)
    requires DisplayCut(src, segs) && k <= |segs| && Flat(segs[..k]) == src
    ensures k == |segs| && segs[..k] == segs
  {
    hide Flat, Depth, LiteralAt, IsOpenerAt;
    forall j | 0 <= j < |segs|
      ensures |Flat(segs[..j])| < |src|
    {
      DisplayCutAt(src, segs, j);
    }
  }

  // ----- How deep it goes -----

  // No literal is emptied but those directly in the parentheses of a display call.
  ghost predicate OnlyOwnArguments(segs: seq<Segment>) {
    forall k :: 0 <= k < |segs| && segs[k].Blanked? ==> Depth(segs[..k]) == 1
  }

  ghost predicate PlainLiteralAt(src: string, i: nat) {
    i <= |src| && LiteralAt(src, i) && !HasF(src[i..StringOpen(src, i)])
  }

  // No unformatted literal stands in parentheses nested inside a display call, such as another call's.
  ghost predicate NestedAreFormatted(src: string, segs: seq<Segment>) {
    forall k :: 0 <= k < |segs| && Depth(segs[..k]) > 1 ==> !PlainLiteralAt(src, |Flat(segs[..k])|)
  }

  // What is emptied is exactly the display call's own text if and only if there are none.
  lemma OwnArgumentsExactly(src: string, segs: seq<Segment>)
    requires DisplayCut(src, segs)
    ensures OnlyOwnArguments(segs) <==> NestedAreFormatted(src, segs)
  {
    hide DisplayCut, Flat, Depth, PlainLiteralAt;
    forall k | 0 <= k < |segs|
      ensures segs[k].Blanked? <==> Depth(segs[..k]) > 0 && PlainLiteralAt(src, |Flat(segs[..k])|)
    {
      DisplayCutAt(src, segs, k);
      BlankedExactly(src, segs[..k], segs[k]);
    }
  }

  lemma BlankedExactly(src: string, before: seq<Segment>, g: Segment)
    requires DisplayNext(src, before, g)
    ensures g.Blanked? <==> Depth(before) > 0 && PlainLiteralAt(src, |Flat(before)|)
  {
    hide Depth, Flat, StringOpen, StringEnd, HasF, IsOpenerAt;
  }

  // Otherwise the argument of a nested call is emptied with the rest:
  //   print(g('x'))
  // becomes
  //   print(g(""))
  // although nobody is shown 'x'.
  lemma NestedArgumentIsEmptied()
    ensures IsMuted("print(g('x'))", "print(g(\"\"))")
    ensures forall out :: IsMuted("print(g('x'))", out) ==> out == "print(g(\"\"))"
  {
    var src, out := "print(g('x'))", "print(g(\"\"))";
    hide IsMuted, DisplayAt;
    var segs := NestedArgumentSteps(src);
    MutedBy(src, out, segs);
    forall o | IsMuted(src, o)
      ensures o == out
    {
      MutedIsUnique(src, o, out);
    }
  }

  lemma MutedBy(src: string, out: string, segs: seq<Segment>)
    requires DisplayAt(src, |src|, out, 0, segs)
    ensures IsMuted(src, out)
  {
    DisplayEnds(src, |src|, out, 0, segs);
  }

  lemma NestedArgumentSteps(src: string) returns (segs: seq<Segment>)
    requires src == "print(g('x'))"
    ensures DisplayAt(src, |src|, "print(g(\"\"))", 0, segs)
  {
    hide DisplayAt, Depth, LiteralAt, IsOpenerAt;
    DisplayStarts(src);
    NestedArgumentParts(src);
    segs := CallStep(src, 0, "", [], 6, "print(");
    segs := PlainStep(src, 6, "print(", 1, segs, 1, "print(g");
    segs := PlainStep(src, 7, "print(g", 1, segs, 2, "print(g(");
    segs := BlankStep(src, 8, "print(g(", 2, segs, "print(g(\"\"");
    segs := PlainStep(src, 11, "print(g(\"\"", 2, segs, 1, "print(g(\"\")");
    segs := PlainStep(src, 12, "print(g(\"\")", 1, segs, 0, "print(g(\"\"))");
  }

  lemma NestedArgumentParts(src: string)
    requires src == "print(g('x'))"
    ensures src[0..6] == "print(" && !LiteralAt(src, 0) && IsOpenerAt(src, 0, 6)
    ensures !LiteralAt(src, 6) && !LiteralAt(src, 7) && LiteralAt(src, 8) && !LiteralAt(src, 11) && !LiteralAt(src, 12)
    ensures StringOpen(src, 8) == 8 && StringEnd(src, 8) == 11
  {
    assert src[0..] == src;
    assert OpensAt(src, 0, OPENERS[0]);
    assert SingleEnd(src, '\'', 10) == 11 && SingleEnd(src, '\'', 9) == 11;
  }

  lemma CallStep(src: string, i: nat, out: string, segs: seq<Segment>, n: nat, next: string)
    returns (more: seq<Segment>)
    requires DisplayAt(src, i, out, 0, segs) && n > 0 && i + n <= |src| && !LiteralAt(src, i) && IsOpenerAt(src, i, n)
    requires next == out + src[i..i + n]
    ensures DisplayAt(src, i + n, next, 1, more)
  {
    hide DisplayAt, Depth, LiteralAt, IsOpenerAt;
    DisplayPosition(src, i, out, 0, segs);
    var g := Opener(src[i..i + n]);
    DepthSteps(segs, g);
    DisplaySteps(src, i, out, 0, segs, g, i + n);
    more := segs + [g];
  }

  lemma PlainStep(src: string, i: nat, out: string, depth: nat, segs: seq<Segment>, d: nat, next: string)
    returns (more: seq<Segment>)
    requires i < |src| && DisplayAt(src, i, out, depth, segs) && !LiteralAt(src, i) && depth > 0
    requires d == if src[i] == '(' then depth + 1 else if src[i] == ')' then depth - 1 else depth
    requires next == out + [src[i]]
    ensures DisplayAt(src, i + 1, next, d, more)
  {
    hide DisplayAt, Depth, LiteralAt, IsOpenerAt;
    DisplayPosition(src, i, out, depth, segs);
    var g := Plain(src[i]);
    assert src[i..i + 1] == [src[i]];
    DepthSteps(segs, g);
    DisplaySteps(src, i, out, depth, segs, g, i + 1);
    more := segs + [g];
  }

  lemma BlankStep(src: string, i: nat, out: string, depth: nat, segs: seq<Segment>, next: string)
    returns (more: seq<Segment>)
    requires i < |src| && DisplayAt(src, i, out, depth, segs) && LiteralAt(src, i) && StringOpen(src, i) == i &&
             depth > 0
    requires next == out + "\"\""
    ensures DisplayAt(src, StringEnd(src, i), next, depth, more)
  {
    hide DisplayAt, Depth, LiteralAt, IsOpenerAt, StringEnd;
    DisplayPosition(src, i, out, depth, segs);
    var end := StringEnd(src, i);
    var g := Blanked(src[i..end]);
    DepthSteps(segs, g);
    DisplaySteps(src, i, out, depth, segs, g, end);
    more := segs + [g];
  }
}
