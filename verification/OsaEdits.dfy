// What one edit is: a character put in, taken out or replaced, or two neighbours swapped, anywhere.
module OsaEdits {
  import opened Prelude
  import opened OsaDistance

  // m becomes n by one edit.
  predicate IsEdit(m: string, n: string) {
    || (m == "" && |n| == 1)
    || (|m| == 1 && n == "")
    || (|m| == 1 && |n| == 1)
    || (|m| == 2 && n == [m[1], m[0]])
  }

  // The strings agree before m and n and after them.
  ghost predicate ApartAt(a: string, b: string, x: string, m: string, n: string, y: string) {
    a == x + m + y && b == x + n + y && IsEdit(m, n)
  }

  ghost predicate OneApart(a: string, b: string) {
    exists x, m, n, y :: ApartAt(a, b, x, m, n, y)
  }

  // A script that costs nothing changes nothing.
  lemma {:induction false} FreeScripts(script: seq<Edit>, a: string, i: nat)
    requires i <= |a| && Run(script, a, i).Some? && Cost(script) == 0
    ensures Run(script, a, i).value == a[..i]
  {
    if script != [] {
      FreeScripts(script[..|script| - 1], a, i - Consumes(script[|script| - 1]));
    }
  }

  // A script that costs one makes one edit.
  lemma {:induction false} CheapScripts(script: seq<Edit>, a: string, i: nat)
    requires i <= |a| && Run(script, a, i).Some? && Cost(script) == 1
    ensures OneApart(a[..i], Run(script, a, i).value)
  {
    var rest, e := script[..|script| - 1], script[|script| - 1];
    var k := i - Consumes(e);
    var out := Run(rest, a, k).value;
    if EditCost(e) == 0 {
      CheapScripts(rest, a, k);
      assert Emits(e, a, i) == [a[k]] && i == k + 1;
      assert a[..i] == a[..k] + [a[k]];
      hide Run, Cost;
      ApartOneMore(a[..k], out, a[k]);
    } else {
      FreeScripts(rest, a, k);
      assert IsEdit(a[k..i], Emits(e, a, i));
      assert a[..i] == a[..k] + a[k..i];
      hide Run, Cost;
      ApartAtTheEnd(a[..k], a[k..i], Emits(e, a, i));
    }
  }

  lemma ApartOneMore(a: string, b: string, c: char)
    requires OneApart(a, b)
    ensures OneApart(a + [c], b + [c])
  {
    hide IsEdit;
    var x, m, n, y :| ApartAt(a, b, x, m, n, y);
    assert x + m + y + [c] == x + m + (y + [c]) && x + n + y + [c] == x + n + (y + [c]);
    assert ApartAt(a + [c], b + [c], x, m, n, y + [c]);
  }

  lemma ApartAtTheEnd(x: string, m: string, n: string)
    requires IsEdit(m, n)
    ensures OneApart(x + m, x + n)
  {
    hide IsEdit;
    assert x + m == x + m + "" && x + n == x + n + "";
    assert ApartAt(x + m, x + n, x, m, n, "");
  }

  lemma RunOne(script: seq<Edit>, e: Edit, a: string, i: nat, out: string)
    requires i + Consumes(e) <= |a| && Run(script, a, i) == Some(out)
    ensures Run(script + [e], a, i + Consumes(e)) == Some(out + Emits(e, a, i + Consumes(e)))
    ensures Cost(script + [e]) == Cost(script) + EditCost(e)
  {
    assert (script + [e])[..|script|] == script;
    hide Consumes, Emits, EditCost;
  }

  // Copying on: the next n characters, for nothing.
  lemma {:induction false} CopiesOn(script: seq<Edit>, a: string, i: nat, n: nat, out: string)
    returns (longer: seq<Edit>)
    requires i + n <= |a| && Run(script, a, i) == Some(out)
    ensures Run(longer, a, i + n) == Some(out + a[i..i + n]) && Cost(longer) == Cost(script)
  {
    hide Run, Cost;
    longer := script;
    if n > 0 {
      var init := CopiesOn(script, a, i, n - 1, out);
      longer := init + [Keep];
      RunOne(init, Keep, a, i + n - 1, out + a[i..i + n - 1]);
      assert a[i..i + n] == a[i..i + n - 1] + [a[i + n - 1]];
      assert out + a[i..i + n - 1] + [a[i + n - 1]] == out + a[i..i + n];
    } else {
      assert out + a[i..i] == out;
    }
  }

  lemma EditFor(m: string, n: string, a: string, i: nat) returns (e: Edit)
    requires IsEdit(m, n) && |m| <= i <= |a| && a[i - |m|..i] == m
    ensures Consumes(e) == |m| && EditCost(e) == 1 && Emits(e, a, i) == n
  {
    if |m| == 2 {
      assert m[0] == a[i - 2] && m[1] == a[i - 1];
      return Swap;
    }
    if n == "" {
      return Delete;
    }
    assert n == [n[0]];
    return if m == "" then Insert(n[0]) else Substitute(n[0]);
  }

  lemma Pieces(a: string, x: string, m: string, y: string)
    requires a == x + m + y
    ensures |a| == |x| + |m| + |y| && a[0..|x|] == x && a[|x|..|x| + |m|] == m && a[|x| + |m|..|a|] == y
  {
  }

  lemma ScriptFor(a: string, x: string, m: string, n: string, y: string, i: nat) returns (script: seq<Edit>)
    requires i == |x| + |m| <= |a| && |a| == i + |y| && IsEdit(m, n)
    requires a[0..|x|] == x && a[i - |m|..i] == m && a[i..i + |y|] == y
    ensures Run(script, a, |a|) == Some(x + n + y) && Cost(script) == 1
  {
    EmptyScript(a, a);
    assert a[..0] == "" && "" + x == x;
    var e := EditFor(m, n, a, i);
    hide Run, Cost, IsEdit, Consumes, Emits, EditCost;
    var copied := CopiesOn([], a, 0, |x|, "");
    RunOne(copied, e, a, |x|, x);
    script := CopiesOn(copied + [e], a, i, |y|, x + n);
  }

  lemma OneApartIsCheap(a: string, b: string, x: string, m: string, n: string, y: string)
    requires ApartAt(a, b, x, m, n, y)
    ensures Distance(a, b) <= 1
  {
    Pieces(a, x, m, y);
    var script := ScriptFor(a, x, m, n, y, |x| + |m|);
    assert x + n + y == b && b[..|b|] == b;
    hide Run, Cost, Cell, ApartAt;
    CellIsLowerBound(script, a, b, |a|, |b|);
  }

  // Two strings are at distance one exactly when they differ and one such edit makes the one the other.
  lemma DistanceOneExactly(a: string, b: string)
    ensures Distance(a, b) == 1 <==> a != b && OneApart(a, b)
  {
    DistanceZeroOnlyOnEqual(a, b);
    if Distance(a, b) == 1 {
      var script := CellReached(a, b, |a|, |b|);
      assert b[..|b|] == b && a[..|a|] == a;
      CheapScripts(script, a, |a|);
    }
    hide Cell, Run, Cost;
    if OneApart(a, b) {
      var x, m, n, y :| ApartAt(a, b, x, m, n, y);
      OneApartIsCheap(a, b, x, m, n, y);
    }
  }
}
