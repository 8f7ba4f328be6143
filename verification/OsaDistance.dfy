// Optimal String Alignment distance: the metric behind typosquat detection.
module OsaDistance {
  // The specification is a small editing machine.  A script walks its input once, from left to right;
  // every edit consumes the input it touches and appends to the output, so no substring is ever edited
  // twice.  The distance is the least cost of a script that turns one string into the other.  The table
  // recurrence and the two row-rotating programs are proved against it.

  import opened Prelude

  datatype Edit = Keep | Substitute(c: char) | Insert(c: char) | Delete | Swap

  function EditCost(e: Edit): nat {
    if e.Keep? then 0 else 1
  }

  function Cost(script: seq<Edit>): nat {
    if script == [] then 0 else Cost(script[..|script| - 1]) + EditCost(script[|script| - 1])
  }

  // How many input characters an edit consumes.
  function Consumes(e: Edit): nat {
    match e
    case Insert(_) => 0
    case Swap => 2
    case _ => 1
  }

  // The output of one edit whose consumed input ends just before position i.
  function Emits(e: Edit, a: string, i: nat): string
    requires Consumes(e) <= i <= |a|
  {
    match e
    case Keep => [a[i - 1]]
    case Substitute(c) => [c]
    case Insert(c) => [c]
    case Delete => []
    case Swap => [a[i - 1], a[i - 2]]
  }

  // The output of a script on the first i characters of a; None when the script does not consume
  // exactly those characters.
  function Run(script: seq<Edit>, a: string, i: nat): Option<string>
    requires i <= |a|
  {
    if script == [] then
      if i == 0 then Some("") else None
    else
      var e := script[|script| - 1];
      if i < Consumes(e) then None
      else
        match Run(script[..|script| - 1], a, i - Consumes(e))
        case None => None
        case Some(out) => Some(out + Emits(e, a, i))
  }

  ghost predicate Edits(script: seq<Edit>, a: string, b: string) {
    Run(script, a, |a|) == Some(b)
  }

  // d is the restricted edit distance from a to b.
  ghost predicate IsLeastCost(a: string, b: string, d: nat) {
    && (exists script :: Edits(script, a, b) && Cost(script) == d)
    && (forall script :: Edits(script, a, b) ==> d <= Cost(script))
  }

  // ----- The table -----

  function Min3(a: int, b: int, c: int): (m: int)
    ensures m <= a && m <= b && m <= c && (m == a || m == b || m == c)
  {
    var ab := if b < a then b else a;
    if c < ab then c else ab
  }

  predicate Swappable(a: string, b: string, i: nat, j: nat)
    requires i <= |a| && j <= |b|
  {
    i > 1 && j > 1 && a[i - 1] == b[j - 2] && a[i - 2] == b[j - 1]
  }

  // The value of a cell from its neighbours; cross is the cell two rows and two columns back.
  function FromNeighbours(up: nat, left: nat, diagonal: nat, same: bool, swappable: bool, cross: nat): nat {
    var m := Min3(up + 1, left + 1, if same then diagonal else diagonal + 1);
    if swappable && cross + 1 < m then cross + 1 else m
  }

  // Cell (i, j): the distance between the first i characters of a and the first j of b.
  function Cell(a: string, b: string, i: nat, j: nat): nat
    requires i <= |a| && j <= |b|
  {
    if i == 0 then j
    else if j == 0 then i
    else
      FromNeighbours(Cell(a, b, i - 1, j), Cell(a, b, i, j - 1), Cell(a, b, i - 1, j - 1), a[i - 1] == b[j - 1],
                     Swappable(a, b, i, j), if Swappable(a, b, i, j) then Cell(a, b, i - 2, j - 2) else 0)
  }

  // The two facts about cells everything below uses: the border and the step.
  lemma CellBorder(a: string, b: string, i: nat, j: nat)
    requires i <= |a| && j <= |b|
    ensures i == 0 ==> Cell(a, b, i, j) == j
    ensures j == 0 ==> Cell(a, b, i, j) == i
  {
  }

  lemma CellStep(a: string, b: string, i: nat, j: nat)
    requires 0 < i <= |a| && 0 < j <= |b|
    ensures !Swappable(a, b, i, j) ==>
              Cell(a, b, i, j) == FromNeighbours(Cell(a, b, i - 1, j), Cell(a, b, i, j - 1), Cell(a, b, i - 1, j - 1),
                                                 a[i - 1] == b[j - 1], false, 0)
    ensures Swappable(a, b, i, j) ==>
              Cell(a, b, i, j) == FromNeighbours(Cell(a, b, i - 1, j), Cell(a, b, i, j - 1), Cell(a, b, i - 1, j - 1),
                                                 a[i - 1] == b[j - 1], true, Cell(a, b, i - 2, j - 2))
  {
  }

  function Distance(a: string, b: string): nat {
    Cell(a, b, |a|, |b|)
  }

  // ----- The table computes the least cost -----

  lemma Extend(script: seq<Edit>, e: Edit, a: string, i: nat, b: string, j: nat)
    requires Consumes(e) <= i <= |a|
    requires |Emits(e, a, i)| <= j <= |b|
    requires Run(script, a, i - Consumes(e)) == Some(b[..j - |Emits(e, a, i)|])
    requires Emits(e, a, i) == b[j - |Emits(e, a, i)|..j]
    ensures Run(script + [e], a, i) == Some(b[..j])
    ensures Cost(script + [e]) == Cost(script) + EditCost(e)
  {
    hide Consumes, Emits, EditCost;
    assert (script + [e])[..|script|] == script;
    assert b[..j] == b[..j - |Emits(e, a, i)|] + Emits(e, a, i);
  }

  lemma EmptyScript(a: string, b: string)
    ensures Run([], a, 0) == Some(b[..0]) && Cost([]) == 0
  {
  }

  // A cell takes its value from one of its neighbours.
  lemma CellAttained(a: string, b: string, i: nat, j: nat)
    requires 0 < i <= |a| && 0 < j <= |b|
    ensures || Cell(a, b, i, j) == Cell(a, b, i, j - 1) + 1
            || Cell(a, b, i, j) == Cell(a, b, i - 1, j) + 1
            || (Swappable(a, b, i, j) && Cell(a, b, i, j) == Cell(a, b, i - 2, j - 2) + 1)
            || Cell(a, b, i, j) == Cell(a, b, i - 1, j - 1) + (if a[i - 1] == b[j - 1] then 0 else 1)
  {
    hide Cell;
    CellStep(a, b, i, j);
  }

  // Every cell is the cost of some script.
  lemma {:induction false} CellReached(a: string, b: string, i: nat, j: nat) returns (script: seq<Edit>)
    requires i <= |a| && j <= |b|
    ensures Run(script, a, i) == Some(b[..j])
    ensures Cost(script) == Cell(a, b, i, j)
    decreases i + j
  {
    hide Cell, Run, Cost, FromNeighbours;
    CellBorder(a, b, i, j);
    if i == 0 && j == 0 {
      EmptyScript(a, b);
      return [];
    }
    if i > 0 && j > 0 {
      CellAttained(a, b, i, j);
    }
    if i == 0 || (j > 0 && Cell(a, b, i, j) == Cell(a, b, i, j - 1) + 1) {
      CellBorder(a, b, i, j - 1);
      script := CellReached(a, b, i, j - 1);
      Extend(script, Insert(b[j - 1]), a, i, b, j);
      script := script + [Insert(b[j - 1])];
    } else if j == 0 || Cell(a, b, i, j) == Cell(a, b, i - 1, j) + 1 {
      CellBorder(a, b, i - 1, j);
      script := CellReached(a, b, i - 1, j);
      Extend(script, Delete, a, i, b, j);
      script := script + [Delete];
    } else if Swappable(a, b, i, j) && Cell(a, b, i, j) == Cell(a, b, i - 2, j - 2) + 1 {
      script := CellReached(a, b, i - 2, j - 2);
      Extend(script, Swap, a, i, b, j);
      script := script + [Swap];
    } else {
      var e := if a[i - 1] == b[j - 1] then Keep else Substitute(b[j - 1]);
      script := CellReached(a, b, i - 1, j - 1);
      Extend(script, e, a, i, b, j);
      script := script + [e];
    }
  }

  lemma SplitTail(out: string, tail: string, b: string, j: nat)
    requires j <= |b| && out + tail == b[..j]
    ensures |tail| <= j && out == b[..j - |tail|]
    ensures forall k :: 0 <= k < |tail| ==> tail[k] == b[j - |tail| + k]
  {
    forall k | 0 <= k < |tail|
      ensures tail[k] == b[j - |tail| + k]
    {
      assert tail[k] == (out + tail)[|out| + k];
    }
    assert out == (out + tail)[..|out|] && tail == (out + tail)[|out|..];
  }

  // No script is cheaper than its cell.
  lemma {:induction false} CellIsLowerBound(script: seq<Edit>, a: string, b: string, i: nat, j: nat)
    requires i <= |a| && j <= |b|
    requires Run(script, a, i) == Some(b[..j])
    ensures Cell(a, b, i, j) <= Cost(script)
    decreases |script|
  {
    if script != [] {
      var e := script[|script| - 1];
      var rest := script[..|script| - 1];
      var out := Run(rest, a, i - Consumes(e)).value;
      SplitTail(out, Emits(e, a, i), b, j);
      CellIsLowerBound(rest, a, b, i - Consumes(e), j - |Emits(e, a, i)|);
      CellSteps(e, a, b, i, j);
    }
  }

  // One edit moves between cells whose values differ by at most its cost.
  lemma CellSteps(e: Edit, a: string, b: string, i: nat, j: nat)
    requires Consumes(e) <= i <= |a|
    requires |Emits(e, a, i)| <= j <= |b|
    requires forall k :: 0 <= k < |Emits(e, a, i)| ==> Emits(e, a, i)[k] == b[j - |Emits(e, a, i)| + k]
    ensures Cell(a, b, i, j) <= Cell(a, b, i - Consumes(e), j - |Emits(e, a, i)|) + EditCost(e)
  {
    hide Cell;
    CellBorder(a, b, i, j);
    CellBorder(a, b, i - Consumes(e), j - |Emits(e, a, i)|);
    if i > 0 && j > 0 {
      CellStep(a, b, i, j);
    }
    match e {
      case Keep => assert Emits(e, a, i)[0] == b[j - 1];
      case Substitute(c) =>
      case Insert(c) =>
      case Delete =>
      case Swap => assert Emits(e, a, i)[0] == b[j - 2] && Emits(e, a, i)[1] == b[j - 1];
    }
  }

  lemma DistanceIsLeastCost(a: string, b: string)
    ensures IsLeastCost(a, b, Distance(a, b))
  {
    var best := CellReached(a, b, |a|, |b|);
    assert b[..|b|] == b;
    assert Edits(best, a, b);
    forall script | Edits(script, a, b) ensures Distance(a, b) <= Cost(script) {
      CellIsLowerBound(script, a, b, |a|, |b|);
    }
  }

  lemma LeastCostIsUnique(a: string, b: string, d: nat)
    requires IsLeastCost(a, b, d)
    ensures d == Distance(a, b)
  {
    DistanceIsLeastCost(a, b);
    var s1 :| Edits(s1, a, b) && Cost(s1) == d;
    var s2 :| Edits(s2, a, b) && Cost(s2) == Distance(a, b);
  }

  // ----- Metric facts -----

  lemma NeighboursSymmetric()
    ensures forall u, l, d, same, swappable, cross ::
              FromNeighbours(u, l, d, same, swappable, cross) == FromNeighbours(l, u, d, same, swappable, cross)
  {
  }

  lemma {:induction false} CellSymmetric(a: string, b: string, i: nat, j: nat)
    requires i <= |a| && j <= |b|
    ensures Cell(a, b, i, j) == Cell(b, a, j, i)
    decreases i + j
  {
    hide Cell, FromNeighbours;
    CellBorder(a, b, i, j);
    CellBorder(b, a, j, i);
    if i > 0 && j > 0 {
      CellStep(a, b, i, j);
      CellStep(b, a, j, i);
      NeighboursSymmetric();
      CellSymmetric(a, b, i - 1, j);
      CellSymmetric(a, b, i, j - 1);
      CellSymmetric(a, b, i - 1, j - 1);
      if i > 1 && j > 1 {
        CellSymmetric(a, b, i - 2, j - 2);
      }
    }
  }

  lemma {:induction false} CellZero(a: string, b: string, i: nat, j: nat)
    requires i <= |a| && j <= |b|
    ensures Cell(a, b, i, j) == 0 <==> a[..i] == b[..j]
    decreases i + j
  {
    hide Cell;
    CellBorder(a, b, i, j);
    if i > 0 && j > 0 {
      CellStep(a, b, i, j);
    }
    if i > 0 && j > 0 {
      CellZero(a, b, i - 1, j - 1);
      assert a[..i] == a[..i - 1] + [a[i - 1]];
      assert b[..j] == b[..j - 1] + [b[j - 1]];
    }
  }

  lemma {:induction false} CellWithinLengths(a: string, b: string, i: nat, j: nat)
    requires i <= |a| && j <= |b|
    ensures Abs(i - j) <= Cell(a, b, i, j) <= Max(i, j)
    decreases i + j
  {
    hide Cell;
    CellBorder(a, b, i, j);
    if i > 0 && j > 0 {
      CellStep(a, b, i, j);
      CellWithinLengths(a, b, i - 1, j);
      CellWithinLengths(a, b, i, j - 1);
      CellWithinLengths(a, b, i - 1, j - 1);
      if i > 1 && j > 1 {
        CellWithinLengths(a, b, i - 2, j - 2);
      }
    }
  }

  lemma DistanceSymmetric(a: string, b: string)
    ensures Distance(a, b) == Distance(b, a)
  {
    CellSymmetric(a, b, |a|, |b|);
  }

  lemma DistanceZeroOnlyOnEqual(a: string, b: string)
    ensures Distance(a, b) == 0 <==> a == b
  {
    CellZero(a, b, |a|, |b|);
    assert a[..|a|] == a && b[..|b|] == b;
  }

  lemma DistanceWithinLengths(a: string, b: string)
    ensures Abs(|a| - |b|) <= Distance(a, b) <= Max(|a|, |b|)
  {
    CellWithinLengths(a, b, |a|, |b|);
  }

  // ----- Why the early exit is sound -----

  ghost predicate RowAbove(a: string, b: string, i: nat, ceiling: int)
    requires i <= |a|
  {
    forall j: nat | j <= |b| :: Cell(a, b, i, j) > ceiling
  }

  // Stepping to the next row cannot get below the ceiling: a transposition that jumps over row i
  // costs no less than the cell of row i it jumps over.
  lemma {:induction false} NextCellAbove(a: string, b: string, i: nat, ceiling: int, j: nat)
    requires i < |a| && j <= |b|
    requires RowAbove(a, b, i, ceiling)
    ensures Cell(a, b, i + 1, j) > ceiling
    decreases j
  {
    hide Cell;
    CellBorder(a, b, i, j);
    CellBorder(a, b, i + 1, j);
    assert Cell(a, b, i, j) > ceiling;
    if j > 0 {
      CellStep(a, b, i + 1, j);
      NextCellAbove(a, b, i, ceiling, j - 1);
      assert Cell(a, b, i, j - 1) > ceiling;
      if Swappable(a, b, i + 1, j) {
        CellStep(a, b, i, j - 1);
      }
    }
  }

  lemma NextRowAbove(a: string, b: string, i: nat, ceiling: int)
    requires i < |a|
    requires RowAbove(a, b, i, ceiling)
    ensures RowAbove(a, b, i + 1, ceiling)
  {
    hide Cell;
    var next := i + 1;
    forall j: nat | j <= |b|
      ensures Cell(a, b, next, j) > ceiling
    {
      NextCellAbove(a, b, i, ceiling, j);
    }
  }

  // Once one row lies above the ceiling, every later row does.  The program waits for two
  // consecutive rows, which is therefore sound, and more cautious than it needs to be.
  lemma {:induction false} RowAboveStaysAbove(a: string, b: string, i: nat, ceiling: int, k: nat)
    requires i <= k <= |a|
    requires RowAbove(a, b, i, ceiling)
    ensures RowAbove(a, b, k, ceiling)
    decreases k - i
  {
    hide Cell;
    if i < k {
      NextRowAbove(a, b, i, ceiling);
      RowAboveStaysAbove(a, b, i + 1, ceiling, k);
    }
  }

  // The same, read off the row buffer the program holds.
  lemma EarlyExit(a: string, b: string, i: nat, ceiling: int, row: seq<int>)
    requires i <= |a| && |row| == |b| + 1
    requires forall k :: 0 <= k <= |b| ==> row[k] == Cell(a, b, i, k) && row[k] > ceiling
    ensures Distance(a, b) > ceiling
  {
    hide Cell;
    assert forall k: nat | k <= |b| :: Cell(a, b, i, k) == row[k];
    RowAboveStaysAbove(a, b, i, ceiling, |a|);
  }

  // ----- The programs -----

  // The exact form: three row buffers, rotated each iteration.
  method OsaDistance(a: string, b: string) returns (d: nat)
    ensures d == Distance(a, b)
  {
    hide Cell, Min3;
    CellBorder(a, b, |a|, |b|);
    var la, lb := |a|, |b|;
    if la == 0 {
      return lb;
    }
    if lb == 0 {
      return la;
    }
    var prev2 := new int[lb + 1];
    var prev1 := new int[lb + 1];
    var cur := new int[lb + 1];
    for j := 0 to lb + 1
      invariant forall k :: 0 <= k < j ==> prev1[k] == Cell(a, b, 0, k)
    {
      CellBorder(a, b, 0, j);
      prev1[j] := j;
    }
    for i := 1 to la + 1
      invariant prev1 != prev2 && prev1 != cur && prev2 != cur
      invariant prev1.Length == prev2.Length == cur.Length == lb + 1
      invariant fresh(prev1) && fresh(prev2) && fresh(cur)
      invariant forall k :: 0 <= k <= lb ==> prev1[k] == Cell(a, b, i - 1, k)
      invariant i > 1 ==> forall k :: 0 <= k <= lb ==> prev2[k] == Cell(a, b, i - 2, k)
    {
      CellBorder(a, b, i, 0);
      cur[0] := i;
      for j := 1 to lb + 1
        modifies cur
        invariant forall k :: 0 <= k < j ==> cur[k] == Cell(a, b, i, k)
      {
        CellStep(a, b, i, j);
        var cost := if a[i - 1] == b[j - 1] then 0 else 1;
        var m := Min3(prev1[j] + 1, cur[j - 1] + 1, prev1[j - 1] + cost);
        if i > 1 && j > 1 && a[i - 1] == b[j - 2] && a[i - 2] == b[j - 1] {
          var t := prev2[j - 2] + 1;
          if t < m {
            m := t;
          }
        }
        cur[j] := m;
      }
      prev2, prev1, cur := prev1, cur, prev2;
    }
    return prev1[lb];
  }

  // One row of the bounded form, and a lower bound of its cells.
  method FillRow(a: string, b: string, i: nat, prev2: array<int>, prev1: array<int>,
                 cur: array<int>) returns (rowMin: int)
    requires 0 < i <= |a| && prev1 != cur && prev2 != cur
    requires prev1.Length == prev2.Length == cur.Length == |b| + 1
    requires forall k :: 0 <= k <= |b| ==> prev1[k] == Cell(a, b, i - 1, k)
    requires i > 1 ==> forall k :: 0 <= k <= |b| ==> prev2[k] == Cell(a, b, i - 2, k)
    modifies cur
    ensures forall k :: 0 <= k <= |b| ==> cur[k] == Cell(a, b, i, k) && rowMin <= cur[k]
  {
    hide Cell, Min3;
    CellBorder(a, b, i, 0);
    cur[0] := i;
    rowMin := cur[0];
    for j := 1 to |b| + 1
      invariant forall k :: 0 <= k < j ==> cur[k] == Cell(a, b, i, k)
      invariant forall k :: 0 <= k < j ==> rowMin <= cur[k]
    {
      CellStep(a, b, i, j);
      var cost := if a[i - 1] == b[j - 1] then 0 else 1;
      var m := Min3(prev1[j] + 1, cur[j - 1] + 1, prev1[j - 1] + cost);
      if i > 1 && j > 1 && a[i - 1] == b[j - 2] && a[i - 2] == b[j - 1] {
        var t := prev2[j - 2] + 1;
        if t < m {
          m := t;
        }
      }
      cur[j] := m;
      if m < rowMin {
        rowMin := m;
      }
    }
  }

  // The bounded form: exact up to the ceiling, "farther than you care about" beyond it.
  method OsaDistanceBounded(a: string, b: string, maxDist: int) returns (d: int)
    ensures Distance(a, b) <= maxDist ==> d == Distance(a, b)
    ensures Distance(a, b) > maxDist ==> d > maxDist
  {
    hide Cell, Min3;
    CellBorder(a, b, |a|, |b|);
    DistanceWithinLengths(a, b);
    var la, lb := |a|, |b|;
    if la - lb > maxDist || lb - la > maxDist {
      return maxDist + 1;
    }
    if la == 0 {
      return lb;
    }
    if lb == 0 {
      return la;
    }
    var prev2 := new int[lb + 1];
    var prev1 := new int[lb + 1];
    var cur := new int[lb + 1];
    for j := 0 to lb + 1
      invariant forall k :: 0 <= k < j ==> prev1[k] == Cell(a, b, 0, k)
    {
      CellBorder(a, b, 0, j);
      prev1[j] := j;
    }
    var prevRowMin := 0;
    for i := 1 to la + 1
      invariant prev1 != prev2 && prev1 != cur && prev2 != cur
      invariant prev1.Length == prev2.Length == cur.Length == lb + 1
      invariant fresh(prev1) && fresh(prev2) && fresh(cur)
      invariant forall k :: 0 <= k <= lb ==> prev1[k] == Cell(a, b, i - 1, k)
      invariant i > 1 ==> forall k :: 0 <= k <= lb ==> prev2[k] == Cell(a, b, i - 2, k)
      invariant forall k :: 0 <= k <= lb ==> prevRowMin <= prev1[k]
    {
      var rowMin := FillRow(a, b, i, prev2, prev1, cur);
      if i > 1 && rowMin > maxDist && prevRowMin > maxDist {
        EarlyExit(a, b, i, maxDist, cur[..]);
        return maxDist + 1;
      }
      prevRowMin := rowMin;
      prev2, prev1, cur := prev1, cur, prev2;
    }
    return prev1[lb];
  }
}
