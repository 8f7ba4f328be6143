// Building total preorders: by a key, one after another, along a sequence.
module Orders {
  import opened Prelude
  import opened Sorting

  // The three-way integer comparison every version package defines.
  function CmpInt(a: int, b: int): int {
    if a < b then -1 else if a > b then 1 else 0
  }

  // strings.Compare.
  function CmpText(a: string, b: string): int {
    if a == b then 0 else if StringLess(a, b) then -1 else 1
  }

  // The second comparison decides when the first does not.
  function Then(first: int, second: int): int {
    if first != 0 then first else second
  }

  lemma IntsArePreordered()
    ensures TotalPreorder(CmpInt)
  {
  }

  lemma TextIsPreordered()
    ensures TotalPreorder(CmpText)
  {
    hide StringLess;
    StringOrder();
  }

  // Comparing by a key.
  ghost predicate ByKey<T(!new), K(!new)>(cmp: (T, T) -> int, key: T -> K, on: (K, K) -> int) {
    forall x, y :: cmp(x, y) == on(key(x), key(y))
  }

  lemma KeyedIsPreordered<T(!new), K(!new)>(cmp: (T, T) -> int, key: T -> K, on: (K, K) -> int)
    requires TotalPreorder(on) && ByKey(cmp, key, on)
    ensures TotalPreorder(cmp)
  {
    forall x, y
      ensures cmp(x, y) < 0 <==> cmp(y, x) > 0
    {
      assert cmp(x, y) == on(key(x), key(y)) && cmp(y, x) == on(key(y), key(x));
    }
    forall x, y, z | cmp(x, y) <= 0 && cmp(y, z) <= 0
      ensures cmp(x, z) <= 0
    {
      assert cmp(x, y) == on(key(x), key(y)) && cmp(y, z) == on(key(y), key(z)) && cmp(x, z) == on(key(x), key(z));
    }
  }

  lemma ChainedIsPreordered<T(!new)>(cmp: (T, T) -> int, first: (T, T) -> int, second: (T, T) -> int)
    requires TotalPreorder(first) && TotalPreorder(second)
    requires forall x, y :: cmp(x, y) == Then(first(x, y), second(x, y))
    ensures TotalPreorder(cmp)
  {
    forall x, y
      ensures cmp(x, y) < 0 <==> cmp(y, x) > 0
    {
      assert cmp(x, y) == Then(first(x, y), second(x, y)) && cmp(y, x) == Then(first(y, x), second(y, x));
    }
    forall x, y, z | cmp(x, y) <= 0 && cmp(y, z) <= 0
      ensures cmp(x, z) <= 0
    {
      assert cmp(x, y) == Then(first(x, y), second(x, y)) && cmp(y, z) == Then(first(y, z), second(y, z));
      assert first(x, z) <= 0;
      if first(x, z) == 0 {
        assert first(z, x) <= 0 && first(z, y) <= 0 && first(y, x) <= 0;
      }
      assert cmp(x, z) == Then(first(x, z), second(x, z));
    }
  }

  // Element by element; when one sequence runs out, the shorter comes first.
  function CmpSeq<T>(on: (T, T) -> int, a: seq<T>, b: seq<T>): int {
    if a == [] || b == [] then CmpInt(|a|, |b|) else Then(on(a[0], b[0]), CmpSeq(on, a[1..], b[1..]))
  }

  lemma {:induction false} CmpSeqFlips<T(!new)>(on: (T, T) -> int, a: seq<T>, b: seq<T>)
    requires TotalPreorder(on)
    ensures CmpSeq(on, a, b) < 0 <==> CmpSeq(on, b, a) > 0
    decreases |a|
  {
    if a != [] && b != [] {
      assert on(a[0], b[0]) < 0 <==> on(b[0], a[0]) > 0;
      assert on(b[0], a[0]) < 0 <==> on(a[0], b[0]) > 0;
      CmpSeqFlips(on, a[1..], b[1..]);
    }
  }

  lemma {:induction false} CmpSeqTransitive<T(!new)>(on: (T, T) -> int, a: seq<T>, b: seq<T>, c: seq<T>)
    requires TotalPreorder(on) && CmpSeq(on, a, b) <= 0 && CmpSeq(on, b, c) <= 0
    ensures CmpSeq(on, a, c) <= 0
    decreases |a|
  {
    if a != [] && b != [] && c != [] {
      var x, y, z := a[0], b[0], c[0];
      assert on(x, y) <= 0 && on(y, z) <= 0 && on(x, z) <= 0;
      if on(x, z) == 0 {
        assert on(z, x) <= 0 && on(z, y) <= 0 && on(y, x) <= 0;
        CmpSeqTransitive(on, a[1..], b[1..], c[1..]);
      }
    }
  }

  lemma SequencesArePreordered<T(!new)>(on: (T, T) -> int, cmp: (seq<T>, seq<T>) -> int)
    requires TotalPreorder(on) && forall a, b :: cmp(a, b) == CmpSeq(on, a, b)
    ensures TotalPreorder(cmp)
  {
    forall a, b
      ensures cmp(a, b) < 0 <==> cmp(b, a) > 0
    {
      CmpSeqFlips(on, a, b);
    }
    forall a, b, c | cmp(a, b) <= 0 && cmp(b, c) <= 0
      ensures cmp(a, c) <= 0
    {
      CmpSeqTransitive(on, a, b, c);
    }
  }

  // a and b are level up to i, and there a ends or has the smaller element.
  ghost predicate BeforeAt<T(!new)>(on: (T, T) -> int, a: seq<T>, b: seq<T>, i: nat) {
    && i <= |a| && i < |b| && (forall j :: 0 <= j < i ==> on(a[j], b[j]) == 0)
    && (i < |a| ==> on(a[i], b[i]) < 0)
  }

  lemma {:induction false} CmpSeqExactly<T(!new)>(on: (T, T) -> int, a: seq<T>, b: seq<T>)
    ensures CmpSeq(on, a, b) < 0 <==> exists i: nat :: BeforeAt(on, a, b, i)
    decreases |a|
  {
    if a == [] || b == [] || on(a[0], b[0]) != 0 {
      if CmpSeq(on, a, b) < 0 {
        assert BeforeAt(on, a, b, 0);
      }
    } else {
      CmpSeqExactly(on, a[1..], b[1..]);
      if i: nat :| BeforeAt(on, a[1..], b[1..], i) {
        assert BeforeAt(on, a, b, i + 1) by {
          forall j | 0 <= j < i + 1
            ensures on(a[j], b[j]) == 0
          {
            assert j > 0 ==> a[j] == a[1..][j - 1] && b[j] == b[1..][j - 1];
          }
        }
      }
      if i: nat :| BeforeAt(on, a, b, i) {
        assert i > 0;
        assert BeforeAt(on, a[1..], b[1..], i - 1);
      }
    }
  }

  // The same, but a sequence that ran out counts as zeros from there on.
  function At(s: seq<int>, i: nat): int {
    if i < |s| then s[i] else 0
  }

  // The sign of the first position where the padded sequences differ.
  ghost predicate IsPadded(a: seq<int>, b: seq<int>, c: int) {
    || (c == 0 && forall i: nat :: At(a, i) == At(b, i))
    || (c == -1 && exists i: nat :: FirstDifference(a, b, i) && At(a, i) < At(b, i))
    || (c == 1 && exists i: nat :: FirstDifference(a, b, i) && At(a, i) > At(b, i))
  }

  ghost predicate FirstDifference(a: seq<int>, b: seq<int>, i: nat) {
    At(a, i) != At(b, i) && forall j: nat :: j < i ==> At(a, j) == At(b, j)
  }

  function CmpPadded(a: seq<int>, b: seq<int>): (c: int)
    ensures IsPadded(a, b, c)
  {
    CmpPaddedFrom(a, b, 0)
  }

  function CmpPaddedFrom(a: seq<int>, b: seq<int>, i: nat): (c: int)
    requires forall j: nat :: j < i ==> At(a, j) == At(b, j)
    ensures IsPadded(a, b, c)
    decreases Max(|a|, |b|) - i
  {
    if i >= |a| && i >= |b| then 0
    else if At(a, i) != At(b, i) then
      assert FirstDifference(a, b, i);
      CmpInt(At(a, i), At(b, i))
    else CmpPaddedFrom(a, b, i + 1)
  }

  lemma FirstDifferenceUnique(a: seq<int>, b: seq<int>, i: nat, j: nat)
    requires FirstDifference(a, b, i) && FirstDifference(a, b, j)
    ensures i == j
  {
  }

  lemma PaddedIsUnique(a: seq<int>, b: seq<int>, c: int, d: int)
    requires IsPadded(a, b, c) && IsPadded(a, b, d)
    ensures c == d
  {
    hide At;
    if c != 0 && d != 0 {
      var i: nat :| FirstDifference(a, b, i) && (c < 0 <==> At(a, i) < At(b, i));
      var j: nat :| FirstDifference(a, b, j) && (d < 0 <==> At(a, j) < At(b, j));
      FirstDifferenceUnique(a, b, i, j);
    }
  }

  lemma PaddedFlips(a: seq<int>, b: seq<int>)
    ensures CmpPadded(a, b) == -CmpPadded(b, a)
  {
    hide At, CmpPadded;
    if CmpPadded(a, b) != 0 {
      var i: nat :| FirstDifference(a, b, i);
      assert FirstDifference(b, a, i);
    }
    assert IsPadded(b, a, -CmpPadded(a, b));
    PaddedIsUnique(b, a, -CmpPadded(a, b), CmpPadded(b, a));
  }

  lemma PaddedTransitive(a: seq<int>, b: seq<int>, c: seq<int>)
    requires CmpPadded(a, b) <= 0 && CmpPadded(b, c) <= 0
    ensures CmpPadded(a, c) <= 0
  {
    hide At, CmpPadded;
    if CmpPadded(a, c) > 0 {
      var i: nat :| FirstDifference(a, c, i) && At(a, i) > At(c, i);
      assert At(a, i) > At(b, i) || At(b, i) > At(c, i);
      var j: nat :| j <= i && (FirstDifference(a, b, j) || FirstDifference(b, c, j)) && forall k: nat :: k < j ==>
          At(a, k) == At(b, k) == At(c, k) by {
        FirstSplit(a, b, c, i);
      }
      PaddedSign(a, b, j);
      PaddedSign(b, c, j);
    }
  }

  lemma {:induction false} FirstSplit(a: seq<int>, b: seq<int>, c: seq<int>, i: nat)
    requires At(a, i) != At(b, i) || At(b, i) != At(c, i)
    ensures exists j: nat :: j <= i && (FirstDifference(a, b, j) || FirstDifference(b, c, j))
                             && forall k: nat :: k < j ==> At(a, k) == At(b, k) == At(c, k)
    decreases i
  {
    hide At;
    if k: nat :| k < i && !(At(a, k) == At(b, k) == At(c, k)) {
      FirstSplit(a, b, c, k);
    } else {
      assert FirstDifference(a, b, i) || FirstDifference(b, c, i);
    }
  }

  lemma PaddedSign(a: seq<int>, b: seq<int>, i: nat)
    ensures FirstDifference(a, b, i) && CmpPadded(a, b) <= 0 ==> At(a, i) < At(b, i)
  {
  }

  lemma PaddedIsPreordered()
    ensures TotalPreorder(CmpPadded)
  {
    hide CmpPadded;
    forall a, b
      ensures CmpPadded(a, b) < 0 <==> CmpPadded(b, a) > 0
    {
      PaddedFlips(a, b);
    }
    forall a, b, c | CmpPadded(a, b) <= 0 && CmpPadded(b, c) <= 0
      ensures CmpPadded(a, c) <= 0
    {
      PaddedTransitive(a, b, c);
    }
  }
}
