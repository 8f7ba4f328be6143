// Python literals and comments in characters: where a literal begins and ends, and what is kept.
module PyLiterals {
  import opened PyScan
  import opened PyStrip

  // ----- Where a literal begins -----

  // At most two prefix letters, then a quote.
  predicate OpensAt(s: string, i: nat, q: nat) {
    i <= q <= i + 2 && q < |s| && s[q] in "\"'" && forall k :: i <= k < q ==> s[k] in "rRbBuUfF"
  }

  lemma OpenExactly(s: string, i: nat)
    requires i <= |s|
    ensures forall q: nat :: StringOpen(s, i) == q <==> OpensAt(s, i, q)
    ensures StringOpen(s, i) == -1 <==> forall q: nat :: !OpensAt(s, i, q)
  {
    forall c: char
      ensures IsPrefixLetter(c) <==> c in "rRbBuUfF"
      ensures IsQuote(c) <==> c in "\"'"
    {
    }
    forall q: nat
      ensures StringOpen(s, i) == q <==> OpensAt(s, i, q)
    {
      if OpensAt(s, i, q) {
        SkipsTo(s, i, i + 2, q);
      }
    }
    var q := StringOpen(s, i);
    assert q >= 0 ==> OpensAt(s, i, q);
  }

  lemma {:induction false} SkipsTo(s: string, i: nat, limit: nat, q: nat)
    requires i <= q <= limit && q < |s| && IsQuote(s[q]) && forall k :: i <= k < q ==> IsPrefixLetter(s[k])
    ensures SkipPrefix(s, i, limit) == q
    decreases q - i
  {
    assert !IsPrefixLetter(s[q]);
    if i < q {
      SkipsTo(s, i + 1, limit, q);
    }
  }

  // ----- Where it ends -----

  // Reading from start one character at a time, a backslash taking the next one along, comes to i.
  ghost predicate ComesTo(s: string, start: nat, i: nat)
    decreases i - start
  {
    start == i || (start < i && start < |s| && ComesTo(s, if s[start] == '\\' then start + 2 else start + 1, i))
  }

  // A quote, or the end of the line, that is come to: where a literal in single marks ends.
  ghost predicate StopsSingle(s: string, q: char, start: nat, i: nat) {
    i < |s| && ComesTo(s, start, i) && s[i] != '\\' && (s[i] == q || s[i] == '\n')
  }

  // It ends just past the first such quote or just before the first such line end, or with the text.
  lemma {:induction false} SingleEndExactly(s: string, q: char, start: nat)
    requires q == '"' || q == '\''
    ensures forall i: nat :: StopsSingle(s, q, start, i) &&
                               (forall k: nat :: start <= k < i ==> !StopsSingle(s, q, start, k)) ==>
              SingleEnd(s, q, start) == if s[i] == q then i + 1 else i
    ensures (forall i: nat :: !StopsSingle(s, q, start, i)) ==> SingleEnd(s, q, start) == |s|
    decreases |s| - start
  {
    if start < |s| && (s[start] == '\\' || (s[start] != q && s[start] != '\n')) {
      var next := if s[start] == '\\' then start + 2 else start + 1;
      SingleEndExactly(s, q, next);
      forall i: nat
        ensures StopsSingle(s, q, start, i) <==> StopsSingle(s, q, next, i)
      {
        if StopsSingle(s, q, next, i) {
          ComesLater(s, next, i);
        }
      }
      forall k: nat | start <= k < next
        ensures !StopsSingle(s, q, next, k)
      {
        if ComesTo(s, next, k) {
          ComesLater(s, next, k);
        }
      }
    } else if start < |s| {
      assert StopsSingle(s, q, start, start);
    } else {
      forall i: nat
        ensures !StopsSingle(s, q, start, i)
      {
        if ComesTo(s, start, i) {
          ComesLater(s, start, i);
        }
      }
    }
  }

  lemma ComesLater(s: string, start: nat, i: nat)
    requires ComesTo(s, start, i)
    ensures start <= i
  {
  }

  predicate ThreeAt(s: string, q: char, i: nat) {
    i + 2 < |s| && s[i] == q && s[i + 1] == q && s[i + 2] == q
  }

  // Three quotes that are come to: where a literal in triple marks ends, and line ends do not.
  ghost predicate StopsTriple(s: string, q: char, start: nat, i: nat) {
    ComesTo(s, start, i) && ThreeAt(s, q, i)
  }

  lemma {:induction false} TripleEndExactly(s: string, q: char, start: nat)
    requires q == '"' || q == '\''
    ensures forall i: nat :: StopsTriple(s, q, start, i) &&
                             (forall k: nat :: start <= k < i ==> !StopsTriple(s, q, start, k)) ==>
              TripleEnd(s, q, start) == i + 3
    ensures (forall i: nat :: !StopsTriple(s, q, start, i)) ==> TripleEnd(s, q, start) == |s|
    decreases |s| - start
  {
    if start < |s| && !ThreeAt(s, q, start) {
      var next := if s[start] == '\\' then start + 2 else start + 1;
      TripleEndExactly(s, q, next);
      assert TripleEnd(s, q, start) == TripleEnd(s, q, next);
      TripleSteps(s, q, start, next);
      TripleOn(s, q, start, next);
    } else if start < |s| {
      assert StopsTriple(s, q, start, start);
      forall i: nat | StopsTriple(s, q, start, i)
        ensures start <= i
      {
        ComesLater(s, start, i);
      }
    } else {
      forall i: nat
        ensures !StopsTriple(s, q, start, i)
      {
        if ComesTo(s, start, i) {
          ComesLater(s, start, i);
        }
      }
    }
  }

  lemma TripleOn(s: string, q: char, start: nat, next: nat)
    requires start < next && TripleEnd(s, q, start) == TripleEnd(s, q, next)
    requires forall i: nat :: StopsTriple(s, q, start, i) <==> StopsTriple(s, q, next, i)
    requires forall i: nat :: StopsTriple(s, q, next, i) &&
                              (forall k: nat :: next <= k < i ==> !StopsTriple(s, q, next, k)) ==>
               TripleEnd(s, q, next) == i + 3
    ensures forall i: nat :: StopsTriple(s, q, start, i) &&
                             (forall k: nat :: start <= k < i ==> !StopsTriple(s, q, start, k)) ==>
              TripleEnd(s, q, start) == i + 3
  {
    hide TripleEnd, StopsTriple;
  }

  lemma TripleSteps(s: string, q: char, start: nat, next: nat)
    requires start < |s| && !ThreeAt(s, q, start) && next == if s[start] == '\\' then start + 2 else start + 1
    ensures forall i: nat :: StopsTriple(s, q, start, i) <==> StopsTriple(s, q, next, i)
    ensures forall k: nat :: start <= k < next ==> !StopsTriple(s, q, next, k)
  {
    hide ThreeAt;
    forall i: nat | ComesTo(s, next, i)
      ensures next <= i
    {
      ComesLater(s, next, i);
    }
  }

  // A literal opened by one quote ends so, and one opened by three of a kind ends by three.
  lemma EndByMarks(s: string, i: nat)
    requires i < |s|
    ensures StringEnd(s, i) ==
            if i + 2 < |s| && s[i + 1] == s[i] && s[i + 2] == s[i] then TripleEnd(s, s[i], i + 3)
            else SingleEnd(s, s[i], i + 1)
  {
  }
}
