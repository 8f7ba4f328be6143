// The typosquat check (VC-006): which popular name, by exact distance, a package name nearly is.
module Typosquat {
  import opened Prelude
  import opened OsaDistance

  const MIN_LEN := 5
  const DIST2_MIN_LEN := 10
  const MAX_DIST := 2

  // Go measures names in bytes: the UTF-8 width of a code point.
  function Utf8Width(c: char): nat {
    var n := c as int;
    if n < 0x80 then 1 else if n < 0x800 then 2 else if n < 0x1_0000 then 3 else 4
  }

  function ByteLength(s: string): nat {
    if s == [] then 0 else Utf8Width(s[0]) + ByteLength(s[1..])
  }

  predicate IsAllDigits(s: string) {
    s != "" && forall i :: 0 <= i < |s| ==> '0' <= s[i] <= '9'
  }

  function TrimSeparators(s: string): string {
    if s != "" && s[0] in "-._" then TrimSeparators(s[1..]) else s
  }

  // bare is target followed by nothing but a version token.
  predicate IsVersionedSuccessor(bare: string, target: string) {
    target != "" && bare != target && target <= bare && IsAllDigits(TrimSeparators(bare[|target|..]))
  }

  datatype Match = Match(nearest: string, distance: nat, confidence: real)

  // ----- Specification, in terms of the exact distance -----

  // k is the first corpus entry at the least distance from bare.
  ghost predicate IsFirstNearest(bare: string, corpus: seq<string>, k: nat) {
    && k < |corpus|
    && (forall i :: 0 <= i < |corpus| ==> Distance(bare, corpus[k]) <= Distance(bare, corpus[i]))
    && (forall i :: 0 <= i < k ==> Distance(bare, corpus[k]) < Distance(bare, corpus[i]))
  }

  // The distances that make a finding, and how sure of it the check is.
  function Confidence(d: int, length: nat): Option<real> {
    if d == 1 then Some(0.6)
    else if d == 2 && length >= DIST2_MIN_LEN then Some(0.4)
    else None
  }

  // The answer the exact search gives for a name that is not itself in the corpus.
  ghost predicate IsVerdict(bare: string, corpus: seq<string>, r: Option<Match>) {
    match r
    case Some(m) =>
      && (exists k: nat :: IsFirstNearest(bare, corpus, k) && corpus[k] == m.nearest)
      && m.distance == Distance(bare, m.nearest)
      && Confidence(m.distance, ByteLength(bare)) == Some(m.confidence)
      && !IsVersionedSuccessor(bare, m.nearest)
    case None =>
      forall k: nat :: IsFirstNearest(bare, corpus, k) ==>
        Confidence(Distance(bare, corpus[k]), ByteLength(bare)) == None || IsVersionedSuccessor(bare, corpus[k])
  }

  lemma FirstNearestIsUnique(bare: string, corpus: seq<string>, k: nat, l: nat)
    requires IsFirstNearest(bare, corpus, k) && IsFirstNearest(bare, corpus, l)
    ensures k == l
  {
    hide Distance;
    assert Distance(bare, corpus[k]) == Distance(bare, corpus[l]);
  }

  // The verdict is determined by the exact distances, whatever the bounded search reports above
  // its ceiling.
  lemma VerdictIsUnique(bare: string, corpus: seq<string>, r: Option<Match>, s: Option<Match>)
    requires IsVerdict(bare, corpus, r) && IsVerdict(bare, corpus, s)
    ensures r == s
  {
    hide Distance, IsFirstNearest;
    forall k: nat, l: nat | IsFirstNearest(bare, corpus, k) && IsFirstNearest(bare, corpus, l)
      ensures k == l
    {
      FirstNearestIsUnique(bare, corpus, k, l);
    }
  }

  // ----- The search -----

  // The loop of Run: best starts beyond every distance that matters, and stops at 1.
  method Search(bare: string, corpus: seq<string>) returns (best: int, nearest: string)
    requires bare !in corpus
    ensures best <= MAX_DIST ==>
              exists k: nat :: IsFirstNearest(bare, corpus, k) && nearest == corpus[k] &&
                  best == Distance(bare, corpus[k])
    ensures best > MAX_DIST ==> forall i :: 0 <= i < |corpus| ==> Distance(bare, corpus[i]) > MAX_DIST
  {
    hide Distance;
    best, nearest := 99, "";
    ghost var at := 0;
    for n := 0 to |corpus|
      invariant best > MAX_DIST ==> forall i :: 0 <= i < n ==> Distance(bare, corpus[i]) > MAX_DIST
      invariant best <= MAX_DIST ==> at < n && nearest == corpus[at] && best == Distance(bare, corpus[at])
      invariant best <= MAX_DIST ==> forall i :: 0 <= i < n ==> best <= Distance(bare, corpus[i])
      invariant best <= MAX_DIST ==> forall i :: 0 <= i < at ==> best < Distance(bare, corpus[i])
      invariant best != 1
    {
      var d := OsaDistanceBounded(bare, corpus[n], MAX_DIST);
      DistanceZeroOnlyOnEqual(bare, corpus[n]);
      if d < best {
        best, nearest := d, corpus[n];
        at := n;
      }
      if best == 1 {
        forall i | 0 <= i < |corpus|
          ensures best <= Distance(bare, corpus[i])
        {
          DistanceZeroOnlyOnEqual(bare, corpus[i]);
        }
        assert IsFirstNearest(bare, corpus, at);
        return;
      }
    }
    if best <= MAX_DIST {
      assert IsFirstNearest(bare, corpus, at);
    }
  }

  // The part of Run that judges one unscoped name: None when the name is too short, is itself
  // popular, is nowhere near a popular name, or merely appends a version token to one.
  method Judge(bare: string, corpus: seq<string>) returns (r: Option<Match>)
    ensures ByteLength(bare) < MIN_LEN || bare in corpus ==> r == None
    ensures ByteLength(bare) >= MIN_LEN && bare !in corpus ==> IsVerdict(bare, corpus, r)
  {
    hide Distance;
    var length := ByteLength(bare);
    if length < MIN_LEN {
      return None;
    }
    if bare in corpus {
      return None;
    }
    var best, nearest := Search(bare, corpus);
    if best <= MAX_DIST {
      forall k: nat, l: nat | IsFirstNearest(bare, corpus, k) && IsFirstNearest(bare, corpus, l)
        ensures k == l
      {
        FirstNearestIsUnique(bare, corpus, k, l);
      }
    }
    var conf := Confidence(best, length);
    if conf == None {
      return None;
    }
    if IsVersionedSuccessor(bare, nearest) {
      return None;
    }
    return Some(Match(nearest, best, conf.value));
  }

  // ----- In numbers and characters -----

  // A finding is made exactly on a name of at least five bytes that is not popular, is at distance 1 from
  // the nearest popular name, or at distance 2 with at least ten bytes, and is not that name with a version
  // appended; the check is surer of distance 1.
  lemma FoundExactly(bare: string, corpus: seq<string>, r: Option<Match>)
    requires ByteLength(bare) < MIN_LEN || bare in corpus ==> r == None
    requires ByteLength(bare) >= MIN_LEN && bare !in corpus ==> IsVerdict(bare, corpus, r)
    ensures r.Some? <==>
              && ByteLength(bare) >= 5 && bare !in corpus
              && exists k: nat :: k < |corpus| && IsFirstNearest(bare, corpus, k) &&
                  !IsVersionedSuccessor(bare, corpus[k]) &&
                    (Distance(bare, corpus[k]) == 1 || (Distance(bare, corpus[k]) == 2 && ByteLength(bare) >= 10))
    ensures r.Some? ==>
              && (exists k: nat :: k < |corpus| && IsFirstNearest(bare, corpus, k) && r.value.nearest == corpus[k])
              && r.value.distance == Distance(bare, r.value.nearest)
              && r.value.confidence == if r.value.distance == 1 then 0.6 else 0.4
  {
    hide Distance, IsVersionedSuccessor, ByteLength;
    if r.Some? {
      var k: nat :| k < |corpus| && IsFirstNearest(bare, corpus, k) && corpus[k] == r.value.nearest;
    }
  }

  predicate AllIn(s: string, chars: string) {
    forall i :: 0 <= i < |s| ==> s[i] in chars
  }

  // bare is target, then any of "-", "." and "_", then digits.
  ghost predicate AppendsVersion(bare: string, target: string, separators: string, digits: string) {
    && bare == target + separators + digits && AllIn(separators, "-._")
    && digits != "" && forall i :: 0 <= i < |digits| ==> '0' <= digits[i] <= '9'
  }

  lemma SuccessorExactly(bare: string, target: string)
    ensures IsVersionedSuccessor(bare, target) <==>
              target != "" && exists separators, digits :: AppendsVersion(bare, target, separators, digits)
  {
    if IsVersionedSuccessor(bare, target) {
      var rest := bare[|target|..];
      var separators := Trimmed(rest);
      assert bare == target + rest;
      assert AppendsVersion(bare, target, separators, TrimSeparators(rest));
    }
    if separators, digits :| target != "" && AppendsVersion(bare, target, separators, digits) {
      assert target <= bare && bare[|target|..] == separators + digits;
      TrimsAll(separators, digits);
    }
  }

  // There may be more than one separator.
  lemma SeparatorsRepeat(target: string)
    requires target != ""
    ensures IsVersionedSuccessor(target + "-_." + "4", target)
  {
    assert AppendsVersion(target + "-_." + "4", target, "-_.", "4");
    SuccessorExactly(target + "-_." + "4", target);
  }

  lemma {:induction false} Trimmed(s: string) returns (separators: string)
    ensures s == separators + TrimSeparators(s) && AllIn(separators, "-._")
  {
    separators := "";
    if s != "" && s[0] in "-._" {
      var rest := Trimmed(s[1..]);
      separators := [s[0]] + rest;
      assert s == [s[0]] + s[1..];
    }
  }

  lemma {:induction false} TrimsAll(separators: string, digits: string)
    requires AllIn(separators, "-._") && IsAllDigits(digits)
    ensures TrimSeparators(separators + digits) == digits
  {
    if separators == "" {
      assert separators + digits == digits && digits[0] !in "-._";
    } else {
      TrimsAll(separators[1..], digits);
      assert (separators + digits)[1..] == separators[1..] + digits;
    }
  }

  // Bytes of UTF-8, character by character.
  lemma {:induction false} BytesAreAdded(a: string, b: string)
    ensures ByteLength(a + b) == ByteLength(a) + ByteLength(b)
  {
    if a == "" {
      assert a + b == b;
    } else {
      BytesAreAdded(a[1..], b);
      assert (a + b)[1..] == a[1..] + b;
    }
  }

  lemma BytesOfOne(c: char)
    ensures ByteLength([c]) == if c <= '\U{7F}' then 1 else if c <= '\U{7FF}' then 2 else if c <= '\U{FFFF}' then 3
            else 4
  {
    assert [c][1..] == "";
  }
}
