// Python versions: their order, and the specifiers that select among them.
module Pep440 {
  import opened Prelude
  import opened Sorting
  import opened Orders

  // A parsed version; numbers are never negative.  original is the text as written, trimmed.
  datatype Version = Version(
    valid: bool,
    original: string,
    epoch: nat,
    release: seq<nat>,
    hasPre: bool,
    preKind: string,
    preNum: nat,
    hasPost: bool,
    postNum: nat,
    hasDev: bool,
    devNum: nat,
    local: string)
  {
    predicate IsPrerelease() {
      hasPre || hasDev
    }
  }

  // ----- The order -----

  method CmpRelease(a: seq<nat>, b: seq<nat>) returns (c: int)
    ensures c == CmpPadded(a, b)
  {
    var n := |a|;
    if |b| > n {
      n := |b|;
    }
    for i := 0 to n
      invariant forall j: nat :: j < i ==> At(a, j) == At(b, j)
      invariant CmpPadded(a, b) == CmpPaddedFrom(a, b, i)
    {
      c := CmpInt(At(a, i), At(b, i));
      if c != 0 {
        return c;
      }
    }
    return 0;
  }

  // Development releases of a final version come before its pre-releases, those before the rest.
  function PreRank(v: Version): int {
    if v.hasPre then 0 else if v.hasDev && !v.hasPost then -1 else 1
  }

  function KindRank(k: string): int {
    if k == "a" then 0 else if k == "b" then 1 else 2
  }

  function PostRank(v: Version): int {
    if v.hasPost then v.postNum else -1
  }

  const NO_DEV := 0x4000_0000

  // The absence of a development number is a large but finite rank.
  function DevRank(v: Version): int {
    if v.hasDev then v.devNum else NO_DEV
  }

  // A local version comes after the same version without one; locals compare as text.
  function CmpLocal(a: Version, b: Version): int {
    if a.local == b.local then 0
    else if a.local == "" then -1
    else if b.local == "" then 1
    else if StringLess(a.local, b.local) then -1
    else 1
  }

  function Compare(a: Version, b: Version): int {
    if CmpInt(a.epoch, b.epoch) != 0 then CmpInt(a.epoch, b.epoch)
    else if CmpPadded(a.release, b.release) != 0 then CmpPadded(a.release, b.release)
    else if CmpInt(PreRank(a), PreRank(b)) != 0 then CmpInt(PreRank(a), PreRank(b))
    else if a.hasPre && b.hasPre && CmpInt(KindRank(a.preKind), KindRank(b.preKind)) != 0 then
      CmpInt(KindRank(a.preKind), KindRank(b.preKind))
    else if a.hasPre && b.hasPre && CmpInt(a.preNum, b.preNum) != 0 then CmpInt(a.preNum, b.preNum)
    else if CmpInt(PostRank(a), PostRank(b)) != 0 then CmpInt(PostRank(a), PostRank(b))
    else if CmpInt(DevRank(a), DevRank(b)) != 0 then CmpInt(DevRank(a), DevRank(b))
    else CmpLocal(a, b)
  }

  // Everything after the release segment but the local one, as numbers.
  function Phase(v: Version): seq<int> {
    [PreRank(v), if v.hasPre then KindRank(v.preKind) else 0, if v.hasPre then v.preNum else 0, PostRank(v), DevRank(v)]
  }

  function CmpPhase(a: Version, b: Version): int {
    CmpSeq(CmpInt, Phase(a), Phase(b))
  }

  function Epoch(v: Version): int {
    v.epoch
  }

  function Release(v: Version): seq<int> {
    v.release
  }

  function CmpEpoch(a: Version, b: Version): int {
    CmpInt(a.epoch, b.epoch)
  }

  function CmpReleases(a: Version, b: Version): int {
    CmpPadded(a.release, b.release)
  }

  lemma CmpPhaseSteps(a: Version, b: Version)
    ensures CmpPhase(a, b) == Then(CmpInt(PreRank(a), PreRank(b)),
                                   Then(CmpInt(Phase(a)[1], Phase(b)[1]),
                                        Then(CmpInt(Phase(a)[2], Phase(b)[2]),
                                             Then(CmpInt(PostRank(a), PostRank(b)), CmpInt(DevRank(a), DevRank(b))))))
  {
    hide PreRank, KindRank, PostRank, DevRank;
    var p, q := Phase(a), Phase(b);
    assert p[1..][1..] == p[2..] && p[2..][1..] == p[3..] && p[3..][1..] == p[4..] && p[4..][1..] == [];
    assert q[1..][1..] == q[2..] && q[2..][1..] == q[3..] && q[3..][1..] == q[4..] && q[4..][1..] == [];
    assert CmpSeq(CmpInt, p[4..], q[4..]) == CmpInt(p[4], q[4]);
    assert CmpSeq(CmpInt, p[3..], q[3..]) == Then(CmpInt(p[3], q[3]), CmpSeq(CmpInt, p[4..], q[4..]));
    assert CmpSeq(CmpInt, p[2..], q[2..]) == Then(CmpInt(p[2], q[2]), CmpSeq(CmpInt, p[3..], q[3..]));
    assert CmpSeq(CmpInt, p[1..], q[1..]) == Then(CmpInt(p[1], q[1]), CmpSeq(CmpInt, p[2..], q[2..]));
  }

  // The case analysis is one comparison after another.
  lemma CompareIsChained(a: Version, b: Version)
    ensures Compare(a, b) == Then(CmpEpoch(a, b), Then(CmpReleases(a, b), Then(CmpPhase(a, b), CmpLocal(a, b))))
  {
    CmpPhaseSteps(a, b);
    hide CmpPadded, CmpLocal, CmpSeq, KindRank;
  }

  lemma LocalIsPreordered()
    ensures TotalPreorder(CmpLocal)
  {
    hide StringLess;
    StringOrder();
  }

  lemma CompareIsTotalPreorder()
    ensures TotalPreorder(Compare)
  {
    hide Compare, CmpLocal, CmpPadded, CmpSeq, Phase;
    var byPhaseAndLocal := (a, b) => Then(CmpPhase(a, b), CmpLocal(a, b));
    var byRelease := (a, b) => Then(CmpReleases(a, b), byPhaseAndLocal(a, b));
    LocalIsPreordered();
    IntsArePreordered();
    PaddedIsPreordered();
    KeyedIsPreordered(CmpEpoch, Epoch, CmpInt);
    KeyedIsPreordered(CmpReleases, Release, CmpPadded);
    var onPhases := (p, q) => CmpSeq(CmpInt, p, q);
    SequencesArePreordered(CmpInt, onPhases);
    KeyedIsPreordered(CmpPhase, Phase, onPhases);
    ChainedIsPreordered(byPhaseAndLocal, CmpPhase, CmpLocal);
    ChainedIsPreordered(byRelease, CmpReleases, byPhaseAndLocal);
    forall a, b
      ensures Compare(a, b) == Then(CmpEpoch(a, b), byRelease(a, b))
    {
      CompareIsChained(a, b);
    }
    ChainedIsPreordered(Compare, CmpEpoch, byRelease);
  }

  // Two versions compare equal exactly when they agree up to trailing zeros of the release.
  lemma EqualExactly(a: Version, b: Version)
    ensures Compare(a, b) == 0 <==>
              && a.epoch == b.epoch && (forall i: nat :: At(a.release, i) == At(b.release, i))
              && PreRank(a) == PreRank(b) &&
                 (a.hasPre ==> KindRank(a.preKind) == KindRank(b.preKind) && a.preNum == b.preNum)
              && PostRank(a) == PostRank(b) && DevRank(a) == DevRank(b) && a.local == b.local
  {
    hide KindRank, StringLess, CmpPadded;
    assert IsPadded(a.release, b.release, CmpPadded(a.release, b.release));
  }

  // The plain release, without any phase.
  predicate IsFinal(v: Version) {
    !v.hasPre && !v.hasPost && !v.hasDev && v.local == ""
  }

  // Around a final version: its development releases, then its pre-releases, then it, then its
  // post-releases.
  lemma PhasesInOrder(v: Version, dev: nat, kind: string, pre: nat, post: nat)
    requires IsFinal(v)
    ensures var d, p, q := v.(hasDev := true, devNum := dev), v.(hasPre := true, preKind := kind, preNum := pre),
            v.(hasPost := true, postNum := post);
            Compare(d, p) < 0 && Compare(p, v) < 0 && Compare(v, q) < 0
  {
    hide KindRank, CmpLocal;
    assert CmpPadded(v.release, v.release) == 0 by {
      PaddedFlips(v.release, v.release);
    }
    hide CmpPadded;
  }

  // A development release precedes the same version without the mark exactly when that version is
  // final or the number is below the rank that stands for no mark.
  lemma DevBeforeFinalExactly(v: Version)
    requires v.hasDev
    ensures Compare(v, v.(hasDev := false)) < 0 <==> (!v.hasPre && !v.hasPost) || v.devNum < NO_DEV
  {
    hide KindRank;
    assert CmpPadded(v.release, v.release) == 0 by {
      PaddedFlips(v.release, v.release);
    }
    hide CmpPadded;
  }

  // ----- Specifiers -----

  datatype Op = Arbitrary | Equal | NotEqual | Compatible | AtMost | AtLeast | Below | Above

  // One clause of a specifier set, its version already parsed.
  datatype Clause = Clause(op: Op, raw: string, wildcard: bool, ver: Version)

  predicate PrefixMatch(v: Version, prefix: Version) {
    v.epoch == prefix.epoch && |prefix.release| <= |v.release| && forall i :: 0 <= i < |prefix.release| ==>
        v.release[i] == prefix.release[i]
  }

  method MatchPrefix(v: Version, prefix: Version) returns (ok: bool)
    ensures ok == PrefixMatch(v, prefix)
  {
    if v.epoch != prefix.epoch {
      return false;
    }
    if |prefix.release| > |v.release| {
      return false;
    }
    for i := 0 to |prefix.release|
      invariant forall j :: 0 <= j < i ==> v.release[j] == prefix.release[j]
    {
      if v.release[i] != prefix.release[i] {
        return false;
      }
    }
    return true;
  }

  // The local segment of a candidate counts only when the clause has one.
  predicate EqualIgnoringLocal(v: Version, want: Version) {
    Compare(if want.local == "" then v.(local := "") else v, want) == 0
  }

  predicate SameRelease(a: Version, b: Version) {
    a.epoch == b.epoch && CmpPadded(a.release, b.release) == 0
  }

  // All but the last release number.
  function Shortened(v: Version): Version
    requires v.release != []
  {
    Version(true, "", v.epoch, v.release[..|v.release| - 1], false, "", 0, false, 0, false, 0, "")
  }

  function Match(c: Clause, v: Version): Answer {
    match c.op
    case Arbitrary => Bool(v.original == c.raw)
    case Equal => Bool(if c.wildcard then PrefixMatch(v, c.ver) else EqualIgnoringLocal(v, c.ver))
    case NotEqual => Bool(!if c.wildcard then PrefixMatch(v, c.ver) else EqualIgnoringLocal(v, c.ver))
    case Compatible =>
      if |c.ver.release| < 2 then Unreadable
      else if Compare(v, c.ver) < 0 then No
      else Bool(PrefixMatch(v, Shortened(c.ver)))
    case AtMost => Bool(Compare(v, c.ver) <= 0)
    case AtLeast => Bool(Compare(v, c.ver) >= 0)
    case Below =>
      if Compare(v, c.ver) >= 0 then No
      else Bool(!(!c.ver.IsPrerelease() && v.IsPrerelease() && SameRelease(v, c.ver)))
    case Above =>
      if Compare(v, c.ver) <= 0 then No
      else Bool(!(!c.ver.hasPost && v.hasPost && SameRelease(v, c.ver) && !v.hasPre))
  }

  predicate MentionsPrerelease(cs: seq<Clause>) {
    exists i :: 0 <= i < |cs| && cs[i].op != Arbitrary && cs[i].ver.valid && cs[i].ver.IsPrerelease()
  }

  method NamesPrerelease(cs: seq<Clause>) returns (named: bool)
    ensures named == MentionsPrerelease(cs)
  {
    for i := 0 to |cs|
      invariant forall j :: 0 <= j < i ==> !(cs[j].op != Arbitrary && cs[j].ver.valid && cs[j].ver.IsPrerelease())
    {
      if cs[i].op != Arbitrary && cs[i].ver.valid && cs[i].ver.IsPrerelease() {
        return true;
      }
    }
    return false;
  }

  // The clause that decides: the first that is not met.
  ghost predicate Decides(cs: seq<Clause>, v: Version, i: nat) {
    i < |cs| && Match(cs[i], v) != Yes && forall j :: 0 <= j < i ==> Match(cs[j], v) == Yes
  }

  // Evaluating a parsed set: yes when every clause is met and, for a pre-release, some clause names
  // one; otherwise the first clause not met says whether the answer is no or cannot be given.
  ghost predicate IsAnswer(cs: seq<Clause>, v: Version, a: Answer) {
    if !v.valid then a == Unreadable
    else if cs == [] then a == Yes
    else if v.IsPrerelease() && !MentionsPrerelease(cs) then a == No
    else if forall i :: 0 <= i < |cs| ==> Match(cs[i], v) == Yes then a == Yes
    else exists i: nat :: Decides(cs, v, i) && a == Match(cs[i], v)
  }

  method Satisfies(parsed: Option<seq<Clause>>, v: Version) returns (a: Answer)
    ensures parsed.None? ==> a == Unreadable
    ensures parsed.Some? ==> IsAnswer(parsed.value, v, a)
  {
    hide Match;
    if !v.valid {
      return Unreadable;
    }
    if parsed.None? {
      return Unreadable;
    }
    var cs := parsed.value;
    if |cs| == 0 {
      return Yes;
    }
    if v.IsPrerelease() {
      var named := NamesPrerelease(cs);
      if !named {
        return No;
      }
    }
    for i := 0 to |cs|
      invariant forall j :: 0 <= j < i ==> Match(cs[j], v) == Yes
    {
      var m := Match(cs[i], v);
      if m != Yes {
        assert Decides(cs, v, i);
        return m;
      }
    }
    return Yes;
  }

  // The answer as a function of the parsed set.
  function FirstUnmet(cs: seq<Clause>, v: Version): Answer {
    if cs == [] then Yes else if Match(cs[0], v) != Yes then Match(cs[0], v) else FirstUnmet(cs[1..], v)
  }

  function Answered(parsed: Option<seq<Clause>>, v: Version): Answer {
    if !v.valid || parsed.None? then Unreadable
    else if parsed.value == [] then Yes
    else if v.IsPrerelease() && !MentionsPrerelease(parsed.value) then No
    else FirstUnmet(parsed.value, v)
  }

  lemma {:induction false} FirstUnmetDecides(cs: seq<Clause>, v: Version)
    ensures if forall i :: 0 <= i < |cs| ==> Match(cs[i], v) == Yes then FirstUnmet(cs, v) == Yes
            else exists i: nat :: Decides(cs, v, i) && FirstUnmet(cs, v) == Match(cs[i], v)
  {
    hide Match;
    if cs != [] {
      FirstUnmetDecides(cs[1..], v);
      if Match(cs[0], v) != Yes {
        assert Decides(cs, v, 0);
      } else if i: nat :| Decides(cs[1..], v, i) {
        assert Decides(cs, v, i + 1);
      }
    }
  }

  // The answer the presumer gets is the one the clauses determine.
  lemma AnsweredIsAnswer(cs: seq<Clause>, v: Version)
    ensures IsAnswer(cs, v, Answered(Some(cs), v))
  {
    FirstUnmetDecides(cs, v);
    hide Match, FirstUnmet, MentionsPrerelease;
  }

  lemma AnswerIsUnique(cs: seq<Clause>, v: Version, a: Answer, b: Answer)
    requires IsAnswer(cs, v, a) && IsAnswer(cs, v, b)
    ensures a == b
  {
    hide Match, MentionsPrerelease;
  }

  // ~=V is >=V together with the wildcard on V's release, its last number dropped.
  lemma CompatibleIsTwoClauses(v: Version, c: Clause, low: Clause, prefix: Clause, a: Answer)
    requires c.op == Compatible && |c.ver.release| >= 2
    requires low == c.(op := AtLeast) && prefix == Clause(Equal, "", true, Shortened(c.ver))
    ensures IsAnswer([c], v, a) <==> IsAnswer([low, prefix], v, a)
  {
    hide Compare, PrefixMatch, EqualIgnoringLocal;
    var one, two := [c], [low, prefix];
    assert one[0] == c && two[0] == low && two[1] == prefix;
    assert MentionsPrerelease(one) <==> MentionsPrerelease(two) by {
      if MentionsPrerelease(one) {
        assert two[0].ver == c.ver;
      }
    }
    var both := if Match(low, v) == Yes && Match(prefix, v) == Yes then Yes else No;
    assert Match(c, v) == both;
    var answer := if !v.valid then Unreadable else if v.IsPrerelease() && !MentionsPrerelease(one) then No else both;
    assert IsAnswer(one, v, answer) by {
      assert Match(c, v) != Yes ==> Decides(one, v, 0);
    }
    assert IsAnswer(two, v, answer) by {
      assert Match(low, v) != Yes ==> Decides(two, v, 0);
      assert Match(low, v) == Yes && Match(prefix, v) != Yes ==> Decides(two, v, 1);
    }
    if IsAnswer(one, v, a) {
      AnswerIsUnique(one, v, a, answer);
    }
    if IsAnswer(two, v, a) {
      AnswerIsUnique(two, v, a, answer);
    }
  }

  // The release one past everything that starts with this prefix.
  function Bumped(release: seq<nat>): seq<nat>
    requires release != []
  {
    release[|release| - 1 := release[|release| - 1] + 1]
  }

  // Among releases at least as long, starting with the prefix is lying in a half-open interval.
  lemma PrefixIsInterval(v: Version, prefix: Version)
    requires prefix.release != [] && |v.release| >= |prefix.release| && v.epoch == prefix.epoch
    ensures PrefixMatch(v, prefix) <==>
              CmpPadded(prefix.release, v.release) <= 0 && CmpPadded(v.release, Bumped(prefix.release)) < 0
  {
    var p, r, b := prefix.release, v.release, Bumped(prefix.release);
    var last := |p| - 1;
    hide CmpPadded;
    assert IsPadded(p, r, CmpPadded(p, r)) && IsPadded(r, b, CmpPadded(r, b));
    if PrefixMatch(v, prefix) {
      assert FirstDifference(r, b, last);
      assert forall i: nat :: FirstDifference(p, r, i) ==> At(p, i) <= At(r, i);
    } else if CmpPadded(p, r) <= 0 && CmpPadded(r, b) < 0 {
      var i: nat :| FirstDifference(r, b, i) && At(r, i) < At(b, i);
      NotBetween(p, r, i);
    }
  }

  // ~=V selects, among candidates of V's epoch with enough release numbers, those from V up to, but not
  // including, the next release of the shortened prefix.
  lemma CompatibleIsInterval(c: Clause, v: Version)
    requires c.op == Compatible && |c.ver.release| >= 2 && v.epoch == c.ver.epoch && |v.release| >= |c.ver.release| - 1
    ensures Match(c, v) == Yes <==> Compare(v, c.ver) >= 0 && CmpPadded(v.release, Bumped(Shortened(c.ver).release)) < 0
  {
    var prefix := Shortened(c.ver);
    PrefixIsInterval(v, prefix);
    PrefixIsInterval(c.ver, prefix);
    hide CmpPadded, PrefixMatch, CmpLocal, KindRank;
    if Compare(v, c.ver) >= 0 {
      PaddedFlips(v.release, c.ver.release);
      assert PrefixMatch(c.ver, prefix) by {
        StartsWithItsPrefix(c.ver);
      }
      PaddedTransitive(prefix.release, c.ver.release, v.release);
    }
  }

  lemma StartsWithItsPrefix(v: Version)
    requires v.release != []
    ensures PrefixMatch(v, Shortened(v))
  {
  }

  lemma NotBetween(p: seq<nat>, r: seq<nat>, i: nat)
    requires p != [] && |r| >= |p| && exists k :: 0 <= k < |p| && r[k] != p[k]
    requires FirstDifference(r, Bumped(p), i) && At(r, i) < At(Bumped(p), i)
    ensures CmpPadded(p, r) > 0
  {
    var b, last := Bumped(p), |p| - 1;
    assert forall j: nat :: j < last ==> At(b, j) == At(p, j);
    assert i < |p|;
    if i < last {
      assert FirstDifference(p, r, i);
    } else {
      assert At(r, last) <= At(p, last);
      assert forall j: nat :: j < last ==> At(r, j) == At(p, j);
      var k :| 0 <= k < |p| && r[k] != p[k];
      assert At(r, k) != At(p, k);
      assert FirstDifference(p, r, last);
    }
    PaddedSays(p, r);
  }

  lemma PaddedSays(a: seq<int>, b: seq<int>)
    ensures forall i: nat :: FirstDifference(a, b, i) && At(a, i) > At(b, i) ==> CmpPadded(a, b) > 0
  {
    forall i: nat | FirstDifference(a, b, i) && At(a, i) > At(b, i)
      ensures CmpPadded(a, b) > 0
    {
      assert IsPadded(a, b, 1);
      PaddedIsUnique(a, b, 1, CmpPadded(a, b));
    }
  }

  // The wildcard as the PEP reads it, the candidate padded with zeros.
  ghost predicate PaddedPrefixMatch(v: Version, prefix: Version) {
    v.epoch == prefix.epoch && forall i: nat :: i < |prefix.release| ==> At(v.release, i) == prefix.release[i]
  }

  // The code does not pad: it agrees with the padded reading on candidates of n release numbers
  // exactly when the prefix is no longer than that, or asks for something other than zero beyond it.
  lemma PaddingMattersExactly(prefix: Version, n: nat)
    ensures (forall v: Version :: |v.release| == n ==> (PrefixMatch(v, prefix) <==> PaddedPrefixMatch(v, prefix))) <==>
              n >= |prefix.release| || exists i :: n <= i < |prefix.release| && prefix.release[i] != 0
  {
    if n >= |prefix.release| {
    } else if i :| n <= i < |prefix.release| && prefix.release[i] != 0 {
      forall v: Version | |v.release| == n
        ensures PrefixMatch(v, prefix) <==> PaddedPrefixMatch(v, prefix)
      {
        assert At(v.release, i) == 0;
      }
    } else {
      var v := prefix.(release := prefix.release[..n]);
      assert PaddedPrefixMatch(v, prefix) && !PrefixMatch(v, prefix);
    }
  }
}
