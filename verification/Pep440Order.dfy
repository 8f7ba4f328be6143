// The order and the clauses of Python versions, told by what differs first.
module Pep440Order {
  import opened Prelude
  import opened Sorting
  import opened Orders
  import opened Pep440

  // ----- What differs first -----

  // The i-th release number; what is not written is zero.
  function Number(release: seq<nat>, i: nat): nat {
    if i < |release| then release[i] else 0
  }

  ghost predicate ReleaseBefore(a: seq<nat>, b: seq<nat>) {
    exists i: nat :: Number(a, i) < Number(b, i) && forall j: nat :: j < i ==> Number(a, j) == Number(b, j)
  }

  ghost predicate ReleasesAlike(a: seq<nat>, b: seq<nat>) {
    forall i: nat :: Number(a, i) == Number(b, i)
  }

  // Development releases of a final version, pre-releases, and the rest.
  predicate OnlyDev(v: Version) {
    v.hasDev && !v.hasPre && !v.hasPost
  }

  predicate PhaseBefore(a: Version, b: Version) {
    (OnlyDev(a) && !OnlyDev(b)) || (a.hasPre && !b.hasPre && !OnlyDev(b))
  }

  // Alphas, betas, and candidates by whatever name.
  predicate KindBefore(k: string, l: string) {
    (k == "a" && l != "a") || (k == "b" && l != "a" && l != "b")
  }

  predicate KindsAlike(k: string, l: string) {
    (k == "a" <==> l == "a") && (k == "b" <==> l == "b")
  }

  predicate PreBefore(a: Version, b: Version) {
    a.hasPre && b.hasPre &&
        (KindBefore(a.preKind, b.preKind) || (KindsAlike(a.preKind, b.preKind) && a.preNum < b.preNum))
  }

  predicate PresAlike(a: Version, b: Version) {
    && OnlyDev(a) == OnlyDev(b) && a.hasPre == b.hasPre
    && (a.hasPre ==> KindsAlike(a.preKind, b.preKind) && a.preNum == b.preNum)
  }

  predicate PostBefore(a: Version, b: Version) {
    b.hasPost && (!a.hasPost || a.postNum < b.postNum)
  }

  predicate PostsAlike(a: Version, b: Version) {
    a.hasPost == b.hasPost && (a.hasPost ==> a.postNum == b.postNum)
  }

  // No development number counts as two to the thirtieth.
  predicate DevBefore(a: Version, b: Version) {
    if a.hasDev then a.devNum < (if b.hasDev then b.devNum else 1073741824) else b.hasDev && 1073741824 < b.devNum
  }

  predicate DevsAlike(a: Version, b: Version) {
    if a.hasDev then a.devNum == (if b.hasDev then b.devNum else 1073741824) else b.hasDev ==> b.devNum == 1073741824
  }

  // No local part comes first; two compare as text.
  ghost predicate LocalBefore(a: Version, b: Version) {
    b.local != "" && a.local != b.local && (a.local == "" || exists i: nat :: TextBeforeAt(a.local, b.local, i))
  }

  // The first of these in which two versions differ decides.
  ghost predicate Precedes(a: Version, b: Version) {
    || a.epoch < b.epoch
    || (a.epoch == b.epoch && ReleaseBefore(a.release, b.release))
    || (a.epoch == b.epoch && ReleasesAlike(a.release, b.release) && PrecedesInRelease(a, b))
  }

  ghost predicate PrecedesInRelease(a: Version, b: Version) {
    || PhaseBefore(a, b)
    || PreBefore(a, b)
    || (PresAlike(a, b) && PostBefore(a, b))
    || (PresAlike(a, b) && PostsAlike(a, b) && DevBefore(a, b))
    || (PresAlike(a, b) && PostsAlike(a, b) && DevsAlike(a, b) && LocalBefore(a, b))
  }

  lemma ReleasesExactly(a: seq<nat>, b: seq<nat>)
    ensures CmpPadded(a, b) < 0 <==> ReleaseBefore(a, b)
    ensures CmpPadded(a, b) == 0 <==> ReleasesAlike(a, b)
  {
    hide CmpPadded;
    assert IsPadded(a, b, CmpPadded(a, b));
    assert forall i: nat :: Number(a, i) == At(a, i) && Number(b, i) == At(b, i);
    if i: nat :| Number(a, i) < Number(b, i) && forall j: nat :: j < i ==> Number(a, j) == Number(b, j) {
      assert FirstDifference(a, b, i);
      assert IsPadded(a, b, -1);
      PaddedIsUnique(a, b, -1, CmpPadded(a, b));
    }
    if ReleasesAlike(a, b) {
      assert IsPadded(a, b, 0);
      PaddedIsUnique(a, b, 0, CmpPadded(a, b));
    }
  }

  // One version sorts below another exactly when it precedes it.
  lemma BelowExactly(a: Version, b: Version)
    ensures Compare(a, b) < 0 <==> Precedes(a, b)
  {
    ReleasesExactly(a.release, b.release);
    StringLessExactly(a.local, b.local);
    hide CmpPadded, StringLess, ReleaseBefore, ReleasesAlike, TextBeforeAt;
  }

  // The alphas of a final version precede its betas, and those its candidates; within a kind the smaller
  // number comes first; all precede the version itself.
  lemma PrereleasesInOrder(v: Version, kind: string, m: nat, n: nat)
    requires !v.hasPre && !v.hasPost && !v.hasDev && v.local == ""
    ensures var alpha, beta := v.(hasPre := true, preKind := "a", preNum := m),
            v.(hasPre := true, preKind := "b", preNum := n);
            var other := v.(hasPre := true, preKind := kind, preNum := m);
            && Compare(alpha, beta) < 0
            && (kind != "a" && kind != "b" ==> Compare(beta, other) < 0)
            && Compare(other, v) < 0
            && (Compare(other, other.(preNum := n)) < 0 <==> m < n)
  {
    var alpha, beta := v.(hasPre := true, preKind := "a", preNum := m), v.(hasPre := true, preKind := "b", preNum := n);
    var other := v.(hasPre := true, preKind := kind, preNum := m);
    hide Compare;
    BelowExactly(alpha, beta);
    BelowExactly(beta, other);
    BelowExactly(other, v);
    BelowExactly(other, other.(preNum := n));
    NothingBeforeItself(v.release);
    hide ReleaseBefore, ReleasesAlike;
  }

  lemma NothingBeforeItself(release: seq<nat>)
    ensures ReleasesAlike(release, release) && !ReleaseBefore(release, release)
  {
  }

  // Neither precedes the other exactly when they compare equal.
  lemma CompareExactly(a: Version, b: Version)
    ensures Compare(a, b) < 0 <==> Precedes(a, b)
    ensures Compare(a, b) > 0 <==> Precedes(b, a)
  {
    CompareIsTotalPreorder();
    hide Compare, Precedes;
    BelowExactly(a, b);
    BelowExactly(b, a);
  }

  // ----- What a clause admits -----

  // The candidate is a pre-release.
  predicate Early(v: Version) {
    v.hasPre || v.hasDev
  }

  ghost predicate SameNumbers(a: Version, b: Version) {
    a.epoch == b.epoch && ReleasesAlike(a.release, b.release)
  }

  ghost predicate Level(a: Version, b: Version) {
    !Precedes(a, b) && !Precedes(b, a)
  }

  // The written numbers of the candidate begin with those of the prefix.
  predicate BeginsWith(v: Version, epoch: nat, prefix: seq<nat>) {
    v.epoch == epoch && |prefix| <= |v.release| && v.release[..|prefix|] == prefix
  }

  // What each operator asks; its version is read unless the operator is "===".
  ghost predicate Admits(c: Clause, v: Version) {
    match c.op
    case Arbitrary => v.original == c.raw
    case Equal => Equals(c, v)
    case NotEqual => !Equals(c, v)
    case Compatible =>
      && |c.ver.release| > 1 && !Precedes(v, c.ver)
      && BeginsWith(v, c.ver.epoch, c.ver.release[..|c.ver.release| - 1])
    case AtMost => !Precedes(c.ver, v)
    case AtLeast => !Precedes(v, c.ver)
    case Below => Precedes(v, c.ver) && (Early(v) && SameNumbers(v, c.ver) ==> Early(c.ver))
    case Above => Precedes(c.ver, v) && (v.hasPost && !v.hasPre && SameNumbers(v, c.ver) ==> c.ver.hasPost)
  }

  // A wildcard asks for the beginning; else a local part counts only when the clause has one.
  ghost predicate Equals(c: Clause, v: Version) {
    if c.wildcard then BeginsWith(v, c.ver.epoch, c.ver.release)
    else Level(if c.ver.local == "" then v.(local := "") else v, c.ver)
  }

  lemma MatchExactly(c: Clause, v: Version)
    ensures Match(c, v) == Yes <==> Admits(c, v)
    ensures Match(c, v) == Unreadable <==> c.op == Compatible && |c.ver.release| < 2
  {
    EqualsExactly(c, v);
    BoundsExactly(c, v);
    CompatibleExactly(c, v);
    hide Compare, PrefixMatch, EqualIgnoringLocal, Equals, Precedes, BeginsWith, SameRelease, SameNumbers;
  }

  lemma EqualsExactly(c: Clause, v: Version)
    ensures Equals(c, v) <==> if c.wildcard then PrefixMatch(v, c.ver) else EqualIgnoringLocal(v, c.ver)
  {
    CompareExactly(if c.ver.local == "" then v.(local := "") else v, c.ver);
    BeginsExactly(v, c.ver.epoch, c.ver);
    hide Compare, Precedes, PrefixMatch, BeginsWith;
  }

  lemma BoundsExactly(c: Clause, v: Version)
    ensures c.op in {AtMost, AtLeast, Below, Above} ==>
              Match(c, v) != Unreadable && (Match(c, v) == Yes <==> Admits(c, v))
  {
    CompareExactly(v, c.ver);
    ReleasesExactly(v.release, c.ver.release);
    hide Compare, Precedes, CmpPadded, ReleasesAlike, PrefixMatch, BeginsWith, EqualIgnoringLocal;
  }

  lemma CompatibleExactly(c: Clause, v: Version)
    ensures c.op == Compatible ==>
              (Match(c, v) == Yes <==> Admits(c, v)) && (Match(c, v) == Unreadable <==> |c.ver.release| < 2)
  {
    CompareExactly(v, c.ver);
    if |c.ver.release| > 1 {
      BeginsExactly(v, c.ver.epoch, Shortened(c.ver));
    }
    hide Compare, Precedes, PrefixMatch, BeginsWith, EqualIgnoringLocal;
  }

  lemma BeginsExactly(v: Version, epoch: nat, prefix: Version)
    requires prefix.epoch == epoch
    ensures PrefixMatch(v, prefix) <==> BeginsWith(v, epoch, prefix.release)
  {
    if |prefix.release| <= |v.release| {
      assert forall i :: 0 <= i < |prefix.release| ==> v.release[..|prefix.release|][i] == v.release[i];
    }
  }

  // A set admits a candidate exactly when the candidate can be read, all clauses admit it, and, where it is
  // a pre-release, some clause other than "===" names one.
  lemma SetAdmits(cs: seq<Clause>, v: Version, a: Answer)
    requires IsAnswer(cs, v, a)
    ensures a == Yes <==>
              && v.valid && (forall c :: c in cs ==> Admits(c, v))
              && (Early(v) ==> cs == [] || exists c :: c in cs && c.op != Arbitrary && c.ver.valid && Early(c.ver))
  {
    forall c
      ensures Match(c, v) == Yes <==> Admits(c, v)
    {
      MatchExactly(c, v);
    }
    hide Match, Admits;
    assert forall i :: 0 <= i < |cs| ==> cs[i] in cs;
    if c :| c in cs && c.op != Arbitrary && c.ver.valid && Early(c.ver) {
      var i :| 0 <= i < |cs| && cs[i] == c;
      assert MentionsPrerelease(cs);
    }
  }

  // Published 1.0a1 and 1.0rc1, at least 1.0a1: both are admitted, and the candidate is the later one.
  lemma CandidateAfterAlpha(alpha: Version, candidate: Version)
    requires alpha == Version(true, alpha.original, 0, [1, 0], true, "a", 1, false, 0, false, 0, "")
    requires candidate == Version(true, candidate.original, 0, [1, 0], true, "rc", 1, false, 0, false, 0, "")
    ensures Compare(alpha, candidate) < 0
    ensures IsAnswer([Clause(AtLeast, "1.0a1", false, alpha)], candidate, Yes)
  {
    var c := Clause(AtLeast, "1.0a1", false, alpha);
    CompareExactly(alpha, candidate);
    MatchExactly(c, candidate);
    NothingBeforeItself([1, 0]);
    hide Compare, Match;
    assert [c][0].ver.IsPrerelease();
  }
}
