// Which releases caret, tilde, the pessimistic operator and x-ranges select.
module SemverRanges {
  import opened Prelude
  import opened Sorting
  import opened Orders
  import opened Semver
  import Text

  function From(p: Parts): Comparator {
    Comparator(AtLeast, Plain(p.major, p.minor, p.patch))
  }

  function Upto(major: nat, minor: nat, patch: nat): Comparator {
    Comparator(Less, Plain(major, minor, patch))
  }

  // Changes that leave the left-most non-zero component alone.
  function Caret(p: Parts): seq<Comparator> {
    if p.major > 0 || !p.hasMinor then [From(p), Upto(p.major + 1, 0, 0)]
    else if p.minor > 0 || !p.hasPatch then [From(p), Upto(p.major, p.minor + 1, 0)]
    else [From(p), Upto(p.major, p.minor, p.patch + 1)]
  }

  // Patch changes when a minor version is given, minor changes when it is not.
  function Tilde(p: Parts): seq<Comparator> {
    if p.hasMinor then [From(p), Upto(p.major, p.minor + 1, 0)] else [From(p), Upto(p.major + 1, 0, 0)]
  }

  // The last given component is dropped and the one before it may rise.
  function Pessimistic(p: Parts): seq<Comparator> {
    if p.hasPatch then [From(p), Upto(p.major, p.minor + 1, 0)] else [From(p), Upto(p.major + 1, 0, 0)]
  }

  // An exact version, or everything sharing the components given.
  function XRange(p: Parts): seq<Comparator> {
    if !p.hasMinor then [Comparator(AtLeast, Plain(p.major, 0, 0)), Upto(p.major + 1, 0, 0)]
    else if !p.hasPatch then [Comparator(AtLeast, Plain(p.major, p.minor, 0)), Upto(p.major, p.minor + 1, 0)]
    else [Comparator(Equal, Plain(p.major, p.minor, p.patch))]
  }

  predicate Release(v: Version) {
    v.valid && !v.IsPrerelease()
  }

  // v agrees with p on the first k components.
  predicate Agrees(v: Version, p: Parts, k: nat) {
    && (k >= 1 ==> v.major == p.major)
    && (k >= 2 ==> v.minor == p.minor)
    && (k >= 3 ==> v.patch == p.patch)
  }

  // v is not below p.
  predicate NotBelow(v: Version, p: Parts) {
    v.major > p.major || (v.major == p.major && (v.minor > p.minor || (v.minor == p.minor && v.patch >= p.patch)))
  }

  lemma CompareReleases(v: Version, major: nat, minor: nat, patch: nat)
    requires Release(v)
    ensures Compare(v, Plain(major, minor, patch)) >= 0 <==> NotBelow(v, Parts(major, minor, patch, true, true))
  {
  }

  // A pair of bounds is a pair of comparisons.
  lemma TwoBounds(v: Version, p: Parts, major: nat, minor: nat, patch: nat)
    requires Release(v)
    ensures Meets(v, [From(p), Upto(major, minor, patch)]) <==>
            NotBelow(v, p) && !NotBelow(v, Parts(major, minor, patch, true, true))
  {
    var set_ := [From(p), Upto(major, minor, patch)];
    CompareReleases(v, p.major, p.minor, p.patch);
    CompareReleases(v, major, minor, patch);
    hide Compare, NotBelow;
    assert Matches(set_[0], v) <==> NotBelow(v, Parts(p.major, p.minor, p.patch, true, true));
    assert Matches(set_[1], v) <==> !NotBelow(v, Parts(major, minor, patch, true, true));
    assert NotBelow(v, p) <==> NotBelow(v, Parts(p.major, p.minor, p.patch, true, true)) by {
      BelowByNumbers(v, p);
    }
  }

  lemma BelowByNumbers(v: Version, p: Parts)
    ensures NotBelow(v, p) <==> NotBelow(v, Parts(p.major, p.minor, p.patch, true, true))
  {
  }

  // The number of components up to and including the left-most non-zero one.
  function LeftmostNonZero(p: Parts): nat {
    if p.major > 0 then 1 else if p.minor > 0 then 2 else 3
  }

  // How many components are given.
  function Given(p: Parts): nat {
    if p.hasPatch then 3 else if p.hasMinor then 2 else 1
  }

  // A caret admits exactly the releases at or above it that agree with it through its left-most non-zero
  // component, or through its last given one where all are zero.
  lemma CaretExactly(p: Parts, v: Version)
    requires Release(v) && WellFormed(p)
    ensures Meets(v, Caret(p)) <==>
              NotBelow(v, p) && Agrees(v, p, if Given(p) < LeftmostNonZero(p) then Given(p) else LeftmostNonZero(p))
  {
    hide Meets;
    TwoBounds(v, p, p.major + 1, 0, 0);
    TwoBounds(v, p, p.major, p.minor + 1, 0);
    TwoBounds(v, p, p.major, p.minor, p.patch + 1);
  }

  // How many components a tilde and a pessimistic operator fix.
  lemma TildeExactly(p: Parts, v: Version)
    requires Release(v) && WellFormed(p)
    ensures Meets(v, Tilde(p)) <==> NotBelow(v, p) && Agrees(v, p, if p.hasMinor then 2 else 1)
  {
    hide Meets;
    TwoBounds(v, p, p.major + 1, 0, 0);
    TwoBounds(v, p, p.major, p.minor + 1, 0);
  }

  lemma PessimisticExactly(p: Parts, v: Version)
    requires Release(v) && WellFormed(p)
    ensures Meets(v, Pessimistic(p)) <==> NotBelow(v, p) && Agrees(v, p, if p.hasPatch then 2 else 1)
  {
    hide Meets;
    TwoBounds(v, p, p.major + 1, 0, 0);
    TwoBounds(v, p, p.major, p.minor + 1, 0);
  }

  // An x-range admits exactly the releases that share the components given.
  lemma XRangeExactly(p: Parts, v: Version)
    requires Release(v) && WellFormed(p)
    ensures Meets(v, XRange(p)) <==> Agrees(v, p, if p.hasPatch then 3 else if p.hasMinor then 2 else 1)
  {
    if p.hasPatch {
      var set_ := XRange(p);
      assert set_[0] == Comparator(Equal, Plain(p.major, p.minor, p.patch));
      EqualExactly(v, set_[0].v);
    } else {
      hide Meets;
      TwoBounds(v, p, p.major + 1, 0, 0);
      TwoBounds(v, p, p.major, p.minor + 1, 0);
      assert From(p) == Comparator(AtLeast, Plain(p.major, p.minor, 0));
    }
  }

  // npm's tilde is contained in the pessimistic operator...
  lemma TildeWithinPessimistic(p: Parts, v: Version)
    requires Release(v) && WellFormed(p) && Meets(v, Tilde(p))
    ensures Meets(v, Pessimistic(p))
  {
    hide Meets;
    TildeExactly(p, v);
    PessimisticExactly(p, v);
  }

  // ... and differs from it on two-part versions only.
  lemma TildeIsPessimisticExactly(p: Parts)
    requires WellFormed(p)
    ensures (forall v :: Release(v) ==> (Meets(v, Tilde(p)) <==> Meets(v, Pessimistic(p)))) <==>
              !(p.hasMinor && !p.hasPatch)
  {
    hide Meets;
    if p.hasMinor && !p.hasPatch {
      var v := Plain(p.major, p.minor + 1, 0);
      TildeExactly(p, v);
      PessimisticExactly(p, v);
    } else {
      forall v | Release(v)
        ensures Meets(v, Tilde(p)) <==> Meets(v, Pessimistic(p))
      {
        TildeExactly(p, v);
        PessimisticExactly(p, v);
      }
    }
  }

  // ----- Reading one operator -----

  datatype Operator = CaretOp | TildeOp | XRangeOp

  function WithoutV(raw: string): string {
    if raw != "" && raw[0] == 'v' then raw[1..] else raw
  }

  // The comparators of an operator and the (trimmed) text after it; None where it cannot be read.  An
  // x-range without anything, or a bare star, asks for nothing.
  function Token(op: Operator, raw: string): Option<seq<Comparator>> {
    var r := WithoutV(raw);
    if op == XRangeOp && (r == "" || r == "*") then Some([])
    else
      match SplitText(r)
      case None => None
      case Some(p) => Some(match op case CaretOp => Caret(p) case TildeOp => Tilde(p) case XRangeOp => XRange(p))
  }

  // Nothing but wildcards: the major component is absent, and so must the others be.
  predicate WildcardOnly(raw: string) {
    var r := WithoutV(raw);
    r == "" || (Bare(r) != "" && IsWildcard(Text.Split(Bare(r), '.')[0]))
  }

  const NOTHING := Parts(0, 0, 0, false, false)

  lemma WildcardsReadAsZero(raw: string)
    requires WildcardOnly(raw) && SplitText(WithoutV(raw)).Some?
    ensures SplitText(WithoutV(raw)) == Some(NOTHING)
  {
    assert Bare("") == "";
    hide Bare, Text.Split, Digits;
  }

  // A wildcard asks for any version.  As an x-range that is what "" and "*" give; every other way of
  // writing it, with a caret, a tilde or as x or *.*, is read as 0 is, and admits only releases
  // below 1.0.0.
  lemma WildcardAdmitsAllExactly(op: Operator, raw: string)
    requires WildcardOnly(raw) && Token(op, raw).Some?
    ensures var set_ := Token(op, raw).value;
            && ((forall v :: Release(v) ==> Meets(v, set_)) <==> op == XRangeOp && WithoutV(raw) in ["", "*"])
            && ((forall v :: Release(v) ==> Meets(v, set_)) || forall v :: Release(v) ==>
               (Meets(v, set_) <==> v.major == 0))
  {
    hide SplitText, Meets, WildcardOnly;
    var r, set_ := WithoutV(raw), Token(op, raw).value;
    if op == XRangeOp && r in ["", "*"] {
      assert set_ == [];
      EmptyAdmitsReleases();
    } else {
      WildcardsReadAsZero(raw);
      forall v | Release(v)
        ensures Meets(v, set_) <==> v.major == 0
      {
        TwoBounds(v, NOTHING, 1, 0, 0);
        assert From(NOTHING) == Comparator(AtLeast, Plain(0, 0, 0));
      }
      assert Release(Plain(1, 0, 0));
    }
  }

  lemma EmptyAdmitsReleases()
    ensures forall v :: Release(v) ==> Meets(v, [])
  {
  }

  // Among them "^*", "~x", "=X" and a bare "x".
  lemma EmptyCaretStopsAtOne(op: Operator, raw: string, v: Version)
    requires raw in ["*", "x", "X"] && (op == XRangeOp ==> raw != "*") && Release(v)
    ensures Token(op, raw).Some? && (Meets(v, Token(op, raw).value) <==> v.major == 0)
  {
    assert Bare(raw) == raw && WithoutV(raw) == raw;
    Text.SplitWhole(raw, '.');
    assert ReadComponent(raw) == Absent;
    hide Bare, Meets, Text.Split;
    WildcardAdmitsAllExactly(op, raw);
    assert Release(Plain(1, 0, 0));
  }

  // An update within a tilde is at most a patch; one within a caret of a major release is anything
  // short of a major bump.
  lemma BumpsWithinRanges(prev: Version, cur: Version)
    requires Release(prev) && Release(cur) && Compare(prev, cur) <= 0
    ensures var p := Parts(prev.major, prev.minor, prev.patch, true, true);
            && (Meets(cur, Tilde(p)) <==> BumpKind(prev, cur) == BumpNone || BumpKind(prev, cur) == BumpPatch)
            && (prev.major > 0 ==> (Meets(cur, Caret(p)) <==> BumpKind(prev, cur) != BumpMajor))
  {
    hide Meets;
    var p := Parts(prev.major, prev.minor, prev.patch, true, true);
    TildeExactly(p, cur);
    CaretExactly(p, cur);
    assert NotBelow(cur, p);
  }

  // ----- Pre-releases and convexity -----

  // None of these operators ever opts pre-releases in.
  lemma BoundsAdmitNoPrereleases(p: Parts, v: Version, set_: seq<Comparator>)
    requires v.IsPrerelease() && set_ in [Caret(p), Tilde(p), Pessimistic(p), XRange(p)]
    ensures !Meets(v, set_)
  {
    hide Compare;
    assert forall i :: 0 <= i < |set_| ==> !set_[i].v.IsPrerelease();
  }

  lemma MatchesIsConvex(c: Comparator, x: Version, y: Version, z: Version)
    requires c.op != NotEqual && Compare(x, y) <= 0 && Compare(y, z) <= 0
    requires Matches(c, x) && Matches(c, z)
    ensures Matches(c, y)
  {
    CompareIsTotalPreorder();
    hide Compare;
    assert Compare(c.v, x) <= 0 ==> Compare(c.v, y) <= 0;
    assert Compare(z, c.v) <= 0 ==> Compare(y, c.v) <= 0;
  }

  // On releases a comparator set without "!=" is convex.
  lemma SetsAreConvex(set_: seq<Comparator>, x: Version, y: Version, z: Version)
    requires Release(x) && Release(y) && Release(z) && Compare(x, y) <= 0 && Compare(y, z) <= 0
    requires forall i :: 0 <= i < |set_| ==> set_[i].op != NotEqual
    requires Meets(x, set_) && Meets(z, set_)
    ensures Meets(y, set_)
  {
    hide Compare, Matches;
    forall i | 0 <= i < |set_|
      ensures Matches(set_[i], y)
    {
      MatchesIsConvex(set_[i], x, y, z);
    }
  }

  // With "!=" it need not be.
  lemma NotEqualLeavesAHole(x: Version, y: Version, z: Version)
    requires Release(x) && Release(y) && Release(z) && Compare(x, y) < 0 && Compare(y, z) < 0
    ensures var hole := [Comparator(NotEqual, y)];
            Meets(x, hole) && Meets(z, hole) && !Meets(y, hole)
  {
    CompareIsTotalPreorder();
    hide Compare;
    var hole := [Comparator(NotEqual, y)];
    assert hole[0].v == y;
    assert Compare(y, y) == 0;
    assert Compare(z, y) > 0;
  }
}
