// Semantic versions and the comparator sets of npm, Cargo, RubyGems and Composer.
module Semver {
  import opened Prelude
  import opened Sorting
  import opened Orders
  import Text

  datatype Version = Version(valid: bool, major: nat, minor: nat, patch: nat, prerelease: string) {
    predicate IsPrerelease() {
      prerelease != ""
    }
  }

  function Plain(major: nat, minor: nat, patch: nat): Version {
    Version(true, major, minor, patch, "")
  }

  // ----- The order -----

  // Invalid versions sort last; pre-release tags compare as text.
  function Compare(v: Version, o: Version): int {
    if !v.valid && !o.valid then 0
    else if !v.valid then 1
    else if !o.valid then -1
    else if v.major != o.major then CmpInt(v.major, o.major)
    else if v.minor != o.minor then CmpInt(v.minor, o.minor)
    else if v.patch != o.patch then CmpInt(v.patch, o.patch)
    else if v.prerelease == o.prerelease then 0
    else if v.prerelease == "" then 1
    else if o.prerelease == "" then -1
    else if StringLess(v.prerelease, o.prerelease) then -1
    else 1
  }

  lemma CompareIsTotalPreorder()
    ensures TotalPreorder(Compare)
  {
    hide StringLess;
    StringOrder();
  }

  // Valid versions compare equal only when they are the same.
  lemma EqualExactly(v: Version, o: Version)
    ensures Compare(v, o) == 0 <==> (!v.valid && !o.valid) || v == o
  {
    hide StringLess;
  }

  // Tags are text here: rc.10 comes before rc.9, although 9 is less than 10.
  lemma TagsCompareAsText(major: nat, minor: nat, patch: nat)
    ensures Compare(Version(true, major, minor, patch, "rc.10"), Version(true, major, minor, patch, "rc.9")) < 0
  {
    var a, b := "rc.10", "rc.9";
    assert a[3] < b[3];
    assert a[1..][1..][1..] == "10" && b[1..][1..][1..] == "9";
    assert StringLess("10", "9");
    assert StringLess(a[1..][1..], b[1..][1..]);
    assert StringLess(a[1..], b[1..]);
  }

  datatype Bump = BumpNone | BumpPatch | BumpMinor | BumpMajor | BumpUnknown

  function BumpKind(prev: Version, cur: Version): Bump {
    if !prev.valid || !cur.valid then BumpUnknown
    else if cur.major != prev.major then BumpMajor
    else if cur.minor != prev.minor then BumpMinor
    else if cur.patch != prev.patch then BumpPatch
    else BumpNone
  }

  // ----- Comparator sets -----

  datatype Op = Less | AtMost | Greater | AtLeast | Equal | NotEqual

  datatype Comparator = Comparator(op: Op, v: Version)

  predicate Matches(c: Comparator, v: Version) {
    var cmp := Compare(v, c.v);
    match c.op
    case Less => cmp < 0
    case AtMost => cmp <= 0
    case Greater => cmp > 0
    case AtLeast => cmp >= 0
    case Equal => cmp == 0
    case NotEqual => cmp != 0
  }

  predicate SameTriple(a: Version, b: Version) {
    a.major == b.major && a.minor == b.minor && a.patch == b.patch
  }

  // Some comparator names a pre-release of the very same triple.
  ghost predicate AllowsPrerelease(v: Version, set_: seq<Comparator>) {
    exists i :: 0 <= i < |set_| && set_[i].v.IsPrerelease() && SameTriple(set_[i].v, v)
  }

  ghost predicate MatchesAll(v: Version, set_: seq<Comparator>) {
    forall i :: 0 <= i < |set_| ==> Matches(set_[i], v)
  }

  // What it means to satisfy a conjunction.
  ghost predicate Meets(v: Version, set_: seq<Comparator>) {
    (v.IsPrerelease() ==> AllowsPrerelease(v, set_)) && MatchesAll(v, set_)
  }

  method SetAllowsPrerelease(v: Version, set_: seq<Comparator>) returns (ok: bool)
    ensures ok == AllowsPrerelease(v, set_)
  {
    for i := 0 to |set_|
      invariant forall j :: 0 <= j < i ==> !(set_[j].v.IsPrerelease() && SameTriple(set_[j].v, v))
    {
      if set_[i].v.IsPrerelease() && set_[i].v.major == v.major && set_[i].v.minor == v.minor &&
          set_[i].v.patch == v.patch {
        return true;
      }
    }
    return false;
  }

  method SatisfiesSet(v: Version, set_: seq<Comparator>) returns (ok: bool)
    ensures ok == Meets(v, set_)
  {
    hide Compare;
    if |set_| == 0 {
      return !v.IsPrerelease();
    }
    if v.IsPrerelease() {
      var allowed := SetAllowsPrerelease(v, set_);
      if !allowed {
        return false;
      }
    }
    for i := 0 to |set_|
      invariant forall j :: 0 <= j < i ==> Matches(set_[j], v)
    {
      if !Matches(set_[i], v) {
        return false;
      }
    }
    return true;
  }

  // Alternatives, None where the text cannot be read.  The first that is met answers, unless an
  // unreadable one stands before it.
  ghost predicate IsOr(v: Version, alts: seq<Option<seq<Comparator>>>, a: Answer) {
    match a
    case Yes => exists i: nat :: i < |alts| && alts[i].Some? && Meets(v, alts[i].value) && Readable(alts, i)
    case Unreadable => exists i: nat :: i < |alts| && alts[i].None? && Unmet(v, alts, i)
    case No => Unmet(v, alts, |alts|)
  }

  ghost predicate Readable(alts: seq<Option<seq<Comparator>>>, n: nat)
    requires n <= |alts|
  {
    forall i :: 0 <= i < n ==> alts[i].Some?
  }

  ghost predicate Unmet(v: Version, alts: seq<Option<seq<Comparator>>>, n: nat)
    requires n <= |alts|
  {
    forall i :: 0 <= i < n ==> alts[i].Some? && !Meets(v, alts[i].value)
  }

  method SatisfiesAny(v: Version, alts: seq<Option<seq<Comparator>>>) returns (a: Answer)
    requires v.valid
    ensures IsOr(v, alts, a)
  {
    hide Meets;
    for i := 0 to |alts|
      invariant Unmet(v, alts, i)
    {
      if alts[i].None? {
        return Unreadable;
      }
      var ok := SatisfiesSet(v, alts[i].value);
      if ok {
        assert Readable(alts, i);
        return Yes;
      }
    }
    return No;
  }

  // Order matters only to readability: behind a met alternative an unreadable one goes unnoticed, in
  // front of it it does not.
  lemma OrStopsAtTheFirstMet(v: Version, met: seq<Comparator>)
    requires v.valid && Meets(v, met)
    ensures forall a :: IsOr(v, [Some(met), None], a) <==> a == Yes
    ensures forall a :: IsOr(v, [None, Some(met)], a) <==> a == Unreadable
  {
    hide Meets;
    var first, last := [Some(met), None], [None, Some(met)];
    assert first[0] == Some(met) && first[1] == None && last[0] == None;
    assert Readable(first, 0) && Unmet(v, last, 0);
    assert !Unmet(v, first, 1) && !Unmet(v, first, 2) && !Unmet(v, last, 2) && !Readable(last, 1);
  }

  // ----- Reading the numbers of a version -----

  // Up to three numbers and which of the last two were present; absent ones are zero.
  datatype Parts = Parts(major: nat, minor: nat, patch: nat, hasMinor: bool, hasPatch: bool)

  datatype Component = Absent | Number(n: nat) | Bad

  predicate IsDigit(c: char) {
    '0' <= c <= '9'
  }

  function Digits(s: string): nat
    requires forall i :: 0 <= i < |s| ==> IsDigit(s[i])
  {
    if s == "" then 0
    else
      assert IsDigit(s[|s| - 1]);
      Digits(s[..|s| - 1]) * 10 + (s[|s| - 1] as int - '0' as int)
  }

  method AtoiNonNeg(s: string) returns (n: nat, bad: bool)
    ensures bad <==> s == "" || exists i :: 0 <= i < |s| && !IsDigit(s[i])
    ensures !bad ==> n == Digits(s)
  {
    n := 0;
    if s == "" {
      return 0, true;
    }
    for i := 0 to |s|
      invariant forall j :: 0 <= j < i ==> IsDigit(s[j])
      invariant n == Digits(s[..i])
    {
      if s[i] < '0' || s[i] > '9' {
        return 0, true;
      }
      assert s[..i + 1][..i] == s[..i];
      n := n * 10 + (s[i] as int - '0' as int);
    }
    assert s[..|s|] == s;
    return n, false;
  }

  // "x", "X", "*" and nothing stand for an absent component.
  predicate IsWildcard(s: string) {
    s == "x" || s == "X" || s == "*" || s == ""
  }

  function ReadComponent(s: string): Component {
    if IsWildcard(s) then Absent
    else if forall i :: 0 <= i < |s| ==> IsDigit(s[i]) then Number(Digits(s))
    else Bad
  }

  function ComponentAt(parts: seq<string>, i: nat): Component {
    if i < |parts| then ReadComponent(parts[i]) else Absent
  }

  function Value(c: Component): nat {
    if c.Number? then c.n else 0
  }

  // A concrete component cannot follow an absent one.
  function Combined(a: Component, b: Component, c: Component): Option<Parts> {
    if a.Bad? || b.Bad? || c.Bad? then None
    else if (b.Absent? && c.Number?) || (a.Absent? && (b.Number? || c.Number?)) then None
    else Some(Parts(Value(a), Value(b), Value(c), b.Number?, c.Number?))
  }

  function Bare(raw: string): string {
    var noBuild := if Text.IndexOf(raw, '+') >= 0 then raw[..Text.IndexOf(raw, '+')] else raw;
    if Text.IndexOf(noBuild, '-') >= 0 then noBuild[..Text.IndexOf(noBuild, '-')] else noBuild
  }

  // Build metadata and a pre-release tag are dropped; raw is trimmed.
  function SplitText(raw: string): Option<Parts> {
    var s := Bare(raw);
    if s == "" then None
    else
      var parts := Text.Split(s, '.');
      if |parts| > 3 then None else Combined(ComponentAt(parts, 0), ComponentAt(parts, 1), ComponentAt(parts, 2))
  }

  method SplitParts(raw: string) returns (r: Option<Parts>)
    ensures r == SplitText(raw)
  {
    hide Text.Split, Digits;
    var s := raw;
    var plus := Text.IndexOf(s, '+');
    if plus >= 0 {
      s := s[..plus];
    }
    var dash := Text.IndexOf(s, '-');
    if dash >= 0 {
      s := s[..dash];
    }
    assert s == Bare(raw);
    hide Bare, Text.IndexOf;
    if s == "" {
      return None;
    }
    var parts := Text.Split(s, '.');
    if |parts| > 3 {
      return None;
    }
    r := ReadParts(parts);
  }

  method ReadParts(parts: seq<string>) returns (r: Option<Parts>)
    requires |parts| <= 3
    ensures r == Combined(ComponentAt(parts, 0), ComponentAt(parts, 1), ComponentAt(parts, 2))
  {
    hide Digits;
    var vals: array<nat> := new nat[3](_ => 0);
    var present: array<bool> := new bool[3](_ => false);
    for i := 0 to |parts|
      invariant forall j :: 0 <= j < 3 ==> present[j] == (j < i && ComponentAt(parts, j).Number?)
      invariant forall j :: 0 <= j < 3 ==> vals[j] == if j < i then Value(ComponentAt(parts, j)) else 0
      invariant forall j :: 0 <= j < i ==> !ComponentAt(parts, j).Bad?
    {
      var p := parts[i];
      if p == "x" || p == "X" || p == "*" || p == "" {
        continue;
      }
      var n, bad := AtoiNonNeg(p);
      if bad {
        assert ComponentAt(parts, i).Bad?;
        return None;
      }
      vals[i], present[i] := n, true;
    }
    if (!present[1] && present[2]) || (!present[0] && (present[1] || present[2])) {
      return None;
    }
    return Some(Parts(vals[0], vals[1], vals[2], present[1], present[2]));
  }

  // What splitting yields: no patch without a minor, and zero for what is absent.
  ghost predicate WellFormed(p: Parts) {
    (p.hasPatch ==> p.hasMinor) && (!p.hasMinor ==> p.minor == 0) && (!p.hasPatch ==> p.patch == 0)
  }

  lemma SplitIsWellFormed(raw: string)
    requires SplitText(raw).Some?
    ensures WellFormed(SplitText(raw).value)
  {
    hide Text.Split, Bare, ReadComponent;
  }

  // 1.2.x is 1.2, and 1.x is 1.
  lemma WildcardIsAbsent(raw: string, wild: string)
    requires IsWildcard(wild) && wild != "" && |Text.Split(raw, '.')| < 3 && Bare(raw) == raw && raw != ""
    ensures SplitText(raw + "." + wild) == SplitText(raw)
  {
    assert '.' !in wild && '+' !in wild && '-' !in wild;
    assert '+' !in raw && '-' !in raw;
    assert raw + "." + wild == raw + ['.'] + wild;
    assert Bare(raw + "." + wild) == raw + "." + wild;
    Text.SplitLast(raw, '.', wild);
    hide Text.Split, Bare, Digits;
    var parts := Text.Split(raw, '.');
    assert ReadComponent(wild) == Absent;
    assert ComponentAt(parts + [wild], 0) == ComponentAt(parts, 0);
    assert ComponentAt(parts + [wild], 1) == ComponentAt(parts, 1);
    assert ComponentAt(parts + [wild], 2) == ComponentAt(parts, 2);
  }
}
