// NuGet versions and their interval ranges.
module Nuget {
  import opened Prelude
  import opened Sorting
  import opened Orders
  import Text

  type FourParts = s: seq<nat> | |s| == 4 witness [0, 0, 0, 0]

  datatype Version = Version(valid: bool, parts: FourParts, prerelease: string) {
    predicate IsPrerelease() {
      prerelease != ""
    }
  }

  // What the order asks of the standard library: reading a number, and folding case.
  datatype Folding = Folding(number: string -> Option<int>, lower: string -> string)

  // ----- The order -----

  // Numbers before text, numbers by value, text without regard to case.
  function CmpIdentifier(f: Folding, x: string, y: string): int {
    match (f.number(x), f.number(y))
    case (Some(a), Some(b)) => CmpInt(a, b)
    case (Some(_), None) => -1
    case (None, Some(_)) => 1
    case (None, None) => CmpText(f.lower(x), f.lower(y))
  }

  function CmpIdentifiers(f: Folding, a: seq<string>, b: seq<string>): int {
    CmpSeq((x, y) => CmpIdentifier(f, x, y), a, b)
  }

  // A release outranks its pre-releases; those compare by dot-separated identifiers.
  function CmpPrerelease(f: Folding, a: string, b: string): int {
    if a == "" && b == "" then 0
    else if a == "" then 1
    else if b == "" then -1
    else CmpIdentifiers(f, Text.Split(a, '.'), Text.Split(b, '.'))
  }

  function Parts(v: Version): seq<int> {
    v.parts
  }

  function CmpParts(a: Version, b: Version): int {
    CmpSeq<int>(CmpInt, Parts(a), Parts(b))
  }

  function Compared(f: Folding, a: Version, b: Version): int {
    Then(CmpParts(a, b), CmpPrerelease(f, a.prerelease, b.prerelease))
  }

  method ComparePrerelease(f: Folding, a: string, b: string) returns (c: int)
    ensures c == CmpIdentifiers(f, Text.Split(a, '.'), Text.Split(b, '.'))
  {
    hide CmpText, Text.Split;
    var ai, bi := Text.Split(a, '.'), Text.Split(b, '.');
    var i := 0;
    while i < |ai| && i < |bi|
      invariant i <= |ai| && i <= |bi|
      invariant CmpIdentifiers(f, ai, bi) == CmpIdentifiers(f, ai[i..], bi[i..])
    {
      assert ai[i..][1..] == ai[i + 1..] && bi[i..][1..] == bi[i + 1..];
      var an, bn := f.number(ai[i]), f.number(bi[i]);
      c := 0;
      if an.Some? && bn.Some? {
        c := CmpInt(an.value, bn.value);
      } else if an.Some? != bn.Some? {
        if an.Some? {
          return -1;
        }
        return 1;
      } else {
        c := CmpText(f.lower(ai[i]), f.lower(bi[i]));
      }
      if c != 0 {
        return c;
      }
      i := i + 1;
    }
    return CmpInt(|ai|, |bi|);
  }

  method Compare(f: Folding, a: Version, b: Version) returns (c: int)
    ensures c == Compared(f, a, b)
  {
    hide CmpIdentifiers, Text.Split;
    ghost var p, q := Parts(a), Parts(b);
    for i := 0 to 4
      invariant CmpParts(a, b) == CmpSeq<int>(CmpInt, p[i..], q[i..])
    {
      assert p[i..][1..] == p[i + 1..] && q[i..][1..] == q[i + 1..];
      c := CmpInt(a.parts[i], b.parts[i]);
      if c != 0 {
        return c;
      }
    }
    if a.prerelease == "" && b.prerelease == "" {
      return 0;
    }
    if a.prerelease == "" {
      return 1;
    }
    if b.prerelease == "" {
      return -1;
    }
    c := ComparePrerelease(f, a.prerelease, b.prerelease);
  }

  lemma IdentifiersArePreordered(f: Folding, cmp: (string, string) -> int)
    requires forall x, y :: cmp(x, y) == CmpIdentifier(f, x, y)
    ensures TotalPreorder(cmp)
  {
    hide CmpText;
    TextIsPreordered();
  }

  lemma PrereleasesArePreordered(f: Folding, cmp: (string, string) -> int)
    requires forall a, b :: cmp(a, b) == CmpPrerelease(f, a, b)
    ensures TotalPreorder(cmp)
  {
    hide CmpIdentifier, CmpSeq, Text.Split;
    var on := (x, y) => CmpIdentifier(f, x, y);
    IdentifiersArePreordered(f, on);
    var onSeqs := (a, b) => CmpIdentifiers(f, a, b);
    assert forall a, b :: onSeqs(a, b) == CmpSeq(on, a, b);
    SequencesArePreordered(on, onSeqs);
    hide CmpIdentifiers;
    forall a, b
      ensures cmp(a, b) < 0 <==> cmp(b, a) > 0
    {
      assert onSeqs(Text.Split(a, '.'), Text.Split(b, '.')) < 0 <==> onSeqs(Text.Split(b, '.'), Text.Split(a, '.')) > 0;
    }
    forall a, b, c | cmp(a, b) <= 0 && cmp(b, c) <= 0
      ensures cmp(a, c) <= 0
    {
      var s, t, u := Text.Split(a, '.'), Text.Split(b, '.'), Text.Split(c, '.');
      assert onSeqs(s, t) <= 0 && onSeqs(t, u) <= 0 ==> onSeqs(s, u) <= 0;
    }
  }

  // A total preorder whatever the library's number reading and case folding do.
  lemma CompareIsTotalPreorder(f: Folding, cmp: (Version, Version) -> int)
    requires forall a, b :: cmp(a, b) == Compared(f, a, b)
    ensures TotalPreorder(cmp)
  {
    hide CmpPrerelease, CmpSeq;
    var onTags := (a, b) => CmpPrerelease(f, a, b);
    PrereleasesArePreordered(f, onTags);
    var byTag := (a: Version, b: Version) => onTags(a.prerelease, b.prerelease);
    KeyedIsPreordered(byTag, (v: Version) => v.prerelease, onTags);
    IntsArePreordered();
    var onParts := (p: seq<int>, q: seq<int>) => CmpSeq<int>(CmpInt, p, q);
    SequencesArePreordered(CmpInt, onParts);
    KeyedIsPreordered(CmpParts, Parts, onParts);
    ChainedIsPreordered(cmp, CmpParts, byTag);
  }

  lemma {:induction false} CmpSeqSelf<T(!new)>(on: (T, T) -> int, a: seq<T>, b: seq<T>)
    requires TotalPreorder(on)
    ensures CmpSeq(on, a, a) == 0
    ensures b != [] ==> CmpSeq(on, a, a + b) < 0
  {
    if a != [] {
      assert on(a[0], a[0]) == 0;
      assert (a + b)[1..] == a[1..] + b && (a + b)[0] == a[0];
      CmpSeqSelf(on, a[1..], b);
    }
  }

  // A pre-release precedes its release, and each further identifier comes after.
  lemma MoreIdentifiersSortHigher(f: Folding, v: Version, more: string)
    requires v.IsPrerelease()
    ensures Compared(f, v, v.(prerelease := "")) < 0
    ensures Compared(f, v, v.(prerelease := v.prerelease + "." + more)) < 0
  {
    IntsArePreordered();
    CmpSeqSelf<int>(CmpInt, Parts(v), []);
    var on := (x, y) => CmpIdentifier(f, x, y);
    IdentifiersArePreordered(f, on);
    hide CmpIdentifier, Text.Split;
    SplitGrows(v.prerelease, more);
    var tail := Text.Split(v.prerelease + "." + more, '.')[|Text.Split(v.prerelease, '.')|..];
    CmpSeqSelf(on, Text.Split(v.prerelease, '.'), tail);
    hide CmpSeq;
    assert Text.Split(v.prerelease + "." + more, '.') == Text.Split(v.prerelease, '.') + tail;
  }

  lemma {:induction false} SplitGrows(a: string, b: string)
    ensures var s, t := Text.Split(a, '.'), Text.Split(a + "." + b, '.');
            |s| < |t| && t[..|s|] == s
    decreases |a|
  {
    hide Text.Split, Text.IndexOf;
    var i := Text.IndexOf(a, '.');
    if i < 0 {
      Text.SplitWhole(a, '.');
      Text.SplitFirst(a, '.', b);
      assert a + ['.'] + b == a + "." + b;
    } else {
      var head, tail := a[..i], a[i + 1..];
      assert a == head + ['.'] + tail;
      Text.SplitFirst(head, '.', tail);
      assert a + "." + b == head + ['.'] + (tail + "." + b);
      Text.SplitFirst(head, '.', tail + "." + b);
      SplitGrows(tail, b);
    }
  }

  // ----- Ranges -----

  // How the program reads text: a version out of it, and its trimmed form.
  datatype Reader = Reader(parse: string -> Version, trim: string -> string)

  datatype Range = Range(lo: Option<Version>, hi: Option<Version>, loInc: bool, hiInc: bool, exact: Option<Version>)

  // Bare versions are minimums, brackets without a comma are exact, and anything else is an interval
  // with at least one end.
  function ParseRange(rd: Reader, expr: string): Option<Range> {
    if !("[" <= expr) && !("(" <= expr) then
      var v := rd.parse(expr);
      if v.valid then Some(Range(Some(v), None, true, false, None)) else None
    else if |expr| < 2 then None
    else
      var opening, closing := expr[0], expr[|expr| - 1];
      if closing != ']' && closing != ')' then None
      else
        var inner := expr[1..|expr| - 1];
        var comma := Text.IndexOf(inner, ',');
        if comma < 0 then
          if opening != '[' || closing != ']' then None
          else
            var v := rd.parse(rd.trim(inner));
            if v.valid then Some(Range(None, None, false, false, Some(v))) else None
        else
          var loText, hiText := rd.trim(inner[..comma]), rd.trim(inner[comma + 1..]);
          var lo := if loText != "" then Some(rd.parse(loText)) else None;
          var hi := if hiText != "" then Some(rd.parse(hiText)) else None;
          if lo.Some? && !lo.value.valid then None
          else if hi.Some? && !hi.value.valid then None
          else if lo.None? && hi.None? then None
          else Some(Range(lo, hi, opening == '[', closing == ']', None))
  }

  // Some end of the interval is a pre-release.
  predicate OptsIn(r: Range) {
    (r.lo.Some? && r.lo.value.IsPrerelease()) || (r.hi.Some? && r.hi.value.IsPrerelease())
  }

  function Within(f: Folding, r: Range, v: Version): Answer {
    if v.IsPrerelease() && !OptsIn(r) then No
    else if r.exact.Some? then Bool(Compared(f, v, r.exact.value) == 0)
    else if r.lo.Some? && (Compared(f, v, r.lo.value) < 0 || (Compared(f, v, r.lo.value) == 0 && !r.loInc)) then No
    else if r.hi.Some? && (Compared(f, v, r.hi.value) > 0 || (Compared(f, v, r.hi.value) == 0 && !r.hiInc)) then No
    else Yes
  }

  function Satisfies(f: Folding, rd: Reader, expr: string, version: string): Answer {
    var v := rd.parse(version);
    if !v.valid then Unreadable
    else
      var e := rd.trim(expr);
      if e == "" || e == "*" then Bool(!v.IsPrerelease())
      else
        var r := ParseRange(rd, e);
        if r.None? then Unreadable else Within(f, r.value, v)
  }

  // On releases a range is convex: whatever lies between two members is a member.
  lemma RangesAreConvex(f: Folding, r: Range, x: Version, y: Version, z: Version)
    requires !x.IsPrerelease() && !y.IsPrerelease() && !z.IsPrerelease()
    requires Compared(f, x, y) <= 0 && Compared(f, y, z) <= 0
    requires Within(f, r, x) == Yes && Within(f, r, z) == Yes
    ensures Within(f, r, y) == Yes
  {
    hide Compared;
    var cmp := (a, b) => Compared(f, a, b);
    CompareIsTotalPreorder(f, cmp);
    if r.exact.Some? {
      var e := r.exact.value;
      assert cmp(x, e) == 0 && cmp(z, e) == 0 && cmp(x, y) <= 0 && cmp(y, z) <= 0;
      assert cmp(y, e) <= 0 && cmp(e, x) <= 0 && cmp(e, y) <= 0;
      assert cmp(y, e) == 0;
    } else {
      if r.lo.Some? {
        Above(cmp, r.lo.value, x, y);
      }
      if r.hi.Some? {
        Below(cmp, r.hi.value, y, z);
      }
    }
  }

  lemma Above(cmp: (Version, Version) -> int, lo: Version, x: Version, y: Version)
    requires TotalPreorder(cmp) && cmp(x, y) <= 0 && cmp(x, lo) >= 0
    ensures cmp(y, lo) >= 0 && (cmp(y, lo) == 0 ==> cmp(x, lo) == 0)
  {
    assert cmp(lo, x) <= 0 && cmp(lo, y) <= 0;
    if cmp(y, lo) == 0 {
      assert cmp(x, lo) <= 0;
    }
  }

  lemma Below(cmp: (Version, Version) -> int, hi: Version, y: Version, z: Version)
    requires TotalPreorder(cmp) && cmp(y, z) <= 0 && cmp(z, hi) <= 0
    ensures cmp(y, hi) <= 0 && (cmp(y, hi) == 0 ==> cmp(z, hi) == 0)
  {
    if cmp(y, hi) == 0 {
      assert cmp(hi, y) <= 0 && cmp(hi, z) <= 0;
      assert cmp(z, hi) >= 0;
    }
  }

  // Releases equal to a pre-release do not exist.
  lemma EqualSharesTag(f: Folding, a: Version, b: Version)
    requires Compared(f, a, b) == 0
    ensures a.IsPrerelease() <==> b.IsPrerelease()
  {
    hide CmpIdentifiers, CmpParts;
  }

  // An exact range does not opt pre-releases in, so one that names a pre-release admits nothing.
  lemma ExactPrereleaseAdmitsNothing(f: Folding, r: Range, v: Version)
    requires r.exact.Some? && r.lo.None? && r.hi.None?
    ensures v.IsPrerelease() ==> Within(f, r, v) == No
    ensures r.exact.value.IsPrerelease() ==> Within(f, r, v) == No
  {
    if Within(f, r, v) == Yes {
      EqualSharesTag(f, v, r.exact.value);
    }
  }

  // Every bracketed text without a comma that parses is such a range.
  lemma ExactParses(rd: Reader, inner: string)
    requires ',' !in inner && rd.parse(rd.trim(inner)).valid
    ensures ParseRange(rd, "[" + inner + "]") == Some(Range(None, None, false, false, Some(rd.parse(rd.trim(inner)))))
  {
    var expr := "[" + inner + "]";
    assert expr[1..|expr| - 1] == inner;
    assert Text.IndexOf(inner, ',') < 0;
  }

  // An interval parses to its ends, each with the inclusion its bracket says.
  lemma IntervalParses(rd: Reader, opening: char, lo: string, hi: string, closing: char)
    requires (opening == '[' || opening == '(') && (closing == ']' || closing == ')') && ',' !in lo
    requires rd.trim(lo) != "" && rd.trim(hi) != "" && rd.parse(rd.trim(lo)).valid && rd.parse(rd.trim(hi)).valid
    ensures ParseRange(rd, [opening] + lo + "," + hi + [closing]) ==
            Some(Range(Some(rd.parse(rd.trim(lo))), Some(rd.parse(rd.trim(hi))), opening == '[', closing == ']', None))
  {
    var expr := [opening] + lo + "," + hi + [closing];
    var inner := lo + [','] + hi;
    assert expr[1..|expr| - 1] == inner;
    Text.FirstIndex(lo, ',', hi);
    assert inner[..|lo|] == lo && inner[|lo| + 1..] == hi;
    assert expr[0] == opening && expr[|expr| - 1] == closing;
  }

  // A bare version is a minimum.
  lemma BareIsMinimum(f: Folding, rd: Reader, expr: string, version: string)
    requires rd.trim(expr) == expr && expr != "" && expr != "*" && expr[0] != '[' && expr[0] != '('
    requires rd.parse(expr).valid && rd.parse(version).valid && !rd.parse(version).IsPrerelease()
    ensures Satisfies(f, rd, expr, version) == Yes <==> Compared(f, rd.parse(version), rd.parse(expr)) >= 0
  {
    hide Compared;
    assert !("[" <= expr) && !("(" <= expr);
  }
}
