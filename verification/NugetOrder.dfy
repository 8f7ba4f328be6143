// The order and the ranges of NuGet versions, told by what differs first.
module NugetOrder {
  import opened Prelude
  import opened Sorting
  import opened Orders
  import opened Nuget
  import Text

  // Two identifiers of a tag: numbers by value, before all text; text by its folded form.
  ghost predicate IdentifierBefore(f: Folding, x: string, y: string) {
    match (f.number(x), f.number(y))
    case (Some(m), Some(n)) => m < n
    case (Some(_), None) => true
    case (None, Some(_)) => false
    case (None, None) => exists i: nat :: TextBeforeAt(f.lower(x), f.lower(y), i)
  }

  predicate IdentifiersLevel(f: Folding, x: string, y: string) {
    match (f.number(x), f.number(y))
    case (Some(m), Some(n)) => m == n
    case (None, None) => f.lower(x) == f.lower(y)
    case _ => false
  }

  lemma IdentifierExactly(f: Folding, x: string, y: string)
    ensures CmpIdentifier(f, x, y) < 0 <==> IdentifierBefore(f, x, y)
    ensures CmpIdentifier(f, x, y) == 0 <==> IdentifiersLevel(f, x, y)
  {
    StringLessExactly(f.lower(x), f.lower(y));
    StringOrder();
    hide StringLess, TextBeforeAt;
  }

  // Identifiers between dots: level up to i, where a ends or is lower.
  ghost predicate TagBeforeAt(f: Folding, a: seq<string>, b: seq<string>, i: nat) {
    && i <= |a| && i < |b| && (forall j :: 0 <= j < i ==> IdentifiersLevel(f, a[j], b[j]))
    && (i < |a| ==> IdentifierBefore(f, a[i], b[i]))
  }

  ghost predicate TagBefore(f: Folding, a: string, b: string) {
    if a == "" then false
    else b == "" || exists i: nat :: TagBeforeAt(f, Text.Split(a, '.'), Text.Split(b, '.'), i)
  }

  // The first of the four numbers that differs decides; else the tag, and none comes last.
  ghost predicate Precedes(f: Folding, a: Version, b: Version) {
    || PartsBefore(a.parts, b.parts)
    || (a.parts == b.parts && TagBefore(f, a.prerelease, b.prerelease))
  }

  predicate PartsBefore(a: FourParts, b: FourParts) {
    || a[0] < b[0]
    || (a[0] == b[0] && a[1] < b[1])
    || (a[0] == b[0] && a[1] == b[1] && a[2] < b[2])
    || (a[0] == b[0] && a[1] == b[1] && a[2] == b[2] && a[3] < b[3])
  }

  lemma PartsExactly(a: Version, b: Version)
    ensures CmpParts(a, b) < 0 <==> PartsBefore(a.parts, b.parts)
    ensures CmpParts(a, b) == 0 <==> a.parts == b.parts
  {
    var p, q := Parts(a), Parts(b);
    assert p[1..][1..] == p[2..] && p[2..][1..] == p[3..] && p[3..][1..] == [];
    assert q[1..][1..] == q[2..] && q[2..][1..] == q[3..] && q[3..][1..] == [];
    assert CmpSeq<int>(CmpInt, p[3..], q[3..]) == CmpInt(p[3], q[3]);
    assert CmpSeq<int>(CmpInt, p[2..], q[2..]) == Then(CmpInt(p[2], q[2]), CmpSeq<int>(CmpInt, p[3..], q[3..]));
    assert CmpSeq<int>(CmpInt, p[1..], q[1..]) == Then(CmpInt(p[1], q[1]), CmpSeq<int>(CmpInt, p[2..], q[2..]));
    assert a.parts == b.parts <==> a.parts[0] == b.parts[0] && a.parts[1] == b.parts[1] && a.parts[2] == b.parts[2] &&
                                   a.parts[3] == b.parts[3];
  }

  lemma TagExactly(f: Folding, a: string, b: string)
    ensures CmpPrerelease(f, a, b) < 0 <==> TagBefore(f, a, b)
  {
    hide CmpIdentifier, IdentifierBefore, IdentifiersLevel, Text.Split;
    var p, q := Text.Split(a, '.'), Text.Split(b, '.');
    var on := (x, y) => CmpIdentifier(f, x, y);
    CmpSeqExactly(on, p, q);
    forall i: nat
      ensures BeforeAt(on, p, q, i) <==> TagBeforeAt(f, p, q, i)
    {
      forall j | 0 <= j < |p| && j < |q|
        ensures on(p[j], q[j]) < 0 <==> IdentifierBefore(f, p[j], q[j])
        ensures on(p[j], q[j]) == 0 <==> IdentifiersLevel(f, p[j], q[j])
      {
        IdentifierExactly(f, p[j], q[j]);
      }
    }
    hide CmpSeq, BeforeAt, TagBeforeAt;
  }

  // One version sorts below another exactly when it precedes it.
  lemma CompareExactly(f: Folding, a: Version, b: Version)
    ensures Compared(f, a, b) < 0 <==> Precedes(f, a, b)
    ensures Compared(f, a, b) > 0 <==> Precedes(f, b, a)
  {
    BelowExactly(f, a, b);
    BelowExactly(f, b, a);
    var cmp := (x, y) => Compared(f, x, y);
    CompareIsTotalPreorder(f, cmp);
    hide Compared, Precedes;
    assert cmp(b, a) < 0 <==> cmp(a, b) > 0;
  }

  lemma BelowExactly(f: Folding, a: Version, b: Version)
    ensures Compared(f, a, b) < 0 <==> Precedes(f, a, b)
  {
    PartsExactly(a, b);
    TagExactly(f, a.prerelease, b.prerelease);
    hide CmpParts, CmpPrerelease, PartsBefore, TagBefore;
  }

  // ----- What a range admits -----

  // The ends of an interval: at the end itself only where it is included.
  ghost predicate Between(f: Folding, r: Range, v: Version) {
    && (r.lo.Some? ==> !Precedes(f, v, r.lo.value) && (r.loInc || Precedes(f, r.lo.value, v)))
    && (r.hi.Some? ==> !Precedes(f, r.hi.value, v) && (r.hiInc || Precedes(f, v, r.hi.value)))
  }

  // An exact range admits what neither precedes nor follows its version, an interval what lies between its
  // ends; a pre-release only where an end is one.
  lemma WithinExactly(f: Folding, r: Range, v: Version)
    ensures Within(f, r, v) != Unreadable
    ensures Within(f, r, v) == Yes <==>
              && (if r.exact.Some? then !Precedes(f, v, r.exact.value) && !Precedes(f, r.exact.value, v)
                  else Between(f, r, v))
              && (v.prerelease != "" ==>
                    (r.lo.Some? && r.lo.value.prerelease != "") || (r.hi.Some? && r.hi.value.prerelease != ""))
  {
    if r.exact.Some? {
      CompareExactly(f, v, r.exact.value);
    }
    if r.lo.Some? {
      CompareExactly(f, v, r.lo.value);
    }
    if r.hi.Some? {
      CompareExactly(f, v, r.hi.value);
    }
    hide Compared, Precedes;
  }

  // In text: an interval "[a,b)" admits the releases from a on that precede b, and each bracket says whether
  // its end is one of them.
  lemma IntervalAdmits(f: Folding, rd: Reader, opening: char, lo: string, hi: string, closing: char, version: string)
    requires opening in "[(" && closing in "])" && ',' !in lo
    requires rd.trim([opening] + lo + "," + hi + [closing]) == [opening] + lo + "," + hi + [closing]
    requires rd.trim(lo) != "" && rd.trim(hi) != "" && rd.parse(rd.trim(lo)).valid && rd.parse(rd.trim(hi)).valid
    requires rd.parse(version).valid && rd.parse(version).prerelease == ""
    ensures var v, a, b := rd.parse(version), rd.parse(rd.trim(lo)), rd.parse(rd.trim(hi));
            Satisfies(f, rd, [opening] + lo + "," + hi + [closing], version) == Yes <==>
              && !Precedes(f, v, a) && (opening == '(' ==> Precedes(f, a, v))
              && !Precedes(f, b, v) && (closing == ')' ==> Precedes(f, v, b))
  {
    var e := [opening] + lo + "," + hi + [closing];
    IntervalParses(rd, opening, lo, hi, closing);
    WithinExactly(f, ParseRange(rd, e).value, rd.parse(version));
    assert e != "" && e != "*" by {
      assert |e| > 1;
    }
    hide ParseRange, Precedes, Within;
  }

  // A star, or nothing, admits exactly the releases.
  lemma StarAdmitsReleases(f: Folding, rd: Reader, expr: string, version: string)
    requires rd.trim(expr) == "" || rd.trim(expr) == "*"
    ensures Satisfies(f, rd, expr, version) ==
            if !rd.parse(version).valid then Unreadable else if rd.parse(version).prerelease == "" then Yes else No
  {
  }
}
