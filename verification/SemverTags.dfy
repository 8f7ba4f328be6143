// The order that section 11 of SemVer 2.0.0 gives pre-release tags, and when comparing them as text agrees with it.
module SemverTags {
  import opened Prelude
  import opened Sorting
  import opened Orders
  import opened Semver
  import Text

  // ----- The standard's order -----

  predicate IsNumeric(x: string) {
    x != "" && forall i :: 0 <= i < |x| ==> IsDigit(x[i])
  }

  // Numbers before text, numbers by value, text as text.
  function CmpIdentifier(x: string, y: string): int {
    if IsNumeric(x) && IsNumeric(y) then CmpInt(Digits(x), Digits(y))
    else if IsNumeric(x) then -1
    else if IsNumeric(y) then 1
    else CmpText(x, y)
  }

  function CmpTag(a: string, b: string): int {
    CmpSeq(CmpIdentifier, Text.Split(a, '.'), Text.Split(b, '.'))
  }

  // For valid versions.
  function StandardCompare(v: Version, o: Version): int {
    Then(CmpInt(v.major, o.major), Then(CmpInt(v.minor, o.minor), Then(CmpInt(v.patch, o.patch),
      if v.prerelease == "" || o.prerelease == "" then CmpInt(|o.prerelease|, |v.prerelease|)
          else CmpTag(v.prerelease, o.prerelease))))
  }

  // The standard knows no numeric identifiers with leading zeros.
  predicate IsRegular(x: string) {
    IsNumeric(x) && |x| > 1 ==> x[0] != '0'
  }

  predicate AllRegular(ids: seq<string>) {
    forall i :: 0 <= i < |ids| ==> IsRegular(ids[i])
  }

  lemma IdentifiersArePreordered()
    ensures TotalPreorder(CmpIdentifier)
  {
    hide CmpText, Digits;
    TextIsPreordered();
  }

  lemma StandardIsPreordered(cmp: (string, string) -> int)
    requires forall a, b :: cmp(a, b) == CmpTag(a, b)
    ensures TotalPreorder(cmp)
  {
    hide CmpIdentifier, CmpSeq, Text.Split;
    IdentifiersArePreordered();
    var onSeqs := (s, t) => CmpSeq(CmpIdentifier, s, t);
    SequencesArePreordered(CmpIdentifier, onSeqs);
    KeyedIsPreordered(cmp, (a: string) => Text.Split(a, '.'), onSeqs);
  }

  // ----- When text order is that order -----

  // x is followed by more and begins y, which goes on with a character below the dot.
  predicate IsUndercut(x: string, more: bool, y: string) {
    more && x < y && y[|x|] < '.'
  }

  predicate TextFirst(x: string, xMore: bool, y: string, yMore: bool) {
    IsUndercut(y, yMore, x) || (StringLess(x, y) && !IsUndercut(x, xMore, y))
  }

  // What the first two identifiers that differ must satisfy: numbers of different length stand in text
  // order as in length, a number stands before text, and among texts neither is undercut.
  predicate Fits(x: string, xMore: bool, y: string, yMore: bool) {
    if IsNumeric(x) && IsNumeric(y) then |x| == |y| || (StringLess(x, y) <==> |x| < |y|)
    else if IsNumeric(x) then TextFirst(x, xMore, y, yMore)
    else if IsNumeric(y) then TextFirst(y, yMore, x, xMore)
    else !IsUndercut(x, xMore, y) && !IsUndercut(y, yMore, x)
  }

  predicate FirstDifferenceFits(a: seq<string>, b: seq<string>) {
    if a == [] || b == [] then true
    else if a[0] == b[0] then FirstDifferenceFits(a[1..], b[1..])
    else Fits(a[0], |a| > 1, b[0], |b| > 1)
  }

  // Comparing tags as text orders two versions as the standard does exactly when their numbers decide,
  // one has no tag, or the first identifiers in which their tags differ fit.
  lemma StandardOrderExactly(v: Version, o: Version)
    requires v.valid && o.valid
    requires AllRegular(Text.Split(v.prerelease, '.')) && AllRegular(Text.Split(o.prerelease, '.'))
    ensures Compare(v, o) == StandardCompare(v, o) <==>
              || !SameTriple(v, o)
              || v.prerelease == "" || o.prerelease == ""
              || FirstDifferenceFits(Text.Split(v.prerelease, '.'), Text.Split(o.prerelease, '.'))
  {
    var a, b := v.prerelease, o.prerelease;
    TagsExactly(a, b);
    hide Text.Split, CmpSeq, AllRegular, FirstDifferenceFits, StringLess;
    if a == b {
      SameFits(Text.Split(a, '.'));
    }
  }

  // The ways not to fit: 9 and 10, a number against text, and a hyphen where the other tag has its dot.
  lemma UnfitPairs()
    ensures !FirstDifferenceFits(["rc", "10"], ["rc", "9"])
    ensures !FirstDifferenceFits(["2"], ["1a"])
    ensures !FirstDifferenceFits(["a", "b"], ["a-b"])
  {
    var nine, ten := ["rc", "9"], ["rc", "10"];
    assert nine[1..] == ["9"] && ten[1..] == ["10"];
    assert !Fits("10", false, "9", false);
    assert !IsDigit("1a"[1]);
    assert !Fits("2", false, "1a", false);
    assert "a" < "a-b";
    assert !Fits("a", true, "a-b", false);
  }

  lemma {:induction false} SameFits(a: seq<string>)
    ensures FirstDifferenceFits(a, a)
  {
    if a != [] {
      SameFits(a[1..]);
    }
  }

  // The same for tags alone.
  lemma TagsExactly(a: string, b: string)
    requires AllRegular(Text.Split(a, '.')) && AllRegular(Text.Split(b, '.'))
    ensures CmpTag(a, b) == CmpText(a, b) <==> FirstDifferenceFits(Text.Split(a, '.'), Text.Split(b, '.'))
  {
    Text.JoinSplit(a, '.');
    Text.JoinSplit(b, '.');
    Text.PiecesHoldNoSeparator(a, '.');
    Text.PiecesHoldNoSeparator(b, '.');
    hide Text.Split, Text.Join, CmpSeq, AllRegular, FirstDifferenceFits, StringLess;
    var s, t := Text.Split(a, '.'), Text.Split(b, '.');
    if a == b {
      SameIsZero(s);
      SameFits(s);
    } else {
      JoinedExactly(s, t);
      JoinedTotal(a, b);
    }
  }

  lemma JoinedTotal(a: string, b: string)
    requires a != b
    ensures CmpText(a, b) == -1 <==> StringLess(a, b)
    ensures CmpText(a, b) == 1 <==> !StringLess(a, b)
  {
  }

  lemma {:induction false} SameIsZero(a: seq<string>)
    ensures CmpSeq(CmpIdentifier, a, a) == 0
  {
    if a != [] {
      SameIsZero(a[1..]);
    }
  }

  ghost predicate Dotless(a: seq<string>) {
    forall i :: 0 <= i < |a| ==> '.' !in a[i]
  }

  // What follows the first identifier in the text.
  function After(a: seq<string>): string
    requires a != []
  {
    if |a| == 1 then "" else "." + Text.Join(a[1..], '.')
  }

  lemma {:induction false} JoinedExactly(a: seq<string>, b: seq<string>)
    requires a != [] && b != [] && a != b && Dotless(a) && Dotless(b) && AllRegular(a) && AllRegular(b)
    ensures CmpSeq(CmpIdentifier, a, b) == -1 || CmpSeq(CmpIdentifier, a, b) == 1
    ensures (CmpSeq(CmpIdentifier, a, b) == -1 <==> StringLess(Text.Join(a, '.'), Text.Join(b, '.'))) <==>
              FirstDifferenceFits(a, b)
  {
    var x, y := a[0], b[0];
    assert Text.Join(a, '.') == x + After(a) && Text.Join(b, '.') == y + After(b);
    hide Text.Join, StringLess, CmpIdentifier, Fits;
    if x == y {
      assert CmpIdentifier(x, y) == 0 by {
        SameIsZero([x]);
        assert CmpSeq(CmpIdentifier, [x], [x]) == Then(CmpIdentifier(x, x), 0);
      }
      CommonPrefix(x, After(a), After(b));
      assert a == [x] + a[1..] && b == [y] + b[1..];
      if |a| > 1 && |b| > 1 {
        CommonPrefix(".", Text.Join(a[1..], '.'), Text.Join(b[1..], '.'));
        JoinedExactly(a[1..], b[1..]);
      } else {
        EmptyIsFirst(After(a), After(b));
      }
    } else {
      DifferentIdentifiers(x, |a| > 1, y, |b| > 1);
      TextApart(x, After(a), y, After(b));
    }
  }

  lemma EmptyIsFirst(r: string, t: string)
    requires r == "" || t == ""
    ensures StringLess(r, t) <==> t != ""
  {
  }

  lemma {:induction false} CommonPrefix(x: string, r: string, t: string)
    ensures StringLess(x + r, x + t) <==> StringLess(r, t)
  {
    if x == "" {
      assert x + r == r && x + t == t;
    } else {
      assert (x + r)[1..] == x[1..] + r && (x + t)[1..] == x[1..] + t;
      CommonPrefix(x[1..], r, t);
    }
  }

  // Two different pieces, each followed by nothing or by a dot, decide the order of the texts.
  lemma {:induction false} TextApart(x: string, r: string, y: string, t: string)
    requires x != y && '.' !in x && '.' !in y
    requires (r != "" ==> r[0] == '.') && (t != "" ==> t[0] == '.')
    ensures StringLess(x + r, y + t) <==> TextFirst(x, r != "", y, t != "")
  {
    if x == "" {
      assert x + r == r && y[0] in y;
    } else if y == "" {
      assert y + t == t && x[0] in x;
    } else if x[0] == y[0] {
      var z, w := x[1..], y[1..];
      assert (x + r)[1..] == z + r && (y + t)[1..] == w + t;
      assert x == [x[0]] + z && y == [x[0]] + w;
      TextApart(z, r, w, t);
      assert x < y <==> z < w;
      assert y < x <==> w < z;
    }
  }

  // What decides between two different identifiers, in the standard's order and in the text's.
  lemma DifferentIdentifiers(x: string, xMore: bool, y: string, yMore: bool)
    requires x != y && IsRegular(x) && IsRegular(y)
    ensures CmpIdentifier(x, y) == -1 || CmpIdentifier(x, y) == 1
    ensures (CmpIdentifier(x, y) == -1 <==> TextFirst(x, xMore, y, yMore)) <==> Fits(x, xMore, y, yMore)
  {
    StringLessTotal(x, y);
    OneIsFirst(x, y);
    OneIsFirst(y, x);
    hide StringLess, Digits, IsRegular;
    NumbersAreNotUndercut(x, xMore, y);
    NumbersAreNotUndercut(y, yMore, x);
    if IsNumeric(x) && IsNumeric(y) {
      NumbersByText(x, y);
    }
  }

  lemma NumbersAreNotUndercut(x: string, more: bool, y: string)
    ensures IsNumeric(y) ==> !IsUndercut(x, more, y)
  {
    if IsNumeric(y) && x < y {
      assert IsDigit(y[|x|]);
    }
  }

  lemma OneIsFirst(x: string, y: string)
    ensures !(StringLess(x, y) && StringLess(y, x))
    ensures x < y ==> StringLess(x, y)
  {
    hide StringLess;
    if StringLess(x, y) && StringLess(y, x) {
      StringLessTransitive(x, y, x);
      StringLessIrreflexive(x);
    }
    if x < y {
      PrefixIsFirst(x, y[|x|..]);
      assert x + y[|x|..] == y;
    }
  }

  lemma {:induction false} PrefixIsFirst(x: string, r: string)
    requires r != ""
    ensures StringLess(x, x + r)
  {
    if x != "" {
      assert (x + r)[1..] == x[1..] + r;
      PrefixIsFirst(x[1..], r);
    }
  }

  // ----- Numbers by their digits -----

  lemma NumbersByText(x: string, y: string)
    requires IsNumeric(x) && IsNumeric(y) && IsRegular(x) && IsRegular(y) && x != y
    ensures Digits(x) < Digits(y) <==> if |x| == |y| then StringLess(x, y) else |x| < |y|
    ensures Digits(x) != Digits(y)
  {
    hide Digits, StringLess;
    if |x| < |y| {
      LongerIsMore(x, y);
    } else if |y| < |x| {
      LongerIsMore(y, x);
    } else {
      SameLength(x, y);
    }
  }

  lemma {:induction false} NotZero(x: string)
    requires IsNumeric(x) && x[0] != '0'
    ensures Digits(x) > 0
  {
    if |x| > 1 {
      NotZero(x[..|x| - 1]);
    }
  }

  lemma {:induction false} LongerIsMore(x: string, y: string)
    requires IsNumeric(x) && IsNumeric(y) && |x| < |y| && y[0] != '0'
    ensures Digits(x) < Digits(y)
  {
    var p, q := x[..|x| - 1], y[..|y| - 1];
    if |x| > 1 {
      LongerIsMore(p, q);
    } else {
      NotZero(q);
      assert Digits("") == 0;
    }
  }

  lemma {:induction false} SameLength(x: string, y: string)
    requires IsNumeric(x) && IsNumeric(y) && |x| == |y|
    ensures Digits(x) < Digits(y) <==> StringLess(x, y)
    ensures Digits(x) == Digits(y) <==> x == y
  {
    var p, q, c, d := x[..|x| - 1], y[..|y| - 1], x[|x| - 1], y[|y| - 1];
    assert x == p + [c] && y == q + [d];
    LastCharacter(p, q, c, d);
    if |x| > 1 {
      SameLength(p, q);
    } else {
      assert p == "" && q == "" && Digits("") == 0;
    }
    assert IsDigit(c) && IsDigit(d);
    assert Digits(x) == Digits(p) * 10 + (c as int - '0' as int);
    assert Digits(y) == Digits(q) * 10 + (d as int - '0' as int);
  }

  lemma {:induction false} LastCharacter(p: string, q: string, c: char, d: char)
    requires |p| == |q|
    ensures StringLess(p + [c], q + [d]) <==> StringLess(p, q) || (p == q && c < d)
  {
    if p != "" {
      assert (p + [c])[1..] == p[1..] + [c] && (q + [d])[1..] == q[1..] + [d];
      assert p == [p[0]] + p[1..] && q == [q[0]] + q[1..];
      LastCharacter(p[1..], q[1..], c, d);
      StringLessIrreflexive(p);
    }
  }
}
