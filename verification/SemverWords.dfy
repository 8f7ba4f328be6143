// Semantic versions and comparators, told in numbers and characters.
module SemverWords {
  import opened Prelude
  import opened Sorting
  import opened Orders
  import opened Semver
  import Text

  // ----- The order -----

  predicate NumbersBefore(a: Version, b: Version) {
    || a.major < b.major
    || (a.major == b.major && a.minor < b.minor)
    || (a.major == b.major && a.minor == b.minor && a.patch < b.patch)
  }

  predicate NumbersLevel(a: Version, b: Version) {
    a.major == b.major && a.minor == b.minor && a.patch == b.patch
  }

  // What cannot be read comes after all that can; a tag comes before none, and tags compare as text.
  ghost predicate Precedes(a: Version, b: Version) {
    && a.valid
    && (!b.valid || NumbersBefore(a, b) || (NumbersLevel(a, b) && a.prerelease != "" && a.prerelease != b.prerelease &&
         (b.prerelease == "" || exists i: nat :: TextBeforeAt(a.prerelease, b.prerelease, i))))
  }

  lemma CompareExactly(a: Version, b: Version)
    ensures Compare(a, b) < 0 <==> Precedes(a, b)
    ensures Compare(a, b) > 0 <==> Precedes(b, a)
  {
    StringLessExactly(a.prerelease, b.prerelease);
    StringLessExactly(b.prerelease, a.prerelease);
    StringOrder();
    hide StringLess, TextBeforeAt;
  }

  // ----- Comparators -----

  lemma MatchExactly(c: Comparator, v: Version)
    ensures Matches(c, v) <==>
              match c.op
              case Less => Precedes(v, c.v)
              case AtMost => !Precedes(c.v, v)
              case Greater => Precedes(c.v, v)
              case AtLeast => !Precedes(v, c.v)
              case Equal => !Precedes(v, c.v) && !Precedes(c.v, v)
              case NotEqual => Precedes(v, c.v) || Precedes(c.v, v)
  {
    CompareExactly(v, c.v);
    hide Compare, Precedes;
  }

  // A pre-release is admitted only where a comparator names one with the very same three numbers.
  lemma MeetsExactly(v: Version, set_: seq<Comparator>)
    ensures Meets(v, set_) <==>
              && (forall c :: c in set_ ==> Matches(c, v))
              && (v.prerelease != "" ==>
                    exists c :: c in set_ && c.v.prerelease != "" && c.v.major == v.major && c.v.minor == v.minor &&
                                c.v.patch == v.patch)
  {
    hide Matches;
    if c :| c in set_ && c.v.prerelease != "" && c.v.major == v.major && c.v.minor == v.minor && c.v.patch == v.patch {
      var i :| 0 <= i < |set_| && set_[i] == c;
    }
  }

  // ----- Bumps -----

  // The first number that differs names the bump.
  lemma BumpExactly(prev: Version, cur: Version)
    ensures BumpKind(prev, cur) == BumpUnknown <==> !prev.valid || !cur.valid
    ensures prev.valid && cur.valid ==>
              && (BumpKind(prev, cur) == BumpMajor <==> prev.major != cur.major)
              && (BumpKind(prev, cur) == BumpMinor <==> prev.major == cur.major && prev.minor != cur.minor)
              && (BumpKind(prev, cur) == BumpPatch <==>
                  prev.major == cur.major && prev.minor == cur.minor && prev.patch != cur.patch)
              && (BumpKind(prev, cur) == BumpNone <==> NumbersLevel(prev, cur))
  {
  }

  // ----- Reading -----

  lemma {:induction false} DecimalReads(n: nat)
    ensures Text.Decimal(n) != "" && (forall i :: 0 <= i < |Text.Decimal(n)| ==> '0' <= Text.Decimal(n)[i] <= '9')
    ensures ReadComponent(Text.Decimal(n)) == Number(n)
  {
    DecimalDigits(n);
    hide Digits, Text.Decimal;
    assert Text.Decimal(n)[0] != 'x' && Text.Decimal(n)[0] != 'X' && Text.Decimal(n)[0] != '*';
  }

  lemma {:induction false} DecimalDigits(n: nat)
    ensures Text.Decimal(n) != "" && forall i :: 0 <= i < |Text.Decimal(n)| ==> '0' <= Text.Decimal(n)[i] <= '9'
    ensures Digits(Text.Decimal(n)) == n
  {
    if n >= 10 {
      DecimalDigits(n / 10);
      assert Text.Decimal(n)[..|Text.Decimal(n)| - 1] == Text.Decimal(n / 10);
    } else {
      assert Text.Decimal(n)[..0] == "";
    }
  }

  // Nothing in s but digits and these characters.
  predicate DigitsOr(s: string, others: string) {
    forall i :: 0 <= i < |s| ==> '0' <= s[i] <= '9' || s[i] in others
  }

  // Three numbers written in decimal are read back, whatever tag or build follows.
  lemma ThreeNumbersAreRead(a: nat, b: nat, c: nat, rest: string)
    requires rest == "" || rest[0] == '-' || rest[0] == '+'
    ensures SplitText(Text.Decimal(a) + "." + Text.Decimal(b) + "." + Text.Decimal(c) + rest) ==
            Some(Parts(a, b, c, true, true))
  {
    var x, y, z := Text.Decimal(a), Text.Decimal(b), Text.Decimal(c);
    DecimalReads(a);
    DecimalReads(b);
    DecimalReads(c);
    hide Text.Decimal, ReadComponent, Text.Split, Bare;
    DottedIsDigits(x, y, z);
    BareIsFirst(x + "." + y + "." + z, rest);
    ThreePieces(x, y, z);
    assert x + "." + y + "." + z != "";
  }

  lemma DottedIsDigits(x: string, y: string, z: string)
    requires DigitsOr(x, "") && DigitsOr(y, "") && DigitsOr(z, "")
    ensures DigitsOr(x + "." + y + "." + z, ".")
  {
  }

  lemma ThreePieces(x: string, y: string, z: string)
    requires DigitsOr(x, "") && DigitsOr(y, "") && DigitsOr(z, "")
    ensures Text.Split(x + "." + y + "." + z, '.') == [x, y, z]
  {
    hide Text.Split;
    assert '.' !in x && '.' !in y && '.' !in z;
    Text.SplitFirst(x, '.', y + "." + z);
    Text.SplitFirst(y, '.', z);
    Text.SplitWhole(z, '.');
    assert x + "." + y + "." + z == x + ['.'] + (y + "." + z) && y + "." + z == y + ['.'] + z;
    assert [x] + ([y] + [z]) == [x, y, z];
  }

  // So are two, and one; what is missing is absent.
  lemma FewerNumbersAreRead(a: nat, b: nat)
    ensures SplitText(Text.Decimal(a) + "." + Text.Decimal(b)) == Some(Parts(a, b, 0, true, false))
    ensures SplitText(Text.Decimal(a)) == Some(Parts(a, 0, 0, false, false))
  {
    var x, y := Text.Decimal(a), Text.Decimal(b);
    DecimalReads(a);
    DecimalReads(b);
    hide Text.Decimal, ReadComponent, Text.Split;
    BareIsFirst(x + "." + y, "");
    BareIsFirst(x, "");
    assert x + "." + y + "" == x + "." + y && x + "" == x;
    assert '.' !in x && '.' !in y;
    Text.SplitFirst(x, '.', y);
    Text.SplitWhole(x, '.');
    Text.SplitWhole(y, '.');
    assert x + "." + y == x + ['.'] + y;
    hide Bare;
    assert [x] + [y] == [x, y];
  }

  // Everything from the first sign of a build or a tag on is dropped.
  lemma BareIsFirst(s: string, rest: string)
    requires DigitsOr(s, ".") && (rest == "" || rest[0] == '-' || rest[0] == '+')
    ensures Bare(s + rest) == s
  {
    hide Text.IndexOf;
    var raw := s + rest;
    assert '+' !in s && '-' !in s;
    var i := Text.IndexOf(raw, '+');
    var noBuild := if i >= 0 then raw[..i] else raw;
    if rest == "" {
      assert raw == s;
    } else if rest[0] == '+' {
      assert raw == s + ['+'] + rest[1..];
      Text.FirstIndex(s, '+', rest[1..]);
      assert noBuild == s;
    } else {
      AfterTheTag(s, rest, i);
      var t := noBuild[|s| + 1..];
      assert noBuild == s + ['-'] + t;
      Text.FirstIndex(s, '-', t);
    }
  }

  lemma AfterTheTag(s: string, rest: string, i: int)
    requires rest != "" && rest[0] == '-' && '+' !in s && i < |s + rest| && (i >= 0 ==> (s + rest)[i] == '+')
    ensures i < 0 || i > |s|
    ensures i > |s| ==> (s + rest)[..i] == s + ['-'] + (s + rest)[..i][|s| + 1..]
    ensures s + rest == s + ['-'] + (s + rest)[|s| + 1..]
  {
    var raw := s + rest;
    assert raw[|s|] == '-' && forall j :: 0 <= j < |s| ==> raw[j] == s[j];
    assert raw[..|s|] == s;
  }

  predicate IsAbsent(piece: string) {
    piece in {"", "x", "X", "*"}
  }

  predicate IsNumber(piece: string) {
    piece != "" && forall i :: 0 <= i < |piece| ==> '0' <= piece[i] <= '9'
  }

  // A text is declined exactly when nothing is left of it, it has more than three pieces, a piece is neither
  // a number nor a wildcard, or a number follows a wildcard.
  lemma DeclinedExactly(raw: string)
    ensures var parts := Text.Split(Bare(raw), '.');
            SplitText(raw).None? <==>
              || Bare(raw) == "" || |parts| > 3
              || (exists i :: 0 <= i < |parts| && !IsAbsent(parts[i]) && !IsNumber(parts[i]))
              || (exists i, j :: 0 <= i < j < |parts| && IsAbsent(parts[i]) && IsNumber(parts[j]))
  {
    hide Bare, Text.Split, Digits;
    var parts := Text.Split(Bare(raw), '.');
    forall i | 0 <= i < |parts|
      ensures ReadComponent(parts[i]).Absent? <==> IsAbsent(parts[i])
      ensures ReadComponent(parts[i]).Bad? <==> !IsAbsent(parts[i]) && !IsNumber(parts[i])
      ensures ReadComponent(parts[i]).Number? <==> IsNumber(parts[i])
    {
      ReadsExactly(parts[i]);
    }
    hide ReadComponent, IsAbsent, IsNumber;
    if |parts| <= 3 {
      PiecesExactly(parts);
    }
    hide Combined, ComponentAt;
  }

  lemma ReadsExactly(piece: string)
    ensures ReadComponent(piece).Absent? <==> IsAbsent(piece)
    ensures ReadComponent(piece).Number? <==> IsNumber(piece)
    ensures ReadComponent(piece).Bad? <==> !IsAbsent(piece) && !IsNumber(piece)
  {
    hide Digits;
    assert IsNumber(piece) ==> '0' <= piece[0] <= '9';
  }

  lemma PiecesExactly(parts: seq<string>)
    requires parts != [] && |parts| <= 3
    ensures Combined(ComponentAt(parts, 0), ComponentAt(parts, 1), ComponentAt(parts, 2)).None? <==>
              || (exists i :: 0 <= i < |parts| && ReadComponent(parts[i]).Bad?)
              || (exists i, j :: 0 <= i < j < |parts| && ReadComponent(parts[i]).Absent? &&
                   ReadComponent(parts[j]).Number?)
  {
    hide ReadComponent;
    var a, b, c := ComponentAt(parts, 0), ComponentAt(parts, 1), ComponentAt(parts, 2);
    assert a == ReadComponent(parts[0]);
    assert |parts| > 1 ==> b == ReadComponent(parts[1]);
    assert |parts| > 2 ==> c == ReadComponent(parts[2]);
  }
}
