// Package URLs as node identity: printing, parsing, and why the two agree.
module Purl {
  import opened Prelude
  import opened Sorting
  import Text

  datatype Qualifier = Qualifier(key: string, value: string)

  // Strings hold bytes: one char per byte.
  datatype PURL = PURL(kind: string, namespace: string, name: string, version: string, qualifiers: seq<Qualifier>)

  datatype ParseError = MissingScheme | NoName | EmptyPart | InvalidType

  datatype Result = Ok(purl: PURL) | Err(error: ParseError)

  ghost predicate IsBytes(s: string) {
    forall i :: 0 <= i < |s| ==> s[i] as int < 256
  }

  // ----- Percent encoding -----

  function HexDigit(n: nat): char
    requires n < 16
  {
    if n < 10 then '0' + n as char else 'A' + (n - 10) as char
  }

  function HexValue(c: char): (v: int)
    ensures -1 <= v < 16
  {
    if '0' <= c <= '9' then c as int - '0' as int
    else if 'A' <= c <= 'F' then c as int - 'A' as int + 10
    else if 'a' <= c <= 'f' then c as int - 'a' as int + 10
    else -1
  }

  predicate IsHex(c: char) {
    HexValue(c) >= 0
  }

  function Escape(c: char): string {
    ['%', HexDigit(c as int / 16 % 16), HexDigit(c as int % 16)]
  }

  lemma HexDigitValue(n: nat)
    requires n < 16
    ensures HexValue(HexDigit(n)) == n
  {
  }

  // Characters that open or close a component of a PURL; "%" keeps the encoding reversible.
  predicate SegmentSpecial(c: char) {
    c in "@/%?#"
  }

  // A namespace may span segments, so "/" stays.
  predicate NamespaceSpecial(c: char) {
    c in "@%?#"
  }

  predicate QualifierSpecial(c: char) {
    c in "%@/?#&=" || c as int < 0x21 || c as int > 0x7e
  }

  function Encoded(s: string, special: char -> bool): string {
    if s == "" then "" else (if special(s[0]) then Escape(s[0]) else [s[0]]) + Encoded(s[1..], special)
  }

  // A single left-to-right pass: an escape is "%" and two hex digits, anything else is literal.
  function Decoded(s: string): string {
    if s == "" then ""
    else if s[0] == '%' && |s| >= 3 && IsHex(s[1]) && IsHex(s[2]) then
      [(HexValue(s[1]) * 16 + HexValue(s[2])) as char] + Decoded(s[3..])
    else [s[0]] + Decoded(s[1..])
  }

  lemma {:induction false} DecodedEncoded(s: string, special: char -> bool)
    requires special('%') && forall i :: 0 <= i < |s| && special(s[i]) ==> s[i] as int < 256
    ensures Decoded(Encoded(s, special)) == s
  {
    if s != "" {
      var c, rest := s[0], Encoded(s[1..], special);
      DecodedEncoded(s[1..], special);
      if special(c) {
        EscapeDecodes(c, rest);
      } else {
        assert ([c] + rest)[1..] == rest;
      }
    }
  }

  lemma EscapeDecodes(c: char, rest: string)
    requires c as int < 256
    ensures Decoded(Escape(c) + rest) == [c] + Decoded(rest)
  {
    var n := c as int;
    HexDigitValue(n / 16 % 16);
    HexDigitValue(n % 16);
    var s := Escape(c) + rest;
    assert s[0] == '%' && s[1] == HexDigit(n / 16 % 16) && s[2] == HexDigit(n % 16) && s[3..] == rest;
    assert n == (n / 16) * 16 + n % 16 && n / 16 < 16;
  }

  // Encoded text holds nothing special but the "%" of its escapes.
  lemma {:induction false} EncodedIsPlain(s: string, special: char -> bool)
    requires forall c :: special(c) ==> !IsHex(c)
    ensures forall c :: c in Encoded(s, special) ==> c == '%' || !special(c)
    ensures Encoded(s, special) == "" <==> s == ""
  {
    if s != "" {
      EncodedIsPlain(s[1..], special);
      HexDigitValue(s[0] as int / 16 % 16);
      HexDigitValue(s[0] as int % 16);
    }
  }

  lemma {:induction false} EncodedAppends(a: string, b: string, special: char -> bool)
    ensures Encoded(a + b, special) == Encoded(a, special) + Encoded(b, special)
  {
    if a == "" {
      assert a + b == b;
    } else {
      EncodedAppends(a[1..], b, special);
      assert (a + b)[1..] == a[1..] + b;
      var head := if special(a[0]) then Escape(a[0]) else [a[0]];
      hide Escape;
      assert head + (Encoded(a[1..], special) + Encoded(b, special)) == head + Encoded(a[1..], special) +
             Encoded(b, special);
    }
  }

  lemma {:induction false} EncodedUnchanged(s: string, special: char -> bool)
    requires forall c :: c in s ==> !special(c)
    ensures Encoded(s, special) == s
  {
    if s != "" {
      EncodedUnchanged(s[1..], special);
      assert s == [s[0]] + s[1..];
    }
  }

  lemma {:induction false} DecodedIsBytes(s: string)
    requires IsBytes(s)
    ensures IsBytes(Decoded(s))
    decreases |s|
  {
    if s == "" {
    } else if s[0] == '%' && |s| >= 3 && IsHex(s[1]) && IsHex(s[2]) {
      DecodedIsBytes(s[3..]);
    } else {
      DecodedIsBytes(s[1..]);
    }
  }

  // ----- The encoders and the decoder -----

  predicate ContainsAny(s: string, chars: string) {
    exists i :: 0 <= i < |s| && s[i] in chars
  }

  method EncodeSegment(s: string) returns (out: string)
    ensures out == Encoded(s, SegmentSpecial)
  {
    hide Encoded;
    if !ContainsAny(s, "@/%?#") {
      EncodedUnchanged(s, SegmentSpecial);
      return s;
    }
    out := "";
    NothingEncoded(SegmentSpecial);
    for i := 0 to |s|
      invariant out == Encoded(s[..i], SegmentSpecial)
    {
      EncodedOneMore(s, i, SegmentSpecial);
      match s[i] {
        case '@' => out := out + "%40";
        case '/' => out := out + "%2F";
        case '%' => out := out + "%25";
        case '?' => out := out + "%3F";
        case '#' => out := out + "%23";
        case c => out := out + [c];
      }
    }
    assert s[..|s|] == s;
  }

  method EncodeNamespace(s: string) returns (out: string)
    ensures out == Encoded(s, NamespaceSpecial)
  {
    hide Encoded;
    out := "";
    NothingEncoded(NamespaceSpecial);
    for i := 0 to |s|
      invariant out == Encoded(s[..i], NamespaceSpecial)
    {
      EncodedOneMore(s, i, NamespaceSpecial);
      match s[i] {
        case '@' => out := out + "%40";
        case '%' => out := out + "%25";
        case '?' => out := out + "%3F";
        case '#' => out := out + "%23";
        case c => out := out + [c];
      }
    }
    assert s[..|s|] == s;
  }

  method EncodeQualifierValue(s: string) returns (out: string)
    requires IsBytes(s)
    ensures out == Encoded(s, QualifierSpecial)
  {
    hide Encoded;
    out := "";
    NothingEncoded(QualifierSpecial);
    for i := 0 to |s|
      invariant out == Encoded(s[..i], QualifierSpecial)
    {
      EncodedOneMore(s, i, QualifierSpecial);
      match s[i] {
        case '%' => out := out + "%25";
        case '@' => out := out + "%40";
        case '/' => out := out + "%2F";
        case '?' => out := out + "%3F";
        case '#' => out := out + "%23";
        case '&' => out := out + "%26";
        case '=' => out := out + "%3D";
        case c =>
          if c as int < 0x21 || c as int > 0x7e {
            out := out + Escape(c);
            continue;
          }
          out := out + [c];
      }
    }
    assert s[..|s|] == s;
  }

  lemma NothingEncoded(special: char -> bool)
    ensures Encoded("", special) == ""
  {
  }

  lemma EncodedOneMore(s: string, i: nat, special: char -> bool)
    requires i < |s|
    ensures Encoded(s[..i + 1], special) == Encoded(s[..i], special) + if special(s[i]) then Escape(s[i]) else [s[i]]
  {
    assert s[..i + 1] == s[..i] + [s[i]];
    EncodedAppends(s[..i], [s[i]], special);
  }

  method DecodeSegment(s: string) returns (out: string)
    ensures out == Decoded(s)
  {
    if '%' !in s {
      NothingToDecode(s);
      return s;
    }
    hide Decoded, HexValue;
    out := "";
    var i := 0;
    NothingDecoded();
    assert s[0..] == s;
    while i < |s|
      invariant i <= |s| && out + Decoded(s[i..]) == Decoded(s)
    {
      DecodedStep(s[i..], out);
      assert s[i..][1..] == s[i + 1..];
      if s[i] == '%' && i + 3 <= |s| && IsHex(s[i + 1]) && IsHex(s[i + 2]) {
        assert s[i..][3..] == s[i + 3..];
        out := out + [(HexValue(s[i + 1]) * 16 + HexValue(s[i + 2])) as char];
        i := i + 3;
        continue;
      }
      out := out + [s[i]];
      i := i + 1;
    }
  }

  lemma NothingDecoded()
    ensures Decoded("") == ""
  {
  }

  lemma DecodedStep(s: string, out: string)
    requires s != ""
    ensures if s[0] == '%' && |s| >= 3 && IsHex(s[1]) && IsHex(s[2]) then
              out + Decoded(s) == out + [(HexValue(s[1]) * 16 + HexValue(s[2])) as char] + Decoded(s[3..])
            else out + Decoded(s) == out + [s[0]] + Decoded(s[1..])
  {
    hide HexValue;
    if s[0] == '%' && |s| >= 3 && IsHex(s[1]) && IsHex(s[2]) {
      Rebracket(out, (HexValue(s[1]) * 16 + HexValue(s[2])) as char, Decoded(s[3..]));
    } else {
      Rebracket(out, s[0], Decoded(s[1..]));
    }
  }

  lemma Rebracket(a: string, c: char, b: string)
    ensures a + ([c] + b) == a + [c] + b
  {
  }

  lemma {:induction false} NothingToDecode(s: string)
    requires '%' !in s
    ensures Decoded(s) == s
  {
    if s != "" {
      NothingToDecode(s[1..]);
      assert s == [s[0]] + s[1..];
    }
  }
}
