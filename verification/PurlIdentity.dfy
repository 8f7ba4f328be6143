// The printed PURL identifies a package: printing and parsing are inverse up to qualifier normalisation.
module PurlIdentity {
  import opened Prelude
  import opened Sorting
  import opened Purl
  import opened PurlQualifiers
  import Text

  // ----- Printing -----

  // Type, namespace and name.
  function Path(p: PURL): string {
    p.kind + "/" + (if p.namespace != "" then Encoded(p.namespace, NamespaceSpecial) + "/" else "") +
        Encoded(p.name, SegmentSpecial)
  }

  function VersionPart(p: PURL): string {
    if p.version != "" then "@" + Encoded(p.version, SegmentSpecial) else ""
  }

  function QualifierPart(p: PURL): string {
    if Rendered(p.qualifiers) != "" then "?" + Rendered(p.qualifiers) else ""
  }

  const SCHEME := "pkg:"

  function Printed(p: PURL): string {
    SCHEME + (Path(p) + VersionPart(p) + QualifierPart(p))
  }

  method Print(p: PURL) returns (out: string)
    requires ByteValues(p.qualifiers)
    ensures out == Printed(p)
  {
    hide Encoded, Rendered, ByteValues;
    out := "pkg:";
    out := out + p.kind;
    out := out + "/";
    ghost var path := p.kind + "/";
    if p.namespace != "" {
      var ns := EncodeNamespace(p.namespace);
      out := out + ns;
      out := out + "/";
      path := path + (ns + "/");
    }
    var name := EncodeSegment(p.name);
    out := out + name;
    assert out == SCHEME + Path(p);
    if p.version != "" {
      var version := EncodeSegment(p.version);
      out := out + "@";
      out := out + version;
    }
    assert out == SCHEME + (Path(p) + VersionPart(p));
    var q := RenderQualifiers(p.qualifiers);
    if q != "" {
      out := out + "?";
      out := out + q;
    }
  }

  // ----- Parsing -----

  // An ASCII letter, then letters, digits, ".", "+" and "-".
  predicate TypeLetter(c: char) {
    'a' <= c <= 'z' || 'A' <= c <= 'Z'
  }

  predicate ValidType(t: string) {
    && t != "" && TypeLetter(t[0])
    && forall i :: 0 < i < |t| ==> TypeLetter(t[i]) || '0' <= t[i] <= '9' || t[i] == '.' || t[i] == '+' || t[i] == '-'
  }

  function BeforeFirst(s: string, c: char): string {
    var i := Text.IndexOf(s, c);
    if i >= 0 then s[..i] else s
  }

  function AfterFirst(s: string, c: char): string {
    var i := Text.IndexOf(s, c);
    if i >= 0 then s[i + 1..] else ""
  }

  // A trailing "@" with nothing after it separates no version.
  function VersionSplit(s: string): (string, string) {
    var i := Text.LastIndexOf(s, '@');
    if i >= 0 && i + 1 < |s| then (s[..i], Decoded(s[i + 1..])) else (s, "")
  }

  // Type, namespace and name from the path, with what was already split off.
  function ParsedPath(path: string, version: string, qualifiers: seq<Qualifier>): Result {
    var parts := Text.Split(path, '/');
    if |parts| < 2 then Err(NoName)
    else
      var namespace := if |parts| == 2 then "" else Decoded(Text.Join(parts[1..|parts| - 1], '/'));
      var p := PURL(parts[0], namespace, Decoded(parts[|parts| - 1]), version, qualifiers);
      if p.kind == "" || p.name == "" then Err(EmptyPart)
      else if !ValidType(p.kind) then Err(InvalidType)
      else Ok(p)
  }

  // Qualifiers are cut off, then the version, then the path is split.
  function ParsedBare(bare: string, lower: string -> string): Result {
    var (path, version) := VersionSplit(BeforeFirst(bare, '?'));
    ParsedPath(path, version, ParsedQualifiers(AfterFirst(bare, '?'), lower))
  }

  // First of all the subpath is dropped.
  function Parsed(s: string, lower: string -> string): Result {
    if SCHEME <= s then ParsedBare(BeforeFirst(s[|SCHEME|..], '#'), lower) else Err(MissingScheme)
  }

  method ParsePath(path: string, version: string, quals: seq<Qualifier>) returns (r: Result)
    ensures r == ParsedPath(path, version, quals)
  {
    hide Decoded, Text.Split, Text.Join, ValidType;
    var parts := Text.Split(path, '/');
    if |parts| < 2 {
      return Err(NoName);
    }
    var p := PURL(parts[0], "", "", version, quals);
    var name := DecodeSegment(parts[|parts| - 1]);
    if |parts| != 2 {
      var ns := DecodeSegment(Text.Join(parts[1..|parts| - 1], '/'));
      p := p.(namespace := ns);
    }
    p := p.(name := name);
    if p.kind == "" || p.name == "" {
      return Err(EmptyPart);
    }
    if !ValidType(p.kind) {
      return Err(InvalidType);
    }
    return Ok(p);
  }

  // The version, then the path.
  method ParseVersioned(rest: string, quals: seq<Qualifier>) returns (r: Result)
    ensures r == ParsedPath(VersionSplit(rest).0, VersionSplit(rest).1, quals)
  {
    hide Decoded, ParsedPath, Text.LastIndexOf;
    var path, version := rest, "";
    var at := Text.LastIndexOf(rest, '@');
    if at >= 0 && at + 1 < |rest| {
      version := DecodeSegment(rest[at + 1..]);
      path := rest[..at];
    }
    r := ParsePath(path, version, quals);
  }

  // The qualifiers, then the rest.
  method ParseBare(bare: string, lower: string -> string) returns (r: Result)
    ensures r == ParsedBare(bare, lower)
  {
    hide ParsedQualifiers, ParsedPath, VersionSplit, Text.IndexOf;
    var rest, quals := bare, [];
    NothingParsed(lower);
    var mark := Text.IndexOf(bare, '?');
    if mark >= 0 {
      quals := ParseQualifiers(bare[mark + 1..], lower);
      rest := bare[..mark];
    }
    r := ParseVersioned(rest, quals);
  }

  method Parse(s: string, lower: string -> string) returns (r: Result)
    ensures r == Parsed(s, lower)
  {
    hide ParsedBare, Text.IndexOf;
    if !(SCHEME <= s) {
      return Err(MissingScheme);
    }
    var rest := s[|SCHEME|..];
    var hash := Text.IndexOf(rest, '#');
    if hash >= 0 {
      rest := rest[..hash];
    }
    r := ParseBare(rest, lower);
  }

  lemma NothingParsed(lower: string -> string)
    ensures ParsedQualifiers("", lower) == []
  {
  }

  // ----- Round trip -----

  // What can be printed and read back: a valid type and a name.
  ghost predicate Valid(p: PURL) {
    ValidType(p.kind) && p.name != "" && ByteValues(p.qualifiers)
  }

  // The same package with its qualifiers in normal form.
  function Norm(p: PURL): PURL {
    p.(qualifiers := Normal(p.qualifiers))
  }

  lemma TypeIsPlain(t: string)
    requires ValidType(t)
    ensures '#' !in t && '?' !in t && '@' !in t && '/' !in t
  {
    assert forall i :: 0 <= i < |t| ==>
           TypeLetter(t[i]) || '0' <= t[i] <= '9' || t[i] == '.' || t[i] == '+' || t[i] == '-';
  }

  lemma SegmentIsPlain(s: string)
    ensures var e := Encoded(s, SegmentSpecial);
            '#' !in e && '?' !in e && '@' !in e && '/' !in e && (e == "" <==> s == "")
    ensures Decoded(Encoded(s, SegmentSpecial)) == s
  {
    DecodedEncoded(s, SegmentSpecial);
    EncodedIsPlain(s, SegmentSpecial);
    hide Encoded;
  }

  lemma NamespaceIsPlain(s: string)
    ensures var e := Encoded(s, NamespaceSpecial);
            '#' !in e && '?' !in e && '@' !in e
    ensures Decoded(Encoded(s, NamespaceSpecial)) == s
  {
    DecodedEncoded(s, NamespaceSpecial);
    EncodedIsPlain(s, NamespaceSpecial);
    hide Encoded;
  }

  lemma NothingStructural(p: PURL)
    requires Valid(p)
    ensures '#' !in Path(p) && '?' !in Path(p) && '@' !in Path(p)
    ensures '#' !in VersionPart(p) && '?' !in VersionPart(p)
  {
    NamespaceIsPlain(p.namespace);
    SegmentIsPlain(p.name);
    SegmentIsPlain(p.version);
    TypeIsPlain(p.kind);
    hide Encoded, ValidType, ByteValues, SegmentSpecial, NamespaceSpecial;
    var ns, name := Encoded(p.namespace, NamespaceSpecial), Encoded(p.name, SegmentSpecial);
    assert forall c :: c in Path(p) ==> c in p.kind || c == '/' || c in ns || c in name;
  }

  // The path splits into type, the segments of the namespace, and name.
  lemma PathSplits(kind: string, ns: string, name: string)
    requires '/' !in kind && '/' !in name
    ensures Text.Split(kind + "/" + name, '/') == [kind, name]
    ensures Text.Split(kind + "/" + (ns + "/") + name, '/') == [kind] + Text.Split(ns, '/') + [name]
  {
    hide Text.Split;
    Text.SplitFirst(kind, '/', name);
    Text.SplitWhole(name, '/');
    assert kind + "/" + name == kind + ['/'] + name;
    var rest := ns + ['/'] + name;
    assert kind + "/" + (ns + "/") + name == kind + ['/'] + rest;
    Text.SplitFirst(kind, '/', rest);
    Text.SplitLast(ns, '/', name);
  }

  lemma PathParses(p: PURL, qualifiers: seq<Qualifier>)
    requires Valid(p)
    ensures ParsedPath(Path(p), p.version, qualifiers) == Ok(p.(qualifiers := qualifiers))
  {
    SegmentIsPlain(p.name);
    NamespaceIsPlain(p.namespace);
    TypeIsPlain(p.kind);
    var ns, name := Encoded(p.namespace, NamespaceSpecial), Encoded(p.name, SegmentSpecial);
    hide Encoded, Decoded, Text.Split, Text.Join, ValidType, SegmentSpecial, NamespaceSpecial, ByteValues, ParsedPath;
    PathSplits(p.kind, ns, name);
    if p.namespace == "" {
      assert Path(p) == p.kind + "/" + name;
      ParsedParts(Path(p), p.kind, [], name, p.version, qualifiers);
    } else {
      assert Path(p) == p.kind + "/" + (ns + "/") + name;
      Text.JoinSplit(ns, '/');
      ParsedParts(Path(p), p.kind, Text.Split(ns, '/'), name, p.version, qualifiers);
    }
  }

  lemma ParsedParts(path: string, kind: string, middle: seq<string>, name: string, version: string,
                    qualifiers: seq<Qualifier>)
    requires Text.Split(path, '/') == if middle == [] then [kind, name] else [kind] + middle + [name]
    requires ValidType(kind) && Decoded(name) != ""
    ensures ParsedPath(path, version, qualifiers) ==
            Ok(PURL(kind, if middle == [] then "" else Decoded(Text.Join(middle, '/')), Decoded(name), version,
                    qualifiers))
  {
    assert kind != "";
    hide Decoded, Text.Split, Text.Join, ValidType;
    if middle != [] {
      MiddleOfSplit(kind, middle, name);
    }
  }

  lemma MiddleOfSplit(kind: string, middle: seq<string>, name: string)
    requires middle != []
    ensures var parts := [kind] + middle + [name];
            |parts| > 2 && parts[0] == kind && parts[|parts| - 1] == name && parts[1..|parts| - 1] == middle
  {
  }

  lemma VersionParses(p: PURL)
    requires Valid(p)
    ensures VersionSplit(Path(p) + VersionPart(p)) == (Path(p), p.version)
  {
    hide Path, Encoded, Decoded, SegmentSpecial, ValidType, ByteValues, VersionSplit;
    NothingStructural(p);
    SegmentIsPlain(p.version);
    var v := Encoded(p.version, SegmentSpecial);
    VersionCut(Path(p), v);
    if p.version != "" {
      assert Path(p) + VersionPart(p) == Path(p) + ['@'] + v;
    } else {
      assert Path(p) + VersionPart(p) == Path(p);
    }
  }

  lemma VersionCut(path: string, v: string)
    requires '@' !in path && '@' !in v
    ensures v != "" ==> VersionSplit(path + ['@'] + v) == (path, Decoded(v))
    ensures VersionSplit(path) == (path, "")
  {
    hide Text.LastIndexOf, Decoded;
    if v != "" {
      var s := path + ['@'] + v;
      Text.LastIndex(path, '@', v);
      assert s[..|path|] == path && s[|path| + 1..] == v;
    }
  }

  lemma MarkParses(p: PURL)
    requires Valid(p)
    ensures BeforeFirst(Path(p) + VersionPart(p) + QualifierPart(p), '?') == Path(p) + VersionPart(p)
    ensures AfterFirst(Path(p) + VersionPart(p) + QualifierPart(p), '?') == Rendered(p.qualifiers)
  {
    NothingStructural(p);
    hide Path, VersionPart, Rendered;
    var base, q := Path(p) + VersionPart(p), Rendered(p.qualifiers);
    if q != "" {
      var s := base + ['?'] + q;
      assert base + QualifierPart(p) == s;
      Text.FirstIndex(base, '?', q);
      assert s[..|base|] == base && s[|base| + 1..] == q;
    } else {
      assert base + QualifierPart(p) == base;
    }
  }

  lemma NoHash(p: PURL)
    requires '#' !in Path(p) && '#' !in VersionPart(p) && '#' !in Rendered(p.qualifiers)
    ensures '#' !in Path(p) + VersionPart(p) + QualifierPart(p)
  {
    hide Path, VersionPart, Rendered;
  }

  // Every printable PURL parses back to itself, its qualifiers sorted, filtered and deduplicated.
  lemma RoundTrip(p: PURL, lower: string -> string)
    requires Valid(p) && KeepsKeys(lower)
    ensures Parsed(Printed(p), lower) == Ok(Norm(p))
  {
    hide Path, VersionPart, QualifierPart, Rendered, SegmentSpecial, NamespaceSpecial, Text.Split, Text.IndexOf,
         Decoded, Encoded, Normal, ParsedQualifiers, ParsedPath, AfterFirst, VersionSplit, ValidType, ByteValues,
         KeepsKeys;
    QualifiersRoundTrip(p.qualifiers, lower);
    NothingStructural(p);
    MarkParses(p);
    VersionParses(p);
    PathParses(p, Normal(p.qualifiers));
    var rest := Path(p) + VersionPart(p) + QualifierPart(p);
    assert Printed(p)[|SCHEME|..] == rest && SCHEME <= Printed(p);
    NoHash(p);
    assert BeforeFirst(rest, '#') == rest;
    hide BeforeFirst;
    assert ParsedBare(rest, lower) == Ok(Norm(p));
  }

  // Normalising changes neither the printed form nor, a second time, the PURL.
  lemma NormPrintsAlike(p: PURL)
    ensures Printed(Norm(p)) == Printed(p) && Norm(Norm(p)) == Norm(p)
  {
    NormalIsNormal(p.qualifiers);
    NormalOfNormal(Normal(p.qualifiers));
    hide Normal, Encoded, KeysIncrease;
    assert Path(Norm(p)) == Path(p) && VersionPart(Norm(p)) == VersionPart(p);
  }

  // Two PURLs print alike exactly when they are the same up to qualifier normalisation.
  lemma PrintedIdentifies(p: PURL, q: PURL)
    requires Valid(p) && Valid(q)
    ensures Printed(p) == Printed(q) <==> Norm(p) == Norm(q)
  {
    hide Printed, Norm, Parsed;
    if Printed(p) == Printed(q) {
      var lower := (k: string) => k;
      RoundTrip(p, lower);
      RoundTrip(q, lower);
      assert Ok(Norm(p)).purl == Ok(Norm(q)).purl;
    }
    NormPrintsAlike(p);
    NormPrintsAlike(q);
  }

  lemma {:induction false} ParsedPairsBytes(pairs: seq<string>, lower: string -> string)
    requires forall i :: 0 <= i < |pairs| ==> IsBytes(pairs[i])
    ensures ByteValues(ParsedPairs(pairs, lower))
  {
    if pairs != [] {
      ParsedPairsBytes(pairs[..|pairs| - 1], lower);
      var pair := pairs[|pairs| - 1];
      var i := Text.IndexOf(pair, '=');
      if i > 0 {
        DecodedIsBytes(pair[i + 1..]);
      }
      hide Decoded, IsBytes;
    }
  }

  lemma {:induction false} SplitIsBytes(s: string, c: char)
    requires IsBytes(s)
    ensures forall i :: 0 <= i < |Text.Split(s, c)| ==> IsBytes(Text.Split(s, c)[i])
    decreases |s|
  {
    var i := Text.IndexOf(s, c);
    if i >= 0 {
      SplitIsBytes(s[i + 1..], c);
    }
  }

  lemma CutIsBytes(s: string, c: char)
    requires IsBytes(s)
    ensures IsBytes(BeforeFirst(s, c)) && IsBytes(AfterFirst(s, c))
  {
    hide Text.IndexOf;
  }

  lemma PathGivesParts(path: string, version: string, qualifiers: seq<Qualifier>)
    requires ParsedPath(path, version, qualifiers).Ok?
    ensures var p := ParsedPath(path, version, qualifiers).purl;
            ValidType(p.kind) && p.name != "" && p.qualifiers == qualifiers
  {
    hide Text.Split, Text.Join, Decoded, ValidType;
  }

  // Whatever is accepted can be printed.
  lemma ParsedIsValid(s: string, lower: string -> string)
    requires IsBytes(s) && Parsed(s, lower).Ok?
    ensures Valid(Parsed(s, lower).purl)
  {
    var bare := BeforeFirst(s[|SCHEME|..], '#');
    var quals := AfterFirst(bare, '?');
    CutIsBytes(s[|SCHEME|..], '#');
    CutIsBytes(bare, '?');
    SplitIsBytes(quals, '&');
    ParsedPairsBytes(Text.Split(quals, '&'), lower);
    hide Text.Split, ParsedPairs, IsBytes, ValidType, VersionSplit, BeforeFirst, AfterFirst, ParsedPath;
    assert ByteValues(ParsedQualifiers(quals, lower));
    hide ParsedQualifiers, ByteValues;
    var (path, version) := VersionSplit(BeforeFirst(bare, '?'));
    PathGivesParts(path, version, ParsedQualifiers(quals, lower));
  }

  // Any accepted input: one parse and print reaches the fixed point of parse-then-print.
  lemma CanonicalIsStable(s: string, lower: string -> string)
    requires IsBytes(s) && KeepsKeys(lower) && Parsed(s, lower).Ok?
    ensures var canonical := Printed(Parsed(s, lower).purl);
            Parsed(canonical, lower).Ok? && Printed(Parsed(canonical, lower).purl) == canonical
  {
    ParsedIsValid(s, lower);
    hide Parsed, Printed, Norm, Valid;
    var p := Parsed(s, lower).purl;
    RoundTrip(p, lower);
    NormPrintsAlike(p);
  }

  // ----- Provenance and names -----

  const QUALIFIER_SOURCE := "source"
  const QUALIFIER_SOURCE_REF := "source_ref"

  // Origins whose coordinate stays bare.
  predicate BareSource(class_: string) {
    class_ == "" || class_ == "registry" || class_ == "unknown"
  }

  function WithSource(p: PURL, class_: string, ref: string): PURL {
    if BareSource(class_) then p
    else
      var q := p.(qualifiers := p.qualifiers + [Qualifier(QUALIFIER_SOURCE, class_)]);
      if ref != "" then q.(qualifiers := q.qualifiers + [Qualifier(QUALIFIER_SOURCE_REF, ref)]) else q
  }

  lemma SourceKeys()
    ensures ValidKey(QUALIFIER_SOURCE) && ValidKey(QUALIFIER_SOURCE_REF) && QUALIFIER_SOURCE != QUALIFIER_SOURCE_REF
  {
    assert |QUALIFIER_SOURCE| != |QUALIFIER_SOURCE_REF|;
  }

  lemma SourceIsWritten(p: PURL, class_: string, ref: string)
    requires !BareSource(class_)
    ensures var m := Written(WithSource(p, class_, ref).qualifiers);
            && QUALIFIER_SOURCE in m && m[QUALIFIER_SOURCE] == class_
            && (if ref != "" then QUALIFIER_SOURCE_REF in m && m[QUALIFIER_SOURCE_REF] == ref
                else QUALIFIER_SOURCE_REF in m ==> QUALIFIER_SOURCE_REF in Written(p.qualifiers))
  {
    SourceKeys();
    hide ValidKey;
    var qs := p.qualifiers + [Qualifier(QUALIFIER_SOURCE, class_)];
    assert qs[..|qs| - 1] == p.qualifiers;
    var rs := qs + [Qualifier(QUALIFIER_SOURCE_REF, ref)];
    assert rs[..|rs| - 1] == qs;
  }

  lemma SourceStaysValid(p: PURL, class_: string, ref: string)
    requires Valid(p) && IsBytes(class_) && IsBytes(ref)
    ensures Valid(WithSource(p, class_, ref))
  {
    hide ValidType, IsBytes;
  }

  // PURLs that print alike write the same map of qualifiers.
  lemma PrintedFixesWritten(p: PURL, q: PURL)
    requires Valid(p) && Valid(q) && Printed(p) == Printed(q)
    ensures Written(p.qualifiers) == Written(q.qualifiers)
    ensures p.namespace == q.namespace && p.name == q.name && p.version == q.version && p.kind == q.kind
  {
    PrintedIdentifies(p, q);
    NormalHoldsWritten(p.qualifiers);
    NormalHoldsWritten(q.qualifiers);
    hide Printed, Normal, Written, Valid;
    var m, n := Written(p.qualifiers), Written(q.qualifiers);
    assert forall k :: k in m ==> Qualifier(k, m[k]) in Normal(p.qualifiers);
    assert forall k :: k in n ==> Qualifier(k, n[k]) in Normal(q.qualifiers);
  }

  // A package from a fork, a path or a URL is never the registry package of the same coordinate.
  lemma SourceSetsApart(p: PURL, class_: string, ref: string)
    requires Valid(p) && IsBytes(class_) && IsBytes(ref) && QUALIFIER_SOURCE !in Written(p.qualifiers)
    ensures Printed(WithSource(p, class_, ref)) == Printed(p) <==> BareSource(class_)
  {
    if !BareSource(class_) {
      SourceIsWritten(p, class_, ref);
      SourceStaysValid(p, class_, ref);
      hide Printed, Written, Valid, WithSource, IsBytes;
      if Printed(WithSource(p, class_, ref)) == Printed(p) {
        PrintedFixesWritten(WithSource(p, class_, ref), p);
      }
    }
  }

  // Different origins of one coordinate are different identities.
  lemma SourcesAreDistinct(p: PURL, class1: string, ref1: string, class2: string, ref2: string)
    requires Valid(p) && IsBytes(class1) && IsBytes(ref1) && IsBytes(class2) && IsBytes(ref2)
    requires QUALIFIER_SOURCE_REF !in Written(p.qualifiers) && !BareSource(class1) && !BareSource(class2)
    ensures Printed(WithSource(p, class1, ref1)) == Printed(WithSource(p, class2, ref2)) <==>
              class1 == class2 && ref1 == ref2
  {
    SourceIsWritten(p, class1, ref1);
    SourceIsWritten(p, class2, ref2);
    SourceStaysValid(p, class1, ref1);
    SourceStaysValid(p, class2, ref2);
    hide Printed, Written, Valid, WithSource, IsBytes, BareSource;
    if Printed(WithSource(p, class1, ref1)) == Printed(WithSource(p, class2, ref2)) {
      PrintedFixesWritten(WithSource(p, class1, ref1), WithSource(p, class2, ref2));
    }
  }

  // "@scope/pkg" is namespace "@scope" and name "pkg"; any other name stands whole.
  function SplitNpmScope(name: string): (string, string) {
    var i := Text.IndexOf(name, '/');
    if "@" <= name && i > 0 then (name[..i], name[i + 1..]) else ("", name)
  }

  function NewNpm(name: string, version: string): PURL {
    var (namespace, bare) := SplitNpmScope(name);
    PURL("npm", namespace, bare, version, [])
  }

  lemma ScopeSplitIsInjective(a: string, b: string)
    requires SplitNpmScope(a) == SplitNpmScope(b)
    ensures a == b
  {
    var (ns, bare) := SplitNpmScope(a);
    hide Text.IndexOf;
    if ns != "" {
      assert a == ns + "/" + bare && b == ns + "/" + bare;
    }
  }

  // Two npm packages share a node exactly when name and version agree.
  lemma NpmIdentity(name1: string, version1: string, name2: string, version2: string)
    requires SplitNpmScope(name1).1 != "" && SplitNpmScope(name2).1 != ""
    ensures Printed(NewNpm(name1, version1)) == Printed(NewNpm(name2, version2)) <==>
              name1 == name2 && version1 == version2
  {
    var p, q := NewNpm(name1, version1), NewNpm(name2, version2);
    assert ValidType("npm");
    assert Valid(p) && Valid(q);
    hide Printed, Valid, Written;
    if Printed(p) == Printed(q) {
      PrintedFixesWritten(p, q);
      ScopeSplitIsInjective(name1, name2);
    }
  }
}
