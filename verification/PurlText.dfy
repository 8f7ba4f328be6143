// Printed PURLs letter by letter: which characters stand as they are, and what the others become.
module PurlText {
  import opened Prelude
  import opened Sorting
  import opened Purl
  import opened PurlQualifiers
  import opened PurlIdentity
  import Text

  // None of these characters is in s.
  predicate Without(s: string, chars: string) {
    forall i :: 0 <= i < |s| ==> s[i] !in chars
  }

  // ----- What stands as it is -----

  lemma PlainStands(s: string)
    ensures Without(s, "@/%?#") ==> Encoded(s, SegmentSpecial) == s
    ensures Without(s, "@%?#") ==> Encoded(s, NamespaceSpecial) == s
    ensures Without(s, "@/%?#&=") && (forall i :: 0 <= i < |s| ==> '!' <= s[i] <= '~') ==>
              Encoded(s, QualifierSpecial) == s
  {
    if Without(s, "@/%?#") {
      EncodedUnchanged(s, SegmentSpecial);
    }
    if Without(s, "@%?#") {
      EncodedUnchanged(s, NamespaceSpecial);
    }
    if Without(s, "@/%?#&=") && forall i :: 0 <= i < |s| ==> '!' <= s[i] <= '~' {
      EncodedUnchanged(s, QualifierSpecial);
    }
  }

  // A package whose name and version hold no structural character is printed as it is written.
  lemma PlainIsPrinted(kind: string, name: string, version: string)
    requires Without(name, "@/%?#") && Without(version, "@/%?#")
    ensures Printed(PURL(kind, "", name, version, [])) ==
            "pkg:" + kind + "/" + name + (if version != "" then "@" + version else "")
  {
    PlainStands(name);
    PlainStands(version);
    NothingRendered();
    hide Encoded, Rendered;
    var p := PURL(kind, "", name, version, []);
    assert Printed(p) == "pkg:" + (Path(p) + VersionPart(p) + "");
  }

  // A namespace comes before the name; its slashes stand.
  lemma PlainNamespaceIsPrinted(kind: string, namespace: string, name: string, version: string)
    requires Without(namespace, "@%?#") && Without(name, "@/%?#") && Without(version, "@/%?#")
    requires namespace != "" && version != ""
    ensures Printed(PURL(kind, namespace, name, version, [])) == "pkg:" + kind + "/" + namespace + "/" + name + "@" +
            version
  {
    PlainStands(namespace);
    NamespaceIsPrinted(kind, namespace, name, version, namespace);
  }

  lemma NamespaceIsPrinted(kind: string, namespace: string, name: string, version: string, encoded: string)
    requires Encoded(namespace, NamespaceSpecial) == encoded && Without(name, "@/%?#") && Without(version, "@/%?#")
    requires namespace != "" && version != ""
    ensures Printed(PURL(kind, namespace, name, version, [])) == "pkg:" + kind + "/" + encoded + "/" + name + "@" +
            version
  {
    PlainStands(name);
    PlainStands(version);
    NothingRendered();
    hide Encoded, Rendered, Without;
    var p := PURL(kind, namespace, name, version, []);
    assert Printed(p) == "pkg:" + (Path(p) + VersionPart(p) + "");
  }

  // ----- What is escaped -----

  // One character of a text, and what it becomes.
  lemma Becomes(a: string, c: char, b: string, special: char -> bool)
    ensures Encoded(a + [c] + b, special) ==
            Encoded(a, special) + (if special(c) then Escape(c) else [c]) + Encoded(b, special)
  {
    EncodedAppends(a + [c], b, special);
    EncodedAppends(a, [c], special);
    assert Encoded([c], special) == if special(c) then Escape(c) else [c];
    hide Encoded, Escape;
  }

  lemma EscapesInText()
    ensures Escape('@') == "%40" && Escape('/') == "%2F" && Escape('%') == "%25" && Escape('?') == "%3F"
    ensures Escape('#') == "%23" && Escape('&') == "%26" && Escape('=') == "%3D" && Escape(' ') == "%20"
  {
  }

  // In a name or a version, each of five characters becomes its escape where it stands.
  lemma SegmentEscapes(a: string, b: string)
    ensures Encoded(a + "@" + b, SegmentSpecial) == Encoded(a, SegmentSpecial) + "%40" + Encoded(b, SegmentSpecial)
    ensures Encoded(a + "/" + b, SegmentSpecial) == Encoded(a, SegmentSpecial) + "%2F" + Encoded(b, SegmentSpecial)
    ensures Encoded(a + "%" + b, SegmentSpecial) == Encoded(a, SegmentSpecial) + "%25" + Encoded(b, SegmentSpecial)
    ensures Encoded(a + "?" + b, SegmentSpecial) == Encoded(a, SegmentSpecial) + "%3F" + Encoded(b, SegmentSpecial)
    ensures Encoded(a + "#" + b, SegmentSpecial) == Encoded(a, SegmentSpecial) + "%23" + Encoded(b, SegmentSpecial)
  {
    EscapesInText();
    Becomes(a, '@', b, SegmentSpecial);
    Becomes(a, '/', b, SegmentSpecial);
    Becomes(a, '%', b, SegmentSpecial);
    Becomes(a, '?', b, SegmentSpecial);
    Becomes(a, '#', b, SegmentSpecial);
    hide Encoded, Escape;
  }

  // In a namespace four do, and the slash stands.
  lemma NamespaceEscapes(a: string, b: string)
    ensures Encoded(a + "/" + b, NamespaceSpecial) == Encoded(a, NamespaceSpecial) + "/" + Encoded(b, NamespaceSpecial)
    ensures Encoded(a + "@" + b, NamespaceSpecial) == Encoded(a, NamespaceSpecial) + "%40" +
            Encoded(b, NamespaceSpecial)
    ensures Encoded(a + "%" + b, NamespaceSpecial) == Encoded(a, NamespaceSpecial) + "%25" +
            Encoded(b, NamespaceSpecial)
    ensures Encoded(a + "?" + b, NamespaceSpecial) == Encoded(a, NamespaceSpecial) + "%3F" +
            Encoded(b, NamespaceSpecial)
    ensures Encoded(a + "#" + b, NamespaceSpecial) == Encoded(a, NamespaceSpecial) + "%23" +
            Encoded(b, NamespaceSpecial)
  {
    EscapesInText();
    Becomes(a, '/', b, NamespaceSpecial);
    Becomes(a, '@', b, NamespaceSpecial);
    Becomes(a, '%', b, NamespaceSpecial);
    Becomes(a, '?', b, NamespaceSpecial);
    Becomes(a, '#', b, NamespaceSpecial);
    hide Encoded, Escape;
  }

  // In a qualifier's value seven do...
  lemma QualifierEscapes(a: string, b: string)
    ensures Encoded(a + "@" + b, QualifierSpecial) == Encoded(a, QualifierSpecial) + "%40" +
            Encoded(b, QualifierSpecial)
    ensures Encoded(a + "/" + b, QualifierSpecial) == Encoded(a, QualifierSpecial) + "%2F" +
            Encoded(b, QualifierSpecial)
    ensures Encoded(a + "%" + b, QualifierSpecial) == Encoded(a, QualifierSpecial) + "%25" +
            Encoded(b, QualifierSpecial)
    ensures Encoded(a + "?" + b, QualifierSpecial) == Encoded(a, QualifierSpecial) + "%3F" +
            Encoded(b, QualifierSpecial)
    ensures Encoded(a + "#" + b, QualifierSpecial) == Encoded(a, QualifierSpecial) + "%23" +
            Encoded(b, QualifierSpecial)
    ensures Encoded(a + "&" + b, QualifierSpecial) == Encoded(a, QualifierSpecial) + "%26" +
            Encoded(b, QualifierSpecial)
    ensures Encoded(a + "=" + b, QualifierSpecial) == Encoded(a, QualifierSpecial) + "%3D" +
            Encoded(b, QualifierSpecial)
  {
    EscapesInText();
    Becomes(a, '@', b, QualifierSpecial);
    Becomes(a, '/', b, QualifierSpecial);
    Becomes(a, '%', b, QualifierSpecial);
    Becomes(a, '?', b, QualifierSpecial);
    Becomes(a, '#', b, QualifierSpecial);
    Becomes(a, '&', b, QualifierSpecial);
    Becomes(a, '=', b, QualifierSpecial);
    hide Encoded, Escape;
  }

  // ...and so does every byte that is not a printable ASCII character, as two hexadecimal digits.
  lemma UnprintableEscapes(a: string, c: char, b: string)
    requires c as int < 256 && !('!' <= c <= '~')
    ensures Encoded(a + [c] + b, QualifierSpecial) ==
            Encoded(a, QualifierSpecial) + ['%', "0123456789ABCDEF"[c as int / 16], "0123456789ABCDEF"[c as int % 16]] +
            Encoded(b, QualifierSpecial)
  {
    Becomes(a, c, b, QualifierSpecial);
    DigitInText(c as int / 16);
    DigitInText(c as int % 16);
    assert QualifierSpecial(c) && c as int / 16 % 16 == c as int / 16;
    assert Escape(c) == ['%', "0123456789ABCDEF"[c as int / 16], "0123456789ABCDEF"[c as int % 16]];
    hide Encoded, HexDigit;
  }

  lemma DigitInText(n: nat)
    requires n < 16
    ensures HexDigit(n) == "0123456789ABCDEF"[n]
  {
    if n < 10 {
      assert "0123456789ABCDEF"[..10] == "0123456789";
    }
  }

  // ----- Qualifiers -----

  // A qualifier is kept exactly when it has a value and a key of these characters.
  lemma KeptInText(q: Qualifier)
    ensures Kept(q) <==>
              q.value != "" && q.key != "" &&
              forall i :: 0 <= i < |q.key| ==> q.key[i] in "abcdefghijklmnopqrstuvwxyz0123456789.-_"
  {
    var all := "abcdefghijklmnopqrstuvwxyz0123456789.-_";
    forall c: char
      ensures KeyChar(c) <==> c in all
    {
      KeyCharInText(c);
    }
    hide KeyChar;
  }

  lemma KeyCharInText(c: char)
    ensures KeyChar(c) <==> c in "abcdefghijklmnopqrstuvwxyz0123456789.-_"
  {
    var all := "abcdefghijklmnopqrstuvwxyz0123456789.-_";
    if 'a' <= c <= 'z' {
      assert all[c as int - 'a' as int] == c;
    }
    if '0' <= c <= '9' {
      assert all[26 + c as int - '0' as int] == c;
    }
    assert all[36] == '.' && all[37] == '-' && all[38] == '_';
    if k :| 0 <= k < |all| && all[k] == c {
      assert KeyChar(all[k]);
    }
  }

  // Qualifiers follow a question mark, and none leaves no mark.
  lemma QualifiersFollow(p: PURL)
    ensures Printed(p) ==
            Printed(p.(qualifiers := [])) + (if Rendered(p.qualifiers) != "" then "?" + Rendered(p.qualifiers) else "")
  {
    NothingRendered();
    hide Encoded, Rendered;
    var none := p.(qualifiers := []);
    assert Path(p) == Path(none) && VersionPart(p) == VersionPart(none);
    assert Printed(none) == "pkg:" + (Path(p) + VersionPart(p));
  }

  // One qualifier: the key, "=", and the value.
  lemma OneIsRendered(key: string, value: string)
    requires Kept(Qualifier(key, value))
    ensures Rendered([Qualifier(key, value)]) == key + "=" + Encoded(value, QualifierSpecial)
  {
    var q := Qualifier(key, value);
    hide Encoded, Kept;
    assert [q][..0] == [];
    assert Normal([q]) == [q];
    assert Pairs([q]) == [Pair(q)];
    OneJoined(Pair(q), '&');
    hide Text.Join, Normal;
  }

  // Two with different keys: in the order of the keys, whichever way they were given, with "&" between.
  lemma TwoAreRendered(a: Qualifier, b: Qualifier)
    requires Kept(a) && Kept(b) && exists i: nat :: TextBeforeAt(a.key, b.key, i)
    ensures Rendered([a, b]) ==
            a.key + "=" + Encoded(a.value, QualifierSpecial) + "&" + b.key + "=" + Encoded(b.value, QualifierSpecial)
    ensures Rendered([b, a]) == Rendered([a, b])
  {
    StringLessExactly(a.key, b.key);
    StringOrder();
    hide Encoded, Kept, StringLess, TextBeforeAt;
    NormalOfTwo(a, b);
    assert Pairs([a, b]) == [Pair(a), Pair(b)];
    TwoJoined(Pair(a), Pair(b));
    hide Text.Join, Normal;
  }

  lemma NormalOfTwo(a: Qualifier, b: Qualifier)
    requires Kept(a) && Kept(b) && StringLess(a.key, b.key) && a.key != b.key && !StringLess(b.key, a.key)
    ensures Normal([a, b]) == [a, b] && Normal([b, a]) == [a, b]
  {
    hide Kept, StringLess;
    assert [a, b][..1] == [a] && [b, a][..1] == [b] && [a][..0] == [] && [b][..0] == [];
    assert Normal([]) == [];
    assert Normal([a]) == [a] && Normal([b]) == [b];
    assert Put([a], b) == [a] + Put([], b);
    assert Put([b], a) == [a] + [b];
  }

  lemma TwoJoined(a: string, b: string)
    ensures Text.Join([a, b], '&') == a + "&" + b
  {
    assert [a, b][1..] == [b];
    OneJoined(b, '&');
  }

  // ----- Provenance and npm names -----

  lemma SourceKeysInText(class_: string, ref: string)
    ensures class_ != "" ==> Kept(Qualifier("source", class_))
    ensures ref != "" ==> Kept(Qualifier("source_ref", ref))
    ensures TextBeforeAt("source", "source_ref", 6)
  {
    SourceKeys();
  }

  // An origin other than the registry is printed as the qualifier source, its reference as source_ref.
  lemma SourceIsPrinted(p: PURL, class_: string, ref: string)
    requires p.qualifiers == [] && Without(class_, "@/%?#&=") && Without(ref, "@/%?#&=")
    requires forall i :: 0 <= i < |class_| ==> '!' <= class_[i] <= '~'
    requires forall i :: 0 <= i < |ref| ==> '!' <= ref[i] <= '~'
    ensures Printed(WithSource(p, class_, ref)) ==
            Printed(p) + if class_ == "" || class_ == "registry" || class_ == "unknown" then ""
                         else "?source=" + class_ + (if ref != "" then "&source_ref=" + ref else "")
  {
    PlainStands(class_);
    PlainStands(ref);
    SourceFollows(p, class_, ref);
    BareInText(class_);
    hide Encoded, Printed, WithSource, Without, BareSource;
  }

  lemma BareInText(class_: string)
    ensures BareSource(class_) <==> class_ == "" || class_ == "registry" || class_ == "unknown"
  {
  }

  lemma SourceFollows(p: PURL, class_: string, ref: string)
    requires p.qualifiers == []
    ensures Printed(WithSource(p, class_, ref)) ==
            Printed(p) + if BareSource(class_) then ""
                         else "?source=" + Encoded(class_, QualifierSpecial) +
                              (if ref != "" then "&source_ref=" + Encoded(ref, QualifierSpecial) else "")
  {
    QualifiersFollow(WithSource(p, class_, ref));
    SourceIsRendered(p, class_, ref);
    WithSourceKeeps(p, class_, ref);
    hide Rendered, Encoded, Printed, WithSource, BareSource, QualifierSpecial;
    var tail := if ref != "" then "&source_ref=" + Encoded(ref, QualifierSpecial) else "";
    FirstMarked(Encoded(class_, QualifierSpecial), tail);
  }

  lemma FirstMarked(x: string, tail: string)
    ensures "source=" + x + tail != "" && "?" + ("source=" + x + tail) == "?source=" + x + tail
  {
    assert "?" + "source=" == "?source=";
    HeadIsJoined("?", "source=", x, tail);
    TailIsJoined3("?", "source=", x, tail);
  }

  lemma TailIsJoined3(a: string, b: string, c: string, d: string)
    ensures a + (b + c + d) == a + b + c + d
  {
  }

  lemma WithSourceKeeps(p: PURL, class_: string, ref: string)
    requires p.qualifiers == []
    ensures WithSource(p, class_, ref).(qualifiers := []) == p
  {
  }

  lemma SourceIsRendered(p: PURL, class_: string, ref: string)
    requires p.qualifiers == []
    ensures Rendered(WithSource(p, class_, ref).qualifiers) ==
            if BareSource(class_) then ""
            else "source=" + Encoded(class_, QualifierSpecial) +
                 (if ref != "" then "&source_ref=" + Encoded(ref, QualifierSpecial) else "")
  {
    NothingRendered();
    if !BareSource(class_) {
      SourceIsListed(p, class_, ref);
      SourceKeysInText(class_, ref);
      KeysWithSigns();
      RenderedPair("source", "source_ref", class_, ref, "source=", "&source_ref=");
    }
    hide Rendered, Encoded, TextBeforeAt;
  }

  lemma KeysWithSigns()
    ensures "source" + "=" == "source=" && "&" + "source_ref" + "=" == "&source_ref="
  {
  }

  lemma RenderedPair(k: string, l: string, v: string, w: string, first: string, second: string)
    requires Kept(Qualifier(k, v)) && (w != "" ==> Kept(Qualifier(l, w))) && TextBeforeAt(k, l, |k|)
    requires k + "=" == first && "&" + l + "=" == second
    ensures Rendered(if w != "" then [Qualifier(k, v), Qualifier(l, w)] else [Qualifier(k, v)]) ==
            first + Encoded(v, QualifierSpecial) + (if w != "" then second + Encoded(w, QualifierSpecial) else "")
  {
    OneIsRendered(k, v);
    if w != "" {
      TwoAreRendered(Qualifier(k, v), Qualifier(l, w));
      PairsAreJoined(k, "=", Encoded(v, QualifierSpecial), "&", l, "=", Encoded(w, QualifierSpecial));
    }
    hide Rendered, Encoded, TextBeforeAt, Kept, QualifierSpecial;
  }

  lemma PairsAreJoined(k: string, c: string, x: string, d: string, l: string, e: string, y: string)
    ensures k + c + x + d + l + e + y == (k + c) + x + ((d + l + e) + y)
  {
  }

  lemma SourceIsListed(p: PURL, class_: string, ref: string)
    requires p.qualifiers == []
    ensures WithSource(p, class_, ref).qualifiers ==
            if BareSource(class_) then []
            else if ref != "" then [Qualifier("source", class_), Qualifier("source_ref", ref)]
            else [Qualifier("source", class_)]
  {
  }

  // lodash 4.17.21 is pkg:npm/lodash@4.17.21, and so for every name without a scope.
  lemma NpmIsPrinted(name: string, version: string)
    requires Without(name, "@/%?#") && Without(version, "@/%?#") && version != ""
    ensures Printed(NewNpm(name, version)) == "pkg:npm/" + name + "@" + version
  {
    PlainIsPrinted("npm", name, version);
    hide Printed;
    assert '/' !in name;
    assert "pkg:" + "npm" + "/" == "pkg:npm/";
  }

  // The scope of @scope/name becomes the namespace, its mark escaped.
  lemma ScopedNpmIsPrinted(scope: string, name: string, version: string)
    requires Without(scope, "@/%?#") && Without(name, "@/%?#") && Without(version, "@/%?#") && version != ""
    ensures Printed(NewNpm("@" + scope + "/" + name, version)) == "pkg:npm/%40" + scope + "/" + name + "@" + version
  {
    ScopeIsSplit(scope, name, version);
    ScopeIsEscaped(scope);
    hide Encoded, Rendered, NewNpm, Printed;
    NamespaceIsPrinted("npm", "@" + scope, name, version, "%40" + scope);
    hide Without;
    ScopeIsJoined(scope, name, version);
  }

  lemma ScopeIsEscaped(scope: string)
    requires Without(scope, "@/%?#")
    ensures Encoded("@" + scope, NamespaceSpecial) == "%40" + scope
  {
    PlainStands(scope);
    NamespaceEscapes("", scope);
    NothingEncoded(NamespaceSpecial);
    assert "" + "@" + scope == "@" + scope;
    hide Encoded, Without;
  }

  lemma ScopeIsJoined(scope: string, name: string, version: string)
    ensures "pkg:" + "npm" + "/" + ("%40" + scope) + "/" + name + "@" + version ==
            "pkg:npm/%40" + scope + "/" + name + "@" + version
  {
    assert "pkg:" + "npm" + "/" + "%40" == "pkg:npm/%40";
    HeadIsJoined("pkg:" + "npm" + "/", "%40", scope, "/" + name + "@" + version);
    TailIsJoined("pkg:" + "npm" + "/" + ("%40" + scope), "/", name, "@", version);
    TailIsJoined("pkg:npm/%40" + scope, "/", name, "@", version);
  }

  lemma HeadIsJoined(a: string, b: string, c: string, d: string)
    ensures a + (b + c) + d == a + b + c + d
  {
  }

  lemma TailIsJoined(a: string, b: string, c: string, d: string, e: string)
    ensures a + b + c + d + e == a + (b + c + d + e)
  {
  }

  lemma ScopeIsSplit(scope: string, name: string, version: string)
    requires Without(scope, "@/%?#")
    ensures NewNpm("@" + scope + "/" + name, version) == PURL("npm", "@" + scope, name, version, [])
  {
    hide Text.IndexOf;
    var text := "@" + scope + "/" + name;
    assert '/' !in "@" + scope;
    Text.FirstIndex("@" + scope, '/', name);
    assert text == "@" + scope + ['/'] + name;
    assert text[..|scope| + 1] == "@" + scope && text[|scope| + 2..] == name;
  }

  // ----- What is accepted -----

  // A type is a letter, then letters, digits, dots, plus signs and hyphens.
  predicate IsType(kind: string) {
    && kind != "" && ('a' <= kind[0] <= 'z' || 'A' <= kind[0] <= 'Z')
    && forall i :: 0 < i < |kind| ==>
         'a' <= kind[i] <= 'z' || 'A' <= kind[i] <= 'Z' || '0' <= kind[i] <= '9' || kind[i] in ".+-"
  }

  // Of a plain type, name and version, what is printed is read, or the first thing wrong with it is told.
  lemma PlainIsParsed(kind: string, name: string, version: string, lower: string -> string)
    requires Without(kind, "@/%?#") && Without(name, "@/%?#") && Without(version, "@/%?#") && version != ""
    ensures Parsed("pkg:" + kind + "/" + name + "@" + version, lower) ==
            if kind == "" || name == "" then Err(EmptyPart)
            else if !IsType(kind) then Err(InvalidType)
            else Ok(PURL(kind, "", name, version, []))
  {
    PlainPathIsParsed(kind, name, version);
    PartsArePlain(kind, name, version);
    hide ParsedPath, Parsed, IsType, Without;
    VersionedIsParsed(kind + "/" + name, version, lower);
  }

  lemma PartsArePlain(kind: string, name: string, version: string)
    requires Without(kind, "@/%?#") && Without(name, "@/%?#") && Without(version, "@/%?#")
    ensures Without(kind + "/" + name, "@%?#") && Without(version, "@%?#")
    ensures "pkg:" + kind + "/" + name + "@" + version == "pkg:" + (kind + "/" + name) + "@" + version
  {
    var path := kind + "/" + name;
    forall i | 0 <= i < |path|
      ensures path[i] !in "@%?#"
    {
      assert path[i] == if i < |kind| then kind[i] else if i == |kind| then '/' else name[i - |kind| - 1];
    }
    TailIsJoined3("pkg:", kind, "/", name);
  }

  lemma VersionedIsParsed(path: string, version: string, lower: string -> string)
    requires Without(path, "@%?#") && Without(version, "@%?#") && version != ""
    ensures Parsed("pkg:" + path + "@" + version, lower) == ParsedPath(path, version, [])
  {
    var text, rest := "pkg:" + path + "@" + version, path + ['@'] + version;
    assert text[4..] == rest && SCHEME <= text;
    HoldsNone(path);
    HoldsNone(version);
    NothingParsed(lower);
    VersionCut(path, version);
    NothingToDecode(version);
    hide Decoded, ParsedPath, VersionSplit, ParsedQualifiers, Without;
    assert '#' !in rest && '?' !in rest;
    NothingCut(rest);
    hide BeforeFirst, AfterFirst;
  }

  lemma HoldsNone(s: string)
    requires Without(s, "@%?#")
    ensures '@' !in s && '%' !in s && '?' !in s && '#' !in s
  {
  }

  lemma NothingCut(s: string)
    requires '#' !in s && '?' !in s
    ensures BeforeFirst(s, '#') == s && BeforeFirst(s, '?') == s && AfterFirst(s, '?') == ""
  {
    hide Text.IndexOf;
  }

  lemma PlainPathIsParsed(kind: string, name: string, version: string)
    requires Without(kind, "@/%?#") && Without(name, "@/%?#")
    ensures ParsedPath(kind + "/" + name, version, []) ==
            if kind == "" || name == "" then Err(EmptyPart)
            else if !IsType(kind) then Err(InvalidType)
            else Ok(PURL(kind, "", name, version, []))
  {
    assert '/' !in kind && '/' !in name && '%' !in name;
    NothingToDecode(name);
    Text.SplitFirst(kind, '/', name);
    Text.SplitWhole(name, '/');
    assert kind + "/" + name == kind + ['/'] + name;
    assert ValidType(kind) <==> IsType(kind);
    hide Decoded, Text.Split, ValidType, IsType;
  }

  // Without the scheme nothing is, and without a slash there is no name.
  lemma SchemeAndSlashAreAsked(s: string, lower: string -> string)
    ensures !("pkg:" <= s) ==> Parsed(s, lower) == Err(MissingScheme)
    ensures "pkg:" <= s && Without(s, "@/?#") ==> Parsed(s, lower) == Err(NoName)
  {
    if "pkg:" <= s && Without(s, "@/?#") {
      var rest := s[4..];
      assert forall i :: 0 <= i < |rest| ==> rest[i] == s[i + 4];
      assert '#' !in rest && '?' !in rest && '@' !in rest && '/' !in rest;
      Text.SplitWhole(rest, '/');
    }
    hide Text.Split, Text.IndexOf, Text.LastIndexOf, ParsedQualifiers;
  }
}
