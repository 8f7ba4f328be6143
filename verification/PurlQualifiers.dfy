// Qualifiers: normalised when rendered, filtered when parsed.
module PurlQualifiers {
  import opened Prelude
  import opened Sorting
  import opened Purl
  import Text

  // Lower-case ASCII letters, digits, ".", "-" and "_".
  predicate KeyChar(c: char) {
    'a' <= c <= 'z' || '0' <= c <= '9' || c == '.' || c == '-' || c == '_'
  }

  predicate ValidKey(k: string) {
    k != "" && forall i :: 0 <= i < |k| ==> KeyChar(k[i])
  }

  // Only qualifiers with a value and a well-formed key are rendered.
  predicate Kept(q: Qualifier) {
    q.value != "" && ValidKey(q.key)
  }

  // ----- Normal form: sorted by key, the last value of each key -----

  function Put(list: seq<Qualifier>, q: Qualifier): seq<Qualifier> {
    if list == [] then [q]
    else if list[0].key == q.key then [q] + list[1..]
    else if StringLess(q.key, list[0].key) then [q] + list
    else [list[0]] + Put(list[1..], q)
  }

  function Normal(qs: seq<Qualifier>): seq<Qualifier> {
    if qs == [] then []
    else
      var q := qs[|qs| - 1];
      if Kept(q) then Put(Normal(qs[..|qs| - 1]), q) else Normal(qs[..|qs| - 1])
  }

  ghost predicate KeysIncrease(list: seq<Qualifier>) {
    forall i, j :: 0 <= i < j < |list| ==> StringLess(list[i].key, list[j].key)
  }

  ghost predicate IsNormal(list: seq<Qualifier>) {
    KeysIncrease(list) && forall i :: 0 <= i < |list| ==> Kept(list[i])
  }

  // What a key maps to when qualifiers are written into a map one after the other.
  function Written(qs: seq<Qualifier>): map<string, string> {
    if qs == [] then map[]
    else
      var q := qs[|qs| - 1];
      if Kept(q) then Written(qs[..|qs| - 1])[q.key := q.value] else Written(qs[..|qs| - 1])
  }

  // The rest of an increasing list is everything but its head, and lies above it.
  lemma TailMembers(a: seq<Qualifier>)
    requires KeysIncrease(a) && a != []
    ensures KeysIncrease(a[1..])
    ensures forall q :: q in a[1..] <==> q in a && q != a[0]
    ensures forall q :: q in a[1..] ==> StringLess(a[0].key, q.key) && q.key != a[0].key
  {
    hide StringLess;
    StringOrder();
    assert a == [a[0]] + a[1..];
    forall q | q in a[1..]
      ensures StringLess(a[0].key, q.key) && q.key != a[0].key
    {
      var i :| 0 <= i < |a[1..]| && a[1..][i] == q;
      assert a[i + 1] == q;
    }
  }

  lemma IncreaseCons(x: Qualifier, rest: seq<Qualifier>)
    requires KeysIncrease(rest) && forall q :: q in rest ==> StringLess(x.key, q.key)
    ensures KeysIncrease([x] + rest)
  {
    hide StringLess;
    var list := [x] + rest;
    forall i, j | 0 <= i < j < |list|
      ensures StringLess(list[i].key, list[j].key)
    {
      assert list[j] == rest[j - 1];
      if i > 0 {
        assert list[i] == rest[i - 1];
      }
    }
  }

  // Put replaces the entry with q's key, or adds one.
  lemma {:induction false} PutMembers(list: seq<Qualifier>, q: Qualifier)
    requires KeysIncrease(list)
    ensures forall x :: x in Put(list, q) <==> x == q || (x in list && x.key != q.key)
  {
    hide StringLess;
    StringOrder();
    if list != [] {
      TailMembers(list);
      assert list == [list[0]] + list[1..];
      hide KeysIncrease;
      if list[0].key != q.key && !StringLess(q.key, list[0].key) {
        PutMembers(list[1..], q);
      } else if list[0].key != q.key {
        assert forall x :: x in list[1..] ==> StringLess(q.key, x.key);
      }
    }
  }

  lemma {:induction false} PutIncreases(list: seq<Qualifier>, q: Qualifier)
    requires KeysIncrease(list)
    ensures KeysIncrease(Put(list, q))
  {
    hide StringLess;
    StringOrder();
    if list != [] {
      TailMembers(list);
      assert list == [list[0]] + list[1..];
      PutMembers(list[1..], q);
      hide KeysIncrease;
      if list[0].key == q.key {
        IncreaseCons(q, list[1..]);
      } else if StringLess(q.key, list[0].key) {
        IncreaseCons(q, list);
      } else {
        PutIncreases(list[1..], q);
        IncreaseCons(list[0], Put(list[1..], q));
      }
    } else {
      IncreaseCons(q, []);
    }
  }

  lemma {:induction false} NormalIsNormal(qs: seq<Qualifier>)
    ensures IsNormal(Normal(qs))
  {
    if qs != [] {
      NormalIsNormal(qs[..|qs| - 1]);
      if Kept(qs[|qs| - 1]) {
        PutIncreases(Normal(qs[..|qs| - 1]), qs[|qs| - 1]);
        PutMembers(Normal(qs[..|qs| - 1]), qs[|qs| - 1]);
        assert forall x :: x in Normal(qs) ==> Kept(x);
      }
    }
  }

  // Each key that was ever given a value appears with the last one.
  lemma {:induction false} NormalHoldsWritten(qs: seq<Qualifier>)
    ensures forall k, v :: Qualifier(k, v) in Normal(qs) <==> k in Written(qs) && Written(qs)[k] == v
  {
    hide StringLess, Put, KeysIncrease;
    if qs != [] {
      var init, q := qs[..|qs| - 1], qs[|qs| - 1];
      NormalHoldsWritten(init);
      NormalIsNormal(init);
      if Kept(q) {
        PutMembers(Normal(init), q);
        forall k, v
          ensures Qualifier(k, v) in Put(Normal(init), q) <==> k in Written(qs) && Written(qs)[k] == v
        {
          var x := Qualifier(k, v);
          assert x.key == k && x.value == v;
          assert q == Qualifier(q.key, q.value);
        }
      }
    }
  }

  // A normal list is determined by its members.
  lemma {:induction false} NormalIsUnique(a: seq<Qualifier>, b: seq<Qualifier>)
    requires KeysIncrease(a) && KeysIncrease(b) && forall q :: q in a <==> q in b
    ensures a == b
  {
    hide StringLess;
    StringOrder();
    assert (a != [] ==> a[0] in b) && (b != [] ==> b[0] in a);
    if a != [] && b != [] {
      HeadsAgree(a, b);
      TailMembers(a);
      TailMembers(b);
      hide KeysIncrease;
      NormalIsUnique(a[1..], b[1..]);
      assert a == [a[0]] + a[1..] && b == [b[0]] + b[1..];
    }
  }

  lemma HeadsAgree(a: seq<Qualifier>, b: seq<Qualifier>)
    requires a != [] && b != [] && KeysIncrease(a) && KeysIncrease(b) && forall q :: q in a <==> q in b
    ensures a[0] == b[0]
  {
    hide StringLess;
    StringOrder();
    assert a[0] in b && b[0] in a;
    var i :| 0 <= i < |b| && b[i] == a[0];
    var j :| 0 <= j < |a| && a[j] == b[0];
    assert i > 0 ==> StringLess(b[0].key, a[0].key);
    assert j > 0 ==> StringLess(a[0].key, b[0].key);
  }

  // Rendering twice changes nothing: a normal list is its own normal form.
  lemma {:induction false} NormalOfNormal(list: seq<Qualifier>)
    requires IsNormal(list)
    ensures Normal(list) == list
  {
    hide StringLess;
    if list != [] {
      var init, q := list[..|list| - 1], list[|list| - 1];
      NormalOfNormal(init);
      PutLast(init, q);
      assert list == init + [q];
    }
  }

  lemma {:induction false} PutLast(list: seq<Qualifier>, q: Qualifier)
    requires forall i :: 0 <= i < |list| ==> StringLess(list[i].key, q.key)
    ensures Put(list, q) == list + [q]
  {
    hide StringLess;
    StringOrder();
    if list != [] {
      assert StringLess(list[0].key, q.key);
      PutLast(list[1..], q);
      assert list == [list[0]] + list[1..];
    }
  }

  // ----- Rendering -----

  function Pair(q: Qualifier): string {
    q.key + "=" + Encoded(q.value, QualifierSpecial)
  }

  function Pairs(list: seq<Qualifier>): seq<string> {
    seq(|list|, i requires 0 <= i < |list| => Pair(list[i]))
  }

  function Rendered(qs: seq<Qualifier>): string {
    Text.Join(Pairs(Normal(qs)), '&')
  }

  ghost predicate ByteValues(qs: seq<Qualifier>) {
    forall i :: 0 <= i < |qs| ==> IsBytes(qs[i].value)
  }

  method WriteAll(qs: seq<Qualifier>) returns (byKey: map<string, string>)
    ensures byKey == Written(qs)
  {
    byKey := map[];
    for i := 0 to |qs|
      invariant byKey == Written(qs[..i])
    {
      assert qs[..i + 1][..i] == qs[..i];
      if qs[i].value == "" || !ValidKey(qs[i].key) {
        continue;
      }
      byKey := byKey[qs[i].key := qs[i].value];
    }
    assert qs[..|qs|] == qs;
  }

  // The keys of a map, sorted; the map is walked in an arbitrary order.
  method SortedKeys(m: map<string, string>) returns (keys: seq<string>)
    ensures Increasing(keys) && forall k :: k in keys <==> k in m
  {
    hide StringLess;
    keys := [];
    var rest := m.Keys;
    while rest != {}
      invariant rest <= m.Keys && NoDuplicates(keys)
      invariant forall k :: k in keys <==> k in m && k !in rest
      decreases rest
    {
      var k :| k in rest;
      keys := keys + [k];
      rest := rest - {k};
    }
    StringOrder();
    SortMembers(keys, StringLess);
    SortStrictlyIncreasing(keys, StringLess);
    keys := Sort(keys, StringLess);
  }

  // Sorted keys with their values are the normal form.
  lemma SortedIsNormal(qs: seq<Qualifier>, keys: seq<string>)
    requires Increasing(keys) && forall k :: k in keys <==> k in Written(qs)
    ensures Normal(qs) ==
            seq(|keys|, i requires 0 <= i < |keys| => var k := keys[i]; assert k in keys; Qualifier(k, Written(qs)[k]))
  {
    hide StringLess;
    var list := seq(|keys|,
                    i requires 0 <= i < |keys| => var k := keys[i]; assert k in keys; Qualifier(k, Written(qs)[k]));
    NormalIsNormal(qs);
    NormalHoldsWritten(qs);
    forall q
      ensures q in list <==> q in Normal(qs)
    {
      assert q == Qualifier(q.key, q.value);
      if q in Normal(qs) {
        var i :| 0 <= i < |keys| && keys[i] == q.key;
        assert list[i] == q;
      }
      if q in list {
        var i :| 0 <= i < |list| && list[i] == q;
        assert keys[i] in keys;
      }
    }
    NormalIsUnique(Normal(qs), list);
  }

  method RenderQualifiers(qs: seq<Qualifier>) returns (out: string)
    requires ByteValues(qs)
    ensures out == Rendered(qs)
  {
    hide StringLess, Normal, Written, Encoded, Text.Join, IsBytes;
    if |qs| == 0 {
      NothingRendered();
      return "";
    }
    var byKey := WriteAll(qs);
    var keys := SortedKeys(byKey);
    SortedIsNormal(qs, keys);
    ghost var list := Normal(qs);
    WrittenIsBytes(qs);
    out := "";
    NothingJoined('&');
    assert Pairs(list[..0]) == [];
    for i := 0 to |keys|
      invariant out == Text.Join(Pairs(list[..i]), '&')
    {
      var k := keys[i];
      assert k in keys;
      var value := EncodeQualifierValue(byKey[k]);
      assert Pairs(list[..i + 1]) == Pairs(list[..i]) + [Pair(list[i])];
      var pair := k + "=" + value;
      assert pair == Pair(list[i]);
      if i > 0 {
        Text.JoinAppends(Pairs(list[..i]), pair, '&');
        out := out + "&";
      } else {
        OneJoined(pair, '&');
        assert Pairs(list[..0]) + [pair] == [pair];
      }
      out := out + k + "=" + value;
      assert i > 0 ==> out == Text.Join(Pairs(list[..i]), '&') + "&" + pair;
    }
    assert list[..|keys|] == list;
  }

  lemma NothingJoined(c: char)
    ensures Text.Join([], c) == ""
  {
  }

  lemma OneJoined(part: string, c: char)
    ensures Text.Join([part], c) == part
  {
  }

  lemma NothingRendered()
    ensures Rendered([]) == ""
  {
  }

  lemma {:induction false} WrittenIsBytes(qs: seq<Qualifier>)
    requires ByteValues(qs)
    ensures forall k :: k in Written(qs) ==> IsBytes(Written(qs)[k])
  {
    if qs != [] {
      WrittenIsBytes(qs[..|qs| - 1]);
    }
  }

  // ----- Parsing -----

  // strings.ToLower, known only to leave a well-formed key alone.
  ghost predicate KeepsKeys(lower: string -> string) {
    forall k :: ValidKey(k) ==> lower(k) == k
  }

  // One "key=value" pair; None when it is malformed.
  function ParsedPair(pair: string, lower: string -> string): Option<Qualifier> {
    var i := Text.IndexOf(pair, '=');
    if i <= 0 then None
    else
      var q := Qualifier(lower(pair[..i]), Decoded(pair[i + 1..]));
      if Kept(q) then Some(q) else None
  }

  function ParsedPairs(pairs: seq<string>, lower: string -> string): seq<Qualifier> {
    if pairs == [] then []
    else
      var rest := ParsedPairs(pairs[..|pairs| - 1], lower);
      var q := ParsedPair(pairs[|pairs| - 1], lower);
      if q.Some? then rest + [q.value] else rest
  }

  function ParsedQualifiers(s: string, lower: string -> string): seq<Qualifier> {
    if s == "" then [] else ParsedPairs(Text.Split(s, '&'), lower)
  }

  method ParseQualifiers(s: string, lower: string -> string) returns (out: seq<Qualifier>)
    ensures out == ParsedQualifiers(s, lower)
  {
    hide Decoded;
    if s == "" {
      return [];
    }
    var pairs := Text.Split(s, '&');
    out := [];
    for j := 0 to |pairs|
      invariant out == ParsedPairs(pairs[..j], lower)
    {
      assert pairs[..j + 1][..j] == pairs[..j];
      var pair := pairs[j];
      var i := Text.IndexOf(pair, '=');
      if i <= 0 {
        continue;
      }
      var key := lower(pair[..i]);
      var val := DecodeSegment(pair[i + 1..]);
      if val == "" || !ValidKey(key) {
        continue;
      }
      out := out + [Qualifier(key, val)];
    }
    assert pairs[..|pairs|] == pairs;
  }

  lemma PairParses(q: Qualifier, lower: string -> string)
    requires KeepsKeys(lower) && Kept(q) && IsBytes(q.value)
    ensures ParsedPair(Pair(q), lower) == Some(q)
  {
    var v := Encoded(q.value, QualifierSpecial);
    assert '=' !in q.key;
    DecodedEncoded(q.value, QualifierSpecial);
    hide Decoded, Encoded;
    Text.FirstIndex(q.key, '=', v);
    assert Pair(q)[..|q.key|] == q.key && Pair(q)[|q.key| + 1..] == v;
  }

  lemma {:induction false} PairsParse(list: seq<Qualifier>, lower: string -> string)
    requires KeepsKeys(lower) && ByteValues(list) && forall i :: 0 <= i < |list| ==> Kept(list[i])
    ensures ParsedPairs(Pairs(list), lower) == list
  {
    hide ParsedPair, Pair, Kept;
    if list != [] {
      var init, q := list[..|list| - 1], list[|list| - 1];
      PairsParse(init, lower);
      PairParses(q, lower);
      assert Pairs(list)[..|list| - 1] == Pairs(init);
      assert list == init + [q];
    }
  }

  // A pair holds no "&" and no character that ends the qualifier section.
  lemma PairIsPlain(q: Qualifier)
    requires Kept(q)
    ensures '&' !in Pair(q) && '#' !in Pair(q) && Pair(q) != ""
  {
    EncodedIsPlain(q.value, QualifierSpecial);
    hide Encoded;
    assert '&' !in q.key && '#' !in q.key;
  }

  // What is rendered parses back to the normal form.
  lemma QualifiersRoundTrip(qs: seq<Qualifier>, lower: string -> string)
    requires KeepsKeys(lower) && ByteValues(qs)
    ensures ParsedQualifiers(Rendered(qs), lower) == Normal(qs)
    ensures '#' !in Rendered(qs)
    ensures Rendered(qs) == "" <==> Normal(qs) == []
  {
    var list := Normal(qs);
    NormalIsNormal(qs);
    NormalIsBytes(qs);
    hide Normal, IsBytes, KeysIncrease, Pair, ParsedPairs, KeepsKeys;
    forall i | 0 <= i < |list|
      ensures '&' !in Pairs(list)[i] && '#' !in Pairs(list)[i] && Pairs(list)[i] != ""
    {
      PairIsPlain(list[i]);
    }
    Text.JoinHolds(Pairs(list), '&', '#');
    PairsParse(list, lower);
    if list != [] {
      assert Pairs(list)[0] != "";
      Text.SplitJoin(Pairs(list), '&');
    }
  }

  lemma NormalIsBytes(qs: seq<Qualifier>)
    requires ByteValues(qs)
    ensures ByteValues(Normal(qs))
  {
    hide IsBytes;
    WrittenIsBytes(qs);
    NormalHoldsWritten(qs);
    hide Normal, Written;
    forall i | 0 <= i < |Normal(qs)|
      ensures IsBytes(Normal(qs)[i].value)
    {
      var q := Normal(qs)[i];
      assert q == Qualifier(q.key, q.value);
      assert q in Normal(qs);
    }
  }
}
