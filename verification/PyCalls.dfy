// Which calls count as display calls, in the texts that open them, and what that does to a script.
module PyCalls {
  import opened PyScan
  import opened PyStrip
  import opened PyDisplay

  // text stands in s at i, and the name it begins with does not go on before it.
  predicate StandsFree(s: string, i: nat, text: string) {
    && i + |text| <= |s| && s[i..i + |text|] == text
    && (i > 0 ==> !('a' <= s[i - 1] <= 'z' || 'A' <= s[i - 1] <= 'Z' || '0' <= s[i - 1] <= '9' || s[i - 1] in "_."))
  }

  lemma OpensByText(s: string, i: nat, op: string)
    requires i <= |s|
    ensures OpensAt(s, i, op) && Freestanding(s, i) <==> StandsFree(s, i, op)
  {
    if i + |op| <= |s| {
      assert s[i..][..|op|] == s[i..i + |op|];
    }
  }

  // A display call begins exactly where one of these five stands free.
  lemma OpenersInText(s: string, i: nat, n: nat)
    requires i <= |s| && IsOpenerAt(s, i, n)
    ensures StandsFree(s, i, "print(") ==> n == 6
    ensures StandsFree(s, i, "sys.exit(") ==> n == 9
    ensures StandsFree(s, i, "sys.stderr.write(") ==> n == 17
    ensures StandsFree(s, i, "sys.stdout.write(") ==> n == 17
    ensures StandsFree(s, i, "warnings.warn(") ==> n == 14
    ensures n > 0 ==>
              || StandsFree(s, i, "print(") || StandsFree(s, i, "sys.exit(") || StandsFree(s, i, "sys.stderr.write(")
              || StandsFree(s, i, "sys.stdout.write(") || StandsFree(s, i, "warnings.warn(")
  {
    ListedOpeners();
    forall k | 0 <= k < |OPENERS|
      ensures StandsFree(s, i, OPENERS[k]) ==> n == |OPENERS[k]|
    {
      OpensByText(s, i, OPENERS[k]);
      OpenerHere(s, i, n, k);
    }
    if n > 0 {
      var k :| 0 <= k < |OPENERS| && OpensAt(s, i, OPENERS[k]) && n == |OPENERS[k]|;
      OpensByText(s, i, OPENERS[k]);
    }
    FiveLengths();
    FiveOpeners();
    hide StandsFree, OpensAt, Freestanding, OPENERS;
  }

  lemma FiveLengths()
    ensures |"print("| == 6 && |"sys.exit("| == 9 && |"sys.stderr.write("| == 17 && |"sys.stdout.write("| == 17
    ensures |"warnings.warn("| == 14
  {
  }

  lemma FiveOpeners()
    ensures OPENERS[0] == "print(" && OPENERS[1] == "sys.exit(" && OPENERS[2] == "sys.stderr.write("
    ensures OPENERS[3] == "sys.stdout.write(" && OPENERS[4] == "warnings.warn(" && |OPENERS| == 5
  {
  }

  lemma OpenerHere(s: string, i: nat, n: nat, k: nat)
    requires i <= |s| && IsOpenerAt(s, i, n) && k < |OPENERS|
    ensures OpensAt(s, i, OPENERS[k]) && Freestanding(s, i) ==> n == |OPENERS[k]|
  {
    OpenersDiffer(s, i);
    hide OpensAt, Freestanding, OPENERS;
  }

  lemma ListedOpeners()
    ensures OPENERS == ["print(", "sys.exit(", "sys.stderr.write(", "sys.stdout.write(", "warnings.warn("]
  {
  }

  // No two of them stand at one place.
  lemma OpenersDiffer(s: string, i: nat)
    requires i <= |s|
    ensures forall j, k :: 0 <= j < k < |OPENERS| ==> !(OpensAt(s, i, OPENERS[j]) && OpensAt(s, i, OPENERS[k]))
  {
    forall j, k | 0 <= j < k < |OPENERS|
      ensures !(OpensAt(s, i, OPENERS[j]) && OpensAt(s, i, OPENERS[k]))
    {
      var p := if j == 0 || k == 4 then 0 else if j == 1 then 4 else 7;
      assert p < |OPENERS[j]| && p < |OPENERS[k]| && OPENERS[j][p] != OPENERS[k][p];
      OpensWith(s, i, OPENERS[j], p);
      OpensWith(s, i, OPENERS[k], p);
    }
  }

  lemma OpensWith(s: string, i: nat, op: string, p: nat)
    requires i <= |s| && p < |op|
    ensures OpensAt(s, i, op) ==> i + p < |s| && s[i + p] == op[p]
  {
    if OpensAt(s, i, op) {
      assert s[i..][p] == op[p];
    }
  }

  // ----- In a script -----

  // A script in which none of the five stands free comes through unchanged, whatever else it calls.
  lemma OtherCallsAreKept(src: string, out: string)
    requires IsMuted(src, out)
    requires forall i: nat :: i < |src| ==>
               && !StandsFree(src, i, "print(") && !StandsFree(src, i, "sys.exit(")
               && !StandsFree(src, i, "sys.stderr.write(") && !StandsFree(src, i, "sys.stdout.write(")
               && !StandsFree(src, i, "warnings.warn(")
    ensures out == src
  {
    hide IsMuted, StandsFree;
    forall i: nat | i < |src|
      ensures IsOpenerAt(src, i, 0)
    {
      var n := OpenerLength(src, i);
      OpenersInText(src, i, n);
    }
    hide IsOpenerAt;
    NoCallNoChange(src, out);
  }

  lemma OpenerLength(s: string, i: nat) returns (n: nat)
    requires i <= |s|
    ensures IsOpenerAt(s, i, n)
  {
    if k :| 0 <= k < |OPENERS| && OpensAt(s, i, OPENERS[k]) && Freestanding(s, i) {
      OpenersDiffer(s, i);
      hide OpensAt, Freestanding, OPENERS;
      n := |OPENERS[k]|;
      forall j | 0 <= j < k
        ensures !OpensAt(s, i, OPENERS[j])
      {
      }
    } else {
      n := 0;
    }
  }

  // The segment is one of the five calls, where its name stands free.
  ghost predicate IsDisplayCall(src: string, segs: seq<Segment>, j: nat)
    requires j < |segs|
  {
    && segs[j].Opener?
    && segs[j].text in {"print(", "sys.exit(", "sys.stderr.write(", "sys.stdout.write(", "warnings.warn("}
    && StandsFree(src, |Flat(segs[..j])|, segs[j].text)
  }

  lemma OpenerIsCall(src: string, segs: seq<Segment>, j: nat)
    requires DisplayCut(src, segs) && j < |segs| && segs[j].Opener?
    ensures IsDisplayCall(src, segs, j)
  {
    DisplayCutAt(src, segs, j);
    var o, t := |Flat(segs[..j])|, segs[j].text;
    assert IsOpenerAt(src, o, |t|) && t == src[o..o + |t|] && |t| > 0;
    OpenersInText(src, o, |t|);
    hide DisplayNext, DisplayCut, Flat, IsOpenerAt;
  }

  // Every emptied literal stands in the parentheses of one of the five calls: it began earlier, and its
  // parentheses have not closed since.
  lemma EmptiedInsideCall(src: string, segs: seq<Segment>, k: nat)
    requires DisplayCut(src, segs) && k < |segs| && segs[k].Blanked?
    ensures exists j: nat :: j < k && IsDisplayCall(src, segs, j) && forall m :: j < m <= k ==> Depth(segs[..m]) > 0
  {
    DisplayCutAt(src, segs, k);
    hide DisplayNext, IsDisplayCall, Depth;
    var j := LastOpened(src, segs, k);
    OpenerIsCall(src, segs, j);
  }

  lemma {:induction false} LastOpened(src: string, segs: seq<Segment>, k: nat) returns (j: nat)
    requires k <= |segs| && Depth(segs[..k]) > 0
    ensures j < k && segs[j].Opener? && forall m :: j < m <= k ==> Depth(segs[..m]) > 0
    decreases k
  {
    assert segs[..k][..k - 1] == segs[..k - 1] && segs[..k][k - 1] == segs[k - 1];
    if segs[k - 1].Opener? {
      j := k - 1;
    } else {
      j := LastOpened(src, segs, k - 1);
    }
  }

  // And each of the five opens a call wherever it stands free outside the parentheses of another.
  lemma FreeCallOpens(src: string, segs: seq<Segment>, k: nat, text: string)
    requires DisplayCut(src, segs) && k < |segs| && Depth(segs[..k]) == 0
    requires text in {"print(", "sys.exit(", "sys.stderr.write(", "sys.stdout.write(", "warnings.warn("}
    requires StandsFree(src, |Flat(segs[..k])|, text)
    ensures segs[k] == Opener(text)
  {
    DisplayCutAt(src, segs, k);
    var o := |Flat(segs[..k])|;
    NoLiteralHere(src, o, text);
    var n := OpenerLength(src, o);
    OpenersInText(src, o, n);
    FiveLengths();
    assert n == |text| > 0;
    if segs[k].Opener? {
      OpenerIsUnique(src, o, |segs[k].text|, n);
    }
    if segs[k].Plain? {
      OpenerIsUnique(src, o, 0, n);
    }
    hide Depth, Flat, LiteralAt, IsOpenerAt;
  }

  lemma NoLiteralHere(src: string, o: nat, text: string)
    requires text in {"print(", "sys.exit(", "sys.stderr.write(", "sys.stdout.write(", "warnings.warn("}
    requires StandsFree(src, o, text)
    ensures !LiteralAt(src, o)
  {
    assert src[o] == src[o..o + |text|][0] == text[0];
    assert !IsPrefixLetter(src[o]) && !IsQuote(src[o]);
  }

  // A literal's prefix says it is formatted.
  lemma FormattedInText(prefix: string)
    ensures HasF(prefix) <==> 'f' in prefix || 'F' in prefix
  {
  }
}
