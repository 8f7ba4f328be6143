// Choosing a version from accumulated constraints: a filter and a sort, never a search.
module Presume {
  import opened Prelude
  import opened Sorting

  // Per-ecosystem version semantics.  satisfies answers (met, evaluable); compare orders versions by
  // the sign of its answer; lowest says the installer takes the lowest satisfying version.
  datatype Presumer = Presumer(
    satisfies: (string, string) -> (bool, bool),
    compare: (string, string) -> int,
    lowest: bool)

  // NameOnly: nothing to choose from.  Contested: the constraints admit nothing, or cannot be read.
  datatype Presumption = NameOnly | Contested | Chosen(version: string, candidates: nat)

  datatype Judgement = Fits | Rejected | Unevaluable

  // Constraints are read in order and reading stops at the first that is not met, so a constraint
  // that cannot be evaluated counts only when every earlier one is met.
  function Judge(pr: Presumer, constraints: seq<string>, v: string): Judgement {
    if constraints == [] then Fits
    else
      var (met, evaluable) := pr.satisfies(constraints[0], v);
      if !evaluable then Unevaluable else if !met then Rejected else Judge(pr, constraints[1..], v)
  }

  lemma {:induction false} FittingMeetsAll(pr: Presumer, constraints: seq<string>, v: string)
    ensures Judge(pr, constraints, v) == Fits <==> forall c :: c in constraints ==> pr.satisfies(c, v) == (true, true)
  {
    if constraints != [] {
      FittingMeetsAll(pr, constraints[1..], v);
      assert constraints == [constraints[0]] + constraints[1..];
    }
  }

  function Fitting(pr: Presumer, constraints: seq<string>, published: seq<string>): seq<string> {
    if published == [] then []
    else
      var rest := Fitting(pr, constraints, published[..|published| - 1]);
      var v := published[|published| - 1];
      if Judge(pr, constraints, v) == Fits then rest + [v] else rest
  }

  lemma {:induction false} FittingMembers(pr: Presumer, constraints: seq<string>, published: seq<string>)
    ensures forall v :: v in Fitting(pr, constraints, published) <==>
              v in published && Judge(pr, constraints, v) == Fits
  {
    if published != [] {
      FittingMembers(pr, constraints, published[..|published| - 1]);
      assert published == published[..|published| - 1] + [published[|published| - 1]];
    }
  }

  // v is at least as far in the installer's direction as u.
  predicate AtLeastAsGood(pr: Presumer, v: string, u: string) {
    if pr.lowest then pr.compare(v, u) <= 0 else pr.compare(v, u) >= 0
  }

  // What a presumption must say of the published versions.
  ghost predicate IsPresumption(pr: Presumer, published: seq<string>, constraints: seq<string>, r: Presumption) {
    match r
    case NameOnly => published == []
    case Contested =>
      published != [] &&
      ((exists v :: v in published && Judge(pr, constraints, v) == Unevaluable) ||
          Fitting(pr, constraints, published) == [])
    case Chosen(v, n) =>
      && (forall u :: u in published ==> Judge(pr, constraints, u) != Unevaluable)
      && v in published && Judge(pr, constraints, v) == Fits
      && (TotalPreorder(pr.compare) ==>
            forall u :: u in published && Judge(pr, constraints, u) == Fits ==> AtLeastAsGood(pr, v, u))
      && n == |Fitting(pr, constraints, published)|
  }

  predicate Better(pr: Presumer, v: string, u: string) {
    if pr.lowest then pr.compare(v, u) < 0 else pr.compare(v, u) > 0
  }

  lemma {:induction false} SortedHeadIsBest(pr: Presumer, s: seq<string>, less: (string, string) -> bool)
    requires TotalPreorder(pr.compare) && s != []
    requires forall v, u :: less(v, u) == Better(pr, v, u)
    ensures Sort(s, less) != []
    ensures forall u :: u in s ==> AtLeastAsGood(pr, Sort(s, less)[0], u)
  {
    assert s == [s[0]] + s[1..];
    assert AtLeastAsGood(pr, s[0], s[0]);
    if s[1..] != [] {
      SortedHeadIsBest(pr, s[1..], less);
    }
  }

  method Choose(pr: Presumer, published: seq<string>, constraints: seq<string>) returns (r: Presumption)
    ensures IsPresumption(pr, published, constraints, r)
  {
    if published == [] {
      return NameOnly;
    }
    var ok: seq<string> := [];
    for i := 0 to |published|
      invariant ok == Fitting(pr, constraints, published[..i])
      invariant forall j :: 0 <= j < i ==> Judge(pr, constraints, published[j]) != Unevaluable
    {
      var v := published[i];
      assert published[..i + 1][..i] == published[..i];
      var fits := true;
      for j := 0 to |constraints|
        invariant fits && Judge(pr, constraints, v) == Judge(pr, constraints[j..], v)
      {
        var (met, evaluable) := pr.satisfies(constraints[j], v);
        assert constraints[j..][1..] == constraints[j + 1..];
        if !evaluable {
          return Contested;
        }
        if !met {
          fits := false;
          break;
        }
      }
      assert fits ==> constraints[|constraints|..] == [];
      if fits {
        ok := ok + [v];
      }
    }
    assert published[..|published|] == published;
    if ok == [] {
      return Contested;
    }
    FittingMembers(pr, constraints, published);
    var less := (v, u) => Better(pr, v, u);
    SortMembers(ok, less);
    var sorted := Sort(ok, less);
    if TotalPreorder(pr.compare) {
      SortedHeadIsBest(pr, ok, less);
    }
    assert sorted[0] in sorted;
    return Chosen(sorted[0], |ok|);
  }
}
