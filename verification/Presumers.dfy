// What is presumed in each ecosystem, told in the answers and the order of its versions.
module Presumers {
  import opened Prelude
  import opened Sorting
  import opened Presume
  import opened Installers
  import Pep440
  import Nuget
  import Semver

  // Reading the constraints in order stops at the i-th, which cannot be evaluated.
  ghost predicate StopsAt(pr: Presumer, constraints: seq<string>, v: string, i: nat) {
    && i < |constraints| && !pr.satisfies(constraints[i], v).1
    && forall j :: 0 <= j < i ==> pr.satisfies(constraints[j], v) == (true, true)
  }

  lemma {:induction false} UnevaluableExactly(pr: Presumer, constraints: seq<string>, v: string)
    ensures Judge(pr, constraints, v) == Unevaluable <==> exists i: nat :: StopsAt(pr, constraints, v, i)
  {
    if constraints != [] {
      if pr.satisfies(constraints[0], v) == (true, true) {
        UnevaluableExactly(pr, constraints[1..], v);
        if i: nat :| StopsAt(pr, constraints[1..], v, i) {
          assert StopsAt(pr, constraints, v, i + 1) by {
            forall j | 0 <= j < i + 1
              ensures pr.satisfies(constraints[j], v) == (true, true)
            {
              assert j > 0 ==> constraints[j] == constraints[1..][j - 1];
            }
          }
        }
        if i: nat :| StopsAt(pr, constraints, v, i) {
          assert i > 0 && StopsAt(pr, constraints[1..], v, i - 1);
        }
      } else if !pr.satisfies(constraints[0], v).1 {
        assert StopsAt(pr, constraints, v, 0);
      }
    }
  }

  // Nothing is said of a package of which nothing is published; it is contested exactly when reading stops
  // somewhere or no published version meets all constraints; else the version chosen meets them all, and
  // none that does lies further in the installer's direction.
  lemma PresumedExactly(pr: Presumer, published: seq<string>, constraints: seq<string>, r: Presumption)
    requires TotalPreorder(pr.compare) && IsPresumption(pr, published, constraints, r)
    ensures r == NameOnly <==> published == []
    ensures r == Contested <==>
              && published != []
              && ((exists u, i: nat :: u in published && StopsAt(pr, constraints, u, i))
                  || forall u :: u in published ==> !MeetsAll(pr, constraints, u))
    ensures r.Chosen? ==>
              && r.version in published && MeetsAll(pr, constraints, r.version)
              && forall u :: u in published && MeetsAll(pr, constraints, u) ==>
                   if pr.lowest then pr.compare(r.version, u) <= 0 else pr.compare(r.version, u) >= 0
  {
    forall u
      ensures Judge(pr, constraints, u) == Unevaluable <==> exists i: nat :: StopsAt(pr, constraints, u, i)
      ensures Judge(pr, constraints, u) == Fits <==> MeetsAll(pr, constraints, u)
    {
      UnevaluableExactly(pr, constraints, u);
      FittingMeetsAll(pr, constraints, u);
    }
    FittingMembers(pr, constraints, published);
    assert Fitting(pr, constraints, published) == [] <==> forall u :: u in published ==>
           !MeetsAll(pr, constraints, u) by {
      if Fitting(pr, constraints, published) != [] {
        assert Fitting(pr, constraints, published)[0] in Fitting(pr, constraints, published);
      }
    }
    hide StopsAt, Judge, Fitting, MeetsAll;
  }

  // ----- Python -----

  ghost predicate PypiAdmits(parse: string -> Pep440.Version, spec: string -> Option<seq<Pep440.Clause>>,
                             constraints: seq<string>, u: string) {
    forall c :: c in constraints ==> Pep440.Answered(spec(c), parse(u)) == Yes
  }

  // PyPI: the highest admitted version, and one that cannot be parsed only where none can.
  lemma PypiPresumesHighest(parse: string -> Pep440.Version, spec: string -> Option<seq<Pep440.Clause>>,
                            published: seq<string>, constraints: seq<string>, v: string, n: nat, u: string)
    requires IsPresumption(Pypi(parse, spec), published, constraints, Chosen(v, n))
    ensures v in published && PypiAdmits(parse, spec, constraints, v)
    ensures u in published && PypiAdmits(parse, spec, constraints, u) && parse(u).valid ==>
              parse(v).valid && Pep440.Compare(parse(v), parse(u)) >= 0
    ensures u in published && constraints != [] ==> Pep440.Answered(spec(constraints[0]), parse(u)) != Unreadable
  {
    PypiIsPreordered(parse, spec);
    hide Pep440.Compare, Pep440.Answered;
    var pr := Pypi(parse, spec);
    PresumedExactly(pr, published, constraints, Chosen(v, n));
    assert forall w :: MeetsAll(pr, constraints, w) <==> PypiAdmits(parse, spec, constraints, w);
    if u in published && constraints != [] {
      assert !StopsAt(pr, constraints, u, 0);
    }
  }

  // ----- NuGet -----

  ghost predicate NugetAdmits(f: Nuget.Folding, rd: Nuget.Reader, constraints: seq<string>, u: string) {
    forall c :: c in constraints && c != "" ==> Nuget.Satisfies(f, rd, c, u) == Yes
  }

  // NuGet: the lowest admitted version, and one that cannot be parsed below all others.
  lemma NugetPresumesLowest(f: Nuget.Folding, rd: Nuget.Reader, published: seq<string>, constraints: seq<string>,
                            v: string, n: nat, u: string)
    requires IsPresumption(NuGet(f, rd), published, constraints, Chosen(v, n))
    ensures v in published && NugetAdmits(f, rd, constraints, v)
    ensures u in published && NugetAdmits(f, rd, constraints, u) && rd.parse(v).valid ==>
              rd.parse(u).valid && Nuget.Compared(f, rd.parse(v), rd.parse(u)) <= 0
  {
    NuGetIsPreordered(f, rd);
    hide Nuget.Compared, Nuget.Satisfies;
    var pr := NuGet(f, rd);
    PresumedExactly(pr, published, constraints, Chosen(v, n));
    assert forall w :: MeetsAll(pr, constraints, w) <==> NugetAdmits(f, rd, constraints, w);
  }

  // ----- The semver ecosystems -----

  ghost predicate SemverAdmits(parse: string -> Semver.Version, grammar: (string, Semver.Version) -> Answer,
                               constraints: seq<string>, u: string) {
    forall c :: c in constraints ==> parse(u).valid && grammar(c, parse(u)) == Yes
  }

  // The furthest admitted version in the direction asked for.
  lemma SemverPresumes(parse: string -> Semver.Version, grammar: (string, Semver.Version) -> Answer, lowest: bool,
                       published: seq<string>, constraints: seq<string>, v: string, n: nat, u: string)
    requires IsPresumption(SemverBased(parse, grammar, lowest), published, constraints, Chosen(v, n))
    ensures v in published && SemverAdmits(parse, grammar, constraints, v)
    ensures u in published && SemverAdmits(parse, grammar, constraints, u) ==>
              if lowest then Semver.Compare(parse(v), parse(u)) <= 0 else Semver.Compare(parse(v), parse(u)) >= 0
  {
    SemverIsPreordered(parse, grammar, lowest);
    hide Semver.Compare;
    var pr := SemverBased(parse, grammar, lowest);
    PresumedExactly(pr, published, constraints, Chosen(v, n));
    assert forall w :: MeetsAll(pr, constraints, w) <==> SemverAdmits(parse, grammar, constraints, w);
  }
}
