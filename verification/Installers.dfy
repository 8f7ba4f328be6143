// The presumers the ecosystems bring: their orders and direction, and what the walk presumes with them.
module Installers {
  import opened Prelude
  import opened Sorting
  import opened Orders
  import opened Presume
  import Pep440
  import Nuget
  import Semver

  // A constraint's answer in the walk's terms: met, and whether it could be evaluated.
  function Judged(a: Answer): (bool, bool) {
    (a == Yes, a != Unreadable)
  }

  // Unparseable tags below everything.
  function InvalidFirst(aValid: bool, bValid: bool, cmp: int): int {
    if !aValid && !bValid then 0 else if !aValid then -1 else if !bValid then 1 else cmp
  }

  // PyPI takes the highest version; an unparseable tag sorts lowest.
  function PypiCompare(parse: string -> Pep440.Version, a: string, b: string): int {
    InvalidFirst(parse(a).valid, parse(b).valid, Pep440.Compare(parse(a), parse(b)))
  }

  function Pypi(parse: string -> Pep440.Version, spec: string -> Option<seq<Pep440.Clause>>): Presumer {
    Presumer((c, v) => Judged(Pep440.Answered(spec(c), parse(v))), (a, b) => PypiCompare(parse, a, b), false)
  }

  // NuGet takes the lowest version; an unparseable tag sorts lowest too.  An empty constraint admits
  // any version.
  function NugetCompare(f: Nuget.Folding, parse: string -> Nuget.Version, a: string, b: string): int {
    InvalidFirst(parse(a).valid, parse(b).valid, Nuget.Compared(f, parse(a), parse(b)))
  }

  function NuGet(f: Nuget.Folding, rd: Nuget.Reader): Presumer {
    Presumer((c, v) => if c == "" then (true, true) else Judged(Nuget.Satisfies(f, rd, c, v)),
             (a, b) => NugetCompare(f, rd.parse, a, b), true)
  }

  // The semver ecosystems compare parsed versions, unparseable tags last; grammar stands for the
  // grammar of npm, Cargo, RubyGems, Composer or Go, each asked about parsed versions only.
  function SemverCompare(parse: string -> Semver.Version, a: string, b: string): int {
    Semver.Compare(parse(a), parse(b))
  }

  function SemverBased(parse: string -> Semver.Version, grammar: (string, Semver.Version) -> Answer,
                       lowest: bool): Presumer {
    Presumer((c, v) => if parse(v).valid then Judged(grammar(c, parse(v)))
        else (false, false), (a, b) => SemverCompare(parse, a, b), lowest)
  }

  // ----- The orders are total preorders, so the sorted head is extremal -----

  lemma InvalidFirstIsPreordered<V(!new)>(valid: string -> bool, parse: string -> V, on: (V, V) -> int,
                                          cmp: (string, string) -> int)
    requires TotalPreorder(on)
    requires forall a, b :: cmp(a, b) == InvalidFirst(valid(a), valid(b), on(parse(a), parse(b)))
    ensures TotalPreorder(cmp)
  {
    forall a, b
      ensures cmp(a, b) < 0 <==> cmp(b, a) > 0
    {
      assert cmp(a, b) == InvalidFirst(valid(a), valid(b), on(parse(a), parse(b)));
      assert cmp(b, a) == InvalidFirst(valid(b), valid(a), on(parse(b), parse(a)));
    }
    forall a, b, c | cmp(a, b) <= 0 && cmp(b, c) <= 0
      ensures cmp(a, c) <= 0
    {
      assert cmp(a, b) == InvalidFirst(valid(a), valid(b), on(parse(a), parse(b)));
      assert cmp(b, c) == InvalidFirst(valid(b), valid(c), on(parse(b), parse(c)));
      assert cmp(a, c) == InvalidFirst(valid(a), valid(c), on(parse(a), parse(c)));
    }
  }

  lemma PypiIsPreordered(parse: string -> Pep440.Version, spec: string -> Option<seq<Pep440.Clause>>)
    ensures TotalPreorder(Pypi(parse, spec).compare)
  {
    Pep440.CompareIsTotalPreorder();
    hide Pep440.Compare;
    InvalidFirstIsPreordered((a: string) => parse(a).valid, parse, Pep440.Compare, Pypi(parse, spec).compare);
  }

  lemma NuGetIsPreordered(f: Nuget.Folding, rd: Nuget.Reader)
    ensures TotalPreorder(NuGet(f, rd).compare)
  {
    hide Nuget.Compared, Nuget.Satisfies;
    var on := (a, b) => Nuget.Compared(f, a, b);
    Nuget.CompareIsTotalPreorder(f, on);
    InvalidFirstIsPreordered((a: string) => rd.parse(a).valid, rd.parse, on, NuGet(f, rd).compare);
  }

  lemma SemverIsPreordered(parse: string -> Semver.Version, grammar: (string, Semver.Version) -> Answer, lowest: bool)
    ensures TotalPreorder(SemverBased(parse, grammar, lowest).compare)
  {
    Semver.CompareIsTotalPreorder();
    hide Semver.Compare;
    KeyedIsPreordered(SemverBased(parse, grammar, lowest).compare, parse, Semver.Compare);
  }

  // Every constraint is read and met by u.
  ghost predicate MeetsAll(pr: Presumer, constraints: seq<string>, u: string) {
    forall c :: c in constraints ==> pr.satisfies(c, u) == (true, true)
  }

  // What the walk presumes, whichever of these presumers it uses: a published version that meets every
  // constraint, and none that does lies further in the installer's direction.
  lemma PresumedIsExtremal(pr: Presumer, published: seq<string>, constraints: seq<string>, v: string, n: nat, u: string)
    requires TotalPreorder(pr.compare) && IsPresumption(pr, published, constraints, Chosen(v, n))
    ensures v in published && MeetsAll(pr, constraints, v)
    ensures u in published && MeetsAll(pr, constraints, u) ==> AtLeastAsGood(pr, v, u)
    ensures n == |Fitting(pr, constraints, published)| && n > 0
  {
    FittingMeetsAll(pr, constraints, v);
    FittingMeetsAll(pr, constraints, u);
    FittingMembers(pr, constraints, published);
    assert v in Fitting(pr, constraints, published);
  }

  // ----- Unparseable tags -----

  // One tag the grammar cannot read makes every constrained package contested.
  lemma UnreadableTagContests(pr: Presumer, published: seq<string>, constraints: seq<string>, u: string, r: Presumption)
    requires IsPresumption(pr, published, constraints, r)
    requires u in published && constraints != [] && !pr.satisfies(constraints[0], u).1
    ensures r == Contested
  {
    assert Judge(pr, constraints, u) == Unevaluable;
  }

  // So a constrained package with an unparseable tag is contested, in the semver ecosystems and PyPI.
  lemma UnparseableTagContests(parse: string -> Semver.Version, grammar: (string, Semver.Version) -> Answer,
                               lowest: bool,
                               published: seq<string>, constraints: seq<string>, u: string, r: Presumption)
    requires IsPresumption(SemverBased(parse, grammar, lowest), published, constraints, r)
    requires u in published && constraints != [] && !parse(u).valid
    ensures r == Contested
  {
    UnreadableTagContests(SemverBased(parse, grammar, lowest), published, constraints, u, r);
  }

  lemma UnparseablePypiTagContests(parse: string -> Pep440.Version, spec: string -> Option<seq<Pep440.Clause>>,
                                   published: seq<string>, constraints: seq<string>, u: string, r: Presumption)
    requires IsPresumption(Pypi(parse, spec), published, constraints, r)
    requires u in published && constraints != [] && !parse(u).valid
    ensures r == Contested
  {
    hide Pep440.FirstUnmet;
    UnreadableTagContests(Pypi(parse, spec), published, constraints, u, r);
  }

  // NuGet lets empty constraints through, so there one has to say something.
  lemma UnparseableNugetTagContests(f: Nuget.Folding, rd: Nuget.Reader, published: seq<string>,
                                    constraints: seq<string>, u: string, r: Presumption)
    requires IsPresumption(NuGet(f, rd), published, constraints, r)
    requires u in published && (exists c :: c in constraints && c != "") && !rd.parse(u).valid
    ensures r == Contested
  {
    UnreadNugetIsUnevaluable(f, rd, constraints, u);
  }

  lemma {:induction false} UnreadNugetIsUnevaluable(f: Nuget.Folding, rd: Nuget.Reader, constraints: seq<string>,
                                                    u: string)
    requires (exists c :: c in constraints && c != "") && !rd.parse(u).valid
    ensures Judge(NuGet(f, rd), constraints, u) == Unevaluable
  {
    if constraints[0] == "" {
      assert constraints == [constraints[0]] + constraints[1..];
      UnreadNugetIsUnevaluable(f, rd, constraints[1..], u);
    }
  }

  // Some published tag does not parse.
  ghost predicate Stray(valid: string -> bool, published: seq<string>) {
    exists u :: u in published && !valid(u)
  }

  // A semver ecosystem that takes the highest version presumes an unparseable tag exactly when nothing
  // constrains the package and one is published.
  lemma UnparseableTagWinsHighest(parse: string -> Semver.Version, grammar: (string, Semver.Version) -> Answer,
                                  published: seq<string>, constraints: seq<string>, v: string, n: nat)
    requires IsPresumption(SemverBased(parse, grammar, false), published, constraints, Chosen(v, n))
    ensures !parse(v).valid <==> constraints == [] && Stray(u => parse(u).valid, published)
  {
    SemverIsPreordered(parse, grammar, false);
    hide Semver.Compare;
    var pr := SemverBased(parse, grammar, false);
    PresumedIsExtremal(pr, published, constraints, v, n, v);
    if constraints != [] {
      assert pr.satisfies(constraints[0], v) == (true, true);
    } else if u :| u in published && !parse(u).valid {
      PresumedIsExtremal(pr, published, [], v, n, u);
      InvalidIsLast(parse(v), parse(u));
    }
  }

  lemma InvalidIsLast(v: Semver.Version, u: Semver.Version)
    requires !u.valid && Semver.Compare(v, u) >= 0
    ensures !v.valid
  {
  }

  // NuGet, which takes the lowest and sorts unparseable tags below everything, presumes one exactly when
  // one is published and all constraints are empty texts.
  lemma UnparseableTagWinsLowest(f: Nuget.Folding, rd: Nuget.Reader, published: seq<string>,
                                 constraints: seq<string>, v: string, n: nat)
    requires IsPresumption(NuGet(f, rd), published, constraints, Chosen(v, n))
    ensures !rd.parse(v).valid <==>
            (forall c :: c in constraints ==> c == "") && Stray(u => rd.parse(u).valid, published)
  {
    NuGetIsPreordered(f, rd);
    hide Nuget.Compared;
    var pr := NuGet(f, rd);
    PresumedIsExtremal(pr, published, constraints, v, n, v);
    if c :| c in constraints && c != "" {
      assert pr.satisfies(c, v) == (true, true);
    } else if u :| u in published && !rd.parse(u).valid {
      PresumedIsExtremal(pr, published, constraints, v, n, u);
    }
  }

  // PyPI presumes one exactly when nothing constrains the package and no published tag parses.
  lemma UnparseableTagNeverWinsPypi(parse: string -> Pep440.Version, spec: string -> Option<seq<Pep440.Clause>>,
                                    published: seq<string>, constraints: seq<string>, v: string, n: nat)
    requires IsPresumption(Pypi(parse, spec), published, constraints, Chosen(v, n))
    ensures !parse(v).valid <==> constraints == [] && forall u :: u in published ==> !parse(u).valid
  {
    PypiIsPreordered(parse, spec);
    hide Pep440.Compare, Pep440.FirstUnmet;
    var pr := Pypi(parse, spec);
    PresumedIsExtremal(pr, published, constraints, v, n, v);
    if constraints != [] {
      assert pr.satisfies(constraints[0], v) == (true, true);
    } else if u :| u in published && parse(u).valid {
      PresumedIsExtremal(pr, published, [], v, n, u);
    }
  }

  // So does Go, which takes the lowest and sorts unparseable tags last.
  lemma UnparseableTagNeverWinsGo(parse: string -> Semver.Version, grammar: (string, Semver.Version) -> Answer,
                                  published: seq<string>, constraints: seq<string>, v: string, n: nat)
    requires IsPresumption(SemverBased(parse, grammar, true), published, constraints, Chosen(v, n))
    ensures !parse(v).valid <==> constraints == [] && forall u :: u in published ==> !parse(u).valid
  {
    SemverIsPreordered(parse, grammar, true);
    hide Semver.Compare;
    var pr := SemverBased(parse, grammar, true);
    PresumedIsExtremal(pr, published, constraints, v, n, v);
    if constraints != [] {
      assert pr.satisfies(constraints[0], v) == (true, true);
    } else if u :| u in published && parse(u).valid {
      PresumedIsExtremal(pr, published, [], v, n, u);
      ValidIsNotLast(parse(v), parse(u));
    }
  }

  lemma ValidIsNotLast(v: Semver.Version, u: Semver.Version)
    requires u.valid && Semver.Compare(v, u) <= 0
    ensures v.valid
  {
  }
}
