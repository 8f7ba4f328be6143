# A verified model of depSNORT's core

depSNORT scans lockfiles, builds a graph of packages, walks their declared dependencies, and turns
findings into one exit code. This project models the parts the rest stands on, and proves what they
promise:

- **The transitive walk** (`Expand*.dfy`, `ResolvedDepths.dfy`, `Presume.dfy`, `DeclaredDeps.dfy`).
  `Expand.ExpandRoot` changes the graph in place, phase by phase: it indexes the root's subtree by name,
  seeds from the manifest, asks a resolver, and then reads and creates layer by layer. One invariant,
  `ExpandLedger.Inv`, runs through every step: the graph only evolves (no fact is overwritten, new
  versions are labelled), everything the walk holds is reachable from its root, everything queued is
  answered for, every declaration heard is an edge or a debt, and every mark has a reason.
  Beside the graph a run leaves a log of its phases and layers (`Expand.Ran`): what each heard, lacked, chose,
  created and queued. `ExpandTheorems.dfy` says what follows for a whole run, and composes it with the verdict:
  expansion cannot fail a build through a version it chose. `ExpandTakeover.dfy` says when asserted nodes are
  queued, and `ExpandWitness.dfy` gives small graphs on which they are.
- **The graph** (`GraphTypes.dfy`, `GraphState.dfy`, `GraphStore.dfy`, `GraphLaws.dfy`, `GraphMerge.dfy`,
  `Paths.dfy`, `Orphans.dfy`, `Reach.dfy`, `Sorting.dfy`). A class whose methods are proved against functions on states;
  the laws (index and edges agree, renaming is an isomorphism, merging is idempotent and associative) are
  about those functions. `PathToNode` is a breadth-first search proved to find the shortest path, first
  in identifier order.
- **The verdict** (`Findings.dfy`, `Verdict.dfy`, `Evaluate.dfy`, `VerdictTheorems.dfy`). Demotions, root attribution,
  containment labels, risk propagation to a fixed point, and an exit code read off the raw input.
- **Edit distance** (`OsaDistance.dfy`, `OsaEdits.dfy`, `Typosquat.dfy`). The rolling-row programs against edit scripts.
- **Package URLs** (`Purl.dfy`, `PurlQualifiers.dfy`, `PurlIdentity.dfy`, `PurlText.dfy`, `Text.dfy`). Printing and parsing
  are inverse, so the printed text identifies a package.
- **Versions and ranges** (`Orders.dfy`, `Pep440.dfy`, `Nuget.dfy`, `Semver.dfy`, `SemverTags.dfy`,
  `SemverRanges.dfy`, `Installers.dfy`; `Pep440Order.dfy`, `NugetOrder.dfy`, `SemverWords.dfy`,
  `Presumers.dfy`). Each order is a total preorder, so what the walk presumes is extremal; orders are told by
  what differs first, and ranges by what they admit.
- **Python scanners** (`PyScan.dfy`, `PyStrip.dfy`, `PyDisplay.dfy`, `PyLiterals.dfy`, `PyCalls.dfy`). Each cuts
  its input in exactly one way.

The walk asks the outside world through function-valued fields: `Declarer` (identity and declarations),
`VersionIndex`, `Presumer`, `Resolver`. Whatever iterates a Go map picks elements nondeterministically
here, so the theorems hold for every iteration order. `ExpandOrigins.dfy`, `ExpandLabels.dfy`,
`VerdictTheorems.dfy`, `PurlText.dfy`, `PyCalls.dfy` and their like say in texts, characters and numbers what
the constants and small predicates of the model amount to.

`dafny verify dfyconfig.toml` checks everything.

## Where the code and its documentation part

- `internal/check/builtin/strdist.go:59-63` says one row above the ceiling is not enough to stop. It is
  (`OsaDistance.RowAboveStaysAbove`); the code waits for two, which is sound and only slower.
- `internal/check/builtin/vc006_typosquat.go:66-69` speaks of a single separator before an appended version. Any
  number of them are trimmed (`Typosquat.SuccessorExactly`, `Typosquat.SeparatorsRepeat`).
- `internal/installsurface/analyze.go:2363-2372` says only the module docstring is dropped. The scanner
  drops the first literal that opens any line: a call argument (`PyStrip.ArgumentIsDropped`) or an f-string
  that runs code (`PyStrip.FormattedIsDropped`) included. `PyStrip.OnlyTheDocstringExactly` says when it
  drops nothing else. Adjacent literals and line continuations do not count as one docstring there.
- `internal/installsurface/analyze.go:2519-2533` says emptying displayed text hides only what a person was meant
  to read. A literal in any parentheses nested in the call is emptied too, the argument of another call included
  (`PyDisplay.NestedArgumentIsEmptied`); `PyDisplay.OwnArgumentsExactly` says when none is.
- `internal/semver/semver.go:77-88` compares pre-release tags as text, not as section 11 of SemVer 2.0.0
  has it (`Semver.TagsCompareAsText`); `SemverTags.StandardOrderExactly` says when the two agree.
- `internal/pep440/pep440.go:285-290` ranks a missing development number as 2^30, not above all numbers
  (`Pep440.DevBeforeFinalExactly`), and the wildcard of `internal/pep440/specifier.go:185-198` does not pad
  candidates with zeros (`Pep440.PaddingMattersExactly`).
- `internal/graph/graph.go:247-251` says a target that is itself a root gets no path. It gets the path that is
  just itself (`Paths.RootAnswersItself`).
- `internal/graph/graph.go:151-158` indexes edges by text joined with NUL: identifiers that hold a NUL
  can collide (`GraphState.KeyCollisionExactly`), and removal or renaming can then break the index.
- `internal/graph/graph.go:310-319` presents orphans as what stranded packages leave behind, and
  `internal/graph/coverage.go:65` counts them as packages reachable from no root. A stranded cycle leaves
  none, and neither does a package that only something other than a package depends on
  (`Orphans.CyclesHideStrandedPackages`, `Orphans.DanglingSourceHidesPackage`,
  `Orphans.OtherKindHidesPackage`); `Orphans.StrandedExactly` says when nothing is missed.
- `internal/ecosystem/pypi/walk.go:117` notes that an unparseable tag never wins. In the semver
  ecosystems that take the highest version, and in NuGet, it wins exactly when one is published and nothing
  constrains the package; in PyPI and Go, exactly when nothing published parses either
  (`Installers.UnparseableTagWinsHighest` and its neighbours).
- `internal/expand/expand.go:683-691` drops the count of nodes a resolver added when it also reported an
  error other than unread coordinates: the nodes stay (`ExpandTheorems.FailedAnswerIsUncounted`, and
  `ExpandTheorems.GrowthIsCounted` for when the counters are exact).
- `internal/expand/asserted.go:134-138` says the walk never presumes beneath an asserted node. It does, in
  three ways: the node was asserted for another root (`ExpandWitness.TakenFromAnotherRoot`); the resolver's
  answer came with an error, so that its nodes are below the root but neither closed nor held by name
  (`ExpandWitness.TakenFromFailedAnswer`); or everything the answer named was in the graph already
  (`ExpandWitness.TakenFromKnownAnswer`). `ExpandTakeover.AssertedIsQueuedExactly` gives the exact condition,
  and `ExpandTakeover.HeldIsNeverRead` and `ExpandTakeover.ClosedIsNeverRead` say when the comment is right.
- `internal/expand/expand.go:633-645` keeps packages from forks, paths and URLs from the registry and from the
  resolver. The question for a root as a whole (`internal/expand/asserted.go:337-352`) names them all the same
  (`ExpandOrigins.ForksAreRequired`); elsewhere they are left alone (`ExpandOrigins.QueuedExactly`,
  `ExpandOrigins.AskedExactly`).
- `internal/semver/ranges.go:153-169` reads `^*` as `>=0.0.0 <1.0.0`; so it does `~*`, `^x`, `=x`, a bare `x`
  beside other comparators, and Composer's bare `x` (`SemverRanges.WildcardAdmitsAllExactly`).

## Model

| member | source | states |
|---|---|---|
| `Expand.ExpandRoot` | internal/expand/expand.go:283-563 | a run ends with nothing half done: everything queued is settled, nothing is owed or awaiting its mark, all that lockfiles pinned below the root was queued, all the manifest declares was heard, every mark has a reason; every phase but the resolver's stays inside the root's subtree; what the resolver answered is in the graph, and it closed exactly what it should; a version was chosen for each package the manifest or a layer asked for and the subtree lacked, new nodes come from those choices and the resolver alone, and what the choices lead to is all that was queued beside the pinned packages; Discovered, Presumed and Contested count the new nodes that are the walk's own and those so labelled, and the depth reached is that of the deepest; the bound cuts only after the last layer |
| `ExpandTheorems.NothingQueuedIsForgotten` | internal/expand/expand.go:405-561 | every node ever queued whose ecosystem has a declarer was read, was closed by the resolver, or carries the frontier mark, however the name index was filled |
| `ExpandTheorems.NothingDeclaredIsLost` | internal/expand/expand.go:436-478 | a node counted as read got an answer from its ecosystem, and depends on a node for every included declaration in it that names a package that can be identified |
| `ExpandTheorems.ManifestIsHonoured` | internal/expand/expand.go:326-385 | every manifest entry of the root that names an identifiable package is an edge of the root to a node for it |
| `ExpandWords.DeclaredInWords` | internal/expand/expand.go:436-478 | in words: a node that was read depends on a node for every declaration of its answer that is not optional, or optional ones are wanted, and whose name the ecosystem knows and identifies in whatever version |
| `ExpandWords.AskedInWords` | internal/expand/expand.go:452-474 | what a layer asks for is exactly what its nodes declare so |
| `ExpandTheorems.CreatedIsNoFalseLeaf` | internal/expand/expand.go:536-560 | a node the walk created, and not the resolver, was read, closed by the resolver, or is marked as a frontier |
| `ExpandTheorems.MarkHasReason` | internal/expand/expand.go:536-561 | a node is newly marked only if it has no version, its ecosystem was asked and did not answer for it, a resolver's answer owns up to not having read it, or the depth bound cut it off after it was queued; DepthTruncated is zero if and only if nothing was cut off |
| `ExpandTheorems.OneVersionForAll` | internal/expand/expand.go:405-410 | a package that nodes of a layer ask for and the subtree lacks is answered once, with the version presumed from exactly the constraints the layer set on it: it meets every one of them, and, if it can be identified, all who asked depend on the node for it |
| `ExpandWords.ChosenInWords` | internal/expand/expand.go:569-631 | a version is chosen only where presuming is allowed and possible, from what the ecosystem's own index publishes, or the walk's where it has none; it meets all constraints and none that does lies further in the direction asked for |
| `ExpandWords.NotChosenInWords` | internal/expand/expand.go:573-620 | none is chosen only where presuming is not allowed or not possible, nothing is published, the empty text is, or the package is contested |
| `ExpandWords.ContestedLabel` | internal/expand/expand.go:586-620 | a package made without a version is labelled contested exactly when versions are published and, for all the constraints gathered, reading stops at one that cannot be evaluated or none meets all |
| `ExpandWords.SeededInWords` | internal/expand/expand.go:326-345 | a version is seeded only for a package that an entry of the manifest names, from that entry's own constraint |
| `ExpandTheorems.CreatedInSomeLayer` | internal/expand/expand.go:493-547 | every node new after the resolver was made in some layer for a package that layer asked for and lacked: it is of that package's ecosystem, its identifier and name are that package's with the version chosen from all constraints set on it, which it meets and its recorded text holds, everyone who asked depends on it, the coordinate of one of them is recorded as discovering it, and it is one below the deepest of them |
| `ExpandTheorems.CreatedIsLabelled` | internal/expand/expand.go:503-541 | a created node with a version is labelled presumed or asserted; one without is marked as a frontier |
| `ExpandLabels.CreatedInText` | internal/expand/expand.go:503-525 | in attribute texts: a package made by a layer is labelled presumed, with a decimal count of candidates, when it has a version, and contested or not at all, without a count, when it has none, unless its index publishes the empty text |
| `ExpandLabels.LabelsAreCounted` | internal/expand/expand.go:519-525 | the counters Discovered, Presumed and Contested are the numbers of new nodes that no resolver asserted and of those with these labels |
| `ExpandLabels.DepthIsReached` | internal/expand/expand.go:531-535 | the depth reached is that of some node, or zero, and no node the walk added lies deeper |
| `ExpandLabels.ResolvedInText` | internal/expand/asserted.go:217-263 | what a resolver adds is labelled asserted |
| `ExpandLabels.HolesInText` | internal/expand/asserted.go:179-198 | exactly the nodes named by unread coordinates get the two marks, with the values true and transient-fetch-failure |
| `ExpandTheorems.ExistingIsKept` | internal/expand/expand.go:317-318 | no field and no attribute of an existing node changes but the walk marks, and an absent truth label may only be spelled out as the default it meant |
| `ExpandTheorems.CountersTellGrowth` | internal/expand/expand.go:519-525 | the graph grows by Discovered plus Asserted plus the nodes the run knows to be in no counter; Presumed plus Contested is at most Discovered |
| `ExpandTheorems.GrowthIsCounted` | internal/expand/expand.go:683-691 | the graph grows by exactly Discovered plus Asserted if and only if there is no resolver, or it answered for the root as a whole, or no answer about a direct dependency that came with a failure named an identifier the graph lacked when it was asked |
| `ExpandTheorems.FailedAnswerIsUncounted` | internal/expand/expand.go:683-691 | the input on which they do not: a resolver that fails and names one new package leaves one node in no counter |
| `ExpandTheorems.FinishedIsPossible` | internal/expand/expand.go:283-292 | what these lemmas require can be met: a walk with nobody to ask and nothing pinned may end as it began (for runs that read and choose see `ExpandWitness.WalkBeside`) |
| `ExpandTheorems.OnlyTheSubtreeGrows` | internal/expand/expand.go:268-282 | every added edge is depends-on and leaves a node the root reaches, unless it came with a resolver's answer |
| `ExpandTheorems.OtherRootsAreUntouched` | internal/expand/expand.go:268-282 | without a resolver, another root that shares nothing with this root's finished tree reaches exactly what it reached before |
| `ExpandTheorems.OutsideIsUntouched` | internal/expand/expand.go:268-282 | the same, told before the walk: take any set that holds the root's tree, is closed under dependency edges, and holds the identifiers of every published version, and of no version, of whatever the manifest or a coordinate of the set declares; a root whose tree is disjoint from it reaches exactly what it reached before, of the same ecosystem or not |
| `ExpandWitness.TwoRootsStayApart` | internal/expand/expand.go:268-282 | such a set for two roots of one ecosystem whose packages are identified alike: the other tree is what it was |
| `ExpandTakeover.AssertedIsQueuedExactly` | internal/expand/expand.go:306-383 | an asserted node is queued if and only if it was not expanded, and the manifest or a layer asked for a package not held by name, and the version presumed for that package is identified as this node |
| `ExpandTakeover.HeldIsNeverRead` | internal/expand/asserted.go:134-138 | where only a package's own canonical name is identified as its node, an asserted node is neither queued nor read when its name was held below the root from the start, or, if the seed did not queue it, when it was held by the time the layers started or a resolver closed it |
| `ExpandTakeover.ClosedIsNeverRead` | internal/expand/expand.go:692-693 | whatever a resolver closed is never read, queued or not |
| `ExpandTakeover.LackedIsQueued` | internal/expand/expand.go:452-545 | when a node that is read always declares a package whose name was not held, and every presumption for it leads to one node, that node is queued, however it is labelled, or a resolver closed it |
| `ExpandTakeover.LackedIsRead` | internal/expand/expand.go:405-561 | and where the declaring node was queued before the layers, the bound allows two, and the ecosystem always answers, it is read, or closed |
| `ExpandTakeover.PinnedIsRead` | internal/expand/expand.go:306-321 | a package that lockfiles pinned below the root is read if its ecosystem always answers and no resolver left a hole there, or closed |
| `ExpandOrigins.QueuedExactly` | internal/expand/expand.go:306-321 | beside what seeded and layered choices are identified as, a run queues exactly the versioned packages below the root whose source class is absent, registry or unknown and whose version no resolver asserted |
| `ExpandOrigins.ForksAreNotQueued` | internal/expand/expand.go:633-645 | a node of any other source class is queued, or read, only when a choice is identified as it |
| `ExpandOrigins.AskedExactly` | internal/expand/expand.go:659-681 | handed to the resolver one by one are exactly the versioned direct dependencies of these three source classes that nobody asserted |
| `ExpandOrigins.ForksAreNotResolved` | internal/expand/asserted.go:143-156 | asked about one node without a version or of another source class, the resolver is not consulted and nothing changes |
| `ExpandOrigins.ForksAreRequired` | internal/expand/asserted.go:337-352 | the question for the root as a whole names exactly the direct dependencies with a name and a version, of whatever source class |
| `ExpandOrigins.EightLayersByDefault` | internal/expand/expand.go:288-291 | a run has at most as many layers as asked for, eight when that is not positive, and cuts something off only after all of them |
| `ExpandWitness.TakenFromAnotherRoot` | internal/expand/asserted.go:134-138 | every run without a resolver from a graph in which another root depends on an asserted z, and a package below this root declares z, queues and reads the asserted node |
| `ExpandWitness.TakenFromFailedAnswer` | internal/expand/expand.go:683-691 | so does every run whose resolver names z below that package and fails: the new node is below the root, asserted, queued and read |
| `ExpandWitness.TakenFromKnownAnswer` | internal/expand/expand.go:683-691 | so does every run whose resolver answers in full but names only what the graph has |
| `ExpandWitness.WalkBeside` | internal/expand/expand.go:283-563 | such a run exists: the walk on that graph ends as stated, having read the asserted node |
| `ExpandWitness.WalkPastFailure` | internal/expand/expand.go:283-563 | and so does one with a failing resolver |
| `ExpandTheorems.ExpansionCannotGate` | internal/verdict/verdict.go:201-223 | whatever findings fall on nodes the walk created with a version, the exit code on the grown graph is the one the other findings gave on the graph before |
| `ExpandTheorems.WalkCannotGate` | internal/verdict/verdict.go:201-223 | the same for every finished walk, resolver phase included |
| `ExpandTheorems.GatesExactlyWhenNotPresumed` | internal/graph/versiontruth.go:74-80 | no finding on a node can change the exit code if and only if its version is presumed or asserted |
| `ExpandTheorems.ContestedCanGate` | internal/expand/expand.go:579-610 | a node created for constraints that admit nothing is not presumed, and a finding on it can change the exit code |
| `Expand.SetOut` | internal/expand/expand.go:293-321 | the starting invariant; the names held are exactly those of the packages the root reaches; exactly the versioned registry packages it reaches, unless asserted, are queued |
| `Expand.Layer` | internal/expand/expand.go:391-548 | one layer keeps the whole invariant, owes nothing at its end and adds edges only inside the subtree; everything its nodes declared was gathered; a version was chosen for exactly the packages asked for and not held by name, from all constraints gathered for each, which was linked below all who asked; every new node was made that way, and what is queued next is exactly the unexpanded nodes these choices lead to |
| `Expand.WalkLayers` | internal/expand/expand.go:405-561 | layer after layer the same holds of all layers so far: what was heard, read, created and queued between them is all of it; what is read was queued just before, and not expanded until then; a name is held from the start or because a version was chosen for it; the bound cuts only what the last layer queued |
| `Expand.MarkRest` | internal/expand/expand.go:557-561 | whatever the depth bound left queued is marked, remembered as cut, and counted apart |
| `Expand.Resolve` | internal/expand/expand.go:387-403 | the whole-root answer to the question about this root when there is one, after which everything below it is closed; else each direct dependency's, after which exactly those are closed that were answered for without failing, with something the graph lacked; all that was answered is held by the graph |
| `ExpandSeed.IndexNames` | internal/expand/expand.go:294-302 | the names indexed are exactly those of the subtree's packages of a known ecosystem, and each maps to a node of the subtree: which of two is arbitrary |
| `ExpandSeed.Subtree` | internal/expand/expand.go:738-758 | exactly the nodes reachable over depends-on edges |
| `ExpandSeed.StartFrontier` | internal/expand/expand.go:306-321 | the subtree's pinned packages are queued, and nothing else |
| `ExpandSeed.SeedOne` | internal/expand/expand.go:326-385 | one manifest entry: heard; linked to a node of its name, or given a version exactly when it has a name that is not held: then the node of that version is the only one that may come, one below the root, and it is queued if and only if it has a version and was not expanded |
| `ExpandSeed.Seed` | internal/expand/expand.go:322-386 | every manifest entry of the root is heard; each that names a package the subtree lacked had its version chosen from its own constraint; nothing is queued but the nodes these versions lead to, no node is new but those they are identified as, and these are counted by their labels |
| `ExpandSeed.Adopt` | internal/expand/expand.go:348-383 | every parent depends on the child afterwards; an existing node keeps its place; the child is queued if and only if it has a version and was not expanded, whatever its label, and is marked if it has none |
| `ExpandLayers.AccumulatesAsked` | internal/expand/expand.go:459-474 | putting a declaration on the queue keeps it exact: it holds every parent and every constraint that the layer asked with, and no others |
| `ExpandLayers.ReadOne` | internal/expand/expand.go:452-475 | one declaration is heard: linked within the subtree, or owed by the queue |
| `ExpandLayers.ReadOrMark` | internal/expand/expand.go:440-451 | a node absent from the answer is marked as unread, any other has all its declarations heard |
| `ExpandLayers.ReadLayer` | internal/expand/expand.go:391-478 | the frontier is read or marked, what was expanded before excepted; all that the nodes read declared, and nothing else, is what the layer heard; the queue holds exactly the constraints and parents of all that was heard and the subtree lacked |
| `ExpandCreate.JoinConstraints` | internal/expand/expand.go:760-772 | the recorded text lists, in text order and with a comma and a blank between, some of the constraints, the first in text order first, each other one not yet spelled in the list before it; every constraint occurs in it |
| `ExpandWords.SpelledInText` | internal/expand/expand.go:760-772 | in text: a comma and a blank stand between |
| `ExpandCreate.CreateOne` | internal/expand/expand.go:497-545 | the package is created below its deepest parent with the version its accumulated constraints lead to, or found, and every parent depends on it; it is queued if and only if it has a version and was not expanded |
| `ExpandCreate.CreateLayer` | internal/expand/expand.go:493-547 | exactly the queued packages have a version presumed from their constraints and their parents linked, after which nothing is owed; every new node was made for one of them, with its depth, label and recorded constraints; exactly the unexpanded nodes the versions lead to are queued |
| `ExpandSteps.PresumeFor` | internal/expand/expand.go:569-631 | the version, label and count recorded are those of a correct presumption; a version always comes with the presumed label |
| `ExpandLedger.InvEvolves` | internal/expand/expand.go:276-282 | any evolution of the graph keeps the walk's whole invariant |
| `ExpandLedger.InvBatches` | internal/expand/expand.go:396-409 | turning the frontier into a batch forgets no queued node |
| `ExpandLedger.InvPays` | internal/expand/expand.go:527-529 | drawing the edges owed to a package discharges the debt |
| `ExpandLedger.InvHears` | internal/expand/expand.go:452-475 | hearing a declaration that is linked or owed loses nothing |
| `ResolvedDepths.AssertedDepths` | internal/expand/asserted.go:359-391 | each node's depth is the root's depth plus its distance from index 0, or one layer below when unreachable |
| `ResolvedDepths.DepthIsUnique` | internal/expand/asserted.go:354-391 | that description determines the depth |
| `ResolvedDepths.OnlyTheRootIsAtRootDepth` | internal/expand/asserted.go:222-226 | nothing but the queried coordinate sits at the root's depth |
| `ResolvedDepths.NoShorterPath` | internal/expand/asserted.go:372-383 | when the queue is empty no path is shorter than the depth found |
| `ExpandAsserted.MergeResolved` | internal/expand/asserted.go:217-275 | existing nodes are untouched; new ones are asserted, first coordinate first, at their distance; edges are exactly the old ones and those between identified coordinates |
| `ExpandAsserted.MergeNodes` | internal/expand/asserted.go:230-263 | the node half of that, and the count of nodes added |
| `ExpandAsserted.MergeEdges` | internal/expand/asserted.go:265-273 | the edge half of that |
| `ExpandWords.MergedIdInWords` | internal/expand/asserted.go:230-256 | a resolved coordinate is merged under its ecosystem's identity, or under pkg:, its ecosystem, a slash, its name, @ and its version where the ecosystem is unknown; without name or version it is not |
| `ExpandWords.MergedInWords` | internal/expand/asserted.go:217-263 | what is new is a package at a resolved coordinate other than the queried one, no direct dependency, labelled asserted, and by whom |
| `ExpandAsserted.MarkUnread` | internal/expand/asserted.go:179-198 | exactly the nodes named by the unread coordinates carry both marks; the count is of coordinates with a node |
| `ExpandResolver.AssertRoot` | internal/expand/asserted.go:143-172 | only a versioned registry node is asked about; without an answer nothing changes; with one it is folded in, holes marked, and the error passed on unless it is about holes |
| `ExpandResolver.AssertOne` | internal/expand/expand.go:683-691 | a dependency is closed and its subtree taken in exactly when nodes were added without failure; nodes a failing resolver added stay, uncounted |
| `ExpandResolver.AssertDirectSubtrees` | internal/expand/expand.go:659-714 | every direct dependency worth asking about has its answer in the graph; exactly those are closed that were answered for without failing, with an identifier the graph lacked when it was asked; what is new is asserted and identified by its own coordinate; the graph then holds exactly what it held and what the answers name, and the nodes in no counter are exactly those that failed answers were the first to name |
| `ExpandResolver.MissedExactly` | internal/expand/expand.go:683-691 | some node is in no counter if and only if some failed answer named an identifier the graph lacked when it was asked |
| `ExpandResolver.AssertLocalRoot` | internal/expand/asserted.go:293-330 | handled exactly when there is a requirement and an answer; then all below the root is closed and all new nodes counted; otherwise nothing changed |
| `ExpandResolver.TakeSubtree` | internal/expand/expand.go:696-712 | a name that has a node keeps it; every named package of the subtree is findable afterwards |
| `ExpandResolver.DepsToAssert` | internal/expand/expand.go:662-681 | the direct dependencies worth asking about, each once, sorted |
| `ExpandResolver.DirectRequires` | internal/expand/asserted.go:337-352 | the coordinates of exactly the versioned direct dependencies |
| `Presume.Choose` | internal/expand/expand.go:586-630 | no published version gives no claim; an unreadable or unsatisfiable set is contested; otherwise a published version meeting every constraint, extremal in the installer's direction, with the exact candidate count |
| `Presume.FittingMeetsAll` | internal/expand/expand.go:592-609 | reading constraints until the first failure accepts exactly the versions that meet all of them |
| `Presume.SortedHeadIsBest` | internal/expand/expand.go:623-630 | the head of the sorted candidates is at least as good as every candidate |
| `Installers.PresumedIsExtremal` | internal/expand/expand.go:616-630 | for every ecosystem's order: the presumed version is published, meets all constraints, and none that does lies further in the installer's direction |
| `Presumers.PresumedExactly` | internal/expand/expand.go:586-630 | nothing is said where nothing is published; a package is contested exactly when reading stops at a constraint that cannot be evaluated or no version meets all; else the version meets all and none that does lies further in the installer's direction |
| `Presumers.UnevaluableExactly` | internal/expand/expand.go:592-609 | reading stops exactly at the first constraint that cannot be evaluated, when all before it are met |
| `Presumers.PypiPresumesHighest` | internal/ecosystem/pypi/walk.go:113-124 | PyPI presumes a version that every specifier answers yes to, and none so answered is higher |
| `Presumers.NugetPresumesLowest` | internal/ecosystem/nuget/walk.go:80-109 | NuGet presumes a version that every constraint with a text admits, and none so admitted is lower |
| `Presumers.SemverPresumes` | internal/ecosystem/npm/walk.go:99-101 | the semver ecosystems presume a version that every constraint admits, and none so admitted lies further in their direction |
| `Installers.PypiIsPreordered` | internal/ecosystem/pypi/walk.go:113-124 | PyPI's order, unparseable tags lowest, is a total preorder |
| `Installers.NuGetIsPreordered` | internal/ecosystem/nuget/walk.go:93-104 | NuGet's order, unparseable tags lowest, is a total preorder |
| `Installers.SemverIsPreordered` | internal/ecosystem/npm/walk.go:99-101 | the order of the semver ecosystems is a total preorder |
| `Installers.UnreadableTagContests` | internal/expand/expand.go:592-603 | one published tag the first constraint cannot be read on makes the package contested |
| `Installers.UnparseableTagContests` | internal/semver/ranges.go:32-36 | so one unparseable tag contests every constrained package of a semver ecosystem |
| `Installers.UnparseablePypiTagContests` | internal/pep440/specifier.go:21-25 | and of PyPI |
| `Installers.UnparseableNugetTagContests` | internal/ecosystem/nuget/walk.go:80-91 | and of NuGet, where some constraint is not empty |
| `Installers.UnparseableTagWinsHighest` | internal/ecosystem/npm/walk.go:99-101 | npm's order presumes an unparseable tag if and only if nothing constrains the package and one is published |
| `Installers.UnparseableTagWinsLowest` | internal/ecosystem/nuget/walk.go:93-109 | NuGet's order and direction presume one if and only if all constraints are empty texts and one is published |
| `Installers.UnparseableTagNeverWinsPypi` | internal/ecosystem/pypi/walk.go:113-124 | PyPI presumes one if and only if nothing constrains the package and no published tag parses |
| `Installers.UnparseableTagNeverWinsGo` | internal/ecosystem/gomod/walk.go:94-100 | so does Go, which takes the lowest and sorts unparseable tags last |
| `DeclaredDeps.Encode` | internal/graph/versiontruth.go:105-117 | the text written is the entries the format can carry |
| `DeclaredDeps.Decode` | internal/graph/versiontruth.go:120-132 | the entries read are those of the decoding function |
| `DeclaredDeps.RoundTrip` | internal/graph/versiontruth.go:95-132 | decoding what was encoded gives the list with exactly the unencodable entries removed, order, repeats and tabs in constraints kept |
| `DeclaredDeps.KeepsAllExactly` | internal/graph/versiontruth.go:105-117 | nothing is removed if and only if every entry is encodable |
| `DeclaredDeps.DecodedIsEncodable` | internal/graph/versiontruth.go:120-132 | whatever text is read, writing what was read and reading again changes nothing |
| `DeclaredDeps.WrittenInText` | internal/graph/versiontruth.go:105-117 | an entry is written as its name, a tab, its constraint and a newline, unless the name is empty or holds a tab or newline or the constraint a newline |
| `DeclaredDeps.ReadInText` | internal/graph/versiontruth.go:120-132 | a line is read as what stands before its first tab and all after it; without a tab there is no constraint, without a name no entry |
| `GraphStore.Graph.constructor` | internal/graph/graph.go:79-84 | an empty graph |
| `GraphStore.Graph.AddNode` | internal/graph/graph.go:89-102 | the state function of adding: first write wins, and the canonical node comes back |
| `GraphStore.Graph.RenameNode` | internal/graph/graph.go:111-148 | the four in-place loops give the renamed state; ok says whether the node now has the new name |
| `GraphStore.Graph.AddEdge` | internal/graph/graph.go:151-158 | the state function of adding an edge |
| `GraphStore.Graph.RemoveEdge` | internal/graph/graph.go:162-175 | the state function of removing the first such edge and its key |
| `GraphStore.Graph.MarkRoot` | internal/graph/graph.go:178-185 | roots stay duplicate-free |
| `GraphStore.Graph.SortedNodes` | internal/graph/graph.go:194-205 | the nodes in identifier order, in whatever order the map is walked |
| `GraphStore.Graph.Merge` | internal/graph/graph.go:215-228 | the state function of merging; a nil source changes nothing |
| `GraphStore.Graph.PathToNode` | internal/graph/graph.go:258-309 | a path exactly when the target is a node some in-graph root reaches; then the shortest, first in identifier order, cut at its last empty identifier |
| `GraphStore.Search` | internal/graph/graph.go:283-308 | the breadth-first search finds the best path over its sorted edges, or none exists |
| `GraphStore.Reconstruct` | internal/graph/graph.go:293-301 | following predecessors terminates and spells the path out |
| `GraphState.EdgeKeyIdentifies` | internal/graph/graph.go:151-158 | edges whose identifiers hold no NUL are told apart by their key |
| `GraphState.KeyCollisionExactly` | internal/graph/graph.go:151-158 | an edge shares its key with another if and only if one of its identifiers holds a NUL |
| `GraphLaws.RemoveEdgeKeepsExactly` | internal/graph/graph.go:162-175 | removal leaves the index consistent if and only if the indexed key belongs to the edge asked for; then exactly that edge is gone |
| `GraphLaws.RemoveCleanEdgeKeeps` | internal/graph/graph.go:162-175 | without NUL it always does |
| `GraphLaws.RemoveEdgeCanCorrupt` | internal/graph/graph.go:162-175 | with NUL a removal can leave an edge the index does not know |
| `GraphLaws.RenameKeepsExactly` | internal/graph/graph.go:111-148 | renaming keeps the graph consistent if and only if no two edges end up under one key and the root list does not name both |
| `GraphLaws.CleanKeysCollideExactly` | internal/graph/graph.go:130-158 | without NULs two edges end up under one key if and only if they become one edge |
| `GraphLaws.UnmentionedNameIsFree` | internal/graph/graph.go:130-146 | no two edges become one when no edge mentions the new name |
| `GraphLaws.RenameCanDuplicate` | internal/graph/graph.go:130-146 | a dangling edge that mentions the new name makes a duplicate edge |
| `GraphLaws.RenameRoundTrip` | internal/graph/graph.go:111-148 | renaming back restores the state exactly |
| `GraphLaws.RenameIsIsomorphism` | internal/graph/graph.go:111-148 | renaming preserves reachability, roots and nodes under the renaming |
| `GraphMerge.MergeContents` | internal/graph/graph.go:215-228 | a merge holds the union, the target's facts winning, and stays consistent |
| `GraphMerge.MergeIdempotent` | internal/graph/graph.go:215-228 | merging twice is merging once |
| `GraphMerge.MergeAssociative` | internal/graph/graph.go:215-228 | merging is associative up to insertion order |
| `GraphMerge.RunsStayConsistent` | internal/graph/graph.go:79-185 | every state of every sequence of operations keeps keys, order, edges and index in agreement |
| `GraphLaws.AddedInWords` | internal/graph/graph.go:89-102 | a new node is stored as given, a missing kind becoming a package and a missing risk clean; a known identifier changes nothing |
| `GraphLaws.KeysInText` | internal/graph/graph.go:151-158 | edge keys join source, target and kind by the zero character |
| `Sorting.StringLessExactly` | internal/graph/graph.go:194-205 | texts are ordered by the first character that differs, a beginning before what it begins |
| `Paths.BestIsUnique` | internal/graph/graph.go:258-309 | at most one path is shortest and first in identifier order |
| `Paths.BestInEdges` | internal/graph/graph.go:258-309 | the best path follows depends-on edges from a root to the target, and no other is shorter or, of its length, has a smaller identifier where they first differ |
| `Paths.BestIgnoresEdgeOrder` | internal/graph/graph.go:258-309 | which one does not depend on the order edges were added in |
| `Paths.DiscoveredIsBest` | internal/graph/graph.go:283-301 | the path through the node that discovers a vertex first is the best to it |
| `Paths.AnswerIsBest` | internal/graph/graph.go:293-301 | without empty identifiers the answer is the best path itself |
| `Paths.AnswerCanBeCut` | internal/graph/graph.go:297 | with an empty identifier on it, the path loses everything up to there |
| `Paths.RootAnswersItself` | internal/graph/graph.go:247-251 | a target that is itself a root gets the path that is just itself |
| `Orphans.Orphans` | internal/graph/graph.go:320-338 | exactly the packages that are no root and that nothing depends on, each once, in identifier order |
| `Orphans.OrphanInEdges` | internal/graph/graph.go:320-338 | that is, packages to which no depends-on edge leads |
| `Orphans.OrphansAreUnreached` | internal/graph/graph.go:310-319 | no root reaches an orphan |
| `Orphans.StrandedExactly` | internal/graph/graph.go:310-319 | some package is reached by no root if and only if there is an orphan, or a root-free set of identifiers that no edge enters, holds a package, and in which something depends on each package |
| `Orphans.TrapHasCause` | internal/graph/graph.go:310-319 | such a set holds a dependency cycle, or a dependency edge from something that is no package |
| `Orphans.NoOrphansNothingStranded` | internal/graph/graph.go:310-319 | without dependency cycles and edges from anything but packages, no orphans means some root reaches every package |
| `Orphans.CyclesHideStrandedPackages` | internal/graph/graph.go:310-319 | with a cycle it does not: unreached packages need not be orphans |
| `Orphans.DanglingSourceHidesPackage` | internal/graph/graph.go:326-331 | an edge from an identifier without a node hides an unreached package |
| `Orphans.OtherKindHidesPackage` | internal/graph/graph.go:326-331 | so does an edge from a node of another kind |
| `Verdict.PropagateInstallTime` | internal/verdict/verdict.go:101-131 | each node's risk ends as the maximum of its own and those of the packages reaching it over install-time edges; only risk changes; the risk map agrees |
| `Verdict.Spread` | internal/verdict/verdict.go:112-130 | one package's search raises exactly the nodes it reaches, duplicates in the queue included |
| `Verdict.PeakIsUnique` | internal/verdict/verdict.go:101-131 | that maximum is determined, whatever the order packages are visited in |
| `VerdictTheorems.PeakInStates` | internal/verdict/verdict.go:86-131 | in states: after propagation a node is flagged exactly when it was, or a flagged package reaches it over the six install-time kinds of edges; else warned exactly when it was, or a warned one does; else as it was |
| `Verdict.ReachableRootsByNode` | internal/verdict/verdict.go:236-260 | for each node exactly the sorted roots that reach it over any edge |
| `Verdict.RootsReachingMembers` | internal/verdict/verdict.go:236-260 | the list holds a root if and only if it reaches the node |
| `Verdict.RootsReachingIncreasing` | internal/verdict/verdict.go:236-260 | from distinct sorted roots it is sorted and without repeats |
| `Verdict.ApplyContainment` | internal/verdict/verdict.go:268-312 | attribution is the reaching roots; the label is added exactly when real roots were named and none of them matches one; nothing else changes |
| `VerdictTheorems.DesignatesInLetters` | internal/verdict/verdict.go:268-312 | a designation matches a root that contains it letter by letter, whatever the case |
| `VerdictTheorems.ContainedInLetters` | internal/verdict/verdict.go:268-312 | the roots named are exactly those that reach the node over any of the eight kinds of edges, and a finding is newly labelled exactly when some designation was given and none stands in any of these roots |
| `Verdict.ApplyRecencyDemotion` | internal/verdict/verdict.go:150-167 | eligible findings too old to gate become advisory; evidence only grows |
| `Verdict.ApplyPresumedDemotion` | internal/verdict/verdict.go:201-223 | findings on presumed nodes become advisory; evidence only grows |
| `Evaluate.ExitCodeIgnoresAdvisories` | internal/verdict/verdict.go:330-412 | adding, dropping, repeating or reordering advisory findings never changes the exit code |
| `Evaluate.ExitCodeIgnoresPresumed` | internal/verdict/verdict.go:201-223 | neither do findings on presumed versions |
| `VerdictTheorems.ExitCodeInNumbers` | internal/verdict/verdict.go:395-411 | in numbers: 1 when a blocking finding is on no presumed or asserted node, else 2 when the policy asks and an eligible one is, and does not age below 0.15, else 3 when the policy asks and the scan was incomplete, else 0 |
| `VerdictTheorems.ClassInNumbers` | internal/verdict/verdict.go:134-223 | a finding ends advisory when its node is presumed or asserted, or when it is eligible and has aged below 0.15; else it keeps its class |
| `VerdictTheorems.StateInFindings` | internal/verdict/verdict.go:330-394 | after an evaluation a node is flagged exactly when a blocking finding about an observed version is on it or on a package that reaches it over the six install-time kinds of edges, else warned exactly when any finding is, else clean |
| `Evaluate.CountsDecide` | internal/verdict/verdict.go:395-411 | the tallies of the processed findings say what the raw input says about blocking and gating |
| `Evaluate.Process` | internal/verdict/verdict.go:330-343 | no finding is dropped or reordered; each keeps all but its class, evidence, attribution and label |
| `Evaluate.Tally` | internal/verdict/verdict.go:350-365 | each node's findings in order and exact counts per class |
| `Evaluate.EvaluateWithCoverage` | internal/verdict/verdict.go:330-412 | the exit code is read off the raw input: 1 iff a block finding is not on a presumed node, else 2, else 3, else 0; nodes end with their findings and propagated risk |
| `Purl.DecodedEncoded` | internal/purl/purl.go:291-357 | decoding undoes each of the three encodings |
| `Purl.EncodedIsPlain` | internal/purl/purl.go:291-303 | encoded text holds no structural character but the percent sign of its escapes |
| `Purl.EncodeSegment` | internal/purl/purl.go:305-335 | the segment encoder, fast path included, is the encoding |
| `Purl.EncodeNamespace` | internal/purl/purl.go:362-386 | so is the namespace encoder, which leaves the slash |
| `Purl.EncodeQualifierValue` | internal/purl/purl.go:254-289 | so is the qualifier encoder, for byte strings |
| `Purl.DecodeSegment` | internal/purl/purl.go:340-357 | one left-to-right pass decodes |
| `PurlQualifiers.NormalHoldsWritten` | internal/purl/purl.go:192-212 | the normal form holds exactly the last value written to each valid key |
| `PurlQualifiers.NormalIsNormal` | internal/purl/purl.go:213-218 | sorted by key, without repeats, nothing empty or malformed |
| `PurlQualifiers.NormalIsUnique` | internal/purl/purl.go:192-197 | two normal forms with the same entries are the same list |
| `PurlQualifiers.RenderQualifiers` | internal/purl/purl.go:198-228 | what is rendered is the normal form, in whatever order the map is walked |
| `PurlQualifiers.ParseQualifiers` | internal/purl/purl.go:454-472 | malformed pairs are dropped, the rest decoded in order |
| `PurlQualifiers.QualifiersRoundTrip` | internal/purl/purl.go:198-228 | rendered qualifiers parse back to the normal form |
| `PurlIdentity.Print` | internal/purl/purl.go:170-189 | the canonical text |
| `PurlIdentity.Parse` | internal/purl/purl.go:390-447 | the parsed PURL, or which of the four errors |
| `PurlIdentity.RoundTrip` | internal/purl/purl.go:170-228 | every PURL with a valid type and a name parses back to itself up to qualifier normalisation |
| `PurlIdentity.PrintedIdentifies` | internal/purl/purl.go:13-17 | two PURLs print alike if and only if they agree up to qualifier normalisation |
| `PurlIdentity.ParsedIsValid` | internal/purl/purl.go:434-447 | whatever is accepted can be printed |
| `PurlIdentity.CanonicalIsStable` | internal/purl/purl.go:388-447 | for any accepted input, the printed form is a fixed point of parsing and printing |
| `PurlIdentity.SourceSetsApart` | internal/purl/purl.go:54-78 | adding a source changes the identity if and only if the source is not a registry one |
| `PurlIdentity.SourcesAreDistinct` | internal/purl/purl.go:54-78 | different sources of one coordinate are different identities |
| `PurlIdentity.NpmIdentity` | internal/purl/purl.go:80-85 | two npm packages share an identity if and only if name and version agree |
| `PurlText.PlainIsPrinted` | internal/purl/purl.go:170-189 | a package whose name and version hold none of @, /, %, ? and # is printed as pkg:, its type, a slash, its name, and @ and its version where it has one |
| `PurlText.PlainNamespaceIsPrinted` | internal/purl/purl.go:362-386 | a namespace without @, %, ? and # comes before the name as it is, slashes included |
| `PurlText.SegmentEscapes` | internal/purl/purl.go:305-335 | in a name or version these five become %40, %2F, %25, %3F and %23 where they stand |
| `PurlText.NamespaceEscapes` | internal/purl/purl.go:362-386 | in a namespace four of them do, and the slash stands |
| `PurlText.QualifierEscapes` | internal/purl/purl.go:254-289 | in a qualifier's value all five do, and & and = become %26 and %3D |
| `PurlText.UnprintableEscapes` | internal/purl/purl.go:254-289 | so does every byte that is not printable ASCII, as a percent sign and two upper-case hexadecimal digits |
| `PurlText.KeptInText` | internal/purl/purl.go:192-212 | a qualifier is kept exactly when it has a value and a key of lower-case letters, digits, dots, hyphens and underscores |
| `PurlText.TwoAreRendered` | internal/purl/purl.go:198-228 | two qualifiers are written in the order of their keys, whichever way they were given |
| `PurlText.SourceIsPrinted` | internal/purl/purl.go:54-78 | a source other than none, registry and unknown is printed as the qualifier source, and its reference as source_ref |
| `PurlText.NpmIsPrinted` | internal/purl/purl.go:80-85 | lodash 4.17.21 is pkg:npm/lodash@4.17.21, and so for every plain name |
| `PurlText.ScopedNpmIsPrinted` | internal/purl/purl.go:80-101 | the scope of a name becomes its namespace, its mark escaped |
| `PurlText.PlainIsParsed` | internal/purl/purl.go:390-447 | of a plain type, name and version what is printed is read back, or an empty part, then a type that is not a letter followed by letters, digits, dots, plus signs and hyphens, is told |
| `PurlText.SchemeAndSlashAreAsked` | internal/purl/purl.go:390-447 | a text without pkg: has no scheme, and one without a slash has no name |
| `OsaDistance.DistanceIsLeastCost` | internal/check/builtin/strdist.go:73-117 | the recurrence is the least cost of any restricted edit script: insert, delete, substitute, adjacent swap, no part edited twice |
| `OsaDistance.LeastCostIsUnique` | internal/check/builtin/strdist.go:73-117 | and is the only number that is |
| `OsaDistance.DistanceSymmetric` | internal/check/builtin/strdist.go:73-117 | the distance is symmetric |
| `OsaDistance.DistanceZeroOnlyOnEqual` | internal/check/builtin/strdist.go:73-117 | it is zero if and only if the strings are equal |
| `OsaDistance.DistanceWithinLengths` | internal/check/builtin/strdist.go:19-30 | it lies between the length difference and the longer length |
| `OsaDistance.OsaDistance` | internal/check/builtin/strdist.go:78-117 | three rotated rows compute the distance |
| `OsaDistance.OsaDistanceBounded` | internal/check/builtin/strdist.go:19-71 | exactly the distance when that is at most the ceiling, else something above the ceiling |
| `OsaDistance.RowAboveStaysAbove` | internal/check/builtin/strdist.go:55-68 | once one whole row is above the ceiling, all later rows are, transpositions included |
| `OsaDistance.EarlyExit` | internal/check/builtin/strdist.go:55-68 | so the early exit only happens when the distance is above the ceiling |
| `OsaEdits.DistanceOneExactly` | internal/check/builtin/strdist.go:73-117 | two strings are at distance one exactly when they differ and one becomes the other by a character put in, taken out or replaced, or by two neighbours swapped |
| `Typosquat.Search` | internal/check/builtin/vc006_typosquat.go:179-188 | the bounded search finds the first nearest popular name, or there is none within the ceiling |
| `Typosquat.Judge` | internal/check/builtin/vc006_typosquat.go:157-211 | the finding is the one the exact distance would make |
| `Typosquat.VerdictIsUnique` | internal/check/builtin/vc006_typosquat.go:179-211 | and is determined by it |
| `Typosquat.FoundExactly` | internal/check/builtin/vc006_typosquat.go:157-211 | a finding is made exactly on a name of at least five bytes that is not popular and lies at distance 1 from the first nearest popular name, or at distance 2 with at least ten bytes, unless it is that name with a version appended; the confidence is 0.6 or 0.4 |
| `Typosquat.SuccessorExactly` | internal/check/builtin/vc006_typosquat.go:81-103 | a version is appended exactly by any of -, . and _ and then digits |
| `Typosquat.SeparatorsRepeat` | internal/check/builtin/vc006_typosquat.go:66-88 | more than one separator is trimmed |
| `Typosquat.BytesOfOne` | internal/check/builtin/vc006_typosquat.go:157-178 | bytes are those of UTF-8 |
| `Pep440.CompareIsTotalPreorder` | internal/pep440/pep440.go:213-252 | PEP 440 comparison is a total preorder |
| `Pep440.EqualExactly` | internal/pep440/pep440.go:213-252 | two versions compare equal if and only if they agree up to trailing zeros of the release |
| `Pep440.CmpRelease` | internal/pep440/pep440.go:302-320 | the loop compares zero-padded releases at their first difference |
| `Pep440.PhasesInOrder` | internal/pep440/pep440.go:254-265 | development releases, pre-releases, the final release, post-releases, in that order |
| `Pep440Order.BelowExactly` | internal/pep440/pep440.go:213-300 | a version sorts below another exactly when, in the first of these that differs, it has the smaller epoch, release number, phase, kind of pre-release (a, b, any other), pre-release number, post-release number (none first), development number (none counts as two to the thirtieth), or local part (none first) |
| `Pep440Order.PrereleasesInOrder` | internal/pep440/pep440.go:254-276 | the alphas of a final version precede its betas and those its candidates, the smaller number first within a kind, and all precede the version |
| `Pep440.DevBeforeFinalExactly` | internal/pep440/pep440.go:285-290 | a development release precedes its counterpart if and only if that is final or the number is below two to the thirtieth |
| `Pep440.Satisfies` | internal/pep440/specifier.go:21-54 | yes iff every clause is met and a pre-release is asked for by name; otherwise the first unmet clause says whether no or unreadable |
| `Pep440.AnsweredIsAnswer` | internal/pep440/specifier.go:21-54 | the answer a presumer is given is the one the clauses determine |
| `Pep440Order.MatchExactly` | internal/pep440/specifier.go:80-181 | what each operator admits, told by what precedes what; only ~= with fewer than two numbers cannot be read |
| `Pep440Order.SetAdmits` | internal/pep440/specifier.go:21-54 | a set admits exactly the readable candidates that all clauses admit, pre-releases only where a clause names one |
| `Pep440Order.CandidateAfterAlpha` | internal/pep440/pep440.go:267-276 | 1.0rc1 comes after 1.0a1 and meets >=1.0a1 |
| `Pep440.MatchPrefix` | internal/pep440/specifier.go:185-198 | the wildcard compares release prefixes |
| `Pep440.CompatibleIsTwoClauses` | internal/pep440/specifier.go:143-154 | ~=V gives the answer of >=V with the shortened wildcard, for every candidate |
| `Pep440.CompatibleIsInterval` | internal/pep440/specifier.go:143-154 | ~=V is the half-open interval from V to the next release of the shortened prefix |
| `Pep440.PrefixIsInterval` | internal/pep440/specifier.go:183-198 | so is the wildcard, on candidates with enough release numbers |
| `Pep440.PaddingMattersExactly` | internal/pep440/specifier.go:185-198 | the unpadded wildcard agrees with the padded one on all candidates of a length if and only if the prefix is no longer or asks for more than zeros beyond it |
| `Nuget.CompareIsTotalPreorder` | internal/nugetver/nugetver.go:85-125 | NuGet comparison is a total preorder, whatever number reading and case folding do |
| `Nuget.Compare` | internal/nugetver/nugetver.go:85-100 | the loop and case analysis are parts first, then tags |
| `Nuget.ComparePrerelease` | internal/nugetver/nugetver.go:102-125 | tags compare identifier by identifier, the shorter first |
| `Nuget.MoreIdentifiersSortHigher` | internal/nugetver/nugetver.go:80-125 | a pre-release precedes its release, and more identifiers come later |
| `NugetOrder.CompareExactly` | internal/nugetver/nugetver.go:85-125 | a version sorts below another exactly when the first of four numbers that differs is smaller, or else its tag is: none last, numbers before text, numbers by value, text by its folded form, the shorter first |
| `NugetOrder.WithinExactly` | internal/nugetver/range.go:31-71 | a range admits exactly what lies between its ends, an end itself only where it is included, and pre-releases only where an end is one |
| `NugetOrder.IntervalAdmits` | internal/nugetver/range.go:75-127 | in text: each bracket of an interval says whether its end is admitted |
| `NugetOrder.StarAdmitsReleases` | internal/nugetver/range.go:31-45 | a star, or nothing, admits exactly the releases |
| `Nuget.RangesAreConvex` | internal/nugetver/range.go:31-71 | on releases a range holds whatever lies between two of its members |
| `Nuget.ExactPrereleaseAdmitsNothing` | internal/nugetver/range.go:46-60 | an exact range never opts pre-releases in, so one naming a pre-release admits nothing |
| `Nuget.IntervalParses` | internal/nugetver/range.go:75-127 | an interval parses to its two ends with the inclusion its brackets say |
| `Nuget.ExactParses` | internal/nugetver/range.go:95-104 | brackets without a comma are exact |
| `Nuget.BareIsMinimum` | internal/nugetver/range.go:76-83 | a bare version is a minimum |
| `Semver.CompareIsTotalPreorder` | internal/semver/semver.go:60-89 | the order is a total preorder, invalid versions last |
| `Semver.EqualExactly` | internal/semver/semver.go:60-89 | valid versions compare equal only when they are the same |
| `Semver.TagsCompareAsText` | internal/semver/semver.go:77-88 | rc.10 sorts before rc.9 |
| `SemverWords.CompareExactly` | internal/semver/semver.go:60-89 | a version sorts below another exactly when it can be read and the other cannot, or the first number that differs is smaller, or else it has a tag that is smaller as text or the other has none |
| `SemverWords.BumpExactly` | internal/semver/semver.go:103-117 | the first number that differs names the bump |
| `SemverTags.StandardOrderExactly` | internal/semver/semver.go:60-89 | two versions are ordered as section 11 of SemVer 2.0.0 orders them if and only if their numbers differ, one has no tag, or the first identifiers in which the tags differ fit: numbers of different length stand in text order as in length, a number stands before text, and no text is a prefix of another that goes on below the dot |
| `SemverTags.TagsExactly` | internal/semver/semver.go:77-88 | the same for tags alone |
| `SemverTags.UnfitPairs` | internal/semver/semver.go:77-88 | the three ways not to fit: rc.10 and rc.9, 2 and 1a, a.b and a-b |
| `SemverTags.StandardIsPreordered` | internal/semver/semver.go:58-59 | the standard's order of tags is a total preorder |
| `Semver.SatisfiesSet` | internal/semver/ranges.go:297-310 | every comparator is met, and a pre-release only when one names its triple |
| `SemverWords.MatchExactly` | internal/semver/ranges.go:321-345 | what each of the six operators admits, told by what precedes what |
| `SemverWords.MeetsExactly` | internal/semver/ranges.go:297-319 | a set admits a pre-release only where a comparator names one with the same three numbers |
| `Semver.SatisfiesAny` | internal/semver/ranges.go:46-62 | alternatives: the first met answers unless an unreadable one stands before it |
| `Semver.OrStopsAtTheFirstMet` | internal/semver/ranges.go:46-62 | so whether an unreadable alternative shows depends on the order |
| `Semver.SplitParts` | internal/semver/ranges.go:246-278 | up to three numbers, read or declined |
| `Semver.SplitIsWellFormed` | internal/semver/ranges.go:273-277 | no patch without a minor, absent numbers zero |
| `Semver.WildcardIsAbsent` | internal/semver/ranges.go:242-245 | 1.2.x and 1.2 are the same range |
| `SemverWords.ThreeNumbersAreRead` | internal/semver/ranges.go:246-278 | three decimal numbers are read back, whatever tag or build follows |
| `SemverWords.FewerNumbersAreRead` | internal/semver/ranges.go:246-278 | so are two and one, the rest being absent |
| `SemverWords.DeclinedExactly` | internal/semver/ranges.go:246-278 | a text is declined exactly when nothing is left of it, it has more than three pieces, a piece is neither number nor wildcard, or a number follows a wildcard |
| `SemverRanges.CaretExactly` | internal/semver/ranges.go:151-169 | a caret admits exactly the releases at or above it that agree through the left-most non-zero component, or the last given one where all are zero |
| `SemverRanges.TildeExactly` | internal/semver/ranges.go:171-186 | a tilde fixes the minor when one is given, else the major |
| `SemverRanges.PessimisticExactly` | internal/semver/ranges.go:405-438 | the pessimistic operator fixes all but the last given component |
| `SemverRanges.XRangeExactly` | internal/semver/ranges.go:130-149 | an x-range admits exactly the releases sharing its components |
| `SemverRanges.TildeWithinPessimistic` | internal/semver/ranges.go:405-438 | npm's tilde is contained in the pessimistic operator |
| `SemverRanges.TildeIsPessimisticExactly` | internal/semver/ranges.go:405-438 | and equals it if and only if the version does not have two parts |
| `SemverRanges.EmptyCaretStopsAtOne` | internal/semver/ranges.go:129-186 | the texts x and X after a caret, a tilde or as an x-range, and the star after a caret or a tilde, admit exactly the releases below 1.0.0 |
| `SemverRanges.WildcardAdmitsAllExactly` | internal/semver/ranges.go:129-186 | an operator on a text of wildcards admits every release if and only if it is an x-range on nothing or a bare star; otherwise it admits exactly the releases below 1.0.0 |
| `SemverRanges.BumpsWithinRanges` | internal/semver/semver.go:103-117 | a tilde update is at most a patch, a caret update of a major release anything but a major bump |
| `SemverRanges.BoundsAdmitNoPrereleases` | internal/semver/ranges.go:297-319 | none of these operators admits a pre-release |
| `SemverRanges.SetsAreConvex` | internal/semver/ranges.go:297-338 | on releases a set without != is convex |
| `SemverRanges.NotEqualLeavesAHole` | internal/semver/ranges.go:333-336 | with != it need not be |
| `PyScan.PyStringOpen` | internal/installsurface/analyze.go:2419-2433 | the opening quote after at most two prefix letters, or none |
| `PyScan.ScanPyString` | internal/installsurface/analyze.go:2437-2473 | the end of the literal, which lies after its start and within the text |
| `PyScan.SingleEndIsFirst` | internal/installsurface/analyze.go:2458-2472 | a single-quoted literal ends at its first unescaped quote and spans no unescaped newline |
| `PyLiterals.OpenExactly` | internal/installsurface/analyze.go:2419-2433 | a literal opens with at most two of r, b, u and f in either case and then a quote |
| `PyLiterals.SingleEndExactly` | internal/installsurface/analyze.go:2458-2472 | in single marks it ends just past the first such quote, or before the first line end, not taken along by a backslash, or with the text |
| `PyLiterals.TripleEndExactly` | internal/installsurface/analyze.go:2437-2457 | in triple marks it ends just past the first three such quotes, or with the text |
| `PyScan.StripPyInert` | internal/installsurface/analyze.go:2373-2415 | the input is cut into literals, comments, one dropped literal and plain characters; all but comments and that literal are kept in order |
| `PyStrip.InertIsUnique` | internal/installsurface/analyze.go:2373-2415 | a text has one such cut, so one result |
| `PyStrip.LittleIsLost` | internal/installsurface/analyze.go:2363-2372 | the output is a subsequence of the input that loses at most one literal besides comments |
| `PyStrip.OnlyTheDocstringExactly` | internal/installsurface/analyze.go:2363-2372 | nothing but the module docstring is dropped if and only if the text begins with one, a whole-statement literal that is neither formatted nor bytes, or no literal opens a line |
| `PyStrip.DocstringIsDropped` | internal/installsurface/analyze.go:2381-2390 | a module docstring is what is dropped |
| `PyStrip.ArgumentIsDropped` | internal/installsurface/analyze.go:2381-2390 | a call argument on its own line is dropped |
| `PyStrip.FormattedIsDropped` | internal/installsurface/analyze.go:2381-2390 | a leading f-string is dropped, calls and all |
| `PyDisplay.DisplaySinkOpenerAt` | internal/installsurface/analyze.go:2506-2519 | the length of the display call that begins here, unless the name goes on before it |
| `PyDisplay.StripPyDisplayStrings` | internal/installsurface/analyze.go:2534-2578 | the input is cut into kept text and emptied literals, each inside a display call and not formatted |
| `PyDisplay.MutedIsUnique` | internal/installsurface/analyze.go:2534-2578 | a text has one such cut, so one result |
| `PyDisplay.OnlyDisplayedTextIsEmptied` | internal/installsurface/analyze.go:2519-2533 | every emptied literal stands inside a display call's parentheses and has no f prefix; all else is as it was |
| `PyDisplay.NoCallNoChange` | internal/installsurface/analyze.go:2519-2533 | a text in which no display call begins anywhere comes through unchanged |
| `PyCalls.OpenersInText` | internal/installsurface/analyze.go:2493-2519 | a display call begins exactly where print(, sys.exit(, sys.stderr.write(, sys.stdout.write( or warnings.warn( stands after no letter, digit, underscore or dot |
| `PyCalls.OtherCallsAreKept` | internal/installsurface/analyze.go:2493-2578 | a script in which none of the five stands so comes through unchanged, whatever else it calls |
| `PyCalls.EmptiedInsideCall` | internal/installsurface/analyze.go:2534-2578 | every emptied literal stands in the parentheses of one of the five, which began before it and have not closed |
| `PyCalls.FreeCallOpens` | internal/installsurface/analyze.go:2534-2578 | each of the five opens a call wherever it stands so outside the parentheses of another |
| `PyCalls.FormattedInText` | internal/installsurface/analyze.go:2519-2533 | a literal is formatted exactly when f or F is in its prefix |
| `PyDisplay.OwnArgumentsExactly` | internal/installsurface/analyze.go:2519-2533 | only text directly in a display call's parentheses is emptied if and only if every literal in parentheses nested there has an f prefix |
| `PyDisplay.NestedArgumentIsEmptied` | internal/installsurface/analyze.go:2519-2533 | the argument of a call nested in a display call is emptied |

## Left out

- The command line, discovery of files, caches, network clients, emitters, the SBOM, profiles, baselines
  and the other checks.
- Nodes are values in the graph's map, not pointers: after a merge the two graphs share no nodes here,
  while in Go they share them.
- A nil graph or root handed to the walk, and a root that is not in its graph: `ExpandRoot` requires both.
- Identifiers with a NUL in the walk: `CleanWalker`, `CleanResolver` and `Sound` require identifiers whose
  edge keys cannot collide, which is exactly what the walk needs of the edge index.
- Go integers are unbounded here; a number too large for `strconv.Atoi` is not modelled.
- The name index and the pending queue are keyed by the pair of ecosystem and canonical name, and
  declared answers by the coordinate, instead of their texts joined with "|".
- Contexts, and calls to declarers, indexes and resolvers: pure functions of their arguments. A resolver
  error is none, unread coordinates, or any other.
- The walk's counters for links, frontier nodes and unread nodes are computed, but only the counts of new nodes
  and of their labels, the depth reached, and whether the depth bound cut anything, are tied to the graph.
- `ExpandCreate.CreateLayer`: the order in which a layer creates its packages, which shows only where two of
  them are identified alike, and in the order nodes were inserted.
- `ExpandTheorems.MarkHasReason`, `ExpandTheorems.NothingDeclaredIsLost`: that an ecosystem was asked means
  that some batch holding the node's coordinate gets that answer; which batches were sent is not recorded.
- `SemverTags.StandardOrderExactly`: only for tags without leading zeros in their numbers, which the standard
  does not allow.
- `SemverRanges.WildcardAdmitsAllExactly`: the text after the operator is already trimmed.
- The walk is not proved to choose the same versions for every constraint order: presuming stops at the
  first failing constraint, so whether it meets an unreadable one depends on the order.
- `sort.Slice` is an insertion sort: for candidates that compare equal Go may pick another one.
- Evidence text: the old text is a prefix of the new, and the added prose is reduced to a note.
- Risk states and gate classes are enumerations, any other gate text being one more class; scores and
  decay are reals.
- Coverage enters the verdict as one flag.
- `Verdict.ApplyContainment`: designation of real roots compares with lower-casing of ASCII letters only.
- `PurlIdentity.Parse`: strings hold bytes, one character each; `strings.ToLower` on qualifier keys is a
  parameter known only to leave valid keys alone.
- `NewPyPI`, `NewGem`, `NewCargo`, `NewMaven`, `NewComposer`, `NewGo` and `NewNuGet`: they only trim or fold
  the name.
- Text to version: `pep440.Parse`, `semver.Parse` and `nugetver.Parse` are parameters; so are the splitting
  of specifier sets, tokens and hyphen ranges, and `strings.TrimSpace`.
- `Semver.SplitParts`: its argument is already trimmed.
- `Nuget.Compare`: reading an identifier as a number and folding its case are parameters.
- `Typosquat.Judge`: the corpus, the minimum lengths and the successor test are modelled; scopes, popular
  parents and the loop over nodes are not.
- The marker tables and regular expressions of capability scanning, and the scanners for TOML arrays.
