// Nodes and edges of the dependency graph, and what a node's attributes say about its version.
module GraphTypes {
  import opened Findings

  // UnsetKind is the kind an adapter left empty; AddNode reads it as a package.
  datatype NodeKind = UnsetKind | Package | InstallHook | ReferencedArtifact | Sink

  datatype EdgeType =
    | DependsOn
    | DeclaresHook
    | HookExecs
    | HookFetches
    | HookReadsEnv
    | Exfil
    | Republish
    | BuildBackend

  datatype Edge = Edge(from: string, to: string, kind: EdgeType)

  datatype Node = Node(
    id: string,
    kind: NodeKind,
    ecosystem: string,
    name: string,
    version: string,
    direct: bool,
    depth: int,
    attr: map<string, string>,
    risk: RiskState,
    findings: seq<Finding>)
  {
    function Attribute(key: string): string {
      if key in attr then attr[key] else ""
    }

    // Attributes are set, never cleared: an empty value leaves the node alone.
    function WithAttribute(key: string, value: string): Node {
      if value == "" then this else this.(attr := attr[key := value])
    }

    // How this node's version is known; silence means a lockfile recorded it.
    function VersionTruth(): string {
      if Attribute(ATTR_VERSION_TRUTH) == "" then TRUTH_OBSERVED else Attribute(ATTR_VERSION_TRUTH)
    }

    // Whether the version was chosen by anything other than the operator's own lockfile.
    predicate Presumed() {
      VersionTruth() == TRUTH_PRESUMED || VersionTruth() == TRUTH_ASSERTED
    }

    function SourceClass(): string {
      if Attribute(ATTR_SOURCE_CLASS) == "" then SOURCE_UNKNOWN else Attribute(ATTR_SOURCE_CLASS)
    }
  }

  const ATTR_VERSION_TRUTH := "depsnort.version_truth"
  const ATTR_VERSION_CANDIDATES := "depsnort.version_candidates"
  const ATTR_DECLARED_CONSTRAINT := "depsnort.declared_constraint"
  const ATTR_DECLARED_DEPS := "depsnort.declared_deps"
  const ATTR_SOURCE_CLASS := "depsnort.source_class"
  const ATTR_DISCOVERED_BY := "depsnort.discovered_by"
  const ATTR_FRONTIER := "depsnort.walk_frontier"
  const ATTR_SUBTREE_UNREAD := "depsnort.subtree_unread"
  const ATTR_ASSERTED_BY := "depsnort.asserted_by"

  const TRUTH_OBSERVED := "observed"
  const TRUTH_PRESUMED := "presumed"
  const TRUTH_ASSERTED := "asserted"
  const TRUTH_CONTESTED := "contested"

  const SOURCE_REGISTRY := "registry"
  const SOURCE_UNKNOWN := "unknown"
}
