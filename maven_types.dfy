/**
 * The values a Maven POM resolution works on: coordinates, dependencies, managed
 * dependencies, repositories, profiles and raw POMs, plus the collaborators the
 * resolver calls but does not own (the downloader, the placeholder helper, the
 * scope algebra, glob matching and version requirements), gathered in `Env`.
 */
module MavenTypes {
  import opened Wrappers

  /** GroupArtifactVersion: coordinates as declared, possibly holding `${...}` placeholders. */
  datatype Gav = Gav(groupId: Option<string>, artifactId: string, version: Option<string>)

  /** GroupArtifact: the key of a version requirement, and the shape of an exclusion. */
  datatype GroupArtifact = GroupArtifact(groupId: Option<string>, artifactId: string)

  /** ResolvedGroupArtifactVersion: the coordinates a downloaded POM carries; only the
   *  repository and the dated snapshot version may be absent. */
  datatype ResolvedGav = ResolvedGav(
    repository: Option<string>,
    groupId: string,
    artifactId: string,
    version: string,
    datedSnapshotVersion: Option<string>)

  /** The Scope enumeration; `NoScope` is the constant Java calls `None`. */
  datatype Scope = NoScope | Compile | Provided | Runtime | Test | System | Import | Invalid

  /** `scope.toString().toLowerCase()` of the Java enumeration. */
  function ScopeName(s: Scope): (r: string)
    ensures |r| > 0
  {
    match s
    case NoScope => "none"
    case Compile => "compile"
    case Provided => "provided"
    case Runtime => "runtime"
    case Test => "test"
    case System => "system"
    case Import => "import"
    case Invalid => "invalid"
  }

  /** A requested dependency, each field possibly holding placeholders. */
  datatype Dependency = Dependency(
    gav: Gav,
    classifier: Option<string>,
    type_: Option<string>,
    scope: Option<string>,
    exclusions: Option<seq<GroupArtifact>>,
    optional: Option<string>)

  /** A dependency-management entry: declared outright, or a BOM to import. */
  datatype ManagedDependency =
    | Defined(gav: Gav, scope: Option<string>, type_: Option<string>, classifier: Option<string>,
              exclusions: Option<seq<GroupArtifact>>)
    | Imported(gav: Gav)

  /** A management entry after substitution, with the import that brought it in, if any. */
  datatype ResolvedManagedDependency = ResolvedManagedDependency(
    gav: Gav,
    scope: Scope,
    type_: Option<string>,
    classifier: Option<string>,
    exclusions: Option<seq<GroupArtifact>>,
    requested: ManagedDependency,
    requestedBom: Option<ManagedDependency>,
    bomGav: Option<ResolvedGav>)

  datatype MavenRepository = MavenRepository(
    id: Option<string>,
    uri: Option<string>,
    releases: Option<string>,
    snapshots: Option<string>,
    knownToExist: bool,
    username: Option<string>,
    password: Option<string>,
    deriveMetadataIfMissing: Option<bool>)

  datatype Profile = Profile(
    id: Option<string>,
    properties: map<string, string>,
    repositories: seq<MavenRepository>,
    dependencyManagement: seq<ManagedDependency>,
    dependencies: seq<Dependency>)

  datatype Parent = Parent(gav: Gav, relativePath: Option<string>)

  /** A POM as parsed: immutable, owned by the parser. */
  datatype Pom = Pom(
    gav: ResolvedGav,
    parent: Option<Parent>,
    properties: map<string, string>,
    profiles: seq<Profile>,
    repositories: seq<MavenRepository>,
    dependencyManagement: seq<ManagedDependency>,
    dependencies: seq<Dependency>,
    packaging: Option<string>,
    licenses: seq<string>,
    repository: Option<MavenRepository>)

  /**
   * ResolvedDependency: one node of the resolved graph. Its children and effective
   * exclusions, which the source fills in after construction, live beside the nodes
   * in an arena (see DependencyGraph), indexed like the flat output list.
   */
  datatype ResolvedDependency = ResolvedDependency(
    repository: Option<MavenRepository>,
    gav: ResolvedGav,
    requested: Dependency,
    licenses: seq<string>,
    type_: Option<string>,
    classifier: Option<string>,
    optional: bool,
    depth: nat)

  /** What VersionRequirement keeps internally is not part of this model. */
  type VersionRequirement

  /** The collaborators of the resolver, none of which it defines itself. */
  datatype Env = Env(
    // System.getProperty: the JVM's system properties
    systemProperties: map<string, string>,
    // MavenPomDownloader.download, as the finite set of POMs the repositories hold
    poms: map<Gav, Pom>,
    // PropertyPlaceholderHelper.replacePlaceholders(value, lookup)
    replacePlaceholders: (string, string -> Option<string>) -> string,
    // Profile.isActive(activeProfiles)
    isActive: (Profile, seq<string>) -> bool,
    // Scope.fromName
    scopeFromName: Option<string> -> Scope,
    // Scope.isInClasspathOf: is the first scope on the classpath of the second
    isInClasspathOf: (Scope, Scope) -> bool,
    // StringUtils.matchesGlob(value, glob)
    matchesGlob: (Option<string>, Option<string>) -> bool,
    // ResolvedManagedDependency.matches(groupId, artifactId, type, classifier)
    managedMatches: (ResolvedManagedDependency, Option<string>, Option<string>, Option<string>, Option<string>) -> bool,
    // VersionRequirement.fromVersion(version, depth)
    fromVersion: (string, nat) -> VersionRequirement,
    // VersionRequirement.addRequirement(version)
    addRequirement: (VersionRequirement, string) -> VersionRequirement,
    // VersionRequirement.resolve(ga, downloader, repositories)
    resolveRequirement: (GroupArtifact, VersionRequirement, seq<MavenRepository>) -> Option<string>,
    // how deeply BOM imports may nest before the call stack is exhausted
    importDepth: nat)

  datatype ErrorKind =
    | NoVersionProvided
    | UnresolvableVersion(ga: GroupArtifact)
    | UnresolvedProperty
    | DownloadFailed
    | ImportTooDeep

  /** MavenDownloadingException: what failed, for which coordinates, and the root dependent. */
  datatype MavenError = MavenError(kind: ErrorKind, gav: Gav, root: Option<Gav>)

  /** MavenPomDownloader.download: the POM stored under the coordinates, or a download failure. */
  function Download(env: Env, gav: Gav): (r: Result<Pom, MavenError>)
    ensures r.Success? <==> gav in env.poms
    ensures r.Success? ==> r.value == env.poms[gav] && r.value.gav in Universe(env)
    ensures r.Failure? ==> r.error == MavenError(DownloadFailed, gav, None)
  {
    if gav in env.poms then Success(env.poms[gav]) else Failure(MavenError(DownloadFailed, gav, None))
  }

  /** The coordinates of every POM the downloader can return. */
  function Universe(env: Env): set<ResolvedGav> {
    set p | p in env.poms.Values :: p.gav
  }

  /** The coordinates of the POMs on an ancestry list. */
  function AncestryGavs(ancestry: seq<Pom>): (r: set<ResolvedGav>)
    ensures forall i :: 0 <= i < |ancestry| ==> ancestry[i].gav in r
  {
    set p | p in ancestry :: p.gav
  }

  /** Adding a POM of the universe that is not yet an ancestor shrinks what is left to visit. */
  lemma AncestryGrows(env: Env, ancestry: seq<Pom>, parent: Pom)
    requires parent.gav in Universe(env) && parent.gav !in AncestryGavs(ancestry)
    ensures |Universe(env) - AncestryGavs([parent] + ancestry)| < |Universe(env) - AncestryGavs(ancestry)|
  {
    assert AncestryGavs([parent] + ancestry) == AncestryGavs(ancestry) + {parent.gav};
    assert Universe(env) - AncestryGavs([parent] + ancestry)
        == (Universe(env) - AncestryGavs(ancestry)) - {parent.gav};
  }
}
