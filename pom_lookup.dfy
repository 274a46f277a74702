/**
 * Read-only queries on a resolved POM: property lookup, `${...}` substitution,
 * management lookups (first matching entry wins) and the two-stage override of
 * a dependency's coordinates, scope and exclusions.
 */
module PomLookup {
  import opened Wrappers
  import opened MavenTypes

  /** The fields of a ResolvedPom: the requested POM, the active profile names and what the resolver merged. */
  datatype PomState = PomState(
    requested: Pom,
    activeProfiles: seq<string>,
    properties: map<string, string>,
    dependencyManagement: seq<ResolvedManagedDependency>,
    initialRepositories: Option<seq<MavenRepository>>,
    repositories: seq<MavenRepository>,
    requestedDependencies: seq<Dependency>)

  /** `new ResolvedPom(requested, activeProfiles, emptyMap(), emptyList(), initialRepositories, emptyList(), emptyList())` */
  function Unresolved(requested: Pom, activeProfiles: seq<string>,
                      initialRepositories: Option<seq<MavenRepository>>): PomState
  {
    PomState(requested, activeProfiles, map[], [], initialRepositories, [], [])
  }

  /** Everything a property lookup reads: the requested POM, the merged properties, the system properties. */
  datatype PropertySource = PropertySource(requested: Pom, declared: map<string, string>, system: map<string, string>)

  function Source(st: PomState, env: Env): PropertySource {
    PropertySource(st.requested, st.properties, env.systemProperties)
  }

  const GroupIdNames: set<string> := {"groupId", "project.groupId", "pom.groupId"}
  const ArtifactIdNames: set<string> := {"artifactId", "project.artifactId", "pom.artifactId"}
  const VersionNames: set<string> := {"version", "project.version", "pom.version"}
  const ParentNames: set<string> := {"project.parent.groupId", "project.parent.artifactId", "project.parent.version"}

  /** The names the lookup answers from the requested POM's own coordinates. */
  predicate IsReserved(name: string) {
    name in GroupIdNames || name in ArtifactIdNames || name in VersionNames || name in ParentNames
  }

  /**
   * getProperty: reserved coordinate names come from the requested POM (the parent's
   * ones are absent without a parent); any other name takes the system property
   * first and the merged property second.
   */
  function GetProperty(src: PropertySource, name: string): (r: Option<string>)
    ensures name in GroupIdNames ==> r == Some(src.requested.gav.groupId)
    ensures name in ArtifactIdNames ==> r == Some(src.requested.gav.artifactId)
    ensures name in VersionNames ==> r == Some(src.requested.gav.version)
    ensures name in ParentNames && src.requested.parent.None? ==> r.None?
    ensures name == "project.parent.groupId" && src.requested.parent.Some? ==> r == src.requested.parent.value.gav.groupId
    ensures name == "project.parent.artifactId" && src.requested.parent.Some?
            ==> r == Some(src.requested.parent.value.gav.artifactId)
    ensures name == "project.parent.version" && src.requested.parent.Some? ==> r == src.requested.parent.value.gav.version
    ensures !IsReserved(name) && name in src.system ==> r == Some(src.system[name])
    ensures !IsReserved(name) && name !in src.system && name in src.declared ==> r == Some(src.declared[name])
    ensures !IsReserved(name) && name !in src.system && name !in src.declared ==> r.None?
  {
    var pom := src.requested;
    if name in GroupIdNames then Some(pom.gav.groupId)
    else if name == "project.parent.groupId" then
      (if pom.parent.Some? then pom.parent.value.gav.groupId else None)
    else if name in ArtifactIdNames then Some(pom.gav.artifactId)
    else if name == "project.parent.artifactId" then
      (if pom.parent.None? then None else Some(pom.parent.value.gav.artifactId))
    else if name in VersionNames then Some(pom.gav.version)
    else if name == "project.parent.version" then
      (if pom.parent.Some? then pom.parent.value.gav.version else None)
    else if name in src.system then Some(src.system[name])
    else if name in src.declared then Some(src.declared[name])
    else None
  }

  /** Neither the merged properties nor the system properties can override a reserved name. */
  lemma ReservedNamesIgnoreProperties(src: PropertySource, name: string,
                                      declared: map<string, string>, system: map<string, string>)
    requires IsReserved(name)
    ensures GetProperty(src.(declared := declared, system := system), name) == GetProperty(src, name)
  {
  }

  /** The lookup PropertyPlaceholderHelper is given: `this::getProperty`. */
  function Lookup(src: PropertySource): string -> Option<string> {
    name => GetProperty(src, name)
  }

  /** getValue on a value known to be present. */
  function Substitute(st: PomState, env: Env, s: string): string {
    env.replacePlaceholders(s, Lookup(Source(st, env)))
  }

  /** getValue: an absent value stays absent, a present one has its placeholders replaced. */
  function GetValue(st: PomState, env: Env, v: Option<string>): (r: Option<string>)
    ensures r.Some? <==> v.Some?
    ensures v.Some? ==> r.value == Substitute(st, env, v.value)
  {
    match v
    case None => None
    case Some(s) => Some(Substitute(st, env, s))
  }

  /** Substitution reads only the requested POM and the merged properties of a state. */
  lemma SubstitutionReadsProperties(st1: PomState, st2: PomState, env: Env, v: Option<string>)
    requires st1.requested == st2.requested && st1.properties == st2.properties
    ensures GetValue(st1, env, v) == GetValue(st2, env, v)
  {
  }

  /** getValues(GroupArtifactVersion) */
  function GetValuesGav(st: PomState, env: Env, gav: Gav): (r: Gav)
    ensures r.groupId.Some? <==> gav.groupId.Some?
    ensures r.version.Some? <==> gav.version.Some?
    ensures r.artifactId == Substitute(st, env, gav.artifactId)
  {
    Gav(GetValue(st, env, gav.groupId), Substitute(st, env, gav.artifactId), GetValue(st, env, gav.version))
  }

  /** getValues(GroupArtifact) */
  function GetValuesGa(st: PomState, env: Env, ga: GroupArtifact): (r: GroupArtifact)
    ensures r.groupId.Some? <==> ga.groupId.Some?
    ensures r.artifactId == Substitute(st, env, ga.artifactId)
  {
    GroupArtifact(GetValue(st, env, ga.groupId), Substitute(st, env, ga.artifactId))
  }

  /** The four arguments of a management lookup: group, artifact, type and classifier. */
  datatype ManagedKey = ManagedKey(groupId: Option<string>, artifactId: Option<string>,
                                   type_: Option<string>, classifier: Option<string>)

  predicate Matches(env: Env, dm: ResolvedManagedDependency, key: ManagedKey) {
    env.managedMatches(dm, key.groupId, key.artifactId, key.type_, key.classifier)
  }

  /** The index of the first management entry matching `key`, or `|dms|` when none does. */
  function FirstMatch(env: Env, dms: seq<ResolvedManagedDependency>, key: ManagedKey): (i: nat)
    ensures i <= |dms|
    ensures i < |dms| ==> Matches(env, dms[i], key)
    ensures forall j :: 0 <= j < i ==> !Matches(env, dms[j], key)
    decreases |dms|
  {
    if |dms| == 0 then 0
    else if Matches(env, dms[0], key) then 0
    else 1 + FirstMatch(env, dms[1..], key)
  }

  /** The entry a management lookup answers from, if any. */
  function Managed(st: PomState, env: Env, key: ManagedKey): (r: Option<ResolvedManagedDependency>)
    ensures r.Some? ==> r.value in st.dependencyManagement && Matches(env, r.value, key)
    ensures r.None? ==> forall j :: 0 <= j < |st.dependencyManagement| ==> !Matches(env, st.dependencyManagement[j], key)
  {
    var i := FirstMatch(env, st.dependencyManagement, key);
    if i < |st.dependencyManagement| then Some(st.dependencyManagement[i]) else None
  }

  /** The managed version, substituted in this POM, of the first matching entry. */
  function ManagedVersion(st: PomState, env: Env, key: ManagedKey): Option<string> {
    match Managed(st, env, key)
    case None => None
    case Some(dm) => GetValue(st, env, dm.gav.version)
  }

  /** The exclusions of the first matching entry; none when no entry matches or it declares none. */
  function ManagedExclusions(st: PomState, env: Env, key: ManagedKey): seq<GroupArtifact> {
    match Managed(st, env, key)
    case None => []
    case Some(dm) => dm.exclusions.GetOr([])
  }

  /** The scope of the first matching entry. */
  function ManagedScope(st: PomState, env: Env, key: ManagedKey): Option<Scope> {
    match Managed(st, env, key)
    case None => None
    case Some(dm) => Some(dm.scope)
  }

  /** The loop shared by the three getManaged* lookups: the first matching entry. */
  method FindManaged(st: PomState, env: Env, key: ManagedKey) returns (found: Option<ResolvedManagedDependency>)
    ensures found == Managed(st, env, key)
  {
    var dms := st.dependencyManagement;
    var i := 0;
    while i < |dms|
      invariant 0 <= i <= |dms|
      invariant forall j :: 0 <= j < i ==> !Matches(env, dms[j], key)
    {
      if Matches(env, dms[i], key) {
        assert FirstMatch(env, dms, key) == i;
        return Some(dms[i]);
      }
      i := i + 1;
    }
    return None;
  }

  /** getManagedVersion */
  method GetManagedVersion(st: PomState, env: Env, key: ManagedKey) returns (v: Option<string>)
    ensures v == ManagedVersion(st, env, key)
    ensures v.Some? ==> exists j :: 0 <= j < |st.dependencyManagement| && Matches(env, st.dependencyManagement[j], key)
  {
    var found := FindManaged(st, env, key);
    v := if found.Some? then GetValue(st, env, found.value.gav.version) else None;
  }

  /** getManagedExclusions */
  method GetManagedExclusions(st: PomState, env: Env, key: ManagedKey) returns (ex: seq<GroupArtifact>)
    ensures ex == ManagedExclusions(st, env, key)
    ensures (forall j :: 0 <= j < |st.dependencyManagement| ==> !Matches(env, st.dependencyManagement[j], key)) ==> ex == []
  {
    var found := FindManaged(st, env, key);
    ex := if found.Some? then found.value.exclusions.GetOr([]) else [];
  }

  /** getManagedScope */
  method GetManagedScope(st: PomState, env: Env, key: ManagedKey) returns (s: Option<Scope>)
    ensures s == ManagedScope(st, env, key)
    ensures s.Some? ==> exists j :: 0 <= j < |st.dependencyManagement| && Matches(env, st.dependencyManagement[j], key)
                                    && st.dependencyManagement[j].scope == s.value
  {
    var found := FindManaged(st, env, key);
    s := if found.Some? then Some(found.value.scope) else None;
  }

  /** The dependency with its coordinates and scope substituted, before any management applies. */
  function Declared(st: PomState, env: Env, dep: Dependency): Dependency {
    dep.(gav := GetValuesGav(st, env, dep.gav), scope := GetValue(st, env, dep.scope))
  }

  /** The management key getValues(Dependency, int) looks up: the raw type and classifier. */
  function KeyOf(d: Dependency): ManagedKey {
    ManagedKey(d.gav.groupId, Some(d.gav.artifactId), d.type_, d.classifier)
  }

  /**
   * getValues(Dependency, int): the dependency as this POM sees it at the given depth.
   * Management supplies the version when none is declared or the dependency is
   * transitive, the scope only when none is declared, and appends its exclusions.
   */
  function ValuesOf(st: PomState, env: Env, dep: Dependency, depth: nat): (r: Dependency)
    ensures Declared(st, env, dep).gav.groupId.None? ==> r == Declared(st, env, dep)
    ensures var d := Declared(st, env, dep); var key := KeyOf(d);
      d.gav.groupId.Some? ==>
        && r.gav.groupId == d.gav.groupId
        && r.gav.artifactId == d.gav.artifactId
        && (d.gav.version.Some? && depth == 0 ==> r.gav.version == d.gav.version)
        && ((d.gav.version.None? || depth > 0) && ManagedVersion(st, env, key).Some? ==>
              r.gav.version == ManagedVersion(st, env, key))
        && (ManagedVersion(st, env, key).None? ==> r.gav.version == d.gav.version)
        && (d.scope.Some? ==> r.scope == GetValue(st, env, d.scope))
        && (d.scope.None? ==> r.scope == (if ManagedScope(st, env, key).Some?
                                          then Some(ScopeName(ManagedScope(st, env, key).value)) else None))
        && (ManagedExclusions(st, env, key) == [] ==> r.exclusions == d.exclusions)
        && (ManagedExclusions(st, env, key) != [] ==>
              r.exclusions == Some(d.exclusions.GetOr([]) + ManagedExclusions(st, env, key)))
        && r.classifier == GetValue(st, env, d.classifier)
        && r.type_ == GetValue(st, env, d.type_)
        && r.optional == dep.optional
  {
    var d := Declared(st, env, dep);
    if d.gav.groupId.None? then d
    else
      var key := KeyOf(d);
      var managedVersion := ManagedVersion(st, env, key);
      var version :=
        if (d.gav.version.None? || depth > 0) && managedVersion.Some? then managedVersion else d.gav.version;
      var managedScope := ManagedScope(st, env, key);
      var scope :=
        if d.scope.None? then (if managedScope.Some? then Some(ScopeName(managedScope.value)) else None)
        else GetValue(st, env, d.scope);
      var managedExclusions := ManagedExclusions(st, env, key);
      var exclusions :=
        if managedExclusions == [] then d.exclusions else Some(d.exclusions.GetOr([]) + managedExclusions);
      Dependency(Gav(d.gav.groupId, d.gav.artifactId, version), GetValue(st, env, d.classifier),
                 GetValue(st, env, d.type_), scope, exclusions, d.optional)
  }

  /** getValues(Dependency, int), with the three lookups as loops. */
  method GetValuesDependency(st: PomState, env: Env, dep: Dependency, depth: nat) returns (d: Dependency)
    ensures d == ValuesOf(st, env, dep, depth)
  {
    d := Declared(st, env, dep);
    if d.gav.groupId.None? {
      return;
    }
    var key := KeyOf(d);
    var version := d.gav.version;
    if d.gav.version.None? || depth > 0 {
      version := GetManagedVersion(st, env, key);
      if version.None? {
        version := d.gav.version;
      }
    }
    var scope: Option<string>;
    if d.scope.None? {
      var parsedScope := GetManagedScope(st, env, key);
      scope := if parsedScope.None? then None else Some(ScopeName(parsedScope.value));
    } else {
      scope := GetValue(st, env, d.scope);
    }
    var managedExclusions := GetManagedExclusions(st, env, key);
    if managedExclusions != [] {
      d := d.(exclusions := Some(d.exclusions.GetOr([]) + managedExclusions));
    }
    if d.classifier.Some? {
      d := d.(classifier := GetValue(st, env, d.classifier));
    }
    if d.type_.Some? {
      d := d.(type_ := GetValue(st, env, d.type_));
    }
    d := d.(gav := d.gav.(version := version), scope := scope);
  }

  /** The management key getDependencyScope looks up: every field substituted in the project POM. */
  function ScopeKey(top: PomState, env: Env, d2: Dependency): ManagedKey {
    ManagedKey(GetValue(top, env, d2.gav.groupId), Some(Substitute(top, env, d2.gav.artifactId)),
               GetValue(top, env, d2.type_), GetValue(top, env, d2.classifier))
  }

  /** The scope the containing POM gives `d2`: its declared scope, else its management's, else compile. */
  function ContainingScope(top: PomState, containing: PomState, env: Env, d2: Dependency): Scope {
    if d2.scope.Some? then env.scopeFromName(GetValue(top, env, d2.scope))
    else ManagedScope(containing, env, ScopeKey(top, env, d2)).GetOr(Compile)
  }

  /** The scope the project's own management gives `d2`, compile by default. */
  function ProjectScope(top: PomState, env: Env, d2: Dependency): Scope {
    ManagedScope(top, env, ScopeKey(top, env, d2)).GetOr(Compile)
  }

  /**
   * getDependencyScope: the project's management may override the scope only of a
   * dependency that is on the classpath of that project scope; otherwise the
   * containing POM's scope stands.
   */
  function DependencyScope(top: PomState, containing: PomState, env: Env, d2: Dependency): (r: Scope)
    ensures env.isInClasspathOf(ContainingScope(top, containing, env, d2), ProjectScope(top, env, d2))
            ==> r == ProjectScope(top, env, d2)
    ensures !env.isInClasspathOf(ContainingScope(top, containing, env, d2), ProjectScope(top, env, d2))
            ==> r == ContainingScope(top, containing, env, d2)
    ensures (d2.scope.None? && ManagedScope(containing, env, ScopeKey(top, env, d2)).None?
             && ManagedScope(top, env, ScopeKey(top, env, d2)).None?) ==> r == Compile
  {
    var inContaining := ContainingScope(top, containing, env, d2);
    var inProject := ProjectScope(top, env, d2);
    if env.isInClasspathOf(inContaining, inProject) then inProject else inContaining
  }

  /** getDependencyScope, with the two lookups as loops. */
  method GetDependencyScope(top: PomState, containing: PomState, env: Env, d2: Dependency) returns (s: Scope)
    ensures s == DependencyScope(top, containing, env, d2)
  {
    var key := ScopeKey(top, env, d2);
    var scopeInContainingPom: Scope;
    if d2.scope.Some? {
      scopeInContainingPom := env.scopeFromName(GetValue(top, env, d2.scope));
    } else {
      var managed := GetManagedScope(containing, env, key);
      scopeInContainingPom := if managed.None? then Compile else managed.value;
    }
    var managedHere := GetManagedScope(top, env, key);
    var scopeInThisProject := if managedHere.None? then Compile else managedHere.value;
    s := if env.isInClasspathOf(scopeInContainingPom, scopeInThisProject) then scopeInThisProject
         else scopeInContainingPom;
  }

  /** Does a resolved node have this group, artifact and classifier? */
  predicate SameArtifact(node: ResolvedDependency, ga: GroupArtifact, classifier: Option<string>) {
    Some(node.gav.groupId) == ga.groupId && node.gav.artifactId == ga.artifactId && node.classifier == classifier
  }

  /** contains: has a node for this group, artifact and classifier already been resolved? */
  method Contains(nodes: seq<ResolvedDependency>, ga: GroupArtifact, classifier: Option<string>) returns (b: bool)
    ensures b <==> exists i :: 0 <= i < |nodes| && SameArtifact(nodes[i], ga, classifier)
  {
    var i := 0;
    while i < |nodes|
      invariant 0 <= i <= |nodes|
      invariant forall j :: 0 <= j < i ==> !SameArtifact(nodes[j], ga, classifier)
    {
      if SameArtifact(nodes[i], ga, classifier) {
        return true;
      }
      i := i + 1;
    }
    return false;
  }
}
