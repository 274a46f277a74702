/**
 * The breadth-first walk of resolveDependencies, one frontier entry at a time, as
 * functions: what the project makes of an entry (skip it, restart the walk, give
 * up, record an error or add a node), and which of the new node's own dependencies
 * join the next frontier. The arena of nodes, child lists and effective exclusions
 * that the walk builds is described here by the shape it keeps.
 */
module DependencyGraph {
  import opened Wrappers
  import opened MavenTypes
  import opened PomLookup
  import opened ParentChain

  // ---------------------------------------------------------------------------
  // String helpers of the JDK the walk relies on
  // ---------------------------------------------------------------------------

  /** `s.startsWith("${") && s.endsWith("}")` */
  predicate LooksLikePlaceholder(s: string) {
    |s| >= 2 && s[..2] == "${" && s[|s| - 1] == '}'
  }

  /** A coordinate that is still an unreplaced placeholder after both rounds of substitution. */
  predicate HasPlaceholder(gav: Gav) {
    || (gav.groupId.Some? && LooksLikePlaceholder(gav.groupId.value))
    || LooksLikePlaceholder(gav.artifactId)
    || (gav.version.Some? && LooksLikePlaceholder(gav.version.value))
  }

  /** `"true".equalsIgnoreCase(s)` */
  predicate IsTrueIgnoringCase(s: string) {
    && |s| == 4
    && (s[0] == 't' || s[0] == 'T')
    && (s[1] == 'r' || s[1] == 'R')
    && (s[2] == 'u' || s[2] == 'U')
    && (s[3] == 'e' || s[3] == 'E')
  }

  /** Boolean.valueOf(String): only a case-insensitive "true" is true; null is false. */
  function ValueOfBoolean(s: Option<string>): (b: bool)
    ensures b ==> s.Some? && |s.value| == 4
    ensures s == Some("true") || s == Some("TRUE") ==> b
    ensures s.None? ==> !b
    ensures b <==> s.Some? && IsTrueIgnoringCase(s.value)
  {
    s.Some? && IsTrueIgnoringCase(s.value)
  }

  /** String.trim, leading half: drop every character up to and including the space. */
  function TrimStart(s: string): (r: string)
    ensures |r| <= |s| && r == s[|s| - |r|..]
    ensures |r| > 0 ==> r[0] > ' '
    ensures forall k :: 0 <= k < |s| - |r| ==> s[k] <= ' '
    decreases |s|
  {
    if |s| > 0 && s[0] <= ' ' then TrimStart(s[1..]) else s
  }

  /** String.trim, trailing half. */
  function TrimEnd(s: string): (r: string)
    ensures |r| <= |s| && r == s[..|r|]
    ensures |r| > 0 ==> r[|r| - 1] > ' '
    ensures forall k :: |r| <= k < |s| ==> s[k] <= ' '
    decreases |s|
  {
    if |s| > 0 && s[|s| - 1] <= ' ' then TrimEnd(s[..|s| - 1]) else s
  }

  /** String.trim: the slice of `s` left after dropping control characters and spaces at both ends. */
  function Trim(s: string): (r: string)
    ensures |r| <= |s|
    ensures |r| > 0 ==> r[0] > ' ' && r[|r| - 1] > ' '
  {
    TrimEnd(TrimStart(s))
  }

  /** The trimmed string is the slice `s[i..j]`, and everything outside it is at most a space. */
  lemma TrimSlice(s: string) returns (i: nat, j: nat)
    ensures i <= j <= |s| && Trim(s) == s[i..j]
    ensures forall k :: 0 <= k < i ==> s[k] <= ' '
    ensures forall k :: j <= k < |s| ==> s[k] <= ' '
  {
    var t := TrimStart(s);
    var r := TrimEnd(t);
    i := |s| - |t|;
    j := i + |r|;
    SliceOfSlice(s, i, |r|);
    forall k | j <= k < |s|
      ensures s[k] <= ' '
    {
      assert s[k] == t[k - i];
    }
  }

  /** A prefix of a suffix is a slice. */
  lemma SliceOfSlice<T>(s: seq<T>, i: nat, n: nat)
    requires i + n <= |s|
    ensures s[i..][..n] == s[i..i + n]
  {
  }

  // ---------------------------------------------------------------------------
  // Frontier entries and what the walk makes of one
  // ---------------------------------------------------------------------------

  /**
   * DependencyAndDependent: a dependency waiting on the frontier, the scope it is
   * reached in, the arena index of the node that pulled it in (none at depth 0),
   * the project dependency it descends from and the POM that declared it.
   */
  datatype Pending = Pending(
    dependency: Dependency,
    scope: Scope,
    dependent: Option<nat>,
    rootDependent: Dependency,
    definedIn: PomState)

  /** What one frontier entry comes to. */
  datatype Step =
    | Skip
      // the requirement changed the chosen version: start the walk over
    | Restart
      // MavenParsingException: no version satisfies the requirement; it is not caught by the walk
    | Abort(ga: GroupArtifact)
      // MavenDownloadingException: recorded, the walk goes on
    | Fail(error: MavenError)
    | Added(node: ResolvedDependency, d: Dependency, resolvedPom: PomState)

  datatype Processed = Processed(step: Step, requirements: map<GroupArtifact, VersionRequirement>)

  /** The GroupArtifact a dependency is tracked under. */
  function GaOf(d: Dependency): GroupArtifact {
    GroupArtifact(d.gav.groupId, d.gav.artifactId)
  }

  /** The dependency as the POM that declared it sees it, then as the project sees it. */
  function Fetched(top: PomState, env: Env, item: Pending, depth: nat): Dependency {
    ValuesOf(top, env, ValuesOf(item.definedIn, env, item.dependency, depth), depth)
  }

  predicate IgnoredType(d: Dependency) {
    d.type_.Some? && d.type_.value != "jar" && d.type_.value != "pom"
  }

  /** Has the walk already made a node for this artifact and classifier? */
  predicate AlreadyResolved(nodes: seq<ResolvedDependency>, ga: GroupArtifact, classifier: Option<string>) {
    exists i :: 0 <= i < |nodes| && SameArtifact(nodes[i], ga, classifier)
  }

  /** The node for a dependency whose version is settled: its POM downloaded and its parents resolved. */
  function Visit(top: PomState, env: Env, item: Pending, depth: nat, d: Dependency): (s: Step)
    ensures HasPlaceholder(d.gav) ==> s == Fail(MavenError(UnresolvedProperty, d.gav, None))
    ensures !HasPlaceholder(d.gav) && d.gav !in env.poms ==> s == Fail(MavenError(DownloadFailed, d.gav, None))
    ensures s.Added? ==> && !HasPlaceholder(d.gav) && d.gav in env.poms && s.d == d
                          && s.node.depth == depth && s.node.requested == item.dependency
                          && s.node.gav == s.resolvedPom.requested.gav
                          && s.node.repository == env.poms[d.gav].repository
    ensures s.Fail? || s.Added?
  {
    if HasPlaceholder(d.gav) then Fail(MavenError(UnresolvedProperty, d.gav, None))
    else
      match Download(env, d.gav)
      case Failure(e) => Fail(e)
      case Success(dPom) =>
        var o := ResolveParents(Unresolved(dPom, top.activeProfiles, top.initialRepositories), env, dPom, env.importDepth);
        if o.err.Some? then Fail(o.err.value)
        else
          var rp := o.st;
          var dep := item.dependency;
          Added(ResolvedDependency(dPom.repository, rp.requested.gav, dep, rp.requested.licenses,
                                   GetValue(rp, env, dep.type_), GetValue(rp, env, dep.classifier),
                                   ValueOfBoolean(GetValue(rp, env, dep.optional)), depth),
                d, rp)
  }

  /**
   * One entry of the walk at `depth`: fetch the dependency, record its version
   * requirement, settle its version, then visit it.
   */
  function ProcessStep(top: PomState, env: Env, item: Pending, depth: nat,
                       reqs: map<GroupArtifact, VersionRequirement>, nodes: seq<ResolvedDependency>): Processed
  {
    var d := Fetched(top, env, item, depth);
    if d.gav.version.None? then
      Processed(Fail(MavenError(NoVersionProvided, item.dependency.gav, None)), reqs)
    else if IgnoredType(d) then Processed(Skip, reqs)
    else Settle(top, env, item, depth, reqs, nodes, d)
  }

  /**
   * Record the requirement of a dependency that has a version and a type the walk
   * follows, settle the version it resolves to, then visit it unless the walk must
   * restart, give up or has seen it already.
   */
  function Settle(top: PomState, env: Env, item: Pending, depth: nat, reqs: map<GroupArtifact, VersionRequirement>,
                  nodes: seq<ResolvedDependency>, d: Dependency): Processed
    requires d.gav.version.Some?
  {
    var ga := GaOf(d);
    if ga !in reqs then
      var newRequirement := env.fromVersion(d.gav.version.value, depth);
      var reqs' := reqs[ga := newRequirement];
      match env.resolveRequirement(ga, newRequirement, top.repositories)
      case None => Processed(Abort(ga), reqs')
      case Some(v) => Processed(Visit(top, env, item, depth, d.(gav := d.gav.(version := Some(v)))), reqs')
    else
      var existing := reqs[ga];
      var newRequirement := env.addRequirement(existing, d.gav.version.value);
      var reqs' := reqs[ga := newRequirement];
      var existingVersion := env.resolveRequirement(ga, existing, top.repositories);
      match env.resolveRequirement(ga, newRequirement, top.repositories)
      case None => Processed(Abort(ga), reqs')
      case Some(v) =>
        var d' := d.(gav := d.gav.(version := Some(v)));
        if existingVersion != Some(v) then Processed(Restart, reqs')
        else if AlreadyResolved(nodes, ga, d'.classifier) then Processed(Skip, reqs')
        else Processed(Visit(top, env, item, depth, d'), reqs')
  }

  /** Settling records exactly the requirement of this artifact: added when new, refined when known. */
  lemma SettleRequirements(top: PomState, env: Env, item: Pending, depth: nat,
                           reqs: map<GroupArtifact, VersionRequirement>, nodes: seq<ResolvedDependency>, d: Dependency)
    requires d.gav.version.Some?
    ensures var r := Settle(top, env, item, depth, reqs, nodes, d); var ga := GaOf(d);
            && r.requirements.Keys == reqs.Keys + {ga}
            && (forall g :: g in reqs && g != ga ==> r.requirements[g] == reqs[g])
            && r.requirements[ga] == (if ga in reqs then env.addRequirement(reqs[ga], d.gav.version.value)
                                      else env.fromVersion(d.gav.version.value, depth))
  {
  }

  /** Settling restarts exactly when refining a known requirement changes its resolved version, and gives up exactly when nothing resolves. */
  lemma SettleRestartAbort(top: PomState, env: Env, item: Pending, depth: nat,
                           reqs: map<GroupArtifact, VersionRequirement>, nodes: seq<ResolvedDependency>, d: Dependency)
    requires d.gav.version.Some?
    ensures var r := Settle(top, env, item, depth, reqs, nodes, d); var ga := GaOf(d);
            && ga in r.requirements
            && (r.step.Restart? <==>
                  && ga in reqs
                  && env.resolveRequirement(ga, r.requirements[ga], top.repositories).Some?
                  && env.resolveRequirement(ga, reqs[ga], top.repositories)
                     != env.resolveRequirement(ga, r.requirements[ga], top.repositories))
            && (r.step.Abort? <==> env.resolveRequirement(ga, r.requirements[ga], top.repositories).None?)
            && (r.step.Abort? ==> r.step.ga == ga)
  {
  }

  /** A node settled for an entry carries the resolved version and is not a repeat. */
  lemma SettleAdded(top: PomState, env: Env, item: Pending, depth: nat,
                    reqs: map<GroupArtifact, VersionRequirement>, nodes: seq<ResolvedDependency>, d: Dependency)
    requires d.gav.version.Some?
    ensures var r := Settle(top, env, item, depth, reqs, nodes, d); var ga := GaOf(d);
            r.step.Added? ==>
              && GaOf(r.step.d) == ga && ga in r.requirements
              && r.step.d.gav.version == env.resolveRequirement(ga, r.requirements[ga], top.repositories)
              && r.step.d == d.(gav := d.gav.(version := r.step.d.gav.version))
              && r.step.node.depth == depth && r.step.node.requested == item.dependency
              && !HasPlaceholder(r.step.d.gav)
              && (ga in reqs ==> !AlreadyResolved(nodes, ga, d.classifier))
  {
  }

  /** What one frontier entry can come to, case by case. */
  lemma ProcessStepCases(top: PomState, env: Env, item: Pending, depth: nat,
                         reqs: map<GroupArtifact, VersionRequirement>, nodes: seq<ResolvedDependency>)
    // no version at all: an error about the dependency as it was declared
    ensures Fetched(top, env, item, depth).gav.version.None? ==>
              ProcessStep(top, env, item, depth, reqs, nodes)
              == Processed(Fail(MavenError(NoVersionProvided, item.dependency.gav, None)), reqs)
    // a type other than jar or pom is skipped without touching the requirements
    ensures var d := Fetched(top, env, item, depth);
            d.gav.version.Some? && IgnoredType(d) ==> ProcessStep(top, env, item, depth, reqs, nodes) == Processed(Skip, reqs)
    // otherwise exactly the requirement of this artifact is added or refined
    ensures var r := ProcessStep(top, env, item, depth, reqs, nodes);
            var d := Fetched(top, env, item, depth); var ga := GaOf(d);
            d.gav.version.Some? && !IgnoredType(d) ==>
              && r.requirements.Keys == reqs.Keys + {ga}
              && (forall g :: g in reqs && g != ga ==> r.requirements[g] == reqs[g])
              && r.requirements[ga] == (if ga in reqs then env.addRequirement(reqs[ga], d.gav.version.value)
                                        else env.fromVersion(d.gav.version.value, depth))
    // the walk restarts exactly when refining a known requirement changes the version it resolves to
    ensures var r := ProcessStep(top, env, item, depth, reqs, nodes);
            var d := Fetched(top, env, item, depth); var ga := GaOf(d);
            r.step.Restart? <==>
              && d.gav.version.Some? && !IgnoredType(d) && ga in reqs
              && env.resolveRequirement(ga, r.requirements[ga], top.repositories).Some?
              && env.resolveRequirement(ga, reqs[ga], top.repositories)
                 != env.resolveRequirement(ga, r.requirements[ga], top.repositories)
    // it gives up exactly when no version satisfies the requirement
    ensures var r := ProcessStep(top, env, item, depth, reqs, nodes);
            var d := Fetched(top, env, item, depth); var ga := GaOf(d);
            r.step.Abort? <==>
              && d.gav.version.Some? && !IgnoredType(d)
              && env.resolveRequirement(ga, r.requirements[ga], top.repositories).None?
    ensures var r := ProcessStep(top, env, item, depth, reqs, nodes);
            r.step.Abort? ==> r.step.ga == GaOf(Fetched(top, env, item, depth))
    // a node carries the version the requirement resolves to, and is not a repeat
    ensures var r := ProcessStep(top, env, item, depth, reqs, nodes);
            var d := Fetched(top, env, item, depth); var ga := GaOf(d);
            r.step.Added? ==>
              && GaOf(r.step.d) == ga && ga in r.requirements
              && r.step.d.gav.version == env.resolveRequirement(ga, r.requirements[ga], top.repositories)
              && r.step.d == d.(gav := d.gav.(version := r.step.d.gav.version))
              && r.step.node.depth == depth && r.step.node.requested == item.dependency
              && !HasPlaceholder(r.step.d.gav)
              && (ga in reqs ==> !AlreadyResolved(nodes, ga, d.classifier))
  {
    var d := Fetched(top, env, item, depth);
    if d.gav.version.Some? && !IgnoredType(d) {
      SettleRequirements(top, env, item, depth, reqs, nodes, d);
      SettleRestartAbort(top, env, item, depth, reqs, nodes, d);
      SettleAdded(top, env, item, depth, reqs, nodes, d);
    }
  }

  /** The facts about one entry that the walk relies on: requirements only grow, a node sits at the current depth. */
  lemma ProcessStepShape(top: PomState, env: Env, item: Pending, depth: nat,
                         reqs: map<GroupArtifact, VersionRequirement>, nodes: seq<ResolvedDependency>)
    ensures var r := ProcessStep(top, env, item, depth, reqs, nodes);
            && reqs.Keys <= r.requirements.Keys
            && (r.step.Added? ==> r.step.node.depth == depth && r.step.node.requested == item.dependency)
  {
    ProcessStepCases(top, env, item, depth, reqs, nodes);
  }

  // ---------------------------------------------------------------------------
  // The new node's own dependencies
  // ---------------------------------------------------------------------------

  /** A dependency without a group inherits the group of the POM that declares it. */
  function WithGroupOf(rp: PomState, d2: Dependency): (r: Dependency)
    ensures r.gav.groupId.Some?
    ensures d2.gav.groupId.Some? ==> r == d2
  {
    if d2.gav.groupId.None? then d2.(gav := d2.gav.(groupId := Some(rp.requested.gav.groupId))) else d2
  }

  /** Does the exclusion's glob match the dependency, with both sides substituted in the project? */
  predicate ExclusionMatches(top: PomState, env: Env, d2: Dependency, e: GroupArtifact) {
    && env.matchesGlob(GetValue(top, env, d2.gav.groupId), GetValue(top, env, e.groupId))
    && env.matchesGlob(GetValue(top, env, Some(d2.gav.artifactId)), GetValue(top, env, Some(e.artifactId)))
  }

  /** The first exclusion that matches, which becomes one of the node's effective exclusions. */
  function FirstExclusion(top: PomState, env: Env, d2: Dependency, exclusions: seq<GroupArtifact>)
    : (r: Option<GroupArtifact>)
    ensures r.Some? ==> exists i :: 0 <= i < |exclusions| && exclusions[i] == r.value
                                    && ExclusionMatches(top, env, d2, exclusions[i])
                                    && forall j :: 0 <= j < i ==> !ExclusionMatches(top, env, d2, exclusions[j])
    ensures r.None? ==> forall i :: 0 <= i < |exclusions| ==> !ExclusionMatches(top, env, d2, exclusions[i])
    decreases |exclusions|
  {
    if |exclusions| == 0 then None
    else if ExclusionMatches(top, env, d2, exclusions[0]) then Some(exclusions[0])
    else
      var r := FirstExclusion(top, env, d2, exclusions[1..]);
      if r.Some? then
        ghost var i :| 0 <= i < |exclusions| - 1 && exclusions[1..][i] == r.value
                     && ExclusionMatches(top, env, d2, exclusions[1..][i])
                     && forall j :: 0 <= j < i ==> !ExclusionMatches(top, env, d2, exclusions[1..][j]);
        assert exclusions[i + 1] == r.value;
        assert forall j :: 1 <= j < i + 1 ==> exclusions[j] == exclusions[1..][j - 1];
        r
      else
        assert forall i :: 1 <= i < |exclusions| ==> exclusions[i] == exclusions[1..][i - 1];
        r
  }

  /** What becomes of one declared dependency of the new node. */
  datatype Fate = Optional | ExcludedBy(exclusion: GroupArtifact) | OutOfScope | Follow(scope: Scope)

  /**
   * A dependency marked optional is dropped; then one matched by an exclusion of
   * the including dependency; then one whose scope is not on the classpath of the
   * scope the including dependency was reached in.
   */
  function FateOf(top: PomState, env: Env, d: Dependency, rp: PomState, scope: Scope, d2: Dependency): (f: Fate)
    ensures var optional := GetValue(rp, env, WithGroupOf(rp, d2).optional);
            f.Optional? <==> optional.Some? && IsTrueIgnoringCase(Trim(optional.value))
    ensures f.ExcludedBy? ==> d.exclusions.Some? && f.exclusion in d.exclusions.value
                              && ExclusionMatches(top, env, WithGroupOf(rp, d2), f.exclusion)
    ensures f.Follow? ==> f.scope == DependencyScope(top, rp, env, WithGroupOf(rp, d2))
                          && env.isInClasspathOf(f.scope, scope)
                          && (d.exclusions.Some? ==> forall e :: e in d.exclusions.value ==>
                                                       !ExclusionMatches(top, env, WithGroupOf(rp, d2), e))
    // conversely: a dependency that is not optional is dropped by the first matching exclusion
    ensures var optional := GetValue(rp, env, WithGroupOf(rp, d2).optional);
            !(optional.Some? && IsTrueIgnoringCase(Trim(optional.value)))
            && d.exclusions.Some? && FirstExclusion(top, env, WithGroupOf(rp, d2), d.exclusions.value).Some?
            ==> f == ExcludedBy(FirstExclusion(top, env, WithGroupOf(rp, d2), d.exclusions.value).value)
    // and one that is neither optional nor excluded is followed exactly when its scope is on the classpath
    ensures var optional := GetValue(rp, env, WithGroupOf(rp, d2).optional);
            var s := DependencyScope(top, rp, env, WithGroupOf(rp, d2));
            !(optional.Some? && IsTrueIgnoringCase(Trim(optional.value)))
            && (d.exclusions.None? || FirstExclusion(top, env, WithGroupOf(rp, d2), d.exclusions.value).None?)
            ==> f == (if env.isInClasspathOf(s, scope) then Follow(s) else OutOfScope)
  {
    var d2' := WithGroupOf(rp, d2);
    var optional := GetValue(rp, env, d2'.optional);
    if optional.Some? && IsTrueIgnoringCase(Trim(optional.value)) then Optional
    else
      var hit := if d.exclusions.Some? then FirstExclusion(top, env, d2', d.exclusions.value) else None;
      if hit.Some? then ExcludedBy(hit.value)
      else
        var s := DependencyScope(top, rp, env, d2');
        if env.isInClasspathOf(s, scope) then Follow(s) else OutOfScope
  }

  /** The frontier entry a declared dependency of the new node becomes, when it is followed. */
  function Followed(top: PomState, env: Env, d: Dependency, rp: PomState, item: Pending, parent: nat,
                    d2: Dependency): (r: Option<Pending>)
    ensures r.Some? <==> FateOf(top, env, d, rp, item.scope, d2).Follow?
    ensures r.Some? ==> && r.value.dependency == WithGroupOf(rp, d2)
                        && r.value.scope == DependencyScope(top, rp, env, WithGroupOf(rp, d2))
                        && env.isInClasspathOf(r.value.scope, item.scope)
                        && r.value.dependent == Some(parent)
                        && r.value.rootDependent == item.rootDependent
                        && r.value.definedIn == rp
  {
    var f := FateOf(top, env, d, rp, item.scope, d2);
    if f.Follow? then Some(Pending(WithGroupOf(rp, d2), f.scope, Some(parent), item.rootDependent, rp)) else None
  }

  /** The effective exclusion a declared dependency of the new node adds, when an exclusion drops it. */
  function ExcludedWith(top: PomState, env: Env, d: Dependency, rp: PomState, item: Pending, d2: Dependency)
    : (r: Option<GroupArtifact>)
    ensures r.Some? ==> d.exclusions.Some? && r.value in d.exclusions.value
                        && ExclusionMatches(top, env, WithGroupOf(rp, d2), r.value)
    ensures r.Some? <==> FateOf(top, env, d, rp, item.scope, d2).ExcludedBy?
  {
    var f := FateOf(top, env, d, rp, item.scope, d2);
    if f.ExcludedBy? then Some(f.exclusion) else None
  }

  datatype Expansion = Expansion(next: seq<Pending>, exclusions: seq<GroupArtifact>)

  /** The loop over the new node's requested dependencies, in declaration order. */
  function Expand(top: PomState, env: Env, d: Dependency, rp: PomState, item: Pending, parent: nat,
                  deps: seq<Dependency>): Expansion
    decreases |deps|
  {
    if |deps| == 0 then Expansion([], [])
    else
      var rest := Expand(top, env, d, rp, item, parent, deps[1..]);
      var f := Followed(top, env, d, rp, item, parent, deps[0]);
      var e := ExcludedWith(top, env, d, rp, item, deps[0]);
      Expansion((if f.Some? then [f.value] else []) + rest.next,
                (if e.Some? then [e.value] else []) + rest.exclusions)
  }

  lemma ConcatAssoc<T>(a: seq<T>, b: seq<T>, c: seq<T>)
    ensures a + (b + c) == (a + b) + c
  {
  }

  /** One step of the loop over the new node's dependencies, given the fate of the first. */
  lemma ExpandUnfold(top: PomState, env: Env, d: Dependency, rp: PomState, item: Pending, parent: nat,
                     deps: seq<Dependency>, f: Fate)
    requires |deps| > 0 && f == FateOf(top, env, d, rp, item.scope, deps[0])
    ensures Expand(top, env, d, rp, item, parent, deps).next
            == (if f.Follow? then [Pending(WithGroupOf(rp, deps[0]), f.scope, Some(parent), item.rootDependent, rp)]
                else [])
               + Expand(top, env, d, rp, item, parent, deps[1..]).next
    ensures Expand(top, env, d, rp, item, parent, deps).exclusions
            == (if f.ExcludedBy? then [f.exclusion] else []) + Expand(top, env, d, rp, item, parent, deps[1..]).exclusions
  {
  }

  /** Every entry of the next frontier comes from a followed dependency. */
  lemma {:induction false} ExpandSound(top: PomState, env: Env, d: Dependency, rp: PomState, item: Pending,
                                       parent: nat, deps: seq<Dependency>)
    ensures forall p :: p in Expand(top, env, d, rp, item, parent, deps).next ==>
              exists k :: 0 <= k < |deps| && Followed(top, env, d, rp, item, parent, deps[k]) == Some(p)
    decreases |deps|
  {
    if |deps| > 0 {
      ExpandSound(top, env, d, rp, item, parent, deps[1..]);
      forall p | p in Expand(top, env, d, rp, item, parent, deps).next
        ensures exists k :: 0 <= k < |deps| && Followed(top, env, d, rp, item, parent, deps[k]) == Some(p)
      {
        if p in Expand(top, env, d, rp, item, parent, deps[1..]).next {
          var k :| 0 <= k < |deps[1..]| && Followed(top, env, d, rp, item, parent, deps[1..][k]) == Some(p);
          assert deps[1..][k] == deps[k + 1];
        } else {
          assert Followed(top, env, d, rp, item, parent, deps[0]) == Some(p);
        }
      }
    }
  }

  /** Every followed dependency joins the next frontier. */
  lemma ExpandComplete(top: PomState, env: Env, d: Dependency, rp: PomState, item: Pending,
                       parent: nat, deps: seq<Dependency>)
    ensures forall k :: 0 <= k < |deps| && Followed(top, env, d, rp, item, parent, deps[k]).Some? ==>
              Followed(top, env, d, rp, item, parent, deps[k]).value in Expand(top, env, d, rp, item, parent, deps).next
  {
    forall k | 0 <= k < |deps| && Followed(top, env, d, rp, item, parent, deps[k]).Some?
      ensures Followed(top, env, d, rp, item, parent, deps[k]).value in Expand(top, env, d, rp, item, parent, deps).next
    {
      ExpandHas(top, env, d, rp, item, parent, deps, k);
    }
  }

  /** The followed dependency at position `k` is in the next frontier. */
  lemma {:induction false} ExpandHas(top: PomState, env: Env, d: Dependency, rp: PomState, item: Pending,
                                     parent: nat, deps: seq<Dependency>, k: nat)
    requires k < |deps| && Followed(top, env, d, rp, item, parent, deps[k]).Some?
    ensures Followed(top, env, d, rp, item, parent, deps[k]).value in Expand(top, env, d, rp, item, parent, deps).next
    decreases k
  {
    if k > 0 {
      assert deps[1..][k - 1] == deps[k];
      ExpandHas(top, env, d, rp, item, parent, deps[1..], k - 1);
      ExpandKeepsRest(top, env, d, rp, item, parent, deps);
    }
  }

  /** Whatever the rest of the dependencies contribute is in the next frontier. */
  lemma ExpandKeepsRest(top: PomState, env: Env, d: Dependency, rp: PomState, item: Pending,
                        parent: nat, deps: seq<Dependency>)
    requires |deps| > 0
    ensures forall p :: p in Expand(top, env, d, rp, item, parent, deps[1..]).next ==>
              p in Expand(top, env, d, rp, item, parent, deps).next
  {
    var f := Followed(top, env, d, rp, item, parent, deps[0]);
    var head := if f.Some? then [f.value] else [];
    var rest := Expand(top, env, d, rp, item, parent, deps[1..]).next;
    assert Expand(top, env, d, rp, item, parent, deps).next == head + rest;
    InSuffix(head, rest);
  }

  lemma InSuffix<T>(head: seq<T>, rest: seq<T>)
    ensures forall p :: p in rest ==> p in head + rest
  {
  }

  /** The node's effective exclusions are exclusions of the including dependency that dropped one of its dependencies. */
  lemma {:induction false} ExpandExclusions(top: PomState, env: Env, d: Dependency, rp: PomState, item: Pending,
                                            parent: nat, deps: seq<Dependency>)
    ensures forall e :: e in Expand(top, env, d, rp, item, parent, deps).exclusions ==>
              d.exclusions.Some? && e in d.exclusions.value
              && exists k :: 0 <= k < |deps| && ExcludedWith(top, env, d, rp, item, deps[k]) == Some(e)
    decreases |deps|
  {
    if |deps| > 0 {
      ExpandExclusions(top, env, d, rp, item, parent, deps[1..]);
      forall e | e in Expand(top, env, d, rp, item, parent, deps).exclusions
        ensures d.exclusions.Some? && e in d.exclusions.value
                && exists k :: 0 <= k < |deps| && ExcludedWith(top, env, d, rp, item, deps[k]) == Some(e)
      {
        if e in Expand(top, env, d, rp, item, parent, deps[1..]).exclusions {
          var k :| 0 <= k < |deps[1..]| && ExcludedWith(top, env, d, rp, item, deps[1..][k]) == Some(e);
          assert deps[1..][k] == deps[k + 1];
        } else {
          assert ExcludedWith(top, env, d, rp, item, deps[0]) == Some(e);
        }
      }
    }
  }

  /** Every frontier entry an expansion produces points at the new node and descends from the same root. */
  lemma ExpandedEntriesPointAtParent(top: PomState, env: Env, d: Dependency, rp: PomState, item: Pending,
                                     parent: nat, deps: seq<Dependency>)
    ensures forall p :: p in Expand(top, env, d, rp, item, parent, deps).next ==>
              p.dependent == Some(parent) && p.rootDependent == item.rootDependent
              && env.isInClasspathOf(p.scope, item.scope)
  {
    ExpandSound(top, env, d, rp, item, parent, deps);
  }

  // ---------------------------------------------------------------------------
  // The first frontier
  // ---------------------------------------------------------------------------

  /** Is a project dependency, as the project sees it, in the requested scope? */
  predicate InRequestedScope(top: PomState, env: Env, scope: Scope, rd: Dependency) {
    var dScope := env.scopeFromName(ValuesOf(top, env, rd, 0).scope);
    dScope == scope || env.isInClasspathOf(dScope, scope)
  }

  /** The entry a project dependency starts as: reached in compile scope, with no dependent. */
  function Seed(top: PomState, rd: Dependency): Pending {
    Pending(rd, Compile, None, rd, top)
  }

  /** The project's requested dependencies in the requested scope, in order. */
  function Seeds(top: PomState, env: Env, scope: Scope, deps: seq<Dependency>): seq<Pending>
    decreases |deps|
  {
    if |deps| == 0 then []
    else if InRequestedScope(top, env, scope, deps[0]) then [Seed(top, deps[0])] + Seeds(top, env, scope, deps[1..])
    else Seeds(top, env, scope, deps[1..])
  }

  /** The first frontier is exactly the project dependencies in the requested scope. */
  lemma {:induction false} SeedsExactly(top: PomState, env: Env, scope: Scope, deps: seq<Dependency>)
    ensures forall p :: p in Seeds(top, env, scope, deps) <==>
              exists k :: 0 <= k < |deps| && InRequestedScope(top, env, scope, deps[k]) && p == Seed(top, deps[k])
    decreases |deps|
  {
    if |deps| > 0 {
      SeedsExactly(top, env, scope, deps[1..]);
      forall p | p in Seeds(top, env, scope, deps)
        ensures exists k :: 0 <= k < |deps| && InRequestedScope(top, env, scope, deps[k]) && p == Seed(top, deps[k])
      {
        if p in Seeds(top, env, scope, deps[1..]) {
          var k :| 0 <= k < |deps[1..]| && InRequestedScope(top, env, scope, deps[1..][k]) && p == Seed(top, deps[1..][k]);
          assert deps[1..][k] == deps[k + 1];
        }
      }
      forall k | 0 <= k < |deps| && InRequestedScope(top, env, scope, deps[k])
        ensures Seed(top, deps[k]) in Seeds(top, env, scope, deps)
      {
        if k > 0 {
          assert deps[k] == deps[1..][k - 1];
        }
      }
    }
  }

  // ---------------------------------------------------------------------------
  // The arena the walk builds
  // ---------------------------------------------------------------------------

  /**
   * The flat list of nodes in discovery order, each node's children (arena indices)
   * and each node's effective exclusions.
   */
  datatype Graph = Graph(nodes: seq<ResolvedDependency>, children: seq<seq<nat>>,
                         effectiveExclusions: seq<seq<GroupArtifact>>)

  /** Depths never decrease along the list: the nodes are laid out level by level. */
  predicate Layered(nodes: seq<ResolvedDependency>) {
    forall i, j :: 0 <= i < j < |nodes| ==> nodes[i].depth <= nodes[j].depth
  }

  /** A child comes after its parent, one level deeper. */
  predicate Linked(g: Graph)
    requires |g.children| == |g.nodes|
  {
    forall i, k :: 0 <= i < |g.children| && 0 <= k < |g.children[i]| ==>
      i < g.children[i][k] < |g.nodes| && g.nodes[g.children[i][k]].depth == g.nodes[i].depth + 1
  }

  /** Every node below the top level is some earlier node's child. */
  predicate Parented(g: Graph)
    requires |g.children| == |g.nodes|
  {
    forall j :: 0 <= j < |g.nodes| && g.nodes[j].depth > 0 ==> exists i :: 0 <= i < j && j in g.children[i]
  }

  /** No node is the child of two nodes. */
  predicate SingleParent(g: Graph) {
    forall i1, i2, j :: 0 <= i1 < |g.children| && 0 <= i2 < |g.children| && j in g.children[i1] && j in g.children[i2]
      ==> i1 == i2
  }

  /** The top-level nodes are project dependencies. */
  predicate RootsRequested(top: PomState, g: Graph) {
    forall j :: 0 <= j < |g.nodes| && g.nodes[j].depth == 0 ==> g.nodes[j].requested in top.requestedDependencies
  }

  /**
   * The shape of the graph: a forest laid out breadth first, whose top-level nodes
   * are project dependencies.
   */
  predicate WellFormed(top: PomState, g: Graph) {
    && |g.children| == |g.nodes| && |g.effectiveExclusions| == |g.nodes|
    && Layered(g.nodes) && Linked(g) && Parented(g) && SingleParent(g) && RootsRequested(top, g)
  }

  /** Every recorded error names the project dependency whose subtree it came from. */
  predicate Rooted(top: PomState, errors: seq<MavenError>) {
    forall e :: e in errors ==> exists rd :: rd in top.requestedDependencies && e.root == Some(rd.gav)
  }

  /** The graph after adding a node as a new top-level node or as the last child of an earlier node. */
  function AddNode(g: Graph, node: ResolvedDependency, parent: Option<nat>, exclusions: seq<GroupArtifact>): (h: Graph)
    requires |g.children| == |g.nodes| && |g.effectiveExclusions| == |g.nodes|
    requires parent.Some? ==> parent.value < |g.nodes|
    ensures |h.nodes| == |h.children| == |h.effectiveExclusions| == |g.nodes| + 1
    ensures h.nodes == g.nodes + [node] && h.effectiveExclusions == g.effectiveExclusions + [exclusions]
    ensures h.children[|g.nodes|] == []
    ensures forall i :: 0 <= i < |g.nodes| ==>
              h.children[i] == if parent == Some(i) then g.children[i] + [|g.nodes|] else g.children[i]
  {
    var children := g.children + [[]];
    Graph(g.nodes + [node],
          if parent.Some? then children[parent.value := children[parent.value] + [|g.nodes|]] else children,
          g.effectiveExclusions + [exclusions])
  }

  /** Adding a node keeps the forest well formed when it is no shallower than the rest and hangs from a node one level up. */
  lemma AddNodeWellFormed(top: PomState, g: Graph, node: ResolvedDependency,
                          parent: Option<nat>, exclusions: seq<GroupArtifact>)
    requires WellFormed(top, g)
    requires forall i :: 0 <= i < |g.nodes| ==> g.nodes[i].depth <= node.depth
    requires parent.None? ==> node.depth == 0 && node.requested in top.requestedDependencies
    requires parent.Some? ==> parent.value < |g.nodes| && g.nodes[parent.value].depth + 1 == node.depth
    ensures WellFormed(top, AddNode(g, node, parent, exclusions))
  {
    AddNodeLayered(top, g, node, parent, exclusions);
    AddNodeLinked(g, node, parent, exclusions);
    AddNodeParented(g, node, parent, exclusions);
    AddNodeSingleParent(g, node, parent, exclusions);
  }

  /** A node no shallower than the rest keeps the list level by level, and a new top-level node is a project dependency. */
  lemma AddNodeLayered(top: PomState, g: Graph, node: ResolvedDependency,
                       parent: Option<nat>, exclusions: seq<GroupArtifact>)
    requires |g.children| == |g.nodes| && |g.effectiveExclusions| == |g.nodes|
    requires Layered(g.nodes) && RootsRequested(top, g)
    requires forall i :: 0 <= i < |g.nodes| ==> g.nodes[i].depth <= node.depth
    requires parent.None? ==> node.depth == 0 && node.requested in top.requestedDependencies
    requires parent.Some? ==> parent.value < |g.nodes| && g.nodes[parent.value].depth + 1 == node.depth
    ensures Layered(AddNode(g, node, parent, exclusions).nodes)
    ensures RootsRequested(top, AddNode(g, node, parent, exclusions))
  {
    var nodes := AddNode(g, node, parent, exclusions).nodes;
    assert nodes == g.nodes + [node];
    assert forall i :: 0 <= i < |g.nodes| ==> nodes[i] == g.nodes[i];
  }

  /** Each child index after adding a node: the new index at the end of the parent's list, else the old entry. */
  lemma AddNodeChildAt(g: Graph, node: ResolvedDependency, parent: Option<nat>, exclusions: seq<GroupArtifact>, i: nat, k: nat)
    requires |g.children| == |g.nodes| && |g.effectiveExclusions| == |g.nodes|
    requires parent.Some? ==> parent.value < |g.nodes|
    requires i < |g.nodes| + 1 && k < |AddNode(g, node, parent, exclusions).children[i]|
    ensures i < |g.nodes|
    ensures parent == Some(i) && k == |g.children[i]| ==> AddNode(g, node, parent, exclusions).children[i][k] == |g.nodes|
    ensures !(parent == Some(i) && k == |g.children[i]|) ==>
      k < |g.children[i]| && AddNode(g, node, parent, exclusions).children[i][k] == g.children[i][k]
  {
  }

  lemma AddNodeLinked(g: Graph, node: ResolvedDependency, parent: Option<nat>, exclusions: seq<GroupArtifact>)
    requires |g.children| == |g.nodes| && |g.effectiveExclusions| == |g.nodes| && Linked(g)
    requires parent.Some? ==> parent.value < |g.nodes| && g.nodes[parent.value].depth + 1 == node.depth
    ensures Linked(AddNode(g, node, parent, exclusions))
  {
    var h := AddNode(g, node, parent, exclusions);
    var n := |g.nodes|;
    forall i, k | 0 <= i < |h.children| && 0 <= k < |h.children[i]|
      ensures i < h.children[i][k] < |h.nodes| && h.nodes[h.children[i][k]].depth == h.nodes[i].depth + 1
    {
      AddNodeChildAt(g, node, parent, exclusions, i, k);
      if !(parent == Some(i) && k == |g.children[i]|) {
        var c := g.children[i][k];
        assert i < c < n && g.nodes[c].depth == g.nodes[i].depth + 1;
        assert h.nodes[c] == g.nodes[c] && h.nodes[i] == g.nodes[i];
      }
    }
  }

  lemma AddNodeParented(g: Graph, node: ResolvedDependency, parent: Option<nat>, exclusions: seq<GroupArtifact>)
    requires |g.children| == |g.nodes| && |g.effectiveExclusions| == |g.nodes| && Parented(g)
    requires parent.None? ==> node.depth == 0
    requires parent.Some? ==> parent.value < |g.nodes|
    ensures Parented(AddNode(g, node, parent, exclusions))
  {
    var h := AddNode(g, node, parent, exclusions);
    var n := |g.nodes|;
    forall j | 0 <= j < |h.nodes| && h.nodes[j].depth > 0
      ensures exists i :: 0 <= i < j && j in h.children[i]
    {
      if j == n {
        assert n in h.children[parent.value];
      } else {
        assert h.nodes[j] == g.nodes[j];
        var i :| 0 <= i < j && j in g.children[i];
        assert j in h.children[i];
      }
    }
  }

  lemma AddNodeSingleParent(g: Graph, node: ResolvedDependency, parent: Option<nat>, exclusions: seq<GroupArtifact>)
    requires |g.children| == |g.nodes| && |g.effectiveExclusions| == |g.nodes| && Linked(g) && SingleParent(g)
    requires parent.Some? ==> parent.value < |g.nodes|
    ensures SingleParent(AddNode(g, node, parent, exclusions))
  {
    var h := AddNode(g, node, parent, exclusions);
    var n := |g.nodes|;
    forall i1, i2, j | 0 <= i1 < |h.children| && 0 <= i2 < |h.children| && j in h.children[i1] && j in h.children[i2]
      ensures i1 == i2
    {
      AddNodeMembers(g, node, parent, exclusions, i1);
      AddNodeMembers(g, node, parent, exclusions, i2);
      if j == n {
        NotYetAChild(g, i1);
        NotYetAChild(g, i2);
      }
    }
  }

  /** The child list of node `i` after adding a node: the old one, plus the new index under the parent. */
  lemma AddNodeMembers(g: Graph, node: ResolvedDependency, parent: Option<nat>, exclusions: seq<GroupArtifact>, i: nat)
    requires |g.children| == |g.nodes| && |g.effectiveExclusions| == |g.nodes|
    requires parent.Some? ==> parent.value < |g.nodes|
    requires i < |g.nodes| + 1
    ensures i == |g.nodes| ==> AddNode(g, node, parent, exclusions).children[i] == []
    ensures i < |g.nodes| ==> forall j :: j in AddNode(g, node, parent, exclusions).children[i] <==>
      j in g.children[i] || (parent == Some(i) && j == |g.nodes|)
  {
    var h := AddNode(g, node, parent, exclusions);
    if i == |g.nodes| {
    } else if parent == Some(i) {
      assert h.children[i] == g.children[i] + [|g.nodes|];
    } else {
      assert h.children[i] == g.children[i];
    }
  }

  /** In a linked graph every child index is below the number of nodes. */
  lemma NotYetAChild(g: Graph, i: nat)
    requires |g.children| == |g.nodes| && Linked(g) && i < |g.nodes|
    ensures |g.nodes| !in g.children[i]
  {
    forall k | 0 <= k < |g.children[i]|
      ensures g.children[i][k] != |g.nodes|
    {
    }
  }

  // ---------------------------------------------------------------------------
  // What the walk keeps true from one entry to the next
  // ---------------------------------------------------------------------------

  /** No node is deeper than `depth`. */
  predicate Below(g: Graph, depth: nat) {
    forall j :: 0 <= j < |g.nodes| ==> g.nodes[j].depth <= depth
  }

  /** The frontier entries at `depth` point at nodes one level up, and at depth 0 are project dependencies. */
  predicate FrontierOk(top: PomState, g: Graph, depth: nat, frontier: seq<Pending>) {
    forall p :: p in frontier ==>
      && p.rootDependent in top.requestedDependencies
      && (depth == 0 ==> p.dependent.None? && p.dependency in top.requestedDependencies)
      && (depth > 0 ==> p.dependent.Some? && p.dependent.value < |g.nodes|
                        && g.nodes[p.dependent.value].depth + 1 == depth)
  }

  /** The entries collected for the next level point at nodes of this level. */
  predicate NextOk(top: PomState, g: Graph, depth: nat, next: seq<Pending>) {
    forall p :: p in next ==>
      && p.rootDependent in top.requestedDependencies
      && p.dependent.Some? && p.dependent.value < |g.nodes|
      && g.nodes[p.dependent.value].depth == depth
  }

  /** The first frontier is made of project dependencies. */
  lemma SeedsFrontier(top: PomState, env: Env, scope: Scope)
    ensures FrontierOk(top, Graph([], [], []), 0, Seeds(top, env, scope, top.requestedDependencies))
  {
    SeedsExactly(top, env, scope, top.requestedDependencies);
  }

  /** An error recorded with the root of a frontier entry keeps every error rooted. */
  lemma RootedAppend(top: PomState, errors: seq<MavenError>, e: MavenError, root: Dependency)
    requires Rooted(top, errors) && root in top.requestedDependencies
    ensures Rooted(top, errors + [e.(root := Some(root.gav))])
  {
  }

  /**
   * Adding the node of a frontier entry at `depth`, and queueing its followed
   * dependencies, keeps the graph well formed and the frontier bookkeeping true.
   */
  lemma AddChildKeeps(top: PomState, g: Graph, depth: nat, frontier: seq<Pending>, next: seq<Pending>,
                      item: Pending, node: ResolvedDependency, x: Expansion)
    requires WellFormed(top, g) && Below(g, depth)
    requires FrontierOk(top, g, depth, frontier) && NextOk(top, g, depth, next)
    requires item in frontier && node.depth == depth && node.requested == item.dependency
    requires forall p :: p in x.next ==> p.dependent == Some(|g.nodes|) && p.rootDependent == item.rootDependent
    ensures var h := AddNode(g, node, item.dependent, x.exclusions);
            && WellFormed(top, h) && Below(h, depth)
            && FrontierOk(top, h, depth, frontier) && NextOk(top, h, depth, next + x.next)
  {
    var h := AddNode(g, node, item.dependent, x.exclusions);
    FrontierEntryParent(top, g, depth, frontier, item);
    AddNodeWellFormed(top, g, node, item.dependent, x.exclusions);
    SnocKeepsPrefix(g.nodes, node);
    BelowSnoc(g, h, depth, node);
    FrontierOkExtends(top, g, h, depth, frontier);
    NextOkExtends(top, g, h, depth, next);
    NewChildrenNextOk(top, g, h, depth, frontier, item, node, x.next);
    NextOkConcat(top, h, depth, next, x.next);
  }

  /** A frontier entry's dependent is a node one level up, or at depth 0 it has none and is a project dependency. */
  lemma FrontierEntryParent(top: PomState, g: Graph, depth: nat, frontier: seq<Pending>, item: Pending)
    requires FrontierOk(top, g, depth, frontier) && item in frontier
    ensures item.dependent.None? ==> depth == 0 && item.dependency in top.requestedDependencies
    ensures item.dependent.Some? ==> item.dependent.value < |g.nodes| && g.nodes[item.dependent.value].depth + 1 == depth
  {
  }

  lemma BelowSnoc(g: Graph, h: Graph, depth: nat, node: ResolvedDependency)
    requires Below(g, depth) && h.nodes == g.nodes + [node] && node.depth == depth
    ensures Below(h, depth)
  {
    assert forall j :: 0 <= j < |g.nodes| ==> h.nodes[j] == g.nodes[j];
  }

  lemma SnocKeepsPrefix<T>(a: seq<T>, x: T)
    ensures forall j :: 0 <= j < |a| ==> (a + [x])[j] == a[j]
  {
  }

  /** The entries queued for a new node at `depth` point at it, one level below nothing deeper. */
  lemma NewChildrenNextOk(top: PomState, g: Graph, h: Graph, depth: nat, frontier: seq<Pending>,
                          item: Pending, node: ResolvedDependency, next: seq<Pending>)
    requires FrontierOk(top, g, depth, frontier) && item in frontier
    requires h.nodes == g.nodes + [node] && node.depth == depth
    requires forall p :: p in next ==> p.dependent == Some(|g.nodes|) && p.rootDependent == item.rootDependent
    ensures NextOk(top, h, depth, next)
  {
    assert h.nodes[|g.nodes|] == node;
  }

  /** Growing the node list keeps the frontier pointing where it did. */
  lemma FrontierOkExtends(top: PomState, g: Graph, h: Graph, depth: nat, frontier: seq<Pending>)
    requires |g.nodes| <= |h.nodes| && forall j :: 0 <= j < |g.nodes| ==> h.nodes[j] == g.nodes[j]
    requires FrontierOk(top, g, depth, frontier)
    ensures FrontierOk(top, h, depth, frontier)
  {
  }

  /** Growing the node list keeps the collected entries pointing where they did. */
  lemma NextOkExtends(top: PomState, g: Graph, h: Graph, depth: nat, next: seq<Pending>)
    requires |g.nodes| <= |h.nodes| && forall j :: 0 <= j < |g.nodes| ==> h.nodes[j] == g.nodes[j]
    requires NextOk(top, g, depth, next)
    ensures NextOk(top, h, depth, next)
  {
  }

  lemma NextOkConcat(top: PomState, g: Graph, depth: nat, a: seq<Pending>, b: seq<Pending>)
    requires NextOk(top, g, depth, a) && NextOk(top, g, depth, b)
    ensures NextOk(top, g, depth, a + b)
  {
  }

  /** At the end of a level, the collected entries are the frontier one level down. */
  lemma NextBecomesFrontier(top: PomState, g: Graph, depth: nat, next: seq<Pending>)
    requires NextOk(top, g, depth, next)
    ensures FrontierOk(top, g, depth + 1, next)
  {
  }
}
