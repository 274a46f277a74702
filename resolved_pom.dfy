/**
 * ResolvedPom: the mutable result of resolving a POM. Its resolver methods update
 * the fields in place, as the source does, and each is proved to leave exactly the
 * state the matching function of ParentChain describes.
 */
module ResolvedPoms {
  import opened Wrappers
  import opened MavenTypes
  import opened PomLookup
  import opened PomMerge
  import opened ParentChain
  import opened Dedup
  import opened DependencyGraph

  /** Is `gav` the coordinate of some POM of the ancestry? The loop of the parent-cycle check. */
  method InAncestry(ancestry: seq<Pom>, gav: ResolvedGav) returns (b: bool)
    ensures b <==> gav in AncestryGavs(ancestry)
  {
    var i := 0;
    while i < |ancestry|
      invariant 0 <= i <= |ancestry|
      invariant forall j :: 0 <= j < i ==> ancestry[j].gav != gav
    {
      if ancestry[i].gav == gav {
        return true;
      }
      i := i + 1;
    }
    return false;
  }

  /** The loop over the merged repositories in mergeRepositories: is this id taken? */
  method RepositoryIdTaken(repos: seq<MavenRepository>, id: string) returns (b: bool)
    ensures b <==> HasId(repos, id)
  {
    var i := 0;
    while i < |repos|
      invariant 0 <= i <= |repos|
      invariant forall j :: 0 <= j < i ==> repos[j].id != Some(id)
    {
      if repos[i].id == Some(id) {
        return true;
      }
      i := i + 1;
    }
    return false;
  }

  /** The loop over the exclusions of the including dependency: the first that matches, if any. */
  method FindExclusion(top: PomState, env: Env, d2: Dependency, exclusions: seq<GroupArtifact>)
    returns (hit: Option<GroupArtifact>)
    ensures hit == FirstExclusion(top, env, d2, exclusions)
  {
    var i := 0;
    while i < |exclusions|
      invariant 0 <= i <= |exclusions|
      invariant FirstExclusion(top, env, d2, exclusions[i..]) == FirstExclusion(top, env, d2, exclusions)
    {
      assert exclusions[i..][0] == exclusions[i] && exclusions[i..][1..] == exclusions[i + 1..];
      if ExclusionMatches(top, env, d2, exclusions[i]) {
        return Some(exclusions[i]);
      }
      i := i + 1;
    }
    return None;
  }

  /** The body of the loop over the new node's dependencies: optional, then excluded, then out of scope. */
  method DecideFate(top: PomState, env: Env, d: Dependency, rp: PomState, scope: Scope, d2: Dependency)
    returns (f: Fate)
    ensures f == FateOf(top, env, d, rp, scope, d2)
  {
    var dep := WithGroupOf(rp, d2);
    var optional := GetValue(rp, env, dep.optional);
    if optional.Some? && IsTrueIgnoringCase(Trim(optional.value)) {
      return Optional;
    }
    if d.exclusions.Some? {
      var hit := FindExclusion(top, env, dep, d.exclusions.value);
      if hit.Some? {
        return ExcludedBy(hit.value);
      }
    }
    var s := GetDependencyScope(top, rp, env, dep);
    f := if env.isInClasspathOf(s, scope) then Follow(s) else OutOfScope;
  }

  /** The loop over the new node's requested dependencies: the next frontier and the effective exclusions. */
  method ExpandChildren(top: PomState, env: Env, d: Dependency, rp: PomState, item: Pending, parent: nat)
    returns (x: Expansion)
    ensures x == Expand(top, env, d, rp, item, parent, rp.requestedDependencies)
  {
    var deps := rp.requestedDependencies;
    var next: seq<Pending> := [];
    var exclusions: seq<GroupArtifact> := [];
    var i := 0;
    while i < |deps|
      invariant 0 <= i <= |deps|
      invariant next + Expand(top, env, d, rp, item, parent, deps[i..]).next
                == Expand(top, env, d, rp, item, parent, deps).next
      invariant exclusions + Expand(top, env, d, rp, item, parent, deps[i..]).exclusions
                == Expand(top, env, d, rp, item, parent, deps).exclusions
    {
      assert deps[i..][0] == deps[i] && deps[i..][1..] == deps[i + 1..];
      var rest := Expand(top, env, d, rp, item, parent, deps[i + 1..]);
      var f := DecideFate(top, env, d, rp, item.scope, deps[i]);
      ExpandUnfold(top, env, d, rp, item, parent, deps[i..], f);
      var follow := if f.Follow? then [Pending(WithGroupOf(rp, deps[i]), f.scope, Some(parent), item.rootDependent, rp)]
                    else [];
      var excluded := if f.ExcludedBy? then [f.exclusion] else [];
      ConcatAssoc(next, follow, rest.next);
      ConcatAssoc(exclusions, excluded, rest.exclusions);
      next := next + follow;
      exclusions := exclusions + excluded;
      i := i + 1;
    }
    assert deps[i..] == [];
    assert next + [] == next && exclusions + [] == exclusions;
    x := Expansion(next, exclusions);
  }

  /** One turn of the seed loop keeps the frontier built so far a prefix of the seeds. */
  lemma SeedsExtend(top: PomState, env: Env, scope: Scope, deps: seq<Dependency>, i: nat,
                    frontier: seq<Pending>, kept: seq<Pending>)
    requires i < |deps|
    requires frontier + Seeds(top, env, scope, deps[i..]) == Seeds(top, env, scope, deps)
    requires kept == if InRequestedScope(top, env, scope, deps[i]) then [Seed(top, deps[i])] else []
    ensures (frontier + kept) + Seeds(top, env, scope, deps[i + 1..]) == Seeds(top, env, scope, deps)
  {
    var rest := deps[i..];
    assert rest[0] == deps[i] && rest[1..] == deps[i + 1..];
    SeedsCons(top, env, scope, rest);
    ConcatAssoc(frontier, kept, Seeds(top, env, scope, deps[i + 1..]));
  }

  lemma SeedsCons(top: PomState, env: Env, scope: Scope, deps: seq<Dependency>)
    requires |deps| > 0
    ensures Seeds(top, env, scope, deps)
         == (if InRequestedScope(top, env, scope, deps[0]) then [Seed(top, deps[0])] else []) + Seeds(top, env, scope, deps[1..])
  {
    if !InRequestedScope(top, env, scope, deps[0]) {
      assert [] + Seeds(top, env, scope, deps[1..]) == Seeds(top, env, scope, deps[1..]);
    }
  }

  /** The scope test of the first frontier, on the dependency as the project sees it. */
  method IsInRequestedScope(top: PomState, env: Env, scope: Scope, rd: Dependency) returns (b: bool)
    ensures b == InRequestedScope(top, env, scope, rd)
  {
    var d := GetValuesDependency(top, env, rd, 0);
    var dScope := env.scopeFromName(d.scope);
    b := dScope == scope || env.isInClasspathOf(dScope, scope);
  }

  /** The first frontier: each project dependency whose scope, as the project sees it, is the requested one or on its classpath. */
  method CollectSeeds(top: PomState, env: Env, scope: Scope) returns (frontier: seq<Pending>)
    ensures frontier == Seeds(top, env, scope, top.requestedDependencies)
  {
    var deps := top.requestedDependencies;
    frontier := [];
    var i := 0;
    assert deps[0..] == deps;
    while i < |deps|
      invariant 0 <= i <= |deps|
      invariant frontier + Seeds(top, env, scope, deps[i..]) == Seeds(top, env, scope, deps)
    {
      var inScope := IsInRequestedScope(top, env, scope, deps[i]);
      var kept: seq<Pending> := [];
      if inScope {
        kept := [Seed(top, deps[i])];
      }
      SeedsExtend(top, env, scope, deps, i, frontier, kept);
      frontier := frontier + kept;
      i := i + 1;
    }
    assert deps[i..] == [];
    assert frontier + [] == frontier;
  }

  /** Do two lists hold equal elements at every index? The size check and loop of resolve(). */
  method SameElements<T(==)>(a: seq<T>, b: seq<T>) returns (same: bool)
    ensures same <==> a == b
  {
    if |a| != |b| {
      return false;
    }
    var i := 0;
    while i < |b|
      invariant 0 <= i <= |b|
      invariant a[..i] == b[..i]
    {
      if a[i] != b[i] {
        return false;
      }
      assert a[..i + 1] == a[..i] + [a[i]] && b[..i + 1] == b[..i] + [b[i]];
      i := i + 1;
    }
    assert a == a[..i] && b == b[..i];
    return true;
  }

  /**
   * What resolve() compares: a property the re-resolution has with a different or
   * missing value here, or any difference in the requested dependencies, the
   * dependency management or the repositories. Properties only this POM has do not count.
   */
  predicate Changed(current: PomState, resolved: PomState) {
    || (exists k :: k in resolved.properties && (k !in current.properties || current.properties[k] != resolved.properties[k]))
    || current.requestedDependencies != resolved.requestedDependencies
    || current.dependencyManagement != resolved.dependencyManagement
    || current.repositories != resolved.repositories
  }

  /** The comparison loops of resolve(). */
  method SameResolution(current: PomState, resolved: PomState) returns (same: bool)
    ensures same <==> !Changed(current, resolved)
  {
    var keys := resolved.properties.Keys;
    while keys != {}
      invariant keys <= resolved.properties.Keys
      invariant forall k :: k in resolved.properties && k !in keys ==>
                  k in current.properties && current.properties[k] == resolved.properties[k]
      decreases keys
    {
      var k :| k in keys;
      if k !in current.properties || current.properties[k] != resolved.properties[k] {
        return false;
      }
      keys := keys - {k};
    }
    same := SameElements(current.requestedDependencies, resolved.requestedDependencies);
    if !same {
      return;
    }
    same := SameElements(current.dependencyManagement, resolved.dependencyManagement);
    if !same {
      return;
    }
    same := SameElements(current.repositories, resolved.repositories);
  }

  /** A state compared with itself has not changed, and properties dropped by the re-resolution are not a change. */
  lemma UnchangedIgnoresDroppedProperties(current: PomState, resolved: PomState)
    requires resolved.properties.Keys <= current.properties.Keys
    requires forall k :: k in resolved.properties ==> current.properties[k] == resolved.properties[k]
    requires resolved.requestedDependencies == current.requestedDependencies
    requires resolved.dependencyManagement == current.dependencyManagement
    requires resolved.repositories == current.repositories
    ensures !Changed(current, resolved)
  {
  }

  /** One pass of the walk, up to its end or up to the first restart. */
  datatype Pass =
    | Walked(graph: Graph, errors: seq<MavenError>)
    | Restarted
    | Aborted(ga: GroupArtifact)
    | PassTooDeep

  /** What resolveDependencies returns or throws. */
  datatype Resolution =
      // the flat list of nodes, with children and effective exclusions beside them
    | Resolved(graph: Graph)
      // MavenDownloadingExceptions: every error recorded during the last pass
    | Failed(errors: seq<MavenError>)
      // MavenParsingException: no version satisfies a requirement
    | Unresolvable(ga: GroupArtifact)
      // the walk restarted more often than the bound allows
    | Unsettled
      // the walk went deeper than the bound allows
    | TooDeep

  // ---------------------------------------------------------------------------
  // The walk of resolveDependencies, as values
  // ---------------------------------------------------------------------------

  /** Where a pass stands between two frontier entries: the arena, the errors, the requirements and the next level. */
  datatype WalkState = WalkState(g: Graph, errors: seq<MavenError>,
                                 reqs: map<GroupArtifact, VersionRequirement>, next: seq<Pending>)

  /** The state after some entries, and the restart or give-up that ended the pass early, if any. */
  datatype Advance = Advance(stop: Option<Pass>, st: WalkState)

  /** What holds between two entries of the level at `depth` whose frontier is `frontier`. */
  predicate WalkOk(top: PomState, depth: nat, frontier: seq<Pending>, st: WalkState) {
    && WellFormed(top, st.g) && Rooted(top, st.errors) && Below(st.g, depth)
    && FrontierOk(top, st.g, depth, frontier) && NextOk(top, st.g, depth, st.next)
  }

  /**
   * The loop body of resolveDependencies for one frontier entry. A restart or a
   * give-up ends the pass; a MavenDownloadingException is recorded against the
   * entry's root dependent and the pass goes on; a new node is added under the
   * entry's dependent and its followed dependencies join the next level.
   */
  function ItemOutcome(top: PomState, env: Env, item: Pending, depth: nat, frontier: seq<Pending>,
                       st: WalkState): (r: Advance)
    requires item in frontier && WalkOk(top, depth, frontier, st)
    ensures var p := ProcessStep(top, env, item, depth, st.reqs, st.g.nodes);
      && r.st.reqs == p.requirements
      && (r.stop.Some? <==> p.step.Restart? || p.step.Abort?)
      && (p.step.Restart? ==> r.stop == Some(Restarted))
      && (p.step.Abort? ==> r.stop == Some(Aborted(p.step.ga)))
      && (p.step.Fail? ==> r.st.errors == st.errors + [p.step.error.(root := Some(item.rootDependent.gav))])
      && (!p.step.Fail? ==> r.st.errors == st.errors)
      && (!p.step.Added? ==> r.st.g == st.g && r.st.next == st.next)
      && (p.step.Added? ==>
            var x := Expand(top, env, p.step.d, p.step.resolvedPom, item, |st.g.nodes|,
                            p.step.resolvedPom.requestedDependencies);
            && r.st.g == AddNode(st.g, p.step.node, item.dependent, x.exclusions)
            && r.st.next == st.next + x.next)
  {
    var p := ProcessStep(top, env, item, depth, st.reqs, st.g.nodes);
    match p.step
    case Skip => Advance(None, st.(reqs := p.requirements))
    case Restart => Advance(Some(Restarted), st.(reqs := p.requirements))
    case Abort(ga) => Advance(Some(Aborted(ga)), st.(reqs := p.requirements))
    case Fail(e) =>
      Advance(None, st.(errors := st.errors + [e.(root := Some(item.rootDependent.gav))], reqs := p.requirements))
    case Added(node, d, rp) =>
      FrontierEntryParent(top, st.g, depth, frontier, item);
      var x := Expand(top, env, d, rp, item, |st.g.nodes|, rp.requestedDependencies);
      Advance(None, WalkState(AddNode(st.g, node, item.dependent, x.exclusions), st.errors, p.requirements,
                              st.next + x.next))
  }

  /** `errors'` is `errors` with more recorded after it. */
  predicate ErrorsKept(errors: seq<MavenError>, errors': seq<MavenError>) {
    |errors| <= |errors'| && errors'[..|errors|] == errors
  }

  lemma ErrorsKeptTrans(a: seq<MavenError>, b: seq<MavenError>, c: seq<MavenError>)
    requires ErrorsKept(a, b) && ErrorsKept(b, c)
    ensures ErrorsKept(a, c)
  {
    assert c[..|a|] == c[..|b|][..|a|];
  }

  /** One entry keeps the walk's bookkeeping true, only adds requirements and only appends errors. */
  lemma ItemOutcomeKeeps(top: PomState, env: Env, item: Pending, depth: nat, frontier: seq<Pending>, st: WalkState)
    requires item in frontier && WalkOk(top, depth, frontier, st)
    ensures var r := ItemOutcome(top, env, item, depth, frontier, st);
      && WalkOk(top, depth, frontier, r.st)
      && st.reqs.Keys <= r.st.reqs.Keys
      && ErrorsKept(st.errors, r.st.errors)
  {
    var p := ProcessStep(top, env, item, depth, st.reqs, st.g.nodes);
    ProcessStepShape(top, env, item, depth, st.reqs, st.g.nodes);
    var r := ItemOutcome(top, env, item, depth, frontier, st);
    match p.step
    case Skip =>
    case Restart =>
    case Abort(ga) =>
    case Fail(e) =>
      RootedAppend(top, st.errors, e, item.rootDependent);
      assert r.st.errors[..|st.errors|] == st.errors;
    case Added(node, d, rp) =>
      var parent := |st.g.nodes|;
      var x := Expand(top, env, d, rp, item, parent, rp.requestedDependencies);
      ExpandedEntriesPointAtParent(top, env, d, rp, item, parent, rp.requestedDependencies);
      AddChildKeeps(top, st.g, depth, frontier, st.next, item, node, x);
  }

  /**
   * The entries `items` of the level, in order, up to the end or up to the first
   * restart or give-up. A level that is not cut short keeps the bookkeeping true;
   * either way it only adds requirements and keeps every error recorded before it.
   */
  function WalkLevel(top: PomState, env: Env, depth: nat, frontier: seq<Pending>, items: seq<Pending>,
                     st: WalkState): (r: Advance)
    requires forall p :: p in items ==> p in frontier
    requires WalkOk(top, depth, frontier, st)
    ensures r.stop.Some? ==> r.stop.value.Restarted? || r.stop.value.Aborted?
    ensures r.stop.None? ==> WalkOk(top, depth, frontier, r.st)
    ensures st.reqs.Keys <= r.st.reqs.Keys && ErrorsKept(st.errors, r.st.errors)
    decreases |items|
  {
    if |items| == 0 then Advance(None, st)
    else
      var o := ItemOutcome(top, env, items[0], depth, frontier, st);
      ItemOutcomeKeeps(top, env, items[0], depth, frontier, st);
      if o.stop.Some? then o
      else
        var r := WalkLevel(top, env, depth, frontier, items[1..], o.st);
        ErrorsKeptTrans(st.errors, o.st.errors, r.st.errors);
        r
  }

  /** What holds where a level starts: the arena lies above `depth` and the frontier points into it. */
  predicate LevelStart(top: PomState, depth: nat, frontier: seq<Pending>, g: Graph, errors: seq<MavenError>) {
    && WellFormed(top, g) && Rooted(top, errors)
    && (depth == 0 ==> g.nodes == []) && (depth > 0 ==> Below(g, depth - 1))
    && FrontierOk(top, g, depth, frontier)
  }

  lemma LevelStartOk(top: PomState, depth: nat, frontier: seq<Pending>, g: Graph, errors: seq<MavenError>,
                     reqs: map<GroupArtifact, VersionRequirement>)
    requires LevelStart(top, depth, frontier, g, errors)
    ensures WalkOk(top, depth, frontier, WalkState(g, errors, reqs, []))
  {
  }

  /** A level that is not cut short leaves a start for the next one. */
  lemma LevelDone(top: PomState, depth: nat, frontier: seq<Pending>, st: WalkState)
    requires WalkOk(top, depth, frontier, st)
    ensures LevelStart(top, depth + 1, st.next, st.g, st.errors)
  {
    NextBecomesFrontier(top, st.g, depth, st.next);
  }

  /**
   * The level at `depth` from a fresh next level: stopped only by a restart or a
   * give-up; otherwise it leaves a valid start for the next level. Either way it only
   * adds requirements and keeps every error recorded before it, in order.
   */
  function Level(top: PomState, env: Env, depth: nat, frontier: seq<Pending>, g: Graph, errors: seq<MavenError>,
                 reqs: map<GroupArtifact, VersionRequirement>): (r: Advance)
    requires LevelStart(top, depth, frontier, g, errors)
    ensures r.stop.Some? ==> r.stop.value.Restarted? || r.stop.value.Aborted?
    ensures r.stop.None? ==> LevelStart(top, depth + 1, r.st.next, r.st.g, r.st.errors)
    ensures reqs.Keys <= r.st.reqs.Keys && ErrorsKept(errors, r.st.errors)
  {
    LevelStartOk(top, depth, frontier, g, errors, reqs);
    var o := WalkLevel(top, env, depth, frontier, frontier, WalkState(g, errors, reqs, []));
    if o.stop.Some? then o
    else
      LevelDone(top, depth, frontier, o.st);
      o
  }

  /**
   * The walk from `frontier` at `depth` on: level after level until the frontier is
   * empty, the bound is passed, or an entry restarts or gives up. A `Fail` never ends
   * it: it ends in `Walked` only once a level leaves nothing for the next, and then
   * carries every error recorded before, in order, in a well-formed, rooted graph.
   */
  function WalkFrom(top: PomState, env: Env, depth: nat, frontier: seq<Pending>, g: Graph, errors: seq<MavenError>,
                    reqs: map<GroupArtifact, VersionRequirement>, maxDepth: nat): (r: (Pass, map<GroupArtifact, VersionRequirement>))
    requires depth <= maxDepth + 1 && LevelStart(top, depth, frontier, g, errors)
    ensures reqs.Keys <= r.1.Keys
    ensures r.0.Walked? ==> WellFormed(top, r.0.graph) && Rooted(top, r.0.errors) && ErrorsKept(errors, r.0.errors)
    ensures |frontier| == 0 ==> r == (Walked(g, errors), reqs)
    ensures |frontier| > 0 && depth > maxDepth ==> r == (PassTooDeep, reqs)
    decreases maxDepth + 1 - depth
  {
    if |frontier| == 0 then (Walked(g, errors), reqs)
    else if depth > maxDepth then (PassTooDeep, reqs)
    else
      var o := Level(top, env, depth, frontier, g, errors, reqs);
      if o.stop.Some? then (o.stop.value, o.st.reqs)
      else
        var r := WalkFrom(top, env, depth + 1, o.st.next, o.st.g, o.st.errors, o.st.reqs, maxDepth);
        ErrorsKeptTrans(errors, o.st.errors, if r.0.Walked? then r.0.errors else o.st.errors);
        r
  }

  /** `WalkFrom` one level at a time, as the loop of resolveDependencies goes. */
  lemma WalkFromStep(top: PomState, env: Env, depth: nat, frontier: seq<Pending>, g: Graph, errors: seq<MavenError>,
                     reqs: map<GroupArtifact, VersionRequirement>, maxDepth: nat)
    requires depth <= maxDepth && |frontier| > 0 && LevelStart(top, depth, frontier, g, errors)
    ensures var o := Level(top, env, depth, frontier, g, errors, reqs);
      && (o.stop.Some? ==> WalkFrom(top, env, depth, frontier, g, errors, reqs, maxDepth) == (o.stop.value, o.st.reqs))
      && (o.stop.None? ==> WalkFrom(top, env, depth, frontier, g, errors, reqs, maxDepth)
                           == WalkFrom(top, env, depth + 1, o.st.next, o.st.g, o.st.errors, o.st.reqs, maxDepth))
  {
  }

  /** One pass, from the project dependencies in `scope` with the requirements learned so far. */
  function WalkPass(top: PomState, env: Env, scope: Scope, reqs: map<GroupArtifact, VersionRequirement>,
                    maxDepth: nat): (r: (Pass, map<GroupArtifact, VersionRequirement>))
    ensures reqs.Keys <= r.1.Keys
    ensures r.0.Walked? ==> WellFormed(top, r.0.graph) && Rooted(top, r.0.errors)
  {
    SeedsFrontier(top, env, scope);
    assert LevelStart(top, 0, Seeds(top, env, scope, top.requestedDependencies), Graph([], [], []), []);
    WalkFrom(top, env, 0, Seeds(top, env, scope, top.requestedDependencies), Graph([], [], []), [], reqs, maxDepth)
  }

  /** What a pass that is not repeated makes of resolveDependencies' outcome. */
  function Finish(pass: Pass): Resolution {
    match pass
    case Walked(g, errors) => if |errors| > 0 then Failed(errors) else Resolved(g)
    case Restarted => Unsettled
    case Aborted(ga) => Unresolvable(ga)
    case PassTooDeep => TooDeep
  }

  /** `ResolveWith` one pass at a time, as the restart loop goes. */
  lemma ResolveWithStep(top: PomState, env: Env, scope: Scope, reqs: map<GroupArtifact, VersionRequirement>,
                        restarts: nat, maxDepth: nat)
    ensures var w := WalkPass(top, env, scope, reqs, maxDepth);
      ResolveWith(top, env, scope, reqs, restarts, maxDepth)
      == if w.0.Restarted? && restarts > 0 then ResolveWith(top, env, scope, w.1, restarts - 1, maxDepth)
         else (Finish(w.0), w.1)
  {
  }

  /**
   * resolveDependencies: a restarted pass starts over with the requirements it
   * learned, at most `restarts` times. Every error a failed resolution reports was
   * recorded during its last pass against a project dependency, and a resolved
   * graph is well formed.
   */
  function ResolveWith(top: PomState, env: Env, scope: Scope, reqs: map<GroupArtifact, VersionRequirement>,
                   restarts: nat, maxDepth: nat): (r: (Resolution, map<GroupArtifact, VersionRequirement>))
    ensures reqs.Keys <= r.1.Keys
    ensures r.0.Resolved? ==> WellFormed(top, r.0.graph)
    ensures r.0.Failed? ==> |r.0.errors| > 0 && Rooted(top, r.0.errors)
    decreases restarts
  {
    var (pass, reqs') := WalkPass(top, env, scope, reqs, maxDepth);
    if pass.Restarted? && restarts > 0 then ResolveWith(top, env, scope, reqs', restarts - 1, maxDepth)
    else (Finish(pass), reqs')
  }

  class ResolvedPom {
    var requested: Pom
    const activeProfiles: seq<string>
    var properties: map<string, string>
    var dependencyManagement: seq<ResolvedManagedDependency>
    var initialRepositories: Option<seq<MavenRepository>>
    var repositories: seq<MavenRepository>
    var requestedDependencies: seq<Dependency>

    /** The fields as one value. */
    function State(): PomState
      reads this
    {
      PomState(requested, activeProfiles, properties, dependencyManagement, initialRepositories,
               repositories, requestedDependencies)
    }

    constructor (requested: Pom, activeProfiles: seq<string>, properties: map<string, string>,
                 dependencyManagement: seq<ResolvedManagedDependency>,
                 initialRepositories: Option<seq<MavenRepository>>, repositories: seq<MavenRepository>,
                 requestedDependencies: seq<Dependency>)
      ensures State() == PomState(requested, activeProfiles, properties, dependencyManagement,
                                  initialRepositories, repositories, requestedDependencies)
    {
      this.requested := requested;
      this.activeProfiles := activeProfiles;
      this.properties := properties;
      this.dependencyManagement := dependencyManagement;
      this.initialRepositories := initialRepositories;
      this.repositories := repositories;
      this.requestedDependencies := requestedDependencies;
    }

    /** mergeProperties: put each incoming key that is not present yet. */
    method MergeProperties(incoming: map<string, string>)
      modifies this
      ensures State() == old(State()).(properties := MergedProperties(old(properties), incoming))
    {
      var remaining := incoming.Keys;
      while remaining != {}
        invariant remaining <= incoming.Keys
        invariant State() == old(State()).(properties := properties)
        invariant properties.Keys == old(properties).Keys + (incoming.Keys - remaining)
        invariant forall k :: k in old(properties) ==> properties[k] == old(properties)[k]
        invariant forall k :: k in properties && k !in old(properties) ==> properties[k] == incoming[k]
        decreases remaining
      {
        var k :| k in remaining;
        if k !in properties {
          properties := properties[k := incoming[k]];
        }
        remaining := remaining - {k};
      }
      assert properties == MergedProperties(old(properties), incoming);
    }

    /** mergeRepositories: substitute id and URI, skip a repository whose non-null id is taken, append the rest. */
    method MergeRepositories(env: Env, incoming: seq<MavenRepository>)
      modifies this
      ensures State() == MergeRepositoriesInto(old(State()), env, incoming)
    {
      ghost var subs := SubstitutedRepositories(old(State()), env, incoming);
      var i := 0;
      while i < |incoming|
        invariant 0 <= i <= |incoming|
        invariant State() == old(State()).(repositories := repositories)
        invariant MergedRepositories(repositories, subs[i..]) == MergedRepositories(old(repositories), subs)
      {
        var repo := SubstitutedRepository(State(), env, incoming[i]);
        assert repo == subs[i];
        assert subs[i..][1..] == subs[i + 1..];
        var taken := false;
        if repo.id.Some? {
          taken := RepositoryIdTaken(repositories, repo.id.value);
        }
        if !taken {
          repositories := repositories + [repo];
        }
        i := i + 1;
      }
      assert subs[i..] == [];
    }

    /** mergeRequestedDependencies */
    method MergeRequestedDependencies(incoming: seq<Dependency>)
      modifies this
      ensures State() == old(State()).(requestedDependencies := old(requestedDependencies) + incoming)
    {
      requestedDependencies := requestedDependencies + incoming;
    }

    /** One entry of mergeDependencyManagement; an Imported entry resolves its BOM as a fresh ResolvedPom. */
    method MergeManagedDependency(env: Env, d: ManagedDependency, fuel: nat) returns (err: Option<MavenError>)
      modifies this
      ensures Outcome(State(), err) == MergeEntry(old(State()), env, d, fuel)
      decreases fuel, 0, 0, 0
    {
      match d
      case Imported(gav) =>
        var bomGav := GetValuesGav(State(), env, gav);
        var downloaded := Download(env, bomGav);
        if downloaded.Failure? {
          return Some(downloaded.error);
        }
        if fuel == 0 {
          return Some(MavenError(ImportTooDeep, bomGav, None));
        }
        var bomPom := downloaded.value;
        var bom := new ResolvedPom(bomPom, activeProfiles, map[], [], initialRepositories, [], []);
        err := bom.ResolveParentsRecursively(env, bomPom, fuel - 1);
        if err.Some? {
          return;
        }
        dependencyManagement := dependencyManagement + TaggedWithBom(bom.dependencyManagement, d, bom.requested.gav);
      case Defined(_, _, _, _, _) =>
        dependencyManagement := dependencyManagement + [ResolveDefined(State(), env, d)];
        err := None;
    }

    /** mergeDependencyManagement */
    method MergeDependencyManagement(env: Env, incoming: seq<ManagedDependency>, fuel: nat)
      returns (err: Option<MavenError>)
      modifies this
      ensures Outcome(State(), err) == MergeDM(old(State()), env, incoming, fuel)
      decreases fuel, 0, 0, |incoming| + 1
    {
      var i := 0;
      while i < |incoming|
        invariant 0 <= i <= |incoming|
        invariant MergeDM(State(), env, incoming[i..], fuel) == MergeDM(old(State()), env, incoming, fuel)
      {
        assert incoming[i..][0] == incoming[i] && incoming[i..][1..] == incoming[i + 1..];
        err := MergeManagedDependency(env, incoming[i], fuel);
        if err.Some? {
          return;
        }
        i := i + 1;
      }
      return None;
    }

    /** resolveParentPropertiesAndRepositoriesRecursively */
    method ResolveParentPropertiesAndRepositories(env: Env, ancestry: seq<Pom>) returns (err: Option<MavenError>)
      requires |ancestry| > 0
      modifies this
      ensures Outcome(State(), err) == PassA(old(State()), env, ancestry)
      decreases |Universe(env) - AncestryGavs(ancestry)|
    {
      var pom := ancestry[0];
      var profiles := pom.profiles;
      var i := 0;
      while i < |profiles|
        invariant 0 <= i <= |profiles|
        invariant ProfileProperties(State(), env, profiles[i..]) == ProfileProperties(old(State()), env, profiles)
      {
        assert profiles[i..][0] == profiles[i] && profiles[i..][1..] == profiles[i + 1..];
        if env.isActive(profiles[i], activeProfiles) {
          MergeProperties(profiles[i].properties);
        }
        i := i + 1;
      }
      MergeProperties(pom.properties);
      ghost var s2 := State();
      i := 0;
      while i < |profiles|
        invariant 0 <= i <= |profiles|
        invariant ProfileRepositories(State(), env, profiles[i..]) == ProfileRepositories(s2, env, profiles)
      {
        assert profiles[i..][0] == profiles[i] && profiles[i..][1..] == profiles[i + 1..];
        if env.isActive(profiles[i], activeProfiles) {
          MergeRepositories(env, profiles[i].repositories);
        }
        i := i + 1;
      }
      MergeRepositories(env, pom.repositories);
      assert State() == LevelA(old(State()), env, pom);
      if pom.parent.Some? {
        var downloaded := Download(env, GetValuesGav(State(), env, pom.parent.value.gav));
        if downloaded.Failure? {
          return Some(downloaded.error);
        }
        var parentPom := downloaded.value;
        var cycle := InAncestry(ancestry, parentPom.gav);
        if cycle {
          return None;
        }
        AncestryGrows(env, ancestry, parentPom);
        err := ResolveParentPropertiesAndRepositories(env, [parentPom] + ancestry);
        return;
      }
      return None;
    }

    /** resolveParentDependenciesRecursively */
    method ResolveParentDependencies(env: Env, ancestry: seq<Pom>, fuel: nat) returns (err: Option<MavenError>)
      requires |ancestry| > 0
      modifies this
      ensures Outcome(State(), err) == PassB(old(State()), env, ancestry, fuel)
      decreases fuel, 2, |Universe(env) - AncestryGavs(ancestry)|, 0
    {
      var pom := ancestry[0];
      var profiles := pom.profiles;
      var i := 0;
      while i < |profiles|
        invariant 0 <= i <= |profiles|
        invariant ProfilesB(State(), env, profiles[i..], fuel) == ProfilesB(old(State()), env, profiles, fuel)
      {
        assert profiles[i..][0] == profiles[i] && profiles[i..][1..] == profiles[i + 1..];
        if env.isActive(profiles[i], activeProfiles) {
          err := MergeDependencyManagement(env, profiles[i].dependencyManagement, fuel);
          if err.Some? {
            return;
          }
          MergeRequestedDependencies(profiles[i].dependencies);
        }
        i := i + 1;
      }
      err := MergeDependencyManagement(env, pom.dependencyManagement, fuel);
      if err.Some? {
        return;
      }
      MergeRequestedDependencies(pom.dependencies);
      if pom.parent.Some? {
        var downloaded := Download(env, GetValuesGav(State(), env, pom.parent.value.gav));
        if downloaded.Failure? {
          return Some(downloaded.error);
        }
        var parentPom := downloaded.value;
        var cycle := InAncestry(ancestry, parentPom.gav);
        if cycle {
          return None;
        }
        AncestryGrows(env, ancestry, parentPom);
        err := ResolveParentDependencies(env, [parentPom] + ancestry, fuel);
        return;
      }
      return None;
    }

    /** resolveParentsRecursively(requested); `fuel` bounds the nesting of BOM imports. */
    method ResolveParentsRecursively(env: Env, pom: Pom, fuel: nat) returns (err: Option<MavenError>)
      modifies this
      ensures Outcome(State(), err) == ResolveParents(old(State()), env, pom, fuel)
      decreases fuel, 3, 0, 0
    {
      if initialRepositories.Some? {
        MergeRepositories(env, initialRepositories.value);
      }
      err := ResolveParentPropertiesAndRepositories(env, [pom]);
      if err.Some? {
        return;
      }
      if initialRepositories.None? {
        initialRepositories := Some(repositories);
      }
      requested := SubstitutedRequested(State(), env);
      err := ResolveParentDependencies(env, [pom], fuel);
    }

    /** Resolver.resolve(): resolve the parents of the requested POM itself. */
    method Resolver(env: Env) returns (err: Option<MavenError>)
      modifies this
      ensures Outcome(State(), err) == ResolveParents(old(State()), env, old(requested), env.importDepth)
    {
      err := ResolveParentsRecursively(env, requested, env.importDepth);
    }

    /** deduplicate: keep the first management entry and the first dependency per (gav, type, classifier, scope). */
    method Deduplicate()
      modifies this
      ensures State() == old(State()).(
        dependencyManagement := FirstPerKey(old(dependencyManagement), ManagedDependencyKey),
        requestedDependencies := FirstPerKey(old(requestedDependencies), DependencyKey))
    {
      var dedupMd := KeepFirstPerKey(dependencyManagement, ManagedDependencyKey);
      dependencyManagement := dedupMd;
      var dedupD := KeepFirstPerKey(requestedDependencies, DependencyKey);
      requestedDependencies := dedupD;
    }

    /**
     * resolve(): resolve a fresh copy from the requested POM; keep this instance
     * when nothing resolve() compares has changed.
     */
    method Resolve(env: Env) returns (r: ResolvedPom, err: Option<MavenError>)
      ensures var o := ResolveParents(Unresolved(requested, activeProfiles, initialRepositories), env, requested,
                                      env.importDepth);
              && err == o.err
              && (err.Some? ==> r == this)
              && (err.None? ==> (r == this <==> !Changed(State(), o.st))
                                && r.State() == if Changed(State(), o.st) then o.st else State())
    {
      var resolved := new ResolvedPom(requested, activeProfiles, map[], [], initialRepositories, [], []);
      err := resolved.Resolver(env);
      if err.Some? {
        return this, err;
      }
      var same := SameResolution(State(), resolved.State());
      r := if same then this else resolved;
    }

    /** One frontier entry: the steps of the loop body up to the point where the node is built. */
    method ProcessItem(env: Env, item: Pending, depth: nat, reqs: map<GroupArtifact, VersionRequirement>,
                       nodes: seq<ResolvedDependency>) returns (r: Processed)
      ensures r == ProcessStep(State(), env, item, depth, reqs, nodes)
    {
      var d := FetchItem(env, item, depth);
      if d.gav.version.None? {
        return Processed(Fail(MavenError(NoVersionProvided, item.dependency.gav, None)), reqs);
      }
      if d.type_.Some? && d.type_.value != "jar" && d.type_.value != "pom" {
        return Processed(Skip, reqs);
      }
      r := SettleItem(env, item, depth, reqs, nodes, d);
    }

    /** The dependency as its declaring POM sees it, then as the project sees it. */
    method FetchItem(env: Env, item: Pending, depth: nat) returns (d: Dependency)
      ensures d == Fetched(State(), env, item, depth)
    {
      var d0 := GetValuesDependency(item.definedIn, env, item.dependency, depth);
      d := GetValuesDependency(State(), env, d0, depth);
    }

    /** The requirement bookkeeping of the loop body, then the visit. */
    method SettleItem(env: Env, item: Pending, depth: nat, reqs: map<GroupArtifact, VersionRequirement>,
                      nodes: seq<ResolvedDependency>, d: Dependency) returns (r: Processed)
      requires d.gav.version.Some?
      ensures r == Settle(State(), env, item, depth, reqs, nodes, d)
    {
      var ga := GroupArtifact(d.gav.groupId, d.gav.artifactId);
      if ga !in reqs {
        r := SettleNewItem(env, item, depth, reqs, nodes, d);
      } else {
        r := SettleKnownItem(env, item, depth, reqs, nodes, d);
      }
    }

    /** The first requirement for an artifact: resolve it, then visit. */
    method SettleNewItem(env: Env, item: Pending, depth: nat, reqs: map<GroupArtifact, VersionRequirement>,
                         nodes: seq<ResolvedDependency>, d: Dependency) returns (r: Processed)
      requires d.gav.version.Some? && GaOf(d) !in reqs
      ensures r == Settle(State(), env, item, depth, reqs, nodes, d)
    {
      var ga := GroupArtifact(d.gav.groupId, d.gav.artifactId);
      var newRequirement := env.fromVersion(d.gav.version.value, depth);
      var reqs' := reqs[ga := newRequirement];
      var newVersion := env.resolveRequirement(ga, newRequirement, repositories);
      if newVersion.None? {
        return Processed(Abort(ga), reqs');
      }
      var step := VisitItem(env, item, depth, d.(gav := d.gav.(version := newVersion)));
      return Processed(step, reqs');
    }

    /** A further requirement for a known artifact: refine it, restart if its version moved, skip a repeat, else visit. */
    method SettleKnownItem(env: Env, item: Pending, depth: nat, reqs: map<GroupArtifact, VersionRequirement>,
                           nodes: seq<ResolvedDependency>, d: Dependency) returns (r: Processed)
      requires d.gav.version.Some? && GaOf(d) in reqs
      ensures r == Settle(State(), env, item, depth, reqs, nodes, d)
    {
      var ga := GroupArtifact(d.gav.groupId, d.gav.artifactId);
      var existing := reqs[ga];
      var newRequirement := env.addRequirement(existing, d.gav.version.value);
      var reqs' := reqs[ga := newRequirement];
      var existingVersion := env.resolveRequirement(ga, existing, repositories);
      var newVersion := env.resolveRequirement(ga, newRequirement, repositories);
      if newVersion.None? {
        return Processed(Abort(ga), reqs');
      }
      var d' := d.(gav := d.gav.(version := newVersion));
      if existingVersion != newVersion {
        return Processed(Restart, reqs');
      }
      var seen := Contains(nodes, ga, d'.classifier);
      if seen {
        return Processed(Skip, reqs');
      }
      var step := VisitItem(env, item, depth, d');
      return Processed(step, reqs');
    }

    /** The rest of the loop body once the version is settled: download the POM, resolve its parents, build the node. */
    method VisitItem(env: Env, item: Pending, depth: nat, d: Dependency) returns (s: Step)
      ensures s == Visit(State(), env, item, depth, d)
    {
      if HasPlaceholder(d.gav) {
        return Fail(MavenError(UnresolvedProperty, d.gav, None));
      }
      var downloaded := Download(env, d.gav);
      if downloaded.Failure? {
        return Fail(downloaded.error);
      }
      var dPom := downloaded.value;
      var resolvedPom := new ResolvedPom(dPom, activeProfiles, map[], [], initialRepositories, [], []);
      var err := resolvedPom.ResolveParentsRecursively(env, dPom, env.importDepth);
      if err.Some? {
        return Fail(err.value);
      }
      var rp := resolvedPom.State();
      var dep := item.dependency;
      var node := ResolvedDependency(dPom.repository, rp.requested.gav, dep, rp.requested.licenses,
                                     GetValue(rp, env, dep.type_), GetValue(rp, env, dep.classifier),
                                     ValueOfBoolean(GetValue(rp, env, dep.optional)), depth);
      return Added(node, d, rp);
    }

    /**
     * The loop body of resolveDependencies for one frontier entry: process it, then
     * record the error, or add the node and queue its followed dependencies.
     * `stop` carries a restart or a give-up, which ends the pass.
     */
    method WalkItem(env: Env, item: Pending, depth: nat, ghost frontier: seq<Pending>, g: Graph,
                    errors: seq<MavenError>, reqs: map<GroupArtifact, VersionRequirement>, next: seq<Pending>)
      returns (stop: Option<Pass>, g': Graph, errors': seq<MavenError>,
               reqs': map<GroupArtifact, VersionRequirement>, next': seq<Pending>)
      requires item in frontier
      requires WellFormed(State(), g) && Rooted(State(), errors) && Below(g, depth)
      requires FrontierOk(State(), g, depth, frontier) && NextOk(State(), g, depth, next)
      ensures Advance(stop, WalkState(g', errors', reqs', next'))
           == ItemOutcome(State(), env, item, depth, frontier, WalkState(g, errors, reqs, next))
    {
      var top := State();
      var r := ProcessItem(env, item, depth, reqs, g.nodes);
      ProcessStepShape(top, env, item, depth, reqs, g.nodes);
      stop, g', errors', reqs', next' := None, g, errors, r.requirements, next;
      match r.step
      case Skip =>
      case Restart =>
        stop := Some(Restarted);
      case Abort(ga) =>
        stop := Some(Aborted(ga));
      case Fail(e) =>
        RootedAppend(top, errors, e, item.rootDependent);
        errors' := errors + [e.(root := Some(item.rootDependent.gav))];
      case Added(node, d, rp) =>
        var parent := |g.nodes|;
        var x := ExpandChildren(top, env, d, rp, item, parent);
        ExpandedEntriesPointAtParent(top, env, d, rp, item, parent, rp.requestedDependencies);
        AddChildKeeps(top, g, depth, frontier, next, item, node, x);
        g' := AddNode(g, node, item.dependent, x.exclusions);
        next' := next + x.next;
    }

    /**
     * The inner loop of resolveDependencies: every entry of the level at `depth`, in
     * order, until one restarts or gives up.
     */
    method WalkFrontier(env: Env, depth: nat, frontier: seq<Pending>, g0: Graph, errors0: seq<MavenError>,
                        reqs0: map<GroupArtifact, VersionRequirement>)
      returns (stop: Option<Pass>, g: Graph, errors: seq<MavenError>,
               reqs: map<GroupArtifact, VersionRequirement>, next: seq<Pending>)
      requires WalkOk(State(), depth, frontier, WalkState(g0, errors0, reqs0, []))
      ensures Advance(stop, WalkState(g, errors, reqs, next))
           == WalkLevel(State(), env, depth, frontier, frontier, WalkState(g0, errors0, reqs0, []))
    {
      var top := State();
      ghost var whole := WalkLevel(top, env, depth, frontier, frontier, WalkState(g0, errors0, reqs0, []));
      g, errors, reqs, next := g0, errors0, reqs0, [];
      var i := 0;
      assert frontier[0..] == frontier;
      while i < |frontier|
        invariant 0 <= i <= |frontier|
        invariant WalkOk(top, depth, frontier, WalkState(g, errors, reqs, next))
        invariant WalkLevel(top, env, depth, frontier, frontier[i..], WalkState(g, errors, reqs, next)) == whole
      {
        assert frontier[i..][1..] == frontier[i + 1..];
        ghost var st := WalkState(g, errors, reqs, next);
        ItemOutcomeKeeps(top, env, frontier[i], depth, frontier, st);
        stop, g, errors, reqs, next := WalkItem(env, frontier[i], depth, frontier, g, errors, reqs, next);
        if stop.Some? {
          return;
        }
        i := i + 1;
      }
      stop := None;
    }

    /**
     * One pass of resolveDependencies: breadth first from the project dependencies in
     * `scope`, level by level, at most `maxDepth` levels deep.
     */
    method WalkOnce(env: Env, scope: Scope, requirements: map<GroupArtifact, VersionRequirement>, maxDepth: nat)
      returns (pass: Pass, reqs: map<GroupArtifact, VersionRequirement>)
      ensures (pass, reqs) == WalkPass(State(), env, scope, requirements, maxDepth)
    {
      var top := State();
      var frontier := CollectSeeds(top, env, scope);
      SeedsFrontier(top, env, scope);
      assert LevelStart(top, 0, frontier, Graph([], [], []), []);
      pass, reqs := WalkLevels(env, frontier, requirements, maxDepth);
    }

    /** The level loop of resolveDependencies, from the seeds `frontier` on. */
    method WalkLevels(env: Env, frontier0: seq<Pending>, requirements: map<GroupArtifact, VersionRequirement>,
                      maxDepth: nat)
      returns (pass: Pass, reqs: map<GroupArtifact, VersionRequirement>)
      requires LevelStart(State(), 0, frontier0, Graph([], [], []), [])
      ensures (pass, reqs) == WalkFrom(State(), env, 0, frontier0, Graph([], [], []), [], requirements, maxDepth)
    {
      var top := State();
      ghost var goal := WalkFrom(top, env, 0, frontier0, Graph([], [], []), [], requirements, maxDepth);
      var frontier := frontier0;
      var g := Graph([], [], []);
      var errors: seq<MavenError> := [];
      var depth: nat := 0;
      reqs := requirements;
      while |frontier| > 0
        invariant depth <= maxDepth + 1
        invariant LevelStart(top, depth, frontier, g, errors)
        invariant WalkFrom(top, env, depth, frontier, g, errors, reqs, maxDepth) == goal
        decreases maxDepth + 1 - depth
      {
        if depth > maxDepth {
          return PassTooDeep, reqs;
        }
        WalkFromStep(top, env, depth, frontier, g, errors, reqs, maxDepth);
        var stop;
        stop, frontier, g, errors, reqs := WalkDepth(env, depth, frontier, g, errors, reqs, maxDepth);
        if stop.Some? {
          return stop.value, reqs;
        }
        depth := depth + 1;
      }
      return Walked(g, errors), reqs;
    }

    /** One turn of the level loop: the level at `depth`, and the frontier it leaves for the next. */
    method WalkDepth(env: Env, depth: nat, frontier: seq<Pending>, g: Graph, errors: seq<MavenError>,
                     reqs: map<GroupArtifact, VersionRequirement>, maxDepth: nat)
      returns (stop: Option<Pass>, next: seq<Pending>, g': Graph, errors': seq<MavenError>,
               reqs': map<GroupArtifact, VersionRequirement>)
      requires depth <= maxDepth && |frontier| > 0 && LevelStart(State(), depth, frontier, g, errors)
      ensures Advance(stop, WalkState(g', errors', reqs', next)) == Level(State(), env, depth, frontier, g, errors, reqs)
    {
      LevelStartOk(State(), depth, frontier, g, errors, reqs);
      stop, g', errors', reqs', next := WalkFrontier(env, depth, frontier, g, errors, reqs);
    }

    /**
     * resolveDependencies: walk again, with the requirements learned so far, each
     * time a refined requirement changes a chosen version, at most `restarts` times.
     */
    method ResolveDependencies(env: Env, scope: Scope, requirements: map<GroupArtifact, VersionRequirement>,
                               restarts: nat, maxDepth: nat)
      returns (result: Resolution, reqs: map<GroupArtifact, VersionRequirement>)
      ensures (result, reqs) == ResolveWith(State(), env, scope, requirements, restarts, maxDepth)
    {
      ghost var goal := ResolveWith(State(), env, scope, requirements, restarts, maxDepth);
      var pass;
      pass, reqs := WalkOnce(env, scope, requirements, maxDepth);
      var left := restarts;
      ghost var learned := requirements;
      ResolveWithStep(State(), env, scope, learned, left, maxDepth);
      while pass.Restarted? && left > 0
        invariant (pass, reqs) == WalkPass(State(), env, scope, learned, maxDepth)
        invariant ResolveWith(State(), env, scope, learned, left, maxDepth) == goal
        invariant ResolveWith(State(), env, scope, learned, left, maxDepth)
               == if pass.Restarted? && left > 0 then ResolveWith(State(), env, scope, reqs, left - 1, maxDepth)
                  else (Finish(pass), reqs)
        decreases left
      {
        left := left - 1;
        learned := reqs;
        var reqs';
        pass, reqs' := WalkOnce(env, scope, reqs, maxDepth);
        reqs := reqs';
        ResolveWithStep(State(), env, scope, learned, left, maxDepth);
      }
      result := Finish(pass);
    }
  }

  /** UniqueDependencyKey of a management entry. */
  function ManagedDependencyKey(dm: ResolvedManagedDependency): (Gav, Option<string>, Option<string>, Scope) {
    (dm.gav, dm.type_, dm.classifier, dm.scope)
  }

  /** UniqueDependencyKey of a requested dependency. */
  function DependencyKey(d: Dependency): (Gav, Option<string>, Option<string>, Option<string>) {
    (d.gav, d.type_, d.classifier, d.scope)
  }
}
