/**
 * The merge rules of the parent-chain resolver: properties and repositories are
 * merged first-wins (a repository with a known non-null id is dropped), requested
 * dependencies and dependency management are only ever appended to.
 */
module PomMerge {
  import opened Wrappers
  import opened MavenTypes
  import opened PomLookup

  /** mergeProperties: a key already present keeps its value; new keys come from `incoming`. */
  function MergedProperties(props: map<string, string>, incoming: map<string, string>): (r: map<string, string>)
    ensures r.Keys == props.Keys + incoming.Keys
    ensures forall k :: k in props ==> r[k] == props[k]
    ensures forall k :: k in incoming && k !in props ==> r[k] == incoming[k]
  {
    map k | k in props.Keys + incoming.Keys :: if k in props then props[k] else incoming[k]
  }

  /** Some repository of the list carries the id. */
  predicate HasId(repos: seq<MavenRepository>, id: string) {
    exists i :: 0 <= i < |repos| && repos[i].id == Some(id)
  }

  /** No two repositories of the list share a non-null id. */
  predicate UniqueIds(repos: seq<MavenRepository>) {
    forall i, j :: 0 <= i < j < |repos| && repos[i].id.Some? ==> repos[j].id != repos[i].id
  }

  /** The copy mergeRepositories builds: id and URI substituted, the rest as declared. */
  function SubstitutedRepository(st: PomState, env: Env, r: MavenRepository): MavenRepository {
    r.(id := GetValue(st, env, r.id), uri := GetValue(st, env, r.uri))
  }

  function SubstitutedRepositories(st: PomState, env: Env, incoming: seq<MavenRepository>): (r: seq<MavenRepository>)
    ensures |r| == |incoming|
    ensures forall i :: 0 <= i < |incoming| ==> r[i] == SubstitutedRepository(st, env, incoming[i])
  {
    seq(|incoming|, i requires 0 <= i < |incoming| => SubstitutedRepository(st, env, incoming[i]))
  }

  /** One step of mergeRepositories: skip a repository whose non-null id is known, else append it. */
  function AddRepository(repos: seq<MavenRepository>, r: MavenRepository): seq<MavenRepository> {
    if r.id.Some? && HasId(repos, r.id.value) then repos else repos + [r]
  }

  /** mergeRepositories over already substituted repositories, in order. */
  function MergedRepositories(repos: seq<MavenRepository>, incoming: seq<MavenRepository>): seq<MavenRepository>
    decreases |incoming|
  {
    if |incoming| == 0 then repos
    else MergedRepositories(AddRepository(repos, incoming[0]), incoming[1..])
  }

  /** mergeRepositories on the resolver's state: substitution reads the state before the merge. */
  function MergeRepositoriesInto(st: PomState, env: Env, incoming: seq<MavenRepository>): PomState {
    st.(repositories := MergedRepositories(st.repositories, SubstitutedRepositories(st, env, incoming)))
  }

  /** The repositories already merged are kept, in place and in order. */
  lemma {:induction false} MergedRepositoriesExtends(repos: seq<MavenRepository>, incoming: seq<MavenRepository>)
    ensures |MergedRepositories(repos, incoming)| >= |repos|
    ensures MergedRepositories(repos, incoming)[..|repos|] == repos
    decreases |incoming|
  {
    if |incoming| > 0 {
      var next := AddRepository(repos, incoming[0]);
      MergedRepositoriesExtends(next, incoming[1..]);
      assert next[..|repos|] == repos;
    }
  }

  /** Nothing is invented: every merged repository was there before or came in. */
  lemma {:induction false} MergedRepositoriesFrom(repos: seq<MavenRepository>, incoming: seq<MavenRepository>)
    ensures forall x :: x in MergedRepositories(repos, incoming) ==> x in repos || x in incoming
    decreases |incoming|
  {
    if |incoming| > 0 {
      var next := AddRepository(repos, incoming[0]);
      MergedRepositoriesFrom(next, incoming[1..]);
      forall x | x in MergedRepositories(repos, incoming)
        ensures x in repos || x in incoming
      {
        assert x in next || x in incoming[1..];
      }
    }
  }

  /**
   * Every incoming repository is accounted for: one without an id is always
   * appended, and the id of one with an id is present afterwards.
   */
  lemma {:induction false} MergedRepositoriesCovers(repos: seq<MavenRepository>, incoming: seq<MavenRepository>)
    ensures forall i :: 0 <= i < |incoming| && incoming[i].id.None? ==> incoming[i] in MergedRepositories(repos, incoming)
    ensures forall i :: 0 <= i < |incoming| && incoming[i].id.Some? ==> HasId(MergedRepositories(repos, incoming), incoming[i].id.value)
    decreases |incoming|
  {
    if |incoming| > 0 {
      var next := AddRepository(repos, incoming[0]);
      var r := MergedRepositories(repos, incoming);
      MergedRepositoriesCovers(next, incoming[1..]);
      MergedRepositoriesExtends(next, incoming[1..]);
      assert r == MergedRepositories(next, incoming[1..]);
      if incoming[0].id.None? {
        assert next[|next| - 1] == incoming[0];
        assert r[|next| - 1] == incoming[0];
      } else {
        var k :| 0 <= k < |next| && next[k].id == incoming[0].id;
        assert r[k] == next[k];
      }
      forall i | 1 <= i < |incoming|
        ensures incoming[i].id.None? ==> incoming[i] in r
        ensures incoming[i].id.Some? ==> HasId(r, incoming[i].id.value)
      {
        assert incoming[i] == incoming[1..][i - 1];
      }
    }
  }

  /** Merging never introduces a second repository with an id already present. */
  lemma {:induction false} MergedRepositoriesKeepUniqueIds(repos: seq<MavenRepository>, incoming: seq<MavenRepository>)
    requires UniqueIds(repos)
    ensures UniqueIds(MergedRepositories(repos, incoming))
    decreases |incoming|
  {
    if |incoming| > 0 {
      var next := AddRepository(repos, incoming[0]);
      if !(incoming[0].id.Some? && HasId(repos, incoming[0].id.value)) {
        forall i, j | 0 <= i < j < |next| && next[i].id.Some?
          ensures next[j].id != next[i].id
        {
          if j == |repos| {
            assert next[i] == repos[i];
          }
        }
      }
      MergedRepositoriesKeepUniqueIds(next, incoming[1..]);
    }
  }

  /** getValues applied to each exclusion, keeping an absent list absent. */
  function SubstitutedExclusions(st: PomState, env: Env, ex: Option<seq<GroupArtifact>>): (r: Option<seq<GroupArtifact>>)
    ensures r.Some? <==> ex.Some?
    ensures ex.Some? ==> |r.value| == |ex.value|
                         && forall i :: 0 <= i < |ex.value| ==> r.value[i] == GetValuesGa(st, env, ex.value[i])
  {
    match ex
    case None => None
    case Some(s) => Some(seq(|s|, i requires 0 <= i < |s| => GetValuesGa(st, env, s[i])))
  }

  /** The entry mergeDependencyManagement adds for a Defined management entry. */
  function ResolveDefined(st: PomState, env: Env, d: ManagedDependency): (r: ResolvedManagedDependency)
    requires d.Defined?
    ensures r.requested == d && r.requestedBom.None? && r.bomGav.None?
    ensures r.gav == GetValuesGav(st, env, d.gav)
    ensures r.scope == env.scopeFromName(GetValue(st, env, d.scope))
    ensures r.type_ == GetValue(st, env, d.type_) && r.classifier == GetValue(st, env, d.classifier)
    ensures r.exclusions == SubstitutedExclusions(st, env, d.exclusions)
  {
    ResolvedManagedDependency(
      GetValuesGav(st, env, d.gav),
      env.scopeFromName(GetValue(st, env, d.scope)),
      GetValue(st, env, d.type_),
      GetValue(st, env, d.classifier),
      SubstitutedExclusions(st, env, d.exclusions),
      d, None, None)
  }

  /** An imported BOM's entries, each tagged with the import that brought it and the BOM's coordinates. */
  function TaggedWithBom(dms: seq<ResolvedManagedDependency>, d: ManagedDependency, bomGav: ResolvedGav)
    : (r: seq<ResolvedManagedDependency>)
    ensures |r| == |dms|
    ensures forall i :: 0 <= i < |dms| ==> r[i] == dms[i].(requestedBom := Some(d), bomGav := Some(bomGav))
  {
    seq(|dms|, i requires 0 <= i < |dms| => dms[i].(requestedBom := Some(d), bomGav := Some(bomGav)))
  }
}
