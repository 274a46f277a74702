/**
 * The parent-chain resolver as functions on the resolver's state: pass A merges
 * properties and repositories level by level from the requested POM up to the
 * root of its parents, the requested coordinates are then substituted, and pass B
 * merges dependency management (importing BOMs through the same pipeline) and
 * requested dependencies. A parent already on the ancestry stops a pass silently.
 */
module ParentChain {
  import opened Wrappers
  import opened MavenTypes
  import opened PomLookup
  import opened PomMerge

  /** The state a resolution step leaves behind, and the failure that ended it, if any. */
  datatype Outcome = Outcome(st: PomState, err: Option<MavenError>)

  /** Profile.isActive(activeProfiles) for the resolver's own active profile names. */
  predicate Active(st: PomState, env: Env, p: Profile) {
    env.isActive(p, st.activeProfiles)
  }

  /** The first loop of pass A: each active profile's properties, in order. */
  function ProfileProperties(st: PomState, env: Env, profiles: seq<Profile>): PomState
    decreases |profiles|
  {
    if |profiles| == 0 then st
    else
      var next := if Active(st, env, profiles[0])
                  then st.(properties := MergedProperties(st.properties, profiles[0].properties))
                  else st;
      ProfileProperties(next, env, profiles[1..])
  }

  /** The second loop of pass A: each active profile's repositories, in order. */
  function ProfileRepositories(st: PomState, env: Env, profiles: seq<Profile>): PomState
    decreases |profiles|
  {
    if |profiles| == 0 then st
    else
      var next := if Active(st, env, profiles[0]) then MergeRepositoriesInto(st, env, profiles[0].repositories) else st;
      ProfileRepositories(next, env, profiles[1..])
  }

  /** What pass A merges from one POM: profile properties, base properties, profile repositories, base repositories. */
  function LevelA(st: PomState, env: Env, pom: Pom): PomState {
    var s1 := ProfileProperties(st, env, pom.profiles);
    var s2 := s1.(properties := MergedProperties(s1.properties, pom.properties));
    var s3 := ProfileRepositories(s2, env, pom.profiles);
    MergeRepositoriesInto(s3, env, pom.repositories)
  }

  /** resolveParentPropertiesAndRepositoriesRecursively; `ancestry[0]` is the POM being merged. */
  function PassA(st: PomState, env: Env, ancestry: seq<Pom>): Outcome
    requires |ancestry| > 0
    decreases |Universe(env) - AncestryGavs(ancestry)|
  {
    var pom := ancestry[0];
    var s := LevelA(st, env, pom);
    if pom.parent.None? then Outcome(s, None)
    else
      match Download(env, GetValuesGav(s, env, pom.parent.value.gav))
      case Failure(e) => Outcome(s, Some(e))
      case Success(parentPom) =>
        if parentPom.gav in AncestryGavs(ancestry) then Outcome(s, None)
        else
          AncestryGrows(env, ancestry, parentPom);
          PassA(s, env, [parentPom] + ancestry)
  }

  /** The requested POM with placeholders in its coordinates replaced, all looked up in the same state. */
  function SubstitutedRequested(st: PomState, env: Env): Pom {
    var g := st.requested.gav;
    st.requested.(gav := ResolvedGav(GetValue(st, env, g.repository), Substitute(st, env, g.groupId),
                                     Substitute(st, env, g.artifactId), Substitute(st, env, g.version),
                                     GetValue(st, env, g.datedSnapshotVersion)))
  }

  /**
   * resolveParentsRecursively: merge the initial repositories, run pass A, default the
   * initial repositories to what pass A found, substitute the requested coordinates,
   * then run pass B from the same (unsubstituted) POM. `fuel` bounds how deeply BOM
   * imports may nest.
   */
  function ResolveParents(st: PomState, env: Env, requested: Pom, fuel: nat): Outcome
    decreases fuel, 3, 0, 0
  {
    var s0 := if st.initialRepositories.Some? then MergeRepositoriesInto(st, env, st.initialRepositories.value) else st;
    var a := PassA(s0, env, [requested]);
    if a.err.Some? then a
    else
      var s1 := if a.st.initialRepositories.None? then a.st.(initialRepositories := Some(a.st.repositories)) else a.st;
      PassB(s1.(requested := SubstitutedRequested(s1, env)), env, [requested], fuel)
  }

  /** resolveParentDependenciesRecursively */
  function PassB(st: PomState, env: Env, ancestry: seq<Pom>, fuel: nat): Outcome
    requires |ancestry| > 0
    decreases fuel, 2, |Universe(env) - AncestryGavs(ancestry)|, 0
  {
    var pom := ancestry[0];
    var p := ProfilesB(st, env, pom.profiles, fuel);
    if p.err.Some? then p
    else
      var m := MergeDM(p.st, env, pom.dependencyManagement, fuel);
      if m.err.Some? then m
      else
        var s := m.st.(requestedDependencies := m.st.requestedDependencies + pom.dependencies);
        if pom.parent.None? then Outcome(s, None)
        else
          match Download(env, GetValuesGav(s, env, pom.parent.value.gav))
          case Failure(e) => Outcome(s, Some(e))
          case Success(parentPom) =>
            if parentPom.gav in AncestryGavs(ancestry) then Outcome(s, None)
            else
              AncestryGrows(env, ancestry, parentPom);
              PassB(s, env, [parentPom] + ancestry, fuel)
  }

  /** The profile loop of pass B: each active profile's management, then its dependencies. */
  function ProfilesB(st: PomState, env: Env, profiles: seq<Profile>, fuel: nat): Outcome
    decreases fuel, 1, 0, |profiles|
  {
    if |profiles| == 0 then Outcome(st, None)
    else if !Active(st, env, profiles[0]) then ProfilesB(st, env, profiles[1..], fuel)
    else
      var m := MergeDM(st, env, profiles[0].dependencyManagement, fuel);
      if m.err.Some? then m
      else ProfilesB(m.st.(requestedDependencies := m.st.requestedDependencies + profiles[0].dependencies),
                     env, profiles[1..], fuel)
  }

  /** The BOM an Imported entry names, resolved like any POM with the importer's profiles and initial repositories. */
  function ImportBom(st: PomState, env: Env, bomPom: Pom, fuel: nat): Outcome
    decreases fuel, 4, 0, 0
  {
    ResolveParents(Unresolved(bomPom, st.activeProfiles, st.initialRepositories), env, bomPom, fuel)
  }

  /**
   * One entry of mergeDependencyManagement: a Defined entry is substituted and
   * appended; an Imported entry has its BOM resolved and all of the BOM's entries
   * appended, tagged with their provenance.
   */
  function MergeEntry(st: PomState, env: Env, d: ManagedDependency, fuel: nat): Outcome
    decreases fuel, 0, 0, 0
  {
    match d
    case Defined(_, _, _, _, _) =>
      Outcome(st.(dependencyManagement := st.dependencyManagement + [ResolveDefined(st, env, d)]), None)
    case Imported(gav) =>
      var bomGav := GetValuesGav(st, env, gav);
      match Download(env, bomGav)
      case Failure(e) => Outcome(st, Some(e))
      case Success(bomPom) =>
        if fuel == 0 then Outcome(st, Some(MavenError(ImportTooDeep, bomGav, None)))
        else
          var b := ImportBom(st, env, bomPom, fuel - 1);
          if b.err.Some? then Outcome(st, b.err)
          else
            Outcome(st.(dependencyManagement := st.dependencyManagement
                          + TaggedWithBom(b.st.dependencyManagement, d, b.st.requested.gav)), None)
  }

  /** mergeDependencyManagement, entry by entry in declaration order, stopping at the first failure. */
  function MergeDM(st: PomState, env: Env, incoming: seq<ManagedDependency>, fuel: nat): Outcome
    decreases fuel, 0, 0, |incoming| + 1
  {
    if |incoming| == 0 then Outcome(st, None)
    else
      var o := MergeEntry(st, env, incoming[0], fuel);
      if o.err.Some? then o else MergeDM(o.st, env, incoming[1..], fuel)
  }

  // ---------------------------------------------------------------------------
  // Pass A: first value wins, the leaf wins over its ancestors
  // ---------------------------------------------------------------------------

  /**
   * Profile properties are merged first-wins: existing keys keep their value, and a
   * new key takes the value of the first active profile that declares it.
   */
  lemma {:induction false} ProfilePropertiesFirstActiveWins(st: PomState, env: Env, profiles: seq<Profile>)
    ensures ProfileProperties(st, env, profiles)
            == st.(properties := ProfileProperties(st, env, profiles).properties)
    ensures var r := ProfileProperties(st, env, profiles).properties;
      forall k :: k in st.properties ==> k in r && r[k] == st.properties[k]
    ensures var r := ProfileProperties(st, env, profiles).properties;
      forall i, k :: 0 <= i < |profiles| && Active(st, env, profiles[i]) && k in profiles[i].properties ==> k in r
    ensures var r := ProfileProperties(st, env, profiles).properties;
      forall k :: k in r && k !in st.properties ==>
        exists i :: 0 <= i < |profiles| && Active(st, env, profiles[i]) && k in profiles[i].properties
                    && r[k] == profiles[i].properties[k]
                    && forall j :: 0 <= j < i && Active(st, env, profiles[j]) ==> k !in profiles[j].properties
    decreases |profiles|
  {
    if |profiles| > 0 {
      var next := if Active(st, env, profiles[0])
                  then st.(properties := MergedProperties(st.properties, profiles[0].properties))
                  else st;
      ProfilePropertiesFirstActiveWins(next, env, profiles[1..]);
      var r := ProfileProperties(st, env, profiles).properties;
      assert r == ProfileProperties(next, env, profiles[1..]).properties;
      forall i, k | 0 <= i < |profiles| && Active(st, env, profiles[i]) && k in profiles[i].properties
        ensures k in r
      {
        if i > 0 {
          assert profiles[i] == profiles[1..][i - 1];
        }
      }
      forall k | k in r && k !in st.properties
        ensures exists i :: 0 <= i < |profiles| && Active(st, env, profiles[i]) && k in profiles[i].properties
                    && r[k] == profiles[i].properties[k]
                    && forall j :: 0 <= j < i && Active(st, env, profiles[j]) ==> k !in profiles[j].properties
      {
        if k in next.properties {
          assert Active(st, env, profiles[0]) && k in profiles[0].properties && r[k] == profiles[0].properties[k];
        } else {
          var i' :| 0 <= i' < |profiles[1..]| && Active(next, env, profiles[1..][i']) && k in profiles[1..][i'].properties
                    && r[k] == profiles[1..][i'].properties[k]
                    && forall j :: 0 <= j < i' && Active(next, env, profiles[1..][j]) ==> k !in profiles[1..][j].properties;
          var i := i' + 1;
          assert profiles[i] == profiles[1..][i'];
          forall j | 0 <= j < i && Active(st, env, profiles[j])
            ensures k !in profiles[j].properties
          {
            if j > 0 {
              assert profiles[j] == profiles[1..][j - 1];
            }
          }
        }
      }
    }
  }

  /** Profile repositories are only ever appended, and nothing but repositories changes. */
  lemma {:induction false} ProfileRepositoriesExtend(st: PomState, env: Env, profiles: seq<Profile>)
    ensures var r := ProfileRepositories(st, env, profiles);
      r == st.(repositories := r.repositories)
      && |r.repositories| >= |st.repositories| && r.repositories[..|st.repositories|] == st.repositories
    decreases |profiles|
  {
    if |profiles| > 0 {
      var next := if Active(st, env, profiles[0]) then MergeRepositoriesInto(st, env, profiles[0].repositories) else st;
      if Active(st, env, profiles[0]) {
        MergedRepositoriesExtends(st.repositories, SubstitutedRepositories(st, env, profiles[0].repositories));
      }
      ProfileRepositoriesExtend(next, env, profiles[1..]);
      var r := ProfileRepositories(next, env, profiles[1..]).repositories;
      assert r[..|st.repositories|] == r[..|next.repositories|][..|st.repositories|];
    }
  }

  /**
   * Within one POM an active profile's property beats the POM's own, which beats
   * nothing: a key not yet merged takes the first active profile's value, else the
   * POM's own value; keys already merged are never overwritten.
   */
  lemma LevelAPrecedence(st: PomState, env: Env, pom: Pom, k: string)
    ensures var r := LevelA(st, env, pom);
      && r == st.(properties := r.properties, repositories := r.repositories)
      && (k in st.properties ==> k in r.properties && r.properties[k] == st.properties[k])
    ensures var r := LevelA(st, env, pom);
      k !in st.properties && k in pom.properties
      && (forall i :: 0 <= i < |pom.profiles| && Active(st, env, pom.profiles[i]) ==> k !in pom.profiles[i].properties)
      ==> k in r.properties && r.properties[k] == pom.properties[k]
    ensures var r := LevelA(st, env, pom);
      k !in st.properties && k in r.properties
      && (exists i :: 0 <= i < |pom.profiles| && Active(st, env, pom.profiles[i]) && k in pom.profiles[i].properties)
      ==> exists i :: 0 <= i < |pom.profiles| && Active(st, env, pom.profiles[i]) && k in pom.profiles[i].properties
                    && r.properties[k] == pom.profiles[i].properties[k]
                    && forall j :: 0 <= j < i && Active(st, env, pom.profiles[j]) ==> k !in pom.profiles[j].properties
    ensures var r := LevelA(st, env, pom);
      |r.repositories| >= |st.repositories| && r.repositories[..|st.repositories|] == st.repositories
  {
    ProfilePropertiesFirstActiveWins(st, env, pom.profiles);
    var s1 := ProfileProperties(st, env, pom.profiles);
    var s2 := s1.(properties := MergedProperties(s1.properties, pom.properties));
    var s3 := ProfileRepositories(s2, env, pom.profiles);
    ProfileRepositoriesExtend(s2, env, pom.profiles);
    MergedRepositoriesExtends(s3.repositories, SubstitutedRepositories(s3, env, pom.repositories));
    var r := LevelA(st, env, pom);
    assert r.repositories[..|st.repositories|] == r.repositories[..|s3.repositories|][..|st.repositories|];
  }

  /**
   * Pass A never overwrites a property, only appends repositories, and leaves the
   * requested POM, the management and the requested dependencies alone.
   */
  lemma {:induction false} PassAKeepsMerged(st: PomState, env: Env, ancestry: seq<Pom>)
    requires |ancestry| > 0
    ensures var o := PassA(st, env, ancestry).st;
      o == st.(properties := o.properties, repositories := o.repositories)
    ensures var o := PassA(st, env, ancestry).st;
      forall k :: k in st.properties ==> k in o.properties && o.properties[k] == st.properties[k]
    ensures var o := PassA(st, env, ancestry).st;
      |o.repositories| >= |st.repositories| && o.repositories[..|st.repositories|] == st.repositories
    decreases |Universe(env) - AncestryGavs(ancestry)|
  {
    var pom := ancestry[0];
    var s := LevelA(st, env, pom);
    LevelAKeepsMerged(st, env, pom);
    if pom.parent.Some? {
      var dl := Download(env, GetValuesGav(s, env, pom.parent.value.gav));
      if dl.Success? && dl.value.gav !in AncestryGavs(ancestry) {
        AncestryGrows(env, ancestry, dl.value);
        PassAKeepsMerged(s, env, [dl.value] + ancestry);
        var o := PassA(st, env, ancestry).st;
        assert o == PassA(s, env, [dl.value] + ancestry).st;
        KeepsMergedTrans(st, s, o);
      }
    }
  }

  /** `o` keeps every property of `st` and extends its repositories, and differs from it nowhere else. */
  ghost predicate KeepsMerged(st: PomState, o: PomState) {
    && o == st.(properties := o.properties, repositories := o.repositories)
    && (forall k :: k in st.properties ==> k in o.properties && o.properties[k] == st.properties[k])
    && |o.repositories| >= |st.repositories| && o.repositories[..|st.repositories|] == st.repositories
  }

  lemma KeepsMergedTrans(a: PomState, b: PomState, c: PomState)
    requires KeepsMerged(a, b) && KeepsMerged(b, c)
    ensures KeepsMerged(a, c)
  {
    assert c.repositories[..|a.repositories|] == c.repositories[..|b.repositories|][..|a.repositories|];
  }

  /** One level of pass A keeps what was merged before it. */
  lemma LevelAKeepsMerged(st: PomState, env: Env, pom: Pom)
    ensures KeepsMerged(st, LevelA(st, env, pom))
  {
    var s := LevelA(st, env, pom);
    forall k | k in st.properties
      ensures k in s.properties && s.properties[k] == st.properties[k]
    {
      LevelAPrecedence(st, env, pom, k);
    }
    LevelAPrecedence(st, env, pom, "");
  }

  /** The leaf wins: what pass A merged from the requested POM survives every ancestor. */
  lemma LeafWins(st: PomState, env: Env, ancestry: seq<Pom>)
    requires |ancestry| > 0
    ensures var leaf := LevelA(st, env, ancestry[0]).properties; var o := PassA(st, env, ancestry).st.properties;
      forall k :: k in leaf ==> k in o && o[k] == leaf[k]
  {
    var pom := ancestry[0];
    var s := LevelA(st, env, pom);
    if pom.parent.Some? {
      var dl := Download(env, GetValuesGav(s, env, pom.parent.value.gav));
      if dl.Success? && dl.value.gav !in AncestryGavs(ancestry) {
        AncestryGrows(env, ancestry, dl.value);
        PassAKeepsMerged(s, env, [dl.value] + ancestry);
      }
    }
  }

  /** A parent that is already on the ancestry ends pass A without error after merging the current POM. */
  lemma PassAStopsOnCycle(st: PomState, env: Env, ancestry: seq<Pom>)
    requires |ancestry| > 0 && ancestry[0].parent.Some?
    requires var s := LevelA(st, env, ancestry[0]);
      var dl := Download(env, GetValuesGav(s, env, ancestry[0].parent.value.gav));
      dl.Success? && dl.value.gav in AncestryGavs(ancestry)
    ensures PassA(st, env, ancestry) == Outcome(LevelA(st, env, ancestry[0]), None)
  {
  }

  // ---------------------------------------------------------------------------
  // Pass B: management and requested dependencies are only appended to
  // ---------------------------------------------------------------------------

  /** One management entry only appends to the management list; on failure it changes nothing. */
  lemma MergeEntryAppends(st: PomState, env: Env, d: ManagedDependency, fuel: nat)
    ensures var o := MergeEntry(st, env, d, fuel);
      && o.st == st.(dependencyManagement := o.st.dependencyManagement)
      && |o.st.dependencyManagement| >= |st.dependencyManagement|
      && o.st.dependencyManagement[..|st.dependencyManagement|] == st.dependencyManagement
      && (o.err.Some? ==> o.st == st)
  {
  }

  /** mergeDependencyManagement only appends to the management list and changes nothing else. */
  lemma {:induction false} MergeDMAppends(st: PomState, env: Env, incoming: seq<ManagedDependency>, fuel: nat)
    ensures var o := MergeDM(st, env, incoming, fuel).st;
      o == st.(dependencyManagement := o.dependencyManagement)
      && |o.dependencyManagement| >= |st.dependencyManagement|
      && o.dependencyManagement[..|st.dependencyManagement|] == st.dependencyManagement
    decreases |incoming|
  {
    if |incoming| > 0 {
      var o := MergeDM(st, env, incoming, fuel).st;
      var e := MergeEntry(st, env, incoming[0], fuel);
      MergeEntryAppends(st, env, incoming[0], fuel);
      if e.err.None? {
        MergeDMAppends(e.st, env, incoming[1..], fuel);
        assert o.dependencyManagement[..|st.dependencyManagement|]
            == o.dependencyManagement[..|e.st.dependencyManagement|][..|st.dependencyManagement|];
      }
    }
  }

  /** Merging two management lists in turn is merging their concatenation. */
  lemma {:induction false} MergeDMConcat(st: PomState, env: Env, a: seq<ManagedDependency>, b: seq<ManagedDependency>, fuel: nat)
    ensures MergeDM(st, env, a + b, fuel)
            == (var o := MergeDM(st, env, a, fuel); if o.err.Some? then o else MergeDM(o.st, env, b, fuel))
    decreases |a|
  {
    if |a| > 0 {
      assert (a + b)[0] == a[0];
      assert (a + b)[1..] == a[1..] + b;
      var e := MergeEntry(st, env, a[0], fuel);
      if e.err.None? {
        MergeDMConcat(e.st, env, a[1..], b, fuel);
      }
    } else {
      assert a + b == b;
    }
  }

  /** A Defined entry adds exactly one entry, with its coordinates substituted and no BOM provenance. */
  lemma DefinedAddsOne(st: PomState, env: Env, d: ManagedDependency, fuel: nat)
    requires d.Defined?
    ensures var o := MergeDM(st, env, [d], fuel);
      && o.err.None?
      && o.st == st.(dependencyManagement := st.dependencyManagement + [ResolveDefined(st, env, d)])
      && o.st.dependencyManagement[|st.dependencyManagement|].gav == GetValuesGav(st, env, d.gav)
      && o.st.dependencyManagement[|st.dependencyManagement|].requestedBom.None?
  {
    assert [d][1..] == [];
  }

  /**
   * An Imported entry whose BOM resolves adds all of the BOM's management entries,
   * in order, each tagged with the import and the BOM's coordinates.
   */
  lemma ImportedAddsBomEntries(st: PomState, env: Env, d: ManagedDependency, fuel: nat, bomPom: Pom)
    requires d.Imported? && fuel > 0
    requires Download(env, GetValuesGav(st, env, d.gav)) == Success(bomPom)
    requires ImportBom(st, env, bomPom, fuel - 1).err.None?
    ensures var bom := ImportBom(st, env, bomPom, fuel - 1).st; var o := MergeDM(st, env, [d], fuel);
      && o.err.None?
      && |o.st.dependencyManagement| == |st.dependencyManagement| + |bom.dependencyManagement|
      && o.st.dependencyManagement[..|st.dependencyManagement|] == st.dependencyManagement
      && forall i :: 0 <= i < |bom.dependencyManagement| ==>
           var e := o.st.dependencyManagement[|st.dependencyManagement| + i];
           e == bom.dependencyManagement[i].(requestedBom := Some(d), bomGav := Some(bom.requested.gav))
  {
    assert [d][1..] == [];
  }

  /** The profile loop of pass B only appends to management and requested dependencies. */
  lemma {:induction false} ProfilesBAppends(st: PomState, env: Env, profiles: seq<Profile>, fuel: nat)
    ensures var o := ProfilesB(st, env, profiles, fuel).st;
      && o == st.(dependencyManagement := o.dependencyManagement, requestedDependencies := o.requestedDependencies)
      && |o.dependencyManagement| >= |st.dependencyManagement|
      && o.dependencyManagement[..|st.dependencyManagement|] == st.dependencyManagement
      && |o.requestedDependencies| >= |st.requestedDependencies|
      && o.requestedDependencies[..|st.requestedDependencies|] == st.requestedDependencies
    decreases |profiles|
  {
    if |profiles| > 0 {
      var o := ProfilesB(st, env, profiles, fuel).st;
      if !Active(st, env, profiles[0]) {
        ProfilesBAppends(st, env, profiles[1..], fuel);
      } else {
        MergeDMAppends(st, env, profiles[0].dependencyManagement, fuel);
        var m := MergeDM(st, env, profiles[0].dependencyManagement, fuel);
        if m.err.None? {
          var next := m.st.(requestedDependencies := m.st.requestedDependencies + profiles[0].dependencies);
          ProfilesBAppends(next, env, profiles[1..], fuel);
          assert o.dependencyManagement[..|st.dependencyManagement|]
              == o.dependencyManagement[..|next.dependencyManagement|][..|st.dependencyManagement|];
          assert o.requestedDependencies[..|st.requestedDependencies|]
              == o.requestedDependencies[..|next.requestedDependencies|][..|st.requestedDependencies|];
        }
      }
    }
  }

  /** `o` keeps everything of `st` except that management and requested dependencies may grow at the end. */
  ghost predicate OnlyAppends(st: PomState, o: PomState)
  {
    && o == st.(dependencyManagement := o.dependencyManagement, requestedDependencies := o.requestedDependencies)
    && |o.dependencyManagement| >= |st.dependencyManagement|
    && o.dependencyManagement[..|st.dependencyManagement|] == st.dependencyManagement
    && |o.requestedDependencies| >= |st.requestedDependencies|
    && o.requestedDependencies[..|st.requestedDependencies|] == st.requestedDependencies
  }

  lemma OnlyAppendsTrans(a: PomState, b: PomState, c: PomState)
    requires OnlyAppends(a, b) && OnlyAppends(b, c)
    ensures OnlyAppends(a, c)
  {
    assert c.dependencyManagement[..|a.dependencyManagement|]
        == c.dependencyManagement[..|b.dependencyManagement|][..|a.dependencyManagement|];
    assert c.requestedDependencies[..|a.requestedDependencies|]
        == c.requestedDependencies[..|b.requestedDependencies|][..|a.requestedDependencies|];
  }

  /** The first step of pass B on one POM: its profiles, its management, then its dependencies. */
  lemma PassBStepAppends(st: PomState, env: Env, pom: Pom, fuel: nat)
    ensures var p := ProfilesB(st, env, pom.profiles, fuel);
      var m := MergeDM(p.st, env, pom.dependencyManagement, fuel);
      && OnlyAppends(st, p.st)
      && (p.err.None? ==> OnlyAppends(st, m.st))
      && (p.err.None? && m.err.None? ==>
            OnlyAppends(st, m.st.(requestedDependencies := m.st.requestedDependencies + pom.dependencies)))
  {
    ProfilesBAppends(st, env, pom.profiles, fuel);
    var p := ProfilesB(st, env, pom.profiles, fuel);
    MergeDMAppends(p.st, env, pom.dependencyManagement, fuel);
    var m := MergeDM(p.st, env, pom.dependencyManagement, fuel);
    assert OnlyAppends(p.st, m.st);
    OnlyAppendsTrans(st, p.st, m.st);
    var s := m.st.(requestedDependencies := m.st.requestedDependencies + pom.dependencies);
    assert s.requestedDependencies[..|m.st.requestedDependencies|] == m.st.requestedDependencies;
    assert OnlyAppends(m.st, s);
    OnlyAppendsTrans(st, m.st, s);
  }

  /**
   * Pass B only appends to management and requested dependencies: properties,
   * repositories and the requested POM are exactly what pass A left.
   */
  lemma {:induction false} PassBAppends(st: PomState, env: Env, ancestry: seq<Pom>, fuel: nat)
    requires |ancestry| > 0
    ensures var o := PassB(st, env, ancestry, fuel).st;
      && o == st.(dependencyManagement := o.dependencyManagement, requestedDependencies := o.requestedDependencies)
      && |o.dependencyManagement| >= |st.dependencyManagement|
      && o.dependencyManagement[..|st.dependencyManagement|] == st.dependencyManagement
      && |o.requestedDependencies| >= |st.requestedDependencies|
      && o.requestedDependencies[..|st.requestedDependencies|] == st.requestedDependencies
    decreases |Universe(env) - AncestryGavs(ancestry)|
  {
    var pom := ancestry[0];
    PassBStepAppends(st, env, pom, fuel);
    var p := ProfilesB(st, env, pom.profiles, fuel);
    if p.err.None? {
      var m := MergeDM(p.st, env, pom.dependencyManagement, fuel);
      if m.err.None? {
        var s := m.st.(requestedDependencies := m.st.requestedDependencies + pom.dependencies);
        if pom.parent.Some? {
          var dl := Download(env, GetValuesGav(s, env, pom.parent.value.gav));
          if dl.Success? && dl.value.gav !in AncestryGavs(ancestry) {
            AncestryGrows(env, ancestry, dl.value);
            PassBAppends(s, env, [dl.value] + ancestry, fuel);
            var o := PassB(st, env, ancestry, fuel).st;
            assert o == PassB(s, env, [dl.value] + ancestry, fuel).st;
            OnlyAppendsTrans(st, s, o);
          }
        }
      }
    }
  }

  /** A parent that is already on the ancestry ends pass B without error. */
  lemma PassBStopsOnCycle(st: PomState, env: Env, ancestry: seq<Pom>, fuel: nat)
    requires |ancestry| > 0 && ancestry[0].parent.Some?
    requires ProfilesB(st, env, ancestry[0].profiles, fuel).err.None?
    requires MergeDM(ProfilesB(st, env, ancestry[0].profiles, fuel).st, env, ancestry[0].dependencyManagement, fuel).err.None?
    requires var m := MergeDM(ProfilesB(st, env, ancestry[0].profiles, fuel).st, env, ancestry[0].dependencyManagement, fuel).st;
      var s := m.(requestedDependencies := m.requestedDependencies + ancestry[0].dependencies);
      var dl := Download(env, GetValuesGav(s, env, ancestry[0].parent.value.gav));
      dl.Success? && dl.value.gav in AncestryGavs(ancestry)
    ensures var m := MergeDM(ProfilesB(st, env, ancestry[0].profiles, fuel).st, env, ancestry[0].dependencyManagement, fuel).st;
      PassB(st, env, ancestry, fuel) == Outcome(m.(requestedDependencies := m.requestedDependencies + ancestry[0].dependencies), None)
  {
  }

  /**
   * A full resolution: properties and repositories are exactly what pass A merged,
   * the requested coordinates are substituted in that state, and the initial
   * repositories default to the repositories pass A found.
   */
  lemma ResolveParentsSplitsPasses(st: PomState, env: Env, requested: Pom, fuel: nat)
    requires st.initialRepositories.None?
    requires PassA(st, env, [requested]).err.None?
    ensures var a := PassA(st, env, [requested]).st; var o := ResolveParents(st, env, requested, fuel).st;
      && o.properties == a.properties
      && o.repositories == a.repositories
      && o.initialRepositories == Some(a.repositories)
      && o.requested == SubstitutedRequested(a.(initialRepositories := Some(a.repositories)), env)
      && o.requested.gav.groupId == Substitute(a, env, st.requested.gav.groupId)
  {
    PassAKeepsMerged(st, env, [requested]);
    var a := PassA(st, env, [requested]).st;
    var s1 := a.(initialRepositories := Some(a.repositories));
    PassBAppends(s1.(requested := SubstitutedRequested(s1, env)), env, [requested], fuel);
    SubstitutionReadsProperties(s1, a, env, Some(st.requested.gav.groupId));
  }

  /**
   * A resolution seeded with initial repositories: those are merged before pass A,
   * so they come first among the repositories; they stay the initial repositories;
   * and properties and repositories are exactly what pass A merged.
   */
  lemma ResolveParentsWithInitialRepositories(st: PomState, env: Env, requested: Pom, fuel: nat)
    requires st.initialRepositories.Some?
    requires PassA(MergeRepositoriesInto(st, env, st.initialRepositories.value), env, [requested]).err.None?
    ensures var s0 := MergeRepositoriesInto(st, env, st.initialRepositories.value);
      var a := PassA(s0, env, [requested]).st; var o := ResolveParents(st, env, requested, fuel).st;
      && o.properties == a.properties
      && o.repositories == a.repositories
      && |o.repositories| >= |s0.repositories| && o.repositories[..|s0.repositories|] == s0.repositories
      && o.initialRepositories == st.initialRepositories
      && o.requested == SubstitutedRequested(a, env)
  {
    var s0 := MergeRepositoriesInto(st, env, st.initialRepositories.value);
    PassAKeepsMerged(s0, env, [requested]);
    var a := PassA(s0, env, [requested]).st;
    PassBAppends(a.(requested := SubstitutedRequested(a, env)), env, [requested], fuel);
  }
}
