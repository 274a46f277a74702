# Maven POM resolution and Java style detection, in Dafny

This project models two cores of OpenRewrite and proves what they promise.

**`ResolvedPom`** (rewrite-maven) is the mutable result of resolving a Maven POM. It covers four things:

- Property lookup and `${...}` substitution. Reserved coordinate names come from the requested POM. Other names take the system property first, then the merged property map.
- The parent-chain `Resolver`, which walks the parent chain twice:
  - pass A merges properties and repositories, first value wins;
  - the requested POM's coordinates are substituted between the passes;
  - pass B appends dependency management and requested dependencies. Imported BOMs go through the same pipeline and are tagged with their provenance.
  - Both passes stop silently on a parent cycle.
- `deduplicate` and `resolve`.
- The breadth-first `resolveDependencies` walk:
  - it keeps a version requirement per group and artifact and restarts when a requirement changes the chosen version;
  - it filters the new node's own dependencies by optional flag, exclusion and scope;
  - it builds a graph of nodes with child lists and effective exclusions;
  - it accumulates per-dependency errors.

**`Autodetect`** (rewrite-java) holds the counters and string routines that infer a code style from existing source:

- the longest common prefix of package names and the grouping of sorted packages into `prefix*` import block patterns;
- the `IndentStatistic` frequency tables, with `record`, `commonIndent` and `continuationIndent`;
- `countIndents`, which classifies the indentation after the last newline;
- CRLF/LF newline counting;
- the majority rules and their tie-breaks, and the `hasSpace`/`hasNewLine` votes.

Layout:

| module | what it holds |
|---|---|
| `Wrappers` | `Option` and `Result` |
| `MavenTypes` | the data model, and `Env`, which holds every collaborator the resolver calls but does not define |
| `PomLookup` | the read-only queries: `getProperty`, `getValue`, `getValues`, `getManaged*`, `getValues(Dependency, int)`, `getDependencyScope`, `contains` |
| `PomMerge` | the merge rules as functions |
| `ParentChain` | both parent passes and the BOM import as functions on the resolver's state, with their lemmas |
| `Dedup` | first-per-key deduplication |
| `DependencyGraph` | one frontier entry of the walk as a function; the graph's shape and the invariants the walk keeps |
| `ResolvedPoms` | the `ResolvedPom` class. Its methods update the fields in place, each proved to reach the state the matching function describes |
| `AutodetectText` | the string and integer routines |
| `IndentFrequency` | the `IndentStatistic` class |
| `IndentDetection` | `IndentStatistics` and `countIndents` |
| `LineFormat` | `GeneralFormatStatistics` and `visitSpace` |
| `ImportLayout` | `ImportLayoutStatistics` and `mapBlockPatterns` |

Behaviour of the code worth noting:

- **A version no requirement can satisfy.** Lines 544 and 554 throw `MavenParsingException`, which the `catch (MavenDownloadingException e)` at line 641 does not catch. The walk therefore ends on the spot (`Unresolvable`) instead of recording the error and going on.
- **A failed download inside the walk.** Line 579 is inside the `try`, so the failure is recorded against the root dependent and the walk continues. It is not fatal.
- **BOM imports.** `mergeDependencyManagement` has no cycle check for them. An import cycle recurses until the stack runs out. The model bounds the nesting with `Env.importDepth` and reports `ImportTooDeep` when it is exceeded.
- **Seeding.** Every depth-0 frontier entry is reached in `Compile` scope (line 514), whatever scope was requested.

Paths below are relative to the repository root. R stands for `rewrite-maven/src/main/java/org/openrewrite/maven/tree/ResolvedPom.java` and A for `rewrite-java/src/main/java/org/openrewrite/java/style/Autodetect.java`; the table spells both out.

## Model

| member | source | states |
|---|---|---|
| `MavenTypes.Download` | rewrite-maven/src/main/java/org/openrewrite/maven/tree/ResolvedPom.java:353-354 | The downloader returns the POM stored under exactly those coordinates, whose own coordinates are in the universe; otherwise it fails with a download error naming them |
| `MavenTypes.AncestryGrows` | rewrite-maven/src/main/java/org/openrewrite/maven/tree/ResolvedPom.java:356-364 | Prepending a parent that is not yet on the ancestry strictly shrinks the set of POMs left to visit, so the parent-cycle check alone makes both passes terminate |
| `PomLookup.GetProperty` | rewrite-maven/src/main/java/org/openrewrite/maven/tree/ResolvedPom.java:224-250 | The `groupId`/`artifactId`/`version` names (plain, `project.` and `pom.`) answer the requested POM's own field. The `project.parent.groupId`, `artifactId` and `version` names answer the parent's field when there is a parent and are absent without one. Any other name answers the system property if set, else the merged property, else nothing |
| `PomLookup.ReservedNamesIgnoreProperties` | rewrite-maven/src/main/java/org/openrewrite/maven/tree/ResolvedPom.java:228-247 | For a reserved name, no change to the merged properties or the system properties changes the answer |
| `PomLookup.GetValue` | rewrite-maven/src/main/java/org/openrewrite/maven/tree/ResolvedPom.java:216-221 | Null stays null; a present value is passed to the placeholder helper with `getProperty` as its lookup |
| `PomLookup.SubstitutionReadsProperties` | rewrite-maven/src/main/java/org/openrewrite/maven/tree/ResolvedPom.java:216-250 | Substitution depends only on the requested POM and the merged properties, never on repositories or management |
| `PomLookup.GetValuesGav` | rewrite-maven/src/main/java/org/openrewrite/maven/tree/ResolvedPom.java:282-286 | Each coordinate is substituted; a null group or version stays null |
| `PomLookup.GetValuesGa` | rewrite-maven/src/main/java/org/openrewrite/maven/tree/ResolvedPom.java:288-291 | Group and artifact are substituted; a null group stays null |
| `PomLookup.FirstMatch` | rewrite-maven/src/main/java/org/openrewrite/maven/tree/ResolvedPom.java:254-258 | The index found matches, and no earlier entry does; it is the list's length when none matches |
| `PomLookup.Managed` | rewrite-maven/src/main/java/org/openrewrite/maven/tree/ResolvedPom.java:253-261 | A management lookup answers from a matching entry of the list, and answers nothing only when no entry matches |
| `PomLookup.FindManaged` | rewrite-maven/src/main/java/org/openrewrite/maven/tree/ResolvedPom.java:254-260 | The shared loop of the three lookups returns the first matching entry |
| `PomLookup.GetManagedVersion` | rewrite-maven/src/main/java/org/openrewrite/maven/tree/ResolvedPom.java:253-261 | The first matching entry's version, substituted; a version is returned only if some entry matches |
| `PomLookup.GetManagedExclusions` | rewrite-maven/src/main/java/org/openrewrite/maven/tree/ResolvedPom.java:263-270 | The first matching entry's exclusions, empty for null; empty when no entry matches |
| `PomLookup.GetManagedScope` | rewrite-maven/src/main/java/org/openrewrite/maven/tree/ResolvedPom.java:273-280 | The first matching entry's scope; a scope is returned only when a matching entry has it |
| `PomLookup.ValuesOf` | rewrite-maven/src/main/java/org/openrewrite/maven/tree/ResolvedPom.java:691-730 | A dependency with no group comes back merely substituted. Otherwise: the managed version replaces the declared one only when none is declared or the dependency is transitive, falling back to the declared one; the managed scope applies only when none is declared; managed exclusions are appended after the declared ones; the rest is substituted |
| `PomLookup.GetValuesDependency` | rewrite-maven/src/main/java/org/openrewrite/maven/tree/ResolvedPom.java:691-730 | The imperative `getValues(Dependency, int)` computes exactly `ValuesOf` |
| `PomLookup.DependencyScope` | rewrite-maven/src/main/java/org/openrewrite/maven/tree/ResolvedPom.java:667-689 | The project's managed scope wins only when the containing POM's scope is on the classpath of that project scope; otherwise the containing POM's scope stands. With no declared and no managed scope anywhere it is Compile |
| `PomLookup.GetDependencyScope` | rewrite-maven/src/main/java/org/openrewrite/maven/tree/ResolvedPom.java:667-689 | The imperative `getDependencyScope` computes exactly `DependencyScope` |
| `PomLookup.Contains` | rewrite-maven/src/main/java/org/openrewrite/maven/tree/ResolvedPom.java:657-665 | True exactly when some resolved node has the group, artifact and classifier |
| `PomMerge.MergedProperties` | rewrite-maven/src/main/java/org/openrewrite/maven/tree/ResolvedPom.java:447-463 | The keys are the union. A key already present keeps its value; a new key takes the incoming value |
| `PomMerge.SubstitutedRepositories` | rewrite-maven/src/main/java/org/openrewrite/maven/tree/ResolvedPom.java:424-433 | Each incoming repository is copied with its id and URI substituted, one for one |
| `PomMerge.MergedRepositoriesExtends` | rewrite-maven/src/main/java/org/openrewrite/maven/tree/ResolvedPom.java:413-445 | The repositories already merged stay in place and in order |
| `PomMerge.MergedRepositoriesFrom` | rewrite-maven/src/main/java/org/openrewrite/maven/tree/ResolvedPom.java:422-443 | Every merged repository was there before or came in |
| `PomMerge.MergedRepositoriesCovers` | rewrite-maven/src/main/java/org/openrewrite/maven/tree/ResolvedPom.java:435-442 | An incoming repository with a null id is always appended; the id of one with an id is present afterwards |
| `PomMerge.MergedRepositoriesKeepUniqueIds` | rewrite-maven/src/main/java/org/openrewrite/maven/tree/ResolvedPom.java:435-442 | Merging never adds a repository whose non-null id is already present |
| `PomMerge.SubstitutedExclusions` | rewrite-maven/src/main/java/org/openrewrite/maven/tree/ResolvedPom.java:490 | Each exclusion is substituted, one for one; null stays null |
| `PomMerge.ResolveDefined` | rewrite-maven/src/main/java/org/openrewrite/maven/tree/ResolvedPom.java:480-494 | A Defined entry becomes one entry whose coordinates, type and classifier are substituted, whose exclusions are each substituted, and whose scope is the one named by its substituted scope. It keeps the request and has no BOM provenance |
| `PomMerge.TaggedWithBom` | rewrite-maven/src/main/java/org/openrewrite/maven/tree/ResolvedPom.java:477-479 | Every BOM entry, in order, is tagged with the import that brought it and the BOM's coordinates |
| `ParentChain.ProfilePropertiesFirstActiveWins` | rewrite-maven/src/main/java/org/openrewrite/maven/tree/ResolvedPom.java:337-341 | Only properties change. Existing keys keep their values. Every key of an active profile is present, and a new key takes the value of the first active profile declaring it |
| `ParentChain.ProfileRepositoriesExtend` | rewrite-maven/src/main/java/org/openrewrite/maven/tree/ResolvedPom.java:345-349 | Profile repositories are only appended, and nothing but repositories changes |
| `ParentChain.LevelAPrecedence` | rewrite-maven/src/main/java/org/openrewrite/maven/tree/ResolvedPom.java:336-350 | Within one POM, an active profile's property beats the POM's own, which beats nothing; keys already merged are never overwritten; repositories are only appended |
| `ParentChain.PassAKeepsMerged` | rewrite-maven/src/main/java/org/openrewrite/maven/tree/ResolvedPom.java:333-366 | Pass A changes only properties and repositories, never overwrites a property, and only appends repositories |
| `ParentChain.LeafWins` | rewrite-maven/src/main/java/org/openrewrite/maven/tree/ResolvedPom.java:333-366 | Every property merged from the requested POM survives the whole ancestry with its value |
| `ParentChain.PassAStopsOnCycle` | rewrite-maven/src/main/java/org/openrewrite/maven/tree/ResolvedPom.java:352-361 | A parent already on the ancestry ends pass A without error, right after the current POM is merged |
| `ParentChain.MergeEntryAppends` | rewrite-maven/src/main/java/org/openrewrite/maven/tree/ResolvedPom.java:470-495 | One management entry only appends to the management list; on failure it changes nothing |
| `ParentChain.MergeDMAppends` | rewrite-maven/src/main/java/org/openrewrite/maven/tree/ResolvedPom.java:465-498 | `mergeDependencyManagement` only appends to the management list and changes nothing else |
| `ParentChain.MergeDMConcat` | rewrite-maven/src/main/java/org/openrewrite/maven/tree/ResolvedPom.java:470-496 | Merging two lists in turn is merging their concatenation, so entries are processed in declaration order |
| `ParentChain.DefinedAddsOne` | rewrite-maven/src/main/java/org/openrewrite/maven/tree/ResolvedPom.java:480-494 | A Defined entry adds exactly one entry, the substituted one, and never fails |
| `ParentChain.ImportedAddsBomEntries` | rewrite-maven/src/main/java/org/openrewrite/maven/tree/ResolvedPom.java:471-479 | An Imported entry adds all of the BOM's resolved entries, in order, each tagged with the import and the BOM's coordinates |
| `ParentChain.ProfilesBAppends` | rewrite-maven/src/main/java/org/openrewrite/maven/tree/ResolvedPom.java:371-376 | The profile loop of pass B only appends to management and requested dependencies |
| `ParentChain.PassBAppends` | rewrite-maven/src/main/java/org/openrewrite/maven/tree/ResolvedPom.java:368-399 | Pass B only appends to management and requested dependencies, in order; properties, repositories and the requested POM stay as pass A left them |
| `ParentChain.PassBStopsOnCycle` | rewrite-maven/src/main/java/org/openrewrite/maven/tree/ResolvedPom.java:381-394 | A parent already on the ancestry ends pass B without error and without recursing: the result is the state after the current POM's profiles, management and dependencies are merged |
| `ParentChain.ResolveParentsSplitsPasses` | rewrite-maven/src/main/java/org/openrewrite/maven/tree/ResolvedPom.java:303-331 | After a full resolution, properties and repositories are exactly pass A's. The initial repositories default to pass A's repositories. The requested coordinates are substituted in pass A's state |
| `ParentChain.ResolveParentsWithInitialRepositories` | rewrite-maven/src/main/java/org/openrewrite/maven/tree/ResolvedPom.java:303-331 | With initial repositories given, they are merged first and come first among the repositories, they stay the initial repositories, properties and repositories are exactly pass A's, and the requested coordinates are substituted in pass A's state |
| `Dedup.FirstPerKeyPositions` | rewrite-maven/src/main/java/org/openrewrite/maven/tree/ResolvedPom.java:100-109 | The kept elements are exactly the first occurrence of each key, in their original relative order |
| `Dedup.FirstPerKeyDistinct` | rewrite-maven/src/main/java/org/openrewrite/maven/tree/ResolvedPom.java:100-109 | No two kept elements share a key |
| `Dedup.FirstPerKeySameKeys` | rewrite-maven/src/main/java/org/openrewrite/maven/tree/ResolvedPom.java:100-109 | Every key of the input is kept |
| `Dedup.FirstPerKeyOfDistinct` | rewrite-maven/src/main/java/org/openrewrite/maven/tree/ResolvedPom.java:100-109 | A list whose keys are already distinct is unchanged |
| `Dedup.FirstPerKeyIdempotent` | rewrite-maven/src/main/java/org/openrewrite/maven/tree/ResolvedPom.java:99-111 | Deduplicating twice is deduplicating once |
| `Dedup.KeepFirstPerKey` | rewrite-maven/src/main/java/org/openrewrite/maven/tree/ResolvedPom.java:102-103 | The `ListUtils.map` loop with its set of seen keys computes exactly the first-per-key list |
| `DependencyGraph.ValueOfBoolean` | rewrite-maven/src/main/java/org/openrewrite/maven/tree/ResolvedPom.java:595 | True exactly when the value is present and spells "true" in any mix of cases; so only a four-letter string can be true, "true" and "TRUE" are, and null is false |
| `DependencyGraph.TrimStart` | rewrite-maven/src/main/java/org/openrewrite/maven/tree/ResolvedPom.java:620 | The result is a suffix that starts with a character above space, and everything dropped is at most a space |
| `DependencyGraph.TrimEnd` | rewrite-maven/src/main/java/org/openrewrite/maven/tree/ResolvedPom.java:620 | The result is a prefix that ends with a character above space, and everything dropped is at most a space |
| `DependencyGraph.Trim` | rewrite-maven/src/main/java/org/openrewrite/maven/tree/ResolvedPom.java:620 | The result is no longer than the input, and when not empty both of its ends are above space |
| `DependencyGraph.TrimSlice` | rewrite-maven/src/main/java/org/openrewrite/maven/tree/ResolvedPom.java:620 | The trimmed string is a slice of the input, and everything dropped at either end is at most a space |
| `DependencyGraph.Visit` | rewrite-maven/src/main/java/org/openrewrite/maven/tree/ResolvedPom.java:573-597 | A leftover placeholder in the group, artifact or version is an unresolved-property error. A missing POM is a download error. A node carries the entry's depth and request, and the resolved POM's coordinates and the repository it came from |
| `DependencyGraph.ProcessStepCases` | rewrite-maven/src/main/java/org/openrewrite/maven/tree/ResolvedPom.java:524-571 | Each outcome of one entry, with its condition: <br>• No version is an error about the declared dependency. <br>• A type other than jar or pom is skipped with the requirements unchanged. <br>• Otherwise exactly this artifact's requirement is added or refined. <br>• A restart happens exactly when refining a known requirement changes its resolved version. <br>• The walk gives up exactly when no version satisfies the requirement. <br>• A node carries the resolved version, has no placeholder, and repeats no node already resolved |
| `DependencyGraph.SettleRequirements` | rewrite-maven/src/main/java/org/openrewrite/maven/tree/ResolvedPom.java:537-549 | Exactly this artifact's requirement is recorded: a new one from the version at this depth, or the known one refined; all others are unchanged |
| `DependencyGraph.SettleRestartAbort` | rewrite-maven/src/main/java/org/openrewrite/maven/tree/ResolvedPom.java:539-565 | A restart happens exactly when a known requirement's resolved version changes; the walk gives up exactly when the requirement resolves to nothing, naming the artifact |
| `DependencyGraph.SettleAdded` | rewrite-maven/src/main/java/org/openrewrite/maven/tree/ResolvedPom.java:539-571 | A visited node carries the resolved version and the entry's depth and dependency, and for a known artifact is not one already resolved |
| `DependencyGraph.ProcessStepShape` | rewrite-maven/src/main/java/org/openrewrite/maven/tree/ResolvedPom.java:537-596 | Requirements only grow, and a node sits at the current depth |
| `DependencyGraph.WithGroupOf` | rewrite-maven/src/main/java/org/openrewrite/maven/tree/ResolvedPom.java:616-618 | A dependency without a group takes the containing POM's group; one with a group is unchanged |
| `DependencyGraph.FirstExclusion` | rewrite-maven/src/main/java/org/openrewrite/maven/tree/ResolvedPom.java:623-633 | The first exclusion whose group and artifact globs both match; none only when no exclusion matches |
| `DependencyGraph.FateOf` | rewrite-maven/src/main/java/org/openrewrite/maven/tree/ResolvedPom.java:615-639 | A dependency is dropped as optional exactly when its trimmed optional flag is "true" in any case. Otherwise the first matching exclusion of the including dependency drops it, and only a matching exclusion does. A dependency neither optional nor excluded is followed, in its computed dependency scope, exactly when that scope is on the classpath of the including scope, and is otherwise out of scope |
| `DependencyGraph.Followed` | rewrite-maven/src/main/java/org/openrewrite/maven/tree/ResolvedPom.java:636-639 | A followed dependency becomes a frontier entry that points at the new node, keeps the root dependent and is defined in the dependency's resolved POM |
| `DependencyGraph.ExcludedWith` | rewrite-maven/src/main/java/org/openrewrite/maven/tree/ResolvedPom.java:623-631 | An effective exclusion is one of the including dependency's exclusions that matched, recorded exactly when one drops the dependency |
| `DependencyGraph.ExpandUnfold` | rewrite-maven/src/main/java/org/openrewrite/maven/tree/ResolvedPom.java:615-640 | One loop step contributes the first dependency's frontier entry or exclusion, ahead of the rest, in declaration order |
| `DependencyGraph.ExpandSound` | rewrite-maven/src/main/java/org/openrewrite/maven/tree/ResolvedPom.java:615-640 | Every entry of the next frontier comes from a followed dependency |
| `DependencyGraph.ExpandComplete` | rewrite-maven/src/main/java/org/openrewrite/maven/tree/ResolvedPom.java:615-640 | Every followed dependency joins the next frontier |
| `DependencyGraph.ExpandExclusions` | rewrite-maven/src/main/java/org/openrewrite/maven/tree/ResolvedPom.java:623-633 | Every effective exclusion belongs to the including dependency and dropped one of the new node's dependencies |
| `DependencyGraph.ExpandedEntriesPointAtParent` | rewrite-maven/src/main/java/org/openrewrite/maven/tree/ResolvedPom.java:636-639 | Every new frontier entry points at the new node, keeps the root and is on the classpath of the including scope |
| `DependencyGraph.SeedsExactly` | rewrite-maven/src/main/java/org/openrewrite/maven/tree/ResolvedPom.java:510-516 | The first frontier is exactly the project dependencies whose scope, as the project sees it, is the requested one or on its classpath. Each is reached in Compile scope with no dependent |
| `DependencyGraph.AddNode` | rewrite-maven/src/main/java/org/openrewrite/maven/tree/ResolvedPom.java:603-612 | The node is appended to the flat list. Its exclusions are appended beside it. Its index is appended to its parent's child list only, and its own child list starts empty |
| `DependencyGraph.AddNodeWellFormed` | rewrite-maven/src/main/java/org/openrewrite/maven/tree/ResolvedPom.java:603-612 | Adding a node at the deepest level, hanging from a node one level up, keeps the graph a breadth-first forest rooted in project dependencies |
| `DependencyGraph.AddNodeLinked` | rewrite-maven/src/main/java/org/openrewrite/maven/tree/ResolvedPom.java:604-610 | Children stay after their parent and one level deeper |
| `DependencyGraph.AddNodeParented` | rewrite-maven/src/main/java/org/openrewrite/maven/tree/ResolvedPom.java:604-610 | Every node below the top level stays the child of an earlier node |
| `DependencyGraph.AddNodeSingleParent` | rewrite-maven/src/main/java/org/openrewrite/maven/tree/ResolvedPom.java:604-610 | No node becomes the child of two nodes |
| `DependencyGraph.SeedsFrontier` | rewrite-maven/src/main/java/org/openrewrite/maven/tree/ResolvedPom.java:510-516 | The first frontier consists of project dependencies, with no dependent |
| `DependencyGraph.RootedAppend` | rewrite-maven/src/main/java/org/openrewrite/maven/tree/ResolvedPom.java:641-642 | An error recorded with the entry's root dependent keeps every error attributed to a project dependency |
| `DependencyGraph.AddChildKeeps` | rewrite-maven/src/main/java/org/openrewrite/maven/tree/ResolvedPom.java:603-639 | Adding an entry's node and queueing its followed dependencies keeps the graph well formed and the frontier bookkeeping true |
| `DependencyGraph.NextBecomesFrontier` | rewrite-maven/src/main/java/org/openrewrite/maven/tree/ResolvedPom.java:646-647 | At the end of a level, the collected entries are a valid frontier one level deeper |
| `ResolvedPoms.InAncestry` | rewrite-maven/src/main/java/org/openrewrite/maven/tree/ResolvedPom.java:356-361 | The cycle-check loop answers exactly whether the coordinates are on the ancestry |
| `ResolvedPoms.RepositoryIdTaken` | rewrite-maven/src/main/java/org/openrewrite/maven/tree/ResolvedPom.java:436-440 | The inner loop of `mergeRepositories` answers exactly whether the id is taken |
| `ResolvedPoms.FindExclusion` | rewrite-maven/src/main/java/org/openrewrite/maven/tree/ResolvedPom.java:624-633 | The exclusion loop finds the first matching exclusion |
| `ResolvedPoms.DecideFate` | rewrite-maven/src/main/java/org/openrewrite/maven/tree/ResolvedPom.java:616-639 | The loop body decides the dependency's fate as `FateOf` does |
| `ResolvedPoms.ExpandChildren` | rewrite-maven/src/main/java/org/openrewrite/maven/tree/ResolvedPom.java:615-640 | The loop over the resolved POM's requested dependencies yields exactly `Expand`: the next frontier entries and the effective exclusions |
| `ResolvedPoms.CollectSeeds` | rewrite-maven/src/main/java/org/openrewrite/maven/tree/ResolvedPom.java:509-516 | The seeding loop yields exactly `Seeds` |
| `ResolvedPoms.IsInRequestedScope` | rewrite-maven/src/main/java/org/openrewrite/maven/tree/ResolvedPom.java:511-513 | The scope test looks at the dependency as the project sees it and is exactly `InRequestedScope` |
| `ResolvedPoms.SameElements` | rewrite-maven/src/main/java/org/openrewrite/maven/tree/ResolvedPom.java:153-160 | The size check and loop answer exactly whether the lists are equal |
| `ResolvedPoms.SameResolution` | rewrite-maven/src/main/java/org/openrewrite/maven/tree/ResolvedPom.java:146-181 | The comparison loops report a change exactly when a re-resolved property differs from or is missing here, or the requested dependencies, management or repositories differ |
| `ResolvedPoms.UnchangedIgnoresDroppedProperties` | rewrite-maven/src/main/java/org/openrewrite/maven/tree/ResolvedPom.java:146-150 | Properties that only this POM has are not a change |
| `ResolvedPoms.ResolvedPom.constructor` | rewrite-maven/src/main/java/org/openrewrite/maven/tree/ResolvedPom.java:68-76 | The fields are exactly the arguments |
| `ResolvedPoms.ResolvedPom.MergeProperties` | rewrite-maven/src/main/java/org/openrewrite/maven/tree/ResolvedPom.java:447-463 | The properties become `MergedProperties` of the old ones; nothing else changes |
| `ResolvedPoms.ResolvedPom.MergeRepositories` | rewrite-maven/src/main/java/org/openrewrite/maven/tree/ResolvedPom.java:413-445 | The new state is `MergeRepositoriesInto` of the old one |
| `ResolvedPoms.ResolvedPom.MergeRequestedDependencies` | rewrite-maven/src/main/java/org/openrewrite/maven/tree/ResolvedPom.java:401-411 | The incoming dependencies are appended in order; nothing else changes |
| `ResolvedPoms.ResolvedPom.MergeManagedDependency` | rewrite-maven/src/main/java/org/openrewrite/maven/tree/ResolvedPom.java:470-495 | The new state and error are exactly `MergeEntry` of the old state |
| `ResolvedPoms.ResolvedPom.MergeDependencyManagement` | rewrite-maven/src/main/java/org/openrewrite/maven/tree/ResolvedPom.java:465-498 | The new state and error are exactly `MergeDM` of the old state |
| `ResolvedPoms.ResolvedPom.ResolveParentPropertiesAndRepositories` | rewrite-maven/src/main/java/org/openrewrite/maven/tree/ResolvedPom.java:333-366 | The new state and error are exactly `PassA` of the old state |
| `ResolvedPoms.ResolvedPom.ResolveParentDependencies` | rewrite-maven/src/main/java/org/openrewrite/maven/tree/ResolvedPom.java:368-399 | The new state and error are exactly `PassB` of the old state |
| `ResolvedPoms.ResolvedPom.ResolveParentsRecursively` | rewrite-maven/src/main/java/org/openrewrite/maven/tree/ResolvedPom.java:303-331 | The new state and error are exactly `ResolveParents` of the old state |
| `ResolvedPoms.ResolvedPom.Resolver` | rewrite-maven/src/main/java/org/openrewrite/maven/tree/ResolvedPom.java:298-301 | Resolves the parents of the POM's own requested POM |
| `ResolvedPoms.ResolvedPom.Deduplicate` | rewrite-maven/src/main/java/org/openrewrite/maven/tree/ResolvedPom.java:99-111 | Management and requested dependencies become their first-per-key lists under (gav, type, classifier, scope); nothing else changes |
| `ResolvedPoms.ResolvedPom.Resolve` | rewrite-maven/src/main/java/org/openrewrite/maven/tree/ResolvedPom.java:135-184 | A fresh resolution from the requested POM. On error the error is passed on. Otherwise `this` is returned exactly when nothing compared has changed, else the fresh copy |
| `ResolvedPoms.ResolvedPom.ProcessItem` | rewrite-maven/src/main/java/org/openrewrite/maven/tree/ResolvedPom.java:525-535 | The loop body up to the version check computes exactly `ProcessStep` |
| `ResolvedPoms.ResolvedPom.FetchItem` | rewrite-maven/src/main/java/org/openrewrite/maven/tree/ResolvedPom.java:525-527 | The dependency is looked up first in its declaring POM, then in the project, giving exactly `Fetched` |
| `ResolvedPoms.ResolvedPom.SettleItem` | rewrite-maven/src/main/java/org/openrewrite/maven/tree/ResolvedPom.java:537-571 | The requirement bookkeeping computes exactly `Settle` |
| `ResolvedPoms.ResolvedPom.SettleNewItem` | rewrite-maven/src/main/java/org/openrewrite/maven/tree/ResolvedPom.java:539-546 | For an artifact without a requirement: record a new one, give up if nothing resolves, else visit; exactly `Settle` |
| `ResolvedPoms.ResolvedPom.SettleKnownItem` | rewrite-maven/src/main/java/org/openrewrite/maven/tree/ResolvedPom.java:547-571 | For a known artifact: refine the requirement, give up, restart when the resolved version moved, skip a repeat, else visit; exactly `Settle` |
| `ResolvedPoms.ResolvedPom.VisitItem` | rewrite-maven/src/main/java/org/openrewrite/maven/tree/ResolvedPom.java:573-597 | The placeholder check, the download, the parent resolution and the node compute exactly `Visit` |
| `ResolvedPoms.ResolvedPom.WalkItem` | rewrite-maven/src/main/java/org/openrewrite/maven/tree/ResolvedPom.java:523-643 | The loop body for one frontier entry computes exactly `ItemOutcome` of the state it is given |
| `ResolvedPoms.ResolvedPom.WalkOnce` | rewrite-maven/src/main/java/org/openrewrite/maven/tree/ResolvedPom.java:507-648 | The pass and the learned requirements are exactly `WalkPass` from the project dependencies in the scope |
| `ResolvedPoms.ResolvedPom.WalkFrontier` | rewrite-maven/src/main/java/org/openrewrite/maven/tree/ResolvedPom.java:522-643 | The inner loop over one level computes exactly `WalkLevel` over the whole frontier |
| `ResolvedPoms.ResolvedPom.WalkDepth` | rewrite-maven/src/main/java/org/openrewrite/maven/tree/ResolvedPom.java:519-646 | One turn of the level loop computes exactly `Level` of the frontier |
| `ResolvedPoms.ResolvedPom.WalkLevels` | rewrite-maven/src/main/java/org/openrewrite/maven/tree/ResolvedPom.java:519-648 | The level loop from the seeds computes exactly `WalkFrom` at depth 0 with an empty graph and no errors |
| `ResolvedPoms.ResolvedPom.ResolveDependencies` | rewrite-maven/src/main/java/org/openrewrite/maven/tree/ResolvedPom.java:505-655 | The outcome and the learned requirements are exactly `ResolveWith` |
| `ResolvedPoms.ItemOutcome` | rewrite-maven/src/main/java/org/openrewrite/maven/tree/ResolvedPom.java:523-643 | Per outcome of `ProcessStep`: a skip changes only the requirements; a restart or a give-up stops the pass with `Restarted` or `Aborted` of that artifact and changes nothing else; a failure never stops the pass and appends the error with its root set to the entry's root dependent, leaving graph and next level alone; an added node goes under the entry's dependent with the expansion's exclusions and the expansion's entries are appended to the next level. The requirements always become `ProcessStep`'s |
| `ResolvedPoms.ItemOutcomeKeeps` | rewrite-maven/src/main/java/org/openrewrite/maven/tree/ResolvedPom.java:523-643 | One entry keeps the graph well formed, every error rooted, the arena below the level and the frontier bookkeeping true; it only adds requirements and only appends errors |
| `ResolvedPoms.ErrorsKeptTrans` | rewrite-maven/src/main/java/org/openrewrite/maven/tree/ResolvedPom.java:641 | Errors recorded earlier stay, in order, across several entries |
| `ResolvedPoms.WalkLevel` | rewrite-maven/src/main/java/org/openrewrite/maven/tree/ResolvedPom.java:522-643 | A level is stopped only by a restart or a give-up; one that is not keeps the bookkeeping true; either way it only adds requirements and keeps every error recorded before it, in order |
| `ResolvedPoms.Level` | rewrite-maven/src/main/java/org/openrewrite/maven/tree/ResolvedPom.java:519-646 | A level from a fresh next level is stopped only by a restart or a give-up; otherwise its next level is a valid frontier one level down. It only adds requirements and keeps every error recorded before it |
| `ResolvedPoms.LevelDone` | rewrite-maven/src/main/java/org/openrewrite/maven/tree/ResolvedPom.java:645-646 | The next level of a completed level is a valid frontier one level down |
| `ResolvedPoms.WalkFrom` | rewrite-maven/src/main/java/org/openrewrite/maven/tree/ResolvedPom.java:519-653 | An empty frontier ends the pass as `Walked` with the graph, errors and requirements as they stand; a frontier past the depth bound ends it as `PassTooDeep`; a `Walked` pass has a well-formed graph and rooted errors and keeps every error recorded before it; the requirements only grow |
| `ResolvedPoms.WalkPass` | rewrite-maven/src/main/java/org/openrewrite/maven/tree/ResolvedPom.java:507-653 | A `Walked` pass has a well-formed graph and every error attributed to a project dependency; the requirements only grow |
| `ResolvedPoms.ResolveWith` | rewrite-maven/src/main/java/org/openrewrite/maven/tree/ResolvedPom.java:505-655 | A success is a well-formed graph. A failure carries at least one error, each attributed to a project dependency. The requirements only grow |
| `AutodetectText.JavaDiv` | rewrite-java/src/main/java/org/openrewrite/java/style/Autodetect.java:157-159 | Java's int division: the quotient of the magnitudes, negative only when the signs differ, Dafny's division on non-negative operands |
| `AutodetectText.CommonPrefix` | rewrite-java/src/main/java/org/openrewrite/java/style/Autodetect.java:797-805 | A prefix of both strings that cannot be extended |
| `AutodetectText.CommonPrefixIsLongest` | rewrite-java/src/main/java/org/openrewrite/java/style/Autodetect.java:797-805 | Every common prefix is a prefix of it |
| `AutodetectText.CommonPrefixUnique` | rewrite-java/src/main/java/org/openrewrite/java/style/Autodetect.java:797-805 | A common prefix that cannot be extended is it |
| `AutodetectText.LongestCommonPrefix` | rewrite-java/src/main/java/org/openrewrite/java/style/Autodetect.java:792-806 | With no prefix yet, the package itself; else the longest common prefix of the package and the prefix so far |
| `AutodetectText.CountNewlinesTotal` | rewrite-java/src/main/java/org/openrewrite/java/style/Autodetect.java:261-272 | Every `\n` counts once as CRLF or LF, and nothing else counts, a lone `\r` included |
| `AutodetectText.CountNewlinesCrlf` | rewrite-java/src/main/java/org/openrewrite/java/style/Autodetect.java:263-269 | The CRLF count is the number of `\r\n` pairs |
| `AutodetectText.ScanIndentCounts` | rewrite-java/src/main/java/org/openrewrite/java/style/Autodetect.java:406-422 | The character loop counts every space and every tab, and flags the line as mixed exactly when it has both |
| `AutodetectText.LastNewline` | rewrite-java/src/main/java/org/openrewrite/java/style/Autodetect.java:403 | `lastIndexOf('\n')`: -1 exactly when there is none, else the position of a `\n` with none after it |
| `AutodetectText.HasSpace` | rewrite-java/src/main/java/org/openrewrite/java/style/Autodetect.java:1096-1098 | The vote is 1 or -1, never 0, and 1 exactly when the whitespace has a space |
| `AutodetectText.HasNewLine` | rewrite-java/src/main/java/org/openrewrite/java/style/Autodetect.java:1120-1122 | The vote is 1 or -1, never 0, and 1 exactly when the whitespace has a newline |
| `AutodetectText.DotCount` | rewrite-java/src/main/java/org/openrewrite/java/style/Autodetect.java:770 | The number of `.` characters in the string |
| `IndentFrequency.RecordedCounts` | rewrite-java/src/main/java/org/openrewrite/java/style/Autodetect.java:125-145 | A non-positive count changes nothing. Otherwise exactly the count at (depth, chars) goes up by one, every other count is unchanged, and the depth becomes a key |
| `IndentFrequency.TotalsAdd` | rewrite-java/src/main/java/org/openrewrite/java/style/Autodetect.java:152-161 | Taking one more cell into account adds its occurrences to its own key's total and to no other |
| `IndentFrequency.TotalsConserveOccurrences` | rewrite-java/src/main/java/org/openrewrite/java/style/Autodetect.java:152-161 | Regrouping by key loses and invents no occurrence: the totals sum to the recorded occurrences |
| `IndentFrequency.TotalsEmpty` | rewrite-java/src/main/java/org/openrewrite/java/style/Autodetect.java:163-165 | There is no key to choose from exactly when nothing was recorded |
| `IndentFrequency.MostFrequent` | rewrite-java/src/main/java/org/openrewrite/java/style/Autodetect.java:163-165 | The fallback for no keys, else a key whose total no other key exceeds |
| `IndentFrequency.IndentStatistic.constructor` | rewrite-java/src/main/java/org/openrewrite/java/style/Autodetect.java:123 | The table starts empty |
| `IndentFrequency.IndentStatistic.Record` | rewrite-java/src/main/java/org/openrewrite/java/style/Autodetect.java:129-145 | The table becomes `Recorded` of the old table |
| `IndentFrequency.IndentStatistic.GroupTotals` | rewrite-java/src/main/java/org/openrewrite/java/style/Autodetect.java:152-161 | The `flatMap` and `toMap(..., Long::sum)` compute the occurrences summed per grouping key |
| `IndentFrequency.IndentStatistic.CommonIndent` | rewrite-java/src/main/java/org/openrewrite/java/style/Autodetect.java:151-166 | 4 when nothing was recorded, else a most frequent `chars / indentDepth` under Java division |
| `IndentFrequency.IndentStatistic.ContinuationIndent` | rewrite-java/src/main/java/org/openrewrite/java/style/Autodetect.java:173-189 | `commonIndent * 2` when nothing was recorded, else a most frequent `(chars - depth * commonIndent) / continuationDepth` under Java division |
| `IndentDetection.CountedIndentsInert` | rewrite-java/src/main/java/org/openrewrite/java/style/Autodetect.java:403-405 | Whitespace with no newline, or a depth of 0 or less, changes nothing |
| `IndentDetection.CountedIndentsLastLineOnly` | rewrite-java/src/main/java/org/openrewrite/java/style/Autodetect.java:403-409 | Only the text after the last newline counts: whatever precedes it makes no difference |
| `IndentDetection.CountedIndentsVote` | rewrite-java/src/main/java/org/openrewrite/java/style/Autodetect.java:423-438 | A line with spaces or tabs after its last newline adds exactly one line count, to spaces exactly when it has strictly more spaces than tabs; a line with neither adds none |
| `IndentDetection.CountedIndentsMixedRecordsNothing` | rewrite-java/src/main/java/org/openrewrite/java/style/Autodetect.java:423-432 | A line that mixes spaces and tabs records no frequency |
| `IndentDetection.CountedIndentsRecordsOne` | rewrite-java/src/main/java/org/openrewrite/java/style/Autodetect.java:423-432 | A line of spaces only or tabs only records its count in exactly one table: the space or tab table, the continuation one for continuations. The three other tables are unchanged |
| `IndentDetection.CountedIndentsRecordable` | rewrite-java/src/main/java/org/openrewrite/java/style/Autodetect.java:425-430 | Frequencies are recorded only at positive depths, so `commonIndent` and `continuationIndent` never divide by zero |
| `IndentDetection.IndentStatistics.constructor` | rewrite-java/src/main/java/org/openrewrite/java/style/Autodetect.java:193-204 | Four distinct empty tables, zero counters, depth 0 and continuation depth 1 |
| `IndentDetection.IndentStatistics.ScanLine` | rewrite-java/src/main/java/org/openrewrite/java/style/Autodetect.java:406-422 | The character loop computes exactly `ScanIndent` |
| `IndentDetection.IndentStatistics.CountIndents` | rewrite-java/src/main/java/org/openrewrite/java/style/Autodetect.java:402-441 | Keeps the statistics valid, so every recorded depth can still be divided by. The tables and line counters become `CountedIndents` of the old ones; depth and the alignment counters are unchanged |
| `IndentDetection.IndentStatistics.CountLine` | rewrite-java/src/main/java/org/openrewrite/java/style/Autodetect.java:402-441 | The tables and line counters become `CountedIndents` of the old ones; depth and the alignment counters are unchanged |
| `IndentDetection.IndentStatistics.IsIndentedWithSpaces` | rewrite-java/src/main/java/org/openrewrite/java/style/Autodetect.java:231-233 | Spaces unless tab-indented lines strictly outnumber space-indented ones; a tie goes to spaces |
| `IndentDetection.IndentStatistics.GetTabsAndIndentsStyle` | rewrite-java/src/main/java/org/openrewrite/java/style/Autodetect.java:235-252 | Tabs exactly when tab lines strictly outnumber space lines, read from the matching tables. Tab size equals indent size, the common indent of those tables. The continuation indent is derived from it. Indents are not relative to the expression start. Parameters are aligned exactly when aligned cases are at least as many as unaligned ones |
| `LineFormat.GeneralFormatStatistics.constructor` | rewrite-java/src/main/java/org/openrewrite/java/style/Autodetect.java:101-102 | Both counters start at 0 |
| `LineFormat.GeneralFormatStatistics.IsIndentedWithLFNewLines` | rewrite-java/src/main/java/org/openrewrite/java/style/Autodetect.java:104-106 | LF unless CRLF lines strictly outnumber LF lines; a tie goes to LF |
| `LineFormat.GeneralFormatStatistics.GetFormatStyle` | rewrite-java/src/main/java/org/openrewrite/java/style/Autodetect.java:108-112 | CRLF exactly when CRLF lines strictly outnumber LF lines |
| `LineFormat.GeneralFormatStatistics.VisitSpace` | rewrite-java/src/main/java/org/openrewrite/java/style/Autodetect.java:257-274 | The counters grow by the CRLF and LF counts of the whitespace |
| `ImportLayout.Normalize` | rewrite-java/src/main/java/org/openrewrite/java/style/Autodetect.java:772-776 | A prefix under `java.` becomes `java.`, one under `javax.` becomes `javax.`, any other is kept; the result is always a prefix of the input |
| `ImportLayout.NormalizeIdempotent` | rewrite-java/src/main/java/org/openrewrite/java/style/Autodetect.java:771-777 | Normalizing twice is normalizing once, so rewriting the prefix inside the flush loop gives every package of the group the same pattern |
| `ImportLayout.NormalizedIsLumped` | rewrite-java/src/main/java/org/openrewrite/java/style/Autodetect.java:772-777 | A normalized prefix followed by `*` is `java.*` or `javax.*` whenever it falls under those |
| `ImportLayout.PutAllLookup` | rewrite-java/src/main/java/org/openrewrite/java/style/Autodetect.java:787-789 | Every key given gets the value; every other entry is left as it was |
| `ImportLayout.FlushedPattern` | rewrite-java/src/main/java/org/openrewrite/java/style/Autodetect.java:770-778 | A group flushed in the loop gives each package a pattern that is a prefix of it followed by `*`, lumped under `java.*`/`javax.*` |
| `ImportLayout.StepInv` | rewrite-java/src/main/java/org/openrewrite/java/style/Autodetect.java:768-784 | One package keeps the invariant: the open group shares its prefix, flushed packages have their patterns, other entries are untouched |
| `ImportLayout.WalkInv` | rewrite-java/src/main/java/org/openrewrite/java/style/Autodetect.java:768-785 | The loop keeps that invariant over any sequence of packages |
| `ImportLayout.WalkGroupsIgnorePatterns` | rewrite-java/src/main/java/org/openrewrite/java/style/Autodetect.java:768-785 | The open group and its prefix do not depend on the pattern map the loop starts from |
| `ImportLayout.BlockPatternsCover` | rewrite-java/src/main/java/org/openrewrite/java/style/Autodetect.java:763-790 | Every package gets a pattern that is a prefix of the package followed by `*` |
| `ImportLayout.BlockPatternsLumpJava` | rewrite-java/src/main/java/org/openrewrite/java/style/Autodetect.java:770-778 | Every package of a group flushed inside the loop whose prefix falls under `java.` or `javax.` gets exactly `java.*` or `javax.*` |
| `ImportLayout.StepFlushPatterns` | rewrite-java/src/main/java/org/openrewrite/java/style/Autodetect.java:769-782 | When a package ends the open group, every package of the group gets `java.*` if the group's prefix starts with `java.`, `javax.*` if it starts with `javax.`, else the prefix followed by `*`; other entries are untouched. A package that does not end the group changes no pattern |
| `ImportLayout.BlockPatternsKeepOthers` | rewrite-java/src/main/java/org/openrewrite/java/style/Autodetect.java:763-790 | Entries for packages outside the input are left alone |
| `ImportLayout.ImportLayoutStatistics.constructor` | rewrite-java/src/main/java/org/openrewrite/java/style/Autodetect.java:446-450 | An empty pattern map and zero counters |
| `ImportLayout.ImportLayoutStatistics.IsStaticImportsAtBot` | rewrite-java/src/main/java/org/openrewrite/java/style/Autodetect.java:454-456 | Bottom unless top counts strictly outnumber bottom ones; a tie goes to the bottom |
| `ImportLayout.ImportLayoutStatistics.IsJavaxBeforeJava` | rewrite-java/src/main/java/org/openrewrite/java/style/Autodetect.java:458-460 | javax first unless java-first counts strictly outnumber javax-first ones; a tie goes to javax |
| `ImportLayout.ImportLayoutStatistics.FlushGroup` | rewrite-java/src/main/java/org/openrewrite/java/style/Autodetect.java:771-778 | Each package of the group gets the normalized prefix followed by `*`, and the rewritten prefix is the normalized one |
| `ImportLayout.ImportLayoutStatistics.MapBlockPatterns` | rewrite-java/src/main/java/org/openrewrite/java/style/Autodetect.java:763-790 | The pattern map becomes `BlockPatterns` of the old map over the packages |
| `ImportLayout.ImportLayoutStatistics.GroupPackage` | rewrite-java/src/main/java/org/openrewrite/java/style/Autodetect.java:769-784 | One package either joins the open group or flushes it and starts a new one; exactly one `Step` of the walk |
| `ImportLayout.ImportLayoutStatistics.FlushLastGroup` | rewrite-java/src/main/java/org/openrewrite/java/style/Autodetect.java:787-789 | The last group gets its prefix as it stands, with `*` appended |

## Left out

- `MavenPomDownloader.download` is a finite map from coordinates to POMs in `Env`. Its `relativePath`, requesting POM and repository arguments (R:353, 382, 472, 579) do not influence the answer. A download error is a `DownloadFailed` value.
- The resolution-listener callbacks (R:385-387, 455-457, 474-476, 482-484, 562-564, 599-601) are left out. They only observe.
- The `MavenPomCache` (R:581-588) is left out: the model resolves every dependency POM afresh with the calling project's active profiles and initial repositories. The source keys the cache by the dependency POM's coordinates alone (R:582, 587), so a POM cached while resolving a project with other profiles or initial repositories is reused as it stands. The model does not capture that difference; it matches the source whenever the cache is empty or was filled under the same profiles and repositories.
- `System.getProperty` is the `Env.systemProperties` map.
- The following are function-typed fields of `Env`, left uninterpreted because their code is not part of this model:
  - `PropertyPlaceholderHelper.replacePlaceholders`, `Profile.isActive`, `Scope.fromName` and `Scope.isInClasspathOf`;
  - `StringUtils.matchesGlob` and `ResolvedManagedDependency.matches`;
  - `VersionRequirement.fromVersion`, `addRequirement` and `resolve`.
- `ParentChain.MergeEntry`: BOM import nesting is bounded by `Env.importDepth`. The source has no bound and no import-cycle check, so a BOM import cycle exhausts its stack. The model reports `ImportTooDeep` instead.
- `ResolvedPoms.ResolvedPom.ResolveDependencies`: the restart recursion at R:565 is a loop bounded by `restarts`, and the depth of the walk is bounded by `maxDepth`. Nothing in the source bounds either, and its termination depends on `VersionRequirement`, whose code is not part of this model. Running out is the extra outcome `Unsettled` or `TooDeep`.
- `ResolvedPoms.ResolvedPom.ResolveDependencies`: an unsatisfiable version requirement (`MavenParsingException`, R:544, 554) ends the walk as `Unresolvable`. The exception is not a `MavenDownloadingException`, so it is not collected with the other errors.
- The resolved nodes' mutable child lists and effective exclusions (`unsafeSetDependencies`, `unsafeSetEffectiveExclusions`) live in the arena `Graph` beside the flat node list, indexed like it, not inside the node objects.
- `ResolvedPoms.ResolvedPom.Resolve`: the contract compares with the re-resolved state. That every property `resolve()` iterates has a non-null value is implicit, because the model's maps hold no nulls.
- `SUPER_POM`, the Jackson and Lombok annotations, the getters and `getPackaging` are left out.
- `IndentFrequency.IndentStatistic.CommonIndent`: when several keys share the highest total, the source returns whichever the hash map meets first. That order is unspecified, so the contract only promises some key of maximal total.
- `IndentFrequency.IndentStatistic.ContinuationIndent`: the same tie rule, for the same reason.
- `IndentFrequency.IndentStatistic.CommonIndent` and `ContinuationIndent` require every recorded depth to give a non-zero divisor. The source would throw `ArithmeticException` otherwise. `IndentDetection.CountedIndentsRecordable` shows that `countIndents` never records such a depth.
- Java's 32-bit `int` and 64-bit `long` overflow of the counters and of `depth * commonIndent` is not modelled. All counts are unbounded naturals.
- The `ConcurrentHashMap`s of `IndentStatistic` are plain maps.
- The `LinkedHashMap` insertion order of `pkgToBlockPattern` is not modelled. Only `getImportLayoutStyle` reads that order, and it is left out.
- The `Autodetect` AST visitors, `Builder`, `getImportLayoutStyle` and the `SpacesStatistics`/`WrappingAndBracesStatistics` style builders are left out. They depend on tree types and builders whose code is not part of this model.
- `blocksPerSourceFile` and the `minimumFolded*` counters are left out. Only the visitors and `getImportLayoutStyle` use them.
- `incrementDepth`/`decrementDepth` are left out. Only the visitors call them. `countIndents` takes `depth` as it stands.
- `incrementContinuationDepth`/`decrementContinuationDepth` (A:220-229) are never called, so `IndentStatistics.Valid` keeps the continuation depth at its initial 1.
