/**
 * ImportLayoutStatistics: the votes on where static imports go and on the order of
 * `java` and `javax`, and mapBlockPatterns, which walks the sorted imported packages
 * and names each run of related packages by a `prefix*` block pattern.
 */
module ImportLayout {
  import opened Wrappers
  import opened AutodetectText

  /** `java.` and `javax.` groups are named by those prefixes alone. */
  function Normalize(prefix: string): (r: string)
    ensures IsPrefix(r, prefix)
    ensures IsPrefix("java.", prefix) ==> r == "java."
    ensures !IsPrefix("java.", prefix) && IsPrefix("javax.", prefix) ==> r == "javax."
    ensures !IsPrefix("java.", prefix) && !IsPrefix("javax.", prefix) ==> r == prefix
  {
    if IsPrefix("java.", prefix) then "java." else if IsPrefix("javax.", prefix) then "javax." else prefix
  }

  /** Normalizing twice is normalizing once, which is what lets mapBlockPatterns overwrite its prefix inside the flush loop. */
  lemma NormalizeIdempotent(prefix: string)
    ensures Normalize(Normalize(prefix)) == Normalize(prefix)
  {
    assert "javax."[4] == 'x';
  }

  /** `pattern` is some prefix of `pkg` followed by `*`. */
  predicate IsBlockPatternFor(pattern: string, pkg: string) {
    |pattern| > 0 && pattern[|pattern| - 1] == '*' && IsPrefix(pattern[..|pattern| - 1], pkg)
  }

  /** A pattern under `java.` or `javax.` is exactly `java.*` or `javax.*`. */
  predicate Lumped(pattern: string) {
    (IsPrefix("java.", pattern) ==> pattern == "java.*") &&
    (IsPrefix("javax.", pattern) ==> pattern == "javax.*")
  }

  lemma PrefixTransitive(a: string, b: string, c: string)
    requires IsPrefix(a, b) && IsPrefix(b, c)
    ensures IsPrefix(a, c)
  {
    assert c[..|a|] == c[..|b|][..|a|];
  }

  /** Appending `*` cannot make a string start with a prefix that has no `*`. */
  lemma StarKeepsNonPrefix(q: string, prefix: string)
    requires !IsPrefix(q, prefix) && '*' !in q
    ensures !IsPrefix(q, prefix + "*")
  {
    var s := prefix + "*";
    if |q| <= |prefix| {
      assert s[..|q|] == prefix[..|q|];
    } else if |q| == |prefix| + 1 {
      assert s[|prefix|] == '*';
      assert q[|prefix|] != '*';
    }
  }

  /** A normalized prefix followed by `*` is a lumped pattern. */
  lemma NormalizedIsLumped(prefix: string)
    ensures Lumped(Normalize(prefix) + "*")
  {
    var pattern := Normalize(prefix) + "*";
    if IsPrefix("java.", prefix) {
      assert pattern == "java.*";
      assert pattern[4] == '.';
    } else if IsPrefix("javax.", prefix) {
      assert pattern == "javax.*";
      assert pattern[4] == 'x';
    } else {
      StarKeepsNonPrefix("java.", prefix);
      StarKeepsNonPrefix("javax.", prefix);
    }
  }

  /** `put(key, value)` for each key in turn. */
  function PutAll(patterns: map<string, string>, keys: seq<string>, value: string): map<string, string>
    decreases |keys|
  {
    if |keys| == 0 then patterns else PutAll(patterns, keys[..|keys| - 1], value)[keys[|keys| - 1] := value]
  }

  /** Every key given gets the value, every other entry is left as it was. */
  lemma {:induction false} PutAllLookup(patterns: map<string, string>, keys: seq<string>, value: string, k: string)
    ensures k in keys ==> k in PutAll(patterns, keys, value) && PutAll(patterns, keys, value)[k] == value
    ensures k !in keys ==> (k in PutAll(patterns, keys, value) <==> k in patterns)
    ensures k !in keys && k in patterns ==> PutAll(patterns, keys, value)[k] == patterns[k]
    decreases |keys|
  {
    if |keys| > 0 {
      PutAllLookup(patterns, keys[..|keys| - 1], value, k);
      assert keys == keys[..|keys| - 1] + [keys[|keys| - 1]];
    }
  }

  // ---------------------------------------------------------------------------
  // The walk over the packages
  // ---------------------------------------------------------------------------

  /** The local variables of mapBlockPatterns between two packages, and the pattern map. */
  datatype GroupingState = GroupingState(
    lcp: Option<string>,
    prevLCP: Option<string>,
    prevPackages: seq<string>,
    patterns: map<string, string>)

  function Start(patterns: map<string, string>): GroupingState {
    GroupingState(None, None, [], patterns)
  }

  /** The common prefix of `pkg` with the current group. */
  function GroupPrefix(st: GroupingState, pkg: string): string {
    if st.lcp.None? then pkg else CommonPrefix(pkg, st.lcp.value)
  }

  /**
   * `pkg` ends the current group: the group is non-empty, the common prefix has at
   * most one dot and the group's own prefix is not empty.
   */
  predicate Flushes(st: GroupingState, pkg: string) {
    |st.prevPackages| > 0 && DotCount(GroupPrefix(st, pkg)) <= 1 && st.prevLCP.Some? && st.prevLCP.value != ""
  }

  /**
   * One package: when it ends the current group, the group is flushed under its
   * normalized prefix and a new group starts with it; otherwise it joins the group.
   */
  function Step(st: GroupingState, pkg: string): GroupingState {
    var lcp := GroupPrefix(st, pkg);
    if Flushes(st, pkg) then
      GroupingState(Some(pkg), Some(pkg), [pkg], PutAll(st.patterns, st.prevPackages, Normalize(st.prevLCP.value) + "*"))
    else
      GroupingState(Some(lcp), Some(lcp), st.prevPackages + [pkg], st.patterns)
  }

  function Walk(st: GroupingState, pkgs: seq<string>): GroupingState
    decreases |pkgs|
  {
    if |pkgs| == 0 then st else Walk(Step(st, pkgs[0]), pkgs[1..])
  }

  /** After the loop the last group is flushed under its prefix as it stands. */
  function Flush(st: GroupingState): map<string, string> {
    PutAll(st.patterns, st.prevPackages, (if st.prevLCP.Some? then st.prevLCP.value else "") + "*")
  }

  /** The pattern map after mapBlockPatterns over `pkgs`, starting from `patterns`. */
  function BlockPatterns(patterns: map<string, string>, pkgs: seq<string>): map<string, string> {
    Flush(Walk(Start(patterns), pkgs))
  }

  /** The packages of the group still open when the loop ends. */
  function LastGroup(pkgs: seq<string>): seq<string> {
    Walk(Start(map[]), pkgs).prevPackages
  }

  /**
   * What holds between two packages, given the packages `done` so far and the map `m0`
   * the walk started from: every package of the open group starts with its prefix;
   * every other package done has a lumped pattern naming a prefix of it; every key not
   * done is as it was in `m0`.
   */
  ghost predicate Inv(m0: map<string, string>, st: GroupingState, done: seq<string>) {
    st.lcp == st.prevLCP &&
    (forall p :: p in st.prevPackages ==> p in done && st.prevLCP.Some? && IsPrefix(st.prevLCP.value, p)) &&
    (forall p :: p in done && p !in st.prevPackages ==>
      p in st.patterns && IsBlockPatternFor(st.patterns[p], p) && Lumped(st.patterns[p])) &&
    (forall k :: k !in done ==> (k in st.patterns <==> k in m0) && (k in m0 ==> st.patterns[k] == m0[k]))
  }

  /** The pattern a flushed group gives its packages. */
  lemma FlushedPattern(prefix: string, p: string)
    requires IsPrefix(prefix, p)
    ensures IsBlockPatternFor(Normalize(prefix) + "*", p) && Lumped(Normalize(prefix) + "*")
  {
    PrefixTransitive(Normalize(prefix), prefix, p);
    NormalizedIsLumped(prefix);
    var pattern := Normalize(prefix) + "*";
    assert pattern[..|pattern| - 1] == Normalize(prefix);
  }

  lemma StepInv(m0: map<string, string>, st: GroupingState, done: seq<string>, pkg: string)
    requires Inv(m0, st, done)
    ensures Inv(m0, Step(st, pkg), done + [pkg])
  {
    var lcp := if st.lcp.None? then pkg else CommonPrefix(pkg, st.lcp.value);
    var r := Step(st, pkg);
    if |st.prevPackages| > 0 && DotCount(lcp) <= 1 && st.prevLCP.Some? && st.prevLCP.value != "" {
      var pattern := Normalize(st.prevLCP.value) + "*";
      forall p | p in done + [pkg] && p !in r.prevPackages
        ensures p in r.patterns && IsBlockPatternFor(r.patterns[p], p) && Lumped(r.patterns[p])
      {
        PutAllLookup(st.patterns, st.prevPackages, pattern, p);
        if p in st.prevPackages {
          FlushedPattern(st.prevLCP.value, p);
        }
      }
      forall k | k !in done + [pkg]
        ensures (k in r.patterns <==> k in m0) && (k in m0 ==> r.patterns[k] == m0[k])
      {
        PutAllLookup(st.patterns, st.prevPackages, pattern, k);
      }
    } else {
      forall p | p in r.prevPackages
        ensures IsPrefix(lcp, p)
      {
        if p != pkg {
          PrefixTransitive(lcp, st.lcp.value, p);
        }
      }
    }
  }

  lemma {:induction false} WalkInv(m0: map<string, string>, st: GroupingState, done: seq<string>, pkgs: seq<string>)
    requires Inv(m0, st, done)
    ensures Inv(m0, Walk(st, pkgs), done + pkgs)
    decreases |pkgs|
  {
    if |pkgs| > 0 {
      var s1, d1, rest := Step(st, pkgs[0]), done + [pkgs[0]], pkgs[1..];
      StepInv(m0, st, done, pkgs[0]);
      WalkInv(m0, s1, d1, rest);
      assert d1 + rest == done + pkgs;
      assert Walk(st, pkgs) == Walk(s1, rest);
    }
  }

  /** The open group does not depend on the patterns the walk started from. */
  lemma {:induction false} WalkGroupsIgnorePatterns(st: GroupingState, patterns: map<string, string>, pkgs: seq<string>)
    ensures Walk(st, pkgs).prevPackages == Walk(st.(patterns := patterns), pkgs).prevPackages
    ensures Walk(st, pkgs).prevLCP == Walk(st.(patterns := patterns), pkgs).prevLCP
    decreases |pkgs|
  {
    if |pkgs| > 0 {
      var s1 := Step(st, pkgs[0]);
      var s2 := Step(st.(patterns := patterns), pkgs[0]);
      assert s2 == s1.(patterns := s2.patterns);
      WalkGroupsIgnorePatterns(s1, s2.patterns, pkgs[1..]);
    }
  }

  /** Every package gets a block pattern: some prefix of the package followed by `*`. */
  lemma BlockPatternsCover(patterns: map<string, string>, pkgs: seq<string>)
    ensures forall pkg :: pkg in pkgs ==>
      pkg in BlockPatterns(patterns, pkgs) && IsBlockPatternFor(BlockPatterns(patterns, pkgs)[pkg], pkg)
  {
    var st := Walk(Start(patterns), pkgs);
    WalkInv(patterns, Start(patterns), [], pkgs);
    assert [] + pkgs == pkgs;
    forall pkg | pkg in pkgs
      ensures pkg in Flush(st) && IsBlockPatternFor(Flush(st)[pkg], pkg)
    {
      var pattern := (if st.prevLCP.Some? then st.prevLCP.value else "") + "*";
      PutAllLookup(st.patterns, st.prevPackages, pattern, pkg);
      if pkg in st.prevPackages {
        assert pattern[..|pattern| - 1] == st.prevLCP.value;
      }
    }
  }

  /**
   * The flush inside the loop: when `pkg` ends a group whose prefix starts with
   * `java.`, every package of the group gets `java.*`; with `javax.`, `javax.*`;
   * otherwise the group's prefix followed by `*`. A package that does not end the
   * group changes no pattern.
   */
  lemma StepFlushPatterns(st: GroupingState, pkg: string)
    ensures Flushes(st, pkg) && IsPrefix("java.", st.prevLCP.value) ==>
      forall p :: p in st.prevPackages ==> p in Step(st, pkg).patterns && Step(st, pkg).patterns[p] == "java.*"
    ensures Flushes(st, pkg) && !IsPrefix("java.", st.prevLCP.value) && IsPrefix("javax.", st.prevLCP.value) ==>
      forall p :: p in st.prevPackages ==> p in Step(st, pkg).patterns && Step(st, pkg).patterns[p] == "javax.*"
    ensures Flushes(st, pkg) && !IsPrefix("java.", st.prevLCP.value) && !IsPrefix("javax.", st.prevLCP.value) ==>
      forall p :: p in st.prevPackages ==>
        p in Step(st, pkg).patterns && Step(st, pkg).patterns[p] == st.prevLCP.value + "*"
    ensures Flushes(st, pkg) ==> forall k :: k !in st.prevPackages ==>
      (k in Step(st, pkg).patterns <==> k in st.patterns) &&
      (k in st.patterns ==> Step(st, pkg).patterns[k] == st.patterns[k])
    ensures !Flushes(st, pkg) ==> Step(st, pkg).patterns == st.patterns
  {
    if Flushes(st, pkg) {
      var pattern := Normalize(st.prevLCP.value) + "*";
      forall k {
        PutAllLookup(st.patterns, st.prevPackages, pattern, k);
      }
    }
  }

  /** A package whose group was flushed inside the loop gets `java.*` or `javax.*` whenever its pattern falls under those. */
  lemma BlockPatternsLumpJava(patterns: map<string, string>, pkgs: seq<string>)
    ensures forall pkg :: pkg in pkgs && pkg !in LastGroup(pkgs) ==>
      pkg in BlockPatterns(patterns, pkgs) && Lumped(BlockPatterns(patterns, pkgs)[pkg])
  {
    var st := Walk(Start(patterns), pkgs);
    WalkInv(patterns, Start(patterns), [], pkgs);
    WalkGroupsIgnorePatterns(Start(patterns), map[], pkgs);
    assert Start(patterns).(patterns := map[]) == Start(map[]);
    assert [] + pkgs == pkgs;
    forall pkg | pkg in pkgs && pkg !in LastGroup(pkgs)
      ensures pkg in Flush(st) && Lumped(Flush(st)[pkg])
    {
      PutAllLookup(st.patterns, st.prevPackages, (if st.prevLCP.Some? then st.prevLCP.value else "") + "*", pkg);
    }
  }

  /** Entries for packages outside the input are left alone. */
  lemma BlockPatternsKeepOthers(patterns: map<string, string>, pkgs: seq<string>)
    ensures forall k :: k !in pkgs ==>
      (k in BlockPatterns(patterns, pkgs) <==> k in patterns) &&
      (k in patterns ==> BlockPatterns(patterns, pkgs)[k] == patterns[k])
  {
    var st := Walk(Start(patterns), pkgs);
    WalkInv(patterns, Start(patterns), [], pkgs);
    assert [] + pkgs == pkgs;
    forall k | k !in pkgs
      ensures (k in Flush(st) <==> k in patterns) && (k in patterns ==> Flush(st)[k] == patterns[k])
    {
      PutAllLookup(st.patterns, st.prevPackages, (if st.prevLCP.Some? then st.prevLCP.value else "") + "*", k);
    }
  }

  // ---------------------------------------------------------------------------
  // The statistics
  // ---------------------------------------------------------------------------

  class ImportLayoutStatistics {
    var pkgToBlockPattern: map<string, string>
    var staticAtTopCount: int
    var staticAtBotCount: int
    var javaBeforeJavaxCount: int
    var javaxBeforeJavaCount: int

    constructor ()
      ensures pkgToBlockPattern == map[]
      ensures staticAtTopCount == 0 && staticAtBotCount == 0
      ensures javaBeforeJavaxCount == 0 && javaxBeforeJavaCount == 0
    {
      pkgToBlockPattern := map[];
      staticAtTopCount, staticAtBotCount := 0, 0;
      javaBeforeJavaxCount, javaxBeforeJavaCount := 0, 0;
    }

    /** isStaticImportsAtBot: a tie puts static imports at the bottom. */
    predicate IsStaticImportsAtBot()
      reads this
      ensures IsStaticImportsAtBot() <==> !(staticAtTopCount > staticAtBotCount)
      ensures staticAtTopCount == staticAtBotCount ==> IsStaticImportsAtBot()
    {
      staticAtBotCount >= staticAtTopCount
    }

    /** isJavaxBeforeJava: a tie puts javax first. */
    predicate IsJavaxBeforeJava()
      reads this
      ensures IsJavaxBeforeJava() <==> !(javaBeforeJavaxCount > javaxBeforeJavaCount)
      ensures javaBeforeJavaxCount == javaxBeforeJavaCount ==> IsJavaxBeforeJava()
    {
      javaxBeforeJavaCount >= javaBeforeJavaxCount
    }

    /** The flush inside the loop, rewriting its prefix to `java.`/`javax.` on the way as the source does. */
    method FlushGroup(prevPackages: seq<string>, prefix: string) returns (prevLCP: string)
      modifies this
      ensures pkgToBlockPattern == PutAll(old(pkgToBlockPattern), prevPackages, Normalize(prefix) + "*")
      ensures |prevPackages| > 0 ==> prevLCP == Normalize(prefix)
    {
      prevLCP := prefix;
      for j := 0 to |prevPackages|
        invariant pkgToBlockPattern == PutAll(old(pkgToBlockPattern), prevPackages[..j], Normalize(prefix) + "*")
        invariant prevLCP == if j == 0 then prefix else Normalize(prefix)
      {
        NormalizeIdempotent(prefix);
        if IsPrefix("java.", prevLCP) {
          prevLCP := "java.";
        } else if IsPrefix("javax.", prevLCP) {
          prevLCP := "javax.";
        }
        pkgToBlockPattern := pkgToBlockPattern[prevPackages[j] := prevLCP + "*"];
        assert prevPackages[..j + 1][..j] == prevPackages[..j];
      }
      assert prevPackages[..|prevPackages|] == prevPackages;
    }

    /** One turn of the loop in mapBlockPatterns: extend the group with `pkg`, or flush it and start a new one. */
    method GroupPackage(pkg: string, lcp0: Option<string>, prevLCP0: Option<string>, prevPackages0: seq<string>)
      returns (longestCommonPrefix: Option<string>, prevLCP: Option<string>, prevPackages: seq<string>)
      modifies this
      ensures GroupingState(longestCommonPrefix, prevLCP, prevPackages, pkgToBlockPattern)
           == Step(GroupingState(lcp0, prevLCP0, prevPackages0, old(pkgToBlockPattern)), pkg)
    {
      prevLCP, prevPackages := prevLCP0, prevPackages0;
      var lcp := LongestCommonPrefix(pkg, lcp0);
      longestCommonPrefix := Some(lcp);
      if |prevPackages| > 0 && DotCount(lcp) <= 1 && prevLCP.Some? && prevLCP.value != "" {
        var flushedPrefix := FlushGroup(prevPackages, prevLCP.value);
        prevLCP := Some(flushedPrefix);
        longestCommonPrefix := Some(pkg);
        prevPackages := [];
      }
      prevPackages := prevPackages + [pkg];
      prevLCP := longestCommonPrefix;
    }

    /** The flush after the loop in mapBlockPatterns: the last group under its prefix as it stands. */
    method FlushLastGroup(prevPackages: seq<string>, lastPrefix: string)
      modifies this
      ensures pkgToBlockPattern == PutAll(old(pkgToBlockPattern), prevPackages, lastPrefix)
    {
      for j := 0 to |prevPackages|
        invariant pkgToBlockPattern == PutAll(old(pkgToBlockPattern), prevPackages[..j], lastPrefix)
      {
        pkgToBlockPattern := pkgToBlockPattern[prevPackages[j] := lastPrefix];
        assert prevPackages[..j + 1][..j] == prevPackages[..j];
      }
      assert prevPackages[..|prevPackages|] == prevPackages;
    }

    method MapBlockPatterns(importedPackages: seq<string>)
      modifies this
      ensures pkgToBlockPattern == BlockPatterns(old(pkgToBlockPattern), importedPackages)
    {
      var longestCommonPrefix: Option<string> := None;
      var prevLCP: Option<string> := None;
      var prevPackages: seq<string> := [];
      ghost var target := Walk(Start(pkgToBlockPattern), importedPackages);
      for i := 0 to |importedPackages|
        invariant Walk(GroupingState(longestCommonPrefix, prevLCP, prevPackages, pkgToBlockPattern), importedPackages[i..]) == target
      {
        assert importedPackages[i..][0] == importedPackages[i] && importedPackages[i..][1..] == importedPackages[i + 1..];
        longestCommonPrefix, prevLCP, prevPackages := GroupPackage(importedPackages[i], longestCommonPrefix, prevLCP, prevPackages);
      }
      assert importedPackages[|importedPackages|..] == [];
      FlushLastGroup(prevPackages, (if prevLCP.Some? then prevLCP.value else "") + "*");
    }
  }
}
