/**
 * IndentStatistic: a table from (indent depth, continuation depth) to a table from a
 * count of indentation characters to how often that count was seen. Recording bumps
 * one count; the common indent and the continuation indent regroup every recorded
 * count by what it says per level of depth and pick the most frequent group.
 */
module IndentFrequency {
  import opened AutodetectText

  datatype DepthCoordinate = DepthCoordinate(indentDepth: int, continuationDepth: int)

  /** depth -> number of whitespace characters -> number of occurrences */
  type Frequencies = map<DepthCoordinate, map<int, nat>>

  /** One recorded count: a depth and a number of whitespace characters. */
  type Cell = (DepthCoordinate, int)

  /** How often `chars` characters were seen at `d`; 0 when never. */
  function Count(f: Frequencies, d: DepthCoordinate, chars: int): nat {
    if d in f && chars in f[d] then f[d][chars] else 0
  }

  /** The cells the table holds an entry for. */
  function CellSet(f: Frequencies): set<Cell> {
    set d, chars | d in f && chars in f[d] :: (d, chars)
  }

  // ---------------------------------------------------------------------------
  // Sums over maps
  // ---------------------------------------------------------------------------

  /** The sum of the values of a finite map. */
  ghost function SumOver<K>(m: map<K, nat>): nat
    decreases |m|
  {
    if m == map[] then 0
    else
      assert exists k :: k in m by {
        var k :| k in m.Keys;
      }
      var k :| k in m;
      m[k] + SumOver(m - {k})
  }

  /** The sum does not depend on which key is taken out first. */
  lemma {:induction false} SumOverRemove<K>(m: map<K, nat>, k: K)
    requires k in m
    ensures SumOver(m) == m[k] + SumOver(m - {k})
    decreases |m|
  {
    var j :| j in m && SumOver(m) == m[j] + SumOver(m - {j});
    if j != k {
      SumOverRemove(m - {j}, k);
      SumOverRemove(m - {k}, j);
      assert m - {j} - {k} == m - {k} - {j};
    }
  }

  /** Adding a fresh key adds its value to the sum. */
  lemma SumOverAdd<K>(m: map<K, nat>, k: K, v: nat)
    requires k !in m
    ensures SumOver(m[k := v]) == SumOver(m) + v
  {
    SumOverRemove(m[k := v], k);
    assert m[k := v] - {k} == m;
  }

  // ---------------------------------------------------------------------------
  // Record
  // ---------------------------------------------------------------------------

  /** record: no change unless `chars` is positive, else the count at (d, chars) goes up by one. */
  function Recorded(f: Frequencies, d: DepthCoordinate, chars: int): Frequencies {
    if chars <= 0 then f
    else
      var inner := if d in f then f[d] else map[];
      f[d := inner[chars := Count(f, d, chars) + 1]]
  }

  /** Recording changes exactly one count, by exactly one, and only for a positive character count. */
  lemma RecordedCounts(f: Frequencies, d: DepthCoordinate, chars: int)
    ensures chars <= 0 ==> Recorded(f, d, chars) == f
    ensures forall d', c' ::
      Count(Recorded(f, d, chars), d', c') == Count(f, d', c') + (if chars > 0 && d' == d && c' == chars then 1 else 0)
    ensures chars > 0 ==> Recorded(f, d, chars).Keys == f.Keys + {d}
  {
  }

  /** Recording adds at most its own depth to the depths of the table. */
  lemma RecordedKeys(f: Frequencies, d: DepthCoordinate, chars: int)
    ensures Recorded(f, d, chars).Keys <= f.Keys + {d}
  {
  }

  // ---------------------------------------------------------------------------
  // Regrouping
  // ---------------------------------------------------------------------------

  /** commonIndent divides by the indent depth; continuationIndent takes off `depth * commonIndent` first and divides by the continuation depth. */
  datatype Grouping = ByIndent | ByContinuation(commonIndent: int)

  function Divisor(g: Grouping, d: DepthCoordinate): int {
    if g.ByIndent? then d.indentDepth else d.continuationDepth
  }

  /** The key a cell is grouped under, with Java's truncating division; Java throws where the divisor is 0. */
  function GroupOf(g: Grouping, x: Cell): int {
    if Divisor(g, x.0) == 0 then 0
    else match g
      case ByIndent => JavaDiv(x.1, x.0.indentDepth)
      case ByContinuation(common) => JavaDiv(x.1 - x.0.indentDepth * common, x.0.continuationDepth)
  }

  /** The recorded occurrences of the cells of `s`. */
  function CellCounts(f: Frequencies, s: set<Cell>): map<Cell, nat> {
    map x | x in s :: Count(f, x.0, x.1)
  }

  /** The occurrences of the cells of `s` whose key is `k`. */
  function Group(f: Frequencies, key: Cell -> int, s: set<Cell>, k: int): map<Cell, nat> {
    map x | x in s && key(x) == k :: Count(f, x.0, x.1)
  }

  /** Collectors.toMap(key, count, Long::sum) over the cells of `s`: occurrences summed per key. */
  ghost function Totals(f: Frequencies, key: Cell -> int, s: set<Cell>): map<int, nat> {
    map k | k in (set x | x in s :: key(x)) :: SumOver(Group(f, key, s, k))
  }

  function Get(m: map<int, nat>, k: int): nat {
    if k in m then m[k] else 0
  }

  /** The total of one key once one more cell is taken into account. */
  lemma TotalsAddAt(f: Frequencies, key: Cell -> int, s: set<Cell>, x: Cell, j: int)
    requires x !in s
    ensures SumOver(Group(f, key, s + {x}, j)) ==
      if j == key(x) then Get(Totals(f, key, s), j) + Count(f, x.0, x.1) else SumOver(Group(f, key, s, j))
  {
    if j == key(x) {
      assert Group(f, key, s + {x}, j) == Group(f, key, s, j)[x := Count(f, x.0, x.1)];
      SumOverAdd(Group(f, key, s, j), x, Count(f, x.0, x.1));
      if j !in Totals(f, key, s) {
        assert Group(f, key, s, j) == map[];
      }
    } else {
      assert Group(f, key, s + {x}, j) == Group(f, key, s, j);
    }
  }

  /** The keys of the totals are the keys of the cells. */
  lemma TotalsKeys(f: Frequencies, key: Cell -> int, s: set<Cell>)
    ensures Totals(f, key, s).Keys == set x | x in s :: key(x)
  {
  }

  /** Taking one more cell into account adds its key, and no other, to the keys of the totals. */
  lemma TotalsAddKeys(f: Frequencies, key: Cell -> int, s: set<Cell>, x: Cell)
    ensures Totals(f, key, s + {x}).Keys == Totals(f, key, s).Keys + {key(x)}
  {
    TotalsKeys(f, key, s);
    TotalsKeys(f, key, s + {x});
    assert (set y | y in s + {x} :: key(y)) == (set y | y in s :: key(y)) + {key(x)};
  }

  /** Two maps with the same keys and the same value at each key are equal. */
  lemma MapsEqual<K, V>(a: map<K, V>, b: map<K, V>)
    requires a.Keys == b.Keys
    requires forall k :: k in a ==> a[k] == b[k]
    ensures a == b
  {
  }

  /** Taking one more cell into account adds its occurrences to its own key's total, leaving the others. */
  lemma TotalsAddValues(f: Frequencies, key: Cell -> int, s: set<Cell>, x: Cell)
    requires x !in s
    ensures forall j :: j in Totals(f, key, s + {x}) ==>
      Totals(f, key, s + {x})[j] == if j == key(x) then Get(Totals(f, key, s), j) + Count(f, x.0, x.1) else Totals(f, key, s)[j]
  {
    forall j | j in Totals(f, key, s + {x})
      ensures Totals(f, key, s + {x})[j] == if j == key(x) then Get(Totals(f, key, s), j) + Count(f, x.0, x.1) else Totals(f, key, s)[j]
    {
      TotalsAddAt(f, key, s, x, j);
    }
  }

  /** `t'` is `t` with `v` more at `k`, told key by key. */
  ghost predicate Bumped(t: map<int, nat>, t': map<int, nat>, k: int, v: nat) {
    t'.Keys == t.Keys + {k} &&
    forall j :: j in t' ==> t'[j] == if j == k then Get(t, j) + v else t[j]
  }

  /**
   * Taking one more cell into account adds its occurrences to its own key's total,
   * creating that key if it is new, and leaves every other key and total as it was.
   */
  lemma TotalsAdd(f: Frequencies, key: Cell -> int, s: set<Cell>, x: Cell)
    requires x !in s
    ensures Bumped(Totals(f, key, s), Totals(f, key, s + {x}), key(x), Count(f, x.0, x.1))
  {
    TotalsAddKeys(f, key, s, x);
    TotalsAddValues(f, key, s, x);
  }

  /** Replacing the value at a present key changes the sum by the difference. */
  lemma SumOverReplace(t: map<int, nat>, k: int, w: nat)
    requires k in t
    ensures SumOver(t[k := w]) + t[k] == SumOver(t) + w
  {
    SumOverRemove(t, k);
    SumOverRemove(t[k := w], k);
    assert t[k := w] - {k} == t - {k};
  }

  /** Raising one entry of a map by `v`, present or not, raises its sum by `v`. */
  lemma SumOverUpdate(t: map<int, nat>, k: int, v: nat)
    ensures SumOver(t[k := Get(t, k) + v]) == SumOver(t) + v
  {
    if k in t {
      SumOverReplace(t, k, t[k] + v);
    } else {
      SumOverAdd(t, k, v);
    }
  }

  /** A map that agrees with `t` except for `v` more at `k` sums to `v` more. */
  lemma SumOverBump(t: map<int, nat>, t': map<int, nat>, k: int, v: nat)
    requires Bumped(t, t', k, v)
    ensures SumOver(t') == SumOver(t) + v
  {
    BumpedEqual(t, t', k, v);
    SumOverUpdate(t, k, v);
  }

  lemma BumpedEqual(t: map<int, nat>, t': map<int, nat>, k: int, v: nat)
    requires Bumped(t, t', k, v)
    ensures t' == t[k := Get(t, k) + v]
  {
    var u := t[k := Get(t, k) + v];
    assert u.Keys == t.Keys + {k};
    forall j | j in t'
      ensures t'[j] == u[j]
    {
      if j != k {
        assert j in t;
      }
    }
    MapsEqual(t', u);
  }

  /** One more cell adds its occurrences to the grand total of the keys. */
  lemma TotalsAddSum(f: Frequencies, key: Cell -> int, s: set<Cell>, x: Cell)
    requires x !in s
    ensures SumOver(Totals(f, key, s + {x})) == SumOver(Totals(f, key, s)) + Count(f, x.0, x.1)
  {
    TotalsAdd(f, key, s, x);
    SumOverBump(Totals(f, key, s), Totals(f, key, s + {x}), key(x), Count(f, x.0, x.1));
  }

  lemma CellCountsAddSum(f: Frequencies, s: set<Cell>, x: Cell)
    requires x !in s
    ensures SumOver(CellCounts(f, s + {x})) == SumOver(CellCounts(f, s)) + Count(f, x.0, x.1)
  {
    assert CellCounts(f, s + {x}) == CellCounts(f, s)[x := Count(f, x.0, x.1)];
    SumOverAdd(CellCounts(f, s), x, Count(f, x.0, x.1));
  }

  /** Regrouping loses no occurrence and invents none: the totals sum to the cells' occurrences. */
  lemma {:induction false} TotalsConserveOccurrences(f: Frequencies, key: Cell -> int, s: set<Cell>)
    ensures SumOver(Totals(f, key, s)) == SumOver(CellCounts(f, s))
    decreases |s|
  {
    if s == {} {
      assert Totals(f, key, s) == map[];
      assert CellCounts(f, s) == map[];
    } else {
      var x := Pick(s);
      var rest := s - {x};
      TotalsConserveOccurrences(f, key, rest);
      TotalsAddSum(f, key, rest, x);
      CellCountsAddSum(f, rest, x);
      assert rest + {x} == s;
    }
  }

  /** There is nothing to choose from exactly when nothing was recorded. */
  lemma TotalsEmpty(f: Frequencies, key: Cell -> int, s: set<Cell>)
    ensures Totals(f, key, s) == map[] <==> s == {}
  {
    if s != {} {
      var x := Pick(s);
      assert key(x) in Totals(f, key, s);
    }
  }

  lemma Pick<T>(s: set<T>) returns (x: T)
    requires s != {}
    ensures x in s
  {
    x :| x in s;
  }

  /** An element of a non-empty set, as a walk over an unordered collection meets it. */
  method Choose<T>(s: set<T>) returns (x: T)
    requires s != {}
    ensures x in s
  {
    x :| x in s;
  }

  /** `r` is a key whose total no other key exceeds. */
  predicate IsMostFrequent(totals: map<int, nat>, r: int) {
    r in totals && forall k :: k in totals ==> totals[k] <= totals[r]
  }

  /**
   * stream().max(comparingLong(getValue)).map(getKey).orElse(fallback): the hash map is
   * walked in no particular order and a later entry replaces the best only when it is
   * strictly more frequent, so among equally frequent keys any one may be returned.
   */
  method MostFrequent(totals: map<int, nat>, fallback: int) returns (r: int)
    ensures totals == map[] ==> r == fallback
    ensures totals != map[] ==> IsMostFrequent(totals, r)
  {
    if totals == map[] {
      return fallback;
    }
    var keys := totals.Keys;
    r := Choose(keys);
    keys := keys - {r};
    while keys != {}
      invariant keys <= totals.Keys && r in totals
      invariant forall k :: k in totals && k !in keys ==> totals[k] <= totals[r]
      decreases keys
    {
      var k := Choose(keys);
      if totals[k] > totals[r] {
        r := k;
      }
      keys := keys - {k};
    }
  }

  /** `totals` has the keys and the values of the totals of `s`. */
  ghost predicate AgreesWithTotals(f: Frequencies, key: Cell -> int, s: set<Cell>, totals: map<int, nat>) {
    totals.Keys == Totals(f, key, s).Keys &&
    forall k :: k in totals ==> totals[k] == Totals(f, key, s)[k]
  }

  /** Adding a cell's occurrences to its key's running total keeps the running totals in agreement. */
  lemma AgreesAdd(f: Frequencies, key: Cell -> int, s: set<Cell>, x: Cell, totals: map<int, nat>)
    requires x !in s && AgreesWithTotals(f, key, s, totals)
    ensures AgreesWithTotals(f, key, s + {x}, totals[key(x) := Get(totals, key(x)) + Count(f, x.0, x.1)])
  {
    var t := Totals(f, key, s);
    var t' := Totals(f, key, s + {x});
    var totals' := totals[key(x) := Get(totals, key(x)) + Count(f, x.0, x.1)];
    TotalsAddKeys(f, key, s, x);
    TotalsAddValues(f, key, s, x);
    assert totals'.Keys == totals.Keys + {key(x)};
    forall k | k in totals'
      ensures totals'[k] == t'[k]
    {
      if k != key(x) {
        assert totals'[k] == totals[k] == t[k];
      } else {
        assert Get(totals, k) == Get(t, k);
      }
    }
  }

  /** Every recorded cell's occurrences added to the total of its key, one cell at a time. */
  method SumPerKey(f: Frequencies, key: Cell -> int) returns (totals: map<int, nat>)
    ensures totals == Totals(f, key, CellSet(f))
  {
    var cells := CellSet(f);
    TotalsEmpty(f, key, {});
    totals := map[];
    var todo := cells;
    ghost var done: set<Cell> := {};
    while todo != {}
      invariant done + todo == cells && done !! todo
      invariant AgreesWithTotals(f, key, done, totals)
      decreases todo
    {
      var x := Choose(todo);
      AgreesAdd(f, key, done, x, totals);
      totals := totals[key(x) := Get(totals, key(x)) + Count(f, x.0, x.1)];
      todo := todo - {x};
      done := done + {x};
    }
    MapsEqual(totals, Totals(f, key, cells));
  }

  // ---------------------------------------------------------------------------
  // The table
  // ---------------------------------------------------------------------------

  class IndentStatistic {
    var depthToSpaceIndentFrequencies: Frequencies

    constructor ()
      ensures depthToSpaceIndentFrequencies == map[]
    {
      depthToSpaceIndentFrequencies := map[];
    }

    /** Every recorded depth has a divisor the grouping `g` can divide by. */
    predicate Divisible(g: Grouping)
      reads this
    {
      forall d :: d in depthToSpaceIndentFrequencies ==> Divisor(g, d) != 0
    }

    method Record(d: DepthCoordinate, charCount: int)
      modifies this
      ensures depthToSpaceIndentFrequencies == Recorded(old(depthToSpaceIndentFrequencies), d, charCount)
    {
      if charCount <= 0 {
        return;
      }
      var f := depthToSpaceIndentFrequencies;
      var inner := if d in f then f[d] else map[];
      var count := if charCount in inner then inner[charCount] else 0;
      depthToSpaceIndentFrequencies := f[d := inner[charCount := count + 1]];
    }

    /** The flatMap and toMap of commonIndent and continuationIndent: occurrences summed per key. */
    method GroupTotals(g: Grouping) returns (totals: map<int, nat>)
      ensures totals == Totals(depthToSpaceIndentFrequencies, x => GroupOf(g, x), CellSet(depthToSpaceIndentFrequencies))
    {
      totals := SumPerKey(depthToSpaceIndentFrequencies, x => GroupOf(g, x));
    }

    /** commonIndent: the most frequent number of characters per indent level, 4 when nothing was recorded. */
    method CommonIndent() returns (indent: int)
      requires Divisible(ByIndent)
      ensures var cells := CellSet(depthToSpaceIndentFrequencies);
        (cells == {} ==> indent == 4) &&
        (cells != {} ==> IsMostFrequent(Totals(depthToSpaceIndentFrequencies, x => GroupOf(ByIndent, x), cells), indent))
    {
      var totals := GroupTotals(ByIndent);
      TotalsEmpty(depthToSpaceIndentFrequencies, x => GroupOf(ByIndent, x), CellSet(depthToSpaceIndentFrequencies));
      indent := MostFrequent(totals, 4);
    }

    /**
     * continuationIndent: the most frequent number of characters per continuation level
     * beyond the normal indent of the depth, `commonIndent * 2` when nothing was recorded.
     */
    method ContinuationIndent(commonIndent: int) returns (indent: int)
      requires Divisible(ByContinuation(commonIndent))
      ensures var cells := CellSet(depthToSpaceIndentFrequencies);
        (cells == {} ==> indent == commonIndent * 2) &&
        (cells != {} ==> IsMostFrequent(Totals(depthToSpaceIndentFrequencies, x => GroupOf(ByContinuation(commonIndent), x), cells), indent))
    {
      var totals := GroupTotals(ByContinuation(commonIndent));
      TotalsEmpty(depthToSpaceIndentFrequencies, x => GroupOf(ByContinuation(commonIndent), x), CellSet(depthToSpaceIndentFrequencies));
      indent := MostFrequent(totals, commonIndent * 2);
    }
  }
}
