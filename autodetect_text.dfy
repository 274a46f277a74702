/**
 * The string and integer routines style detection leans on: Java's truncating
 * division, the longest common prefix of two package names, the classification of
 * newlines and of indentation characters, and the whitespace votes.
 */
module AutodetectText {
  import opened Wrappers

  function Abs(x: int): nat {
    if x < 0 then -x else x
  }

  /** Java's `/` on int: the quotient of the magnitudes, negated when the signs differ (truncation toward zero). */
  function JavaDiv(a: int, b: int): (q: int)
    requires b != 0
    ensures Abs(q) == Abs(a) / Abs(b)
    ensures q > 0 ==> (a < 0 <==> b < 0)
    ensures q < 0 ==> (a < 0 <==> b > 0)
    ensures a >= 0 && b > 0 ==> q == a / b
  {
    DivOfNatural(Abs(a), Abs(b));
    var q := Abs(a) / Abs(b);
    if (a < 0) == (b < 0) then q else -q
  }

  lemma DivOfNatural(x: nat, y: nat)
    requires y > 0
    ensures x / y >= 0
  {
  }

  predicate IsPrefix(p: string, s: string) {
    |p| <= |s| && s[..|p|] == p
  }

  // ---------------------------------------------------------------------------
  // Longest common prefix
  // ---------------------------------------------------------------------------

  /** The longest string both `a` and `b` start with. */
  function CommonPrefix(a: string, b: string): (r: string)
    ensures IsPrefix(r, a) && IsPrefix(r, b)
    ensures |r| == |a| || |r| == |b| || a[|r|] != b[|r|]
    decreases |a|
  {
    if |a| > 0 && |b| > 0 && a[0] == b[0] then [a[0]] + CommonPrefix(a[1..], b[1..]) else []
  }

  /** Any common prefix of the two strings is a prefix of CommonPrefix: it is the longest. */
  lemma {:induction false} CommonPrefixIsLongest(a: string, b: string, q: string)
    requires IsPrefix(q, a) && IsPrefix(q, b)
    ensures IsPrefix(q, CommonPrefix(a, b))
    decreases |a|
  {
    if |q| > 0 {
      assert q[0] == a[0] == b[0];
      CommonPrefixIsLongest(a[1..], b[1..], q[1..]);
      assert q == [q[0]] + q[1..];
    }
  }

  /** A common prefix that cannot be extended is the longest one. */
  lemma {:induction false} CommonPrefixUnique(a: string, b: string, r: string)
    requires IsPrefix(r, a) && IsPrefix(r, b)
    requires |r| == |a| || |r| == |b| || a[|r|] != b[|r|]
    ensures r == CommonPrefix(a, b)
    decreases |a|
  {
    if |r| > 0 {
      assert r[0] == a[0] == b[0];
      CommonPrefixUnique(a[1..], b[1..], r[1..]);
      assert r == [r[0]] + r[1..];
    }
  }

  /** longestCommonPrefix: `pkg` itself when there is no prefix yet, else the common prefix with it. */
  method LongestCommonPrefix(pkg: string, lcp: Option<string>) returns (r: string)
    ensures lcp.None? ==> r == pkg
    ensures lcp.Some? ==> r == CommonPrefix(pkg, lcp.value)
  {
    if lcp.None? {
      return pkg;
    }
    var p2 := lcp.value;
    var i := 0;
    while i < |pkg| && i < |p2|
      invariant 0 <= i <= |pkg| && i <= |p2|
      invariant pkg[..i] == p2[..i]
    {
      if pkg[i] != p2[i] {
        break;
      }
      assert pkg[..i + 1] == pkg[..i] + [pkg[i]] && p2[..i + 1] == p2[..i] + [p2[i]];
      i := i + 1;
    }
    r := p2[..i];
    CommonPrefixUnique(pkg, p2, r);
  }

  // ---------------------------------------------------------------------------
  // Newlines
  // ---------------------------------------------------------------------------

  /** How many newlines of each kind a stretch of whitespace holds. */
  datatype NewlineCounts = NewlineCounts(crlf: nat, lf: nat)

  /** The count visitSpace makes: a `\n` right after a `\r` is CRLF, any other `\n` is LF. */
  function CountNewlines(s: string): NewlineCounts
    decreases |s|
  {
    if |s| == 0 then NewlineCounts(0, 0)
    else
      var p := CountNewlines(s[..|s| - 1]);
      if s[|s| - 1] != '\n' then p
      else if |s| >= 2 && s[|s| - 2] == '\r' then p.(crlf := p.crlf + 1)
      else p.(lf := p.lf + 1)
  }

  /** Every `\n` is counted exactly once, and nothing else is: a `\r` on its own counts for neither kind. */
  lemma {:induction false} CountNewlinesTotal(s: string)
    ensures CountNewlines(s).crlf + CountNewlines(s).lf == multiset(s)['\n']
    decreases |s|
  {
    if |s| > 0 {
      CountNewlinesTotal(s[..|s| - 1]);
      assert s == s[..|s| - 1] + [s[|s| - 1]];
      assert multiset(s) == multiset(s[..|s| - 1]) + multiset{s[|s| - 1]};
    }
  }

  /** Position `i` of `s` is the `\n` of a `\r\n` pair. */
  predicate CrlfAt(s: string, i: int) {
    1 <= i < |s| && s[i] == '\n' && s[i - 1] == '\r'
  }

  /** The positions of the `\r\n` pairs of `s`, by their `\n`. */
  function CrlfPositions(s: string): set<int> {
    set i | 0 <= i < |s| && CrlfAt(s, i)
  }

  /** One more character adds its own position when it completes a pair, and nothing else. */
  lemma CrlfPositionsSnoc(s: string)
    requires |s| > 0
    ensures CrlfPositions(s) == CrlfPositions(s[..|s| - 1]) + (if CrlfAt(s, |s| - 1) then {|s| - 1} else {})
    ensures |s| - 1 !in CrlfPositions(s[..|s| - 1])
  {
    var init := s[..|s| - 1];
    assert forall i :: 0 <= i < |init| ==> (CrlfAt(init, i) <==> CrlfAt(s, i));
  }

  /** The CRLF count is the number of `\r\n` pairs. */
  lemma {:induction false} CountNewlinesCrlf(s: string)
    ensures CountNewlines(s).crlf == |CrlfPositions(s)|
    decreases |s|
  {
    if |s| > 0 {
      CountNewlinesCrlf(s[..|s| - 1]);
      CrlfPositionsSnoc(s);
    }
  }

  // ---------------------------------------------------------------------------
  // Indentation characters
  // ---------------------------------------------------------------------------

  /** The spaces and tabs of a stretch of whitespace, and whether both kinds occur. */
  datatype IndentChars = IndentChars(spaces: nat, tabs: nat, mixed: bool)

  /** The character loop of countIndents: `mixed` is set when one kind follows the other. */
  function ScanIndent(s: string): IndentChars
    decreases |s|
  {
    if |s| == 0 then IndentChars(0, 0, false)
    else
      var p := ScanIndent(s[..|s| - 1]);
      var c := s[|s| - 1];
      if c == ' ' then IndentChars(p.spaces + 1, p.tabs, p.mixed || p.tabs > 0)
      else if c == '\t' then IndentChars(p.spaces, p.tabs + 1, p.mixed || p.spaces > 0)
      else p
  }

  /** The loop counts every space and every tab, and a line is mixed exactly when it has both. */
  lemma {:induction false} ScanIndentCounts(s: string)
    ensures ScanIndent(s).spaces == multiset(s)[' ']
    ensures ScanIndent(s).tabs == multiset(s)['\t']
    ensures ScanIndent(s).mixed <==> ScanIndent(s).spaces > 0 && ScanIndent(s).tabs > 0
    decreases |s|
  {
    if |s| > 0 {
      ScanIndentCounts(s[..|s| - 1]);
      assert s == s[..|s| - 1] + [s[|s| - 1]];
      assert multiset(s) == multiset(s[..|s| - 1]) + multiset{s[|s| - 1]};
    }
  }

  /** String.lastIndexOf('\n'): -1 when there is none. */
  function LastNewline(s: string): (r: int)
    ensures -1 <= r < |s|
    ensures r == -1 <==> '\n' !in s
    ensures r >= 0 ==> s[r] == '\n'
    ensures forall j :: r < j < |s| ==> s[j] != '\n'
    decreases |s|
  {
    if |s| == 0 then -1
    else if s[|s| - 1] == '\n' then |s| - 1
    else
      var r := LastNewline(s[..|s| - 1]);
      assert '\n' in s <==> '\n' in s[..|s| - 1] by {
        assert s == s[..|s| - 1] + [s[|s| - 1]];
      }
      r
  }

  // ---------------------------------------------------------------------------
  // Whitespace votes
  // ---------------------------------------------------------------------------

  /** hasSpace: +1 for whitespace holding a space, -1 otherwise; never 0. */
  function HasSpace(whitespace: string): (vote: int)
    ensures vote == 1 || vote == -1
    ensures vote == 1 <==> ' ' in whitespace
  {
    if ' ' in whitespace then 1 else -1
  }

  /** hasNewLine: +1 for whitespace holding a newline, -1 otherwise; never 0. */
  function HasNewLine(whitespace: string): (vote: int)
    ensures vote == 1 || vote == -1
    ensures vote == 1 <==> '\n' in whitespace
  {
    if '\n' in whitespace then 1 else -1
  }

  /** Number of dots in a string, as `chars().filter(c -> c == '.').count()`. */
  function DotCount(s: string): (n: nat)
    ensures n == multiset(s)['.']
  {
    multiset(s)['.']
  }
}
