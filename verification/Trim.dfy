/** ${var#pat}, ${var##pat}, ${var%pat} and ${var%%pat}: the in-place trimming of sh/expand.c. */
module Trim {
  import opened Glob

  datatype Subtype = TrimLeft | TrimLeftMax | TrimRight | TrimRightMax {
    predicate FromLeft() { TrimLeft? || TrimLeftMax? }
  }

  // ---------------------------------------------------------------- reference meaning

  /** The prefix (or suffix) that a cut at k removes matches the pattern. */
  ghost predicate CutMatches(loc: Locale, sub: Subtype, pat: string, v: string, k: nat)
    requires k <= |v| && WellFormed(pat, 0)
  {
    GlobMatches(loc, pat, if sub.FromLeft() then v[..k] else v[k..])
  }

  /** A cut at k removes as little (#, %) or as much (##, %%) as a cut at n. */
  predicate Preferred(sub: Subtype, k: nat, n: nat) {
    if sub.TrimLeft? || sub.TrimRightMax? then k <= n else n <= k
  }

  function Remainder(sub: Subtype, v: string, k: nat): string
    requires k <= |v|
  {
    if sub.FromLeft() then v[k..] else v[..k]
  }

  ghost predicate BestCut(loc: Locale, sub: Subtype, pat: string, v: string, k: nat)
    requires WellFormed(pat, 0)
  {
    k <= |v| && CutMatches(loc, sub, pat, v, k) &&
    forall n: nat :: n <= |v| && CutMatches(loc, sub, pat, v, n) ==> Preferred(sub, k, n)
  }

  /** r is v without its shortest or longest matching prefix or suffix. */
  ghost predicate IsTrimmed(loc: Locale, sub: Subtype, pat: string, v: string, r: string)
    requires WellFormed(pat, 0)
  {
    if exists k: nat :: k <= |v| && CutMatches(loc, sub, pat, v, k)
    then exists k :: BestCut(loc, sub, pat, v, k) && r == Remainder(sub, v, k)
    else r == v
  }

  /** The relation leaves no choice: one value, one pattern, one result. */
  lemma TrimmedIsUnique(loc: Locale, sub: Subtype, pat: string, v: string, r: string, r': string)
    requires WellFormed(pat, 0)
    requires IsTrimmed(loc, sub, pat, v, r) && IsTrimmed(loc, sub, pat, v, r')
    ensures r == r'
  {
    if exists k: nat :: k <= |v| && CutMatches(loc, sub, pat, v, k) {
      var k :| BestCut(loc, sub, pat, v, k) && r == Remainder(sub, v, k);
      var k' :| BestCut(loc, sub, pat, v, k') && r' == Remainder(sub, v, k');
      assert Preferred(sub, k, k') && Preferred(sub, k', k);
    }
  }

  // ---------------------------------------------------------------- the buffer

  /** A C string starting at i: the bytes up to the first NUL. */
  ghost predicate CStringAt(b: seq<char>, i: nat, s: string) {
    i + |s| < |b| && b[i..i + |s|] == s && '\0' !in s && b[i + |s|] == '\0'
  }

  lemma CStringIsUnique(b: seq<char>, i: nat, s: string, t: string)
    requires CStringAt(b, i, s) && CStringAt(b, i, t)
    ensures s == t
  {
    forall n | i <= n < i + |s|
      ensures b[n] != '\0'
    {
      assert s[n - i] == b[i..i + |s|][n - i];
    }
    forall n | i <= n < i + |t|
      ensures b[n] != '\0'
    {
      assert t[n - i] == b[i..i + |t|][n - i];
    }
  }

  method ReadCString(buf: array<char>, i: nat, ghost s: string) returns (r: string)
    requires CStringAt(buf[..], i, s)
    ensures r == s
  {
    var n := 0;
    while buf[i + n] != '\0'
      invariant n <= |s|
      decreases |s| - n
    {
      assert n < |s| ==> buf[i + n] == buf[..][i..i + |s|][n];
      n := n + 1;
    }
    r := buf[i..i + n];
    CStringIsUnique(buf[..], i, s, r);
  }

  /** What the loops find in the stack block: the value, a NUL, the pattern, a NUL. */
  ghost predicate Laid(b: seq<char>, startp: nat, str: nat, v: string, pat: string) {
    CStringAt(b, startp, v) && str == startp + |v| + 1 && CStringAt(b, str, pat)
  }

  lemma ValueSlices(b: seq<char>, startp: nat, str: nat, v: string, pat: string, at: nat)
    requires Laid(b, startp, str, v, pat) && startp <= at < str
    ensures b[startp..at] == v[..at - startp] && b[at..str - 1] == v[at - startp..]
  {
    var w := b[startp..startp + |v|];
    assert b[startp..at] == w[..at - startp] && b[at..str - 1] == w[at - startp..];
  }

  /** Loop body of the two prefix cases: cut the value at loc with a NUL, match, put the byte back. */
  method PrefixMatches(loc: Locale, buf: array<char>, startp: nat, str: nat, cut: nat, ghost v: string,
                       ghost pat: string)
    returns (ok: bool)
    requires Laid(buf[..], startp, str, v, pat) && WellFormed(pat, 0) && startp <= cut < str
    modifies buf
    ensures buf[..] == old(buf[..])
    ensures ok == GlobMatches(loc, pat, v[..cut - startp])
  {
    var c := buf[cut];
    buf[cut] := '\0';
    assert buf[..][startp..cut] == v[..cut - startp];
    assert buf[..][str..str + |pat|] == old(buf[..])[str..str + |pat|];
    var p := ReadCString(buf, str, pat);
    var s := ReadCString(buf, startp, v[..cut - startp]);
    ok := PatMatch(loc, p, s);
    buf[cut] := c;
    assert buf[..] == old(buf[..]);
  }

  method SuffixMatches(loc: Locale, buf: array<char>, startp: nat, str: nat, cut: nat, ghost v: string,
                       ghost pat: string)
    returns (ok: bool)
    requires Laid(buf[..], startp, str, v, pat) && WellFormed(pat, 0) && startp <= cut < str
    ensures ok == GlobMatches(loc, pat, v[cut - startp..])
  {
    ValueSlices(buf[..], startp, str, v, pat, cut);
    var p := ReadCString(buf, str, pat);
    var s := ReadCString(buf, cut, v[cut - startp..]);
    ok := PatMatch(loc, p, s);
  }

  /** recordleft: shift what follows the cut down to the start of the value. */
  method RecordLeft(buf: array<char>, str: nat, cut: nat, startp: nat) returns (expdest: nat)
    requires startp <= cut < str <= buf.Length
    modifies buf
    ensures expdest == str - 1 - (cut - startp)
    ensures buf[startp..expdest] == old(buf[cut..str - 1])
    ensures buf[..startp] == old(buf[..startp])
  {
    expdest := str - 1 - (cut - startp);
    var from, to := cut, startp;
    while from != str - 1
      invariant cut <= from <= str - 1 && from - cut == to - startp
      invariant buf[startp..to] == old(buf[cut..from])
      invariant buf[from..] == old(buf[from..])
      invariant buf[..startp] == old(buf[..startp])
      decreases str - from
    {
      assert buf[from..][0] == old(buf[from..])[0] && buf[from..][1..] == old(buf[from..])[1..];
      buf[to] := buf[from];
      assert buf[startp..to + 1] == buf[startp..to] + [buf[to]];
      assert old(buf[cut..from + 1]) == old(buf[cut..from]) + [old(buf[from])];
      from, to := from + 1, to + 1;
    }
  }

  /** VSTRIMLEFT. */
  method ShortestPrefix(loc: Locale, buf: array<char>, startp: nat, str: nat, ghost v: string, ghost pat: string)
    returns (expdest: nat)
    requires Laid(buf[..], startp, str, v, pat) && WellFormed(pat, 0)
    modifies buf
    ensures startp <= expdest < str
    ensures IsTrimmed(loc, TrimLeft, pat, v, buf[startp..expdest])
    ensures buf[..startp] == old(buf[..startp])
  {
    hide GlobMatches, WellFormed;
    var at := startp;
    while at < str
      invariant startp <= at <= str && buf[..] == old(buf[..])
      invariant forall n: nat :: n < at - startp ==> !CutMatches(loc, TrimLeft, pat, v, n)
    {
      var ok := PrefixMatches(loc, buf, startp, str, at, v, pat);
      if ok {
        assert BestCut(loc, TrimLeft, pat, v, at - startp);
        expdest := RecordLeft(buf, str, at, startp);
        ValueSlices(old(buf[..]), startp, str, v, pat, at);
        assert buf[startp..expdest] == old(buf[..])[at..str - 1];
        return;
      }
      at := at + 1;
    }
    expdest := str - 1;
    ValueSlices(buf[..], startp, str, v, pat, expdest);
    assert buf[startp..expdest] == buf[..][startp..expdest];
  }

  /** VSTRIMLEFTMAX. */
  method LongestPrefix(loc: Locale, buf: array<char>, startp: nat, str: nat, ghost v: string, ghost pat: string)
    returns (expdest: nat)
    requires Laid(buf[..], startp, str, v, pat) && WellFormed(pat, 0)
    modifies buf
    ensures startp <= expdest < str
    ensures IsTrimmed(loc, TrimLeftMax, pat, v, buf[startp..expdest])
    ensures buf[..startp] == old(buf[..startp])
  {
    hide GlobMatches, WellFormed;
    var at: int := str - 1;
    while at >= startp
      invariant startp - 1 <= at < str && buf[..] == old(buf[..])
      invariant forall n: nat :: at - startp < n <= |v| ==> !CutMatches(loc, TrimLeftMax, pat, v, n)
    {
      var ok := PrefixMatches(loc, buf, startp, str, at, v, pat);
      if ok {
        assert BestCut(loc, TrimLeftMax, pat, v, at - startp);
        expdest := RecordLeft(buf, str, at, startp);
        ValueSlices(old(buf[..]), startp, str, v, pat, at);
        assert buf[startp..expdest] == old(buf[..])[at..str - 1];
        return;
      }
      at := at - 1;
    }
    expdest := str - 1;
    ValueSlices(buf[..], startp, str, v, pat, expdest);
    assert buf[startp..expdest] == buf[..][startp..expdest];
  }

  /** VSTRIMRIGHT. */
  method ShortestSuffix(loc: Locale, buf: array<char>, startp: nat, str: nat, ghost v: string, ghost pat: string)
    returns (expdest: nat)
    requires Laid(buf[..], startp, str, v, pat) && WellFormed(pat, 0)
    modifies buf
    ensures startp <= expdest < str
    ensures IsTrimmed(loc, TrimRight, pat, v, buf[startp..expdest])
    ensures buf[..startp] == old(buf[..startp])
  {
    hide GlobMatches, WellFormed;
    var at: int := str - 1;
    while at >= startp
      invariant startp - 1 <= at < str && buf[..] == old(buf[..])
      invariant forall n: nat :: at - startp < n <= |v| ==> !CutMatches(loc, TrimRight, pat, v, n)
    {
      var ok := SuffixMatches(loc, buf, startp, str, at, v, pat);
      if ok {
        assert BestCut(loc, TrimRight, pat, v, at - startp);
        ValueSlices(buf[..], startp, str, v, pat, at);
        assert buf[startp..at] == buf[..][startp..at];
        return at;
      }
      at := at - 1;
    }
    expdest := str - 1;
    ValueSlices(buf[..], startp, str, v, pat, expdest);
    assert buf[startp..expdest] == buf[..][startp..expdest];
  }

  /** VSTRIMRIGHTMAX: the loop never tries the empty suffix, whose removal changes nothing. */
  method LongestSuffix(loc: Locale, buf: array<char>, startp: nat, str: nat, ghost v: string, ghost pat: string)
    returns (expdest: nat)
    requires Laid(buf[..], startp, str, v, pat) && WellFormed(pat, 0)
    modifies buf
    ensures startp <= expdest < str
    ensures IsTrimmed(loc, TrimRightMax, pat, v, buf[startp..expdest])
    ensures buf[..startp] == old(buf[..startp])
  {
    hide GlobMatches, WellFormed;
    var at := startp;
    while at < str - 1
      invariant startp <= at <= str - 1 && buf[..] == old(buf[..])
      invariant forall n: nat :: n < at - startp ==> !CutMatches(loc, TrimRightMax, pat, v, n)
    {
      var ok := SuffixMatches(loc, buf, startp, str, at, v, pat);
      if ok {
        assert BestCut(loc, TrimRightMax, pat, v, at - startp);
        ValueSlices(buf[..], startp, str, v, pat, at);
        assert buf[startp..at] == buf[..][startp..at];
        return at;
      }
      at := at + 1;
    }
    if CutMatches(loc, TrimRightMax, pat, v, |v|) {
      assert BestCut(loc, TrimRightMax, pat, v, |v|);
    }
    expdest := str - 1;
    ValueSlices(buf[..], startp, str, v, pat, expdest);
    assert buf[startp..expdest] == buf[..][startp..expdest];
  }

  /** subevalvar_trim after the pattern has been expanded: returns the new end of the
      string being built; the trimmed value is what lies between startp and it. */
  method SubEvalVarTrim(loc: Locale, buf: array<char>, startp: nat, str: nat, subtype: Subtype,
                        ghost v: string, ghost pat: string)
    returns (expdest: nat)
    requires Laid(buf[..], startp, str, v, pat) && WellFormed(pat, 0)
    modifies buf
    ensures startp <= expdest < str
    ensures IsTrimmed(loc, subtype, pat, v, buf[startp..expdest])
    ensures buf[..startp] == old(buf[..startp])
  {
    match subtype
    case TrimLeft => expdest := ShortestPrefix(loc, buf, startp, str, v, pat);
    case TrimLeftMax => expdest := LongestPrefix(loc, buf, startp, str, v, pat);
    case TrimRight => expdest := ShortestSuffix(loc, buf, startp, str, v, pat);
    case TrimRightMax => expdest := LongestSuffix(loc, buf, startp, str, v, pat);
  }
}
