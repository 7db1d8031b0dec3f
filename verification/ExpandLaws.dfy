/** What trimming, field splitting and escaping do to text, case by case. */
module ExpandLaws {
  import opened Glob
  import opened Trim
  import opened Split
  import opened Escape

  // ---------------------------------------------------------------- trimming

  /** r is v without its shortest prefix that matches. */
  ghost predicate WithoutShortestPrefix(loc: Locale, pat: string, v: string, r: string)
    requires WellFormed(pat, 0)
  {
    exists k :: 0 <= k <= |v| && GlobMatches(loc, pat, v[..k]) && r == v[k..]
                && forall n :: 0 <= n < k ==> !GlobMatches(loc, pat, v[..n])
  }

  ghost predicate WithoutLongestPrefix(loc: Locale, pat: string, v: string, r: string)
    requires WellFormed(pat, 0)
  {
    exists k :: 0 <= k <= |v| && GlobMatches(loc, pat, v[..k]) && r == v[k..]
                && forall n :: k < n <= |v| ==> !GlobMatches(loc, pat, v[..n])
  }

  ghost predicate WithoutShortestSuffix(loc: Locale, pat: string, v: string, r: string)
    requires WellFormed(pat, 0)
  {
    exists k :: 0 <= k <= |v| && GlobMatches(loc, pat, v[k..]) && r == v[..k]
                && forall n :: k < n <= |v| ==> !GlobMatches(loc, pat, v[n..])
  }

  ghost predicate WithoutLongestSuffix(loc: Locale, pat: string, v: string, r: string)
    requires WellFormed(pat, 0)
  {
    exists k :: 0 <= k <= |v| && GlobMatches(loc, pat, v[k..]) && r == v[..k]
                && forall n :: 0 <= n < k ==> !GlobMatches(loc, pat, v[n..])
  }

  ghost predicate NoPrefix(loc: Locale, pat: string, v: string)
    requires WellFormed(pat, 0)
  {
    forall k :: 0 <= k <= |v| ==> !GlobMatches(loc, pat, v[..k])
  }

  ghost predicate NoSuffix(loc: Locale, pat: string, v: string)
    requires WellFormed(pat, 0)
  {
    forall k :: 0 <= k <= |v| ==> !GlobMatches(loc, pat, v[k..])
  }

  /** # and ## take off the shortest and the longest matching prefix, if there is one. */
  lemma PrefixTrimmed(loc: Locale, pat: string, v: string, r: string)
    requires WellFormed(pat, 0)
    ensures IsTrimmed(loc, TrimLeft, pat, v, r) <==>
            WithoutShortestPrefix(loc, pat, v, r) || (NoPrefix(loc, pat, v) && r == v)
    ensures IsTrimmed(loc, TrimLeftMax, pat, v, r) <==>
            WithoutLongestPrefix(loc, pat, v, r) || (NoPrefix(loc, pat, v) && r == v)
  {
    OnePrefixCase(loc, TrimLeft, pat, v, r);
    OnePrefixCase(loc, TrimLeftMax, pat, v, r);
  }

  /** % and %% take off the shortest and the longest matching suffix, if there is one. */
  lemma SuffixTrimmed(loc: Locale, pat: string, v: string, r: string)
    requires WellFormed(pat, 0)
    ensures IsTrimmed(loc, TrimRight, pat, v, r) <==>
            WithoutShortestSuffix(loc, pat, v, r) || (NoSuffix(loc, pat, v) && r == v)
    ensures IsTrimmed(loc, TrimRightMax, pat, v, r) <==>
            WithoutLongestSuffix(loc, pat, v, r) || (NoSuffix(loc, pat, v) && r == v)
  {
    OneSuffixCase(loc, TrimRight, pat, v, r);
    OneSuffixCase(loc, TrimRightMax, pat, v, r);
  }

  lemma OnePrefixCase(loc: Locale, sub: Subtype, pat: string, v: string, r: string)
    requires WellFormed(pat, 0) && sub in {TrimLeft, TrimLeftMax}
    ensures IsTrimmed(loc, sub, pat, v, r) <==>
            (if sub == TrimLeft then WithoutShortestPrefix(loc, pat, v, r) else WithoutLongestPrefix(loc, pat, v, r))
            || (NoPrefix(loc, pat, v) && r == v)
  {
    hide GlobMatches, WellFormed;
    if exists k: nat :: k <= |v| && CutMatches(loc, sub, pat, v, k) {
      var k0: nat :| k0 <= |v| && CutMatches(loc, sub, pat, v, k0);
      assert GlobMatches(loc, pat, v[..k0]);
      if IsTrimmed(loc, sub, pat, v, r) {
        var k: nat :| BestCut(loc, sub, pat, v, k) && r == Remainder(sub, v, k);
        forall n: nat | n <= |v| && GlobMatches(loc, pat, v[..n]) ensures Preferred(sub, k, n) {
          assert CutMatches(loc, sub, pat, v, n);
        }
        assert GlobMatches(loc, pat, v[..k]) && r == v[k..];
      }
      if sub == TrimLeft && WithoutShortestPrefix(loc, pat, v, r) {
        var k: nat :| k <= |v| && GlobMatches(loc, pat, v[..k]) && r == v[k..]
                      && forall n :: 0 <= n < k ==> !GlobMatches(loc, pat, v[..n]);
        assert BestCut(loc, sub, pat, v, k);
      }
      if sub == TrimLeftMax && WithoutLongestPrefix(loc, pat, v, r) {
        var k: nat :| k <= |v| && GlobMatches(loc, pat, v[..k]) && r == v[k..]
                      && forall n :: k < n <= |v| ==> !GlobMatches(loc, pat, v[..n]);
        assert BestCut(loc, sub, pat, v, k);
      }
    } else {
      forall k | 0 <= k <= |v| ensures !GlobMatches(loc, pat, v[..k]) { assert !CutMatches(loc, sub, pat, v, k); }
    }
  }

  lemma OneSuffixCase(loc: Locale, sub: Subtype, pat: string, v: string, r: string)
    requires WellFormed(pat, 0) && sub in {TrimRight, TrimRightMax}
    ensures IsTrimmed(loc, sub, pat, v, r) <==>
            (if sub == TrimRight then WithoutShortestSuffix(loc, pat, v, r) else WithoutLongestSuffix(loc, pat, v, r))
            || (NoSuffix(loc, pat, v) && r == v)
  {
    hide GlobMatches, WellFormed;
    if exists k: nat :: k <= |v| && CutMatches(loc, sub, pat, v, k) {
      var k0: nat :| k0 <= |v| && CutMatches(loc, sub, pat, v, k0);
      assert GlobMatches(loc, pat, v[k0..]);
      if IsTrimmed(loc, sub, pat, v, r) {
        var k: nat :| BestCut(loc, sub, pat, v, k) && r == Remainder(sub, v, k);
        forall n: nat | n <= |v| && GlobMatches(loc, pat, v[n..]) ensures Preferred(sub, k, n) {
          assert CutMatches(loc, sub, pat, v, n);
        }
        assert GlobMatches(loc, pat, v[k..]) && r == v[..k];
      }
      if sub == TrimRight && WithoutShortestSuffix(loc, pat, v, r) {
        var k: nat :| k <= |v| && GlobMatches(loc, pat, v[k..]) && r == v[..k]
                      && forall n :: k < n <= |v| ==> !GlobMatches(loc, pat, v[n..]);
        assert BestCut(loc, sub, pat, v, k);
      }
      if sub == TrimRightMax && WithoutLongestSuffix(loc, pat, v, r) {
        var k: nat :| k <= |v| && GlobMatches(loc, pat, v[k..]) && r == v[..k]
                      && forall n :: 0 <= n < k ==> !GlobMatches(loc, pat, v[n..]);
        assert BestCut(loc, sub, pat, v, k);
      }
    } else {
      forall k | 0 <= k <= |v| ensures !GlobMatches(loc, pat, v[k..]) { assert !CutMatches(loc, sub, pat, v, k); }
    }
  }

  // ---------------------------------------------------------------- field splitting

  /** Spaces, tabs and newlines that IFS contains. */
  ghost predicate Blanks(ifs: string, b: string) {
    forall k :: 0 <= k < |b| ==> b[k] in [' ', '\t', '\n'] && b[k] in ifs
  }

  lemma {:induction false} BlanksDropped(ifs: string, b: string, s: string)
    requires Blanks(ifs, b)
    ensures DropBlanks(ifs, b + s) == DropBlanks(ifs, s)
    decreases |b|
  {
    if b == "" {
      assert b + s == s;
    } else {
      assert (b + s)[0] == b[0] && (b + s)[1..] == b[1..] + s;
      BlanksDropped(ifs, b[1..], s);
    }
  }

  lemma {:induction false} WordTaken(ifs: string, w: string, s: string)
    requires FreeOf(ifs, w) && (s != "" ==> s[0] in ifs)
    ensures WordLength(ifs, w + s) == |w|
    decreases |w|
  {
    if w != "" {
      assert w[0] in w && (w + s)[0] == w[0] && (w + s)[1..] == w[1..] + s;
      forall c | c in w[1..] ensures c !in ifs { assert c in w; }
      WordTaken(ifs, w[1..], s);
    } else {
      assert w + s == s;
    }
  }

  /** White space of IFS at the start of a value is nothing. */
  lemma LeadingBlanks(ifs: string, b: string, s: string)
    requires Blanks(ifs, b)
    ensures Fields(ifs, b + s) == Fields(ifs, s)
    ensures Fields(ifs, b) == []
  {
    BlanksDropped(ifs, b, s);
    BlanksDropped(ifs, b, "");
    assert b + "" == b;
  }

  lemma NotBlank(ifs: string, w: string, s: string)
    requires FreeOf(ifs, w) && w != ""
    ensures DropBlanks(ifs, w + s) == w + s
  {
    assert w[0] in w && (w + s)[0] == w[0];
  }

  /** A word alone is the one field. */
  lemma LastWord(ifs: string, w: string)
    requires FreeOf(ifs, w) && w != ""
    ensures Fields(ifs, w) == [w]
  {
    assert w + "" == w;
    NotBlank(ifs, w, "");
    WordTaken(ifs, w, "");
    assert w[|w|..] == "" && DropBlanks(ifs, "") == "";
  }

  /** A character of IFS that is not white space ends a field, also an empty one, with the white
      space before it; the fields go on after it. */
  lemma HardDelimiter(ifs: string, w: string, b: string, c: char, s: string)
    requires FreeOf(ifs, w) && Blanks(ifs, b) && c in ifs && c !in [' ', '\t', '\n']
    ensures Fields(ifs, w + (b + ([c] + s))) == [w] + Fields(ifs, s)
  {
    var d := [c] + s;
    assert d[0] == c && d[1..] == s && DropBlanks(ifs, d) == d;
    BlanksDropped(ifs, b, d);
    assert AfterDelimiter(ifs, b + d) == s;
    if w == "" {
      assert w + (b + d) == b + d;
      BlanksDropped(ifs, "", d);
      assert AfterDelimiter(ifs, d) == s && WordLength(ifs, d) == 0 && d[..0] == w && d[0..] == d;
    } else {
      if b != "" { assert (b + d)[0] == b[0]; }
      NotBlank(ifs, w, b + d);
      WordTaken(ifs, w, b + d);
      assert (w + (b + d))[..|w|] == w && (w + (b + d))[|w|..] == b + d;
    }
  }

  /** White space of IFS after a word ends the field; any amount of it counts once, and at the end of
      the value it adds no field. */
  lemma SoftDelimiter(ifs: string, w: string, b: string, s: string)
    requires FreeOf(ifs, w) && w != "" && Blanks(ifs, b) && b != "" && (s != "" ==> s[0] !in ifs)
    ensures Fields(ifs, w + (b + s)) == [w] + Fields(ifs, s)
  {
    assert (b + s)[0] == b[0];
    NotBlank(ifs, w, b + s);
    WordTaken(ifs, w, b + s);
    BlanksDropped(ifs, b, s);
    assert DropBlanks(ifs, s) == s;
    assert AfterDelimiter(ifs, b + s) == s;
    assert (w + (b + s))[..|w|] == w && (w + (b + s))[|w|..] == b + s;
  }

  // ---------------------------------------------------------------- escaping

  /** The codes of the control characters that expansion uses. */
  const CONTROL_CODES: set<int> := {0xC0, 0xC1, 0xF9, 0xFA, 0xFB, 0xFC, 0xFD, 0xFE, 0xFF}

  /** Escaping goes character by character. */
  lemma {:induction false} EscapedParts(ctl: set<char>, a: string, b: string)
    ensures Escaped(ctl, a + b) == Escaped(ctl, a) + Escaped(ctl, b)
    ensures |a| == 1 ==> Escaped(ctl, a) == if a[0] in ctl then [CTLESC, a[0]] else a
    decreases |a|
  {
    if a == "" {
      assert a + b == b;
    } else {
      assert (a + b)[0] == a[0] && (a + b)[1..] == a[1..] + b;
      EscapedParts(ctl, a[1..], b);
      EscapedHead(ctl, a);
      EscapedHead(ctl, a + b);
      if |a| == 1 { assert a[1..] == "" && a == [a[0]]; }
    }
  }

  /** Outside double quotes only the control characters are escaped; inside, also everything that
      means something in a pattern, a tilde prefix or an assignment. */
  lemma EscapeTables(c: char)
    ensures c in BASE_CTL <==> c as int in CONTROL_CODES
    ensures c in DQ_CTL <==> c as int in CONTROL_CODES || c in "!*?[]=~:/-^"
  {
  }

  /** Text without control characters is not changed by the table for text outside quotes. */
  lemma {:induction false} BaseLeavesText(s: string)
    requires forall k :: 0 <= k < |s| ==> s[k] as int !in CONTROL_CODES
    ensures Escaped(BASE_CTL, s) == s
  {
    if s != "" {
      EscapeTables(s[0]);
      BaseLeavesText(s[1..]);
      assert [s[0]] + s[1..] == s;
    }
  }
}
