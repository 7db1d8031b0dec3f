/** Control-character escaping of expanded text (sh/expand.c) and what it means to the matcher. */
module Escape {
  import opened Glob
  import opened Trim
  import opened Wrappers

  const CTLVAR: char := '\U{00C1}'
  const CTLENDVAR: char := '\U{00F9}'
  const CTLBACKQ: char := '\U{00FA}'
  const CTLBACKQQ: char := '\U{00FB}'
  const CTLARI: char := '\U{00FC}'
  const CTLENDARI: char := '\U{00FD}'
  const CTLQUOTEMARK: char := '\U{00FE}'
  const CTLQUOTEEND: char := '\U{00FF}'

  /** The characters that basesyntax classes as CCTL. */
  const BASE_CTL: set<char> :=
    {CTLESC, CTLVAR, CTLENDVAR, CTLBACKQ, CTLBACKQQ, CTLARI, CTLENDARI, CTLQUOTEMARK, CTLQUOTEEND}

  /** The characters that dqsyntax classes as CCTL. */
  const DQ_CTL: set<char> :=
    BASE_CTL + {'!', '*', '?', '[', ']', '=', '~', ':', '/', '-', '^'}

  function Escaped(ctl: set<char>, s: string): string {
    if s == "" then ""
    else (if s[0] in ctl then [CTLESC] else []) + [s[0]] + Escaped(ctl, s[1..])
  }

  /** stputs_quotes: appends the escaped form of data to the string being built. */
  method StPutsQuotes(data: string, ctl: set<char>, dest: string) returns (p: string)
    ensures p == dest + Escaped(ctl, data)
  {
    p := dest;
    var i := 0;
    while i < |data|
      invariant i <= |data|
      invariant p + Escaped(ctl, data[i..]) == dest + Escaped(ctl, data)
    {
      ghost var rest := Escaped(ctl, data[i + 1..]);
      assert data[i..][0] == data[i] && data[i..][1..] == data[i + 1..];
      assert p + ([CTLESC] + [data[i]] + rest) == p + [CTLESC] + [data[i]] + rest;
      assert p + ([] + [data[i]] + rest) == p + [data[i]] + rest;
      if data[i] in ctl {
        p := p + [CTLESC];
      }
      p := p + [data[i]];
      i := i + 1;
    }
    assert data[i..] == "";
  }

  // ---------------------------------------------------------------- removing escapes

  /** No escape character is the last character. */
  predicate Complete(s: string) {
    if s == "" then true
    else if s[0] == CTLESC then |s| > 1 && Complete(s[2..])
    else Complete(s[1..])
  }

  function Unescaped(s: string): (r: string)
    requires Complete(s)
    ensures |r| <= |s|
  {
    if s == "" then ""
    else if s[0] == CTLQUOTEMARK || s[0] == CTLQUOTEEND then Unescaped(s[1..])
    else if s[0] == CTLESC then [s[1]] + Unescaped(s[2..])
    else [s[0]] + Unescaped(s[1..])
  }

  lemma {:induction false} UnescapedNulFree(s: string)
    requires Complete(s) && '\0' !in s
    ensures '\0' !in Unescaped(s)
  {
    if s != "" {
      UnescapedNulFree(if s[0] == CTLESC then s[2..] else s[1..]);
    }
  }

  /** Bytes already written, then what the unread part still gives, make the final string. */
  ghost predicate Halfway(b: seq<char>, done: nat, p: nat, n: nat, s: string)
    requires Complete(s)
  {
    done <= p <= n < |b| && b[n] == '\0' && '\0' !in b[p..n] && Complete(b[p..n]) &&
    b[..done] + Unescaped(b[p..n]) == Unescaped(s)
  }

  lemma MarkSkipped(b: seq<char>, done: nat, p: nat, n: nat, s: string)
    requires Complete(s) && Halfway(b, done, p, n, s) && p < n && b[p] in [CTLQUOTEMARK, CTLQUOTEEND]
    ensures Halfway(b, done, p + 1, n, s)
  {
    assert b[p..n][1..] == b[p + 1..n];
  }

  lemma CharCopied(b: seq<char>, done: nat, p: nat, n: nat, s: string)
    requires Complete(s) && Halfway(b, done, p, n, s) && p < n && b[p] !in [CTLQUOTEMARK, CTLQUOTEEND]
    ensures var src := if b[p] == CTLESC then p + 1 else p;
            src < n && Halfway(b[done := b[src]], done + 1, src + 1, n, s)
  {
    var u := b[p..n];
    var src := if b[p] == CTLESC then p + 1 else p;
    var b' := b[done := b[src]];
    var tail := b[src + 1..n];
    assert u[0] == b[p] && u[if b[p] == CTLESC then 2 else 1..] == tail;
    assert Unescaped(u) == [b[src]] + Unescaped(tail) && Complete(tail);
    hide Unescaped, Complete;
    assert b'[src + 1..n] == tail && b'[..done + 1] == b[..done] + [b[src]];
    assert (b[..done] + [b[src]]) + Unescaped(tail) == b[..done] + ([b[src]] + Unescaped(tail));
  }

  lemma AllRead(b: seq<char>, done: nat, p: nat, n: nat, s: string)
    requires Complete(s) && Halfway(b, done, p, n, s) && b[p] == '\0'
    ensures p == n && b[..done] == Unescaped(s)
  {
    assert b[n..n] == "";
  }

  /** The second loop of rmescapes, from the first character that is removed. */
  method Compact(str: array<char>, start: nat, ghost n: nat, ghost s: string)
    requires Complete(s) && Halfway(str[..], start, start, n, s)
    modifies str
    ensures |Unescaped(s)| <= n < str.Length
    ensures str[..|Unescaped(s)|] == Unescaped(s) && str[|Unescaped(s)|] == '\0'
    ensures str[n + 1..] == old(str[n + 1..])
  {
    hide Unescaped, Complete;
    var p: nat, q: nat := start, start;
    while str[p] != '\0'
      invariant Halfway(str[..], q, p, n, s) && str[n + 1..] == old(str[n + 1..])
      decreases n - p
    {
      if str[p] == CTLQUOTEMARK || str[p] == CTLQUOTEEND {
        MarkSkipped(str[..], q, p, n, s);
        p := p + 1;
      } else {
        CharCopied(str[..], q, p, n, s);
        if str[p] == CTLESC {
          p := p + 1;
        }
        ghost var before := str[..];
        str[q] := str[p];
        assert str[..] == before[q := before[p]];
        q, p := q + 1, p + 1;
      }
    }
    AllRead(str[..], q, p, n, s);
    str[q] := '\0';
    assert str[..][..q] == Unescaped(s);
  }

  /** rmescapes, in place. */
  method RmEscapes(str: array<char>, ghost s: string)
    requires CStringAt(str[..], 0, s) && Complete(s)
    modifies str
    ensures CStringAt(str[..], 0, Unescaped(s))
    ensures str[|s| + 1..] == old(str[|s| + 1..])
  {
    ghost var n := |s|;
    UnescapedNulFree(s);
    var p := 0;
    while str[p] != CTLESC && str[p] != CTLQUOTEMARK && str[p] != CTLQUOTEEND
      invariant Halfway(str[..], p, p, n, s) && str[..] == old(str[..])
      decreases n - p
    {
      if str[p] == '\0' {
        AllRead(str[..], p, p, n, s);
        return;
      }
      CharCopied(str[..], p, p, n, s);
      assert str[..][p := str[p]] == str[..];
      p := p + 1;
    }
    Compact(str, p, n, s);
  }

  lemma EscapedHead(ctl: set<char>, s: string)
    requires s != ""
    ensures Escaped(ctl, s) == (if s[0] in ctl then [CTLESC, s[0]] else [s[0]]) + Escaped(ctl, s[1..])
  {
  }

  lemma UnescapedHead(c: char, escaped: bool, rest: string)
    requires Complete(rest) && (escaped || c !in [CTLESC, CTLQUOTEMARK, CTLQUOTEEND])
    ensures var e := (if escaped then [CTLESC, c] else [c]) + rest; Complete(e) && Unescaped(e) == [c] + Unescaped(rest)
  {
    var e := (if escaped then [CTLESC, c] else [c]) + rest;
    assert e[if escaped then 2 else 1..] == rest;
  }

  /** rmescapes undoes stputs_quotes, with either syntax table. */
  lemma {:induction false} RmEscapesUndoesQuotes(ctl: set<char>, s: string)
    requires {CTLESC, CTLQUOTEMARK, CTLQUOTEEND} <= ctl
    ensures Complete(Escaped(ctl, s)) && Unescaped(Escaped(ctl, s)) == s
  {
    if s != "" {
      RmEscapesUndoesQuotes(ctl, s[1..]);
      EscapedHead(ctl, s);
      hide Escaped, Complete, Unescaped;
      UnescapedHead(s[0], s[0] in ctl, Escaped(ctl, s[1..]));
      assert [s[0]] + s[1..] == s;
    }
  }

  // ---------------------------------------------------------------- quoted text as a pattern

  function Literals(s: string): seq<Elem> {
    seq(|s|, k requires 0 <= k < |s| => Lit(s[k]))
  }

  /** Prefix p does not matter to how a pattern's tail is read. */
  lemma {:induction false} EscapedIsLiteral(ctl: set<char>, p: string, s: string)
    requires {CTLESC, '*', '?', '['} <= ctl
    ensures WellFormed(p + Escaped(ctl, s), |p|) && Elems(p + Escaped(ctl, s), |p|) == Literals(s)
    decreases |s|
  {
    var w := p + Escaped(ctl, s);
    if s != "" {
      assert CTLESC in ctl && '*' in ctl && '?' in ctl && '[' in ctl;
      var head := (if s[0] in ctl then [CTLESC] else []) + [s[0]];
      assert w == (p + head) + Escaped(ctl, s[1..]);
      EscapedIsLiteral(ctl, p + head, s[1..]);
      assert NextElem(w, |p|) == Some((Lit(s[0]), |p + head|));
      assert Literals(s) == [Lit(s[0])] + Literals(s[1..]);
    }
  }

  lemma {:induction false} LiteralsMatchThemselves(loc: Locale, s: string, i: nat, t: string, j: nat)
    requires i <= |s| && j <= |t|
    ensures Matches(loc, Literals(s), i, t, j) <==> s[i..] == t[j..]
    decreases |s| - i
  {
    if i < |s| && j < |t| {
      LiteralsMatchThemselves(loc, s, i + 1, t, j + 1);
      assert s[i..] == [s[i]] + s[i + 1..] && t[j..] == [t[j]] + t[j + 1..];
    }
  }

  /** Text quoted with the double-quote table is a pattern that matches that text only. */
  lemma QuotedTextMatchesItself(loc: Locale, s: string, t: string)
    ensures WellFormed(Escaped(DQ_CTL, s), 0)
    ensures GlobMatches(loc, Escaped(DQ_CTL, s), t) <==> s == t
  {
    EscapedIsLiteral(DQ_CTL, "", s);
    assert "" + Escaped(DQ_CTL, s) == Escaped(DQ_CTL, s);
    LiteralsMatchThemselves(loc, s, 0, t, 0);
    assert s[0..] == s && t[0..] == t;
  }
}
