/** IFS field splitting of an unquoted expansion (sh/expand.c, pathname expansion off). */
module Split {

  // ---------------------------------------------------------------- reference meaning

  predicate IsBlank(c: char) { c == '\t' || c == '\n' || c == ' ' }

  predicate IfsBlank(ifs: string, c: char) { c in ifs && IsBlank(c) }

  /** s without its leading IFS white space. */
  function DropBlanks(ifs: string, s: string): (r: string)
    ensures |r| <= |s|
  {
    if s != "" && IfsBlank(ifs, s[0]) then DropBlanks(ifs, s[1..]) else s
  }

  /** Length of the longest prefix without IFS characters. */
  function WordLength(ifs: string, s: string): (n: nat)
    ensures n <= |s|
  {
    if s == "" || s[0] in ifs then 0 else 1 + WordLength(ifs, s[1..])
  }

  /** What follows a delimiter: IFS white space around at most one other IFS character. */
  function AfterDelimiter(ifs: string, s: string): (r: string)
    ensures |r| <= |s|
    ensures s != "" && s[0] in ifs ==> |r| < |s|
  {
    var t := DropBlanks(ifs, s);
    if t != "" && t[0] in ifs then t[1..] else t
  }

  /** Section 2.6.5 of POSIX.1-2017, Shell Command Language: IFS white space is trimmed at
      both ends, fields end at delimiters, and nothing follows a final delimiter. */
  function Fields(ifs: string, s: string): seq<string>
    decreases |s|
  {
    var t := DropBlanks(ifs, s);
    if t == "" then [] else
    var n := WordLength(ifs, t);
    [t[..n]] + Fields(ifs, AfterDelimiter(ifs, t[n..]))
  }

  /** The fields of s when `word` has already been collected for the first of them. */
  function FieldsAfter(ifs: string, word: string, s: string): seq<string> {
    var n := WordLength(ifs, s);
    [word + s[..n]] + Fields(ifs, AfterDelimiter(ifs, s[n..]))
  }

  // ---------------------------------------------------------------- facts about the reference

  function NonIfs(ifs: string, s: string): string {
    if s == "" then "" else (if s[0] in ifs then [] else [s[0]]) + NonIfs(ifs, s[1..])
  }

  function Joined(fs: seq<string>): string {
    if fs == [] then "" else fs[0] + Joined(fs[1..])
  }

  lemma {:induction false} DropBlanksKeeps(ifs: string, s: string)
    ensures NonIfs(ifs, DropBlanks(ifs, s)) == NonIfs(ifs, s)
  {
    if s != "" && IfsBlank(ifs, s[0]) { DropBlanksKeeps(ifs, s[1..]); }
  }

  lemma Assoc(a: string, b: string, c: string)
    ensures a + (b + c) == (a + b) + c
  {
  }

  lemma {:induction false} WordKeeps(ifs: string, s: string)
    ensures NonIfs(ifs, s) == s[..WordLength(ifs, s)] + NonIfs(ifs, s[WordLength(ifs, s)..])
  {
    if s != "" && s[0] !in ifs {
      var r := s[1..];
      var n := WordLength(ifs, r);
      WordKeeps(ifs, r);
      assert NonIfs(ifs, s) == [s[0]] + NonIfs(ifs, r) && WordLength(ifs, s) == n + 1;
      hide *;
      assert s[n + 1..] == r[n..] && s[..n + 1] == [s[0]] + r[..n];
      Assoc([s[0]], r[..n], NonIfs(ifs, r[n..]));
    } else {
      assert s[0..] == s;
    }
  }

  ghost predicate FreeOf(ifs: string, s: string) {
    forall c :: c in s ==> c !in ifs
  }

  lemma {:induction false} WordIsFree(ifs: string, s: string)
    ensures FreeOf(ifs, s[..WordLength(ifs, s)])
    ensures WordLength(ifs, s) < |s| ==> s[WordLength(ifs, s)] in ifs
  {
    if s != "" && s[0] !in ifs {
      WordIsFree(ifs, s[1..]);
      var n := WordLength(ifs, s[1..]);
      assert s[..n + 1] == [s[0]] + s[1..][..n];
    }
  }

  lemma DelimiterKeeps(ifs: string, s: string)
    requires s == "" || s[0] in ifs
    ensures NonIfs(ifs, AfterDelimiter(ifs, s)) == NonIfs(ifs, s)
  {
    DropBlanksKeeps(ifs, s);
  }

  /** Splitting loses and reorders nothing: the fields are free of IFS characters and,
      joined, are the value without its IFS characters. */
  lemma {:induction false} FieldsConserve(ifs: string, s: string)
    ensures Joined(Fields(ifs, s)) == NonIfs(ifs, s)
    ensures forall f :: f in Fields(ifs, s) ==> FreeOf(ifs, f)
    decreases |s|
  {
    var t := DropBlanks(ifs, s);
    DropBlanksKeeps(ifs, s);
    if t != "" {
      var n := WordLength(ifs, t);
      var rest := AfterDelimiter(ifs, t[n..]);
      WordKeeps(ifs, t);
      WordIsFree(ifs, t);
      DelimiterKeeps(ifs, t[n..]);
      FieldsConserve(ifs, rest);
      assert Fields(ifs, s) == [t[..n]] + Fields(ifs, rest);
      assert Fields(ifs, s)[1..] == Fields(ifs, rest);
    }
  }

  // ---------------------------------------------------------------- the three-state splitter

  datatype WordState = Idle | WsDelimited | QuoteMark

  /** struct worddest together with the stack string being built. */
  datatype Dest = Dest(args: seq<string>, state: WordState, word: string)

  function NextWordStep(d: Dest, c: char): Dest {
    var ws := IsBlank(c);
    if d.word != "" || (if ws then d.state == QuoteMark else d.state != WsDelimited) || c == '\0' then
      Dest(d.args + [d.word], if ws then WsDelimited else Idle, "")
    else if !ws && d.state == WsDelimited then Dest(d.args, Idle, "")
    else Dest(d.args, d.state, "")
  }

  function SplitRun(ifs: string, d: Dest, s: string): Dest
    decreases |s|
  {
    if s == "" then d
    else SplitRun(ifs, if s[0] in ifs then NextWordStep(d, s[0]) else d.(word := d.word + [s[0]]), s[1..])
  }

  /** The flush at the end of expandarg. */
  function Finish(d: Dest): seq<string> {
    if d.word != "" || d.state == QuoteMark then d.args + [d.word] else d.args
  }

  class Splitter {
    var args: seq<string>
    var state: WordState
    var word: string

    function Value(): Dest
      reads this
    {
      Dest(args, state, word)
    }

    constructor ()
      ensures Value() == Dest([], Idle, "")
    {
      args, state, word := [], Idle, "";
    }

    method NextWord(c: char)
      modifies this
      ensures Value() == NextWordStep(old(Value()), c)
    {
      var isWs := c == '\t' || c == '\n' || c == ' ';
      if word != "" || (if isWs then state == QuoteMark else state != WsDelimited) || c == '\0' {
        args := args + [word];
        state := if isWs then WsDelimited else Idle;
      } else if !isWs && state == WsDelimited {
        state := Idle;
      }
      word := "";
    }

    /** stputs_split */
    method PutSplit(ifs: string, data: string)
      requires '\0' !in data
      modifies this
      ensures Value() == SplitRun(ifs, old(Value()), data)
    {
      var i := 0;
      while i < |data|
        invariant i <= |data|
        invariant SplitRun(ifs, Value(), data[i..]) == SplitRun(ifs, old(Value()), data)
      {
        var c := data[i];
        assert data[i..][0] == c && data[i..][1..] == data[i + 1..];
        i := i + 1;
        if c in ifs {
          NextWord(c);
        } else {
          word := word + [c];
        }
      }
    }

    method Flush()
      modifies this
      ensures args == Finish(old(Value()))
    {
      if word != "" || state == QuoteMark {
        args := args + [word];
      }
    }
  }

  // ---------------------------------------------------------------- the splitter meets the rule

  /** The fields still to come from state d and input s. */
  function Pending(ifs: string, d: Dest, s: string): seq<string> {
    if d.word != "" || d.state == QuoteMark then FieldsAfter(ifs, d.word, s)
    else if d.state == WsDelimited then Fields(ifs, AfterDelimiter(ifs, s))
    else Fields(ifs, s)
  }

  lemma WordGrows(ifs: string, word: string, s: string)
    requires s != "" && s[0] !in ifs
    ensures FieldsAfter(ifs, word + [s[0]], s[1..]) == FieldsAfter(ifs, word, s)
  {
    var r := s[1..];
    var n := WordLength(ifs, r);
    assert s[n + 1..] == r[n..];
    assert (word + [s[0]]) + r[..n] == word + s[..n + 1];
  }

  lemma WordStarts(ifs: string, s: string)
    requires s != "" && s[0] !in ifs
    ensures Fields(ifs, s) == FieldsAfter(ifs, "", s) && AfterDelimiter(ifs, s) == s
  {
    var n := WordLength(ifs, s);
    assert "" + s[..n] == s[..n];
  }

  lemma DelimiterEndsWord(ifs: string, word: string, s: string)
    requires s != "" && s[0] in ifs
    ensures FieldsAfter(ifs, word, s) == [word] + Fields(ifs, AfterDelimiter(ifs, s))
    ensures !IsBlank(s[0]) ==> AfterDelimiter(ifs, s) == s[1..] && Fields(ifs, s) == [""] + Fields(ifs, s[1..])
    ensures IsBlank(s[0]) ==> AfterDelimiter(ifs, s) == AfterDelimiter(ifs, s[1..])
                              && Fields(ifs, s) == Fields(ifs, s[1..])
  {
    assert word + s[..0] == word && s[0..] == s;
  }

  /** One input character: what the step emits plus what is then pending is what was pending. */
  lemma StepKeepsPending(ifs: string, d: Dest, s: string)
    requires s != "" && s[0] != '\0'
    ensures var d' := if s[0] in ifs then NextWordStep(d, s[0]) else d.(word := d.word + [s[0]]);
            d'.args + Pending(ifs, d', s[1..]) == d.args + Pending(ifs, d, s)
  {
    hide Fields, FieldsAfter, AfterDelimiter;
    if s[0] !in ifs {
      WordGrows(ifs, d.word, s);
      WordStarts(ifs, s);
    } else {
      DelimiterEndsWord(ifs, d.word, s);
      var rest := Fields(ifs, AfterDelimiter(ifs, s));
      assert (d.args + [d.word]) + rest == d.args + ([d.word] + rest);
    }
  }

  /** From any state, on any value: the splitter's words followed by its flush are exactly
      the fields the rule prescribes for what was already collected and the value. */
  lemma {:induction false} SplitterMeetsRule(ifs: string, d: Dest, s: string)
    requires '\0' !in s
    ensures Finish(SplitRun(ifs, d, s)) == d.args + Pending(ifs, d, s)
    decreases |s|
  {
    if s == "" {
      assert d.word + "" == d.word;
    } else {
      var d' := if s[0] in ifs then NextWordStep(d, s[0]) else d.(word := d.word + [s[0]]);
      SplitterMeetsRule(ifs, d', s[1..]);
      StepKeepsPending(ifs, d, s);
    }
  }

  /** Two adjacent unquoted expansions split as their concatenation does. */
  lemma {:induction false} SplitConcat(ifs: string, d: Dest, s: string, t: string)
    ensures SplitRun(ifs, SplitRun(ifs, d, s), t) == SplitRun(ifs, d, s + t)
    decreases |s|
  {
    if s == "" {
      assert s + t == t;
    } else {
      assert (s + t)[1..] == s[1..] + t;
      SplitConcat(ifs, if s[0] in ifs then NextWordStep(d, s[0]) else d.(word := d.word + [s[0]]), s[1..], t);
    }
  }

  /** Expanding an unquoted value to fields, end to end. */
  method ExpandUnquoted(ifs: string, value: string) returns (args: seq<string>)
    requires '\0' !in value
    ensures args == Fields(ifs, value)
  {
    var dst := new Splitter();
    dst.PutSplit(ifs, value);
    dst.Flush();
    SplitterMeetsRule(ifs, Dest([], Idle, ""), value);
    args := dst.args;
  }
}
