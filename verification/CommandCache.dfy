/** The command table of sh/exec.c: shell functions, builtins and remembered PATH positions in one
    hash table, and the lookups that use it. */
module CommandCache {
  import opened Wrappers

  const CMDTABLESIZE: nat := 31

  /** What a name stands for: a position in PATH, a builtin, a shell function. */
  datatype Command = Normal(index: nat) | Builtin(number: nat, special: bool) | Function(body: nat) | Unknown

  /** The files that exist, by absolute name, and the builtins of the shell. */
  datatype World = World(regular: string -> bool, builtins: map<string, (nat, bool)>)

  // ---------------------------------------------------------------- searching PATH

  /** Where the element of the path that begins at i ends. */
  function ElementEnd(path: string, i: nat): (e: nat)
    requires i <= |path|
    ensures i <= e <= |path| && (e < |path| ==> path[e] == ':') && forall k :: i <= k < e ==> path[k] != ':'
    decreases |path| - i
  {
    if i == |path| || path[i] == ':' then i else ElementEnd(path, i + 1)
  }

  /** The elements of the path from i on, separated by colons. */
  function Elements(path: string, i: nat): (es: seq<string>)
    requires i <= |path|
    ensures |es| > 0
    decreases |path| - i
  {
    var e := ElementEnd(path, i);
    [path[i..e]] + if e < |path| then Elements(path, e + 1) else []
  }

  /** The file to try for a name in one element of the path; an empty element is the current directory. */
  function FullName(element: string, name: string): string {
    if element == "" then name else element + "/" + name
  }

  predicate Relative(file: string) { file == "" || file[0] != '/' }

  function Absolute(cwd: string, file: string): string { if Relative(file) then cwd + "/" + file else file }

  predicate Exists(w: World, cwd: string, file: string) { w.regular(Absolute(cwd, file)) }

  /** A fresh search: the first element from i on that has the command. */
  function SearchFrom(w: World, cwd: string, es: seq<string>, name: string, i: nat): (r: Option<nat>)
    requires i <= |es|
    ensures r.Some? ==> i <= r.value < |es|
    decreases |es| - i
  {
    if i == |es| then None
    else if Exists(w, cwd, FullName(es[i], name)) then Some(i)
    else SearchFrom(w, cwd, es, name, i + 1)
  }

  function Search(w: World, cwd: string, path: string, name: string): Option<nat> {
    SearchFrom(w, cwd, Elements(path, 0), name, 0)
  }

  /** The first n elements a search looks at do not depend on the current directory. */
  ghost predicate AllAbsolute(es: seq<string>, name: string, n: nat) {
    forall i :: 0 <= i < n && i < |es| ==> !Relative(FullName(es[i], name))
  }

  lemma {:induction false} SearchElsewhere(w: World, cwd: string, cwd': string, es: seq<string>, name: string, i: nat,
                                           n: nat)
    requires i <= n < |es| && AllAbsolute(es, name, n + 1) && SearchFrom(w, cwd, es, name, i) == Some(n)
    ensures SearchFrom(w, cwd', es, name, i) == Some(n)
    decreases n - i
  {
    hide FullName, Exists, Relative;
    ExistsElsewhere(w, cwd, cwd', FullName(es[i], name));
    if i < n {
      SearchElsewhere(w, cwd, cwd', es, name, i + 1, n);
    }
  }

  lemma ExistsElsewhere(w: World, cwd: string, cwd': string, file: string)
    requires !Relative(file)
    ensures Exists(w, cwd, file) == Exists(w, cwd', file)
  {
  }

  // ---------------------------------------------------------------- the meaning of a name

  /** How a name resolves without any memory of earlier searches. */
  function Resolve(w: World, cwd: string, path: string, functions: map<string, nat>, name: string,
                   noFunctions: bool): Command {
    if '/' in name then Normal(0)
    else if name in functions && !noFunctions then Function(functions[name])
    else if name in w.builtins then Builtin(w.builtins[name].0, w.builtins[name].1)
    else match Search(w, cwd, path, name)
      case Some(i) => Normal(i)
      case None => Unknown
  }

  type Table = map<string, Command>

  ghost function Functions(t: Table): map<string, nat> {
    map name | name in t && t[name].Function? :: t[name].body
  }

  /** An entry agrees with a fresh search, in this directory and along this path. */
  ghost predicate EntryFits(w: World, cwd: string, path: string, name: string, c: Command) {
    match c
    case Normal(i) => name !in w.builtins && '/' !in name && Search(w, cwd, path, name) == Some(i)
    case Builtin(n, s) => name in w.builtins && w.builtins[name] == (n, s)
    case Function(f) => true
    case Unknown => false
  }

  ghost predicate TableFits(w: World, cwd: string, path: string, t: Table) {
    forall name :: name in t ==> EntryFits(w, cwd, path, name, t[name])
  }

  /** Unless the flag is set, no remembered position depends on the current directory. */
  ghost predicate FlagFits(path: string, t: Table, cdDependent: bool) {
    !cdDependent ==> forall name :: name in t && t[name].Normal? ==>
        AllAbsolute(Elements(path, 0), name, t[name].index + 1)
  }

  // ---------------------------------------------------------------- runs without a table

  /** An exception on its way up: an error, or an interrupt or exit. */
  datatype Raised = Nothing | Error | Interrupt

  /** How a command comes by a path of its own: `PATH=p name`, `PATH=p command name`, or
      `command -p name`, which assigns nothing.  Through `command` functions are passed over and
      special builtins are not special. */
  datatype Prefix = Assigned | AssignedCommand | CommandP

  /** What commands do to lookups.  Prefixed is a command with a path of its own; it consists of the
      given commands when name is a function or a builtin, and the exception waiting leaves it while
      the shell starts or waits for an external one.  Describe is `type` and `command -v` along a path
      that is not the shell's, left by an exception after the given names. */
  datatype Op =
    | Lookup(name: string, noFunctions: bool)
    | Cd(dir: string)
    | SetPath(path: string)
    | Define(name: string, body: nat)
    | Undefine(name: string)
    | Raise(exception: Raised)
    | Prefixed(path: string, how: Prefix, name: string, commands: seq<Op>, waiting: Raised)
    | Describe(path: string, names: seq<string>, exception: Raised)

  /** All that a lookup depends on when nothing is remembered. */
  datatype Shell = Shell(path: string, cwd: string, functions: map<string, nat>)

  /** Where a run ends, what its lookups have found, how it was left, and the positions along some
      other path that are left in a table when it was left before they were cleared. */
  datatype Done = Done(shell: Shell, found: seq<Command>, raised: Raised, stray: map<string, nat>)

  /** What a lookup along a path adds to the remembered positions. */
  function Noted(m: map<string, nat>, functions: map<string, nat>, name: string, c: Command): map<string, nat> {
    if c.Normal? && '/' !in name && name !in functions then m[name := c.index] else m
  }

  function ResolveAll(w: World, s: Shell, p: string, names: seq<string>): (r: seq<Command>)
    ensures |r| == |names|
  {
    if names == [] then []
    else
      var n := |names| - 1;
      ResolveAll(w, s, p, names[..n]) + [Resolve(w, s.cwd, p, s.functions, names[n], false)]
  }

  function NotedAll(w: World, s: Shell, p: string, names: seq<string>): (m: map<string, nat>)
    ensures Plain(w, m)
  {
    if names == [] then map[]
    else
      var n := |names| - 1;
      Noted(NotedAll(w, s, p, names[..n]), s.functions, names[n], Resolve(w, s.cwd, p, s.functions, names[n], false))
  }

  /** Only names that are searched for along a path. */
  predicate Plain(w: World, m: map<string, nat>) { forall name :: name in m ==> '/' !in name && name !in w.builtins }

  function Meaning(w: World, s: Shell, op: Op): (d: Done)
    ensures Plain(w, d.stray) && (d.raised == Nothing ==> d.stray == map[])
    decreases op, 0
  {
    match op
    case Lookup(name, noFunctions) =>
      Done(s, [Resolve(w, s.cwd, s.path, s.functions, name, noFunctions)], Nothing, map[])
    case Cd(dir) => Done(s.(cwd := dir), [], Nothing, map[])
    case SetPath(p) => Done(s.(path := p), [], Nothing, map[])
    case Define(name, f) => Done(s.(functions := s.functions[name := f]), [], Nothing, map[])
    case Undefine(name) => Done(s.(functions := s.functions - {name}), [], Nothing, map[])
    case Raise(exception) => Done(s, [], exception, map[])
    case Prefixed(p, how, name, body, waiting) => Within(w, s, p, how, name, body, waiting)
    case Describe(p, names, exception) =>
      Done(s, ResolveAll(w, s, p, names), exception, if exception == Nothing then map[] else NotedAll(w, s, p, names))
  }

  function MeaningAll(w: World, s: Shell, ops: seq<Op>): (d: Done)
    ensures Plain(w, d.stray) && (d.raised == Nothing ==> d.stray == map[])
    decreases ops, 1
  {
    if ops == [] then Done(s, [], Nothing, map[])
    else
      var first := Meaning(w, s, ops[0]);
      if first.raised != Nothing then first
      else
        var rest := MeaningAll(w, first.shell, ops[1..]);
        rest.(found := first.found + rest.found)
  }

  /** A command with a path of its own: a function has it as a local PATH, which is put back and
      everything forgotten however it ends; a special builtin keeps it, unless called through
      `command`; any other builtin runs without it and stops errors. */
  function Within(w: World, s: Shell, p: string, how: Prefix, name: string, body: seq<Op>, waiting: Raised): (d: Done)
    ensures Plain(w, d.stray) && (d.raised == Nothing ==> d.stray == map[])
    decreases body, 2
  {
    var c := Resolve(w, s.cwd, p, s.functions, name, how != Assigned);
    match c
    case Function(_) =>
      var d := MeaningAll(w, s.(path := p), body);
      Done(d.shell.(path := s.path), [c] + d.found, d.raised, map[])
    case Builtin(_, isSpecial) =>
      var special := isSpecial && how == Assigned;
      var d := MeaningAll(w, if special then s.(path := p) else s, body);
      if special || d.raised != Error then d.(found := [c] + d.found)
      else Done(d.shell, [c] + d.found, Nothing, map[])
    case _ =>
      Done(s, [c], waiting, if waiting == Nothing then map[] else Noted(map[], s.functions, name, c))
  }

  // ---------------------------------------------------------------- hash chains

  datatype TblEntry = TblEntry(name: string, cmd: Command)

  type Chain = seq<TblEntry>

  function Sum(name: string, n: nat): nat
    requires n <= |name|
  {
    if n == 0 then 0 else Sum(name, n - 1) + name[n - 1] as nat
  }

  /** hashname */
  function Hash(name: string): (h: nat)
    ensures h < CMDTABLESIZE
  {
    ((if name == "" then 0 else name[0] as nat * 16) + Sum(name, |name|)) % 0x1_0000_0000 % CMDTABLESIZE
  }

  /** The first entry for a name, or the length of the chain. */
  function Find(c: Chain, name: string): (i: nat)
    ensures i <= |c| && (i < |c| ==> c[i].name == name) && forall k :: 0 <= k < i ==> c[k].name != name
  {
    if c == [] then 0 else if c[0].name == name then 0 else 1 + Find(c[1..], name)
  }

  lemma FindIs(c: Chain, name: string, i: nat)
    requires i <= |c| && (i < |c| ==> c[i].name == name) && forall k :: 0 <= k < i ==> c[k].name != name
    ensures Find(c, name) == i
  {
  }

  function Get(c: Chain, name: string): Option<Command> {
    if Find(c, name) < |c| then Some(c[Find(c, name)].cmd) else None
  }

  ghost predicate Unique(c: Chain) { forall i, j :: 0 <= i < j < |c| ==> c[i].name != c[j].name }

  function Put(c: Chain, name: string, cmd: Command): Chain {
    var i := Find(c, name);
    if i < |c| then c[i := TblEntry(name, cmd)] else c + [TblEntry(name, cmd)]
  }

  lemma PutGet(c: Chain, name: string, cmd: Command, other: string)
    requires Unique(c)
    ensures Unique(Put(c, name, cmd)) && Get(Put(c, name, cmd), other) == if other == name then Some(cmd)
            else Get(c, other)
  {
    var i := Find(c, name);
    FindIs(Put(c, name, cmd), other, if other == name then i else if Find(c, other) < |c| then Find(c, other)
        else |Put(c, name, cmd)|);
  }

  function Removed(c: Chain, i: nat): Chain
    requires i < |c|
  {
    c[..i] + c[i + 1..]
  }

  lemma RemovedGet(c: Chain, i: nat, other: string)
    requires Unique(c) && i < |c|
    ensures Unique(Removed(c, i)) && Get(Removed(c, i), other) == if other == c[i].name then None else Get(c, other)
  {
    var f, r := Find(c, other), Removed(c, i);
    if other == c[i].name {
      FindIs(r, other, |r|);
    } else {
      FindIs(r, other, if f == |c| then |r| else if f < i then f else f - 1);
    }
  }

  function At(t: Table, name: string): Option<Command> { if name in t then Some(t[name]) else None }

  /** The chains hold the table. */
  ghost predicate Stored(chains: seq<Chain>, t: Table) {
    |chains| == CMDTABLESIZE && (forall b :: 0 <= b < CMDTABLESIZE ==> Unique(chains[b]))
        && forall name :: Get(chains[Hash(name)], name) == At(t, name)
  }

  lemma StoredPut(chains: seq<Chain>, t: Table, name: string, cmd: Command)
    requires Stored(chains, t)
    ensures Stored(chains[Hash(name) := Put(chains[Hash(name)], name, cmd)], t[name := cmd])
  {
    hide Get, Put, Hash, Unique;
    var b := Hash(name);
    var chains' := chains[b := Put(chains[b], name, cmd)];
    PutGet(chains[b], name, cmd, name);
    forall other ensures Get(chains'[Hash(other)], other) == At(t[name := cmd], other) {
      PutGet(chains[b], name, cmd, other);
    }
  }

  lemma StoredRemove(chains: seq<Chain>, t: Table, name: string, i: nat)
    requires Stored(chains, t) && i < |chains[Hash(name)]| && chains[Hash(name)][i].name == name
    ensures Stored(chains[Hash(name) := Removed(chains[Hash(name)], i)], t - {name})
  {
    hide Get, Removed, Hash, Unique;
    var b := Hash(name);
    var chains' := chains[b := Removed(chains[b], i)];
    RemovedGet(chains[b], i, name);
    forall other ensures Get(chains'[Hash(other)], other) == At(t - {name}, other) {
      RemovedGet(chains[b], i, other);
    }
  }

  /** A remembered position may be forgotten, anything else stays. */
  predicate Stripped(before: Option<Command>, after: Option<Command>) {
    after == before || (after == None && before.Some? && before.value.Normal?)
  }

  ghost function WithoutNormals(t: Table): Table { map name | name in t && !t[name].Normal? :: t[name] }

  lemma StoredStripped(chains: seq<Chain>, t: Table, chains': seq<Chain>)
    requires Stored(chains, t) && |chains'| == CMDTABLESIZE
    requires forall b :: 0 <= b < CMDTABLESIZE ==> Unique(chains'[b]) && NoneNormal(chains'[b], |chains'[b]|)
    requires forall b, name :: 0 <= b < CMDTABLESIZE ==> Stripped(Get(chains[b], name), Get(chains'[b], name))
    ensures Stored(chains', WithoutNormals(t))
  {
    hide Hash, Unique;
    forall name ensures Get(chains'[Hash(name)], name) == At(WithoutNormals(t), name) {
      assert Stripped(Get(chains[Hash(name)], name), Get(chains'[Hash(name)], name));
      assert Get(chains[Hash(name)], name) == At(t, name);
    }
  }

  ghost predicate NoneNormal(c: Chain, n: nat) { forall i :: 0 <= i < n && i < |c| ==> !c[i].cmd.Normal? }

  /** One chain of clearcmdentry: remembered positions are unlinked, other entries stay. */
  method ClearChain(c: Chain) returns (r: Chain)
    requires Unique(c)
    ensures Unique(r) && NoneNormal(r, |r|) && forall name :: Stripped(Get(c, name), Get(r, name))
  {
    hide Get, Unique, Removed;
    r := c;
    var i := 0;
    while i < |r|
      invariant i <= |r| && Unique(r) && NoneNormal(r, i) && forall name :: Stripped(Get(c, name), Get(r, name))
      decreases |r| - i
    {
      if r[i].cmd.Normal? {
        ClearStep(c, r, i);
        RemovedSize(r, i);
        r := Removed(r, i);
      } else {
        i := i + 1;
      }
    }
  }

  lemma RemovedSize(c: Chain, i: nat)
    requires i < |c|
    ensures |Removed(c, i)| == |c| - 1 && forall k :: 0 <= k < i ==> Removed(c, i)[k] == c[k]
  {
  }

  lemma ClearStep(c: Chain, r: Chain, i: nat)
    requires Unique(r) && i < |r| && r[i].cmd.Normal? && forall name :: Stripped(Get(c, name), Get(r, name))
    ensures Unique(Removed(r, i)) && forall name :: Stripped(Get(c, name), Get(Removed(r, i), name))
  {
    RemovedGet(r, i, r[i].name);
    GetAt(r, i);
    forall name ensures Stripped(Get(c, name), Get(Removed(r, i), name)) {
      hide Get, Removed, Unique;
      RemovedGet(r, i, name);
    }
  }

  lemma GetAt(c: Chain, i: nat)
    requires Unique(c) && i < |c|
    ensures Get(c, c[i].name) == Some(c[i].cmd)
  {
    FindIs(c, c[i].name, i);
  }

  // ---------------------------------------------------------------- keeping the table right

  lemma CacheEntry(w: World, cwd: string, path: string, t: Table, cd: bool, name: string, c: Command, cd': bool)
    requires TableFits(w, cwd, path, t) && FlagFits(path, t, cd) && EntryFits(w, cwd, path, name, c) && (cd ==> cd')
    requires c.Normal? && !cd' ==> AllAbsolute(Elements(path, 0), name, c.index + 1)
    ensures TableFits(w, cwd, path, t[name := c]) && FlagFits(path, t[name := c], cd')
  {
    hide EntryFits, AllAbsolute, Elements;
  }

  /** After a cd, entries that were found without a relative element are still right. */
  lemma MovedFits(w: World, cwd: string, cwd': string, path: string, t: Table)
    requires TableFits(w, cwd, path, t) && FlagFits(path, t, false)
    ensures TableFits(w, cwd', path, t)
  {
    forall name | name in t ensures EntryFits(w, cwd', path, name, t[name]) {
      assert EntryFits(w, cwd, path, name, t[name]);
      if t[name].Normal? {
        SearchElsewhere(w, cwd, cwd', Elements(path, 0), name, 0, t[name].index);
      }
    }
  }

  /** Builtins and functions are right; nothing is said of positions. */
  ghost predicate OthersFit(w: World, t: Table) {
    forall name :: name in t ==> !t[name].Unknown? && (t[name].Builtin? ==> EntryFits(w, "", "", name, t[name]))
  }

  lemma FitsOthers(w: World, cwd: string, path: string, t: Table)
    requires TableFits(w, cwd, path, t)
    ensures OthersFit(w, t)
  {
    forall name | name in t ensures !t[name].Unknown? && (t[name].Builtin? ==> EntryFits(w, "", "", name, t[name])) {
      assert EntryFits(w, cwd, path, name, t[name]);
    }
  }

  ghost function Positions(t: Table): map<string, nat> {
    map name | name in t && t[name].Normal? :: t[name].index
  }

  lemma PositionsPut(w: World, cwd: string, p: string, t: Table, name: string, c: Command)
    requires EntryFits(w, cwd, p, name, c) && !c.Function? && (name in t ==> t[name].Function?)
    ensures Positions(if name in t then t else t[name := c]) == Noted(Positions(t), Functions(t), name, c)
  {
    hide Search;
  }

  lemma StrippedFits(w: World, t: Table, cwd: string, path: string)
    requires OthersFit(w, t)
    ensures TableFits(w, cwd, path, WithoutNormals(t)) && FlagFits(path, WithoutNormals(t), false)
            && Functions(WithoutNormals(t)) == Functions(t) && Positions(WithoutNormals(t)) == map[]
  {
  }

  /** A remembered position is right exactly when a fresh search along the path finds it. */
  predicate Found(w: World, cwd: string, path: string, m: map<string, nat>) {
    forall name :: name in m ==> Search(w, cwd, path, name) == Some(m[name])
  }

  /** No relative element of the path comes before a remembered position. */
  ghost predicate FromAbsolute(path: string, m: map<string, nat>) {
    forall name :: name in m ==> AllAbsolute(Elements(path, 0), name, m[name] + 1)
  }

  lemma PositionsDecide(w: World, cwd: string, path: string, t: Table, cd: bool)
    requires OthersFit(w, t) && Plain(w, Positions(t))
    ensures TableFits(w, cwd, path, t) <==> Found(w, cwd, path, Positions(t))
    ensures FlagFits(path, t, cd) <==> cd || FromAbsolute(path, Positions(t))
  {
    hide Search, AllAbsolute, Elements;
    var m := Positions(t);
    if Found(w, cwd, path, m) {
      forall name | name in t ensures EntryFits(w, cwd, path, name, t[name]) {
        if t[name].Normal? { assert name in m && Search(w, cwd, path, name) == Some(m[name]); }
      }
    }
    if TableFits(w, cwd, path, t) {
      forall name | name in m ensures Search(w, cwd, path, name) == Some(m[name]) {
        assert EntryFits(w, cwd, path, name, t[name]);
      }
    }
    forall name | name in m ensures name in t && t[name] == Normal(m[name]) {}
  }

  class CommandTable {
    const w: World
    const cmdtable: array<Chain>
    var cmdtableCd: bool
    var path: string
    var cwd: string
    ghost var t: Table

    /** Every remembered position is what a fresh search along p from the current directory would find. */
    ghost predicate Fresh(p: string)
      reads this, cmdtable
    {
      Stored(cmdtable[..], t) && TableFits(w, cwd, p, t) && FlagFits(p, t, cmdtableCd)
    }

    constructor (w: World, path: string, cwd: string)
      ensures Fresh(path) && this.path == path && this.cwd == cwd && this.w == w
      ensures Functions(t) == map[] && fresh(cmdtable)
    {
      this.w, this.path, this.cwd, cmdtableCd, t := w, path, cwd, false, map[];
      cmdtable := new Chain[CMDTABLESIZE](i => []);
    }

    /** cmdlookup without adding: the place of a name in its chain. */
    method CmdLookup(name: string) returns (b: nat, i: nat)
      requires Stored(cmdtable[..], t)
      ensures b == Hash(name) < cmdtable.Length && i == Find(cmdtable[b], name) && (i < |cmdtable[b]| <==> name in t)
      ensures name in t ==> cmdtable[b][i].cmd == t[name]
    {
      b, i := Hash(name), 0;
      assert Get(cmdtable[..][b], name) == At(t, name);
      while i < |cmdtable[b]| && cmdtable[b][i].name != name
        invariant i <= |cmdtable[b]| && forall k :: 0 <= k < i ==> cmdtable[b][k].name != name
      {
        i := i + 1;
      }
      FindIs(cmdtable[b], name, i);
    }

    /** cmdlookup, adding the name if need be, and the assignment that follows. */
    method SetEntry(name: string, c: Command)
      requires Stored(cmdtable[..], t)
      modifies `t, cmdtable
      ensures Stored(cmdtable[..], t) && t == old(t)[name := c]
    {
      var b, i := CmdLookup(name);
      ghost var chains := cmdtable[..];
      StoredPut(chains, t, name, c);
      if i < |cmdtable[b]| {
        cmdtable[b] := cmdtable[b][i := TblEntry(name, c)];
      } else {
        cmdtable[b] := cmdtable[b] + [TblEntry(name, c)];
      }
      assert cmdtable[..] == chains[b := Put(chains[b], name, c)];
      t := t[name := c];
    }

    /** clearcmdentry: afterwards the table suits any path and any directory. */
    method ClearCmdEntry(ghost cwd': string, ghost p': string)
      requires Stored(cmdtable[..], t) && OthersFit(w, t)
      modifies `t, `cmdtableCd, cmdtable
      ensures Stored(cmdtable[..], t) && TableFits(w, cwd', p', t) && FlagFits(p', t, cmdtableCd) && !cmdtableCd
      ensures Functions(t) == Functions(old(t)) && Positions(t) == map[]
    {
      hide TableFits, FlagFits, OthersFit;
      StrippedFits(w, t, cwd', p');
      ClearChains();
      cmdtableCd := false;
    }

    method ClearChains()
      requires Stored(cmdtable[..], t)
      modifies `t, cmdtable
      ensures Stored(cmdtable[..], t) && t == WithoutNormals(old(t))
    {
      hide Get, Unique, Hash, NoneNormal, Stripped;
      ghost var chains := cmdtable[..];
      StrippedSelf();
      for b := 0 to CMDTABLESIZE
        invariant t == old(t) && forall k :: b <= k < CMDTABLESIZE ==> cmdtable[k] == chains[k]
        invariant forall k :: 0 <= k < b ==> Unique(cmdtable[k]) && NoneNormal(cmdtable[k], |cmdtable[k]|)
        invariant forall k, name :: 0 <= k < b ==> Stripped(Get(chains[k], name), Get(cmdtable[k], name))
      {
        var r := ClearChain(cmdtable[b]);
        cmdtable[b] := r;
      }
      StoredStripped(chains, t, cmdtable[..]);
      t := WithoutNormals(t);
    }

    /** The path search of find_command; cd tells whether a relative element was looked at. */
    method SearchPath(name: string, p: string) returns (r: Option<nat>, cd: bool)
      ensures r == Search(w, cwd, p, name)
      ensures r.Some? && !cd ==> AllAbsolute(Elements(p, 0), name, r.value + 1)
    {
      hide Elements, SearchFrom, AllAbsolute, FullName, Exists, Absolute, Relative;
      ghost var es := Elements(p, 0);
      var rest: Option<nat> := Some(0);
      var idx := 0;
      cd := false;
      AbsoluteSoFar(es, name, 0);
      while rest.Some?
        invariant rest.Some? ==> rest.value <= |p| && idx < |es| && es[idx..] == Elements(p, rest.value)
        invariant rest.None? ==> idx == |es|
        invariant idx <= |es| && SearchFrom(w, cwd, es, name, 0) == SearchFrom(w, cwd, es, name, idx)
        invariant !cd ==> AllAbsolute(es, name, idx)
        decreases |es| - idx
      {
        var full;
        assert es[idx] == es[idx..][0] && es[idx + 1..] == es[idx..][1..];
        full, rest := PAdvance(p, rest.value, name);
        SearchStep(w, cwd, es, name, idx);
        if Relative(full) {
          cd := true;
        }
        AbsoluteSoFar(es, name, idx + 1);
        if Exists(w, cwd, full) {
          return Some(idx), cd;
        }
        idx := idx + 1;
      }
      r := None;
    }

    /** find_command along path p: the answer is the one an empty table would have given. */
    method FindCommand(name: string, noFunctions: bool, p: string) returns (c: Command)
      requires Fresh(p)
      modifies `t, `cmdtableCd, cmdtable
      ensures Fresh(p) && Functions(t) == Functions(old(t))
      ensures Positions(t) == Noted(Positions(old(t)), Functions(old(t)), name, c)
      ensures c == Resolve(w, cwd, p, Functions(old(t)), name, noFunctions)
    {
      hide Stored, Search, Elements, AllAbsolute, Hash, Find;
      if '/' in name {
        return Normal(0);
      }
      var b, i := CmdLookup(name);
      if i < |cmdtable[b]| && !(cmdtable[b][i].cmd.Function? && noFunctions) {
        assert EntryFits(w, cwd, p, name, t[name]);
        return cmdtable[b][i].cmd;
      }
      if name in w.builtins {
        c := Builtin(w.builtins[name].0, w.builtins[name].1);
        Remember(name, c, p, false);
        return;
      }
      var r, cd := SearchPath(name, p);
      match r {
        case Some(idx) =>
          c := Normal(idx);
          Remember(name, c, p, cd);
        case None =>
          c := Unknown;
      }
    }

    /** Store what was found, unless a function of that name holds the entry. */
    method Remember(name: string, c: Command, p: string, cd: bool)
      requires Fresh(p) && EntryFits(w, cwd, p, name, c) && !c.Function? && (name in t ==> t[name].Function?)
      requires c.Normal? && !cd ==> AllAbsolute(Elements(p, 0), name, c.index + 1)
      modifies `t, `cmdtableCd, cmdtable
      ensures Fresh(p) && Functions(t) == Functions(old(t))
      ensures Positions(t) == Noted(Positions(old(t)), Functions(old(t)), name, c)
    {
      hide Stored, EntryFits, AllAbsolute, Elements, TableFits, FlagFits, Hash, Find;
      var b, i := CmdLookup(name);
      FlagRaised(p, t, cmdtableCd, cd);
      PositionsPut(w, cwd, p, t, name, c);
      if i == |cmdtable[b]| {
        CacheEntry(w, cwd, p, t, cmdtableCd, name, c, cmdtableCd || cd);
        SetEntry(name, c);
      }
      cmdtableCd := cmdtableCd || cd;
    }

    /** cd: hashcd forgets the remembered positions if one of them may depend on the directory. */
    method ChangeDirectory(dir: string)
      requires Fresh(path)
      modifies this, cmdtable
      ensures Fresh(path) && cwd == dir && path == old(path) && Functions(t) == Functions(old(t))
    {
      hide Stored, TableFits, FlagFits, OthersFit;
      FitsOthers(w, cwd, path, t);
      if cmdtableCd {
        ClearCmdEntry(dir, path);
      } else {
        MovedFits(w, cwd, dir, path, t);
      }
      cwd := dir;
    }

    /** Assigning PATH: changepath forgets every remembered position. */
    method ChangePath(p: string)
      requires Fresh(path)
      modifies this, cmdtable
      ensures Fresh(path) && path == p && cwd == old(cwd) && Functions(t) == Functions(old(t))
    {
      hide Stored, TableFits, FlagFits, OthersFit;
      FitsOthers(w, cwd, path, t);
      ClearCmdEntry(cwd, p);
      path := p;
    }

    /** defun */
    method Defun(name: string, body: nat)
      requires Fresh(path)
      modifies `t, cmdtable
      ensures Fresh(path) && Functions(t) == Functions(old(t))[name := body]
    {
      hide Stored, AllAbsolute, Elements;
      CacheEntry(w, cwd, path, t, cmdtableCd, name, Function(body), cmdtableCd);
      SetEntry(name, Function(body));
    }

    /** unsetfunc: delete_cmd_entry unlinks the entry that the lookup found. */
    method UnsetFunc(name: string)
      requires Fresh(path)
      modifies `t, cmdtable
      ensures Fresh(path) && Functions(t) == Functions(old(t)) - {name}
    {
      hide Stored, AllAbsolute, Elements, Hash;
      var b, i := CmdLookup(name);
      if i < |cmdtable[b]| && cmdtable[b][i].cmd.Function? {
        ghost var chains := cmdtable[..];
        StoredRemove(chains, t, name, i);
        cmdtable[b] := Removed(cmdtable[b], i);
        assert cmdtable[..] == chains[b := Removed(chains[b], i)];
        t := t - {name};
      }
    }

    /** What the rest of the shell sees: no table, only what its lookups depend on. */
    ghost function Seen(): Shell
      reads this
    {
      Shell(path, cwd, Functions(t))
    }

    /** The table at the end of a run: fresh, or with exactly these positions along some other path. */
    ghost predicate Holds(stray: map<string, nat>)
      reads this, cmdtable
    {
      if stray == map[] then Fresh(path)
      else Stored(cmdtable[..], t) && OthersFit(w, t) && Positions(t) == stray
    }

    lemma HoldsOthers(stray: map<string, nat>)
      requires Holds(stray)
      ensures Stored(cmdtable[..], t) && OthersFit(w, t)
    {
      hide Stored, TableFits, FlagFits, OthersFit;
      if stray == map[] { FitsOthers(w, cwd, path, t); }
    }

    /** Such a table agrees with fresh searches exactly when they find the same positions, and goes on
        to do so after any cd exactly when also the flag is up or no relative element was passed. */
    lemma Agreement(stray: map<string, nat>)
      requires Holds(stray) && Plain(w, stray)
      ensures TableFits(w, cwd, path, t) <==> Found(w, cwd, path, stray)
      ensures Fresh(path) <==> Found(w, cwd, path, stray) && (stray == map[] || cmdtableCd || FromAbsolute(path, stray))
    {
      if stray != map[] { PositionsDecide(w, cwd, path, t, cmdtableCd); }
    }

    /** One operation, with any commands nested in it. */
    method Step(op: Op) returns (found: seq<Command>, raised: Raised)
      requires Fresh(path)
      modifies this, cmdtable
      ensures var d := Meaning(w, old(Seen()), op); Holds(d.stray) && Done(Seen(), found, raised, d.stray) == d
      decreases op, 0
    {
      hide Stored, TableFits, FlagFits, Resolve, OthersFit, NotedAll, Plain;
      found, raised := [], Nothing;
      match op {
        case Lookup(name, noFunctions) =>
          var c := FindCommand(name, noFunctions, path);
          found := [c];
        case Cd(dir) =>
          ChangeDirectory(dir);
        case SetPath(p) =>
          ChangePath(p);
        case Define(name, body) =>
          Defun(name, body);
        case Undefine(name) =>
          UnsetFunc(name);
        case Raise(exception) =>
          raised := exception;
        case Prefixed(p, how, name, body, waiting) =>
          found, raised := RunPrefixed(p, how, name, body, waiting);
        case Describe(p, names, exception) =>
          found := DescribeAll(p, names, exception);
          raised := exception;
      }
    }

    /** Any sequence of operations, up to the first exception.  The table is fresh at the end, unless
        an exception has left positions in it that a fresh search does not find. */
    method Run(ops: seq<Op>) returns (found: seq<Command>, raised: Raised)
      requires Fresh(path)
      modifies this, cmdtable
      ensures var d := MeaningAll(w, old(Seen()), ops);
              && Holds(d.stray) && Done(Seen(), found, raised, d.stray) == d
              && (TableFits(w, cwd, path, t) <==> Found(w, cwd, path, d.stray))
              && (Fresh(path) <==>
                    Found(w, cwd, path, d.stray) && (d.stray == map[] || cmdtableCd || FromAbsolute(path, d.stray)))
      decreases ops, 1
    {
      hide CommandTable.Fresh, Meaning, Plain, CommandTable.Holds, TableFits, Found, FromAbsolute;
      ghost var d := MeaningAll(w, Seen(), ops);
      NoneStray();
      found, raised := [], Nothing;
      if ops != [] {
        found, raised := Step(ops[0]);
        if raised == Nothing {
          NoneStray();
          var more;
          more, raised := Run(ops[1..]);
          found := found + more;
        }
      }
      Agreement(d.stray);
    }

    lemma NoneStray()
      ensures Holds(map[]) <==> Fresh(path)
    {
    }

    /** typecmd_impl along a path that is not the shell's: the table is cleared before and, unless an
        exception comes first, after. */
    method DescribeAll(p: string, names: seq<string>, exception: Raised) returns (found: seq<Command>)
      requires Fresh(path)
      modifies this, cmdtable
      ensures Seen() == old(Seen()) && found == ResolveAll(w, old(Seen()), p, names)
      ensures Holds(if exception == Nothing then map[] else NotedAll(w, old(Seen()), p, names))
    {
      hide Stored, TableFits, FlagFits, OthersFit, Resolve, Positions, Noted, Plain;
      FitsOthers(w, cwd, path, t);
      ClearCmdEntry(cwd, p);
      found := [];
      ghost var s := old(Seen());
      for i := 0 to |names|
        invariant Fresh(p) && Seen() == s && found == ResolveAll(w, s, p, names[..i])
        invariant Positions(t) == NotedAll(w, s, p, names[..i])
      {
        assert names[..i + 1][..i] == names[..i];
        var c := FindCommand(names[i], false, p);
        found := found + [c];
      }
      assert names[..|names|] == names;
      FitsOthers(w, cwd, p, t);
      if exception == Nothing {
        ClearCmdEntry(cwd, path);
      } else {
        NothingStrays(p);
      }
    }

    /** A table without positions that suits one path suits every path. */
    lemma NothingStrays(p: string)
      requires Fresh(p)
      ensures Positions(t) == map[] ==> Fresh(path)
    {
      hide Search, Elements;
      FitsOthers(w, cwd, p, t);
      if Positions(t) == map[] { PositionsDecide(w, cwd, path, t, cmdtableCd); }
    }

    /** A command with a path of its own: the table is cleared before and, unless an exception comes
        first, after. */
    method RunPrefixed(p: string, how: Prefix, name: string, body: seq<Op>, waiting: Raised)
        returns (found: seq<Command>, raised: Raised)
      requires Fresh(path)
      modifies this, cmdtable
      ensures var d := Within(w, old(Seen()), p, how, name, body, waiting);
              Holds(d.stray) && Done(Seen(), found, raised, d.stray) == d
      decreases body, 3
    {
      hide Stored, TableFits, FlagFits, OthersFit, Resolve, Positions, Plain, MeaningAll;
      FitsOthers(w, cwd, path, t);
      ClearCmdEntry(cwd, p);
      var c := FindCommand(name, how != Assigned, p);
      NothingStrays(p);
      FitsOthers(w, cwd, p, t);
      found, raised := [], Nothing;
      match c {
        case Function(_) =>
          found, raised := CallFunction(p, body);
          if raised != Nothing { return [c] + found, raised; }
          FitsOthers(w, cwd, path, t);
        case Builtin(_, special) =>
          found, raised := RunBuiltin(p, special && how == Assigned, body);
          return [c] + found, raised;
        case _ =>
          if waiting != Nothing { return [c], waiting; }
      }
      found := [c] + found;
      ClearCmdEntry(cwd, path);
    }

    /** A builtin with a path of its own, and the clearing of the table after it. */
    method RunBuiltin(p: string, special: bool, body: seq<Op>) returns (found: seq<Command>, raised: Raised)
      requires Fresh(path)
      modifies this, cmdtable
      ensures var d := MeaningAll(w, if special then old(Seen()).(path := p) else old(Seen()), body);
              && Seen() == d.shell && found == d.found
              && (raised == if special || d.raised != Error then d.raised else Nothing)
              && Holds(if special || d.raised != Error then d.stray else map[])
      decreases body, 2
    {
      hide Stored, TableFits, FlagFits, OthersFit, Resolve, Positions, Plain, MeaningAll;
      if special { ChangePath(p); }
      ghost var d := MeaningAll(w, Seen(), body);
      found, raised := Run(body);
      if raised != Nothing && (special || raised != Error) { return; }
      raised := Nothing;
      HoldsOthers(d.stray);
      ClearCmdEntry(cwd, path);
    }

    /** A function call with a local PATH. */
    method CallFunction(p: string, body: seq<Op>) returns (found: seq<Command>, raised: Raised)
      requires Fresh(p)
      modifies this, cmdtable
      ensures Fresh(path) && path == old(path)
      ensures var d := MeaningAll(w, old(Seen()).(path := p), body);
              Seen() == d.shell.(path := path) && found == d.found && raised == d.raised
      decreases body, 2
    {
      hide Stored, TableFits, FlagFits, OthersFit, Resolve, MeaningAll, Plain;
      var saved := path;
      FitsOthers(w, cwd, p, t);
      ClearCmdEntry(cwd, p);
      path := p;
      ghost var d := MeaningAll(w, Seen(), body);
      found, raised := Run(body);
      HoldsOthers(d.stray);
      ClearCmdEntry(cwd, saved);
      path := saved;
    }
  }

  /** A run after which a remembered position is wrong: an interrupt comes while the shell waits for a
      command that it has found along that command's own PATH. */
  method StaleAfterInterrupt() returns (s: CommandTable)
    ensures fresh(s) && !s.Fresh(s.path) && "foo" in s.t && s.t["foo"] == Normal(0)
    ensures Resolve(s.w, s.cwd, s.path, Functions(s.t), "foo", false) == Unknown
  {
    var w := World(f => f == "/x/foo", map["type" := (0, false)]);
    s := new CommandTable(w, "/y", "/");
    SearchOne(w, 'x');
    SearchOne(w, 'y');
    hide Search, Stored, TableFits, FlagFits, FromAbsolute;
    var op := Prefixed("/x", Assigned, "foo", [], Interrupt);
    ghost var d := Meaning(w, s.Seen(), op);
    assert d.stray == map["foo" := 0];
    var found, raised := s.Step(op);
    s.Agreement(d.stray);
    assert "foo" in Positions(s.t) && Positions(s.t)["foo"] == 0;
  }

  /** The same by an interrupt while `type` looks a name up along its own PATH. */
  method StaleAfterType() returns (s: CommandTable)
    ensures fresh(s) && !s.Fresh(s.path) && "foo" in s.t && s.t["foo"] == Normal(0)
    ensures Resolve(s.w, s.cwd, s.path, Functions(s.t), "foo", false) == Unknown
  {
    var w := World(f => f == "/x/foo", map["type" := (0, false)]);
    s := new CommandTable(w, "/y", "/");
    SearchOne(w, 'x');
    SearchOne(w, 'y');
    hide Search, Stored, TableFits, FlagFits, FromAbsolute;
    TypeStrays(w, s.Seen());
    ghost var d := Meaning(w, s.Seen(), TypeFoo());
    hide Meaning, Positions;
    var found, raised := s.Step(TypeFoo());
    s.Agreement(d.stray);
    assert "foo" in Positions(s.t) && Positions(s.t)["foo"] == 0;
  }

  lemma TypeStrays(w: World, s: Shell)
    requires Search(w, s.cwd, "/x", "foo") == Some(0) && "foo" !in w.builtins && s.functions == map[]
    requires "type" in w.builtins && !w.builtins["type"].1
    ensures Meaning(w, s, TypeFoo()).stray == map["foo" := 0] && Meaning(w, s, TypeFoo()).shell == s
  {
    hide Search;
    var body := TypeFoo().commands;
    assert NotedAll(w, s, "/x", ["foo"]) == map["foo" := 0];
    assert Meaning(w, s, body[0]).stray == map["foo" := 0];
    assert MeaningAll(w, s, body) == Meaning(w, s, body[0]);
    assert Resolve(w, s.cwd, "/x", s.functions, "type", false).Builtin?;
    assert Within(w, s, "/x", Assigned, "type", body, Nothing).stray == map["foo" := 0];
  }

  /** PATH=/x type foo, interrupted. */
  function TypeFoo(): Op { Prefixed("/x", Assigned, "type", [Describe("/x", ["foo"], Interrupt)], Nothing) }

  /** A search for foo along a path of one directory, when /x/foo is the only file. */
  lemma SearchOne(w: World, c: char)
    requires c != ':' && forall f :: w.regular(f) <==> f == "/x/foo"
    ensures Search(w, "/", ['/', c], "foo") == if c == 'x' then Some(0) else None
  {
    var p := ['/', c];
    assert ElementEnd(p, 2) == 2;
    assert ElementEnd(p, 1) == 2;
    assert p[0..2] == p;
    assert Elements(p, 0) == [p];
    var file := FullName(p, "foo");
    assert file[1] == c && "/x/foo"[1] == 'x';
    assert c == 'x' ==> file == "/x/foo";
    assert SearchFrom(w, "/", [p], "foo", 1) == None;
  }

  lemma SearchStep(w: World, cwd: string, es: seq<string>, name: string, i: nat)
    requires i < |es|
    ensures SearchFrom(w, cwd, es, name, i) == if Exists(w, cwd, FullName(es[i], name)) then Some(i)
            else SearchFrom(w, cwd, es, name, i + 1)
  {
  }

  lemma AbsoluteSoFar(es: seq<string>, name: string, n: nat)
    requires n <= |es|
    ensures AllAbsolute(es, name, n) == (n == 0
            || (AllAbsolute(es, name, n - 1) && !Relative(FullName(es[n - 1], name))))
  {
    hide FullName, Relative;
  }

  lemma FlagRaised(path: string, t: Table, cd: bool, more: bool)
    requires FlagFits(path, t, cd)
    ensures FlagFits(path, t, cd || more)
  {
  }

  lemma ElementsHead(path: string, i: nat)
    requires i <= |path|
    ensures var e, es := ElementEnd(path, i), Elements(path, i);
            es[0] == path[i..e] && (|es| > 1 <==> e < |path|) && (e < |path| ==> Elements(path, e + 1) == es[1..])
  {
    hide ElementEnd;
  }

  /** padvance, for paths without % options: the next file to try, and where the next element begins. */
  method PAdvance(path: string, start: nat, name: string) returns (full: string, rest: Option<nat>)
    requires start <= |path|
    ensures full == FullName(Elements(path, start)[0], name)
    ensures rest.Some? <==> |Elements(path, start)| > 1
    ensures rest.Some? ==> rest.value <= |path| && Elements(path, rest.value) == Elements(path, start)[1..]
  {
    hide Elements;
    var p := start;
    while p < |path| && path[p] != ':'
      invariant start <= p <= |path| && ElementEnd(path, start) == ElementEnd(path, p)
    {
      p := p + 1;
    }
    ElementsHead(path, start);
    full := name;
    if p != start {
      full := path[start..p] + "/" + name;
    }
    rest := if p < |path| then Some(p + 1) else None;
  }

  lemma StrippedSelf()
    ensures forall o :: Stripped(o, o)
  {
  }
}
