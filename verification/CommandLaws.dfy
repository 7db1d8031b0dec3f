/** What looking a command up means: a path is a list of directories joined by colons, the first
    directory that has the file wins, and commands with a path of their own leave the shell's path
    as they should. */
module CommandLaws {
  import opened Wrappers
  import opened CommandCache

  // ---------------------------------------------------------------- the path

  function Joined(dirs: seq<string>): string
    requires dirs != []
  {
    if |dirs| == 1 then dirs[0] else dirs[0] + ":" + Joined(dirs[1..])
  }

  ghost predicate NoColons(dirs: seq<string>) {
    forall i :: 0 <= i < |dirs| ==> ':' !in dirs[i]
  }

  lemma {:induction false} EndFound(path: string, i: nat, e: nat)
    requires i <= e <= |path| && (e < |path| ==> path[e] == ':') && forall k :: i <= k < e ==> path[k] != ':'
    ensures ElementEnd(path, i) == e
    decreases e - i
  {
    if i < e { EndFound(path, i + 1, e); }
  }

  lemma FirstElement(path: string, i: nat, dir: string, tail: string)
    requires i <= |path| && path[i..] == dir + tail && ':' !in dir && (tail != "" ==> tail[0] == ':')
    ensures var e := i + |dir|; e <= |path| && ElementEnd(path, i) == e && path[i..e] == dir && path[e..] == tail
  {
    var e, rest := i + |dir|, path[i..];
    assert path[i..e] == rest[..|dir|] && path[e..] == rest[|dir|..];
    forall k | i <= k < e ensures path[k] != ':' { assert path[k] == path[i..e][k - i] && dir[k - i] in dir; }
    if e < |path| { assert path[e] == path[e..][0]; }
    EndFound(path, i, e);
  }

  function Tail(dirs: seq<string>): string
    requires dirs != []
  {
    if |dirs| == 1 then "" else ":" + Joined(dirs[1..])
  }

  lemma JoinedHead(dirs: seq<string>)
    requires dirs != [] && NoColons(dirs)
    ensures Joined(dirs) == dirs[0] + Tail(dirs) && ':' !in dirs[0] && NoColons(dirs[1..])
  {
    assert |dirs| > 1 ==> dirs[0] + (":" + Joined(dirs[1..])) == dirs[0] + ":" + Joined(dirs[1..]);
  }

  lemma ElementsStep(path: string, i: nat, e: nat)
    requires i <= e <= |path| && ElementEnd(path, i) == e
    ensures Elements(path, i) == [path[i..e]] + if e < |path| then Elements(path, e + 1) else []
  {
  }

  lemma {:induction false} ElementsFrom(path: string, i: nat, dirs: seq<string>)
    requires i <= |path| && dirs != [] && NoColons(dirs) && path[i..] == Joined(dirs)
    ensures Elements(path, i) == dirs
    decreases |dirs|
  {
    hide ElementEnd, Elements, Joined, NoColons;
    var tail, e := Tail(dirs), i + |dirs[0]|;
    JoinedHead(dirs);
    FirstElement(path, i, dirs[0], tail);
    ElementsStep(path, i, e);
    if |dirs| == 1 {
      assert dirs == [dirs[0]];
    } else {
      assert path[e + 1..] == path[e..][1..] == tail[1..] == Joined(dirs[1..]);
      ElementsFrom(path, e + 1, dirs[1..]);
      assert [dirs[0]] + dirs[1..] == dirs;
    }
  }

  /** The elements of directories joined by colons are those directories, empty ones included. */
  lemma PathElements(dirs: seq<string>)
    requires dirs != [] && NoColons(dirs)
    ensures Elements(Joined(dirs), 0) == dirs
  {
    assert Joined(dirs)[0..] == Joined(dirs);
    ElementsFrom(Joined(dirs), 0, dirs);
  }

  /** The file that a name would be in a directory of the path: an empty element is the current
      directory, and elements without a leading slash are below it. */
  function Candidate(cwd: string, dir: string, name: string): string {
    if dir == "" then cwd + "/" + name
    else if dir[0] == '/' then dir + "/" + name
    else cwd + "/" + dir + "/" + name
  }

  lemma CandidateExists(w: World, cwd: string, dir: string, name: string)
    requires '/' !in name
    ensures Exists(w, cwd, FullName(dir, name)) == w.regular(Candidate(cwd, dir, name))
  {
    var file := FullName(dir, name);
    if dir == "" {
      assert Relative(file) by { if name != "" { assert name[0] in name; } }
    } else {
      assert file[0] == dir[0];
      assert cwd + "/" + (dir + "/" + name) == cwd + "/" + dir + "/" + name;
    }
  }

  lemma {:induction false} FirstFound(w: World, cwd: string, dirs: seq<string>, name: string, i: nat)
    requires i <= |dirs| && '/' !in name
    ensures var r := SearchFrom(w, cwd, dirs, name, i);
            && (r.Some? ==> w.regular(Candidate(cwd, dirs[r.value], name)))
            && forall j :: i <= j < (if r.Some? then r.value else |dirs|) ==> !w.regular(Candidate(cwd, dirs[j], name))
    decreases |dirs| - i
  {
    hide Candidate, FullName, Exists;
    if i < |dirs| {
      CandidateExists(w, cwd, dirs[i], name);
      FirstFound(w, cwd, dirs, name, i + 1);
    }
  }

  /** A search along directories joined by colons finds the first that has the file, if one has. */
  lemma SearchMeans(w: World, cwd: string, dirs: seq<string>, name: string)
    requires dirs != [] && NoColons(dirs) && '/' !in name
    ensures var r := Search(w, cwd, Joined(dirs), name);
            && (r.Some? ==> r.value < |dirs| && w.regular(Candidate(cwd, dirs[r.value], name)))
            && forall j :: 0 <= j < (if r.Some? then r.value else |dirs|) ==> !w.regular(Candidate(cwd, dirs[j], name))
  {
    hide Candidate, Joined;
    PathElements(dirs);
    FirstFound(w, cwd, dirs, name, 0);
  }

  // ---------------------------------------------------------------- what a name stands for

  /** A name with a slash is a file.  Otherwise a function comes first, unless functions are passed
      over, then a builtin, then the first file along the path. */
  lemma NameMeans(w: World, s: Shell, dirs: seq<string>, name: string, noFunctions: bool)
    requires dirs != [] && NoColons(dirs) && s.path == Joined(dirs)
    ensures var d := Meaning(w, s, Lookup(name, noFunctions));
            && d.shell == s && d.raised == Nothing && |d.found| == 1
            && var c, defined := d.found[0], name in s.functions && !noFunctions;
               if '/' in name then c == Normal(0)
               else
                 && (c.Function? <==> defined) && (defined ==> c.body == s.functions[name])
                 && (c.Builtin? <==> !defined && name in w.builtins)
                 && (c.Builtin? ==> (c.number, c.special) == w.builtins[name])
                 && (c.Unknown? <==> !defined && name !in w.builtins
                                     && forall j :: 0 <= j < |dirs| ==> !w.regular(Candidate(s.cwd, dirs[j], name)))
                 && (c.Normal? ==> c.index < |dirs| && w.regular(Candidate(s.cwd, dirs[c.index], name))
                                   && forall j :: 0 <= j < c.index ==> !w.regular(Candidate(s.cwd, dirs[j], name)))
  {
    hide Search, Candidate, Joined;
    if '/' !in name { SearchMeans(w, s.cwd, dirs, name); }
  }

  /** The shell after commands that do not look anything up. */
  lemma ShellChanges(w: World, s: Shell, dir: string, path: string, name: string, body: nat, e: Raised)
    ensures Meaning(w, s, Cd(dir)) == Done(Shell(s.path, dir, s.functions), [], Nothing, map[])
    ensures Meaning(w, s, SetPath(path)) == Done(Shell(path, s.cwd, s.functions), [], Nothing, map[])
    ensures Meaning(w, s, Define(name, body)) == Done(Shell(s.path, s.cwd, s.functions[name := body]), [], Nothing,
            map[])
    ensures Meaning(w, s, Undefine(name)) == Done(Shell(s.path, s.cwd, s.functions - {name}), [], Nothing, map[])
    ensures Meaning(w, s, Raise(e)) == Done(s, [], e, map[])
  {
  }

  /** Commands run in order, each in the shell that the ones before it have left, up to the first
      that raises an exception. */
  lemma {:induction false} InOrder(w: World, s: Shell, a: seq<Op>, b: seq<Op>)
    ensures var d := MeaningAll(w, s, a);
            && (d.raised != Nothing ==> MeaningAll(w, s, a + b) == d)
            && (d.raised == Nothing ==>
                  var d' := MeaningAll(w, d.shell, b);
                  MeaningAll(w, s, a + b) == Done(d'.shell, d.found + d'.found, d'.raised, d'.stray))
    ensures |a| == 1 ==> MeaningAll(w, s, a) == Meaning(w, s, a[0])
    decreases |a|
  {
    hide Meaning, Plain;
    if a == [] {
      assert a + b == b;
    } else {
      var first := Meaning(w, s, a[0]);
      assert (a + b)[0] == a[0] && (a + b)[1..] == a[1..] + b;
      if first.raised == Nothing {
        InOrder(w, first.shell, a[1..], b);
        assert MeaningAll(w, s, a).found == first.found + MeaningAll(w, first.shell, a[1..]).found;
      }
    }
  }

  lemma {:induction false} EachResolved(w: World, s: Shell, p: string, names: seq<string>, i: nat)
    requires i < |names|
    ensures ResolveAll(w, s, p, names)[i] == Resolve(w, s.cwd, p, s.functions, names[i], false)
    decreases |names|
  {
    hide Resolve;
    if i < |names| - 1 { EachResolved(w, s, p, names[..|names| - 1], i); }
  }

  /** `type` and `command -v` along a path of their own find what a shell with that path would. */
  lemma DescribeMeans(w: World, s: Shell, p: string, names: seq<string>, e: Raised, i: nat)
    requires i < |names|
    ensures var d := Meaning(w, s, Describe(p, names, e));
            && d.shell == s && d.raised == e && |d.found| == |names|
            && [d.found[i]] == Meaning(w, Shell(p, s.cwd, s.functions), Lookup(names[i], false)).found
  {
    EachResolved(w, s, p, names, i);
  }

  // ---------------------------------------------------------------- a path for one command

  /** PATH=p f, where f is a function: its commands run with the path p, and afterwards, however they
      ended, the shell's own path is back. */
  lemma FunctionPath(w: World, s: Shell, p: string, f: string, commands: seq<Op>, waiting: Raised)
    requires '/' !in f && f in s.functions
    ensures var d := MeaningAll(w, Shell(p, s.cwd, s.functions), commands);
            Meaning(w, s, Prefixed(p, Assigned, f, commands, waiting)) ==
            Done(Shell(s.path, d.shell.cwd, d.shell.functions), [Function(s.functions[f])] + d.found, d.raised, map[])
  {
  }

  /** PATH=p b, where b is a special builtin: the path stays, and exceptions go on. */
  lemma SpecialBuiltinPath(w: World, s: Shell, p: string, b: string, commands: seq<Op>, waiting: Raised)
    requires '/' !in b && b !in s.functions && b in w.builtins && w.builtins[b].1
    ensures var d := MeaningAll(w, Shell(p, s.cwd, s.functions), commands);
            Meaning(w, s, Prefixed(p, Assigned, b, commands, waiting)) ==
            Done(d.shell, [Builtin(w.builtins[b].0, true)] + d.found, d.raised, d.stray)
  {
  }

  /** PATH=p b, where b is any other builtin, and `command b` with every builtin: its commands run
      with the shell's own path, and an error ends there. */
  lemma BuiltinPath(w: World, s: Shell, p: string, how: Prefix, b: string, commands: seq<Op>, waiting: Raised)
    requires '/' !in b && b in w.builtins && (how == Assigned ==> b !in s.functions && !w.builtins[b].1)
    ensures var d, d' := MeaningAll(w, s, commands), Meaning(w, s, Prefixed(p, how, b, commands, waiting));
            && d'.shell == d.shell && d'.found == [Builtin(w.builtins[b].0, w.builtins[b].1)] + d.found
            && d'.raised == (if d.raised == Error then Nothing else d.raised)
            && d'.stray == (if d.raised == Error then map[] else d.stray)
  {
  }

  /** A file run with a path of its own is found along that path; the shell stays as it was. */
  lemma ExternalPath(w: World, s: Shell, dirs: seq<string>, how: Prefix, name: string, commands: seq<Op>,
                     waiting: Raised)
    requires dirs != [] && NoColons(dirs) && '/' !in name && name !in w.builtins
    requires how == Assigned ==> name !in s.functions
    ensures var d := Meaning(w, s, Prefixed(Joined(dirs), how, name, commands, waiting));
            && d.shell == s && d.raised == waiting && |d.found| == 1
            && (d.found[0].Normal? || d.found[0].Unknown?)
            && (d.found[0].Normal? ==>
                  var i := d.found[0].index;
                  i < |dirs| && w.regular(Candidate(s.cwd, dirs[i], name))
                  && forall j :: 0 <= j < i ==> !w.regular(Candidate(s.cwd, dirs[j], name)))
            && (d.found[0].Unknown? ==>
                  forall j :: 0 <= j < |dirs| ==> !w.regular(Candidate(s.cwd, dirs[j], name)))
  {
    hide Search, Candidate, Joined;
    SearchMeans(w, s.cwd, dirs, name);
  }
}
