/** break, continue and return in sh/eval.c: an evaluator that carries them in three integers
    (evalskip, skipcount, loopnest) against a structured semantics with explicit outcomes. */
module Control {

  /** A parse tree; Empty is the NULL pointer. */
  datatype Node =
    | Empty
    | Semi(l: Node, r: Node)
    | AndIf(l: Node, r: Node)
    | OrIf(l: Node, r: Node)
    | Not(com: Node)
    | If(test: Node, thn: Node, els: Node)
    | Loop(until: bool, test: Node, body: Node)
    | For(words: nat, body: Node)
    | Defun(name: string, body: Node)
    | Command(name: string)
    | Break(n: nat)
    | Continue(n: nat)
    | Return(value: Result)

  /** The operand of return, if there is one. */
  datatype Result = Previous | Given(status: int)

  /** What happens outside the evaluator, in order: commands run (with the $? they see) and
      loop variables set. */
  datatype Event = Ran(name: string, seen: int) | Set(words: nat, item: nat)

  /** Everything the evaluator cannot see, as a function of what happened so far: the exit
      status of a command and whether a signal ended it, and how many words a list expands to. */
  datatype World = World(run: (string, seq<Event>) -> (int, bool), count: (nat, seq<Event>) -> nat, interactive: bool)

  datatype State = State(status: int, funcs: map<string, Node>, trace: seq<Event>)

  // ---------------------------------------------------------------- structured semantics

  datatype Outcome = Normal | Brk(k: nat) | Cont(k: nat) | Ret

  /** An outcome and the state it leaves, or no answer within the given fuel. */
  datatype Exec = OutOfFuel | Done(out: Outcome, st: State)

  /** What a loop makes of the outcome of its condition or body: one level fewer to break or
      continue, `continue 1` meaning the next iteration. */
  function Leave(out: Outcome): Outcome {
    match out
    case Brk(k) => if k <= 1 then Normal else Brk(k - 1)
    case Cont(k) => if k <= 1 then Normal else Cont(k - 1)
    case _ => out
  }

  predicate NextIteration(out: Outcome) { out == Normal || (out.Cont? && out.k <= 1) }

  /** break n or continue n inside `depth` loops. */
  function Jump(n: nat, depth: nat, isBreak: bool): Outcome {
    var k := if n > depth then depth else n;
    if k == 0 then Normal else if isBreak then Brk(k) else Cont(k)
  }

  /** The second part of a list: nothing happens when it is missing. */
  function RunRest(w: World, n: Node, depth: nat, st: State, fuel: nat): Exec
    decreases fuel, n, 2
  {
    if n.Empty? then Done(Normal, st) else Run(w, n, depth, st, fuel)
  }

  /** Run a tree inside `depth` loops.  Fuel bounds loop iterations and nested calls. */
  function Run(w: World, n: Node, depth: nat, st: State, fuel: nat): Exec
    decreases fuel, n, 1
  {
    match n
    case Empty => Done(Normal, st.(status := 0))
    case Semi(l, r) =>
      var a := Run(w, l, depth, st, fuel);
      if a.OutOfFuel? || a.out != Normal then a else RunRest(w, r, depth, a.st, fuel)
    case AndIf(l, r) =>
      var a := Run(w, l, depth, st, fuel);
      if a.OutOfFuel? || a.out != Normal || a.st.status != 0 then a else RunRest(w, r, depth, a.st, fuel)
    case OrIf(l, r) =>
      var a := Run(w, l, depth, st, fuel);
      if a.OutOfFuel? || a.out != Normal || a.st.status == 0 then a else RunRest(w, r, depth, a.st, fuel)
    case Not(com) =>
      var a := Run(w, com, depth, st, fuel);
      if a.OutOfFuel? || a.out != Normal then a
      else Done(Normal, a.st.(status := if a.st.status == 0 then 1 else 0))
    case If(test, thn, els) =>
      var a := Run(w, test, depth, st, fuel);
      if a.OutOfFuel? || a.out != Normal then a
      else if a.st.status == 0 then RunRest(w, thn, depth, a.st, fuel)
      else RunRest(w, els, depth, if els.Empty? then a.st.(status := 0) else a.st, fuel)
    case Loop(_, _, _) => RunLoop(w, n, depth, st, 0, fuel)
    case For(words, _) => RunFor(w, n, w.count(words, st.trace), 0, depth, st, 0, fuel)
    case Defun(name, body) => Done(Normal, State(0, st.funcs[name := body], st.trace))
    case Command(name) =>
      if name !in st.funcs then
        var (status, signaled) := w.run(name, st.trace);
        Done(if w.interactive && signaled && depth > 0 then Brk(depth) else Normal,
             State(status, st.funcs, st.trace + [Ran(name, st.status)]))
      else if fuel == 0 then OutOfFuel
      else
        var a := Run(w, st.funcs[name], depth, st, fuel - 1);
        if a.Done? && a.out == Ret then Done(Normal, a.st) else a
    case Break(k) => Done(Jump(k, depth, true), st.(status := 0))
    case Continue(k) => Done(Jump(k, depth, false), st.(status := 0))
    case Return(value) => Done(Ret, if value.Given? then st.(status := value.status) else st)
  }

  /** The iterations of a while or until loop; `last` is the status of the last body run. */
  function RunLoop(w: World, n: Node, depth: nat, st: State, last: int, fuel: nat): Exec
    requires n.Loop?
    decreases fuel, n, 0
  {
    var a := Run(w, n.test, depth + 1, st, fuel);
    if a.OutOfFuel? then a
    else if a.out == Ret then a
    else if a.out == Normal then
      if (a.st.status == 0) == n.until then Done(Normal, a.st.(status := last))
      else
        var b := Run(w, n.body, depth + 1, a.st, fuel);
        if b.OutOfFuel? then b
        else if !NextIteration(b.out) then Done(Leave(b.out), b.st)
        else if fuel == 0 then OutOfFuel
        else RunLoop(w, n, depth, b.st, b.st.status, fuel - 1)
    else if !NextIteration(a.out) then Done(Leave(a.out), a.st.(status := last))
    else if fuel == 0 then OutOfFuel
    else RunLoop(w, n, depth, a.st, last, fuel - 1)
  }

  /** Items i.. of a for loop over `count` words. */
  function RunFor(w: World, n: Node, count: nat, i: nat, depth: nat, st: State, last: int, fuel: nat): Exec
    requires n.For?
    decreases fuel, n, 0, count - i
  {
    if i >= count then Done(Normal, st.(status := last))
    else
      var b := Run(w, n.body, depth + 1, st.(trace := st.trace + [Set(n.words, i)]), fuel);
      if b.OutOfFuel? then b
      else if !NextIteration(b.out) then Done(Leave(b.out), b.st)
      else RunFor(w, n, count, i + 1, depth, b.st, b.st.status, fuel)
  }

  /** More fuel never changes an answer: fuel is a clock, not part of the meaning. */
  lemma {:induction false} FuelIsAClock(w: World, n: Node, depth: nat, st: State, fuel: nat)
    requires Run(w, n, depth, st, fuel).Done?
    ensures Run(w, n, depth, st, fuel + 1) == Run(w, n, depth, st, fuel)
    decreases fuel, n, 1
  {
    match n
    case Semi(l, r) => RestClock(w, n, l, r, depth, st, fuel);
    case AndIf(l, r) => RestClock(w, n, l, r, depth, st, fuel);
    case OrIf(l, r) => RestClock(w, n, l, r, depth, st, fuel);
    case Not(com) => FuelIsAClock(w, com, depth, st, fuel);
    case If(test, thn, els) =>
      FuelIsAClock(w, test, depth, st, fuel);
      var a := Run(w, test, depth, st, fuel);
      if a.out == Normal {
        if a.st.status == 0 { if !thn.Empty? { FuelIsAClock(w, thn, depth, a.st, fuel); } }
        else if !els.Empty? { FuelIsAClock(w, els, depth, a.st, fuel); }
      }
    case Loop(_, _, _) => LoopClock(w, n, depth, st, 0, fuel);
    case For(words, _) => ForClock(w, n, w.count(words, st.trace), 0, depth, st, 0, fuel);
    case Command(name) => if name in st.funcs { FuelIsAClock(w, st.funcs[name], depth, st, fuel - 1); }
    case _ =>
  }

  lemma {:induction false} RestClock(w: World, n: Node, l: Node, r: Node, depth: nat, st: State, fuel: nat)
    requires l < n && r < n && Run(w, l, depth, st, fuel).Done?
    ensures Run(w, l, depth, st, fuel + 1) == Run(w, l, depth, st, fuel)
    ensures var a := Run(w, l, depth, st, fuel);
            RunRest(w, r, depth, a.st, fuel).Done? ==>
                RunRest(w, r, depth, a.st, fuel + 1) == RunRest(w, r, depth, a.st, fuel)
    decreases fuel, n, 0
  {
    FuelIsAClock(w, l, depth, st, fuel);
    var a := Run(w, l, depth, st, fuel);
    if !r.Empty? && RunRest(w, r, depth, a.st, fuel).Done? { FuelIsAClock(w, r, depth, a.st, fuel); }
  }

  lemma {:induction false} LoopClock(w: World, n: Node, depth: nat, st: State, last: int, fuel: nat)
    requires n.Loop? && RunLoop(w, n, depth, st, last, fuel).Done?
    ensures RunLoop(w, n, depth, st, last, fuel + 1) == RunLoop(w, n, depth, st, last, fuel)
    decreases fuel, n, 0
  {
    FuelIsAClock(w, n.test, depth + 1, st, fuel);
    var a := Run(w, n.test, depth + 1, st, fuel);
    if a.out == Normal {
      if (a.st.status == 0) != n.until {
        FuelIsAClock(w, n.body, depth + 1, a.st, fuel);
        var b := Run(w, n.body, depth + 1, a.st, fuel);
        if NextIteration(b.out) { LoopClock(w, n, depth, b.st, b.st.status, fuel - 1); }
      }
    } else if a.out != Ret && NextIteration(a.out) {
      LoopClock(w, n, depth, a.st, last, fuel - 1);
    }
  }

  lemma {:induction false} ForClock(w: World, n: Node, count: nat, i: nat, depth: nat, st: State, last: int, fuel: nat)
    requires n.For? && RunFor(w, n, count, i, depth, st, last, fuel).Done?
    ensures RunFor(w, n, count, i, depth, st, last, fuel + 1) == RunFor(w, n, count, i, depth, st, last, fuel)
    decreases fuel, n, 0, count - i
  {
    if i < count {
      var st' := st.(trace := st.trace + [Set(n.words, i)]);
      FuelIsAClock(w, n.body, depth + 1, st', fuel);
      var b := Run(w, n.body, depth + 1, st', fuel);
      if NextIteration(b.out) { ForClock(w, n, count, i + 1, depth, b.st, b.st.status, fuel); }
    }
  }

  /** A pending break or continue always names one of the enclosing loops; in particular none
      is left at the top level. */
  lemma {:induction false} JumpsStayInside(w: World, n: Node, depth: nat, st: State, fuel: nat)
    requires Run(w, n, depth, st, fuel).Done?
    ensures var out := Run(w, n, depth, st, fuel).out; out.Brk? || out.Cont? ==> 1 <= out.k <= depth
    decreases fuel, n, 1
  {
    match n
    case Semi(l, r) => RestInside(w, n, l, r, depth, st, fuel);
    case AndIf(l, r) => RestInside(w, n, l, r, depth, st, fuel);
    case OrIf(l, r) => RestInside(w, n, l, r, depth, st, fuel);
    case Not(com) => JumpsStayInside(w, com, depth, st, fuel);
    case If(test, thn, els) =>
      JumpsStayInside(w, test, depth, st, fuel);
      var a := Run(w, test, depth, st, fuel);
      if a.out == Normal {
        if a.st.status == 0 { if !thn.Empty? { JumpsStayInside(w, thn, depth, a.st, fuel); } }
        else if !els.Empty? { JumpsStayInside(w, els, depth, a.st, fuel); }
      }
    case Loop(_, _, _) => LoopInside(w, n, depth, st, 0, fuel);
    case For(words, _) => ForInside(w, n, w.count(words, st.trace), 0, depth, st, 0, fuel);
    case Command(name) => if name in st.funcs { JumpsStayInside(w, st.funcs[name], depth, st, fuel - 1); }
    case _ =>
  }

  lemma {:induction false} RestInside(w: World, n: Node, l: Node, r: Node, depth: nat, st: State, fuel: nat)
    requires l < n && r < n && Run(w, l, depth, st, fuel).Done?
    ensures var a := Run(w, l, depth, st, fuel);
            && (a.out.Brk? || a.out.Cont? ==> 1 <= a.out.k <= depth)
            && var b := RunRest(w, r, depth, a.st, fuel);
               (b.Done? && (b.out.Brk? || b.out.Cont?) ==> 1 <= b.out.k <= depth)
    decreases fuel, n, 0
  {
    JumpsStayInside(w, l, depth, st, fuel);
    var a := Run(w, l, depth, st, fuel);
    if !r.Empty? && RunRest(w, r, depth, a.st, fuel).Done? { JumpsStayInside(w, r, depth, a.st, fuel); }
  }

  lemma {:induction false} LoopInside(w: World, n: Node, depth: nat, st: State, last: int, fuel: nat)
    requires n.Loop? && RunLoop(w, n, depth, st, last, fuel).Done?
    ensures var out := RunLoop(w, n, depth, st, last, fuel).out; out.Brk? || out.Cont? ==> 1 <= out.k <= depth
    decreases fuel, n, 0
  {
    JumpsStayInside(w, n.test, depth + 1, st, fuel);
    var a := Run(w, n.test, depth + 1, st, fuel);
    if a.out == Normal {
      if (a.st.status == 0) != n.until {
        JumpsStayInside(w, n.body, depth + 1, a.st, fuel);
        var b := Run(w, n.body, depth + 1, a.st, fuel);
        if NextIteration(b.out) { LoopInside(w, n, depth, b.st, b.st.status, fuel - 1); }
      }
    } else if a.out != Ret && NextIteration(a.out) {
      LoopInside(w, n, depth, a.st, last, fuel - 1);
    }
  }

  lemma {:induction false} ForInside(w: World, n: Node, count: nat, i: nat, depth: nat, st: State, last: int, fuel: nat)
    requires n.For? && RunFor(w, n, count, i, depth, st, last, fuel).Done?
    ensures var out := RunFor(w, n, count, i, depth, st, last, fuel).out; out.Brk? || out.Cont? ==> 1 <= out.k <= depth
    decreases fuel, n, 0, count - i
  {
    if i < count {
      var st' := st.(trace := st.trace + [Set(n.words, i)]);
      JumpsStayInside(w, n.body, depth + 1, st', fuel);
      var b := Run(w, n.body, depth + 1, st', fuel);
      if NextIteration(b.out) { ForInside(w, n, count, i + 1, depth, b.st, b.st.status, fuel); }
    }
  }

  /** The commands of a script, one after the other until a skip is pending (evalstring). */
  function RunScript(w: World, cmds: seq<Node>, depth: nat, st: State, fuel: nat): Exec
    decreases |cmds|
  {
    if cmds == [] then Done(Normal, st)
    else if cmds[0].Empty? then RunScript(w, cmds[1..], depth, st, fuel)
    else
      var a := Run(w, cmds[0], depth, st, fuel);
      if a.OutOfFuel? || a.out != Normal then a else RunScript(w, cmds[1..], depth, a.st, fuel)
  }

  predicate AllBlank(cmds: seq<Node>) { forall i :: 0 <= i < |cmds| ==> cmds[i].Empty? }

  lemma {:induction false} BlankScript(w: World, cmds: seq<Node>, depth: nat, st: State, fuel: nat)
    requires AllBlank(cmds)
    ensures RunScript(w, cmds, depth, st, fuel) == Done(Normal, st)
  {
    if cmds != [] { BlankScript(w, cmds[1..], depth, st, fuel); }
  }

  lemma LoopUnfolds(w: World, n: Node, depth: nat, st: State, last: int, fuel: nat)
    requires n.Loop?
    ensures var a, x := Run(w, n.test, depth + 1, st, fuel), RunLoop(w, n, depth, st, last, fuel);
            if a.OutOfFuel? || a.out == Ret then x == a
            else if a.out == Normal && (a.st.status == 0) == n.until then x == Done(Normal, a.st.(status := last))
            else
              var b := if a.out == Normal then Run(w, n.body, depth + 1, a.st, fuel) else a;
              if b.OutOfFuel? then x == b
              else
                var last' := if a.out == Normal then b.st.status else last;
                if !NextIteration(b.out) then x == Done(Leave(b.out), b.st.(status := last'))
                else if fuel == 0 then x == OutOfFuel
                else x == RunLoop(w, n, depth, b.st, last', fuel - 1)
  {
  }

  // ---------------------------------------------------------------- the evaluator

  datatype Skip = SkipNone | SkipBreak | SkipCont | SkipReturn

  class Shell {
    var evalskip: Skip
    var skipcount: int
    var loopnest: int
    var exitstatus: int
    var funcs: map<string, Node>
    var trace: seq<Event>
    const w: World

    function St(): State
      reads `exitstatus, `funcs, `trace
    {
      State(exitstatus, funcs, trace)
    }

    constructor (w: World)
      ensures this.w == w && evalskip == SkipNone && loopnest == 0 && St() == State(0, map[], [])
    {
      this.w := w;
      evalskip, skipcount, loopnest, exitstatus, funcs, trace := SkipNone, 0, 0, 0, map[], [];
    }

    /** The three integers say what the outcome says; a pending break or continue names one of
        the enclosing loops. */
    ghost predicate Holds(out: Outcome)
      reads `evalskip, `skipcount, `loopnest
    {
      match out
      case Normal => evalskip == SkipNone
      case Brk(k) => evalskip == SkipBreak && skipcount == k && 1 <= skipcount <= loopnest
      case Cont(k) => evalskip == SkipCont && skipcount == k && 1 <= skipcount <= loopnest
      case Ret => evalskip == SkipReturn
    }

    /** done: the evaluator stopped in the state and with the outcome of x. */
    ghost predicate Simulates(x: Exec, done: bool, nest: int)
      reads this
    {
      done == x.Done? && (done ==> St() == x.st && loopnest == nest && Holds(x.out))
    }

    method BreakCmd(n: nat, isBreak: bool)
      requires evalskip == SkipNone && loopnest >= 0
      modifies this
      ensures Simulates(Done(Jump(n, old(loopnest), isBreak), old(St()).(status := 0)), true, old(loopnest))
    {
      var k := n;
      if k > loopnest {
        k := loopnest;
      }
      if k > 0 {
        evalskip := if isBreak then SkipBreak else SkipCont;
        skipcount := k;
      }
      exitstatus := 0;
    }

    /** evaltree: no command runs while a skip is pending, loopnest is restored. */
    method EvalTree(n: Node, fuel: nat) returns (done: bool)
      requires evalskip == SkipNone && loopnest >= 0
      modifies this
      ensures Simulates(Run(w, n, old(loopnest), old(St()), fuel), done, old(loopnest))
      decreases fuel, n, 2
    {
      if n.Empty? {
        exitstatus := 0;
        return true;
      }
      var cur := n;
      while true
        invariant evalskip == SkipNone && loopnest == old(loopnest) && !cur.Empty?
        invariant cur == n || cur < n
        invariant Run(w, n, loopnest, old(St()), fuel) == Run(w, cur, loopnest, St(), fuel)
        decreases cur
      {
        var next := Empty;
        if cur.Semi? {
          done := EvalTree(cur.l, fuel);
          if !done || evalskip != SkipNone { return; }
          next := cur.r;
        } else if cur.AndIf? {
          done := EvalTree(cur.l, fuel);
          if !done || evalskip != SkipNone || exitstatus != 0 { return; }
          next := cur.r;
        } else if cur.OrIf? {
          done := EvalTree(cur.l, fuel);
          if !done || evalskip != SkipNone || exitstatus == 0 { return; }
          next := cur.r;
        } else if cur.Not? {
          done := EvalTree(cur.com, fuel);
          if !done || evalskip != SkipNone { return; }
          exitstatus := if exitstatus == 0 then 1 else 0;
        } else if cur.If? {
          done := EvalTree(cur.test, fuel);
          if !done || evalskip != SkipNone { return; }
          if exitstatus == 0 {
            next := cur.thn;
          } else if !cur.els.Empty? {
            next := cur.els;
          } else {
            exitstatus := 0;
          }
        } else {
          done := EvalOne(cur, fuel);
          return;
        }
        if next.Empty? {
          return true;
        }
        cur := next;
      }
    }

    /** The cases of evaltree's switch that leave nothing to go on with. */
    method EvalOne(n: Node, fuel: nat) returns (done: bool)
      requires evalskip == SkipNone && loopnest >= 0
      requires !(n.Empty? || n.Semi? || n.AndIf? || n.OrIf? || n.Not? || n.If?)
      modifies this
      ensures Simulates(Run(w, n, old(loopnest), old(St()), fuel), done, old(loopnest))
      decreases fuel, n, 1
    {
      hide RunLoop, RunFor, Jump;
      done := true;
      match n
      case Loop(_, _, _) => done := EvalLoop(n, fuel);
      case For(_, _) => done := EvalFor(n, fuel);
      case Command(name) => done := EvalCommand(name, fuel, n);
      case Break(k) => BreakCmd(k, true);
      case Continue(k) => BreakCmd(k, false);
      case Defun(name, body) =>
        funcs := funcs[name := body];
        exitstatus := 0;
      case Return(value) =>
        if value.Given? {
          exitstatus := value.status;
        }
        evalskip, skipcount := SkipReturn, 1;
    }

    /** evalcommand: a function's body runs here, and a pending return stops there. */
    method EvalCommand(name: string, fuel: nat, ghost n: Node) returns (done: bool)
      requires evalskip == SkipNone && loopnest >= 0 && n == Command(name)
      modifies this
      ensures Simulates(Run(w, n, old(loopnest), old(St()), fuel), done, old(loopnest))
      decreases fuel, n, 0
    {
      if name in funcs {
        if fuel == 0 { return false; }
        done := EvalTree(funcs[name], fuel - 1);
        if done && evalskip == SkipReturn {
          evalskip, skipcount := SkipNone, 0;
        }
      } else {
        var (status, signaled) := w.run(name, trace);
        trace := trace + [Ran(name, exitstatus)];
        exitstatus := status;
        if w.interactive && loopnest > 0 && signaled {
          evalskip, skipcount := SkipBreak, loopnest;
        }
        done := true;
      }
    }

    /** The test for a pending skip that evalloop and evalfor share: true to go on with the next
        iteration; otherwise the loop ends, and what is still pending is for the loops around it. */
    method EndIteration(ghost out: Outcome) returns (again: bool)
      requires evalskip != SkipNone && Holds(out)
      modifies `evalskip, `skipcount
      ensures again == NextIteration(out)
      ensures again ==> evalskip == SkipNone
      ensures match Leave(out)
              case Normal => evalskip == SkipNone
              case Brk(k) => evalskip == SkipBreak && skipcount == k && 1 <= skipcount <= loopnest - 1
              case Cont(k) => evalskip == SkipCont && skipcount == k && 1 <= skipcount <= loopnest - 1
              case Ret => evalskip == SkipReturn
    {
      if evalskip == SkipCont {
        skipcount := skipcount - 1;
        if skipcount <= 0 {
          evalskip := SkipNone;
          return true;
        }
      }
      if evalskip == SkipBreak {
        skipcount := skipcount - 1;
        if skipcount <= 0 {
          evalskip := SkipNone;
        }
      }
      again := false;
    }

    method EvalLoop(n: Node, fuel: nat) returns (done: bool)
      requires evalskip == SkipNone && loopnest >= 0 && n.Loop?
      modifies this
      ensures Simulates(RunLoop(w, n, old(loopnest), old(St()), 0, fuel), done, old(loopnest))
      decreases fuel, n, 0
    {
      loopnest := loopnest + 1;
      var status, left: nat := 0, fuel;
      while true
        invariant evalskip == SkipNone && loopnest == old(loopnest) + 1 && left <= fuel
        invariant RunLoop(w, n, old(loopnest), old(St()), 0, fuel) == RunLoop(w, n, old(loopnest), St(), status, left)
        decreases left
      {
        hide RunLoop, Run;
        LoopUnfolds(w, n, old(loopnest), St(), status, left);
        ghost var a := Run(w, n.test, old(loopnest) + 1, St(), left);
        done := EvalTree(n.test, left);
        if !done { return; }
        ghost var out := a.out;
        if evalskip == SkipNone {
          if (exitstatus == 0) == n.until {
            break;
          }
          out := if Run(w, n.body, old(loopnest) + 1, a.st, left).Done?
              then Run(w, n.body, old(loopnest) + 1, a.st, left).out else Normal;
          done := EvalTree(n.body, left);
          if !done { return; }
          status := exitstatus;
        }
        if evalskip != SkipNone {
          var again := EndIteration(out);
          if !again {
            if evalskip == SkipReturn {
              status := exitstatus;
            }
            break;
          }
        }
        if left == 0 { return false; }
        left := left - 1;
      }
      loopnest := loopnest - 1;
      exitstatus := status;
      done := true;
    }

    method EvalFor(n: Node, fuel: nat) returns (done: bool)
      requires evalskip == SkipNone && loopnest >= 0 && n.For?
      modifies this
      ensures Simulates(Run(w, n, old(loopnest), old(St()), fuel), done, old(loopnest))
      decreases fuel, n, 0
    {
      var count := w.count(n.words, trace);
      loopnest := loopnest + 1;
      var status, i := 0, 0;
      while i < count
        invariant evalskip == SkipNone && loopnest == old(loopnest) + 1 && i <= count
        invariant Run(w, n, old(loopnest), old(St()), fuel) == RunFor(w, n, count, i, old(loopnest), St(), status, fuel)
      {
        hide Run;
        trace := trace + [Set(n.words, i)];
        ghost var b := Run(w, n.body, old(loopnest) + 1, St(), fuel);
        done := EvalTree(n.body, fuel);
        if !done { return; }
        ghost var out := b.out;
        status := exitstatus;
        i := i + 1;
        if evalskip != SkipNone {
          var again := EndIteration(out);
          if !again {
            break;
          }
        }
      }
      loopnest := loopnest - 1;
      exitstatus := status;
      done := true;
    }

    /** evalstring: blank lines, which parse to NULL, are skipped; without any command the status is 0. */
    method EvalString(cmds: seq<Node>, fuel: nat) returns (done: bool)
      requires evalskip == SkipNone && loopnest >= 0
      modifies this
      ensures var st := if AllBlank(cmds) then old(St()).(status := 0) else old(St());
              Simulates(RunScript(w, cmds, old(loopnest), st, fuel), done, old(loopnest))
    {
      hide Run;
      var i, any := 0, false;
      if AllBlank(cmds) { BlankScript(w, cmds, loopnest, St().(status := 0), fuel); }
      while i < |cmds|
        invariant i <= |cmds| && evalskip == SkipNone && loopnest == old(loopnest)
        invariant RunScript(w, cmds, old(loopnest), old(St()), fuel) == RunScript(w, cmds[i..], loopnest, St(), fuel)
        invariant any == !AllBlank(cmds[..i]) && (!any ==> St() == old(St()))
      {
        assert cmds[i..][0] == cmds[i] && cmds[i..][1..] == cmds[i + 1..] && cmds[..i + 1][i] == cmds[i];
        if !cmds[i].Empty? {
          done := EvalTree(cmds[i], fuel);
          any := true;
          if !done || evalskip != SkipNone { return; }
        }
        i := i + 1;
      }
      assert cmds[..i] == cmds;
      if !any {
        exitstatus := 0;
      }
      done := true;
    }
  }
}
