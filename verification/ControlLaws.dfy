/** What programs of nested loops, branches and functions do, event by event, in the order the
    commands run. */
module ControlLaws {
  import opened Control

  // ---------------------------------------------------------------- events of a program

  /** Events without the status a command sees. */
  function Bare(e: Event): Event { if e.Ran? then Ran(e.name, 0) else e }

  function Shape(tr: seq<Event>): (s: seq<Event>)
    ensures |s| == |tr|
  {
    seq(|tr|, i requires 0 <= i < |tr| => Bare(tr[i]))
  }

  lemma ShapeSum(a: seq<Event>, b: seq<Event>)
    ensures Shape(a + b) == Shape(a) + Shape(b)
  {
  }

  /** x ended as out, after the events ev. */
  ghost predicate Does(x: Exec, out: Outcome, st: State, ev: seq<Event>) {
    x.Done? && x.out == out && x.st.funcs == st.funcs && Shape(x.st.trace) == Shape(st.trace) + ev
  }

  /** n ends as out after the events ev, whatever happened before. */
  ghost predicate Always(w: World, n: Node, depth: nat, funcs: map<string, Node>, fuel: nat, out: Outcome,
                         ev: seq<Event>)
  {
    forall st: State {:trigger Run(w, n, depth, st, fuel)} ::
      st.funcs == funcs ==> Does(Run(w, n, depth, st, fuel), out, st, ev)
  }

  /** A command that is no function and that no signal ends. */
  ghost predicate Ordinary(w: World, name: string, funcs: map<string, Node>) {
    name !in funcs && forall tr :: !w.run(name, tr).1
  }

  ghost predicate Counts(w: World, words: nat, c: nat) { forall tr :: w.count(words, tr) == c }

  /** The events ev after each of the first c words is assigned. */
  function Repeat(words: nat, c: nat, ev: seq<Event>): seq<Event> {
    if c == 0 then [] else Repeat(words, c - 1, ev) + ([Set(words, c - 1)] + ev)
  }

  lemma CommandEvents(w: World, name: string, depth: nat, funcs: map<string, Node>, fuel: nat)
    requires Ordinary(w, name, funcs)
    ensures Always(w, Command(name), depth, funcs, fuel, Normal, [Ran(name, 0)])
  {
    forall st: State | st.funcs == funcs
      ensures Does(Run(w, Command(name), depth, st, fuel), Normal, st, [Ran(name, 0)])
    {
      ShapeSum(st.trace, [Ran(name, st.status)]);
    }
  }

  lemma ListStops(w: World, l: Node, r: Node, depth: nat, funcs: map<string, Node>, fuel: nat, out: Outcome,
                  ev: seq<Event>)
    requires Always(w, l, depth, funcs, fuel, out, ev) && out != Normal
    ensures Always(w, Semi(l, r), depth, funcs, fuel, out, ev)
  {
    forall st: State | st.funcs == funcs
      ensures Does(Run(w, Semi(l, r), depth, st, fuel), out, st, ev)
    {
      assert Does(Run(w, l, depth, st, fuel), out, st, ev);
    }
  }

  lemma Chained(a: Exec, b: Exec, mid: Outcome, out: Outcome, st: State, ev1: seq<Event>, ev2: seq<Event>)
    requires Does(a, mid, st, ev1) && Does(b, out, a.st, ev2)
    ensures Does(b, out, st, ev1 + ev2)
  {
    hide Shape;
    assert Shape(st.trace) + ev1 + ev2 == Shape(st.trace) + (ev1 + ev2);
  }

  lemma SecondRuns(w: World, l: Node, r: Node, depth: nat, st: State, fuel: nat)
    requires !r.Empty?
    ensures var a := Run(w, l, depth, st, fuel);
            a.Done? && a.out == Normal ==> Run(w, Semi(l, r), depth, st, fuel) == Run(w, r, depth, a.st, fuel)
  {
  }

  /** Assigning the loop variable is one event. */
  lemma Assigned(st: State, words: nat, i: nat)
    ensures Does(Done(Normal, st.(trace := st.trace + [Set(words, i)])), Normal, st, [Set(words, i)])
  {
    ShapeSum(st.trace, [Set(words, i)]);
  }

  lemma ListGoesOn(w: World, l: Node, r: Node, depth: nat, funcs: map<string, Node>, fuel: nat, out: Outcome,
                   ev1: seq<Event>, ev2: seq<Event>)
    requires Always(w, l, depth, funcs, fuel, Normal, ev1) && Always(w, r, depth, funcs, fuel, out, ev2) && !r.Empty?
    ensures Always(w, Semi(l, r), depth, funcs, fuel, out, ev1 + ev2)
  {
    hide Run, Shape;
    forall st: State | st.funcs == funcs
      ensures Does(Run(w, Semi(l, r), depth, st, fuel), out, st, ev1 + ev2)
    {
      var a := Run(w, l, depth, st, fuel);
      assert Does(a, Normal, st, ev1);
      SecondRuns(w, l, r, depth, st, fuel);
      Chained(a, Run(w, r, depth, a.st, fuel), Normal, out, st, ev1, ev2);
    }
  }

  /** A body that jumps ends its loop in the first iteration. */
  lemma LoopLeft(w: World, words: nat, body: Node, depth: nat, funcs: map<string, Node>, fuel: nat,
                 out: Outcome, ev: seq<Event>, c: nat)
    requires Counts(w, words, c) && c >= 1 && Always(w, body, depth + 1, funcs, fuel, out, ev)
    ensures out == Brk(1) ==> Always(w, For(words, body), depth, funcs, fuel, Normal, [Set(words, 0)] + ev)
    ensures forall k :: k >= 2 && out == Brk(k) ==>
              Always(w, For(words, body), depth, funcs, fuel, Brk(k - 1), [Set(words, 0)] + ev)
    ensures forall k :: k >= 2 && out == Cont(k) ==>
              Always(w, For(words, body), depth, funcs, fuel, Cont(k - 1), [Set(words, 0)] + ev)
    ensures out == Ret ==> Always(w, For(words, body), depth, funcs, fuel, Ret, [Set(words, 0)] + ev)
  {
    hide Run, Shape;
    if !NextIteration(out) {
      forall st: State | st.funcs == funcs
        ensures Does(Run(w, For(words, body), depth, st, fuel), Leave(out), st, [Set(words, 0)] + ev)
      {
        var s := st.(trace := st.trace + [Set(words, 0)]);
        Assigned(st, words, 0);
        var b := Run(w, body, depth + 1, s, fuel);
        assert Does(b, out, s, ev);
        Chained(Done(Normal, s), b, Normal, out, st, [Set(words, 0)], ev);
        FirstItem(w, words, body, depth, st, fuel);
      }
      assert Always(w, For(words, body), depth, funcs, fuel, Leave(out), [Set(words, 0)] + ev);
    }
  }

  lemma FirstItem(w: World, words: nat, body: Node, depth: nat, st: State, fuel: nat)
    requires w.count(words, st.trace) >= 1
    ensures var b := Run(w, body, depth + 1, st.(trace := st.trace + [Set(words, 0)]), fuel);
            b.Done? && !NextIteration(b.out) ==> Run(w, For(words, body), depth, st, fuel) == Done(Leave(b.out), b.st)
  {
  }

  /** A body that ends normally, or continues this loop, is run for every word. */
  lemma LoopGoesOn(w: World, words: nat, body: Node, depth: nat, funcs: map<string, Node>, fuel: nat,
                   out: Outcome, ev: seq<Event>, c: nat)
    requires Counts(w, words, c) && Always(w, body, depth + 1, funcs, fuel, out, ev) && out in {Normal, Cont(1)}
    ensures Always(w, For(words, body), depth, funcs, fuel, Normal, Repeat(words, c, ev))
  {
    hide Run, RunFor, Shape;
    forall st: State | st.funcs == funcs
      ensures Does(Run(w, For(words, body), depth, st, fuel), Normal, st, Repeat(words, c, ev))
    {
      assert Shape(st.trace) + Repeat(words, 0, ev) == Shape(st.trace);
      ItemsFrom(w, words, body, depth, st, st, 0, fuel, out, ev, c, 0);
      AllItems(w, words, body, depth, st, fuel);
    }
  }

  lemma AllItems(w: World, words: nat, body: Node, depth: nat, st: State, fuel: nat)
    ensures Run(w, For(words, body), depth, st, fuel) ==
            RunFor(w, For(words, body), w.count(words, st.trace), 0, depth, st, 0, fuel)
  {
  }

  lemma {:induction false} ItemsFrom(w: World, words: nat, body: Node, depth: nat, st: State, cur: State,
                                     last: int, fuel: nat, out: Outcome, ev: seq<Event>, c: nat, i: nat)
    requires Always(w, body, depth + 1, st.funcs, fuel, out, ev) && out in {Normal, Cont(1)}
    requires i <= c && cur.funcs == st.funcs && Shape(cur.trace) == Shape(st.trace) + Repeat(words, i, ev)
    ensures Does(RunFor(w, For(words, body), c, i, depth, cur, last, fuel), Normal, st, Repeat(words, c, ev))
    decreases c - i
  {
    if i < c {
      var s := cur.(trace := cur.trace + [Set(words, i)]);
      ShapeSum(cur.trace, [Set(words, i)]);
      var b := Run(w, body, depth + 1, s, fuel);
      assert Does(b, out, s, ev);
      assert Shape(b.st.trace) == Shape(st.trace) + Repeat(words, i + 1, ev) by {
        assert Repeat(words, i + 1, ev) == Repeat(words, i, ev) + ([Set(words, i)] + ev);
        assert Shape(st.trace) + Repeat(words, i, ev) + [Set(words, i)] + ev ==
               Shape(st.trace) + (Repeat(words, i, ev) + ([Set(words, i)] + ev));
      }
      ItemsFrom(w, words, body, depth, st, b.st, b.st.status, fuel, out, ev, c, i + 1);
    }
  }

  // ---------------------------------------------------------------- nested loops

  /** A for loop and the command that follows it. */
  datatype Level = Level(words: nat, count: nat, after: string)

  /** The loops of ls around a program, the innermost first, each with its command after it. */
  function Tower(ls: seq<Level>, inner: Node): Node {
    if ls == [] then inner
    else
      var n := |ls| - 1;
      Semi(For(ls[n].words, Tower(ls[..n], inner)), Command(ls[n].after))
  }

  /** The loops have the number of words they say, and the commands are no functions. */
  ghost predicate Standing(w: World, ls: seq<Level>, funcs: map<string, Node>) {
    forall i :: 0 <= i < |ls| ==> Counts(w, ls[i].words, ls[i].count) && Ordinary(w, ls[i].after, funcs)
  }

  /** None of the innermost k loops is empty, so that what is in them is reached. */
  predicate Reached(ls: seq<Level>, k: nat)
    requires k <= |ls|
  {
    forall i :: 0 <= i < k ==> ls[i].count >= 1
  }

  /** Entering the loops of ls once, down to the innermost. */
  function Entering(ls: seq<Level>): seq<Event> {
    if ls == [] then [] else [Set(ls[|ls| - 1].words, 0)] + Entering(ls[..|ls| - 1])
  }

  /** The events when the innermost k loops are left at once and the others go on: the loops
      within the k-th are entered and nothing follows them, then comes the command after the
      k-th, and each loop further out does the same for all its words. */
  function BreakEvents(ls: seq<Level>, k: nat): seq<Event>
    requires 1 <= k <= |ls|
  {
    var n := |ls| - 1;
    if |ls| == k then Entering(ls) + [Ran(ls[n].after, 0)]
    else Repeat(ls[n].words, ls[n].count, BreakEvents(ls[..n], k)) + [Ran(ls[n].after, 0)]
  }

  /** The same when the k-th loop goes on too: it enters the loops within it for all its words. */
  function ContinueEvents(ls: seq<Level>, k: nat): seq<Event>
    requires 1 <= k <= |ls|
  {
    var n := |ls| - 1;
    var inner := if |ls| == k then Entering(ls[..n]) else ContinueEvents(ls[..n], k);
    Repeat(ls[n].words, ls[n].count, inner) + [Ran(ls[n].after, 0)]
  }

  /** While more loops than ls are still to be left, ls is entered and nothing after it runs. */
  lemma {:induction false} StillLeaving(w: World, ls: seq<Level>, depth: nat, funcs: map<string, Node>, fuel: nat,
                                        inner: Node, k: nat)
    requires Standing(w, ls, funcs) && |ls| < k && Reached(ls, |ls|)
    ensures Always(w, inner, depth + |ls|, funcs, fuel, Brk(k), []) ==>
              Always(w, Tower(ls, inner), depth, funcs, fuel, Brk(k - |ls|), Entering(ls))
    ensures Always(w, inner, depth + |ls|, funcs, fuel, Cont(k), []) ==>
              Always(w, Tower(ls, inner), depth, funcs, fuel, Cont(k - |ls|), Entering(ls))
    ensures Always(w, inner, depth + |ls|, funcs, fuel, Ret, []) ==>
              Always(w, Tower(ls, inner), depth, funcs, fuel, Ret, Entering(ls))
    decreases |ls|
  {
    hide Always;
    if ls != [] {
      var n := |ls| - 1;
      var sub, l := ls[..n], ls[n];
      StandingOuter(w, ls, funcs);
      StillLeaving(w, sub, depth + 1, funcs, fuel, inner, k);
      if Always(w, inner, depth + |ls|, funcs, fuel, Brk(k), []) {
        Around(w, l, Tower(sub, inner), depth, funcs, fuel, Brk(k - n), Entering(sub));
      }
      if Always(w, inner, depth + |ls|, funcs, fuel, Cont(k), []) {
        Around(w, l, Tower(sub, inner), depth, funcs, fuel, Cont(k - n), Entering(sub));
      }
      if Always(w, inner, depth + |ls|, funcs, fuel, Ret, []) {
        Around(w, l, Tower(sub, inner), depth, funcs, fuel, Ret, Entering(sub));
      }
    }
  }

  lemma StandingOuter(w: World, ls: seq<Level>, funcs: map<string, Node>)
    requires ls != [] && Standing(w, ls, funcs)
    ensures var n := |ls| - 1;
            && Standing(w, ls[..n], funcs)
            && Counts(w, ls[n].words, ls[n].count) && Ordinary(w, ls[n].after, funcs)
  {
  }

  /** One more loop around a jump that leaves it with more to leave. */
  lemma Around(w: World, l: Level, body: Node, depth: nat, funcs: map<string, Node>, fuel: nat, out: Outcome,
               ev: seq<Event>)
    requires l.count >= 1 && Counts(w, l.words, l.count) && Always(w, body, depth + 1, funcs, fuel, out, ev)
    requires out == Ret || ((out.Brk? || out.Cont?) && out.k >= 2)
    ensures var out' := match out case Brk(k) => Brk(k - 1) case Cont(k) => Cont(k - 1) case _ => out;
            Always(w, Semi(For(l.words, body), Command(l.after)), depth, funcs, fuel, out', [Set(l.words, 0)] + ev)
  {
    hide Always, Counts, Run;
    LoopLeft(w, l.words, body, depth, funcs, fuel, out, ev, l.count);
    var out' := match out case Brk(k) => Brk(k - 1) case Cont(k) => Cont(k - 1) case _ => out;
    ListStops(w, For(l.words, body), Command(l.after), depth, funcs, fuel, out', [Set(l.words, 0)] + ev);
  }

  /** Once every loop to be left has been left, the command after it runs. */
  lemma AndThen(w: World, l: Level, body: Node, depth: nat, funcs: map<string, Node>, fuel: nat, ev: seq<Event>)
    requires Always(w, For(l.words, body), depth, funcs, fuel, Normal, ev) && Ordinary(w, l.after, funcs)
    ensures Always(w, Semi(For(l.words, body), Command(l.after)), depth, funcs, fuel, Normal, ev + [Ran(l.after, 0)])
  {
    hide Always, Run;
    CommandEvents(w, l.after, depth, funcs, fuel);
    ListGoesOn(w, For(l.words, body), Command(l.after), depth, funcs, fuel, Normal, ev, [Ran(l.after, 0)]);
  }

  lemma JumpEvents(w: World, k: nat, depth: nat, funcs: map<string, Node>, fuel: nat)
    requires 1 <= k <= depth
    ensures Always(w, Break(k), depth, funcs, fuel, Brk(k), [])
    ensures Always(w, Continue(k), depth, funcs, fuel, Cont(k), [])
  {
  }

  /** break k inside n >= k loops ends the innermost k of them and no other. */
  lemma {:induction false} BreakLeavesExactly(w: World, ls: seq<Level>, k: nat, depth: nat,
                                              funcs: map<string, Node>, fuel: nat)
    requires 1 <= k <= |ls| && Standing(w, ls, funcs) && Reached(ls, k)
    ensures Always(w, Tower(ls, Break(k)), depth, funcs, fuel, Normal, BreakEvents(ls, k))
    decreases |ls|
  {
    hide Always, Run;
    var n := |ls| - 1;
    var sub, l := ls[..n], ls[n];
    StandingOuter(w, ls, funcs);
    if |ls| == k {
      JumpEvents(w, k, depth + |ls|, funcs, fuel);
      StillLeaving(w, sub, depth + 1, funcs, fuel, Break(k), k);
      LoopLeft(w, l.words, Tower(sub, Break(k)), depth, funcs, fuel, Brk(1), Entering(sub), l.count);
      AndThen(w, l, Tower(sub, Break(k)), depth, funcs, fuel, [Set(l.words, 0)] + Entering(sub));
    } else {
      BreakLeavesExactly(w, sub, k, depth + 1, funcs, fuel);
      LoopGoesOn(w, l.words, Tower(sub, Break(k)), depth, funcs, fuel, Normal, BreakEvents(sub, k), l.count);
      AndThen(w, l, Tower(sub, Break(k)), depth, funcs, fuel, Repeat(l.words, l.count, BreakEvents(sub, k)));
    }
  }

  /** continue k inside n >= k loops ends the innermost k - 1 of them, and the k-th goes on. */
  lemma {:induction false} ContinueLeavesExactly(w: World, ls: seq<Level>, k: nat, depth: nat,
                                                 funcs: map<string, Node>, fuel: nat)
    requires 1 <= k <= |ls| && Standing(w, ls, funcs) && Reached(ls, k)
    ensures Always(w, Tower(ls, Continue(k)), depth, funcs, fuel, Normal, ContinueEvents(ls, k))
    decreases |ls|
  {
    hide Always, Run;
    var n := |ls| - 1;
    var sub, l := ls[..n], ls[n];
    StandingOuter(w, ls, funcs);
    if |ls| == k {
      JumpEvents(w, k, depth + |ls|, funcs, fuel);
      StillLeaving(w, sub, depth + 1, funcs, fuel, Continue(k), k);
      LoopGoesOn(w, l.words, Tower(sub, Continue(k)), depth, funcs, fuel, Cont(1), Entering(sub), l.count);
      AndThen(w, l, Tower(sub, Continue(k)), depth, funcs, fuel, Repeat(l.words, l.count, Entering(sub)));
    } else {
      ContinueLeavesExactly(w, sub, k, depth + 1, funcs, fuel);
      LoopGoesOn(w, l.words, Tower(sub, Continue(k)), depth, funcs, fuel, Normal, ContinueEvents(sub, k), l.count);
      AndThen(w, l, Tower(sub, Continue(k)), depth, funcs, fuel, Repeat(l.words, l.count, ContinueEvents(sub, k)));
    }
  }

  /** A return inside any number of loops of a function leaves them all, and the function, and
      nothing more. */
  lemma ReturnLeavesAllLoops(w: World, ls: seq<Level>, f: string, value: Result, depth: nat, st: State, fuel: nat)
    requires Standing(w, ls, st.funcs) && Reached(ls, |ls|) && fuel >= 1
    requires f in st.funcs && st.funcs[f] == Tower(ls, Return(value))
    ensures Does(Run(w, Command(f), depth, st, fuel), Normal, st, Entering(ls))
  {
    hide Standing, Entering, Tower, Run;
    ReturnEvents(w, value, depth + |ls|, st.funcs, fuel - 1);
    StillLeaving(w, ls, depth, st.funcs, fuel - 1, Return(value), |ls| + 1);
    assert Does(Run(w, st.funcs[f], depth, st, fuel - 1), Ret, st, Entering(ls));
    CallReturns(w, f, depth, st, fuel);
  }

  lemma ReturnEvents(w: World, value: Result, depth: nat, funcs: map<string, Node>, fuel: nat)
    ensures Always(w, Return(value), depth, funcs, fuel, Ret, [])
  {
  }

  lemma CallReturns(w: World, f: string, depth: nat, st: State, fuel: nat)
    requires f in st.funcs && fuel >= 1
    ensures var a := Run(w, st.funcs[f], depth, st, fuel - 1);
            a.Done? && a.out == Ret ==> Run(w, Command(f), depth, st, fuel) == Done(Normal, a.st)
  {
  }

  /** More levels than there are loops means all of them; outside loops nothing happens. */
  lemma TooManyLevels(w: World, k: nat, depth: nat, st: State, fuel: nat)
    requires k >= depth
    ensures Run(w, Break(k), depth, st, fuel) == Run(w, Break(depth), depth, st, fuel)
    ensures Run(w, Continue(k), depth, st, fuel) == Run(w, Continue(depth), depth, st, fuel)
    ensures depth == 0 ==> Run(w, Break(k), depth, st, fuel) == Done(Normal, st.(status := 0))
    ensures depth == 0 ==> Run(w, Continue(k), depth, st, fuel) == Done(Normal, st.(status := 0))
  {
  }

  // ---------------------------------------------------------------- while and until

  /** The test let the loop go on. */
  ghost predicate Enters(w: World, n: Node, depth: nat, before: State, mid: State, fuel: nat)
    requires n.Loop?
  {
    Run(w, n.test, depth + 1, before, fuel) == Done(Normal, mid) && (mid.status == 0 <==> !n.until)
  }

  /** One iteration: the test let it in, and the body ended normally or continued this loop. */
  ghost predicate Iteration(w: World, n: Node, depth: nat, before: State, next: State, fuel: nat)
    requires n.Loop?
  {
    exists mid: State :: Enters(w, n, depth, before, mid, fuel) &&
                         Run(w, n.body, depth + 1, mid, fuel) in {Done(Normal, next), Done(Cont(1), next)}
  }

  /** ss are the states at the start of successive iterations. */
  ghost predicate Iterates(w: World, n: Node, depth: nat, ss: seq<State>, fuel: nat)
    requires n.Loop?
  {
    ss != [] && (|ss| > 1 ==> Iteration(w, n, depth, ss[0], ss[1], fuel) && Iterates(w, n, depth, ss[1..], fuel))
  }

  /** How a loop ends in state st, after a body with status last: its test says so, or its test or
      body jumps out of it. */
  ghost predicate Ends(w: World, n: Node, depth: nat, st: State, last: int, fuel: nat, x: Exec)
    requires n.Loop?
  {
    || (exists mid: State ::
          Run(w, n.test, depth + 1, st, fuel) == Done(Normal, mid) && (mid.status == 0 <==> n.until)
          && x == Done(Normal, mid.(status := last)))
    || (exists out: Outcome, mid: State ::
          Run(w, n.test, depth + 1, st, fuel) == Done(out, mid) && Jumps(out)
          && x == Done(Outward(out), if out == Ret then mid else mid.(status := last)))
    || (exists mid: State, out: Outcome, end: State ::
          Enters(w, n, depth, st, mid, fuel) && Run(w, n.body, depth + 1, mid, fuel) == Done(out, end)
          && Jumps(out) && x == Done(Outward(out), end))
  }

  /** A jump that ends the loop it is in. */
  predicate Jumps(out: Outcome) { out == Ret || (out.Brk? && out.k >= 1) || (out.Cont? && out.k >= 2) }

  /** What such a jump is outside that loop. */
  function Outward(out: Outcome): Outcome
    requires Jumps(out)
  {
    if out == Ret then Ret else if out == Brk(1) then Normal else if out.Brk? then Brk(out.k - 1) else Cont(out.k - 1)
  }

  lemma {:induction false} MoreFuel(w: World, n: Node, depth: nat, st: State, fuel: nat, more: nat)
    requires Run(w, n, depth, st, fuel).Done? && fuel <= more
    ensures Run(w, n, depth, st, more) == Run(w, n, depth, st, fuel)
    decreases more - fuel
  {
    hide Run;
    if fuel < more {
      FuelIsAClock(w, n, depth, st, fuel);
      MoreFuel(w, n, depth, st, fuel + 1, more);
    }
  }

  /** A while or until loop iterates until its test, a break, a continue of an outer loop or a
      return ends it; its status is that of the last body it ran, and 0 if it ran none. */
  lemma WhileRuns(w: World, n: Node, depth: nat, ss: seq<State>, fuel: nat, x: Exec)
    requires n.Loop? && Iterates(w, n, depth, ss, fuel)
    requires Ends(w, n, depth, ss[|ss| - 1], if |ss| == 1 then 0 else ss[|ss| - 1].status, fuel, x)
    ensures Run(w, n, depth, ss[0], fuel + |ss| - 1) == x
  {
    hide Iterates, Ends, RunLoop;
    IterationsRun(w, n, depth, ss, 0, fuel, x);
  }

  lemma {:induction false} IterationsRun(w: World, n: Node, depth: nat, ss: seq<State>, last: int, fuel: nat, x: Exec)
    requires n.Loop? && Iterates(w, n, depth, ss, fuel)
    requires Ends(w, n, depth, ss[|ss| - 1], if |ss| == 1 then last else ss[|ss| - 1].status, fuel, x)
    ensures RunLoop(w, n, depth, ss[0], last, fuel + |ss| - 1) == x
    decreases |ss|
  {
    hide Run, RunLoop, Ends;
    if |ss| == 1 {
      LoopEnds(w, n, depth, ss[0], last, fuel, x);
    } else {
      OneIteration(w, n, depth, ss[0], ss[1], last, fuel, fuel + |ss| - 1);
      IterationsRun(w, n, depth, ss[1..], ss[1].status, fuel, x);
    }
  }

  lemma LoopEnds(w: World, n: Node, depth: nat, st: State, last: int, fuel: nat, x: Exec)
    requires n.Loop? && Ends(w, n, depth, st, last, fuel, x)
    ensures RunLoop(w, n, depth, st, last, fuel) == x
  {
    hide Run, RunLoop;
    LoopUnfolds(w, n, depth, st, last, fuel);
  }

  lemma OneIteration(w: World, n: Node, depth: nat, st: State, next: State, last: int, fuel: nat, more: nat)
    requires n.Loop? && Iteration(w, n, depth, st, next, fuel) && fuel < more
    ensures RunLoop(w, n, depth, st, last, more) == RunLoop(w, n, depth, next, next.status, more - 1)
  {
    hide Run, RunLoop;
    var mid: State :| Enters(w, n, depth, st, mid, fuel) &&
                      Run(w, n.body, depth + 1, mid, fuel) in {Done(Normal, next), Done(Cont(1), next)};
    MoreFuel(w, n.test, depth + 1, st, fuel, more);
    MoreFuel(w, n.body, depth + 1, mid, fuel, more);
    LoopUnfolds(w, n, depth, st, last, more);
  }

  /** A continue in the condition tests it again. */
  lemma ContinueInTest(w: World, n: Node, depth: nat, st: State, next: State, fuel: nat)
    requires n.Loop? && Run(w, n.test, depth + 1, st, fuel + 1) == Done(Cont(1), next)
    ensures Run(w, n, depth, st, fuel + 1) == Run(w, n, depth, next, fuel)
  {
    LoopUnfolds(w, n, depth, st, 0, fuel + 1);
  }

  // ---------------------------------------------------------------- for

  /** The loop variable is given word i. */
  function Given(st: State, words: nat, i: nat): State { st.(trace := st.trace + [Set(words, i)]) }

  /** ss are the states before items i, i + 1 and so on. */
  ghost predicate ItemsDone(w: World, words: nat, body: Node, depth: nat, ss: seq<State>, i: nat, fuel: nat)
    decreases |ss|
  {
    ss != [] &&
    (|ss| > 1 ==>
       && Run(w, body, depth + 1, Given(ss[0], words, i), fuel) in {Done(Normal, ss[1]), Done(Cont(1), ss[1])}
       && ItemsDone(w, words, body, depth, ss[1..], i + 1, fuel))
  }

  /** A for loop runs its body once for each word, and has the status of the last body, or 0 without
      words; a jump out of the body ends it before the words that are left. */
  lemma ForRuns(w: World, words: nat, body: Node, depth: nat, ss: seq<State>, fuel: nat, out: Outcome, end: State)
    requires ss != [] && ItemsDone(w, words, body, depth, ss, 0, fuel)
    ensures var n, c := |ss| - 1, w.count(words, ss[0].trace);
            && (n == c ==> Run(w, For(words, body), depth, ss[0], fuel) ==
                           Done(Normal, if n == 0 then ss[0].(status := 0) else ss[n]))
            && (n < c && Run(w, body, depth + 1, Given(ss[n], words, n), fuel) == Done(out, end) && Jumps(out) ==>
                  Run(w, For(words, body), depth, ss[0], fuel) == Done(Outward(out), end))
  {
    hide ItemsDone, RunFor, Given, Jumps;
    AllItems(w, words, body, depth, ss[0], fuel);
    ItemsRun(w, words, body, depth, ss, 0, 0, fuel, out, end, w.count(words, ss[0].trace));
  }

  lemma {:induction false} ItemsRun(w: World, words: nat, body: Node, depth: nat, ss: seq<State>, i: nat, last: int,
                                    fuel: nat, out: Outcome, end: State, c: nat)
    requires ItemsDone(w, words, body, depth, ss, i, fuel)
    ensures var n := |ss| - 1;
            && (i + n == c ==> RunFor(w, For(words, body), c, i, depth, ss[0], last, fuel) ==
                               Done(Normal, if n == 0 then ss[0].(status := last) else ss[n]))
            && (i + n < c && Run(w, body, depth + 1, Given(ss[n], words, i + n), fuel) == Done(out, end)
                && Jumps(out) ==>
                  RunFor(w, For(words, body), c, i, depth, ss[0], last, fuel) == Done(Outward(out), end))
    decreases |ss|
  {
    hide Run, RunFor;
    ItemUnfolds(w, words, body, depth, ss[0], i, last, fuel, c);
    if |ss| > 1 {
      ItemsRun(w, words, body, depth, ss[1..], i + 1, ss[1].status, fuel, out, end, c);
    }
  }

  lemma ItemUnfolds(w: World, words: nat, body: Node, depth: nat, st: State, i: nat, last: int, fuel: nat, c: nat)
    ensures var x, b := RunFor(w, For(words, body), c, i, depth, st, last, fuel),
                        Run(w, body, depth + 1, Given(st, words, i), fuel);
            && (i >= c ==> x == Done(Normal, st.(status := last)))
            && (i < c && b.Done? && Jumps(b.out) ==> x == Done(Outward(b.out), b.st))
            && (i < c && b.Done? && b.out in {Normal, Cont(1)} ==>
                  x == RunFor(w, For(words, body), c, i + 1, depth, b.st, b.st.status, fuel))
  {
    hide Run;
  }

  /** break and continue themselves succeed, and leave everything else alone. */
  lemma JumpState(w: World, k: nat, depth: nat, st: State, fuel: nat)
    requires 1 <= k <= depth
    ensures Run(w, Break(k), depth, st, fuel) == Done(Brk(k), State(0, st.funcs, st.trace))
    ensures Run(w, Continue(k), depth, st, fuel) == Done(Cont(k), State(0, st.funcs, st.trace))
  {
  }

  // ---------------------------------------------------------------- branches and functions

  /** The state after an ordinary command. */
  function After(w: World, name: string, st: State): State {
    State(w.run(name, st.trace).0, st.funcs, st.trace + [Ran(name, st.status)])
  }

  lemma OneCommand(w: World, name: string, depth: nat, st: State, fuel: nat)
    requires Ordinary(w, name, st.funcs)
    ensures Run(w, Command(name), depth, st, fuel) == Done(Normal, After(w, name, st))
  {
  }

  /** if a; then b; else c; fi runs a and then exactly one of b and c; without an else part a
      false condition leaves status 0. */
  lemma IfEvents(w: World, a: string, b: string, c: string, depth: nat, st: State, fuel: nat)
    requires Ordinary(w, a, st.funcs) && Ordinary(w, b, st.funcs) && Ordinary(w, c, st.funcs)
    ensures var s := After(w, a, st);
            && Run(w, If(Command(a), Command(b), Command(c)), depth, st, fuel) ==
               Done(Normal, After(w, if s.status == 0 then b else c, s))
            && Run(w, If(Command(a), Command(b), Empty), depth, st, fuel) ==
               Done(Normal, if s.status == 0 then After(w, b, s) else s.(status := 0))
  {
    var s := After(w, a, st);
    OneCommand(w, a, depth, st, fuel);
    OneCommand(w, b, depth, s, fuel);
    OneCommand(w, c, depth, s, fuel);
  }

  /** a && b runs b exactly when a succeeds, a || b exactly when it fails, ! turns 0 into 1 and
      everything else into 0, and a; b runs both. */
  lemma ListEvents(w: World, a: string, b: string, depth: nat, st: State, fuel: nat)
    requires Ordinary(w, a, st.funcs) && Ordinary(w, b, st.funcs)
    ensures var s := After(w, a, st);
            && Run(w, AndIf(Command(a), Command(b)), depth, st, fuel) ==
               Done(Normal, if s.status == 0 then After(w, b, s) else s)
            && Run(w, OrIf(Command(a), Command(b)), depth, st, fuel) ==
               Done(Normal, if s.status == 0 then s else After(w, b, s))
            && Run(w, Not(Command(a)), depth, st, fuel) ==
               Done(Normal, State(if s.status == 0 then 1 else 0, s.funcs, s.trace))
            && Run(w, Semi(Command(a), Command(b)), depth, st, fuel) == Done(Normal, After(w, b, s))
  {
    var s := After(w, a, st);
    OneCommand(w, a, depth, st, fuel);
    OneCommand(w, b, depth, s, fuel);
  }

  /** f() { a; return v; b; }; f; c runs a and c and never b; c sees the value returned, or a's
      status when return has none. */
  lemma ReturnEndsFunction(w: World, f: string, a: string, value: Result, b: string, c: string, depth: nat,
                           st: State, fuel: nat)
    requires Ordinary(w, a, st.funcs[f := Body(a, value, b)]) && Ordinary(w, c, st.funcs[f := Body(a, value, b)])
    requires fuel >= 1
    ensures var s := After(w, a, State(0, st.funcs[f := Body(a, value, b)], st.trace));
            var t := if value.Given? then s.(status := value.status) else s;
            Run(w, Semi(Defun(f, Body(a, value, b)), Semi(Command(f), Command(c))), depth, st, fuel) ==
            Done(Normal, After(w, c, t))
  {
    var body := Body(a, value, b);
    var st0 := State(0, st.funcs[f := body], st.trace);
    var s := After(w, a, st0);
    var t := if value.Given? then s.(status := value.status) else s;
    OneCommand(w, a, depth, st0, fuel - 1);
    BodyReturns(w, a, value, b, depth, st0, fuel - 1);
    CallReturns(w, f, depth, st0, fuel);
    OneCommand(w, c, depth, t, fuel);
    SecondRuns(w, Command(f), Command(c), depth, st0, fuel);
    SecondRuns(w, Defun(f, body), Semi(Command(f), Command(c)), depth, st, fuel);
    DefunRuns(w, f, body, depth, st, fuel);
  }

  function Body(a: string, value: Result, b: string): Node { Semi(Command(a), Semi(Return(value), Command(b))) }

  lemma BodyReturns(w: World, a: string, value: Result, b: string, depth: nat, st: State, fuel: nat)
    requires Ordinary(w, a, st.funcs)
    ensures var s := After(w, a, st);
            Run(w, Body(a, value, b), depth, st, fuel) ==
            Done(Ret, if value.Given? then s.(status := value.status) else s)
  {
    var s := After(w, a, st);
    OneCommand(w, a, depth, st, fuel);
    assert Run(w, Return(value), depth, s, fuel).Done?;
    assert Run(w, Semi(Return(value), Command(b)), depth, s, fuel) == Run(w, Return(value), depth, s, fuel);
    SecondRuns(w, Command(a), Semi(Return(value), Command(b)), depth, st, fuel);
  }

  lemma DefunRuns(w: World, f: string, body: Node, depth: nat, st: State, fuel: nat)
    ensures Run(w, Defun(f, body), depth, st, fuel) == Done(Normal, State(0, st.funcs[f := body], st.trace))
  {
  }

  /** A break or continue in a function acts on the loops around the call. */
  lemma FunctionJumps(w: World, f: string, depth: nat, st: State, fuel: nat, out: Outcome, end: State)
    requires f in st.funcs && fuel >= 1 && out != Ret
    requires Run(w, st.funcs[f], depth, st, fuel - 1) == Done(out, end)
    ensures Run(w, Command(f), depth, st, fuel) == Done(out, end)
  {
  }

  /** A list, a branch or a body without commands: the list leaves the status, an empty command has
      status 0. */
  lemma NothingThere(w: World, a: string, depth: nat, st: State, fuel: nat)
    requires Ordinary(w, a, st.funcs)
    ensures Run(w, Empty, depth, st, fuel) == Done(Normal, State(0, st.funcs, st.trace))
    ensures Run(w, Semi(Command(a), Empty), depth, st, fuel) == Done(Normal, After(w, a, st))
    ensures var s := After(w, a, st);
            Run(w, If(Command(a), Empty, Empty), depth, st, fuel) == Done(Normal, State(0, s.funcs, s.trace))
  {
    OneCommand(w, a, depth, st, fuel);
  }

  /** A script runs its commands in order, blank ones aside, up to the first that jumps. */
  lemma ScriptRuns(w: World, n: Node, rest: seq<Node>, depth: nat, st: State, fuel: nat, out: Outcome, next: State)
    requires !n.Empty? && Run(w, n, depth, st, fuel) == Done(out, next)
    ensures RunScript(w, [n] + rest, depth, st, fuel) ==
            if out == Normal then RunScript(w, rest, depth, next, fuel) else Done(out, next)
    ensures RunScript(w, [Empty] + rest, depth, st, fuel) == RunScript(w, rest, depth, st, fuel)
    ensures RunScript(w, [], depth, st, fuel) == Done(Normal, st)
  {
    assert ([n] + rest)[1..] == rest && ([Empty] + rest)[1..] == rest;
  }

  /** A command that a signal ends leaves every loop of an interactive shell, like a break of
      all of them; otherwise the signal is not noticed. */
  lemma SignalLeavesAllLoops(w: World, name: string, depth: nat, st: State, fuel: nat)
    requires name !in st.funcs && w.run(name, st.trace).1
    ensures Run(w, Command(name), depth, st, fuel) ==
            Done(if w.interactive && depth >= 1 then Brk(depth) else Normal, After(w, name, st))
  {
  }
}
