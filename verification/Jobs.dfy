/** The job table of sh/jobs.c: a growable array of jobs, the list of most recently used jobs
    threaded through it by pointers, and the state of each job's processes.

    A pointer names a table and a slot.  Growing the table makes a new one, so every pointer that
    is not relocated is left pointing into the old table. */
module Jobs {

  datatype Ptr = Null | To(table: nat, index: nat)

  /** Running is the initial -1 of a process status. */
  datatype Status = Running | Stopped(sig: int) | Ended(code: int)

  /** What wait reports about a process. */
  datatype Report = Continued | Stop(sig: int) | End(code: int) {
    function Status(): Status {
      match this case Continued => Running case Stop(sig) => Stopped(sig) case End(code) => Ended(code)
    }
  }

  datatype Proc = Proc(pid: int, status: Status)

  /** Where a job's processes are kept: its own ps0 field or a separate block. */
  datatype Procs = Own(at: Ptr) | Block(procs: seq<Proc>)

  datatype JobState = Active | AllStopped | Done

  datatype Job = Job(used: bool, state: JobState, nprocs: nat, remembered: bool, foreground: bool, next: Ptr, ps0: Proc,
                     ps: Procs) {
    /** The processes launched so far. */
    function List(): seq<Proc> {
      var all := if ps.Own? then [ps0] else ps.procs;
      if nprocs <= |all| then all[..nprocs] else all
    }

    function Capacity(): nat { if ps.Own? then 1 else |ps.procs| }

    /** The job with process k replaced. */
    function With(k: nat, p: Proc): (r: Job)
      requires k < Capacity()
    {
      if ps.Own? then this.(ps0 := p) else this.(ps := Block(ps.procs[k := p]))
    }

    function WithList(list: seq<Proc>): (r: Job)
      requires |list| == nprocs <= Capacity()
    {
      if nprocs == 0 then this
      else if ps.Own? then this.(ps0 := list[0])
      else this.(ps := Block(list + ps.procs[nprocs..]))
    }
  }

  // ---------------------------------------------------------------- what a job's state should be

  predicate SomeRunning(ps: seq<Proc>) { exists i :: 0 <= i < |ps| && ps[i].pid != -1 && ps[i].status.Running? }

  predicate SomeStopped(ps: seq<Proc>) { exists i :: 0 <= i < |ps| && ps[i].pid != -1 && ps[i].status.Stopped? }

  /** Active while some process runs, stopped when none runs but one is stopped, done when all have ended. */
  function Expected(ps: seq<Proc>): JobState {
    if SomeRunning(ps) then Active else if SomeStopped(ps) then AllStopped else Done
  }

  // ---------------------------------------------------------------- the list of recently used jobs

  /** The pointer to entry k of the list. */
  function At(id: nat, mru: seq<nat>, k: nat): Ptr { if k < |mru| then To(id, mru[k]) else Null }

  /** The next pointers from head spell mru: in-use slots, none twice. */
  ghost predicate Linked(jobs: seq<Job>, id: nat, head: Ptr, mru: seq<nat>) {
    head == At(id, mru, 0) && Distinct(mru) && forall k :: 0 <= k < |mru| ==> LinkFits(jobs, id, mru, k)
  }

  ghost predicate LinkFits(jobs: seq<Job>, id: nat, mru: seq<nat>, k: nat)
    requires k < |mru|
  {
    mru[k] < |jobs| && jobs[mru[k]].used && jobs[mru[k]].next == At(id, mru, k + 1)
  }

  ghost predicate Distinct(s: seq<nat>) {
    forall k, l :: 0 <= k < l < |s| ==> s[k] != s[l]
  }

  function Without(s: seq<nat>, x: nat): seq<nat> {
    if s == [] then [] else if s[0] == x then Without(s[1..], x) else [s[0]] + Without(s[1..], x)
  }

  lemma {:induction false} WithoutAbsent(s: seq<nat>, x: nat)
    requires x !in s
    ensures Without(s, x) == s
  {
    if s != [] { WithoutAbsent(s[1..], x); }
  }

  lemma {:induction false} WithoutAt(s: seq<nat>, k: nat)
    requires k < |s| && s[k] !in s[..k] && s[k] !in s[k + 1..]
    ensures Without(s, s[k]) == s[..k] + s[k + 1..]
  {
    if k == 0 {
      WithoutAbsent(s[1..], s[0]);
    } else {
      assert s[1..][..k - 1] == s[..k][1..] && s[1..][k..] == s[k + 1..];
      WithoutAt(s[1..], k - 1);
      assert s[..k] + s[k + 1..] == [s[0]] + (s[1..][..k - 1] + s[1..][k..]);
    }
  }

  // ---------------------------------------------------------------- the table

  ghost predicate SlotFits(j: Job, id: nat, n: nat, i: nat) {
    j.used ==>
      && j.nprocs <= j.Capacity()
      && (j.ps.Own? ==> j.ps.at == To(id, i))
      && (j.next.To? ==> j.next.table == id && j.next.index < n)
  }

  ghost predicate TableFits(jobs: seq<Job>, id: nat) {
    forall i :: 0 <= i < |jobs| ==> SlotFits(jobs[i], id, |jobs|, i)
  }

  ghost predicate BgFits(jobs: seq<Job>, id: nat, bg: Ptr) {
    bg.To? ==> bg.table == id && bg.index < |jobs| && jobs[bg.index].used
  }

  /** What the rest of the shell sees of a slot. */
  datatype JobView = Free | InUse(state: JobState, procs: seq<Proc>, capacity: nat, remembered: bool, foreground: bool)

  function View(j: Job): JobView {
    if j.used then InUse(j.state, j.List(), j.Capacity(), j.remembered, j.foreground) else Free
  }

  /** The recorded state is what the processes make it. */
  predicate Right(v: JobView) { v.InUse? && v.procs != [] ==> v.state == Expected(v.procs) }

  predicate AllRight(vs: seq<JobView>) { forall i :: 0 <= i < |vs| ==> Right(vs[i]) }

  function Views(jobs: seq<Job>): (r: seq<JobView>)
    ensures |r| == |jobs|
  {
    seq(|jobs|, i requires 0 <= i < |jobs| => View(jobs[i]))
  }

  lemma ViewsUpdate(jobs: seq<Job>, i: nat, j: Job)
    requires i < |jobs|
    ensures Views(jobs[i := j]) == Views(jobs)[i := View(j)]
  {
  }

  lemma TableUpdate(jobs: seq<Job>, id: nat, i: nat, j: Job)
    requires TableFits(jobs, id) && i < |jobs| && SlotFits(j, id, |jobs|, i)
    ensures TableFits(jobs[i := j], id)
  {
    var jobs' := jobs[i := j];
    forall k | 0 <= k < |jobs'| ensures SlotFits(jobs'[k], id, |jobs'|, k) {
      assert k == i || SlotFits(jobs[k], id, |jobs|, k);
    }
  }

  /** Changing a slot that is not on the list, or not its link, leaves the list. */
  lemma LinkedUpdate(jobs: seq<Job>, id: nat, head: Ptr, mru: seq<nat>, i: nat, j: Job)
    requires Linked(jobs, id, head, mru) && i < |jobs| && (i in mru ==> j.used && j.next == jobs[i].next)
    ensures Linked(jobs[i := j], id, head, mru)
  {
    hide At, Distinct;
    var jobs' := jobs[i := j];
    forall k | 0 <= k < |mru| ensures LinkFits(jobs', id, mru, k) { assert LinkFits(jobs, id, mru, k); }
  }

  lemma ListEntry(jobs: seq<Job>, id: nat, head: Ptr, mru: seq<nat>, k: nat)
    requires Linked(jobs, id, head, mru) && k < |mru|
    ensures mru[k] < |jobs| && jobs[mru[k]].used && jobs[mru[k]].next == At(id, mru, k + 1)
  {
    hide At, Distinct;
    assert LinkFits(jobs, id, mru, k);
  }

  lemma ListRange(jobs: seq<Job>, id: nat, head: Ptr, mru: seq<nat>)
    requires Linked(jobs, id, head, mru)
    ensures forall k :: 0 <= k < |mru| ==> mru[k] < |jobs| && jobs[mru[k]].used
  {
    forall k | 0 <= k < |mru| ensures mru[k] < |jobs| && jobs[mru[k]].used { ListEntry(jobs, id, head, mru, k); }
  }

  /** The list when entry k has been bypassed. */
  function Bypassed(jobs: seq<Job>, mru: seq<nat>, k: nat): seq<Job>
    requires k < |mru| && forall i :: 0 <= i < |mru| ==> mru[i] < |jobs|
  {
    if k == 0 then jobs else jobs[mru[k - 1] := jobs[mru[k - 1]].(next := jobs[mru[k]].next)]
  }

  lemma BypassEntry(jobs: seq<Job>, id: nat, head: Ptr, mru: seq<nat>, k: nat, q: nat)
    requires Linked(jobs, id, head, mru) && k < |mru| && q < |mru| && q != k && forall i :: 0 <= i < |mru| ==>
             mru[i] < |jobs|
    ensures var js := Bypassed(jobs, mru, k);
            js[mru[q]].used && js[mru[q]].next == if q + 1 == k then At(id, mru, k + 1) else At(id, mru, q + 1)
  {
    ListEntry(jobs, id, head, mru, q);
    ListEntry(jobs, id, head, mru, k);
    hide At;
  }

  lemma AtBypassed(id: nat, mru: seq<nat>, k: nat, q: nat)
    requires k < |mru|
    ensures At(id, mru[..k] + mru[k + 1..], q) == if q < k then At(id, mru, q) else At(id, mru, q + 1)
  {
  }

  lemma BypassLinked(jobs: seq<Job>, id: nat, head: Ptr, mru: seq<nat>, k: nat)
    requires Linked(jobs, id, head, mru) && k < |mru| && forall i :: 0 <= i < |mru| ==> mru[i] < |jobs|
    ensures Linked(Bypassed(jobs, mru, k), id, if k == 0 then jobs[mru[0]].next else head, mru[..k] + mru[k + 1..])
  {
    var m, js := mru[..k] + mru[k + 1..], Bypassed(jobs, mru, k);
    AtBypassed(id, mru, k, 0);
    ListEntry(jobs, id, head, mru, 0);
    assert Distinct(m);
    forall q | 0 <= q < |m| ensures LinkFits(js, id, m, q) {
      AtBypassed(id, mru, k, q + 1);
      BypassEntry(jobs, id, head, mru, k, if q < k then q else q + 1);
      hide At, Distinct, Bypassed;
    }
    hide At, Distinct, Bypassed;
  }

  lemma BypassTable(jobs: seq<Job>, id: nat, mru: seq<nat>, k: nat)
    requires TableFits(jobs, id) && 0 < k < |mru| && forall i :: 0 <= i < |mru| ==> mru[i] < |jobs| && jobs[mru[i]].used
    requires mru[k - 1] != mru[k]
    ensures TableFits(Bypassed(jobs, mru, k), id) && Views(Bypassed(jobs, mru, k)) == Views(jobs)
    ensures Bypassed(jobs, mru, k)[mru[k]] == jobs[mru[k]]
    ensures forall i :: 0 <= i < |jobs| ==> Bypassed(jobs, mru, k)[i].used == jobs[i].used
  {
    var i := mru[k - 1];
    var j := jobs[i].(next := jobs[mru[k]].next);
    assert SlotFits(jobs[mru[k]], id, |jobs|, mru[k]) && SlotFits(jobs[i], id, |jobs|, i);
    TableUpdate(jobs, id, i, j);
    ViewsUpdate(jobs, i, j);
    assert View(j) == View(jobs[i]);
  }

  lemma BypassIsRemoval(jobs: seq<Job>, id: nat, head: Ptr, mru: seq<nat>, k: nat)
    requires Linked(jobs, id, head, mru) && k < |mru|
    ensures mru[..k] + mru[k + 1..] == Without(mru, mru[k]) && mru[k] !in Without(mru, mru[k])
  {
    hide At, LinkFits;
    WithoutAt(mru, k);
  }

  lemma PushLinked(jobs: seq<Job>, id: nat, head: Ptr, mru: seq<nat>, i: nat)
    requires Linked(jobs, id, head, mru) && i < |jobs| && jobs[i].used && i !in mru
    ensures Linked(jobs[i := jobs[i].(next := head)], id, To(id, i), [i] + mru)
  {
    var m, js := [i] + mru, jobs[i := jobs[i].(next := head)];
    forall q | 0 <= q < |m| ensures LinkFits(js, id, m, q) {
      if q > 0 { ListEntry(jobs, id, head, mru, q - 1); }
    }
  }

  // ---------------------------------------------------------------- growing

  /** A pointer into the table as a pointer to the same slot of the new table. */
  function Moved(p: Ptr, id: nat): Ptr { if p.Null? then Null else To(id, p.index) }

  function Relocated(j: Job, from: nat, id: nat, i: nat): Job {
    j.(next := Moved(j.next, id), ps := if j.ps == Own(To(from, i)) then Own(To(id, i)) else j.ps)
  }

  ghost predicate GrownFrom(jobs: seq<Job>, from: nat, id: nat, grown: seq<Job>) {
    && |grown| == |jobs| + 4
    && (forall i :: 0 <= i < |jobs| ==> grown[i] == Relocated(jobs[i], from, id, i))
    && (forall i :: |jobs| <= i < |grown| ==> !grown[i].used)
  }

  lemma GrownTable(jobs: seq<Job>, from: nat, id: nat, grown: seq<Job>)
    requires TableFits(jobs, from) && GrownFrom(jobs, from, id, grown) && forall i :: 0 <= i < |jobs| ==> jobs[i].used
    ensures TableFits(grown, id) && Views(grown) == Views(jobs) + [Free, Free, Free, Free]
  {
    forall i | 0 <= i < |grown| ensures SlotFits(grown[i], id, |grown|, i) {
      if i < |jobs| { assert SlotFits(jobs[i], from, |jobs|, i); }
    }
    forall i | 0 <= i < |jobs| ensures View(grown[i]) == View(jobs[i]) {
      assert grown[i] == Relocated(jobs[i], from, id, i);
    }
  }

  lemma GrownLinked(jobs: seq<Job>, from: nat, id: nat, grown: seq<Job>, head: Ptr, mru: seq<nat>)
    requires Linked(jobs, from, head, mru) && GrownFrom(jobs, from, id, grown)
    ensures Linked(grown, id, Moved(head, id), mru)
  {
    forall k | 0 <= k < |mru| ensures LinkFits(grown, id, mru, k) {
      ListEntry(jobs, from, head, mru, k);
      assert grown[mru[k]] == Relocated(jobs[mru[k]], from, id, mru[k]);
    }
  }

  // ---------------------------------------------------------------- wait reports

  /** A process once a report about pid has come in; only live processes take it. */
  function NotedProc(p: Proc, pid: int, report: Report): Proc {
    if p.pid == pid && !p.status.Ended? then p.(status := report.Status()) else p
  }

  function Noted(ps: seq<Proc>, pid: int, report: Report): (r: seq<Proc>)
    ensures |r| == |ps|
  {
    seq(|ps|, i requires 0 <= i < |ps| => NotedProc(ps[i], pid, report))
  }

  /** Whether a report completes a job. */
  predicate Completes(v: JobView, pid: int, report: Report) {
    v.InUse? && v.procs != [] && v.state != Done && Expected(Noted(v.procs, pid, report)) == Done
  }

  /** The state recorded after a report: changed when no process runs any more, or when one goes on. */
  function NotedState(v: JobView, pid: int, report: Report): JobState
    requires v.InUse?
  {
    var ps := Noted(v.procs, pid, report);
    if !SomeRunning(ps) then Expected(ps)
    else if report == Continued && Concerns(v.procs, pid) then Active
    else v.state
  }

  /** A slot after a report; a completed job that nobody waits for or refers to is freed. */
  function Reported(v: JobView, pid: int, report: Report, waited: bool, bg: bool, iflag: bool): JobView {
    if v.Free? || v.procs == [] then v
    else if Completes(v, pid, report) && !waited && !v.remembered && !iflag && !bg then Free
    else v.(procs := Noted(v.procs, pid, report), state := NotedState(v, pid, report))
  }

  predicate Names(p: Ptr, i: nat) { p.To? && p.index == i }

  /** The first n slots after a report. */
  function ReportedAll(vs: seq<JobView>, pid: int, report: Report, job: Ptr, bg: Ptr, iflag: bool,
                       n: nat): (r: seq<JobView>)
    ensures |r| == |vs|
  {
    seq(|vs|, i requires 0 <= i < |vs| => if i < n then Reported(vs[i], pid, report, Names(job, i), Names(bg, i), iflag)
        else vs[i])
  }

  /** After a report a state is right exactly when it was changed or was right to be active; so a
      state that was right stays right. */
  lemma ReportedRight(v: JobView, pid: int, report: Report, waited: bool, bg: bool, iflag: bool)
    requires pid > 0
    ensures var v' := Reported(v, pid, report, waited, bg, iflag);
            && (v'.InUse? && v'.procs != [] ==>
                  (Right(v') <==> !SomeRunning(v'.procs) || v.state == Active
                                  || (report == Continued && Concerns(v.procs, pid))))
            && (Right(v) ==> Right(v'))
  {
    if v.InUse? { StateFollows(v.procs, pid, report); }
  }

  lemma ReportedAllRight(vs: seq<JobView>, pid: int, report: Report, job: Ptr, bg: Ptr, iflag: bool, n: nat)
    requires pid > 0 && AllRight(vs)
    ensures AllRight(ReportedAll(vs, pid, report, job, bg, iflag, n))
  {
    forall i | 0 <= i < |vs| ensures Right(ReportedAll(vs, pid, report, job, bg, iflag, n)[i]) {
      ReportedRight(vs[i], pid, report, Names(job, i), Names(bg, i), iflag);
    }
  }

  lemma ReportedOneMore(vs: seq<JobView>, pid: int, report: Report, job: Ptr, bg: Ptr, iflag: bool, n: nat)
    requires n < |vs|
    ensures ReportedAll(vs, pid, report, job, bg, iflag, n + 1)
         == ReportedAll(vs, pid, report, job, bg, iflag, n)
              [n := Reported(vs[n], pid, report, Names(job, n), Names(bg, n), iflag)]
  {
    hide Reported;
  }

  /** The list once the completed jobs among the first n slots have left it. */
  function Left(mru: seq<nat>, vs: seq<JobView>, pid: int, report: Report, job: Ptr, n: nat): seq<nat>
    requires n <= |vs|
  {
    if n == 0 then mru
    else
      var m := Left(mru, vs, pid, report, job, n - 1);
      if Completes(vs[n - 1], pid, report) && !Names(job, n - 1) then Without(m, n - 1) else m
  }

  /** Some live process of the list has this pid. */
  predicate Concerns(ps: seq<Proc>, pid: int) { exists i :: 0 <= i < |ps| && ps[i].pid == pid && !ps[i].status.Ended? }

  /** One pass over a job's processes: note the report and look for running and stopped ones. */
  method Note(ps: seq<Proc>, pid: int, report: Report)
      returns (r: seq<Proc>, stopped: bool, done: bool, continued: bool)
    requires pid > 0
    ensures r == Noted(ps, pid, report) && stopped == !SomeRunning(r) && done == !SomeStopped(r)
    ensures continued <==> report == Continued && Concerns(ps, pid)
  {
    r, stopped, done, continued := ps, true, true, false;
    for i := 0 to |ps|
      invariant |r| == |ps|
      invariant forall k :: 0 <= k < |ps| ==> r[k] == if k < i then NotedProc(ps[k], pid, report) else ps[k]
      invariant stopped == !SomeRunning(r[..i]) && done == !SomeStopped(r[..i])
      invariant continued <==> report == Continued && exists k :: 0 <= k < i && ps[k].pid == pid && !ps[k].status.Ended?
    {
      ghost var before := r[..i];
      if r[i].pid != -1 {
        if r[i].pid == pid && !r[i].status.Ended? {
          r := r[i := r[i].(status := report.Status())];
          continued := report == Continued;
        }
        if r[i].status.Running? {
          stopped := false;
        } else if r[i].status.Stopped? {
          done := false;
        }
      }
      assert r[..i + 1] == before + [r[i]];
      OneMore(before, r[i]);
    }
    assert r[..|ps|] == r;
  }

  lemma OneMore(ps: seq<Proc>, p: Proc)
    ensures SomeRunning(ps + [p]) == (SomeRunning(ps) || (p.pid != -1 && p.status.Running?))
    ensures SomeStopped(ps + [p]) == (SomeStopped(ps) || (p.pid != -1 && p.status.Stopped?))
  {
    var all := ps + [p];
    assert all[|ps|] == p;
    if SomeRunning(ps) { var i :| 0 <= i < |ps| && ps[i].pid != -1 && ps[i].status.Running?; assert all[i] == ps[i]; }
    if SomeStopped(ps) { var i :| 0 <= i < |ps| && ps[i].pid != -1 && ps[i].status.Stopped?; assert all[i] == ps[i]; }
  }

  class JobTable {
    var tab: array<Job>
    var tabId: nat
    var jobmru: Ptr
    var bgjob: Ptr
    const iflag: bool
    ghost var mru: seq<nat>

    ghost predicate Valid()
      reads this, tab
    {
      TableFits(tab[..], tabId) && Linked(tab[..], tabId, jobmru, mru) && BgFits(tab[..], tabId, bgjob)
    }

    constructor (iflag: bool)
      ensures Valid() && fresh(tab) && tab.Length == 0 && mru == [] && bgjob == Null && this.iflag == iflag
    {
      tab := new Job[0];
      tabId, jobmru, bgjob, mru := 0, Null, Null, [];
      this.iflag := iflag;
    }

    /** deljob: take slot i off the list. */
    method DelJob(i: nat)
      requires Valid() && i < tab.Length
      modifies this, tab
      ensures Valid() && tab == old(tab) && tabId == old(tabId) && bgjob == old(bgjob)
      ensures mru == Without(old(mru), i) && Views(tab[..]) == old(Views(tab[..])) && i !in mru
      ensures tab[i] == old(tab[i])
    {
      var prev, jp := Null, jobmru;
      ghost var k := 0;
      while jp != Null
        invariant Valid() && unchanged(this) && unchanged(tab)
        invariant k <= |mru| && jp == At(tabId, mru, k) && prev == (if k == 0 then Null else To(tabId, mru[k - 1]))
                  && i !in mru[..k]
        decreases |mru| - k
      {
        ListEntry(tab[..], tabId, jobmru, mru, k);
        if jp == To(tabId, i) {
          Unlink(prev, jp, k);
          return;
        }
        prev := jp;
        jp := tab[jp.index].next;
        k := k + 1;
      }
      assert mru[..k] == mru;
      WithoutAbsent(mru, i);
    }

    method Unlink(prev: Ptr, jp: Ptr, ghost k: nat)
      requires Valid() && k < |mru| && jp == At(tabId, mru, k)
               && prev == (if k == 0 then Null else To(tabId, mru[k - 1]))
      modifies this, tab
      ensures Valid() && tab == old(tab) && tabId == old(tabId) && bgjob == old(bgjob)
      ensures mru == Without(old(mru), jp.index) && Views(tab[..]) == old(Views(tab[..])) && jp.index !in mru
      ensures jp.index < tab.Length && tab[jp.index] == old(tab[jp.index])
    {
      ghost var jobs := tab[..];
      ListRange(jobs, tabId, jobmru, mru);
      BypassLinked(jobs, tabId, jobmru, mru, k);
      BypassIsRemoval(jobs, tabId, jobmru, mru, k);
      ListEntry(jobs, tabId, jobmru, mru, k);
      if prev != Null {
        BypassTable(jobs, tabId, mru, k);
        tab[prev.index] := tab[prev.index].(next := tab[jp.index].next);
        assert tab[..] == Bypassed(jobs, mru, k);
      } else {
        jobmru := tab[jp.index].next;
      }
      hide Linked, TableFits, Views, Bypassed;
      mru := Without(mru, mru[k]);
    }

    /** setcurjob: slot i becomes the most recently used. */
    method SetCurJob(i: nat)
      requires Valid() && i < tab.Length && tab[i].used
      modifies this, tab
      ensures Valid() && tab == old(tab) && tabId == old(tabId) && bgjob == old(bgjob)
      ensures mru == [i] + Without(old(mru), i) && Views(tab[..]) == old(Views(tab[..]))
      ensures tab[i] == old(tab[i]).(next := tab[i].next)
    {
      DelJob(i);
      ghost var jobs := tab[..];
      ghost var j := jobs[i].(next := jobmru);
      assert SlotFits(jobs[i], tabId, |jobs|, i);
      if mru != [] { ListEntry(jobs, tabId, jobmru, mru, 0); }
      PushLinked(jobs, tabId, jobmru, mru, i);
      TableUpdate(jobs, tabId, i, j);
      ViewsUpdate(jobs, i, j);
      tab[i] := tab[i].(next := jobmru);
      assert tab[..] == jobs[i := j];
      jobmru := To(tabId, i);
      mru := [i] + mru;
    }

    /** Replace the contents of slot i, which keeps its place on the list. */
    method SetSlot(i: nat, j: Job)
      requires Valid() && i < tab.Length && SlotFits(j, tabId, tab.Length, i)
      requires (i in mru ==> j.used && j.next == tab[i].next) && (bgjob == To(tabId, i) ==> j.used)
      modifies tab
      ensures Valid() && Views(tab[..]) == old(Views(tab[..]))[i := View(j)] && tab[i] == j
    {
      ghost var jobs := tab[..];
      TableUpdate(jobs, tabId, i, j);
      ViewsUpdate(jobs, i, j);
      LinkedUpdate(jobs, tabId, jobmru, mru, i, j);
      tab[i] := j;
      assert tab[..] == jobs[i := j];
    }

    /** freejob */
    method FreeJob(i: nat)
      requires Valid() && i < tab.Length && tab[i].used
      modifies this, tab
      ensures Valid() && tab == old(tab) && tabId == old(tabId)
      ensures mru == Without(old(mru), i) && Views(tab[..]) == old(Views(tab[..]))[i := Free]
      ensures bgjob == if old(bgjob) == To(tabId, i) then Null else old(bgjob)
    {
      if bgjob == To(tabId, i) {
        bgjob := Null;
      }
      DelJob(i);
      SetSlot(i, tab[i].(used := false));
    }

    /** A larger table with the same jobs, their pointers relocated to it. */
    method Relocate(id: nat) returns (jp: array<Job>)
      ensures fresh(jp) && GrownFrom(tab[..], tabId, id, jp[..])
    {
      var unused := Job(false, Active, 0, false, false, Null, Proc(0, Running), Block([]));
      jp := new Job[tab.Length + 4](i => unused);
      for i := 0 to tab.Length
        invariant forall k :: 0 <= k < jp.Length ==> jp[k] == if k < i then Relocated(tab[k], tabId, id, k) else unused
      {
        jp[i] := tab[i].(next := Moved(tab[i].next, id), ps := if tab[i].ps == Own(To(tabId, i)) then Own(To(id, i))
            else tab[i].ps);
      }
    }

    /** Growth keeps job numbers, the order of the list and the background job. */
    method Grow()
      requires Valid() && forall i :: 0 <= i < tab.Length ==> tab[i].used
      modifies this
      ensures Valid() && fresh(tab) && tab.Length == old(tab.Length) + 4 && mru == old(mru)
      ensures Views(tab[..]) == old(Views(tab[..])) + [Free, Free, Free, Free]
      ensures bgjob == Moved(old(bgjob), tabId)
    {
      var id := tabId + 1;
      var jp := Relocate(id);
      GrownTable(tab[..], tabId, id, jp[..]);
      GrownLinked(tab[..], tabId, id, jp[..], jobmru, mru);
      hide Linked, TableFits, Views;
      assert BgFits(jp[..], id, Moved(bgjob, id));
      jobmru, bgjob := Moved(jobmru, id), Moved(bgjob, id);
      tab, tabId := jp, id;
    }

    /** makejob: the first free slot, or the first of a grown table. */
    method MakeJob(nprocs: nat) returns (i: nat)
      requires Valid()
      modifies this, tab
      ensures Valid() && (tab == old(tab) || fresh(tab)) && mru == old(mru) && bgjob == Moved(old(bgjob), tabId)
      ensures i < tab.Length == |Opened(old(Views(tab[..])))|
      ensures Views(tab[..]) == Opened(old(Views(tab[..])))[i := InUse(Active, [], if nprocs > 1 then nprocs
              else 1, false, false)]
      ensures Opened(old(Views(tab[..])))[i] == Free && forall k :: 0 <= k < i ==>
              Opened(old(Views(tab[..])))[k] != Free
      ensures old(AllRight(Views(tab[..]))) ==> AllRight(Views(tab[..]))
    {
      i := 0;
      while i < tab.Length && tab[i].used
        invariant i <= tab.Length && forall k :: 0 <= k < i ==> tab[k].used
        invariant unchanged(this) && unchanged(tab)
      {
        i := i + 1;
      }
      ghost var views := Views(tab[..]);
      assert forall k :: 0 <= k < i ==> views[k] != Free;
      if i == tab.Length {
        assert Free !in views;
        Grow();
      } else {
        assert views[i] == Free;
      }
      assert View(tab[i]) == Views(tab[..])[i] == Opened(views)[i] == Free;
      FreeSlotUnlisted(tab[..], tabId, jobmru, mru, i);
      var ps := if nprocs > 1 then Block(seq(nprocs, k => Proc(0, Running))) else Own(To(tabId, i));
      SetSlot(i, Job(true, Active, 0, false, false, Null, Proc(0, Running), ps));
    }

    /** Whether starting a background job lets go of the previous one. */
    predicate DropsBg()
      requires bgjob.To? ==> bgjob.index < tab.Length
      reads this, tab
    {
      bgjob.To? && tab[bgjob.index].state == Done && !tab[bgjob.index].remembered && !iflag
    }

    /** Whether that previous job is the very job the new process belongs to. */
    predicate DropsItself(i: nat, background: bool)
      requires bgjob.To? ==> bgjob.index < tab.Length
      reads this, tab
    {
      background && DropsBg() && bgjob.index == i
    }

    /** The slots once the previous background job has been let go. */
    ghost function WithoutBg(background: bool): seq<JobView>
      requires bgjob.To? ==> bgjob.index < tab.Length
      reads this, tab
    {
      if background && DropsBg() then Views(tab[..])[bgjob.index := Free] else Views(tab[..])
    }

    /** The parent side of forkshell: job i gets a running process.  The list and the background
        job are in order afterwards exactly when the job has not let go of itself.  Nothing is done
        about its recorded state, which is then right exactly when the job was still active. */
    method AddProcess(i: nat, pid: int, background: bool, foreground: bool)
      requires Valid() && i < tab.Length && tab[i].used && tab[i].nprocs < tab[i].Capacity() && pid > 0
      modifies this, tab
      ensures tab == old(tab) && tabId == old(tabId) && bgjob == if background then To(tabId, i) else old(bgjob)
      ensures Valid() <==> !old(DropsItself(i, background))
      ensures Valid() ==> Views(tab[..]) == Started(old(WithoutBg(background)), i, pid, foreground)
      ensures Valid() ==> mru == [i] + Without(old(if background && DropsBg() then Without(mru, bgjob.index) else mru),
              i)
      ensures Valid() && old(AllRight(Views(tab[..]))) ==> (AllRight(Views(tab[..])) <==> old(tab[i].state) == Active)
    {
      if DropsItself(i, background) {
        FreeJob(i);
        LaunchFreed(i, foreground);
        return;
      }
      ghost var views := Views(tab[..]);
      assert View(tab[i]) == views[i];
      hide JobTable.Valid, Right, AllRight, Without;
      LetGo(i, background);
      StartedRight(views, Views(tab[..]), i, pid, foreground);
      Launch(i, pid, foreground);
    }

    /** What is left of forkshell when the job has just been freed: a free slot becomes the current
        and the background job. */
    method LaunchFreed(i: nat, foreground: bool)
      requires i < tab.Length && Views(tab[..])[i] == Free
      modifies this, tab
      ensures !Valid() && tab == old(tab) && tabId == old(tabId) && bgjob == To(tabId, i)
    {
      assert View(tab[i]) == Views(tab[..])[i];
      bgjob := To(tabId, i);
      tab[i] := tab[i].(nprocs := tab[i].nprocs + 1, foreground := foreground, next := jobmru);
      jobmru := To(tabId, i);
    }

    /** A new background job replaces the previous one, which is freed if nobody needs it. */
    method LetGo(i: nat, background: bool)
      requires Valid() && i < tab.Length && tab[i].used && !DropsItself(i, background)
      modifies this, tab
      ensures Valid() && tab == old(tab) && tabId == old(tabId) && tab[i].used && tab[i].nprocs == old(tab[i].nprocs)
      ensures Views(tab[..]) == old(WithoutBg(background)) && View(tab[i]) == old(View(tab[i]))
      ensures mru == old(if background && DropsBg() then Without(mru, bgjob.index) else mru)
      ensures bgjob == if background then To(tabId, i) else old(bgjob)
    {
      ghost var views := Views(tab[..]);
      ListSize(tab[i], tabId, tab.Length, i);
      assert View(tab[i]) == views[i];
      if background {
        if DropsBg() {
          FreeJob(bgjob.index);
          assert View(tab[i]) == Views(tab[..])[i] == views[i];
          ListSize(tab[i], tabId, tab.Length, i);
        }
        bgjob := To(tabId, i);
      }
    }

    method Launch(i: nat, pid: int, foreground: bool)
      requires Valid() && i < tab.Length && tab[i].used && tab[i].nprocs < tab[i].Capacity() && pid > 0
      modifies this, tab
      ensures Valid() && tab == old(tab) && tabId == old(tabId) && bgjob == old(bgjob)
      ensures Views(tab[..]) == Started(old(Views(tab[..])), i, pid, foreground) && mru == [i] + Without(old(mru), i)
    {
      var j := tab[i];
      assert View(j) == Views(tab[..])[i];
      var j' := j.With(j.nprocs, Proc(pid, Running)).(nprocs := j.nprocs + 1, foreground := foreground);
      Launched(j, Proc(pid, Running), foreground);
      assert SlotFits(j, tabId, tab.Length, i);
      hide Linked, TableFits, Views, Right;
      SetSlot(i, j');
      SetCurJob(i);
    }

    /** dowait when there is no child to wait for: the job is recorded as done, whatever it runs. */
    method NoChild(i: nat)
      requires Valid() && i < tab.Length && tab[i].used
      modifies tab
      ensures Valid() && Views(tab[..]) == old(Views(tab[..]))[i := old(View(tab[i])).(state := Done)]
    {
      assert SlotFits(tab[i], tabId, tab.Length, i);
      SetSlot(i, tab[i].(state := Done));
    }

    /** restartjob: every stopped process runs again. */
    method RestartJob(i: nat)
      requires Valid() && i < tab.Length && tab[i].used && tab[i].nprocs > 0
      modifies this, tab
      ensures Valid() && tab == old(tab) && tabId == old(tabId) && bgjob == old(bgjob)
      ensures mru == if old(tab[i].state) == Done then old(mru) else [i] + Without(old(mru), i)
      ensures Views(tab[..]) == old(Views(tab[..]))[i := Restarted(old(View(tab[i])))]
      ensures old(AllRight(Views(tab[..]))) ==> AllRight(Views(tab[..]))
    {
      ghost var views := Views(tab[..]);
      assert View(tab[i]) == views[i];
      RestartedRight(views[i]);
      if tab[i].state == Done { return; }
      SetCurJob(i);
      var j := tab[i];
      assert SlotFits(j, tabId, tab.Length, i);
      var ps, any := Resume(j.List());
      ListReplaced(j, ps);
      hide Linked, TableFits, Views, Right;
      SetSlot(i, j.WithList(ps).(state := if any then Active else j.state));
    }

    /** The table-update part of dowait, for a report about pid; job is the one being waited for. */
    method DoWait(pid: int, report: Report, job: Ptr)
      requires Valid() && pid > 0 && (job.To? ==> job.table == tabId)
      modifies this, tab
      ensures Valid() && tab == old(tab) && tabId == old(tabId) && bgjob == old(bgjob)
      ensures Views(tab[..]) == ReportedAll(old(Views(tab[..])), pid, report, job, old(bgjob), iflag, tab.Length)
      ensures mru == Left(old(mru), old(Views(tab[..])), pid, report, job, tab.Length)
      ensures old(AllRight(Views(tab[..]))) ==> AllRight(Views(tab[..]))
    {
      ghost var vs := Views(tab[..]);
      if AllRight(vs) { ReportedAllRight(vs, pid, report, job, bgjob, iflag, tab.Length); }
      hide JobTable.Valid, Reported, Completes, Without;
      for i := 0 to tab.Length
        invariant Valid() && tab == old(tab) && tabId == old(tabId) && bgjob == old(bgjob)
        invariant Views(tab[..]) == ReportedAll(vs, pid, report, job, bgjob, iflag, i)
        invariant mru == Left(old(mru), vs, pid, report, job, i)
      {
        assert View(tab[i]) == Views(tab[..])[i] == vs[i];
        WaitSlot(i, pid, report, job);
        ReportedOneMore(vs, pid, report, job, bgjob, iflag, i);
      }
    }

    method WaitSlot(i: nat, pid: int, report: Report, job: Ptr)
      requires Valid() && i < tab.Length && pid > 0 && (job.To? ==> job.table == tabId)
      modifies this, tab
      ensures Valid() && tab == old(tab) && tabId == old(tabId) && bgjob == old(bgjob)
      ensures Views(tab[..]) == old(Views(tab[..]))[i := Reported(old(View(tab[i])), pid, report, Names(job, i),
              Names(bgjob, i), iflag)]
      ensures mru == if Completes(old(View(tab[i])), pid, report) && !Names(job, i) then Without(old(mru), i)
              else old(mru)
    {
      var jp := tab[i];
      assert SlotFits(jp, tabId, tab.Length, i);
      if !jp.used || jp.nprocs == 0 { return; }
      var j, completed := NoteJob(jp, pid, report);
      SetSlot(i, j);
      hide Linked, TableFits, Completes, Expected, Noted;
      if completed && job != To(tabId, i) {
        if !jp.remembered && !iflag && bgjob != To(tabId, i) {
          FreeJob(i);
        } else {
          DelJob(i);
        }
      }
    }

    /** getcurjob: the most recently used job other than nj, stopped ones first. */
    method GetCurJob(nj: Ptr) returns (r: Ptr)
      requires Valid() && (nj.To? ==> nj.table == tabId)
      ensures r.Null? <==> forall k :: 0 <= k < |mru| ==> Names(nj, mru[k])
      ensures r.To? ==> r.table == tabId && !Names(nj, r.index) && exists p :: 0 <= p < |mru| && mru[p] == r.index
                                                                               && BestChoice(tab[..], mru, nj, p)
    {
      ListRange(tab[..], tabId, jobmru, mru);
      var jp := jobmru;
      ghost var k := 0;
      while jp != Null
        invariant k <= |mru| && jp == At(tabId, mru, k) && forall q :: 0 <= q < k ==> Names(nj, mru[q])
                                                                                      || tab[mru[q]].state != AllStopped
        decreases |mru| - k
      {
        ListEntry(tab[..], tabId, jobmru, mru, k);
        if tab[jp.index].used && jp != nj && tab[jp.index].state == AllStopped {
          assert BestChoice(tab[..], mru, nj, k);
          return jp;
        }
        jp := tab[jp.index].next;
        k := k + 1;
      }
      jp, k := jobmru, 0;
      while jp != Null
        invariant k <= |mru| && jp == At(tabId, mru, k) && forall q :: 0 <= q < k ==> Names(nj, mru[q])
        decreases |mru| - k
      {
        ListEntry(tab[..], tabId, jobmru, mru, k);
        if tab[jp.index].used && jp != nj {
          assert BestChoice(tab[..], mru, nj, k);
          return jp;
        }
        jp := tab[jp.index].next;
        k := k + 1;
      }
      r := Null;
    }
  }

  /** Entry p of the list is the first stopped job other than nj, or the first other job when none is stopped. */
  ghost predicate BestChoice(jobs: seq<Job>, mru: seq<nat>, nj: Ptr, p: nat)
    requires p < |mru|
  {
    (forall k :: 0 <= k < |mru| ==> mru[k] < |jobs|) &&
    if jobs[mru[p]].state == AllStopped then
      forall q :: 0 <= q < p ==> Names(nj, mru[q]) || jobs[mru[q]].state != AllStopped
    else
      && (forall q :: 0 <= q < |mru| ==> Names(nj, mru[q]) || jobs[mru[q]].state != AllStopped)
      && (forall q :: 0 <= q < p ==> Names(nj, mru[q]))
  }

  /** A job's processes and state after a report. */
  method NoteJob(jp: Job, pid: int, report: Report) returns (j: Job, completed: bool)
    requires jp.used && 0 < jp.nprocs <= jp.Capacity() && pid > 0
    ensures j.used && j.next == jp.next && j.nprocs == jp.nprocs <= j.Capacity()
    ensures j.ps.Own? == jp.ps.Own? && (j.ps.Own? ==> j.ps == jp.ps)
    ensures View(j) == InUse(NotedState(View(jp), pid, report), Noted(jp.List(), pid, report), jp.Capacity(),
            jp.remembered, jp.foreground)
    ensures completed == Completes(View(jp), pid, report)
  {
    var ps, stopped, done, continued := Note(jp.List(), pid, report);
    var state := if continued then Active else jp.state;
    StateFollows(jp.List(), pid, report);
    ListReplaced(jp, ps);
    completed := false;
    if stopped {
      var now := if done then Done else AllStopped;
      completed := now != state && done;
      state := now;
    }
    j := jp.WithList(ps).(state := state);
  }

  /** A report cannot start a process, except by telling that one goes on. */
  lemma StateFollows(list: seq<Proc>, pid: int, report: Report)
    requires pid > 0
    ensures var ps, continued := Noted(list, pid, report), report == Continued && Concerns(list, pid);
            (SomeRunning(ps) ==> continued || SomeRunning(list)) && (continued ==> SomeRunning(ps))
  {
    var ps := Noted(list, pid, report);
    if report == Continued && Concerns(list, pid) {
      var i :| 0 <= i < |list| && list[i].pid == pid && !list[i].status.Ended?;
      assert ps[i].pid != -1 && ps[i].status.Running?;
    } else if SomeRunning(ps) {
      var i :| 0 <= i < |ps| && ps[i].pid != -1 && ps[i].status.Running?;
      assert list[i].pid != -1 && list[i].status.Running?;
    }
  }

  /** A run that ends with a job recorded as done although one of its processes is running: the
      report that its first process has ended comes before the second is launched. */
  method LaunchAfterReport() returns (s: JobTable, i: nat)
    ensures fresh(s) && s.Valid() && i < s.tab.Length && !AllRight(Views(s.tab[..]))
    ensures View(s.tab[i]) == InUse(Done, [Proc(7, Ended(0)), Proc(8, Running)], 2, false, true)
  {
    hide Linked, BgFits, Without, Left, Reported, Right, Expected, Opened;
    s := new JobTable(false);
    i := s.MakeJob(2);
    assert View(s.tab[i]) == Views(s.tab[..])[i] == InUse(Active, [], 2, false, false);
    ListSize(s.tab[i], s.tabId, s.tab.Length, i);
    s.AddProcess(i, 7, false, true);
    ghost var v := Views(s.tab[..])[i];
    assert v == InUse(Active, [Proc(7, Running)], 2, false, true);
    EndsJob(v, 7, 0);
    s.DoWait(7, End(0), To(s.tabId, i));
    assert View(s.tab[i]) == Views(s.tab[..])[i] == InUse(Done, [Proc(7, Ended(0))], 2, false, true);
    ListSize(s.tab[i], s.tabId, s.tab.Length, i);
    s.AddProcess(i, 8, false, true);
  }

  /** A run that puts a free slot on the list: the second process of a background job is launched after
      its first has ended, so the launch lets go of the job it is for. */
  method LaunchLetsGo() returns (s: JobTable, i: nat)
    ensures fresh(s) && !s.Valid() && s.bgjob == To(s.tabId, i)
  {
    hide Linked, BgFits, Without, Left, Reported, Right, Expected, Opened;
    s := new JobTable(false);
    i := s.MakeJob(2);
    assert View(s.tab[i]) == Views(s.tab[..])[i] == InUse(Active, [], 2, false, false);
    ListSize(s.tab[i], s.tabId, s.tab.Length, i);
    s.AddProcess(i, 7, true, false);
    ghost var v := Views(s.tab[..])[i];
    assert v == InUse(Active, [Proc(7, Running)], 2, false, false);
    EndsBgJob(v, 7, 0);
    s.DoWait(7, End(0), Null);
    assert View(s.tab[i]) == Views(s.tab[..])[i] == InUse(Done, [Proc(7, Ended(0))], 2, false, false);
    ListSize(s.tab[i], s.tabId, s.tab.Length, i);
    s.AddProcess(i, 8, true, false);
  }

  lemma EndsBgJob(v: JobView, pid: int, code: int)
    requires v.InUse? && v.procs == [Proc(pid, Running)] && v.state == Active
    ensures Reported(v, pid, End(code), false, true, false) == v.(procs := [Proc(pid, Ended(code))], state := Done)
  {
    assert Noted(v.procs, pid, End(code)) == [Proc(pid, Ended(code))];
  }

  /** The end of its only process completes a job that is waited for. */
  lemma EndsJob(v: JobView, pid: int, code: int)
    requires v.InUse? && v.procs == [Proc(pid, Running)] && v.state == Active
    ensures Reported(v, pid, End(code), true, false, false) == v.(procs := [Proc(pid, Ended(code))], state := Done)
  {
    assert Noted(v.procs, pid, End(code)) == [Proc(pid, Ended(code))];
  }

  function Resumed(ps: seq<Proc>): (r: seq<Proc>)
    ensures |r| == |ps|
  {
    seq(|ps|, i requires 0 <= i < |ps| => if ps[i].status.Stopped? then ps[i].(status := Running) else ps[i])
  }

  predicate AnyStopped(ps: seq<Proc>) { exists k :: 0 <= k < |ps| && ps[k].status.Stopped? }

  method Resume(ps: seq<Proc>) returns (r: seq<Proc>, any: bool)
    ensures r == Resumed(ps) && any == AnyStopped(ps)
  {
    r, any := ps, false;
    for i := 0 to |ps|
      invariant |r| == |ps| && forall k :: 0 <= k < |ps| ==> r[k] == if k < i then Resumed(ps)[k] else ps[k]
      invariant any == exists k :: 0 <= k < i && ps[k].status.Stopped?
    {
      if r[i].status.Stopped? {
        r := r[i := r[i].(status := Running)];
        any := true;
      }
    }
  }

  /** A job that is to go on: no stopped process is left, and if there was one it is active. */
  function Restarted(v: JobView): JobView
    requires v.InUse?
  {
    if v.state == Done then v
    else v.(state := if AnyStopped(v.procs) then Active else v.state, procs := Resumed(v.procs))
  }

  lemma RestartedRight(v: JobView)
    requires v.InUse?
    ensures Right(v) ==> Right(Restarted(v))
  {
    if Right(v) && v.procs != [] && v.state != Done {
      var i :| 0 <= i < |v.procs| && v.procs[i].pid != -1 && !v.procs[i].status.Ended?;
      assert Resumed(v.procs)[i].pid != -1 && Resumed(v.procs)[i].status.Running?;
      if v.state == AllStopped { assert AnyStopped(v.procs); }
    }
  }

  lemma ListSize(j: Job, id: nat, n: nat, i: nat)
    requires SlotFits(j, id, n, i)
    ensures j.used ==> View(j).InUse? && |View(j).procs| == j.nprocs && View(j).capacity == j.Capacity()
  {
  }

  lemma ListReplaced(j: Job, list: seq<Proc>)
    requires |list| == j.nprocs <= j.Capacity()
    ensures j.WithList(list).List() == list && j.WithList(list).Capacity() == j.Capacity()
  {
  }

  /** A launched process makes its job active, so the recorded state is right exactly when it says
      active. */
  lemma Launched(j: Job, p: Proc, foreground: bool)
    requires j.nprocs < j.Capacity() && p.pid != -1 && p.status == Running
    ensures var j' := j.With(j.nprocs, p).(nprocs := j.nprocs + 1, foreground := foreground);
            && j'.List() == j.List() + [p] && j'.Capacity() == j.Capacity()
            && (j.used ==> (Right(View(j')) <==> j.state == Active))
  {
    OneMore(j.List(), p);
  }

  /** The slots once job i has one more process. */
  function Started(vs: seq<JobView>, i: nat, pid: int, foreground: bool): seq<JobView>
    requires i < |vs| && vs[i].InUse?
  {
    vs[i := vs[i].(procs := vs[i].procs + [Proc(pid, Running)], foreground := foreground)]
  }

  lemma StartedRight(vs: seq<JobView>, rest: seq<JobView>, i: nat, pid: int, foreground: bool)
    requires |rest| == |vs| && i < |vs| && rest[i] == vs[i] && vs[i].InUse? && pid > 0
    requires forall k :: 0 <= k < |vs| ==> rest[k] == vs[k] || rest[k] == Free
    ensures AllRight(vs) ==> (AllRight(Started(rest, i, pid, foreground)) <==> vs[i].state == Active)
  {
    OneMore(vs[i].procs, Proc(pid, Running));
    var vs' := Started(rest, i, pid, foreground);
    assert Right(vs'[i]) <==> vs[i].state == Active;
  }

  /** A job can be put on the list exactly when it is in use; a launch that has just let go of its
      own job makes the list run through a free slot. */
  lemma PushExact(jobs: seq<Job>, id: nat, head: Ptr, mru: seq<nat>, i: nat)
    requires Linked(jobs, id, head, mru) && i < |jobs| && i !in mru
    ensures Linked(jobs[i := jobs[i].(next := head)], id, To(id, i), [i] + mru) <==> jobs[i].used
  {
    if jobs[i].used {
      PushLinked(jobs, id, head, mru, i);
    } else {
      assert !LinkFits(jobs[i := jobs[i].(next := head)], id, [i] + mru, 0);
    }
  }

  /** The slots makejob chooses from. */
  function Opened(vs: seq<JobView>): (r: seq<JobView>)
    ensures |r| >= |vs| && |r| > 0
  {
    if Free in vs then vs else vs + [Free, Free, Free, Free]
  }

  lemma FreeSlotUnlisted(jobs: seq<Job>, id: nat, head: Ptr, mru: seq<nat>, i: nat)
    requires Linked(jobs, id, head, mru) && i < |jobs| && !jobs[i].used
    ensures i !in mru
  {
    ListRange(jobs, id, head, mru);
  }
}
