/** What a report from wait does to the job table: to each process, to each job's state, to the
    slots and to the list of recently used jobs. */
module JobsLaws {
  import opened Jobs

  /** The table after a report about pid, while job is waited for. */
  function After(vs: seq<JobView>, pid: int, report: Report, job: Ptr, bg: Ptr, iflag: bool): (r: seq<JobView>)
    ensures |r| == |vs|
  {
    ReportedAll(vs, pid, report, job, bg, iflag, |vs|)
  }

  /** A live process with the pid of the report. */
  predicate Hit(p: Proc, pid: int) { p.pid == pid && !p.status.Ended? }

  /** The process is there no more once the report is in. */
  predicate Over(p: Proc, pid: int, report: Report) {
    p.pid == -1 || p.status.Ended? || (p.pid == pid && report.End?)
  }

  /** A job whose last process the report ends. */
  ghost predicate Finishes(v: JobView, pid: int, report: Report) {
    v.InUse? && v.procs != [] && v.state != Done && forall k :: 0 <= k < |v.procs| ==> Over(v.procs[k], pid, report)
  }

  /** The state that processes make a job have. */
  ghost predicate StateIs(state: JobState, ps: seq<Proc>) {
    && (state == Active <==> exists k :: 0 <= k < |ps| && ps[k].pid != -1 && ps[k].status.Running?)
    && (state == Done <==> forall k :: 0 <= k < |ps| ==> ps[k].pid == -1 || ps[k].status.Ended?)
  }

  lemma StateIsExpected(state: JobState, ps: seq<Proc>)
    ensures StateIs(state, ps) <==> state == Expected(ps)
  {
    if Expected(ps) == Done {
      forall k | 0 <= k < |ps| ensures ps[k].pid == -1 || ps[k].status.Ended? {
        assert !(ps[k].pid != -1 && ps[k].status.Running?) && !(ps[k].pid != -1 && ps[k].status.Stopped?);
      }
    }
  }

  /** Every live process with the pid takes the reported status, and no other process changes. */
  lemma ReportedProcesses(vs: seq<JobView>, pid: int, report: Report, job: Ptr, bg: Ptr, iflag: bool, i: nat)
    requires i < |vs| && vs[i].InUse? && vs[i].procs != []
    ensures var v, v' := vs[i], After(vs, pid, report, job, bg, iflag)[i];
            v'.InUse? ==>
              && |v'.procs| == |v.procs| && v'.capacity == v.capacity
              && v'.remembered == v.remembered && v'.foreground == v.foreground
              && forall k :: 0 <= k < |v.procs| ==>
                   v'.procs[k] == if Hit(v.procs[k], pid)
                     then Proc(pid, if report.Continued? then Running else if report.Stop? then Stopped(report.sig)
                                    else Ended(report.code))
                     else v.procs[k]
  {
  }

  /** The state of a job follows its processes: if it did before the report it does after it. */
  lemma ReportedStates(vs: seq<JobView>, pid: int, report: Report, job: Ptr, bg: Ptr, iflag: bool, i: nat)
    requires i < |vs| && pid > 0 && vs[i].InUse? && vs[i].procs != [] && StateIs(vs[i].state, vs[i].procs)
    ensures var v' := After(vs, pid, report, job, bg, iflag)[i]; v'.InUse? ==> StateIs(v'.state, v'.procs)
  {
    hide StateIs, Expected, Reported;
    var v := vs[i];
    ReportedRight(v, pid, report, Names(job, i), Names(bg, i), iflag);
    StateIsExpected(v.state, v.procs);
    var v' := After(vs, pid, report, job, bg, iflag)[i];
    assert v' == Reported(v, pid, report, Names(job, i), Names(bg, i), iflag);
    if v'.InUse? {
      StillHas(v, pid, report, Names(job, i), Names(bg, i), iflag);
      StateIsExpected(v'.state, v'.procs);
    }
  }

  lemma StillHas(v: JobView, pid: int, report: Report, waited: bool, bg: bool, iflag: bool)
    requires v.InUse? && v.procs != []
    ensures var v' := Reported(v, pid, report, waited, bg, iflag); v'.InUse? ==> v'.procs != []
  {
  }

  lemma CompletesMeans(v: JobView, pid: int, report: Report)
    requires pid > 0
    ensures Completes(v, pid, report) <==> Finishes(v, pid, report)
  {
    if v.InUse? {
      var ps := Noted(v.procs, pid, report);
      StateIsExpected(Done, ps);
      if Expected(ps) == Done {
        forall k | 0 <= k < |v.procs| ensures Over(v.procs[k], pid, report) {
          assert ps[k].pid == -1 || ps[k].status.Ended?;
        }
      } else if Finishes(v, pid, report) {
        forall k | 0 <= k < |ps| ensures ps[k].pid == -1 || ps[k].status.Ended? {
          assert Over(v.procs[k], pid, report);
        }
      }
    }
  }

  /** A slot becomes free exactly when its last process ends and nobody waits for the job, remembers
      it or needs it as the background job, in a shell that is not interactive. */
  lemma ReportedFrees(vs: seq<JobView>, pid: int, report: Report, job: Ptr, bg: Ptr, iflag: bool, i: nat)
    requires i < |vs| && pid > 0
    ensures After(vs, pid, report, job, bg, iflag)[i] == Free <==>
            vs[i] == Free ||
            (Finishes(vs[i], pid, report) && !iflag && !vs[i].remembered
             && !(job.To? && job.index == i) && !(bg.To? && bg.index == i))
  {
    hide Finishes;
    CompletesMeans(vs[i], pid, report);
  }

  lemma {:induction false} WithoutMembers(s: seq<nat>, x: nat, y: nat)
    ensures y in Without(s, x) <==> y in s && y != x
  {
    if s != [] {
      WithoutMembers(s[1..], x, y);
      assert y in s <==> y == s[0] || y in s[1..];
    }
  }

  /** A job leaves the list of recently used jobs exactly when its last process ends and it is not
      the one waited for. */
  lemma {:induction false} ReportedList(mru: seq<nat>, vs: seq<JobView>, pid: int, report: Report, job: Ptr, n: nat,
                                        i: nat)
    requires n <= |vs| && pid > 0
    ensures i in Left(mru, vs, pid, report, job, n) <==>
            i in mru && !(i < n && Finishes(vs[i], pid, report) && !(job.To? && job.index == i))
    decreases n
  {
    hide Finishes, Completes;
    if n > 0 {
      ReportedList(mru, vs, pid, report, job, n - 1, i);
      CompletesMeans(vs[n - 1], pid, report);
      WithoutMembers(Left(mru, vs, pid, report, job, n - 1), n - 1, i);
    }
  }

  /** Entries p and q of s are, in this order, entries of t. */
  ghost predicate InOrder(s: seq<nat>, t: seq<nat>, p: nat, q: nat) {
    p < q < |s| ==> exists a, b :: 0 <= a < b < |t| && t[a] == s[p] && t[b] == s[q]
  }

  lemma OrderKept(s: seq<nat>, p: nat, q: nat)
    ensures InOrder(s, s, p, q)
  {
    if p < q < |s| {
      var x, y := s[p], s[q];
      assert 0 <= p < q < |s| && s[p] == x && s[q] == y;
    }
  }

  /** The others keep their order. */
  lemma {:induction false} ReportedOrder(mru: seq<nat>, vs: seq<JobView>, pid: int, report: Report, job: Ptr, n: nat,
                                         p: nat, q: nat)
    requires n <= |vs|
    ensures InOrder(Left(mru, vs, pid, report, job, n), mru, p, q)
    decreases n
  {
    hide Completes;
    if n > 0 {
      var m := Left(mru, vs, pid, report, job, n - 1);
      WithoutOrder(m, n - 1, p, q);
      var s := Left(mru, vs, pid, report, job, n);
      if p < q < |s| {
        var a, b :| 0 <= a < b < |m| && m[a] == s[p] && m[b] == s[q];
        ReportedOrder(mru, vs, pid, report, job, n - 1, a, b);
      }
    } else {
      OrderKept(mru, p, q);
    }
  }

  lemma {:induction false} WithoutOrder(s: seq<nat>, x: nat, p: nat, q: nat)
    ensures InOrder(Without(s, x), s, p, q) && InOrder(s, s, p, q)
  {
    var w := Without(s, x);
    OrderKept(s, p, q);
    if p < q < |w| {
      if s[0] != x && p == 0 {
        WithoutMembers(s[1..], x, w[q]);
        assert w[q] == Without(s[1..], x)[q - 1];
        var b :| 0 <= b < |s[1..]| && s[1..][b] == w[q];
        assert s[0] == w[0] && s[b + 1] == w[q];
      } else {
        var d := if s[0] == x then 0 else 1;
        WithoutOrder(s[1..], x, p - d, q - d);
        var a, b :| 0 <= a < b < |s[1..]| && s[1..][a] == w[p] && s[1..][b] == w[q];
        assert s[a + 1] == w[p] && s[b + 1] == w[q];
      }
    }
  }

  // ---------------------------------------------------------------- jobs of one process

  /** A stop report leaves a job of one process stopped by that signal, whoever waits. */
  lemma StopsJob(v: JobView, pid: int, sig: int, waited: bool, bg: bool, iflag: bool)
    requires v.InUse? && v.procs == [Proc(pid, Running)] && v.state == Active && pid > 0
    ensures Reported(v, pid, Stop(sig), waited, bg, iflag) ==
            v.(procs := [Proc(pid, Stopped(sig))], state := AllStopped)
  {
    var ps := Noted(v.procs, pid, Stop(sig));
    assert ps == [Proc(pid, Stopped(sig))];
    assert ps[0].status.Stopped?;
  }

  /** A report that it goes on leaves it running and active. */
  lemma ContinuesJob(v: JobView, pid: int, sig: int, waited: bool, bg: bool, iflag: bool)
    requires v.InUse? && v.procs == [Proc(pid, Stopped(sig))] && v.state == AllStopped && pid > 0
    ensures Reported(v, pid, Continued, waited, bg, iflag) == v.(procs := [Proc(pid, Running)], state := Active)
  {
    var ps := Noted(v.procs, pid, Continued);
    assert ps == [Proc(pid, Running)];
    assert ps[0].status.Running? && Hit(v.procs[0], pid);
  }

  /** Restarting a job that is not done leaves no process stopped, makes every stopped one run,
      touches no other, and makes the job active if it had one. */
  lemma RestartMeans(v: JobView)
    requires v.InUse? && v.state != Done
    ensures var v' := Restarted(v);
            && v'.InUse? && |v'.procs| == |v.procs| && v'.capacity == v.capacity
            && v'.remembered == v.remembered && v'.foreground == v.foreground
            && (forall k :: 0 <= k < |v.procs| ==>
                  v'.procs[k] == if v.procs[k].status.Stopped? then Proc(v.procs[k].pid, Running) else v.procs[k])
            && ((exists k :: 0 <= k < |v.procs| && v.procs[k].status.Stopped?) ==> v'.state == Active)
            && ((forall k :: 0 <= k < |v.procs| ==> !v.procs[k].status.Stopped?) ==> v' == v)
  {
    if forall k :: 0 <= k < |v.procs| ==> !v.procs[k].status.Stopped? {
      assert Resumed(v.procs) == v.procs;
    }
  }
}
