/** Redirections and their undo stack (sh/redir.c).

    A descriptor table maps each open descriptor to the file it refers to.  Opening a file and
    duplicating a descriptor take the lowest free number, and fail at the process's limit. */
module Redir {
  import opened Wrappers

  const EMPTY: int := -2
  const CLOSED: int := -1

  type Fd = n: int | 0 <= n < 10
  type DupFd = n: int | n < 10
  type Fds = map<nat, nat>

  /** One redirection: a file to open (nothing when opening fails), or a descriptor to duplicate
      (negative to close). */
  datatype Redirection = OpenFile(fd: Fd, file: Option<nat>) | Duplicate(fd: Fd, dupfd: DupFd)

  /** Where the ten low descriptors were saved. */
  type Renamed = r: seq<int> | |r| == 10 witness seq(10, _ => EMPTY)

  /** struct redirtab, linked through next. */
  datatype RedirList = Nil | Tab(renamed: Renamed, fd0Redirected: bool, emptyRedirs: nat, next: RedirList)

  // ---------------------------------------------------------------- the plain stack

  /** A frame that saved nothing, or one that saved descriptors. */
  datatype Frame = EmptyFrame | Saved(renamed: Renamed, fd0Redirected: bool)

  function Repeat(n: nat): (s: seq<Frame>)
    ensures |s| == n && forall i :: 0 <= i < n ==> s[i] == EmptyFrame
  {
    seq(n, i => EmptyFrame)
  }

  /** The stack of frames, bottom first, that a list and a count of unallocated frames stand for. */
  function Frames(list: RedirList, empties: nat): seq<Frame> {
    match list
    case Nil => Repeat(empties)
    case Tab(renamed, fd0, below, next) => Frames(next, below) + [Saved(renamed, fd0)] + Repeat(empties)
  }

  lemma FramesPushEmpty(list: RedirList, n: nat)
    ensures Frames(list, n + 1) == Frames(list, n) + [EmptyFrame]
  {
    assert Repeat(n + 1) == Repeat(n) + [EmptyFrame];
  }

  // ---------------------------------------------------------------- what a frame restores

  /** What a pushed list must bring back. */
  datatype Snapshot = Snapshot(fds: Fds, fd0Redirected: bool)

  predicate SameAt(a: Fds, b: Fds, x: nat) { (x in a <==> x in b) && (x in a ==> a[x] == b[x]) }

  /** Descriptor fd of snap, as saved in the table cur. */
  predicate SavedAt(renamed: Renamed, snap: Fds, cur: Fds, fd: nat)
    requires fd < 10
  {
    if renamed[fd] == EMPTY then SameAt(cur, snap, fd)
    else if renamed[fd] == CLOSED then fd !in snap
    else
      && renamed[fd] >= 10 && renamed[fd] as nat in cur && renamed[fd] as nat !in snap && fd in snap
      && cur[renamed[fd] as nat] == snap[fd]
  }

  ghost predicate Unsaved(renamed: Renamed, i: nat, x: nat) {
    forall fd :: i <= fd < 10 ==> renamed[fd] != x
  }

  ghost predicate Distinct(renamed: Renamed) {
    forall a, b :: 0 <= a < b < 10 && renamed[a] >= 0 ==> renamed[a] != renamed[b]
  }

  /** Descriptors below i are back, the others are as saved, and no high descriptor is in the way. */
  ghost predicate RestoredTo(renamed: Renamed, snap: Fds, cur: Fds, i: nat) {
    && Distinct(renamed)
    && (forall fd :: 0 <= fd < i && fd < 10 ==> SameAt(cur, snap, fd))
    && (forall fd :: i <= fd < 10 ==> SavedAt(renamed, snap, cur, fd))
    && (forall x :: x >= 10 && Unsaved(renamed, i, x) ==> SameAt(cur, snap, x))
  }

  ghost predicate FrameFits(f: Frame, snap: Snapshot, cur: Snapshot) {
    if f.EmptyFrame? then cur == snap
    else RestoredTo(f.renamed, snap.fds, cur.fds, 0) && f.fd0Redirected == snap.fd0Redirected
  }

  /** Each frame takes the table above it back to its snapshot. */
  ghost predicate StackFits(frames: seq<Frame>, snaps: seq<Snapshot>, cur: Snapshot) {
    |frames| == |snaps| && forall i :: 0 <= i < |frames| ==> FrameAt(frames, snaps, cur, i)
  }

  ghost predicate FrameAt(frames: seq<Frame>, snaps: seq<Snapshot>, cur: Snapshot, i: nat)
    requires i < |frames| == |snaps|
  {
    FrameFits(frames[i], snaps[i], if i + 1 < |snaps| then snaps[i + 1] else cur)
  }

  /** Undoing one descriptor. */
  function UndoneAt(renamed: Renamed, cur: Fds, i: nat): Fds
    requires i < 10
    requires renamed[i] >= 0 ==> renamed[i] as nat in cur
  {
    if renamed[i] == EMPTY then cur
    else if renamed[i] >= 0 then cur[i := cur[renamed[i] as nat]] - {renamed[i] as nat}
    else cur - {i}
  }

  lemma UndoStep(renamed: Renamed, snap: Fds, cur: Fds, i: nat)
    requires RestoredTo(renamed, snap, cur, i) && i < 10
    ensures renamed[i] >= 0 ==> renamed[i] as nat in cur
    ensures RestoredTo(renamed, snap, UndoneAt(renamed, cur, i), i + 1)
  {
    assert SavedAt(renamed, snap, cur, i);
    var next := UndoneAt(renamed, cur, i);
    forall fd | 0 <= fd < i + 1 ensures SameAt(next, snap, fd) {
      assert fd == i || SameAt(cur, snap, fd);
    }
    forall fd | i + 1 <= fd < 10 ensures SavedAt(renamed, snap, next, fd) {
      assert SavedAt(renamed, snap, cur, fd);
    }
    forall x | x >= 10 && Unsaved(renamed, i + 1, x) ensures SameAt(next, snap, x) {
      if renamed[i] != x {
        forall fd | i <= fd < 10 ensures renamed[fd] != x { }
        assert Unsaved(renamed, i, x);
      }
    }
  }

  lemma AllRestored(renamed: Renamed, snap: Fds, cur: Fds)
    requires RestoredTo(renamed, snap, cur, 10)
    ensures cur == snap
  {
    forall x: nat ensures SameAt(cur, snap, x) {
      if x >= 10 { assert Unsaved(renamed, 10, x); }
    }
    assert forall x :: x in cur ==> SameAt(cur, snap, x);
    assert forall x :: x in snap ==> SameAt(cur, snap, x);
  }

  // ---------------------------------------------------------------- saving and redirecting

  /** A free high descriptor is one the snapshot does not have. */
  lemma FreeIsNew(renamed: Renamed, snap: Fds, cur: Fds, s: nat)
    requires RestoredTo(renamed, snap, cur, 0) && s >= 10 && s !in cur
    ensures s !in snap && Unsaved(renamed, 0, s)
  {
    forall fd | 0 <= fd < 10 ensures renamed[fd] != s { assert SavedAt(renamed, snap, cur, fd); }
    assert Unsaved(renamed, 0, s);
  }

  /** Descriptor fd saved as s, either CLOSED or a free high descriptor. */
  lemma SaveStep(renamed: Renamed, snap: Fds, cur: Fds, fd: Fd, s: int)
    requires RestoredTo(renamed, snap, cur, 0) && renamed[fd] == EMPTY
    requires if fd in cur then s >= 10 && s as nat !in cur else s == CLOSED
    ensures RestoredTo(renamed[fd := s], snap, if fd in cur then cur[s as nat := cur[fd]] else cur, 0)
  {
    var renamed', cur' := renamed[fd := s], if fd in cur then cur[s as nat := cur[fd]] else cur;
    assert SavedAt(renamed, snap, cur, fd);
    if fd in cur { FreeIsNew(renamed, snap, cur, s); }
    forall x | 0 <= x < 10 ensures SavedAt(renamed', snap, cur', x) {
      assert SavedAt(renamed, snap, cur, x);
    }
    forall x | x >= 10 && Unsaved(renamed', 0, x) ensures SameAt(cur', snap, x) {
      assert renamed'[fd] != x;
      forall g | 0 <= g < 10 ensures renamed[g] != x { assert renamed'[g] != x; }
      assert Unsaved(renamed, 0, x);
    }
  }

  /** A saved descriptor may be given any file or be closed. */
  lemma RedirectStep(renamed: Renamed, snap: Fds, cur: Fds, fd: Fd, cur': Fds)
    requires RestoredTo(renamed, snap, cur, 0) && renamed[fd] != EMPTY
    requires forall x: nat :: x != fd ==> SameAt(cur', cur, x)
    ensures RestoredTo(renamed, snap, cur', 0)
  {
    forall x: nat | x < 10 ensures SavedAt(renamed, snap, cur', x) {
      assert SavedAt(renamed, snap, cur, x);
      if renamed[x] >= 0 { assert SameAt(cur', cur, renamed[x] as nat); }
      if x != fd { assert SameAt(cur', cur, x); }
    }
    forall x: nat | x >= 10 && Unsaved(renamed, 0, x) ensures SameAt(cur', snap, x) {
      assert SameAt(cur', cur, x) && SameAt(cur, snap, x);
    }
  }

  // ---------------------------------------------------------------- what a list does

  /** The low descriptors agree. */
  ghost predicate LowSame(a: Fds, b: Fds) { forall x: nat :: x < 10 ==> SameAt(a, b, x) }

  /** The descriptors, and which of them stand for output collected in memory. */
  datatype Outcome = Outcome(fds: Fds, memory: seq<bool>)

  /** One successful redirection. */
  function Effect(o: Outcome, r: Redirection): (o': Outcome)
    requires |o.memory| == 10
    ensures |o'.memory| == 10
  {
    var memory := o.memory[r.fd := false];
    match r
    case OpenFile(fd, file) => if file.Some? then Outcome(o.fds[fd as nat := file.value], memory) else o
    case Duplicate(fd, dupfd) =>
      if dupfd == fd then o
      else if dupfd < 0 then Outcome(o.fds - {fd as nat}, memory)
      else if memory[dupfd] then Outcome(o.fds, memory[fd := true])
      else if dupfd as nat in o.fds then Outcome(o.fds[fd as nat := o.fds[dupfd as nat]], memory)
      else o
  }

  /** A file that cannot be opened, or a closed descriptor to duplicate. */
  predicate Fails(o: Outcome, r: Redirection)
    requires |o.memory| == 10
  {
    match r
    case OpenFile(_, file) => file.None?
    case Duplicate(fd, dupfd) => dupfd >= 0 && dupfd != fd && !o.memory[dupfd] && dupfd as nat !in o.fds
  }

  /** All descriptors below the limit are open, or all from 10 on. */
  ghost predicate Exhausted(fds: Fds, limit: nat) {
    (forall x: nat :: x < limit ==> x in fds) || (forall x: nat :: 10 <= x < limit ==> x in fds)
  }

  lemma FailsLow(a: Fds, b: Fds, memory: seq<bool>, r: Redirection)
    requires LowSame(a, b) && |memory| == 10
    ensures Fails(Outcome(a, memory), r) == Fails(Outcome(b, memory), r)
  {
    if r.Duplicate? && r.dupfd >= 0 { assert SameAt(a, b, r.dupfd as nat); }
  }

  lemma SizeWith(fds: Fds, x: nat, file: nat)
    ensures |fds[x := file]| <= |fds| + 1 && |fds - {x}| <= |fds| && (x in fds ==> |fds - {x}| + 1 == |fds|)
  {
    assert fds[x := file].Keys == fds.Keys + {x} && (fds - {x}).Keys == fds.Keys - {x};
  }

  /** Opening at a free descriptor f and moving the file to fd is opening at fd. */
  lemma MovedDown(fds: Fds, f: nat, fd: nat, file: nat)
    requires f !in fds
    ensures f != fd ==> fds[f := file][fd := file] - {f} == fds[fd := file]
    ensures |fds[fd := file]| <= |fds| + 1
  {
    SizeWith(fds, fd, file);
  }

  /** A table without a free descriptor is large. */
  lemma ExhaustedSize(fds: Fds, limit: nat)
    requires Exhausted(fds, limit)
    ensures |fds| + 10 >= limit
  {
    if limit > 10 {
      assert forall x: nat :: 10 <= x < limit ==> x in fds;
      AllOpen(fds, 10, limit);
    }
  }

  lemma {:induction false} AllOpen(fds: Fds, a: nat, b: nat)
    requires a <= b && forall x: nat :: a <= x < b ==> x in fds
    ensures |fds| >= b - a
    decreases b - a
  {
    if a < b {
      SizeWith(fds, b - 1, 0);
      AllOpen(fds - {b - 1}, a, b - 1);
    }
  }

  /** The first n redirections of a list, in order. */
  function Effects(o: Outcome, list: seq<Redirection>, n: nat): (o': Outcome)
    requires |o.memory| == 10 && n <= |list|
    ensures |o'.memory| == 10
  {
    if n == 0 then o else Effect(Effects(o, list, n - 1), list[n - 1])
  }

  lemma EffectLow(a: Fds, b: Fds, memory: seq<bool>, r: Redirection)
    requires LowSame(a, b) && |memory| == 10
    ensures LowSame(Effect(Outcome(a, memory), r).fds, Effect(Outcome(b, memory), r).fds)
    ensures Effect(Outcome(a, memory), r).memory == Effect(Outcome(b, memory), r).memory
  {
    if r.Duplicate? && r.dupfd >= 0 { assert SameAt(a, b, r.dupfd as nat); }
    forall x: nat | x < 10 ensures SameAt(Effect(Outcome(a, memory), r).fds, Effect(Outcome(b, memory), r).fds, x) {
      assert SameAt(a, b, x);
    }
  }

  lemma LowSameTwice(a: Fds, b: Fds, c: Fds)
    requires LowSame(a, b) && LowSame(b, c)
    ensures LowSame(a, c)
  {
    forall x: nat | x < 10 ensures SameAt(a, c, x) { assert SameAt(a, b, x) && SameAt(b, c, x); }
  }

  lemma PushFits(frames: seq<Frame>, snaps: seq<Snapshot>, cur: Snapshot, f: Frame)
    requires StackFits(frames, snaps, cur) && FrameFits(f, cur, cur)
    ensures StackFits(frames + [f], snaps + [cur], cur)
  {
    hide FrameFits;
    var fs, ss := frames + [f], snaps + [cur];
    forall i | 0 <= i < |fs| ensures FrameAt(fs, ss, cur, i) {
      if i < |frames| { assert FrameAt(frames, snaps, cur, i); }
    }
  }

  lemma PopFits(frames: seq<Frame>, snaps: seq<Snapshot>, cur: Snapshot, f: Frame)
    requires StackFits(frames + [f], snaps, cur)
    ensures |snaps| == |frames| + 1 && StackFits(frames, snaps[..|frames|], snaps[|frames|])
            && FrameFits(f, snaps[|frames|], cur)
  {
    hide FrameFits;
    var fs, n := frames + [f], |frames|;
    assert FrameAt(fs, snaps, cur, n);
    var ss := snaps[..n];
    forall i | 0 <= i < n ensures FrameAt(frames, ss, snaps[n], i) {
      assert FrameAt(fs, snaps, cur, i);
    }
  }

  /** The top frame and the current table change together. */
  lemma TopChanged(frames: seq<Frame>, snaps: seq<Snapshot>, cur: Snapshot, f: Frame, f': Frame, cur': Snapshot)
    requires StackFits(frames + [f], snaps, cur) && |snaps| == |frames| + 1 && FrameFits(f', snaps[|frames|], cur')
    ensures StackFits(frames + [f'], snaps, cur')
  {
    hide FrameFits;
    var fs, n := frames + [f'], |frames|;
    forall i | 0 <= i < |fs| ensures FrameAt(fs, snaps, cur', i) {
      if i < n { assert FrameAt(frames + [f], snaps, cur, i); }
    }
  }

  function InMemory(backq: bool): (m: seq<bool>)
    ensures |m| == 10
  {
    seq(10, i => i == 1 && backq)
  }

  lemma LowSameSelf(a: Fds)
    ensures LowSame(a, a)
  {
  }

  /** Commands with redirections, nested in any way. */
  datatype Prog = Within(list: seq<Redirection>, backq: bool, body: seq<Prog>)

  /** The low descriptors. */
  function Low(fds: Fds): Fds { map x | x in fds && x < 10 :: fds[x] }

  lemma LowIsLow(a: Fds, b: Fds)
    ensures LowSame(a, b) <==> Low(a) == Low(b)
  {
    if LowSame(a, b) {
      forall x | x in Low(a) || x in Low(b) ensures x in Low(a) && x in Low(b) && Low(a)[x] == Low(b)[x] {
        assert SameAt(a, b, x);
      }
    }
    if Low(a) == Low(b) {
      forall x: nat | x < 10 ensures SameAt(a, b, x) {
        assert (x in a <==> x in Low(a)) && (x in b <==> x in Low(b));
      }
    }
  }

  /** Some redirection of a list fails. */
  ghost predicate ListFails(fds: Fds, backq: bool, list: seq<Redirection>) {
    exists i :: 0 <= i < |list| && Fails(Effects(Outcome(fds, InMemory(backq)), list, i), list[i])
  }

  /** The low descriptors after a list. */
  function Inside(fds: Fds, backq: bool, list: seq<Redirection>): Fds {
    Low(Effects(Outcome(fds, InMemory(backq)), list, |list|).fds)
  }

  /** The low descriptors that the first n commands, and those within them, should find: those outside,
      redirected by their own list, if none of it fails. */
  ghost function Finds(progs: seq<Prog>, n: nat, fds: Fds): seq<Fds>
    requires n <= |progs|
    decreases progs, n
  {
    if n == 0 then []
    else
      var p := progs[n - 1];
      Finds(progs, n - 1, fds) +
      if ListFails(fds, p.backq, p.list) then []
      else [Inside(fds, p.backq, p.list)] + Finds(p.body, |p.body|, Inside(fds, p.backq, p.list))
  }

  /** As many descriptors as may be open at once beyond those at the start. */
  function Room(progs: seq<Prog>, n: nat): nat
    requires n <= |progs|
    decreases progs, n
  {
    if n == 0 then 0
    else
      var p := progs[n - 1];
      var r := 2 * |p.list| + Room(p.body, |p.body|);
      if r < Room(progs, n - 1) then Room(progs, n - 1) else r
  }

  lemma {:induction false} RoomGrows(progs: seq<Prog>, i: nat, n: nat)
    requires i < n <= |progs|
    ensures 2 * |progs[i].list| + Room(progs[i].body, |progs[i].body|) <= Room(progs, n)
    decreases n - i
  {
    if i < n - 1 { RoomGrows(progs, i, n - 1); }
  }

  lemma {:induction false} EffectsLow(a: Fds, b: Fds, backq: bool, list: seq<Redirection>, n: nat)
    requires LowSame(a, b) && n <= |list|
    ensures var x, y := Effects(Outcome(a, InMemory(backq)), list, n), Effects(Outcome(b, InMemory(backq)), list, n);
            LowSame(x.fds, y.fds) && x.memory == y.memory
  {
    hide LowSame, Effect, InMemory;
    if n > 0 {
      EffectsLow(a, b, backq, list, n - 1);
      var x := Effects(Outcome(a, InMemory(backq)), list, n - 1);
      var y := Effects(Outcome(b, InMemory(backq)), list, n - 1);
      EffectLow(x.fds, y.fds, x.memory, list[n - 1]);
    }
  }

  /** Only the low descriptors matter. */
  lemma ListLow(a: Fds, b: Fds, backq: bool, list: seq<Redirection>)
    requires LowSame(a, b)
    ensures ListFails(a, backq, list) == ListFails(b, backq, list) && Inside(a, backq, list) == Inside(b, backq, list)
  {
    hide LowSame, Effect, InMemory, Fails;
    forall i | 0 <= i < |list|
      ensures Fails(Effects(Outcome(a, InMemory(backq)), list, i), list[i]) ==
              Fails(Effects(Outcome(b, InMemory(backq)), list, i), list[i])
    {
      EffectsLow(a, b, backq, list, i);
      var x := Effects(Outcome(a, InMemory(backq)), list, i);
      var y := Effects(Outcome(b, InMemory(backq)), list, i);
      FailsLow(x.fds, y.fds, x.memory, list[i]);
    }
    EffectsLow(a, b, backq, list, |list|);
    LowIsLow(Effects(Outcome(a, InMemory(backq)), list, |list|).fds,
             Effects(Outcome(b, InMemory(backq)), list, |list|).fds);
  }

  function AllEmpty(): (r: Renamed)
    ensures forall i :: 0 <= i < 10 ==> r[i] == EMPTY
  {
    seq(10, i => EMPTY)
  }

  class Redirector {
    var fds: Fds
    var redirlist: RedirList
    var emptyRedirs: nat
    var fd0Redirected: bool
    /** Descriptors must be below this. */
    const limit: nat
    ghost var snaps: seq<Snapshot>

    ghost function Now(): Snapshot
      reads `fds, `fd0Redirected
    {
      Snapshot(fds, fd0Redirected)
    }

    ghost predicate Valid()
      reads this
    {
      StackFits(Frames(redirlist, emptyRedirs), snaps, Now())
    }

    /** The top frame saves descriptors and may still change. */
    ghost predicate Saving()
      reads this
    {
      Valid() && redirlist.Tab? && emptyRedirs == 0
    }

    constructor (fds: Fds, limit: nat)
      ensures Valid() && this.fds == fds && snaps == [] && redirlist == Nil && emptyRedirs == 0
    {
      this.fds, this.limit := fds, limit;
      redirlist, emptyRedirs, fd0Redirected, snaps := Nil, 0, false, [];
    }

    /** redirect with REDIR_PUSH, including a list that fails part way: one frame is pushed, and
        popping it will bring back the table as it was. */
    method Redirect(list: seq<Redirection>, backq: bool) returns (ok: bool)
      requires Valid()
      modifies this
      ensures Valid() && snaps == old(snaps) + [old(Now())]
      ensures list == [] ==> redirlist == old(redirlist) && emptyRedirs == old(emptyRedirs) + 1
      ensures list != [] ==> redirlist.Tab? && redirlist.next == old(redirlist)
                             && redirlist.emptyRedirs == old(emptyRedirs) && emptyRedirs == 0
      ensures ok ==> LowSame(fds, Effects(Outcome(old(fds), InMemory(backq)), list, |list|).fds)
      ensures var start := Outcome(old(fds), InMemory(backq));
              && (ok ==> forall i :: 0 <= i < |list| ==> !Fails(Effects(start, list, i), list[i]))
              && (!ok ==> Exhausted(fds, limit) || exists i :: 0 <= i < |list|
                                                               && Fails(Effects(start, list, i), list[i]))
      ensures |fds| <= old(|fds|) + 2 * |list|
    {
      hide Redirector.Valid, LowSame, Effect, InMemory, Fails, Exhausted;
      var memory := InMemory(backq);
      ghost var start := Outcome(fds, memory);
      LowSameSelf(fds);
      Push(list == []);
      for i := 0 to |list|
        invariant memory == Effects(start, list, i).memory && LowSame(fds, Effects(start, list, i).fds)
        invariant |memory| == 10 && snaps == old(snaps) + [old(Now())] && Valid()
        invariant forall j :: 0 <= j < i ==> !Fails(Effects(start, list, j), list[j])
        invariant |fds| <= old(|fds|) + 2 * i
        invariant list == [] ==> redirlist == old(redirlist) && emptyRedirs == old(emptyRedirs) + 1
        invariant list != [] ==> redirlist.Tab? && redirlist.next == old(redirlist)
                                 && redirlist.emptyRedirs == old(emptyRedirs) && emptyRedirs == 0
      {
        ghost var fds1, memory1 := fds, memory;
        FailsLow(fds, Effects(start, list, i).fds, memory, list[i]);
        ok, memory := RedirectOne(list[i], memory);
        if !ok { return; }
        EffectLow(fds1, Effects(start, list, i).fds, memory1, list[i]);
        LowSameTwice(fds, Effect(Outcome(fds1, memory1), list[i]).fds, Effects(start, list, i + 1).fds);
      }
      ok := true;
    }

    /** A new frame: counted if it will save nothing, allocated otherwise. */
    method Push(empty: bool)
      requires Valid()
      modifies this
      ensures Valid() && snaps == old(snaps) + [old(Now())] && Now() == old(Now())
      ensures empty ==> redirlist == old(redirlist) && emptyRedirs == old(emptyRedirs) + 1
      ensures !empty ==> redirlist.Tab? && redirlist.next == old(redirlist) && redirlist.emptyRedirs == old(emptyRedirs)
                         && emptyRedirs == 0
    {
      hide StackFits;
      ghost var frames := Frames(redirlist, emptyRedirs);
      FramesPushEmpty(redirlist, emptyRedirs);
      PushFits(frames, snaps, Now(), if empty then EmptyFrame else Saved(AllEmpty(), fd0Redirected));
      snaps := snaps + [Now()];
      emptyRedirs := emptyRedirs + 1;
      if !empty {
        redirlist := Tab(AllEmpty(), fd0Redirected, emptyRedirs - 1, redirlist);
        emptyRedirs := 0;
        assert Frames(redirlist, 0) == frames + [Saved(AllEmpty(), fd0Redirected)];
      }
    }

    lemma TopFits()
      requires Saving()
      ensures |snaps| > 0 && RestoredTo(redirlist.renamed, snaps[|snaps| - 1].fds, fds, 0)
    {
      hide StackFits, RestoredTo;
      var below := Frames(redirlist.next, redirlist.emptyRedirs);
      var top := Saved(redirlist.renamed, redirlist.fd0Redirected);
      assert Frames(redirlist, 0) == below + [top];
      PopFits(below, snaps, Now(), top);
    }

    /** The top frame may be rewritten together with the table, as long as it still restores the snapshot. */
    lemma TopSet(renamed: Renamed, now: Snapshot)
      requires Saving() && |snaps| > 0 && RestoredTo(renamed, snaps[|snaps| - 1].fds, now.fds, 0)
      ensures StackFits(Frames(redirlist.(renamed := renamed), 0), snaps, now)
    {
      hide StackFits, RestoredTo;
      var below := Frames(redirlist.next, redirlist.emptyRedirs);
      var top := Saved(redirlist.renamed, redirlist.fd0Redirected);
      assert Frames(redirlist, 0) == below + [top];
      PopFits(below, snaps, Now(), top);
      assert Frames(redirlist.(renamed := renamed), 0) == below + [top.(renamed := renamed)];
      TopChanged(below, snaps, Now(), top, top.(renamed := renamed), now);
    }

    method LowestFree(from: nat) returns (f: nat)
      ensures f >= from && f !in fds && forall x :: from <= x < f ==> x in fds
    {
      f := from;
      ghost var higher := fds.Keys;
      while f in fds
        invariant f >= from && (forall x :: from <= x < f ==> x in fds) && forall x :: x in fds && x >= f ==>
                  x in higher
        decreases higher
      {
        higher := higher - {f};
        f := f + 1;
      }
    }

    /** One redirection of a pushed list. */
    method RedirectOne(r: Redirection, memory: seq<bool>) returns (ok: bool, memory': seq<bool>)
      requires Saving() && |memory| == 10
      modifies this
      ensures Saving() && |memory'| == 10 && snaps == old(snaps)
      ensures redirlist.next == old(redirlist).next && redirlist.emptyRedirs == old(redirlist).emptyRedirs
      ensures ok ==> LowSame(fds, Effect(Outcome(old(fds), memory), r).fds)
                     && memory' == Effect(Outcome(old(fds), memory), r).memory
      ensures if ok then !Fails(Outcome(old(fds), memory), r)
              else Fails(Outcome(old(fds), memory), r) || Exhausted(fds, limit)
      ensures |fds| <= old(|fds|) + 2
    {
      hide StackFits, RestoredTo, Frames, Exhausted;
      ok, memory' := true, memory;
      TopFits();
      TopSet(redirlist.renamed, Snapshot(fds, true));
      assert redirlist.(renamed := redirlist.renamed) == redirlist;
      if r.fd == 0 {
        fd0Redirected := true;
      }
      if r.Duplicate? && r.dupfd == r.fd { return; }
      if redirlist.renamed[r.fd] == EMPTY {
        ok := SaveFd(r.fd);
        if !ok { return; }
      }
      EffectLow(fds, old(fds), memory, r);
      FailsLow(fds, old(fds), memory, r);
      ok, memory' := OpenRedirect(r, memory);
    }

    /** Keep a copy of descriptor fd, at 10 or above, in the top frame. */
    method SaveFd(fd: Fd) returns (ok: bool)
      requires Saving() && redirlist.renamed[fd] == EMPTY
      modifies this
      ensures Saving() && snaps == old(snaps)
      ensures redirlist.next == old(redirlist).next && redirlist.emptyRedirs == old(redirlist).emptyRedirs
      ensures ok ==> redirlist.renamed[fd] != EMPTY && LowSame(fds, old(fds))
      ensures (!ok ==> Exhausted(fds, limit)) && |fds| <= old(|fds|) + 1
    {
      hide StackFits, RestoredTo, Frames;
      TopFits();
      var i := CLOSED;
      var fds' := fds;
      if fd in fds {
        i := LowestFree(10);
        if i >= limit { return false; }
        fds' := fds[i := fds[fd]];
      }
      SaveStep(redirlist.renamed, snaps[|snaps| - 1].fds, fds, fd, i);
      TopSet(redirlist.renamed[fd := i], Snapshot(fds', fd0Redirected));
      fds := fds';
      redirlist := redirlist.(renamed := redirlist.renamed[fd := i]);
      ok := true;
    }

    /** openredirect: descriptor fd, already saved, gets its new meaning. */
    method OpenRedirect(r: Redirection, memory: seq<bool>) returns (ok: bool, memory': seq<bool>)
      requires Saving() && |memory| == 10 && redirlist.renamed[r.fd] != EMPTY && !(r.Duplicate? && r.dupfd == r.fd)
      modifies `fds
      ensures Saving() && |memory'| == 10
      ensures ok ==> Outcome(fds, memory') == Effect(Outcome(old(fds), memory), r)
      ensures if ok then !Fails(Outcome(old(fds), memory), r)
              else Fails(Outcome(old(fds), memory), r) || Exhausted(fds, limit)
      ensures |fds| <= old(|fds|) + 1
    {
      hide StackFits, RestoredTo, Frames, Exhausted;
      var fds';
      ok, memory', fds' := Opened(r, memory);
      TopFits();
      RedirectStep(redirlist.renamed, snaps[|snaps| - 1].fds, fds, r.fd, fds');
      TopSet(redirlist.renamed, Snapshot(fds', fd0Redirected));
      assert redirlist.(renamed := redirlist.renamed) == redirlist;
      fds := fds';
    }

    /** The table once fd has been opened, duplicated onto or closed; no other descriptor changes. */
    method Opened(r: Redirection, memory: seq<bool>) returns (ok: bool, memory': seq<bool>, fds': Fds)
      requires |memory| == 10 && !(r.Duplicate? && r.dupfd == r.fd)
      ensures |memory'| == 10 && forall x: nat :: x != r.fd ==> SameAt(fds', fds, x)
      ensures ok ==> Outcome(fds', memory') == Effect(Outcome(fds, memory), r)
      ensures if ok then !Fails(Outcome(fds, memory), r) else Fails(Outcome(fds, memory), r) || Exhausted(fds', limit)
      ensures |fds'| <= |fds| + 1
    {
      ok, memory', fds' := true, memory[r.fd := false], fds;
      match r {
        case OpenFile(fd, file) =>
          if file.None? { return false, memory', fds; }
          ok, fds' := OpenedAt(fd, file.value);
        case Duplicate(fd, dupfd) =>
          SizeWith(fds, fd, if dupfd >= 0 && dupfd as nat in fds then fds[dupfd as nat] else 0);
          if dupfd < 0 {
            fds' := fds' - {fd as nat};
          } else if memory'[dupfd] {
            memory' := memory'[fd := true];
          } else if dupfd as nat in fds' {
            fds' := fds'[fd as nat := fds'[dupfd as nat]];
          } else {
            ok := false;
          }
      }
    }

    /** open takes the lowest free descriptor; dup2 and close move the file to fd. */
    method OpenedAt(fd: Fd, file: nat) returns (ok: bool, fds': Fds)
      ensures if ok then fds' == fds[fd as nat := file] else fds' == fds && Exhausted(fds, limit)
      ensures |fds'| <= |fds| + 1
    {
      var f := LowestFree(0);
      if f >= limit { return false, fds; }
      MovedDown(fds, f, fd, file);
      ok, fds' := true, fds[f := file];
      if f != fd {
        fds' := fds'[fd as nat := fds'[f]];
        fds' := fds' - {f};
      }
    }

    /** popredir: the table is again what it was when the frame was pushed. */
    method PopRedir()
      requires Valid() && snaps != []
      modifies this
      ensures Valid() && snaps == old(snaps)[..|old(snaps)| - 1] && Now() == old(snaps)[|old(snaps)| - 1]
      ensures old(emptyRedirs) > 0 ==> redirlist == old(redirlist) && emptyRedirs == old(emptyRedirs) - 1
      ensures old(emptyRedirs) == 0 ==> old(redirlist).Tab? && redirlist == old(redirlist).next
                                        && emptyRedirs == old(redirlist).emptyRedirs
    {
      hide StackFits, RestoredTo;
      if emptyRedirs > 0 {
        FramesPushEmpty(redirlist, emptyRedirs - 1);
        PopFits(Frames(redirlist, emptyRedirs - 1), snaps, Now(), EmptyFrame);
        emptyRedirs := emptyRedirs - 1;
        snaps := snaps[..|snaps| - 1];
        return;
      }
      var rp := redirlist;
      FrameCount(redirlist, snaps, Now());
      ghost var below, top := Frames(rp.next, rp.emptyRedirs), Saved(rp.renamed, rp.fd0Redirected);
      assert Frames(redirlist, 0) == below + [top];
      PopFits(below, snaps, Now(), top);
      ghost var snap := snaps[|snaps| - 1];
      Undo(rp.renamed, snap.fds);
      fd0Redirected := rp.fd0Redirected;
      emptyRedirs := rp.emptyRedirs;
      redirlist := rp.next;
      snaps := snaps[..|snaps| - 1];
    }

    method Undo(renamed: Renamed, ghost snap: Fds)
      requires RestoredTo(renamed, snap, fds, 0)
      modifies `fds
      ensures fds == snap
    {
      hide RestoredTo;
      for i := 0 to 10
        invariant RestoredTo(renamed, snap, fds, i)
      {
        UndoStep(renamed, snap, fds, i);
        if renamed[i] != EMPTY {
          if renamed[i] >= 0 {
            fds := fds[i := fds[renamed[i] as nat]];
            fds := fds - {renamed[i] as nat};
          } else {
            fds := fds - {i};
          }
        }
      }
      AllRestored(renamed, snap, fds);
    }

    /** However pushes and pops are nested, and wherever a list fails, the descriptor table and the
        undo stack end as they began; and while there are descriptors to spare, each command finds the
        descriptors its list describes. */
    method Run(progs: seq<Prog>) returns (found: seq<Fds>)
      requires Valid()
      modifies this
      ensures Valid() && Now() == old(Now()) && snaps == old(snaps) && redirlist == old(redirlist)
              && emptyRedirs == old(emptyRedirs)
      ensures old(|fds|) + Room(progs, |progs|) + 10 < limit ==> found == Finds(progs, |progs|, Low(old(fds)))
      decreases progs
    {
      hide Redirector.Valid, LowSame, Low, ListFails, Inside, Exhausted, Fails, Room;
      found := [];
      for i := 0 to |progs|
        invariant Valid() && Now() == old(Now()) && snaps == old(snaps) && redirlist == old(redirlist)
                  && emptyRedirs == old(emptyRedirs)
        invariant old(|fds|) + Room(progs, |progs|) + 10 < limit ==> found == Finds(progs, i, Low(fds))
      {
        var p := progs[i];
        ghost var low := Low(fds);
        RoomGrows(progs, i, |progs|);
        var ok := Redirect(p.list, p.backq);
        Entering(old(fds), p, ok);
        if ok {
          found := found + [Low(fds)];
          LowTwice(fds);
          var more := Run(p.body);
          found := found + more;
        }
        PopRedir();
      }
    }

    /** What a command finds once its list has been tried. */
    lemma Entering(before: Fds, p: Prog, ok: bool)
      requires var start := Outcome(before, InMemory(p.backq));
               && (ok ==> LowSame(fds, Effects(start, p.list, |p.list|).fds))
               && (ok ==> forall i :: 0 <= i < |p.list| ==> !Fails(Effects(start, p.list, i), p.list[i]))
               && (!ok ==> Exhausted(fds, limit) ||
                           exists i :: 0 <= i < |p.list| && Fails(Effects(start, p.list, i), p.list[i]))
      ensures ok ==> !ListFails(Low(before), p.backq, p.list) && Low(fds) == Inside(Low(before), p.backq, p.list)
      ensures !ok && |fds| + 10 < limit ==> ListFails(Low(before), p.backq, p.list)
    {
      hide LowSame, Effects, InMemory, Fails, Exhausted;
      LowTwice(before);
      LowIsLow(before, Low(before));
      ListLow(before, Low(before), p.backq, p.list);
      if ok {
        LowIsLow(fds, Effects(Outcome(before, InMemory(p.backq)), p.list, |p.list|).fds);
      } else if Exhausted(fds, limit) {
        ExhaustedSize(fds, limit);
      }
    }
  }

  lemma LowTwice(fds: Fds)
    ensures Low(Low(fds)) == Low(fds)
  {
  }

  lemma FrameCount(list: RedirList, snaps: seq<Snapshot>, cur: Snapshot)
    requires StackFits(Frames(list, 0), snaps, cur) && snaps != []
    ensures list.Tab?
  {
  }

  // ---------------------------------------------------------------- what one list means

  /** A list without failures that began with the table before has left the table after. */
  ghost predicate Redirects(before: Fds, backq: bool, list: seq<Redirection>, after: Fds) {
    LowSame(after, Effects(Outcome(before, InMemory(backq)), list, |list|).fds)
  }

  /** Low descriptors other than n are as before. */
  ghost predicate OthersKept(before: Fds, after: Fds, n: Fd) {
    forall x: nat :: x < 10 && x != n ==> SameAt(after, before, x)
  }

  lemma OneEffect(before: Fds, backq: bool, r: Redirection, after: Fds)
    requires Redirects(before, backq, [r], after)
    ensures LowSame(after, Effect(Outcome(before, InMemory(backq)), r).fds)
  {
    hide LowSame, Effect;
    var o := Outcome(before, InMemory(backq));
    assert Effects(o, [r], 0) == o && Effects(o, [r], 1) == Effect(o, r);
  }

  /** n>&- closes n and nothing else. */
  lemma ClosesDescriptor(before: Fds, backq: bool, n: Fd, minus: DupFd, after: Fds)
    requires minus < 0 && Redirects(before, backq, [Duplicate(n, minus)], after)
    ensures n as nat !in after && OthersKept(before, after, n)
  {
    OneEffect(before, backq, Duplicate(n, minus), after);
    var fds := Effect(Outcome(before, InMemory(backq)), Duplicate(n, minus)).fds;
    assert SameAt(after, fds, n as nat);
    forall x: nat | x < 10 && x != n ensures SameAt(after, before, x) { assert SameAt(after, fds, x); }
  }

  /** n>&m makes n refer to m's file, and nothing else; while output is collected in memory, n>&1
      leaves the table alone. */
  lemma DuplicatesDescriptor(before: Fds, backq: bool, n: Fd, m: Fd, after: Fds)
    requires n != m && m as nat in before && Redirects(before, backq, [Duplicate(n, m)], after)
    ensures OthersKept(before, after, n)
    ensures if backq && m == 1 then SameAt(after, before, n as nat)
            else n as nat in after && after[n as nat] == before[m as nat]
  {
    OneEffect(before, backq, Duplicate(n, m), after);
    var fds := Effect(Outcome(before, InMemory(backq)), Duplicate(n, m)).fds;
    assert SameAt(after, fds, n as nat);
    forall x: nat | x < 10 && x != n ensures SameAt(after, before, x) { assert SameAt(after, fds, x); }
  }

  /** n>&n does nothing. */
  lemma DuplicatesItself(before: Fds, backq: bool, n: Fd, after: Fds)
    requires Redirects(before, backq, [Duplicate(n, n)], after)
    ensures LowSame(after, before)
  {
    OneEffect(before, backq, Duplicate(n, n), after);
  }

  /** n>file makes n refer to the file, and nothing else. */
  lemma OpensFile(before: Fds, backq: bool, n: Fd, file: nat, after: Fds)
    requires Redirects(before, backq, [OpenFile(n, Some(file))], after)
    ensures n as nat in after && after[n as nat] == file && OthersKept(before, after, n)
  {
    OneEffect(before, backq, OpenFile(n, Some(file)), after);
    var fds := Effect(Outcome(before, InMemory(backq)), OpenFile(n, Some(file))).fds;
    assert SameAt(after, fds, n as nat);
    forall x: nat | x < 10 && x != n ensures SameAt(after, before, x) { assert SameAt(after, fds, x); }
  }

  /** What fails: a file that does not open, and a closed descriptor to duplicate; closing never does. */
  lemma FailureMeans(fds: Fds, backq: bool, n: Fd, file: Option<nat>, m: Fd, minus: DupFd)
    requires minus < 0
    ensures ListFails(fds, backq, [OpenFile(n, file)]) <==> file == None
    ensures ListFails(fds, backq, [Duplicate(n, m)]) <==> m != n && m as nat !in fds && !(backq && m == 1)
    ensures !ListFails(fds, backq, [Duplicate(n, minus)])
  {
    OneFailure(fds, backq, OpenFile(n, file));
    OneFailure(fds, backq, Duplicate(n, m));
    OneFailure(fds, backq, Duplicate(n, minus));
  }

  lemma OneFailure(fds: Fds, backq: bool, r: Redirection)
    ensures ListFails(fds, backq, [r]) <==> Fails(Outcome(fds, InMemory(backq)), r)
  {
    hide Fails;
    var o := Outcome(fds, InMemory(backq));
    assert Effects(o, [r], 0) == o && [r][0] == r;
  }

  /** While output is collected in memory, a duplicate of 1 is collected too, and so is a duplicate of
      that. */
  lemma MemoryFollows(before: Fds, n: Fd, m: Fd, after: Fds)
    requires n != 1 && m != 1 && m != n
    requires Redirects(before, true, [Duplicate(n, 1), Duplicate(m, n)], after)
    ensures LowSame(after, before)
  {
    var list := [Duplicate(n, 1), Duplicate(m, n)];
    var o := Outcome(before, InMemory(true));
    assert Effects(o, list, 0) == o;
    assert Effects(o, list, 1) == Effect(o, list[0]);
    assert Effects(o, list, 2) == Effect(Effects(o, list, 1), list[1]);
  }

  /** A list is done from left to right: c>&a a>&b b>&c c>&- exchanges a and b and closes c. */
  lemma Exchanges(before: Fds, a: Fd, b: Fd, c: Fd, minus: DupFd, after: Fds)
    requires a != b && b != c && a != c && minus < 0 && a as nat in before && b as nat in before
    requires Redirects(before, false, [Duplicate(c, a), Duplicate(a, b), Duplicate(b, c), Duplicate(c, minus)], after)
    ensures a as nat in after && after[a as nat] == before[b as nat]
    ensures b as nat in after && after[b as nat] == before[a as nat]
    ensures c as nat !in after
  {
    var list := [Duplicate(c, a), Duplicate(a, b), Duplicate(b, c), Duplicate(c, minus)];
    var o := Outcome(before, InMemory(false));
    var o1 := Effects(o, list, 1);
    assert o1 == Effect(Effects(o, list, 0), list[0]) && Effects(o, list, 0) == o;
    var o2 := Effects(o, list, 2);
    assert o2 == Effect(o1, list[1]);
    var o3 := Effects(o, list, 3);
    assert o3 == Effect(o2, list[2]);
    var o4 := Effects(o, list, 4);
    assert o4 == Effect(o3, list[3]);
    assert SameAt(after, o4.fds, a as nat) && SameAt(after, o4.fds, b as nat) && SameAt(after, o4.fds, c as nat);
  }
}
