/**
  The process table (proc.c): creation, exit, waiting, sleeping and waking.

  Each method is a stretch of code that runs under ptable.lock; `World` is the table as a value,
  with a record of every exit and of every exit status that waitpid has handed out.
 */
module Proc {

  const NPROC: int := 64
  const NONE: int := -1   // a null parent pointer, and waitpid's "any child"

  datatype ProcState = UNUSED | EMBRYO | SLEEPING | RUNNABLE | RUNNING | ZOMBIE

  /** What a process sleeps on: nothing, the address of a process, or the address of something else. */
  datatype Chan = NoChan | OnProc(p: int) | OnOther(id: int)

  /** A slot of ptable.  `waitFor` is the childPid argument of the waitpid a process sleeps in. */
  datatype Slot = Slot(state: ProcState, pid: int, parent: int, chan: Chan, killed: bool, exitStatus: int, waitFor: int)

  datatype Report = Report(pid: int, status: int)

  datatype World = World(slots: seq<Slot>, nextpid: int, init: int, exits: map<int, int>, reports: seq<Report>)

  /** Outcome of a scan of waitpid. */
  datatype Wait = Reaped(pid: int, status: int) | Failed | Slept

  function Reports(out: Wait): seq<Report> { if out.Reaped? then [Report(out.pid, out.status)] else [] }

  predicate Alive(s: ProcState) { s.SLEEPING? || s.RUNNABLE? || s.RUNNING? }

  // ------------------------------------------------------------------ what the code does

  function Woken(s: Slot, chan: Chan): Slot {
    if s.state.SLEEPING? && s.chan == chan then s.(state := RUNNABLE) else s
  }

  function ChanOf(p: int): Chan { if p == NONE then NoChan else OnProc(p) }

  /** wakeup1 */
  function WakeAll(slots: seq<Slot>, chan: Chan): (r: seq<Slot>)
    ensures |r| == |slots| && forall k :: 0 <= k < |slots| ==> r[k] == Woken(slots[k], chan)
  {
    seq(|slots|, k requires 0 <= k < |slots| => Woken(slots[k], chan))
  }

  /** Some child of cur among the first n slots is a zombie. */
  ghost predicate ZombieChild(slots: seq<Slot>, cur: int, n: int) {
    exists k :: 0 <= k < |slots| && k < n && slots[k].parent == cur && slots[k].state.ZOMBIE?
  }

  /** A slot after the first n slots of the table have been looked at for children of cur. */
  ghost function Orphaned(slots: seq<Slot>, cur: int, init: int, n: int, k: int): Slot
    requires 0 <= k < |slots|
  {
    var s := if ZombieChild(slots, cur, n) then Woken(slots[k], OnProc(init)) else slots[k];
    if k < n && s.parent == cur then s.(parent := init) else s
  }

  /** exit: wake the parent, hand the children to init (waking it if one is a zombie), become a zombie. */
  ghost function Exited(slots: seq<Slot>, cur: int, init: int, status: int): (r: seq<Slot>)
    requires 0 <= cur < |slots|
    ensures |r| == |slots|
  {
    var a := WakeAll(slots[cur := slots[cur].(exitStatus := status)], ChanOf(slots[cur].parent));
    var b := seq(|slots|, k requires 0 <= k < |slots| => Orphaned(a, cur, init, |slots|, k));
    b[cur := b[cur].(state := ZOMBIE)]
  }

  predicate Matches(s: Slot, cur: int, childPid: int) {
    s.parent == cur && (childPid == NONE || childPid == s.pid)
  }

  /** The slot waitpid frees. */
  function Freed(s: Slot): Slot {
    s.(state := UNUSED, pid := 0, parent := NONE, killed := false)
  }

  ghost predicate FirstZombie(slots: seq<Slot>, cur: int, childPid: int, k: int) {
    && 0 <= k < |slots| && Matches(slots[k], cur, childPid) && slots[k].state.ZOMBIE?
    && forall j :: 0 <= j < k ==> !(Matches(slots[j], cur, childPid) && slots[j].state.ZOMBIE?)
  }

  ghost predicate HasChild(slots: seq<Slot>, cur: int, childPid: int) {
    exists k :: 0 <= k < |slots| && Matches(slots[k], cur, childPid)
  }

  ghost predicate HasZombie(slots: seq<Slot>, cur: int, childPid: int) {
    exists k :: 0 <= k < |slots| && Matches(slots[k], cur, childPid) && slots[k].state.ZOMBIE?
  }

  /** One scan of waitpid by cur: reap the first matching zombie, or fail, or go to sleep. */
  ghost predicate WaitPost(slots: seq<Slot>, cur: int, childPid: int, wantsStatus: bool, out: Wait, r: seq<Slot>)
    requires 0 <= cur < |slots|
  {
    if HasZombie(slots, cur, childPid) then
      if wantsStatus then
        exists k :: FirstZombie(slots, cur, childPid, k)
                    && out == Reaped(slots[k].pid, slots[k].exitStatus) && r == slots[k := Freed(slots[k])]
      else out == Failed && r == slots
    else if !HasChild(slots, cur, childPid) || slots[cur].killed then
      out == Failed && r == slots
    else
      out == Slept && r == slots[cur := slots[cur].(chan := OnProc(cur), state := SLEEPING, waitFor := childPid)]
  }

  // ------------------------------------------------------------------------ the table

  class ProcTable {
    var proc: array<Slot>
    var nextpid: int
    const init: int
    ghost var exits: map<int, int>
    ghost var reports: seq<Report>

    ghost predicate Valid()
      reads this, proc
    {
      proc.Length == NPROC && 0 <= init < NPROC
    }

    ghost function Abs(): World
      reads this, proc
    {
      World(proc[..], nextpid, init, exits, reports)
    }

    /** A table as userinit leaves it: one process, initproc, runnable. */
    constructor ()
      ensures Valid() && fresh(proc) && Abs() == Booted()
    {
      var free := Slot(UNUSED, 0, NONE, NoChan, false, 0, NONE);
      proc := new Slot[NPROC](_ => free);
      nextpid := 1;
      init := 0;
      exits := map[];
      reports := [];
      new;
      proc[0] := proc[0].(state := EMBRYO, pid := nextpid);
      nextpid := nextpid + 1;
      proc[0] := proc[0].(state := RUNNABLE);
      assert proc[..] == Booted().slots;
    }

    /** allocproc's search: the first unused slot becomes an embryo with a new pid, NONE if there is no such slot. */
    method AllocProc() returns (i: int)
      requires Valid()
      modifies this`nextpid, proc
      ensures Valid()
      ensures if exists k :: 0 <= k < NPROC && old(proc[k].state.UNUSED?)
              then FirstUnused(old(proc[..]), i) && nextpid == old(nextpid) + 1
                   && proc[..] == old(proc[..])[i := old(proc[i]).(state := EMBRYO, pid := old(nextpid))]
              else i == NONE && nextpid == old(nextpid) && proc[..] == old(proc[..])
      ensures i != NONE ==> Next(old(Abs()), Event.Alloc, Abs())
    {
      i := 0;
      while i < NPROC
        invariant 0 <= i <= NPROC
        invariant forall k :: 0 <= k < i ==> !proc[k].state.UNUSED?
      {
        if proc[i].state.UNUSED? {
          proc[i] := proc[i].(state := EMBRYO, pid := nextpid);
          nextpid := nextpid + 1;
          return;
        }
        i := i + 1;
      }
      return NONE;
    }

    /** wakeup1 */
    method Wakeup1(chan: Chan)
      requires Valid()
      modifies proc
      ensures Valid() && proc[..] == WakeAll(old(proc[..]), chan)
      ensures forall k :: 0 <= k < NPROC ==>
                proc[k] == if old(proc[k]).state.SLEEPING? && old(proc[k]).chan == chan
                           then old(proc[k]).(state := RUNNABLE) else old(proc[k])
      ensures chan.OnOther? ==> Next(old(Abs()), Event.Wakeup(chan.id), Abs())
    {
      ghost var was := proc[..];
      var k := 0;
      while k < NPROC
        invariant 0 <= k <= NPROC
        invariant forall j :: 0 <= j < NPROC ==> proc[j] == if j < k then Woken(was[j], chan) else was[j]
      {
        if proc[k].state.SLEEPING? && proc[k].chan == chan {
          proc[k] := proc[k].(state := RUNNABLE);
        }
        k := k + 1;
      }
    }

    /** exit, by the process in slot cur; false is the panic "init exiting". */
    method Exit(cur: int, status: int) returns (ok: bool)
      requires Valid() && 0 <= cur < NPROC && proc[cur].state.RUNNING?
      modifies proc, this`exits
      ensures Valid() && (ok <==> cur != init)
      ensures ok ==> proc[..] == Exited(old(proc[..]), cur, init, status)
      ensures ok ==> exits == old(exits)[old(proc[cur].pid) := status]
      ensures ok ==> Next(old(Abs()), Event.Exit(cur, status), Abs())
    {
      proc[cur] := proc[cur].(exitStatus := status);
      if cur == init {
        return false;
      }
      Wakeup1(ChanOf(proc[cur].parent));
      AdoptChildren(cur);
      proc[cur] := proc[cur].(state := ZOMBIE);
      exits := exits[proc[cur].pid := status];
      return true;
    }

    /** exit's loop: pass abandoned children to init. */
    method AdoptChildren(cur: int)
      requires Valid() && 0 <= cur < NPROC && cur != init
      modifies proc
      ensures Valid()
      ensures forall k :: 0 <= k < NPROC ==> proc[k] == Orphaned(old(proc[..]), cur, init, NPROC, k)
    {
      ghost var was := proc[..];
      var p := 0;
      while p < NPROC
        invariant 0 <= p <= NPROC
        invariant forall k :: 0 <= k < NPROC ==> proc[k] == Orphaned(was, cur, init, p, k)
      {
        ghost var before := proc[..];
        assert before[p].parent == was[p].parent;
        if proc[p].parent == cur {
          proc[p] := proc[p].(parent := init);
          if proc[p].state.ZOMBIE? {
            Wakeup1(OnProc(init));
          }
        }
        p := p + 1;
      }
    }

    /** One scan of waitpid by the process in slot cur. */
    method WaitPid(cur: int, childPid: int, wantsStatus: bool) returns (out: Wait)
      requires Valid() && 0 <= cur < NPROC && proc[cur].state.RUNNING?
      modifies proc, this`reports
      ensures Valid()
      ensures WaitPost(old(proc[..]), cur, childPid, wantsStatus, out, proc[..])
      ensures reports == old(reports) + Reports(out)
      ensures Next(old(Abs()), Event.WaitPid(cur, childPid, wantsStatus), Abs())
      ensures out.Reaped? ==> (childPid != NONE ==> out.pid == childPid) && exists k ::
                  && 0 <= k < NPROC && old(proc[k]).parent == cur && old(proc[k]).state.ZOMBIE?
                  && out == Reaped(old(proc[k]).pid, old(proc[k]).exitStatus)
                  && proc[k].state.UNUSED? && proc[k].pid == 0 && proc[k].parent == NONE && !proc[k].killed
                  && forall j :: 0 <= j < NPROC && j != k ==> proc[j] == old(proc[j])
      ensures out.Slept? <==>
              && !old(proc[cur]).killed
              && (exists k :: 0 <= k < NPROC && old(proc[k]).parent == cur
                              && (childPid == NONE || old(proc[k]).pid == childPid))
              && (forall k :: 0 <= k < NPROC && old(proc[k]).parent == cur && old(proc[k]).state.ZOMBIE? ==>
                    childPid != NONE && old(proc[k]).pid != childPid)
      ensures out.Slept? ==> proc[cur].state.SLEEPING? && proc[cur].chan == OnProc(cur)
                             && forall j :: 0 <= j < NPROC && j != cur ==> proc[j] == old(proc[j])
      ensures out.Failed? ==> forall j :: 0 <= j < NPROC ==> proc[j] == old(proc[j])
    {
      ghost var was := proc[..];
      var havekids := false;
      var p := 0;
      while p < NPROC
        invariant 0 <= p <= NPROC && proc[..] == was
        invariant havekids <==> exists k :: 0 <= k < p && Matches(was[k], cur, childPid)
        invariant forall k :: 0 <= k < p ==> !(Matches(was[k], cur, childPid) && was[k].state.ZOMBIE?)
      {
        if proc[p].parent == cur && (childPid == NONE || childPid == proc[p].pid) {
          havekids := true;
          if proc[p].state.ZOMBIE? {
            var pid := proc[p].pid;
            if !wantsStatus {
              return Failed;
            }
            out := Reaped(pid, proc[p].exitStatus);
            assert FirstZombie(was, cur, childPid, p);
            proc[p] := Freed(proc[p]);
            reports := reports + [Report(out.pid, out.status)];
            return;
          }
        }
        p := p + 1;
      }
      if !havekids || proc[cur].killed {
        return Failed;
      }
      proc[cur] := proc[cur].(chan := OnProc(cur), state := SLEEPING, waitFor := childPid);
      return Slept;
    }

    /** kill: mark the first slot with the pid, and wake it. */
    method Kill(pid: int) returns (found: bool)
      requires Valid()
      modifies proc
      ensures Valid()
      ensures if exists k :: 0 <= k < NPROC && old(proc[k].pid) == pid
              then found && exists k ::
                     FirstPid(old(proc[..]), pid, k) && proc[..] == old(proc[..])[k := Killed(old(proc[k]))]
              else !found && proc[..] == old(proc[..])
      ensures found ==> Next(old(Abs()), Event.Kill(pid), Abs())
      ensures found ==> exists k ::
                && 0 <= k < NPROC && old(proc[k]).pid == proc[k].pid == pid && proc[k].killed
                && proc[k].state == (if old(proc[k]).state.SLEEPING? then RUNNABLE else old(proc[k]).state)
                && forall j :: 0 <= j < NPROC && j != k ==> proc[j] == old(proc[j])
    {
      ghost var was := proc[..];
      var p := 0;
      while p < NPROC
        invariant 0 <= p <= NPROC && proc[..] == was
        invariant forall k :: 0 <= k < p ==> was[k].pid != pid
      {
        if proc[p].pid == pid {
          assert FirstPid(was, pid, p);
          proc[p] := proc[p].(killed := true);
          if proc[p].state.SLEEPING? {
            proc[p] := proc[p].(state := RUNNABLE);
          }
          assert proc[..] == was[p := Killed(was[p])];
          return true;
        }
        p := p + 1;
      }
      return false;
    }
  }

  function Booted(): World {
    var free := Slot(UNUSED, 0, NONE, NoChan, false, 0, NONE);
    World(seq(NPROC, i => if i == 0 then free.(state := RUNNABLE, pid := 1) else free), 2, 0, map[], [])
  }

  ghost predicate FirstUnused(slots: seq<Slot>, i: int) {
    0 <= i < |slots| && slots[i].state.UNUSED? && forall k :: 0 <= k < i ==> !slots[k].state.UNUSED?
  }

  ghost predicate FirstPid(slots: seq<Slot>, pid: int, k: int) {
    0 <= k < |slots| && slots[k].pid == pid && forall j :: 0 <= j < k ==> slots[j].pid != pid
  }

  function Killed(s: Slot): Slot {
    s.(killed := true, state := if s.state.SLEEPING? then RUNNABLE else s.state)
  }

  // --------------------------------------------------------------- processes together

  datatype Event =
    | Alloc                                              // allocproc takes a slot
    | GiveUp(i: int)                                     // allocproc or fork fails: the embryo's slot is unused again
    | SetParent(i: int, cur: int)                        // fork: np->parent = proc
    | Launch(i: int)                                     // fork: np->state = RUNNABLE
    | Exit(cur: int, status: int)
    | WaitPid(cur: int, childPid: int, wantsStatus: bool)
    | Sleep(cur: int, id: int)                           // sleep on anything but a process
    | Wakeup(id: int)
    | Kill(pid: int)
    | Schedule(i: int)                                   // the scheduler picks a process, which tidies its chan
    | Yield(cur: int)

  ghost predicate IsRunning(w: World, cur: int) {
    0 <= cur < |w.slots| && w.slots[cur].state.RUNNING?
  }

  /** The event takes the table from w to v. */
  ghost predicate Next(w: World, e: Event, v: World) {
    match e
    case Alloc =>
      exists i :: FirstUnused(w.slots, i)
                  && v == w.(slots := w.slots[i := w.slots[i].(state := EMBRYO, pid := w.nextpid)],
                      nextpid := w.nextpid + 1)
    case GiveUp(i) =>
      && 0 <= i < |w.slots| && w.slots[i].state.EMBRYO? && w.slots[i].parent == NONE
      && v == w.(slots := w.slots[i := w.slots[i].(state := UNUSED)])
    case SetParent(i, cur) =>
      && 0 <= i < |w.slots| && w.slots[i].state.EMBRYO? && w.slots[i].parent == NONE && IsRunning(w, cur)
      && v == w.(slots := w.slots[i := w.slots[i].(parent := cur)])
    case Launch(i) =>
      && 0 <= i < |w.slots| && w.slots[i].state.EMBRYO? && w.slots[i].parent != NONE
      && v == w.(slots := w.slots[i := w.slots[i].(state := RUNNABLE)])
    case Exit(cur, status) =>
      && IsRunning(w, cur) && cur != w.init
      && v == w.(slots := Exited(w.slots, cur, w.init, status), exits := w.exits[w.slots[cur].pid := status])
    case WaitPid(cur, childPid, wantsStatus) =>
      && IsRunning(w, cur)
      && exists out :: WaitPost(w.slots, cur, childPid, wantsStatus, out, v.slots)
                       && v == w.(slots := v.slots, reports := w.reports + Reports(out))
    case Sleep(cur, id) =>
      IsRunning(w, cur) && v == w.(slots := w.slots[cur := w.slots[cur].(chan := OnOther(id), state := SLEEPING)])
    case Wakeup(id) =>
      v == w.(slots := WakeAll(w.slots, OnOther(id)))
    case Kill(pid) =>
      exists k :: FirstPid(w.slots, pid, k) && v == w.(slots := w.slots[k := Killed(w.slots[k])])
    case Schedule(i) =>
      && 0 <= i < |w.slots| && w.slots[i].state.RUNNABLE?
      && v == w.(slots := w.slots[i := w.slots[i].(state := RUNNING, chan := NoChan)])
    case Yield(cur) =>
      IsRunning(w, cur) && v == w.(slots := w.slots[cur := w.slots[cur].(state := RUNNABLE)])
  }

  // ------------------------------------------------------------------- the invariant

  /** A process's parent, if it has one, is another process and can still wait for it; every
      process but init has one. */
  ghost predicate FamilyOk(w: World, i: int)
    requires 0 <= i < |w.slots|
  {
    var s := w.slots[i];
    && (s.state.UNUSED? ==> s.parent == NONE)
    && (s.parent != NONE ==> 0 <= s.parent < |w.slots| && s.parent != i && Alive(w.slots[s.parent].state))
    && (i != w.init && (Alive(s.state) || s.state.ZOMBIE?) ==> s.parent != NONE)
  }

  /** Only waitpid sleeps on a process, its own, and not while there is a child for it to report. */
  ghost predicate WaitOk(w: World, i: int)
    requires 0 <= i < |w.slots|
  {
    var s := w.slots[i];
    s.state.SLEEPING? && s.chan.OnProc? ==> s.chan.p == i && !HasZombie(w.slots, i, s.waitFor)
  }

  /** A zombie's exit is on record with its status and has not been reported; a process that has not exited has no
      record. */
  ghost predicate RecordOk(w: World, i: int)
    requires 0 <= i < |w.slots|
  {
    var s := w.slots[i];
    && (!s.state.UNUSED? ==> 0 < s.pid < w.nextpid)
    && (s.state.ZOMBIE? ==> s.pid in w.exits && w.exits[s.pid] == s.exitStatus && !Reported(w, s.pid))
    && (!s.state.UNUSED? && !s.state.ZOMBIE? ==> s.pid !in w.exits)
  }

  ghost predicate Reported(w: World, pid: int) {
    exists k :: 0 <= k < |w.reports| && w.reports[k].pid == pid
  }

  ghost predicate PidsDiffer(w: World, i: int, j: int)
    requires 0 <= i < |w.slots| && 0 <= j < |w.slots|
  {
    !w.slots[i].state.UNUSED? && !w.slots[j].state.UNUSED? ==> w.slots[i].pid != w.slots[j].pid
  }

  /** Every report is of an exit, with the status given to exit, and no exit is reported twice. */
  ghost predicate ReportsOk(w: World) {
    && (forall p :: p in w.exits ==> p < w.nextpid)
    && (forall k :: 0 <= k < |w.reports| ==>
        w.reports[k].pid in w.exits && w.exits[w.reports[k].pid] == w.reports[k].status)
    && (forall j, k :: 0 <= j < k < |w.reports| ==> w.reports[j].pid != w.reports[k].pid)
  }

  ghost predicate Shape(w: World) {
    |w.slots| == NPROC && 0 < w.nextpid && 0 <= w.init < NPROC && Alive(w.slots[w.init].state)
      && w.slots[w.init].parent == NONE
  }

  ghost predicate Inv(w: World) {
    && Shape(w) && ReportsOk(w)
    && (forall i :: 0 <= i < NPROC ==> FamilyOk(w, i))
    && (forall i :: 0 <= i < NPROC ==> WaitOk(w, i))
    && (forall i :: 0 <= i < NPROC ==> RecordOk(w, i))
    && (forall i, j :: 0 <= i < j < NPROC ==> PidsDiffer(w, i, j))
  }

  /** A change to one slot that keeps its pid, its parent, its life and its exit record keeps the invariant, provided it
      does not put the process to sleep in waitpid. */
  lemma SlotKeepsInv(w: World, i: int, s: Slot, v: World)
    requires Inv(w) && 0 <= i < NPROC && v == w.(slots := w.slots[i := s])
    requires s.pid == w.slots[i].pid && s.parent == w.slots[i].parent && s.exitStatus == w.slots[i].exitStatus
    requires s.state == w.slots[i].state || (Alive(s.state) && Alive(w.slots[i].state))
    requires s.state.SLEEPING? && s.chan.OnProc? ==>
               s == w.slots[i] || (s.chan == OnProc(i) && !HasZombie(w.slots, i, s.waitFor))
    ensures Inv(v)
  {
    forall k | 0 <= k < NPROC
      ensures FamilyOk(v, k) && WaitOk(v, k) && RecordOk(v, k)
    {
      assert FamilyOk(w, k) && WaitOk(w, k) && RecordOk(w, k);
    }
    forall j, k | 0 <= j < k < NPROC
      ensures PidsDiffer(v, j, k)
    {
      assert PidsDiffer(w, j, k);
    }
  }

  lemma AllocKeepsInv(w: World, i: int, v: World)
    requires Inv(w) && FirstUnused(w.slots, i)
    requires v == w.(slots := w.slots[i := w.slots[i].(state := EMBRYO, pid := w.nextpid)], nextpid := w.nextpid + 1)
    ensures Inv(v)
  {
    forall k | 0 <= k < NPROC
      ensures FamilyOk(v, k) && WaitOk(v, k) && RecordOk(v, k)
    {
      assert FamilyOk(w, k) && WaitOk(w, k) && RecordOk(w, k) && FamilyOk(w, i);
    }
    forall j, k | 0 <= j < k < NPROC
      ensures PidsDiffer(v, j, k)
    {
      assert PidsDiffer(w, j, k) && RecordOk(w, j) && RecordOk(w, k);
    }
  }

  lemma EmbryoKeepsInv(w: World, e: Event, v: World)
    requires Inv(w) && Next(w, e, v) && (e.GiveUp? || e.SetParent? || e.Launch?)
    ensures Inv(v)
  {
    forall k | 0 <= k < NPROC
      ensures FamilyOk(v, k) && WaitOk(v, k) && RecordOk(v, k)
    {
      assert FamilyOk(w, k) && WaitOk(w, k) && RecordOk(w, k) && WaitOk(w, e.i) && FamilyOk(w, e.i);
    }
    forall j, k | 0 <= j < k < NPROC
      ensures PidsDiffer(v, j, k)
    {
      assert PidsDiffer(w, j, k);
    }
  }

  lemma WakeupKeepsInv(w: World, id: int, v: World)
    requires Inv(w) && v == w.(slots := WakeAll(w.slots, OnOther(id)))
    ensures Inv(v)
  {
    forall k | 0 <= k < NPROC
      ensures FamilyOk(v, k) && WaitOk(v, k) && RecordOk(v, k)
    {
      assert FamilyOk(w, k) && WaitOk(w, k) && RecordOk(w, k);
    }
    forall j, k | 0 <= j < k < NPROC
      ensures PidsDiffer(v, j, k)
    {
      assert PidsDiffer(w, j, k);
    }
  }

  lemma ReapKeepsInv(w: World, k: int, v: World)
    requires Inv(w) && 0 <= k < NPROC && w.slots[k].state.ZOMBIE?
    requires v == w.(slots := w.slots[k := Freed(w.slots[k])],
               reports := w.reports + [Report(w.slots[k].pid, w.slots[k].exitStatus)])
    ensures Inv(v)
  {
    assert RecordOk(w, k);
    forall i | 0 <= i < NPROC
      ensures FamilyOk(v, i) && WaitOk(v, i) && RecordOk(v, i)
    {
      assert FamilyOk(w, i) && WaitOk(w, i) && RecordOk(w, i) && FamilyOk(w, k);
      assert i < k ==> PidsDiffer(w, i, k);
      assert k < i ==> PidsDiffer(w, k, i);
    }
    forall i, j | 0 <= i < j < NPROC
      ensures PidsDiffer(v, i, j)
    {
      assert PidsDiffer(w, i, j);
    }
    assert !Reported(w, w.slots[k].pid);
  }

  /** What exit makes of the other slots: a child gets init as its parent; init wakes exactly if it gets a zombie; the
      parent wakes; and no one else does. */
  lemma ExitedAt(slots: seq<Slot>, cur: int, init: int, status: int, k: int)
    requires 0 <= cur < |slots| && 0 <= k < |slots| && k != cur
    ensures var s, r := slots[k], Exited(slots, cur, init, status)[k];
            && r == s.(parent := if s.parent == cur then init else s.parent, state := r.state)
            && r.state == if s.state.SLEEPING?
                             && (s.chan == ChanOf(slots[cur].parent)
                                 || (s.chan == OnProc(init) && ZombieChild(slots, cur, |slots|)))
                          then RUNNABLE else s.state
  {
    var a := WakeAll(slots[cur := slots[cur].(exitStatus := status)], ChanOf(slots[cur].parent));
    assert forall j :: 0 <= j < |slots| ==> a[j].parent == slots[j].parent;
    assert forall j :: 0 <= j < |slots| ==> (a[j].state.ZOMBIE? <==> slots[j].state.ZOMBIE?);
    assert ZombieChild(a, cur, |slots|) <==> ZombieChild(slots, cur, |slots|);
  }

  lemma ExitedSelf(slots: seq<Slot>, cur: int, init: int, status: int)
    requires 0 <= cur < |slots| && slots[cur].state.RUNNING? && slots[cur].parent != cur
    ensures Exited(slots, cur, init, status)[cur] == slots[cur].(state := ZOMBIE, exitStatus := status)
  {
  }

  /** No one still asleep in waitpid has a zombie to report after an exit. */
  lemma ExitWakesWaiter(w: World, cur: int, status: int, v: World, i: int)
    requires Inv(w) && IsRunning(w, cur) && cur != w.init
    requires v == w.(slots := Exited(w.slots, cur, w.init, status), exits := w.exits[w.slots[cur].pid := status])
    requires 0 <= i < NPROC
    ensures WaitOk(v, i)
  {
    assert FamilyOk(w, cur) && WaitOk(w, i);
    ExitedSelf(w.slots, cur, w.init, status);
    if i != cur && v.slots[i].state.SLEEPING? && v.slots[i].chan.OnProc? {
      ExitedAt(w.slots, cur, w.init, status, i);
      forall k | 0 <= k < NPROC && v.slots[k].state.ZOMBIE?
        ensures !Matches(v.slots[k], i, v.slots[i].waitFor)
      {
        if k != cur {
          ExitedAt(w.slots, cur, w.init, status, k);
          assert w.slots[k].state.ZOMBIE?;
        }
      }
    }
  }

  lemma ExitKeepsInv(w: World, cur: int, status: int, v: World)
    requires Inv(w) && IsRunning(w, cur) && cur != w.init
    requires v == w.(slots := Exited(w.slots, cur, w.init, status), exits := w.exits[w.slots[cur].pid := status])
    ensures Inv(v)
  {
    assert FamilyOk(w, cur) && RecordOk(w, cur);
    ExitedSelf(w.slots, cur, w.init, status);
    ExitedAt(w.slots, cur, w.init, status, w.init);
    assert !Reported(w, w.slots[cur].pid);
    forall k | 0 <= k < NPROC
      ensures FamilyOk(v, k) && WaitOk(v, k) && RecordOk(v, k)
    {
      assert FamilyOk(w, k) && RecordOk(w, k);
      assert k < cur ==> PidsDiffer(w, k, cur);
      assert cur < k ==> PidsDiffer(w, cur, k);
      ExitWakesWaiter(w, cur, status, v, k);
      if k != cur {
        ExitedAt(w.slots, cur, w.init, status, k);
        var p := v.slots[k].parent;
        if p != NONE && p != cur {
          ExitedAt(w.slots, cur, w.init, status, p);
        }
      } else if w.slots[cur].parent != NONE {
        ExitedAt(w.slots, cur, w.init, status, w.slots[cur].parent);
      }
    }
    forall i, j | 0 <= i < j < NPROC
      ensures PidsDiffer(v, i, j)
    {
      assert PidsDiffer(w, i, j);
      if i != cur {
        ExitedAt(w.slots, cur, w.init, status, i);
      }
      if j != cur {
        ExitedAt(w.slots, cur, w.init, status, j);
      }
    }
  }

  lemma WaitKeepsInv(w: World, cur: int, childPid: int, wantsStatus: bool, out: Wait, v: World)
    requires Inv(w) && IsRunning(w, cur) && WaitPost(w.slots, cur, childPid, wantsStatus, out, v.slots)
    requires v == w.(slots := v.slots, reports := w.reports + Reports(out))
    ensures Inv(v)
  {
    if out.Reaped? {
      var k :| FirstZombie(w.slots, cur, childPid, k)
               && out == Reaped(w.slots[k].pid, w.slots[k].exitStatus) && v.slots == w.slots[k := Freed(w.slots[k])];
      ReapKeepsInv(w, k, v);
    } else if out.Slept? {
      SlotKeepsInv(w, cur, v.slots[cur], v);
    } else {
      assert v == w;
    }
  }

  /** Every event keeps the invariant. */
  lemma EventKeepsInv(w: World, e: Event, v: World)
    requires Inv(w) && Next(w, e, v)
    ensures Inv(v)
  {
    match e
    case Alloc =>
      var i :| FirstUnused(w.slots, i)
               && v == w.(slots := w.slots[i := w.slots[i].(state := EMBRYO, pid := w.nextpid)],
                   nextpid := w.nextpid + 1);
      AllocKeepsInv(w, i, v);
    case GiveUp(_) => EmbryoKeepsInv(w, e, v);
    case SetParent(_, _) => EmbryoKeepsInv(w, e, v);
    case Launch(_) => EmbryoKeepsInv(w, e, v);
    case Exit(cur, status) => ExitKeepsInv(w, cur, status, v);
    case WaitPid(cur, childPid, wantsStatus) =>
      var out :| WaitPost(w.slots, cur, childPid, wantsStatus, out, v.slots)
                 && v == w.(slots := v.slots, reports := w.reports + Reports(out));
      WaitKeepsInv(w, cur, childPid, wantsStatus, out, v);
    case Sleep(cur, id) => SlotKeepsInv(w, cur, v.slots[cur], v);
    case Wakeup(id) => WakeupKeepsInv(w, id, v);
    case Kill(pid) =>
      var k :| FirstPid(w.slots, pid, k) && v == w.(slots := w.slots[k := Killed(w.slots[k])]);
      SlotKeepsInv(w, k, Killed(w.slots[k]), v);
    case Schedule(i) => SlotKeepsInv(w, i, v.slots[i], v);
    case Yield(cur) => SlotKeepsInv(w, cur, v.slots[cur], v);
  }

  // ------------------------------------------------------------- what follows, for every run

  /** A run from boot: the tables it goes through and the events between them. */
  ghost predicate Run(ws: seq<World>, es: seq<Event>) {
    && |ws| == |es| + 1 && ws[0] == Booted()
    && forall k :: 0 <= k < |es| ==> Next(ws[k], es[k], ws[k + 1])
  }

  lemma BootedInv()
    ensures Inv(Booted())
  {
    var w := Booted();
    forall i | 0 <= i < NPROC
      ensures FamilyOk(w, i) && WaitOk(w, i) && RecordOk(w, i)
    {
    }
    forall i, j | 0 <= i < j < NPROC
      ensures PidsDiffer(w, i, j)
    {
    }
  }

  lemma {:induction false} RunInv(ws: seq<World>, es: seq<Event>, n: nat)
    requires Run(ws, es) && n < |ws|
    ensures Inv(ws[n])
  {
    if n == 0 {
      BootedInv();
    } else {
      RunInv(ws, es, n - 1);
      EventKeepsInv(ws[n - 1], es[n - 1], ws[n]);
    }
  }

  /** No lost child: at every point of every run, each process but init, a zombie above all, has a parent that is
      neither a zombie nor gone, and no process sleeps in waitpid while a child it asked for is a zombie. */
  lemma NoLostChild(ws: seq<World>, es: seq<Event>, n: nat, i: int)
    requires Run(ws, es) && n < |ws| && 0 <= i < |ws[n].slots|
    ensures var w := ws[n]; var s := w.slots[i];
            && (i != w.init && (Alive(s.state) || s.state.ZOMBIE?) ==>
                  0 <= s.parent < |w.slots| && Alive(w.slots[s.parent].state))
            && (s.state.SLEEPING? && s.chan == OnProc(i) ==>
                  forall k :: 0 <= k < |w.slots| && w.slots[k].parent == i && w.slots[k].state.ZOMBIE? ==>
                    s.waitFor != NONE && w.slots[k].pid != s.waitFor)
  {
    RunInv(ws, es, n);
    assert FamilyOk(ws[n], i) && WaitOk(ws[n], i);
  }

  /** Exit statuses are handed out faithfully: each report carries the status its process passed to exit, and no process
      is reported twice. */
  lemma ReportedOnce(ws: seq<World>, es: seq<Event>, n: nat)
    requires Run(ws, es) && n < |ws|
    ensures var w := ws[n];
            && (forall k :: 0 <= k < |w.reports| ==>
                w.reports[k].pid in w.exits && w.exits[w.reports[k].pid] == w.reports[k].status)
            && (forall j, k :: 0 <= j < k < |w.reports| ==> w.reports[j].pid != w.reports[k].pid)
  {
    RunInv(ws, es, n);
  }

  /** The record of exits is faithful too: a pid enters it once, with the status given to exit, and stays as it is. */
  lemma ExitsAreFinal(ws: seq<World>, es: seq<Event>, n: nat)
    requires Run(ws, es) && n < |es|
    ensures var w, v := ws[n], ws[n + 1];
            && (forall p :: p in w.exits ==> p in v.exits && v.exits[p] == w.exits[p])
            && (forall p :: p in v.exits && p !in w.exits ==>
                  es[n].Exit? && IsRunning(w, es[n].cur) && w.slots[es[n].cur].pid == p && v.exits[p] == es[n].status)
  {
    RunInv(ws, es, n);
    assert Next(ws[n], es[n], ws[n + 1]);
    if es[n].Exit? {
      assert RecordOk(ws[n], es[n].cur);
    }
  }

  /** waitpid reaps exactly when there is a zombie among the children asked for and the caller gives somewhere to put
      the status; with a null status it fails. It sleeps exactly when there is a child asked for, none of those is a
      zombie, and the caller is not killed. */
  lemma ReapsExactly(slots: seq<Slot>, cur: int, childPid: int, wantsStatus: bool, out: Wait, r: seq<Slot>)
    requires 0 <= cur < |slots| && WaitPost(slots, cur, childPid, wantsStatus, out, r)
    ensures out.Reaped? <==> wantsStatus && exists k ::
              0 <= k < |slots| && slots[k].parent == cur && (childPid == NONE || slots[k].pid == childPid)
              && slots[k].state.ZOMBIE?
    ensures out.Reaped? ==> exists k ::
              && 0 <= k < |slots| && slots[k].parent == cur && slots[k].state.ZOMBIE?
              && (childPid == NONE || slots[k].pid == childPid)
              && out == Reaped(slots[k].pid, slots[k].exitStatus) && r == slots[k := r[k]] && r[k].state.UNUSED?
    ensures out.Slept? <==>
            && !slots[cur].killed
            && (exists k :: 0 <= k < |slots| && slots[k].parent == cur
                            && (childPid == NONE || slots[k].pid == childPid))
            && (forall k :: 0 <= k < |slots| && slots[k].parent == cur && slots[k].state.ZOMBIE? ==>
                  childPid != NONE && slots[k].pid != childPid)
    ensures out.Failed? ==> r == slots
  {
    forall k | 0 <= k < |slots|
      ensures Matches(slots[k], cur, childPid) <==>
              slots[k].parent == cur && (childPid == NONE || slots[k].pid == childPid)
    {
    }
    if out.Reaped? {
      var k :| FirstZombie(slots, cur, childPid, k)
               && out == Reaped(slots[k].pid, slots[k].exitStatus) && r == slots[k := Freed(slots[k])];
      assert r == slots[k := r[k]];
    }
  }
}
