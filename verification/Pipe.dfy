/**
  Pipes (pipe.c): a ring buffer with wrapping 32-bit counters, proved to be a queue, and
  the sleeping and waking of its readers and writers under every interleaving.
 */
module Pipe {
  import opened Ranges
  import opened Blocks

  const PIPESIZE: int := 512
  const UINT: int := 0x1_0000_0000

  // -------------------------------------------------------- the queue it stands for

  /** A pipe as its users see it: every byte ever accepted, how many of them have been delivered, which ends are
      open, and who sleeps on its two channels. */
  datatype Queue = Queue(
    accepted: seq<byte>, delivered: nat,
    readopen: bool, writeopen: bool,
    readers: set<nat>,   // asleep on &p->nread
    writers: set<nat>)   // asleep on &p->nwrite
  {
    ghost predicate Ok() {
      delivered <= |accepted| <= delivered + PIPESIZE
    }

    ghost function Pending(): int { |accepted| - delivered }
  }

  /** How a stretch of pipewrite or piperead ends: it returns, or it sleeps and will go on later. */
  datatype Outcome = Returned(n: int) | Asleep(next: nat)

  /** pipewrite of addr, resumed at byte i by process pid, up to its return or its next sleep. */
  ghost function Written(q: Queue, pid: nat, addr: seq<byte>, i: nat, killed: bool): (r: (Queue, Outcome))
    requires q.Ok() && i <= |addr|
  {
    var k := Min(|addr| - i, PIPESIZE - q.Pending());
    var p := q.(accepted := q.accepted + addr[i..i + k]);
    if i + k == |addr| then (p.(readers := {}), Returned(|addr|))
    else if !q.readopen || killed then (p, Returned(-1))
    else (p.(readers := {}, writers := q.writers + {pid}), Asleep(i + k))
  }

  /** piperead of up to n bytes by process pid, up to its return or its next sleep, and the bytes it delivers. */
  ghost function ReadOut(q: Queue, pid: nat, n: nat, killed: bool): (r: (Queue, Outcome, seq<byte>))
    requires q.Ok()
  {
    if q.Pending() == 0 && q.writeopen then
      if killed then (q, Returned(-1), []) else (q.(readers := q.readers + {pid}), Asleep(0), [])
    else
      var k := Min(n, q.Pending());
      (q.(delivered := q.delivered + k, writers := {}), Returned(k), q.accepted[q.delivered..q.delivered + k])
  }

  /** pipeclose of one end. */
  ghost function Closed(q: Queue, writable: bool): Queue {
    if writable then q.(writeopen := false, readers := {}) else q.(readopen := false, writers := {})
  }

  // --------------------------------------------------------------- the ring buffer

  class RingPipe {
    var data: array<byte>
    var nread: int
    var nwrite: int
    var readopen: bool
    var writeopen: bool
    /** Processes asleep on &nread and on &nwrite. */
    var readers: set<nat>
    var writers: set<nat>

    /** Every byte accepted since the pipe was made, and how many have been read. */
    ghost var accepted: seq<byte>
    ghost var delivered: nat

    ghost predicate Valid()
      reads this, data
    {
      && data.Length == PIPESIZE
      && delivered <= |accepted| <= delivered + PIPESIZE
      && nread == delivered % UINT && nwrite == |accepted| % UINT
      && forall k :: delivered <= k < |accepted| ==> data[k % PIPESIZE] == accepted[k]
    }

    ghost function Abs(): Queue
      reads this
    {
      Queue(accepted, delivered, readopen, writeopen, readers, writers)
    }

    /** pipealloc */
    constructor ()
      ensures Valid() && fresh(data)
      ensures Abs() == Queue([], 0, true, true, {}, {})
    {
      data := new byte[PIPESIZE](_ => 0);
      nread, nwrite := 0, 0;
      readopen, writeopen := true, true;
      readers, writers := {}, {};
      accepted, delivered := [], 0;
    }

    predicate Full()
      reads this
    {
      nwrite == (nread + PIPESIZE) % UINT
    }

    /** p->data[p->nwrite++ % PIPESIZE] = b */
    method Put(b: byte)
      requires Valid() && |accepted| < delivered + PIPESIZE
      modifies this`nwrite, this`accepted, data
      ensures Valid() && accepted == old(accepted) + [b]
    {
      WrapSlot(|accepted|);
      assert forall k :: delivered <= k < |accepted| ==> k % PIPESIZE != |accepted| % PIPESIZE by {
        forall k | delivered <= k < |accepted|
          ensures k % PIPESIZE != |accepted| % PIPESIZE
        {
          SlotsDiffer(k, |accepted|);
        }
      }
      data[nwrite % PIPESIZE] := b;
      nwrite := (nwrite + 1) % UINT;
      accepted := accepted + [b];
    }

    /** addr[i] = p->data[p->nread++ % PIPESIZE] */
    method Get() returns (b: byte)
      requires Valid() && delivered < |accepted|
      modifies this`nread, this`delivered
      ensures Valid() && delivered == old(delivered) + 1 && b == accepted[old(delivered)]
    {
      WrapSlot(delivered);
      b := data[nread % PIPESIZE];
      nread := (nread + 1) % UINT;
      delivered := delivered + 1;
    }

    /** pipewrite, from taking the lock (or waking with it) to returning or going to sleep. */
    method Write(pid: nat, addr: seq<byte>, start: nat, killed: bool) returns (out: Outcome)
      requires Valid() && start <= |addr|
      modifies this`nwrite, this`accepted, this`readers, this`writers, data
      ensures Valid()
      ensures (Abs(), out) == Written(old(Abs()), pid, addr, start, killed)
      ensures out.Asleep? ==>
                && start <= out.next < |addr| && accepted == old(accepted) + addr[start..out.next]
                && |accepted| == delivered + PIPESIZE && pid in writers && readers == {} && readopen && !killed
      ensures out.Returned? && out.n != -1 ==>
                out.n == |addr| && accepted == old(accepted) + addr[start..] && readers == {}
      ensures out == Returned(-1) ==>
                && |accepted| == delivered + PIPESIZE && (!readopen || killed)
                && exists e :: start <= e < |addr| && accepted == old(accepted) + addr[start..e]
    {
      var i := start;
      while i < |addr|
        invariant Valid() && start <= i <= |addr|
        invariant accepted == old(accepted) + addr[start..i]
        invariant readers == old(readers) && writers == old(writers)
      {
        FullExactly(delivered, |accepted|);
        if Full() {
          if !readopen || killed {
            return Returned(-1);
          }
          readers := {};
          writers := writers + {pid};
          return Asleep(i);
        }
        Put(addr[i]);
        i := i + 1;
      }
      readers := {};
      return Returned(|addr|);
    }

    /** piperead, from taking the lock (or waking with it) to returning or going to sleep. */
    method Read(pid: nat, n: nat, killed: bool) returns (out: Outcome, addr: seq<byte>)
      requires Valid()
      modifies this`nread, this`delivered, this`readers, this`writers
      ensures Valid()
      ensures var r := ReadOut(old(Abs()), pid, n, killed);
              Abs() == r.0 && out == r.1 && addr == r.2
      ensures addr == accepted[old(delivered)..delivered]
      ensures out.Asleep? ==> |accepted| == delivered == old(delivered) && writeopen && !killed && pid in readers
      ensures out == Returned(-1) ==> |accepted| == delivered == old(delivered) && writeopen && killed
      ensures out.Returned? && out.n != -1 ==>
                && out.n == |addr| <= n && (|addr| < n ==> delivered == |accepted|) && writers == {}
                && (old(delivered) < |accepted| || !writeopen)
    {
      addr := [];
      EmptyExactly(delivered, |accepted|);
      if nread == nwrite && writeopen {
        if killed {
          return Returned(-1), [];
        }
        readers := readers + {pid};
        return Asleep(0), [];
      }
      var i := 0;
      while i < n
        invariant Valid() && 0 <= i <= n && |addr| == i
        invariant delivered == old(delivered) + i && readers == old(readers)
        invariant addr == accepted[old(delivered)..delivered]
      {
        EmptyExactly(delivered, |accepted|);
        if nread == nwrite {
          break;
        }
        var b := Get();
        assert accepted[old(delivered)..delivered] == accepted[old(delivered)..delivered - 1] + [b];
        addr := addr + [b];
        i := i + 1;
      }
      writers := {};
      out := Returned(i);
    }

    /** pipeclose: true when the pipe's page is freed. */
    method Close(writable: bool) returns (freed: bool)
      requires Valid()
      modifies this`readopen, this`writeopen, this`readers, this`writers
      ensures Valid()
      ensures Abs() == Closed(old(Abs()), writable)
      ensures writeopen == (old(writeopen) && !writable) && readopen == (old(readopen) && writable)
      ensures readers == (if writable then {} else old(readers)) && writers == if writable then old(writers) else {}
      ensures freed <==> !readopen && !writeopen
    {
      if writable {
        writeopen := false;
        readers := {};
      } else {
        readopen := false;
        writers := {};
      }
      freed := !readopen && !writeopen;
    }
  }

  // ------------------------------------------------ counters that wrap, slots that do not

  /** The counters wrap at a multiple of PIPESIZE, so the slot of byte k is the slot of its counter. */
  lemma WrapSlot(k: nat)
    ensures k % UINT % PIPESIZE == k % PIPESIZE
    ensures (k % UINT + 1) % UINT == (k + 1) % UINT
  {
  }

  lemma SlotsDiffer(j: nat, k: nat)
    requires j < k < j + PIPESIZE
    ensures j % PIPESIZE != k % PIPESIZE
  {
  }

  /** nwrite == nread + PIPESIZE in 32-bit arithmetic says exactly that PIPESIZE bytes are pending. */
  lemma FullExactly(d: nat, a: nat)
    requires d <= a <= d + PIPESIZE
    ensures a % UINT == (d % UINT + PIPESIZE) % UINT <==> a == d + PIPESIZE
  {
  }

  lemma EmptyExactly(d: nat, a: nat)
    requires d <= a <= d + PIPESIZE
    ensures d % UINT == a % UINT <==> a == d
  {
  }

  // ------------------------------------------------------ readers and writers together

  /** What a process is doing with the pipe. A process that sleeps is also in the queue's readers or writers. `id` is
      the number of the write among all writes. */
  datatype Activity = Idle | Writing(id: nat, addr: seq<byte>, i: nat) | Reading(n: nat)

  /** A call of write: what it was given, and what it has returned. */
  datatype Call = Call(addr: seq<byte>, result: Result)

  datatype Result = Running | Done(n: int)

  /** A call of read that has returned: how much it asked for, what it returned and what it was given. */
  datatype Delivery = Delivery(asked: nat, n: int, got: seq<byte>)

  /** The pipe, its users, and what readers have been given so far.  `calls` are all writes so far, `marks` say which
      of them each accepted byte comes from, `deliveries` are all reads that have returned. */
  datatype System = System(q: Queue, procs: map<nat, Activity>, killed: set<nat>, given: seq<byte>,
                           calls: seq<Call>, marks: seq<nat>, deliveries: seq<Delivery>)

  datatype Event =
    | StartWrite(pid: nat, addr: seq<byte>)
    | StartRead(pid: nat, n: nat)
    | Go(pid: nat)            // a process that is not asleep runs on to its return or its next sleep
    | Kill(pid: nat)          // kill: marks the process and wakes it
    | Close(writable: bool)   // the last file descriptor of one end goes

  function Doing(s: System, pid: nat): Activity {
    if pid in s.procs then s.procs[pid] else Idle
  }

  ghost predicate Enabled(s: System, e: Event) {
    && s.q.Ok()
    && match e
       case StartWrite(pid, _) => Doing(s, pid).Idle? && s.q.writeopen
       case StartRead(pid, _) => Doing(s, pid).Idle? && s.q.readopen
       case Go(pid) =>
         && pid !in s.q.readers && pid !in s.q.writers
         && (Doing(s, pid).Writing? || Doing(s, pid).Reading?)
         && (Doing(s, pid).Writing? ==> Doing(s, pid).i <= |Doing(s, pid).addr|)
       case Kill(_) => true
       // An end stays open while a process is inside read or write on it: the process holds the descriptor.
       case Close(writable) =>
         forall pid :: pid in s.procs ==> if writable then !s.procs[pid].Writing? else !s.procs[pid].Reading?
  }

  ghost function Do(s: System, e: Event): System
    requires Enabled(s, e)
  {
    match e
    case StartWrite(pid, addr) =>
      s.(procs := s.procs[pid := Writing(|s.calls|, addr, 0)], calls := s.calls + [Call(addr, Running)])
    case StartRead(pid, n) => s.(procs := s.procs[pid := Reading(n)])
    case Go(pid) =>
      (match Doing(s, pid)
       case Writing(id, addr, i) =>
         var (q, out) := Written(s.q, pid, addr, i, pid in s.killed);
         var more := Max(|q.accepted| - |s.q.accepted|, 0);
         var t := s.(q := q, marks := s.marks + seq(more, _ => id));
         if out.Asleep? then t.(procs := s.procs[pid := Writing(id, addr, out.next)])
         else t.(procs := s.procs[pid := Idle], calls := Answered(s.calls, id, out.n))
       case Reading(n) =>
         var (q, out, got) := ReadOut(s.q, pid, n, pid in s.killed);
         var t := s.(q := q, given := s.given + got);
         if out.Asleep? then t.(procs := s.procs[pid := Reading(n)])
         else t.(procs := s.procs[pid := Idle], deliveries := s.deliveries + [Delivery(n, out.n, got)])
       case Idle => s)
    case Kill(pid) =>
      s.(killed := s.killed + {pid}, q := s.q.(readers := s.q.readers - {pid}, writers := s.q.writers - {pid}))
    case Close(writable) => s.(q := Closed(s.q, writable))
  }

  function Answered(calls: seq<Call>, id: nat, n: int): seq<Call> {
    if id < |calls| then calls[id := calls[id].(result := Done(n))] else calls
  }

  ghost predicate Initial(s: System) {
    && s.q == Queue([], 0, true, true, {}, {}) && s.procs == map[] && s.given == []
    && s.calls == [] && s.marks == [] && s.deliveries == []
  }

  /** First in, first out; at most PIPESIZE bytes in between; a writer sleeps only on a full pipe someone may read. */
  ghost predicate Inv(s: System) {
    && s.q.Ok()
    && s.given == s.q.accepted[..s.q.delivered]
    && (forall pid :: pid in s.q.writers ==>
          && Doing(s, pid).Writing? && Doing(s, pid).i < |Doing(s, pid).addr|
          && s.q.Pending() == PIPESIZE && s.q.readopen)
    && (forall pid :: pid in s.q.readers ==> Doing(s, pid).Reading?)
    && (forall pid :: pid in s.procs && s.procs[pid].Writing? ==>
        s.procs[pid].i <= |s.procs[pid].addr| && s.q.writeopen)
    && (forall pid :: pid in s.procs && s.procs[pid].Reading? ==> s.q.readopen)
  }

  /** A reader sleeps only on an empty pipe someone may write. */
  ghost predicate ReadersWait(s: System) {
    s.q.readers != {} ==> s.q.Pending() == 0 && s.q.writeopen
  }

  /** A write that leaves a sleeping reader with bytes to read: the writer has been killed, and has more to write than
      the empty pipe takes. */
  ghost predicate Abandons(s: System, e: Event) {
    && e.Go? && e.pid in s.killed && s.q.readers != {}
    && Doing(s, e.pid).Writing? && |Doing(s, e.pid).addr| - Doing(s, e.pid).i > PIPESIZE
  }

  lemma StepKeepsInv(s: System, e: Event)
    requires Inv(s) && Enabled(s, e)
    ensures Inv(Do(s, e))
  {
    if e.Go? {
      if Doing(s, e.pid).Writing? {
        WriteKeepsInv(s, e.pid);
      } else {
        ReadKeepsInv(s, e.pid);
      }
    }
  }

  lemma WriteKeepsInv(s: System, pid: nat)
    requires Inv(s) && Enabled(s, Go(pid)) && Doing(s, pid).Writing?
    ensures Inv(Do(s, Go(pid)))
  {
  }

  lemma ReadKeepsInv(s: System, pid: nat)
    requires Inv(s) && Enabled(s, Go(pid)) && Doing(s, pid).Reading?
    ensures Inv(Do(s, Go(pid)))
  {
  }

  /** The one way to lose a wakeup: from a state where readers sleep on an empty pipe only, a step leads to one where
      they do not exactly when it is a killed writer giving up on a full pipe. */
  lemma LostWakeupExactly(s: System, e: Event)
    requires Inv(s) && ReadersWait(s) && Enabled(s, e)
    ensures ReadersWait(Do(s, e)) <==> !Abandons(s, e)
  {
  }

  ghost predicate Possible(s: System, run: seq<Event>)
    decreases |run|
  {
    run == [] || (Enabled(s, run[0]) && Possible(Do(s, run[0]), run[1..]))
  }

  ghost function After(s: System, run: seq<Event>): System
    requires Possible(s, run)
    decreases |run|
  {
    if run == [] then s else After(Do(s, run[0]), run[1..])
  }

  ghost predicate NoneAbandons(s: System, run: seq<Event>)
    requires Possible(s, run)
    decreases |run|
  {
    run == [] || (!Abandons(s, run[0]) && NoneAbandons(Do(s, run[0]), run[1..]))
  }

  /** Over every interleaving, and however often the counters have wrapped: what readers were given is a prefix of what
      was accepted, at most PIPESIZE bytes are in between, and a sleeping writer means a full pipe with its read end
      open. */
  lemma {:induction false} PipeSafe(s: System, run: seq<Event>)
    requires Inv(s) && Possible(s, run)
    ensures Inv(After(s, run))
    decreases |run|
  {
    if run != [] {
      StepKeepsInv(s, run[0]);
      PipeSafe(Do(s, run[0]), run[1..]);
    }
  }

  lemma FromTheStart(s: System, run: seq<Event>)
    requires Initial(s) && Possible(s, run)
    ensures var t := After(s, run);
            && t.given <= t.q.accepted && |t.q.accepted| - |t.given| <= PIPESIZE
            && (t.q.writers != {} ==> |t.q.accepted| - |t.given| == PIPESIZE && t.q.readopen)
  {
    PipeSafe(s, run);
    var t := After(s, run);
    if t.q.writers != {} {
      var pid :| pid in t.q.writers;
    }
  }

  /** As long as no killed writer gives up on a full pipe, a sleeping reader means an empty pipe with its write end
      open. */
  lemma {:induction false} ReadersKeepWaiting(s: System, run: seq<Event>)
    requires Inv(s) && ReadersWait(s) && Possible(s, run) && NoneAbandons(s, run)
    ensures ReadersWait(After(s, run))
    decreases |run|
  {
    if run != [] {
      StepKeepsInv(s, run[0]);
      LostWakeupExactly(s, run[0]);
      ReadersKeepWaiting(Do(s, run[0]), run[1..]);
    }
  }

  /** And that can happen: a reader asleep, a writer killed before it writes one byte more than the pipe holds. */
  lemma LostWakeup(addr: seq<byte>) returns (s: System, run: seq<Event>)
    requires |addr| == PIPESIZE + 1
    ensures Initial(s) && Possible(s, run) && !ReadersWait(After(s, run))
  {
    s := System(Queue([], 0, true, true, {}, {}), map[], {}, [], [], [], []);
    var s1 := Do(s, StartRead(1, 1));
    var s2 := Do(s1, Go(1));
    var s3 := Do(s2, StartWrite(2, addr));
    var s4 := Do(s3, Kill(2));
    var s5 := Do(s4, Go(2));
    assert 1 in s5.q.readers && !ReadersWait(s5);
    RunCons(s4, Go(2), []);
    RunCons(s3, Kill(2), [Go(2)]);
    RunCons(s2, StartWrite(2, addr), [Kill(2), Go(2)]);
    RunCons(s1, Go(1), [StartWrite(2, addr), Kill(2), Go(2)]);
    RunCons(s, StartRead(1, 1), [Go(1), StartWrite(2, addr), Kill(2), Go(2)]);
    run := [StartRead(1, 1), Go(1), StartWrite(2, addr), Kill(2), Go(2)];
  }

  // ------------------------------------------------------- whose bytes, and how many

  /** The bytes that write number id put into the pipe, in order. */
  ghost function Sent(accepted: seq<byte>, marks: seq<nat>, id: nat): seq<byte>
    requires |accepted| == |marks|
  {
    if accepted == [] then []
    else
      var n := |accepted| - 1;
      Sent(accepted[..n], marks[..n], id) + if marks[n] == id then [accepted[n]] else []
  }

  lemma {:induction false} SentMore(accepted: seq<byte>, marks: seq<nat>, more: seq<byte>, id: nat, j: nat)
    requires |accepted| == |marks|
    ensures Sent(accepted + more, marks + seq(|more|, _ => id), j) ==
              Sent(accepted, marks, j) + if j == id then more else []
    decreases |more|
  {
    var ms := seq(|more|, _ => id);
    if more == [] {
      assert accepted + more == accepted && marks + ms == marks;
    } else {
      var n := |more| - 1;
      SentMore(accepted, marks, more[..n], id, j);
      var all, alls := accepted + more, marks + ms;
      assert all[..|all| - 1] == accepted + more[..n];
      assert alls[..|all| - 1] == marks + seq(n, _ => id);
      assert more == more[..n] + [more[n]];
    }
  }

  lemma {:induction false} NoneSent(accepted: seq<byte>, marks: seq<nat>, j: nat)
    requires |accepted| == |marks| && forall k :: 0 <= k < |marks| ==> marks[k] < j
    ensures Sent(accepted, marks, j) == []
  {
    if accepted != [] {
      NoneSent(accepted[..|accepted| - 1], marks[..|marks| - 1], j);
    }
  }

  /** A write that is under way has put in exactly the bytes in front of where it will go on; one that has returned
      its length, all of them; one that has returned -1, the first few. */
  ghost predicate SentOk(s: System, j: nat)
    requires |s.marks| == |s.q.accepted| && j < |s.calls|
  {
    var c, sent := s.calls[j], Sent(s.q.accepted, s.marks, j);
    match c.result
    case Running => exists pid :: UnderWay(s, pid, j) && sent == c.addr[..s.procs[pid].i]
    case Done(n) => (n == |c.addr| && sent == c.addr) || (n == -1 && sent < c.addr)
  }

  ghost predicate UnderWay(s: System, pid: nat, j: nat) {
    && pid in s.procs && s.procs[pid].Writing? && s.procs[pid].id == j < |s.calls|
    && s.procs[pid].addr == s.calls[j].addr && s.procs[pid].i <= |s.procs[pid].addr|
  }

  ghost predicate WriterOk(s: System, pid: nat)
    requires pid in s.procs
  {
    s.procs[pid].Writing? ==> UnderWay(s, pid, s.procs[pid].id) && s.calls[s.procs[pid].id].result.Running?
  }

  /** Two processes are not in the same call. */
  ghost predicate OwnCall(s: System, a: nat, b: nat)
    requires a in s.procs && b in s.procs
  {
    s.procs[a].Writing? && s.procs[b].Writing? ==> s.procs[a].id != s.procs[b].id
  }

  ghost function Given(ds: seq<Delivery>): seq<byte> {
    if ds == [] then [] else Given(ds[..|ds| - 1]) + ds[|ds| - 1].got
  }

  /** A read returns the number of bytes it was given, at most what it asked for, or -1 and none. */
  ghost predicate DeliveryOk(d: Delivery) {
    if d.n == -1 then d.got == [] else d.n == |d.got| <= d.asked
  }

  ghost predicate Booked(s: System) {
    && |s.marks| == |s.q.accepted| && (forall k :: 0 <= k < |s.marks| ==> s.marks[k] < |s.calls|)
    && (forall pid :: pid in s.procs ==> WriterOk(s, pid))
    && (forall a, b :: a in s.procs && b in s.procs && a != b ==> OwnCall(s, a, b))
    && (forall j :: 0 <= j < |s.calls| ==> SentOk(s, j))
    && s.given == Given(s.deliveries)
    && (forall k :: 0 <= k < |s.deliveries| ==> DeliveryOk(s.deliveries[k]))
  }

  /** The process goes on writing: the bytes it puts in are its next ones. */
  lemma GoesOn(s: System, pid: nat)
    requires Booked(s) && Enabled(s, Go(pid)) && Doing(s, pid).Writing?
    ensures var a, t := s.procs[pid], Do(s, Go(pid));
            && a.i <= |a.addr| && s.q.accepted <= t.q.accepted
            && exists e :: a.i <= e <= |a.addr| && Continues(s, t, pid, e)
  {
    var a := s.procs[pid];
    assert WriterOk(s, pid);
    var k := Min(|a.addr| - a.i, PIPESIZE - s.q.Pending());
    assert Continues(s, Do(s, Go(pid)), pid, a.i + k);
  }

  ghost predicate Continues(s: System, t: System, pid: nat, e: int)
    requires pid in s.procs && s.procs[pid].Writing? && s.procs[pid].i <= e <= |s.procs[pid].addr|
  {
    var a := s.procs[pid];
    var more := a.addr[a.i..e];
    && t.q.accepted == s.q.accepted + more && t.marks == s.marks + seq(|more|, _ => a.id)
    && t.given == s.given && t.deliveries == s.deliveries
    && ((t.procs == s.procs[pid := Writing(a.id, a.addr, e)] && t.calls == s.calls)
        || (t.procs == s.procs[pid := Idle] && e == |a.addr| && t.calls == Answered(s.calls, a.id, |a.addr|))
        || (t.procs == s.procs[pid := Idle] && e < |a.addr| && t.calls == Answered(s.calls, a.id, -1)))
  }

  lemma WriteKeepsCall(s: System, t: System, pid: nat, e: int, j: nat)
    requires Booked(s) && pid in s.procs && s.procs[pid].Writing? && s.procs[pid].i <= e <= |s.procs[pid].addr|
    requires Continues(s, t, pid, e) && j < |t.calls| == |s.calls| && |t.marks| == |t.q.accepted|
    ensures SentOk(t, j)
  {
    var a := s.procs[pid];
    assert WriterOk(s, pid) && SentOk(s, j);
    SentMore(s.q.accepted, s.marks, a.addr[a.i..e], a.id, j);
    if s.calls[j].result.Running? {
      var b :| UnderWay(s, b, j) && Sent(s.q.accepted, s.marks, j) == s.calls[j].addr[..s.procs[b].i];
      if b != pid {
        assert OwnCall(s, b, pid);
        assert UnderWay(t, b, j);
      } else {
        assert a.addr[..a.i] + a.addr[a.i..e] == a.addr[..e];
        if t.calls == s.calls {
          assert UnderWay(t, pid, j);
        }
      }
    }
  }

  lemma WriteKeepsBooked(s: System, pid: nat)
    requires Booked(s) && Enabled(s, Go(pid)) && Doing(s, pid).Writing?
    ensures Booked(Do(s, Go(pid)))
  {
    var t, a := Do(s, Go(pid)), s.procs[pid];
    GoesOn(s, pid);
    var e :| a.i <= e <= |a.addr| && Continues(s, t, pid, e);
    hide Do, Enabled;
    assert WriterOk(s, pid);
    forall j | 0 <= j < |t.calls|
      ensures SentOk(t, j)
    {
      WriteKeepsCall(s, t, pid, e, j);
    }
    forall b | b in t.procs
      ensures WriterOk(t, b)
    {
      assert WriterOk(s, b);
      assert b != pid ==> OwnCall(s, b, pid);
    }
    forall b, c | b in t.procs && c in t.procs && b != c
      ensures OwnCall(t, b, c)
    {
      assert OwnCall(s, b, c);
    }
  }

  lemma StartKeepsBooked(s: System, pid: nat, addr: seq<byte>)
    requires Booked(s) && Enabled(s, StartWrite(pid, addr))
    ensures Booked(Do(s, StartWrite(pid, addr)))
  {
    var t := Do(s, StartWrite(pid, addr));
    NoneSent(s.q.accepted, s.marks, |s.calls|);
    forall j | 0 <= j < |t.calls|
      ensures SentOk(t, j)
    {
      if j == |s.calls| {
        assert UnderWay(t, pid, j) && addr[..0] == [];
      } else {
        assert SentOk(s, j);
        if b :| UnderWay(s, b, j) && Sent(s.q.accepted, s.marks, j) == s.calls[j].addr[..s.procs[b].i] {
          assert UnderWay(t, b, j);
        }
      }
    }
    forall b | b in t.procs
      ensures WriterOk(t, b)
    {
      assert b != pid ==> WriterOk(s, b);
    }
    forall b, c | b in t.procs && c in t.procs && b != c
      ensures OwnCall(t, b, c)
    {
      assert b != pid && c != pid ==> OwnCall(s, b, c);
      assert b != pid ==> WriterOk(s, b);
      assert c != pid ==> WriterOk(s, c);
    }
  }

  /** A step that writes nothing, for a process that is not in a write. */
  lemma OtherKeepsBooked(s: System, t: System, pid: nat, x: Activity)
    requires Booked(s) && !Doing(s, pid).Writing? && !x.Writing?
    requires t.procs == s.procs || t.procs == s.procs[pid := x]
    requires t.q.accepted == s.q.accepted && t.marks == s.marks && t.calls == s.calls
    requires t.given == Given(t.deliveries)
    requires forall k :: 0 <= k < |t.deliveries| ==> DeliveryOk(t.deliveries[k])
    ensures Booked(t)
  {
    forall j | 0 <= j < |t.calls|
      ensures SentOk(t, j)
    {
      assert SentOk(s, j);
      if b :| UnderWay(s, b, j) && Sent(s.q.accepted, s.marks, j) == s.calls[j].addr[..s.procs[b].i] {
        assert UnderWay(t, b, j);
      }
    }
    forall b | b in t.procs
      ensures WriterOk(t, b)
    {
      assert b in s.procs ==> WriterOk(s, b);
    }
    forall b, c | b in t.procs && c in t.procs && b != c
      ensures OwnCall(t, b, c)
    {
      assert b in s.procs && c in s.procs ==> OwnCall(s, b, c);
    }
  }

  lemma ReadKeepsBooked(s: System, pid: nat)
    requires Inv(s) && Booked(s) && Enabled(s, Go(pid)) && Doing(s, pid).Reading?
    ensures Booked(Do(s, Go(pid)))
  {
    var t := Do(s, Go(pid));
    if t.deliveries != s.deliveries {
      var d := t.deliveries[|s.deliveries|];
      assert t.deliveries[..|s.deliveries|] == s.deliveries;
      assert DeliveryOk(d);
    }
    hide Do, Enabled;
    OtherKeepsBooked(s, t, pid, Doing(t, pid));
  }

  lemma StepKeepsBooked(s: System, e: Event)
    requires Inv(s) && Booked(s) && Enabled(s, e)
    ensures Booked(Do(s, e))
  {
    match e
    case StartWrite(pid, addr) => StartKeepsBooked(s, pid, addr);
    case Go(pid) =>
      if Doing(s, pid).Writing? {
        WriteKeepsBooked(s, pid);
      } else {
        ReadKeepsBooked(s, pid);
      }
    case StartRead(pid, n) => OtherKeepsBooked(s, Do(s, e), pid, Reading(n));
    case Kill(_) => SameBooked(s, Do(s, e));
    case Close(_) => SameBooked(s, Do(s, e));
  }

  lemma SameBooked(s: System, t: System)
    requires Booked(s) && t.procs == s.procs && t.q.accepted == s.q.accepted && t.marks == s.marks
    requires t.calls == s.calls && t.given == s.given && t.deliveries == s.deliveries
    ensures Booked(t)
  {
    forall j | 0 <= j < |t.calls|
      ensures SentOk(t, j)
    {
      assert SentOk(s, j);
      if b :| UnderWay(s, b, j) && Sent(s.q.accepted, s.marks, j) == s.calls[j].addr[..s.procs[b].i] {
        assert UnderWay(t, b, j);
      }
    }
    forall b | b in t.procs
      ensures WriterOk(t, b)
    {
      assert WriterOk(s, b);
    }
    forall b, c | b in t.procs && c in t.procs && b != c
      ensures OwnCall(t, b, c)
    {
      assert OwnCall(s, b, c);
    }
  }

  lemma {:induction false} RunKeepsBooked(s: System, run: seq<Event>)
    requires Inv(s) && Booked(s) && Possible(s, run)
    ensures Booked(After(s, run))
    decreases |run|
  {
    hide Inv, Booked, Do, Enabled;
    if run != [] {
      StepKeepsInv(s, run[0]);
      StepKeepsBooked(s, run[0]);
      RunKeepsBooked(Do(s, run[0]), run[1..]);
    }
  }

  /** Over every run, each accepted byte belongs to one write, and the bytes of a write are, in order and once, a prefix
      of what it was given: all of it when it has returned its length, a proper one when it has returned -1, and up to
      where it will go on while it is under way. */
  lemma WritersBytes(s: System, run: seq<Event>, j: nat)
    requires Initial(s) && Possible(s, run) && j < |After(s, run).calls|
    ensures var t := After(s, run);
            && |t.marks| == |t.q.accepted| && (forall k :: 0 <= k < |t.marks| ==> t.marks[k] < |t.calls|)
            && var c, sent := t.calls[j], Sent(t.q.accepted, t.marks, j);
               match c.result
               case Running => exists pid :: UnderWay(t, pid, j) && sent == c.addr[..t.procs[pid].i]
               case Done(n) => (n == |c.addr| && sent == c.addr) || (n == -1 && sent < c.addr)
  {
    RunKeepsBooked(s, run);
    assert SentOk(After(s, run), j);
  }

  /** Over every run, what readers were given is what the reads returned one after the other, and each of them returned
      the number of bytes it was given. */
  lemma ReadersBytes(s: System, run: seq<Event>, k: nat)
    requires Initial(s) && Possible(s, run)
    ensures After(s, run).given == Given(After(s, run).deliveries)
    ensures var ds := After(s, run).deliveries;
            k < |ds| ==> if ds[k].n == -1 then ds[k].got == [] else ds[k].n == |ds[k].got| <= ds[k].asked
  {
    RunKeepsBooked(s, run);
    assert k < |After(s, run).deliveries| ==> DeliveryOk(After(s, run).deliveries[k]);
  }

  lemma RunCons(s: System, e: Event, run: seq<Event>)
    requires Enabled(s, e) && Possible(Do(s, e), run)
    ensures Possible(s, [e] + run) && After(s, [e] + run) == After(Do(s, e), run)
  {
  }
}
