/** Threads, events, mutexes and user APCs of packages/pe-runner/src/threads.mjs.  A thread runs to completion
    inside CreateThread, and an alertable wait runs queued APCs, so both re-enter guest code
    from inside guest code.  Guest code is any finite program of handler calls; a global
    instruction budget bounds it. */
module Threads {
  import opened Common

  /** Guest-visible operations.  Code reached through an address is written where it is named. */
  datatype Op =
    | CreateThread(body: seq<Op>)
    | QueueUserApc(target: int, routine: seq<Op>)
    | CreateEvent(initial: bool, name: string)
    | SetEvent(handle: int)
    | ResetEvent(handle: int)
    | CreateMutex
    | Wait(handle: int, infinite: bool, alertable: bool)
    | WaitMultiple(handles: seq<int>, all: bool, infinite: bool, alertable: bool)
    | SleepEx(alertable: bool)
    | ExitThread
    | Clobber(rsp: int, regs: seq<int>)
    | Crash

  type Program = seq<Op>

  datatype Thread = Thread(tid: int, exited: bool, faulted: bool)

  /** id: position in the order of all QueueUserAPC calls. */
  datatype Apc = Apc(ghost id: nat, routine: Program)

  /** at: length of the trace of executed operations then. */
  datatype Start = Start(tid: int, id: nat, at: nat)

  /** Executed operations, each with the thread that executed it. */
  type Trace = seq<(int, Op)>

  const MAIN_TID: int := 0x4B0
  const WAIT_OBJECT_0: int := 0
  const WAIT_TIMEOUT: int := 0x102
  const WAIT_IO_COMPLETION: int := 0xC0
  const SLEEP_IO_COMPLETION: int := 0x192
  const MAX_WAIT: nat := 64

  // ------------------------------------------------------------ what has been executed

  /** The thread executed the operations of p one after the other, whatever came in between. */
  ghost predicate Ran(t: Trace, tid: int, p: Program)
    decreases |p|
  {
    p == [] ||
    exists k :: 0 <= k < |t| && t[k] == (tid, p[|p| - 1]) && Ran(t[..k], tid, p[..|p| - 1])
  }

  lemma {:induction false} RanMore(t: Trace, u: Trace, tid: int, p: Program)
    requires Ran(t, tid, p)
    ensures Ran(t + u, tid, p)
  {
    if p != [] {
      var k :| 0 <= k < |t| && t[k] == (tid, p[|p| - 1]) && Ran(t[..k], tid, p[..|p| - 1]);
      assert (t + u)[k] == t[k] && (t + u)[..k] == t[..k];
    }
  }

  lemma {:induction false} RanNext(t: Trace, u: Trace, tid: int, p: Program, op: Op)
    requires Ran(t, tid, p)
    ensures Ran(t + ([(tid, op)] + u), tid, p + [op])
  {
    var w, q := t + ([(tid, op)] + u), p + [op];
    assert w[|t|] == (tid, op) && w[..|t|] == t && q[..|q| - 1] == p;
  }

  /** After this operation a program may not go on: it fails, ends the thread, or runs APCs that may. */
  predicate MayStop(op: Op) {
    || op.Crash? || op.ExitThread?
    || (op.Wait? && op.alertable) || (op.WaitMultiple? && op.alertable) || (op.SleepEx? && op.alertable)
  }

  /** A routine ran to its end, until the budget was used up, or up to an operation that may stop it. */
  ghost predicate RoutineRan(t: Trace, tid: int, p: Program, budget: nat) {
    exists n: nat :: n <= |p| && RanUpTo(t, tid, p, n, budget)
  }

  ghost predicate RanUpTo(t: Trace, tid: int, p: Program, n: nat, budget: nat)
    requires n <= |p|
  {
    Ran(t, tid, p[..n]) && (n == |p| || budget == 0 || (n > 0 && MayStop(p[n - 1])))
  }

  lemma RoutineRanMore(t: Trace, u: Trace, tid: int, p: Program, budget: nat, budget': nat)
    requires RoutineRan(t, tid, p, budget) && budget' <= budget
    ensures RoutineRan(t + u, tid, p, budget')
  {
    hide Ran, MayStop;
    var n: nat :| n <= |p| && RanUpTo(t, tid, p, n, budget);
    RanMore(t, u, tid, p[..n]);
    assert RanUpTo(t + u, tid, p, n, budget');
  }

  ghost predicate StartRan(a: Start, routines: seq<Program>, trace: Trace, budget: nat) {
    a.id < |routines| && a.at <= |trace| && RoutineRan(trace[a.at..], a.tid, routines[a.id], budget)
  }

  /** Every APC started since the first n has been run by its thread, after it was started. */
  ghost predicate RunSince(started: seq<Start>, routines: seq<Program>, trace: Trace, budget: nat, n: nat) {
    forall k :: n <= k < |started| ==> StartRan(started[k], routines, trace, budget)
  }

  lemma StartRanMore(a: Start, routines: seq<Program>, trace: Trace, budget: nat,
                     routines': seq<Program>, trace': Trace, budget': nat)
    requires StartRan(a, routines, trace, budget) && routines <= routines' && trace <= trace' && budget' <= budget
    ensures StartRan(a, routines', trace', budget')
  {
    hide RoutineRan;
    RoutineRanMore(trace[a.at..], trace'[|trace|..], a.tid, routines[a.id], budget, budget');
    assert trace'[a.at..] == trace[a.at..] + trace'[|trace|..];
  }

  lemma NoneStarted(started: seq<Start>, routines: seq<Program>, trace: Trace, budget: nat)
    ensures RunSince(started, routines, trace, budget, |started|)
  {
  }

  /** Going on: what has run has run, and so has what was started meanwhile. */
  lemma RunOn(started: seq<Start>, routines: seq<Program>, trace: Trace, budget: nat, n: nat,
              started': seq<Start>, routines': seq<Program>, trace': Trace, budget': nat)
    requires RunSince(started, routines, trace, budget, n) && started <= started' && routines <= routines'
    requires trace <= trace' && budget' <= budget
    requires RunSince(started', routines', trace', budget', |started|)
    ensures RunSince(started', routines', trace', budget', n)
  {
    hide StartRan;
    forall k | n <= k < |started'| ensures StartRan(started'[k], routines', trace', budget') {
      if k < |started| {
        assert started'[k] == started[k];
        StartRanMore(started[k], routines, trace, budget, routines', trace', budget');
      }
    }
  }

  /** The same with one APC started in between that has now run. */
  lemma RunOnWith(started: seq<Start>, routines: seq<Program>, trace: Trace, budget: nat, n: nat, a: Start,
                  started': seq<Start>, routines': seq<Program>, trace': Trace, budget': nat)
    requires RunSince(started, routines, trace, budget, n) && started + [a] <= started' && routines <= routines'
    requires trace <= trace' && budget' <= budget
    requires RunSince(started', routines', trace', budget', |started| + 1)
    requires StartRan(a, routines', trace', budget')
    ensures RunSince(started', routines', trace', budget', n)
  {
    hide StartRan;
    assert started'[|started|] == a;
    assert started <= started' && RunSince(started', routines', trace', budget', |started|);
    RunOn(started, routines, trace, budget, n, started', routines', trace', budget');
  }

  // ------------------------------------------------------------ queues

  ghost predicate Begun(started: seq<Start>, id: nat) {
    exists k :: 0 <= k < |started| && started[k].id == id
  }

  ghost predicate Queued(q: seq<Apc>, id: nat) {
    exists i :: 0 <= i < |q| && q[i].id == id
  }

  /** Every APC queued so far has been started or is still in its thread's queue. */
  ghost predicate Accounted(started: seq<Start>, apcs: map<int, seq<Apc>>, owner: seq<int>) {
    forall id: nat :: id < |owner| ==> Begun(started, id) || (owner[id] in apcs && Queued(apcs[owner[id]], id))
  }

  /** Queues hold their thread's APCs in the order they were queued. */
  ghost predicate QueuedInOrder(apcs: map<int, seq<Apc>>, owner: seq<int>) {
    && (forall t, i :: t in apcs && 0 <= i < |apcs[t]| ==> apcs[t][i].id < |owner| && owner[apcs[t][i].id] == t)
    && (forall t, i, j :: t in apcs && 0 <= i < j < |apcs[t]| ==> apcs[t][i].id < apcs[t][j].id)
  }

  /** Each thread's APCs were started in the order they were queued, none twice ... */
  ghost predicate StartedInOrder(started: seq<Start>, owner: seq<int>) {
    && (forall k :: 0 <= k < |started| ==> started[k].id < |owner| && owner[started[k].id] == started[k].tid)
    && (forall k, l :: 0 <= k < l < |started| && started[k].tid == started[l].tid ==> started[k].id < started[l].id)
  }

  /** ... and before everything still queued for that thread. */
  ghost predicate StartedFirst(started: seq<Start>, apcs: map<int, seq<Apc>>) {
    forall k, i :: 0 <= k < |started| && started[k].tid in apcs && 0 <= i < |apcs[started[k].tid]| ==>
      started[k].id < apcs[started[k].tid][i].id
  }

  ghost predicate ApcInv(started: seq<Start>, apcs: map<int, seq<Apc>>, owner: seq<int>) {
    && QueuedInOrder(apcs, owner) && StartedInOrder(started, owner)
    && StartedFirst(started, apcs) && Accounted(started, apcs, owner)
  }

  function QueueOf(apcs: map<int, seq<Apc>>, tid: int): seq<Apc> { if tid in apcs then apcs[tid] else [] }

  /** What each queued APC will run. */
  ghost predicate RoutinesOk(apcs: map<int, seq<Apc>>, owner: seq<int>, routines: seq<Program>) {
    && |routines| == |owner|
    && forall t, i :: t in apcs && 0 <= i < |apcs[t]| ==>
         apcs[t][i].id < |routines| && apcs[t][i].routine == routines[apcs[t][i].id]
  }

  lemma ShiftKeepsInv(started: seq<Start>, apcs: map<int, seq<Apc>>, owner: seq<int>, tid: int, at: nat)
    requires ApcInv(started, apcs, owner) && tid in apcs && apcs[tid] != []
    ensures ApcInv(started + [Start(tid, apcs[tid][0].id, at)], apcs[tid := apcs[tid][1..]], owner)
  {
    hide Accounted;
    ShiftLosesNone(started, apcs, owner, tid, at);
  }

  lemma QueueKeepsInv(started: seq<Start>, apcs: map<int, seq<Apc>>, owner: seq<int>, tid: int, routine: Program)
    requires ApcInv(started, apcs, owner)
    ensures ApcInv(started, apcs[tid := QueueOf(apcs, tid) + [Apc(|owner|, routine)]], owner + [tid])
  {
    hide Accounted;
    QueueLosesNone(started, apcs, owner, tid, routine);
  }

  lemma ShiftLosesNone(started: seq<Start>, apcs: map<int, seq<Apc>>, owner: seq<int>, tid: int, at: nat)
    requires Accounted(started, apcs, owner) && tid in apcs && apcs[tid] != []
    ensures Accounted(started + [Start(tid, apcs[tid][0].id, at)], apcs[tid := apcs[tid][1..]], owner)
  {
    var q := apcs[tid];
    var started' := started + [Start(tid, q[0].id, at)];
    forall id: nat | id < |owner|
      ensures Begun(started', id) || (owner[id] in apcs && Queued(apcs[tid := q[1..]][owner[id]], id))
    {
      if Begun(started, id) {
        var k :| 0 <= k < |started| && started[k].id == id;
        assert started'[k].id == id;
      } else if owner[id] == tid {
        var i :| 0 <= i < |q| && q[i].id == id;
        if i == 0 {
          assert started'[|started|].id == id;
        } else {
          assert q[1..][i - 1].id == id;
        }
      }
    }
  }

  lemma QueueLosesNone(started: seq<Start>, apcs: map<int, seq<Apc>>, owner: seq<int>, tid: int, routine: Program)
    requires Accounted(started, apcs, owner)
    ensures Accounted(started, apcs[tid := QueueOf(apcs, tid) + [Apc(|owner|, routine)]], owner + [tid])
  {
    var q := QueueOf(apcs, tid);
    var q' := q + [Apc(|owner|, routine)];
    var apcs' := apcs[tid := q'];
    var owner' := owner + [tid];
    forall id: nat | id < |owner'|
      ensures Begun(started, id) || (owner'[id] in apcs' && Queued(apcs'[owner'[id]], id))
    {
      if id == |owner| {
        assert q'[|q|].id == id;
      } else if owner[id] == tid && !Begun(started, id) {
        var i :| 0 <= i < |q| && q[i].id == id;
        assert q'[i].id == id;
      }
    }
  }

  /** A thread with nothing queued has had every APC started. */
  lemma NoneQueued(started: seq<Start>, apcs: map<int, seq<Apc>>, owner: seq<int>, tid: int)
    requires ApcInv(started, apcs, owner) && QueueOf(apcs, tid) == []
    ensures forall id: nat :: id < |owner| && owner[id] == tid ==> Begun(started, id)
  {
  }

  /** What the two orders mean: no APC is started twice, and one queued later for the same thread
      is never started earlier. */
  lemma StartedOnceInOrder(started: seq<Start>, owner: seq<int>, k: nat, l: nat)
    requires StartedInOrder(started, owner) && k < l < |started|
    ensures started[k].id != started[l].id
    ensures owner[started[k].id] == owner[started[l].id] ==> started[k].id < started[l].id
  {
    assert started[k].tid == owner[started[k].id] && started[l].tid == owner[started[l].id];
  }

  /** Handles and thread ids are fresh; a thread that has not exited is on the call stack; a
      returned handle is signalled. */
  ghost predicate ThreadsInv(threads: map<int, Thread>, handleSeq: int, tidSeq: int, running: set<int>,
                             returned: set<int>)
  {
    && (forall h :: h in threads ==> h <= handleSeq && MAIN_TID < threads[h].tid <= tidSeq)
    && (forall g, h :: g in threads && h in threads && g != h ==> threads[g].tid != threads[h].tid)
    && (forall h :: h in threads && !threads[h].exited ==> h in running)
    && (forall h :: h in returned ==> h in threads && threads[h].exited)
    && (forall h :: h in running ==> h <= handleSeq)
    && MAIN_TID < tidSeq
  }

  lemma ExitKeepsInv(threads: map<int, Thread>, handleSeq: int, tidSeq: int, running: set<int>, returned: set<int>,
                     h: int, faulted: bool)
    requires ThreadsInv(threads, handleSeq, tidSeq, running, returned) && h in threads
    ensures ThreadsInv(threads[h := Thread(threads[h].tid, true, faulted)], handleSeq, tidSeq, running, returned)
  {
  }

  lemma NewThreadKeepsInv(threads: map<int, Thread>, handleSeq: int, tidSeq: int, running: set<int>, returned: set<int>)
    requires ThreadsInv(threads, handleSeq, tidSeq, running, returned)
    ensures var h, tid := handleSeq + 4, tidSeq + 4;
      && h !in threads && h !in running
      && ThreadsInv(threads[h := Thread(tid, false, false)], h, tid, running + {h}, returned)
  {
  }

  lemma ReturnKeepsInv(threads: map<int, Thread>, handleSeq: int, tidSeq: int, running: set<int>, returned: set<int>,
                       h: int)
    requires ThreadsInv(threads, handleSeq, tidSeq, running, returned) && h in threads && threads[h].exited
    ensures ThreadsInv(threads, handleSeq, tidSeq, running - {h}, returned + {h})
  {
  }

  /** One counter numbers all objects, so a handle names one object; a name stands for an event. */
  ghost predicate ObjectsInv(threads: map<int, Thread>, events: map<int, bool>, mutexes: set<int>,
                             names: map<string, int>, handleSeq: int)
  {
    && (forall h :: h in threads ==> h <= handleSeq)
    && (forall h :: h in events ==> h <= handleSeq && h !in threads)
    && (forall h :: h in mutexes ==> h <= handleSeq && h !in threads && h !in events)
    && (forall n :: n in names ==> names[n] in events)
  }

  lemma MoreHandlesKeepInv(threads: map<int, Thread>, handleSeq: int, tidSeq: int, running: set<int>,
                           returned: set<int>)
    requires ThreadsInv(threads, handleSeq, tidSeq, running, returned)
    ensures ThreadsInv(threads, handleSeq + 4, tidSeq, running, returned)
  {
  }

  /** A thread that has not exited, or an event that is not set: what a wait waits for. */
  predicate Pending(threads: map<int, Thread>, events: map<int, bool>, h: int) {
    if h in threads then !threads[h].exited else h in events && !events[h]
  }

  class ThreadManager {
    var threads: map<int, Thread>
    /** Events with their signalled state; open event names. */
    var events: map<int, bool>
    var mutexes: set<int>
    var names: map<string, int>
    var apcs: map<int, seq<Apc>>
    var handleSeq: int
    var tidSeq: int
    var currentTid: int
    var rsp: int
    var calleeSaved: seq<int>
    var halted: bool
    /** Guest instructions left. */
    var budget: nat
    /** Thread each APC was queued for and what it runs, by id; APCs started so far; operations
        executed; threads on the call stack; handles CreateThread has returned. */
    ghost var owner: seq<int>
    ghost var routines: seq<Program>
    ghost var trace: Trace
    ghost var started: seq<Start>
    ghost var running: set<int>
    ghost var returned: set<int>

    // ---------------------------------------------------------- what every operation keeps

    ghost predicate ApcsOk()
      reads this`started, this`apcs, this`owner, this`routines
    {
      ApcInv(started, apcs, owner) && RoutinesOk(apcs, owner, routines)
    }

    ghost predicate ThreadsOk()
      reads this`threads, this`handleSeq, this`tidSeq, this`running, this`returned
    {
      ThreadsInv(threads, handleSeq, tidSeq, running, returned)
    }

    ghost predicate ObjectsOk()
      reads this`threads, this`events, this`mutexes, this`names, this`handleSeq
    {
      ObjectsInv(threads, events, mutexes, names, handleSeq)
    }

    ghost predicate Valid()
      reads this`apcs, this`owner, this`started, this`threads, this`handleSeq, this`tidSeq, this`running, this`returned
      reads this`events, this`mutexes, this`names, this`routines
    {
      ApcsOk() && ThreadsOk() && ObjectsOk()
    }

    /** History only grows, every APC started meanwhile has been run, and the thread that calls is the
        thread that continues. */
    twostate predicate Continues()
      reads this`apcs, this`owner, this`started, this`threads, this`running, this`returned, this`currentTid, this`budget
      reads this`events, this`mutexes, this`names, this`routines, this`trace
    {
      && old(started) <= started && old(owner) <= owner && old(returned) <= returned
      && old(routines) <= routines && old(trace) <= trace
      && RunSince(started, routines, trace, budget, |old(started)|)
      && running == old(running) && currentTid == old(currentTid)
      && budget <= old(budget) && old(apcs).Keys <= apcs.Keys
      && (forall h :: h in old(threads) ==> h in threads && threads[h].tid == old(threads)[h].tid)
      && (forall h :: h in old(threads) && old(threads)[h].exited ==> threads[h].exited)
      && old(events).Keys <= events.Keys && old(mutexes) <= mutexes
      && (forall n :: n in old(names) ==> n in names && names[n] == old(names)[n])
    }

    constructor (budget: nat)
      ensures Valid() && currentTid == MAIN_TID && running == {} && started == [] && returned == {}
    {
      threads, apcs, handleSeq, tidSeq := map[], map[], 0x300, 0x600;
      events, mutexes, names := map[], {}, map[];
      currentTid, rsp, calleeSaved, halted := MAIN_TID, 0, [], false;
      this.budget := budget;
      owner, started, running, returned := [], [], {}, {};
      routines, trace := [], [];
    }

    // ---------------------------------------------------------- threads

    /** Runs the routine on its own stack; whatever it does, the caller's thread id, stack
        pointer and callee-saved registers are back afterwards and the thread has exited. */
    method RunThread(h: int, stack: int, body: Program)
      requires Valid() && h in threads && h in running && !threads[h].exited
      requires budget > 0
      modifies this
      ensures Valid() && Continues()
      ensures rsp == old(rsp) && calleeSaved == old(calleeSaved) && !halted
      ensures threads[h].exited && RoutineRan(trace[|old(trace)|..], threads[h].tid, body, budget)
      ensures budget < old(budget)
      decreases budget, 0
    {
      hide ApcsOk, ThreadsOk, ObjectsOk, Valid, RunSince, RoutineRan;
      var savedRegs, savedRsp, prevTid := calleeSaved, rsp, currentTid;
      Enter(threads[h].tid, stack);
      var faulted := Call(body);
      Leave(h, faulted, prevTid, savedRsp, savedRegs);
    }

    method Enter(tid: int, stack: int)
      requires budget > 0
      modifies this`currentTid, this`rsp, this`budget
      ensures currentTid == tid && budget == old(budget) - 1
      ensures rsp % 16 == 0 && stack + 0x100000 - 0x110 < rsp <= stack + 0x100000 - 0x100
    {
      currentTid := tid;
      rsp := (stack + 0x100000 - 0x100) / 16 * 16;
      budget := budget - 1;
    }

    /** The finally block: runs however the routine ended. */
    method Leave(h: int, faulted: bool, tid: int, savedRsp: int, savedRegs: seq<int>)
      requires Valid() && h in threads
      modifies this`threads, this`currentTid, this`rsp, this`calleeSaved, this`halted
      ensures Valid()
      ensures threads == old(threads)[h := Thread(old(threads)[h].tid, true, faulted)]
      ensures currentTid == tid && rsp == savedRsp && calleeSaved == savedRegs && !halted
    {
      hide ApcsOk, ThreadsInv;
      ExitKeepsInv(threads, handleSeq, tidSeq, running, returned, h, faulted);
      calleeSaved, rsp, halted, currentTid := savedRegs, savedRsp, false, tid;
      threads := threads[h := threads[h].(exited := true, faulted := faulted)];
    }

    /** A fresh handle and thread id. */
    method Register() returns (h: int)
      requires ThreadsOk() && ObjectsOk()
      modifies this`threads, this`handleSeq, this`tidSeq, this`running
      ensures ThreadsOk() && ObjectsOk() && h !in old(threads) && h !in old(running)
      ensures running == old(running) + {h} && threads == old(threads)[h := Thread(tidSeq, false, false)]
    {
      hide ThreadsInv;
      NewThreadKeepsInv(threads, handleSeq, tidSeq, running, returned);
      handleSeq, tidSeq := handleSeq + 4, tidSeq + 4;
      h := handleSeq;
      threads := threads[h := Thread(tidSeq, false, false)];
      running := running + {h};
    }

    /** The thread has exited: its handle may be handed out. */
    ghost method Return(h: int)
      requires ThreadsOk() && h in threads && threads[h].exited
      modifies this`running, this`returned
      ensures ThreadsOk() && running == old(running) - {h} && returned == old(returned) + {h}
    {
      hide ThreadsInv;
      ReturnKeepsInv(threads, handleSeq, tidSeq, running, returned, h);
      running, returned := running - {h}, returned + {h};
    }

    /** CreateThread: the new thread has finished when its handle is returned. */
    method MakeThread(stack: int, body: Program) returns (h: int)
      requires Valid() && budget > 0
      modifies this
      ensures Valid() && Continues()
      ensures rsp == old(rsp) && calleeSaved == old(calleeSaved) && !halted
      ensures h !in old(threads) && h in returned && h in threads && threads[h].exited
      ensures RoutineRan(trace[|old(trace)|..], threads[h].tid, body, budget)
      ensures budget < old(budget)
      decreases budget, 1
    {
      hide ApcsOk, ThreadsOk, ObjectsOk, RunSince, RoutineRan;
      h := Register();
      RunThread(h, stack, body);
      Return(h);
    }

    // ---------------------------------------------------------- events, mutexes and waits

    /** A name that is open already gives its event again, whatever its state; else a fresh handle. */
    method CreateEvent(initial: bool, name: string) returns (h: int)
      requires Valid()
      modifies this`events, this`names, this`handleSeq
      ensures Valid() && Continues() && h in events
      ensures name != "" ==> name in names && names[name] == h
      ensures name != "" && name in old(names) ==> h == old(names)[name] && events == old(events) && names == old(names)
      ensures name == "" || name !in old(names) ==>
        && h !in threads && h !in old(events) && h !in mutexes && events == old(events)[h := initial]
        && names == if name == "" then old(names) else old(names)[name := h]
    {
      hide ApcsOk, ThreadsInv;
      if name != "" && name in names { return names[name]; }
      MoreHandlesKeepInv(threads, handleSeq, tidSeq, running, returned);
      handleSeq := handleSeq + 4;
      h := handleSeq;
      events := events[h := initial];
      if name != "" { names := names[name := h]; }
    }

    /** SetEvent, ResetEvent and PulseEvent; a handle that is no event is ignored. */
    method SignalEvent(h: int, signalled: bool)
      requires Valid()
      modifies this`events
      ensures Valid() && Continues()
      ensures events == if h in old(events) then old(events)[h := signalled] else old(events)
    {
      hide ApcsOk, ThreadsInv;
      if h in events { events := events[h := signalled]; }
    }

    /** Always a new mutex, also for a name used before. */
    method CreateMutex() returns (h: int)
      requires Valid()
      modifies this`mutexes, this`handleSeq
      ensures Valid() && Continues()
      ensures h !in threads && h !in events && h !in old(mutexes) && mutexes == old(mutexes) + {h}
    {
      hide ApcsOk, ThreadsInv;
      MoreHandlesKeepInv(threads, handleSeq, tidSeq, running, returned);
      handleSeq := handleSeq + 4;
      h := handleSeq;
      mutexes := mutexes + {h};
    }

    /** Owned mutexes and unknown handles count as signalled. */
    method IsSignalled(h: int) returns (s: bool)
      ensures s <==> !Pending(threads, events, h)
    {
      if h in threads { return threads[h].exited; }
      if h in events { return events[h]; }
      s := true;
    }

    /** The loop over at most 64 handles. */
    method WaitForMultipleObjects(handles: seq<int>, all: bool, infinite: bool) returns (r: int)
      ensures r == 0x102 || r == 0
      ensures all ==> (r == 0x102 <==>
        !infinite && exists i :: 0 <= i < |handles| && i < 64 && Pending(threads, events, handles[i]))
      ensures !all ==> (r == 0x102 <==>
        !infinite && forall i :: 0 <= i < |handles| && i < 64 ==> Pending(threads, events, handles[i]))
    {
      var n := if |handles| <= MAX_WAIT then |handles| else MAX_WAIT;
      var every, some := true, false;
      for i := 0 to n
        invariant every <==> forall j :: 0 <= j < i ==> !Pending(threads, events, handles[j])
        invariant some <==> exists j :: 0 <= j < i && !Pending(threads, events, handles[j])
      {
        var s := IsSignalled(handles[i]);
        every, some := every && s, some || s;
      }
      r := if (if all then every else some) || infinite then WAIT_OBJECT_0 else WAIT_TIMEOUT;
    }

    // ---------------------------------------------------------- APCs

    method QueueApc(target: int, routine: Program)
      requires Valid()
      modifies this`apcs, this`owner, this`routines
      ensures Valid() && Continues() && routines == old(routines) + [routine]
      ensures var tid := if target in threads then threads[target].tid else currentTid;
        owner == old(owner) + [tid] && apcs == old(apcs)[tid := QueueOf(old(apcs), tid) + [Apc(|old(owner)|, routine)]]
    {
      hide ThreadsOk, ObjectsOk, ApcInv;
      NoneStarted(started, routines + [routine], trace, budget);
      hide RunSince;
      QueueKeepsInv(started, apcs, owner, if target in threads then threads[target].tid else currentTid, routine);
      var tid := if target in threads then threads[target].tid else currentTid;
      var list := if tid in apcs then apcs[tid] else [];
      apcs := apcs[tid := list + [Apc(|owner|, routine)]];
      owner, routines := owner + [tid], routines + [routine];
    }

    /** Takes the oldest APC of the current thread, which is thereby started. */
    method Shift() returns (a: Apc)
      requires Valid() && currentTid in apcs && |apcs[currentTid]| != 0
      modifies this`apcs, this`started
      ensures Valid() && a == old(apcs)[currentTid][0]
      ensures apcs == old(apcs)[currentTid := old(apcs)[currentTid][1..]]
      ensures started == old(started) + [Start(currentTid, a.id, |trace|)]
      ensures a.id < |routines| && a.routine == routines[a.id]
    {
      hide ThreadsOk, ObjectsOk, ApcInv;
      a := apcs[currentTid][0];
      apcs := apcs[currentTid := apcs[currentTid][1..]];
      started := started + [Start(currentTid, a.id, |trace|)];
      ShiftKeepsInv(old(started), old(apcs), owner, currentTid, |trace|);
    }

    lemma AllBegun()
      requires Valid() && QueueOf(apcs, currentTid) == []
      ensures forall id: nat :: id < |owner| && owner[id] == currentTid ==> Begun(started, id)
    {
      NoneQueued(started, apcs, owner, currentTid);
    }

    /** Runs the oldest APC of the current thread; a fault in it is only noted. */
    method RunOldest()
      requires Valid() && currentTid in apcs && apcs[currentTid] != []
      modifies this
      ensures Valid() && Continues() && |started| > |old(started)|
      ensures started[|old(started)|] == Start(currentTid, old(apcs)[currentTid][0].id, |old(trace)|)
      ensures budget == old(budget) ==>
        threads == old(threads) && apcs == old(apcs)[currentTid := old(apcs)[currentTid][1..]]
      decreases budget, 3, 1
    {
      hide ThreadsOk, ObjectsOk, ApcsOk, RunSince, StartRan, RoutineRan;
      NoneStarted(started, routines, trace, budget);
      ghost var s0, r0, t0, b0 := started, routines, trace, budget;
      var a := Shift();
      var faulted := Call(a.routine);
      StartIs(Start(currentTid, a.id, |t0|), routines, trace, budget, a.routine);
      RunOnWith(s0, r0, t0, b0, |s0|, Start(currentTid, a.id, |t0|), started, routines, trace, budget);
    }

    /** Runs the current thread's APCs until none is left, including those queued meanwhile and
        those a routine drains itself. */
    method DrainApcs() returns (ran: nat)
      requires Valid()
      modifies this
      ensures Valid() && Continues()
      ensures currentTid in apcs ==> apcs[currentTid] == []
      ensures ran <= |started| - |old(started)|
      ensures ran == 0 <==> QueueOf(old(apcs), currentTid) == []
      ensures ran == 0 ==> unchanged(this)
      ensures forall id: nat :: id < |owner| && owner[id] == currentTid ==> Begun(started, id)
      ensures budget == old(budget) ==> threads == old(threads)
      decreases budget, 4
    {
      hide ThreadsOk, ObjectsOk, ApcsOk, RunSince, StartRan, RoutineRan;
      NoneStarted(started, routines, trace, budget);
      ran := 0;
      if currentTid !in apcs {
        AllBegun();
        return;
      }
      while |apcs[currentTid]| != 0
        invariant Valid() && Continues()
        invariant currentTid in apcs
        invariant ran <= |started| - |old(started)|
        invariant ran == 0 ==> unchanged(this)
        invariant ran != 0 ==> old(apcs)[currentTid] != []
        invariant budget == old(budget) ==> threads == old(threads)
        decreases budget, |apcs[currentTid]|
      {
        ghost var s0, r0, t0, b0 := started, routines, trace, budget;
        RunOldest();
        ran := ran + 1;
        RunOn(s0, r0, t0, b0, |old(started)|, started, routines, trace, budget);
      }
      AllBegun();
    }

    // ---------------------------------------------------------- guest calls

    /** call: runs guest code until it returns, halts or faults. */
    method Call(p: Program) returns (faulted: bool)
      requires Valid()
      modifies this
      ensures Valid() && Continues()
      ensures budget == old(budget) ==> apcs == old(apcs) && threads == old(threads) && started == old(started)
      ensures RoutineRan(trace[|old(trace)|..], currentTid, p, budget)
      decreases budget, 3, 0
    {
      hide ThreadsOk, ApcsOk, ObjectsOk, RunSince, Ran, MayStop;
      halted, faulted := false, false;
      NoneStarted(started, routines, trace, budget);
      assert trace[|trace|..] == [] && p[..0] == [];
      NothingRan(currentTid);
      var i := 0;
      while i < |p| && !halted && !faulted
        invariant 0 <= i <= |p|
        invariant Valid() && Continues()
        invariant budget == old(budget) ==> apcs == old(apcs) && threads == old(threads) && started == old(started)
        invariant Ran(trace[|old(trace)|..], currentTid, p[..i])
        invariant (faulted ==> budget == 0 || (i > 0 && MayStop(p[i - 1]))) && (halted ==> i > 0 && MayStop(p[i - 1]))
        decreases |p| - i, !faulted
      {
        if budget == 0 {
          faulted := true;
        } else {
          ghost var s0, r0, t0, b0 := started, routines, trace, budget;
          faulted := Execute(p[i]);
          RunOn(s0, r0, t0, b0, |old(started)|, started, routines, trace, budget);
          RanOneMore(t0[|old(trace)|..], trace[|old(trace)|..], currentTid, p, i);
          i := i + 1;
        }
      }
      assert RanUpTo(trace[|old(trace)|..], currentTid, p, i, budget);
    }

    /** What an operation that runs no guest code does, and does not. */
    twostate predicate Performed(op: Op, faulted: bool)
      reads this
    {
      && faulted == op.Crash?
      && halted == (op.ExitThread? || old(halted))
      && rsp == (if op.Clobber? then op.rsp else old(rsp))
      && calleeSaved == (if op.Clobber? then op.regs else old(calleeSaved))
      && (op.CreateMutex? || mutexes == old(mutexes)) && (op.CreateEvent? || names == old(names))
      && EventsAfter(op) && QueuesAfter(op)
    }

    twostate predicate EventsAfter(op: Op)
      reads this
    {
      match op
      case SetEvent(h) => events == if h in old(events) then old(events)[h := true] else old(events)
      case ResetEvent(h) => events == if h in old(events) then old(events)[h := false] else old(events)
      case CreateEvent(initial, name) =>
        if name != "" && name in old(names) then events == old(events)
        else exists h :: h !in old(events) && events == old(events)[h := initial] && (name == "" || name in names)
      case _ => events == old(events)
    }

    twostate predicate QueuesAfter(op: Op)
      reads this
    {
      if op.QueueUserApc? then
        var tid := if op.target in old(threads) then old(threads)[op.target].tid else old(currentTid);
        owner == old(owner) + [tid] && routines == old(routines) + [op.routine]
      else owner == old(owner) && routines == old(routines) && apcs == old(apcs)
    }

    /** The operations that run no guest code: on events and mutexes, and the others. */
    method ExecuteObject(op: Op)
      requires Valid()
      modifies this`events, this`mutexes, this`names, this`handleSeq
      ensures Valid() && Continues() && EventsAfter(op)
      ensures (op.CreateMutex? || mutexes == old(mutexes)) && (op.CreateEvent? || names == old(names))
    {
      hide ThreadsOk, ApcsOk, ObjectsOk;
      NoneStarted(started, routines, trace, budget);
      hide RunSince;
      match op
      case CreateEvent(initial, name) => var h := CreateEvent(initial, name);
      case SetEvent(h) => SignalEvent(h, true);
      case ResetEvent(h) => SignalEvent(h, false);
      case CreateMutex => var h := CreateMutex();
      case _ =>
    }

    /** ... the registers and the halted flag, and nothing else. */
    method ExecuteCpu(op: Op)
      requires Valid()
      modifies this`halted, this`rsp, this`calleeSaved
      ensures Valid() && Continues()
      ensures halted == (op.ExitThread? || old(halted))
      ensures rsp == (if op.Clobber? then op.rsp else old(rsp))
      ensures calleeSaved == (if op.Clobber? then op.regs else old(calleeSaved))
    {
      hide ThreadsOk, ApcsOk, ObjectsOk;
      NoneStarted(started, routines, trace, budget);
      hide RunSince;
      match op
      case ExitThread => halted := true;
      case Clobber(sp, regs) => rsp, calleeSaved := sp, regs;
      case _ =>
    }

    method ExecuteSimple(op: Op) returns (faulted: bool)
      requires Valid()
      modifies this`apcs, this`owner, this`routines, this`events, this`mutexes, this`names, this`handleSeq
      modifies this`halted, this`rsp, this`calleeSaved
      ensures Valid() && Continues() && Performed(op, faulted)
    {
      hide Valid, Continues, EventsAfter;
      faulted := op.Crash?;
      if op.QueueUserApc? {
        QueueApc(op.target, op.routine);
        SameEvents(op);
      } else if op.ExitThread? || op.Clobber? {
        ExecuteCpu(op);
        SameEvents(op);
      } else {
        ExecuteObject(op);
      }
    }

    twostate lemma SameEvents(op: Op)
      requires events == old(events) && (op.QueueUserApc? || op.ExitThread? || op.Clobber?)
      ensures EventsAfter(op)
    {
    }

    predicate RunsCode(op: Op) {
      op.CreateThread? || op.Wait? || op.WaitMultiple? || op.SleepEx?
    }

    /** The thread's handle has been returned, and it has run its routine since then. */
    ghost predicate Finished(h: int, body: Program, at: nat)
      reads this`threads, this`returned, this`trace, this`budget
    {
      && h in returned && h in threads && threads[h].exited
      && at <= |trace| && RoutineRan(trace[at..], threads[h].tid, body, budget)
    }

    /** One guest operation uses up one unit of the budget. */
    method Execute(op: Op) returns (faulted: bool)
      requires Valid() && budget > 0 && !halted
      modifies this
      ensures Valid() && Continues() && budget < old(budget)
      ensures old(trace) + [(currentTid, op)] <= trace
      ensures (faulted ==> MayStop(op)) && (halted ==> MayStop(op))
      ensures !RunsCode(op) ==> Performed(op, faulted)
      ensures op.CreateThread? ==> exists h :: h !in old(threads) && Finished(h, op.body, |old(trace)| + 1)
      decreases budget, 2
    {
      hide ThreadsOk, ApcsOk, ObjectsOk, RunSince, RoutineRan;
      faulted := false;
      trace := trace + [(currentTid, op)];
      if op.CreateThread? {
        var h := MakeThread(0, op.body);
        assert Finished(h, op.body, |old(trace)| + 1);
      } else {
        budget := budget - 1;
        faulted := ExecuteHandler(op);
      }
    }

    /** All operations but CreateThread. */
    method ExecuteHandler(op: Op) returns (faulted: bool)
      requires Valid() && !halted
      modifies this
      ensures Valid() && Continues()
      ensures (faulted ==> MayStop(op)) && (halted ==> MayStop(op))
      ensures !RunsCode(op) ==> Performed(op, faulted)
      decreases budget, 6
    {
      hide ThreadsOk, ApcsOk, ObjectsOk, RunSince;
      faulted := false;
      match op
      case Wait(h, infinite, alertable) => var r := WaitForSingleObjectEx(h, infinite, alertable);
      case WaitMultiple(handles, all, infinite, alertable) =>
        var r := WaitForMultipleObjectsEx(handles, all, infinite, alertable);
      case SleepEx(alertable) => var r := SleepEx(alertable);
      case _ => faulted := ExecuteSimple(op);
    }

    /** Answers 0x192, not the 0xC0 of the waits, when it ran APCs. */
    method SleepEx(alertable: bool) returns (r: int)
      requires Valid()
      modifies this
      ensures Valid() && Continues()
      ensures r == if alertable && QueueOf(old(apcs), currentTid) != [] then 0x192 else 0
      ensures r == 0 ==> unchanged(this)
      ensures alertable && currentTid in apcs ==> apcs[currentTid] == []
      decreases budget, 5
    {
      hide ThreadsOk, ApcsOk, ObjectsOk;
      NoneStarted(started, routines, trace, budget);
      hide RunSince;
      r := 0;
      if alertable {
        var n := DrainApcs();
        if n > 0 { r := SLEEP_IO_COMPLETION; }
      }
    }

    /** An alertable wait with APCs queued runs them and says so; any other wait changes nothing, events
        included, and times out exactly when it is not infinite and the object is pending, so never for
        a handle CreateThread has returned. */
    method WaitForSingleObjectEx(h: int, infinite: bool, alertable: bool) returns (r: int)
      requires Valid()
      modifies this
      ensures Valid() && Continues()
      ensures r == 0xC0 <==> alertable && QueueOf(old(apcs), currentTid) != []
      ensures r != 0xC0 ==> unchanged(this) && (r == 0x102 || r == 0)
      ensures r != 0xC0 ==>
        (r == 0x102 <==> !infinite && if h in threads then !threads[h].exited else h in events && !events[h])
      ensures h in old(returned) ==> r != 0x102
      ensures alertable && currentTid in apcs ==> apcs[currentTid] == []
      decreases budget, 5
    {
      NoneStarted(started, routines, trace, budget);
      hide RunSince;
      if alertable {
        var n := DrainApcs();
        if n > 0 { return WAIT_IO_COMPLETION; }
      }
      var s := IsSignalled(h);
      r := if s || infinite then WAIT_OBJECT_0 else WAIT_TIMEOUT;
    }

    /** The same for several handles, of which the first 64 are looked at: all of them are waited for if any
        is pending, any of them if all are. */
    method WaitForMultipleObjectsEx(handles: seq<int>, all: bool, infinite: bool, alertable: bool) returns (r: int)
      requires Valid()
      modifies this
      ensures Valid() && Continues()
      ensures r == 0xC0 <==> alertable && QueueOf(old(apcs), currentTid) != []
      ensures r != 0xC0 ==> unchanged(this) && (r == 0x102 || r == 0)
      ensures r != 0xC0 && all ==> (r == 0x102 <==>
        !infinite && exists i :: 0 <= i < |handles| && i < 64 && Pending(threads, events, handles[i]))
      ensures r != 0xC0 && !all ==> (r == 0x102 <==>
        !infinite && forall i :: 0 <= i < |handles| && i < 64 ==> Pending(threads, events, handles[i]))
      ensures alertable && currentTid in apcs ==> apcs[currentTid] == []
      decreases budget, 5
    {
      hide ThreadsOk, ApcsOk, ObjectsOk;
      NoneStarted(started, routines, trace, budget);
      hide RunSince;
      if alertable {
        var n := DrainApcs();
        if n > 0 { return WAIT_IO_COMPLETION; }
      }
      r := WaitForMultipleObjects(handles, all, infinite);
    }
  }

  lemma StartIs(a: Start, routines: seq<Program>, trace: Trace, budget: nat, p: Program)
    requires a.id < |routines| && a.at <= |trace| && p == routines[a.id] && RoutineRan(trace[a.at..], a.tid, p, budget)
    ensures StartRan(a, routines, trace, budget)
  {
  }

  lemma NothingRan(tid: int)
    ensures Ran([], tid, [])
  {
  }

  lemma RanOneMore(t: Trace, t': Trace, tid: int, p: Program, i: nat)
    requires i < |p| && Ran(t, tid, p[..i]) && t + [(tid, p[i])] <= t'
    ensures Ran(t', tid, p[..i + 1])
  {
    hide Ran;
    RanNext(t, t'[|t| + 1..], tid, p[..i], p[i]);
    assert t' == t + ([(tid, p[i])] + t'[|t| + 1..]);
    assert p[..i + 1] == p[..i] + [p[i]];
  }
}
