/** Kernel snapshots of packages/ntsim-analyzer/src/snapshot.mjs (single-engine CPU): what is
    captured, what restoring assigns, and exactly which runs a restore undoes. */
module Snapshot {
  import opened Common

  /** Array slots: lengthening an array by its length property leaves holes. */
  datatype Slot = Hole | Item(value: int)

  type Log = seq<Slot>

  datatype Arch = Arch(
    msrFile: map<int, int>, tscBase: int, tscBias: int, lastSteps: int, streak: int, lastTsc: int, prng: int,
    events: Log, counts: map<string, int>, cpuidLeaves: map<int, int>, msrReads: map<int, int>,
    msrWrites: map<int, int>)

  datatype Diag = Diag(counts: map<string, int>, events: Log, eventCursor: int, probeSeq: int)

  datatype Cpu = Cpu(
    steps: int, halted: bool, fault: Option<int>, pendingBreak: Option<int>, rip: int,
    regs: map<string, int>, flags: map<string, int>)

  /** The captured part of a kernel.  Fields that may be missing are options. */
  datatype Kernel = Kernel(
    mem: map<int, int>, nextPool: int, poolAllocs: Log, heapPrng: int,
    dbgLog: Log, exceptionTrace: Log, irqlViolations: Log, traceEvents: Log, apiTrace: Log,
    traceSeq: int, tickCount: int, bugcheck: Option<int>, crash: Option<int>, currentIrql: int,
    arch: Option<Arch>, diag: Option<Diag>,
    registryWriteLog: Option<Log>, registryAutoCreated: Option<Log>, apiResolutions: Option<map<string, int>>,
    irpCompletions: Option<Log>, obEvents: Option<Log>, cmEvents: Option<Log>,
    doubleFault: Option<int>, tripleFault: Option<int>,
    cpu: Cpu)

  const R64: seq<string> :=
    ["rax", "rcx", "rdx", "rbx", "rsp", "rbp", "rsi", "rdi", "r8", "r9", "r10", "r11", "r12", "r13", "r14", "r15"]

  const FLAGS: seq<string> :=
    ["cf", "zf", "sf", "of", "df", "tf", "iflag", "inhibitWindow", "cr0", "cr3", "cr4", "efer"]

  // ------------------------------------------------------------ capture

  /** Lengths of the logs, copies of everything else. */
  datatype ArchSnap = ArchSnap(
    msrFile: map<int, int>, tscBase: int, tscBias: int, lastSteps: int, streak: int, lastTsc: int, prng: int,
    eventsLen: nat, counts: map<string, int>, cpuidLeaves: map<int, int>, msrReads: map<int, int>,
    msrWrites: map<int, int>)

  datatype DiagSnap = DiagSnap(counts: map<string, int>, eventsLen: nat, eventCursor: int, probeSeq: int)

  datatype Snap = Snap(
    mem: map<int, int>, nextPool: int, poolAllocsLen: nat, heapPrng: int,
    dbgLogLen: nat, exceptionTraceLen: nat, irqlViolationsLen: nat, traceEventsLen: nat, apiTraceLen: nat,
    traceSeq: int, tickCount: int, bugcheck: Option<int>, crash: Option<int>, currentIrql: int,
    arch: Option<ArchSnap>, diag: Option<DiagSnap>,
    registryWriteLogLen: nat, registryAutoCreatedLen: nat, apiResolutions: Option<map<string, int>>,
    irpCompletionsLen: nat, obEventsLen: nat, cmEventsLen: nat,
    doubleFault: Option<int>, tripleFault: Option<int>,
    cpuSteps: int, cpuHalted: bool, cpuFault: Option<int>, cpuPendingBreak: Option<int>, cpuRip: int,
    cpuRegs: map<string, int>, cpuFlags: map<string, int>)

  function LenOf(log: Option<Log>): nat { if log.Some? then |log.value| else 0 }

  function Capture(k: Kernel): Snap {
    Snap(
      k.mem, k.nextPool, |k.poolAllocs|, k.heapPrng,
      |k.dbgLog|, |k.exceptionTrace|, |k.irqlViolations|, |k.traceEvents|, |k.apiTrace|,
      k.traceSeq, k.tickCount, k.bugcheck, k.crash, k.currentIrql,
      match k.arch {
        case None => None
        case Some(a) => Some(ArchSnap(a.msrFile, a.tscBase, a.tscBias, a.lastSteps, a.streak, a.lastTsc, a.prng,
                                      |a.events|, a.counts, a.cpuidLeaves, a.msrReads, a.msrWrites)) },
      match k.diag {
        case None => None
        case Some(d) => Some(DiagSnap(d.counts, |d.events|, d.eventCursor, d.probeSeq)) },
      LenOf(k.registryWriteLog), LenOf(k.registryAutoCreated), k.apiResolutions,
      LenOf(k.irpCompletions), LenOf(k.obEvents), LenOf(k.cmEvents),
      k.doubleFault, k.tripleFault,
      k.cpu.steps, k.cpu.halted, k.cpu.fault, k.cpu.pendingBreak, k.cpu.rip,
      map r | r in R64 :: if r in k.cpu.regs then k.cpu.regs[r] else 0,
      map f | f in FLAGS && f in k.cpu.flags :: k.cpu.flags[f])
  }

  // ------------------------------------------------------------ restore

  /** Assignment to an array's length. */
  function SetLength(log: Log, n: nat): (r: Log)
    ensures |r| == n
  {
    if n <= |log| then log[..n] else log + seq<Slot>(n - |log|, i => Hole)
  }

  function SetLengthIfAny(log: Option<Log>, n: nat): Option<Log> {
    if log.Some? then Some(SetLength(log.value, n)) else None
  }

  function RestoreArch(a: Option<Arch>, s: Option<ArchSnap>): Option<Arch> {
    if a.None? || s.None? then a
    else
      var t := s.value;
      Some(Arch(t.msrFile, t.tscBase, t.tscBias, t.lastSteps, t.streak, t.lastTsc, t.prng,
                SetLength(a.value.events, t.eventsLen), a.value.counts + t.counts,
                t.cpuidLeaves, t.msrReads, t.msrWrites))
  }

  function RestoreDiag(d: Option<Diag>, s: Option<DiagSnap>): Option<Diag> {
    if d.None? || s.None? then d
    else
      var t := s.value;
      Some(Diag(d.value.counts + t.counts, SetLength(d.value.events, t.eventsLen), t.eventCursor, t.probeSeq))
  }

  function RestoreCpu(c: Cpu, s: Snap): Cpu {
    Cpu(s.cpuSteps, s.cpuHalted, s.cpuFault, s.cpuPendingBreak, s.cpuRip,
        c.regs + s.cpuRegs,
        map f | f in c.flags :: if f in s.cpuFlags then s.cpuFlags[f] else c.flags[f])
  }

  function Restore(k: Kernel, s: Snap): Kernel {
    Kernel(
      s.mem, s.nextPool, SetLength(k.poolAllocs, s.poolAllocsLen), s.heapPrng,
      SetLength(k.dbgLog, s.dbgLogLen), SetLength(k.exceptionTrace, s.exceptionTraceLen),
      SetLength(k.irqlViolations, s.irqlViolationsLen), SetLength(k.traceEvents, s.traceEventsLen),
      SetLength(k.apiTrace, s.apiTraceLen),
      s.traceSeq, s.tickCount, s.bugcheck, s.crash, s.currentIrql,
      RestoreArch(k.arch, s.arch), RestoreDiag(k.diag, s.diag),
      SetLengthIfAny(k.registryWriteLog, s.registryWriteLogLen),
      SetLengthIfAny(k.registryAutoCreated, s.registryAutoCreatedLen),
      if s.apiResolutions.Some? then s.apiResolutions else k.apiResolutions,
      SetLengthIfAny(k.irpCompletions, s.irpCompletionsLen),
      SetLengthIfAny(k.obEvents, s.obEventsLen), SetLengthIfAny(k.cmEvents, s.cmEventsLen),
      s.doubleFault, s.tripleFault,
      RestoreCpu(k.cpu, s))
  }

  // ------------------------------------------------------------ which runs are undone

  ghost predicate NoHoles(log: Log) { Hole !in log }

  ghost predicate NoHolesIfAny(log: Option<Log>) { log.Some? ==> NoHoles(log.value) }

  /** A kernel as the harness builds it: no sparse arrays, all sixteen registers, and no flag
      beyond those listed. */
  ghost predicate WellFormed(k: Kernel) {
    && NoHoles(k.poolAllocs) && NoHoles(k.dbgLog) && NoHoles(k.exceptionTrace)
    && NoHoles(k.irqlViolations) && NoHoles(k.traceEvents) && NoHoles(k.apiTrace)
    && NoHolesIfAny(k.registryWriteLog) && NoHolesIfAny(k.registryAutoCreated) && NoHolesIfAny(k.irpCompletions)
    && NoHolesIfAny(k.obEvents) && NoHolesIfAny(k.cmEvents)
    && (k.arch.Some? ==> NoHoles(k.arch.value.events)) && (k.diag.Some? ==> NoHoles(k.diag.value.events))
    && (forall r :: r in R64 <==> r in k.cpu.regs) && (forall f :: f in k.cpu.flags ==> f in FLAGS)
  }

  ghost predicate GrewIfAny(log: Option<Log>, log': Option<Log>) {
    (log.Some? <==> log'.Some?) && (log.Some? ==> log.value <= log'.value)
  }

  /** What a run from k to k' may do and still be undone: logs only grow, no counter with a new
      name, no log, resolution table, register or flag field appears or disappears.  All else
      is free to change. */
  ghost predicate Undoable(k: Kernel, k': Kernel) {
    && k.poolAllocs <= k'.poolAllocs && k.dbgLog <= k'.dbgLog && k.exceptionTrace <= k'.exceptionTrace
    && k.irqlViolations <= k'.irqlViolations && k.traceEvents <= k'.traceEvents && k.apiTrace <= k'.apiTrace
    && GrewIfAny(k.registryWriteLog, k'.registryWriteLog)
    && GrewIfAny(k.registryAutoCreated, k'.registryAutoCreated)
    && GrewIfAny(k.irpCompletions, k'.irpCompletions)
    && GrewIfAny(k.obEvents, k'.obEvents) && GrewIfAny(k.cmEvents, k'.cmEvents)
    && (k.apiResolutions.None? ==> k'.apiResolutions.None?)
    && (k.arch.Some? <==> k'.arch.Some?)
    && (k.arch.Some? ==>
                k.arch.value.events <= k'.arch.value.events && k'.arch.value.counts.Keys <= k.arch.value.counts.Keys)
    && (k.diag.Some? <==> k'.diag.Some?)
    && (k.diag.Some? ==>
                k.diag.value.events <= k'.diag.value.events && k'.diag.value.counts.Keys <= k.diag.value.counts.Keys)
    && k'.cpu.regs.Keys <= k.cpu.regs.Keys && k'.cpu.flags.Keys == k.cpu.flags.Keys
  }

  lemma LogRestoredIff(log: Log, log': Log)
    requires NoHoles(log)
    ensures SetLength(log', |log|) == log <==> log <= log'
  {
    if |log'| < |log| {
      assert SetLength(log', |log|)[|log'|] == Hole;
    }
  }

  lemma OptionalLogRestoredIff(log: Option<Log>, log': Option<Log>)
    requires NoHolesIfAny(log)
    ensures SetLengthIfAny(log', LenOf(log)) == log <==> GrewIfAny(log, log')
  {
    if log.Some? && log'.Some? { LogRestoredIff(log.value, log'.value); }
  }

  lemma CountsRestoredIff(m: map<string, int>, m': map<string, int>)
    ensures m' + m == m <==> m'.Keys <= m.Keys
  {
    if m'.Keys <= m.Keys {
      assert (m' + m).Keys == m.Keys;
    } else {
      var n :| n in m' && n !in m;
      assert n in m' + m;
    }
  }

  lemma ArchRestoredIff(k: Kernel, k': Kernel)
    requires k.arch.Some? ==> NoHoles(k.arch.value.events)
    ensures RestoreArch(k'.arch, Capture(k).arch) == k.arch <==>
            (k.arch.Some? <==> k'.arch.Some?) &&
            (k.arch.Some? ==>
               k.arch.value.events <= k'.arch.value.events && k'.arch.value.counts.Keys <= k.arch.value.counts.Keys)
  {
    if k.arch.Some? && k'.arch.Some? {
      LogRestoredIff(k.arch.value.events, k'.arch.value.events);
      CountsRestoredIff(k.arch.value.counts, k'.arch.value.counts);
    }
  }

  lemma DiagRestoredIff(k: Kernel, k': Kernel)
    requires k.diag.Some? ==> NoHoles(k.diag.value.events)
    ensures RestoreDiag(k'.diag, Capture(k).diag) == k.diag <==>
            (k.diag.Some? <==> k'.diag.Some?) &&
            (k.diag.Some? ==>
               k.diag.value.events <= k'.diag.value.events && k'.diag.value.counts.Keys <= k.diag.value.counts.Keys)
  {
    if k.diag.Some? && k'.diag.Some? {
      LogRestoredIff(k.diag.value.events, k'.diag.value.events);
      CountsRestoredIff(k.diag.value.counts, k'.diag.value.counts);
    }
  }

  lemma CpuRestoredIff(k: Kernel, k': Kernel)
    requires (forall r :: r in R64 <==> r in k.cpu.regs) && (forall f :: f in k.cpu.flags ==> f in FLAGS)
    ensures RestoreCpu(k'.cpu, Capture(k)) == k.cpu <==>
            k'.cpu.regs.Keys <= k.cpu.regs.Keys && k'.cpu.flags.Keys == k.cpu.flags.Keys
  {
    var s, c := Capture(k), RestoreCpu(k'.cpu, Capture(k));
    assert s.cpuRegs == k.cpu.regs && s.cpuFlags == k.cpu.flags;
    CountsRestoredIff(k.cpu.regs, k'.cpu.regs);
    assert c.flags.Keys == k'.cpu.flags.Keys;
    if k'.cpu.flags.Keys == k.cpu.flags.Keys {
      assert c.flags == k.cpu.flags;
    }
  }

  /** Restoring the snapshot taken before a run gives back the captured state exactly, if and only
      if the run was undoable.  In particular a counter the run introduces survives. */
  lemma RestoreExactIff(k: Kernel, k': Kernel)
    requires WellFormed(k)
    ensures Restore(k', Capture(k)) == k <==> Undoable(k, k')
  {
    hide RestoreArch, RestoreDiag, RestoreCpu, SetLength, SetLengthIfAny, GrewIfAny, NoHoles, NoHolesIfAny;
    LogRestoredIff(k.poolAllocs, k'.poolAllocs);
    LogRestoredIff(k.dbgLog, k'.dbgLog);
    LogRestoredIff(k.exceptionTrace, k'.exceptionTrace);
    LogRestoredIff(k.irqlViolations, k'.irqlViolations);
    LogRestoredIff(k.traceEvents, k'.traceEvents);
    LogRestoredIff(k.apiTrace, k'.apiTrace);
    OptionalLogRestoredIff(k.registryWriteLog, k'.registryWriteLog);
    OptionalLogRestoredIff(k.registryAutoCreated, k'.registryAutoCreated);
    OptionalLogRestoredIff(k.irpCompletions, k'.irpCompletions);
    OptionalLogRestoredIff(k.obEvents, k'.obEvents);
    OptionalLogRestoredIff(k.cmEvents, k'.cmEvents);
    ArchRestoredIff(k, k');
    DiagRestoredIff(k, k');
    CpuRestoredIff(k, k');
  }

  /** Whatever the table holds, a counter name the run introduces is still there after the restore. */
  lemma NewCounterSurvives(k: Kernel, k': Kernel, name: string)
    requires k.diag.Some? && k'.diag.Some? && name in k'.diag.value.counts && name !in k.diag.value.counts
    ensures var d := Restore(k', Capture(k)).diag;
      d.Some? && name in d.value.counts && d.value.counts[name] == k'.diag.value.counts[name]
    ensures !Undoable(k, k')
  {
    assert name in k'.diag.value.counts.Keys;
  }

  /** The failing case: of two counters a run raises, the one the table had is rewound and the new
      one stays. */
  lemma OnlyPresetCountersRewind(k: Kernel)
    requires WellFormed(k) && k.diag == Some(Diag(map["unmappedReads" := 0], [], 0, 0))
    ensures var k' := k.(diag := Some(Diag(map["unmappedReads" := 1, "nestedFaults" := 1], [], 0, 0)));
      Restore(k', Capture(k)).diag == Some(Diag(map["unmappedReads" := 0, "nestedFaults" := 1], [], 0, 0)) &&
      !Undoable(k, k')
  {
    var before, after := k.diag.value.counts, map["unmappedReads" := 1, "nestedFaults" := 1];
    assert "nestedFaults" in after && "nestedFaults" !in before;
    assert after + before == map["unmappedReads" := 0, "nestedFaults" := 1];
  }

  // ------------------------------------------------------------ the mutable kernel

  class KernelObject {
    var state: Kernel

    constructor (k: Kernel)
      ensures state == k
    {
      state := k;
    }

    method Run(after: Kernel)
      modifies this
      ensures state == after
    {
      state := after;
    }

    /** The assignments of restoreSnapshot, in its order: whatever kernel the snapshot was taken of
        is back if and only if what happened since was undoable. */
    method RestoreFrom(s: Snap)
      modifies this
      ensures state == Restore(old(state), s)
      ensures forall k :: WellFormed(k) && s == Capture(k) ==> (state == k <==> Undoable(k, old(state)))
    {
      hide SetLength, SetLengthIfAny, RestoreArch, RestoreDiag, RestoreCpu, Capture, WellFormed, Undoable;
      var k := state;
      k := k.(mem := s.mem, nextPool := s.nextPool, poolAllocs := SetLength(k.poolAllocs, s.poolAllocsLen),
             heapPrng := s.heapPrng);
      k := k.(dbgLog := SetLength(k.dbgLog, s.dbgLogLen),
             exceptionTrace := SetLength(k.exceptionTrace, s.exceptionTraceLen));
      k := k.(irqlViolations := SetLength(k.irqlViolations, s.irqlViolationsLen));
      k := k.(traceEvents := SetLength(k.traceEvents, s.traceEventsLen),
             apiTrace := SetLength(k.apiTrace, s.apiTraceLen));
      k := k.(traceSeq := s.traceSeq, tickCount := s.tickCount, bugcheck := s.bugcheck, crash := s.crash);
      k := k.(currentIrql := s.currentIrql, arch := RestoreArch(k.arch, s.arch), diag := RestoreDiag(k.diag, s.diag));
      k := k.(registryWriteLog := SetLengthIfAny(k.registryWriteLog, s.registryWriteLogLen));
      k := k.(registryAutoCreated := SetLengthIfAny(k.registryAutoCreated, s.registryAutoCreatedLen));
      if s.apiResolutions.Some? { k := k.(apiResolutions := s.apiResolutions); }
      k := k.(irpCompletions := SetLengthIfAny(k.irpCompletions, s.irpCompletionsLen));
      k := k.(obEvents := SetLengthIfAny(k.obEvents, s.obEventsLen),
             cmEvents := SetLengthIfAny(k.cmEvents, s.cmEventsLen));
      k := k.(doubleFault := s.doubleFault, tripleFault := s.tripleFault, cpu := RestoreCpu(k.cpu, s));
      state := k;
      RestoredIff(old(state), s);
    }
  }

  lemma RestoredIff(k': Kernel, s: Snap)
    ensures forall k :: WellFormed(k) && s == Capture(k) ==> (Restore(k', s) == k <==> Undoable(k, k'))
  {
    hide Restore, Capture, WellFormed, Undoable;
    forall k | WellFormed(k) && s == Capture(k) ensures Restore(k', s) == k <==> Undoable(k, k') {
      RestoreExactIff(k, k');
    }
  }
}
