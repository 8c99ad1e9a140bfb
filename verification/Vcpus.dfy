/** The vCPU of src/vcpu.c: start and stop, the exit switch, and the thread loop that drives it. */
module Vcpus {
  import opened Words

  /** enum hv_exit_reason (include/hypervisor.h). */
  datatype Reason =
    | Unknown | NoReason | Hlt | Io | Mmio | External | FailEntry | Shutdown | InternalError | Exception
    | IrqWindowOpen | SetTpr | TprAccess | S390Sieic | S390Reset | Dcr | Nmi | Osi | PaprHcall | S390Ucontrol
    | Watchdog | S390Tsch | Epr | SystemEvent | S390Stsi | IoapicEoi | Hyperv | ArmNisv | X86Rdmsr | X86Wrmsr
    | DirtyLogFull | X86BusLock | X86Hypercall | HvfVmx | Canceled | Vtimer | ArmException | ArmTrap | ArmMmio
    | ArmIrq

  /** One port access. */
  datatype PortAccess = PortAccess(port: U16, size: U8, isOut: bool, data: U32)

  /** One exit. deviceRet is what the device's handler answers to an MMIO access, 0 if there is none. */
  datatype Exit = Exit(reason: Reason, io: PortAccess, deviceRet: int)

  /** The exit statistics. */
  datatype Stats = Stats(exits: U64, io: U64, mmio: U64, halt: U64, shutdown: U64, exception: U64,
                         canceled: U64, vtimer: U64, unknown: U64)

  const RESET_STATS := Stats(0, 0, 0, 0, 0, 0, 0, 0, 0)
  const MAX_EXITS := 1000

  /** Unsigned 64-bit increment. */
  function Inc64(x: U64): U64 { if x == TWO_64 - 1 then 0 else x + 1 }

  /** The class counter an exit belongs to; NotCounted exits appear in the total only. */
  datatype Class = IoClass | MmioClass | HaltClass | ShutdownClass | ExceptionClass | CanceledClass
                 | VtimerClass | UnknownClass | NotCounted

  function ClassOf(r: Reason): Class {
    match r
    case Io => IoClass
    case Mmio | ArmMmio => MmioClass
    case Hlt => HaltClass
    case Shutdown | SystemEvent => ShutdownClass
    case Exception | ArmException => ExceptionClass
    case Canceled => CanceledClass
    case Vtimer => VtimerClass
    case External | FailEntry | InternalError | IrqWindowOpen | SetTpr | TprAccess | Nmi | X86Rdmsr | X86Wrmsr
       | X86Hypercall | DirtyLogFull | X86BusLock | ArmTrap | ArmIrq => NotCounted
    case _ => UnknownClass
  }

  /** Exits that ask the thread to stop. */
  predicate Stops(r: Reason) {
    r.Shutdown? || r.FailEntry? || r.InternalError? || r.Exception? || r.SystemEvent? || r.Canceled?
  }

  /** Exits whose handler returns a negative value. */
  predicate Fails(e: Exit) {
    var r := e.reason;
    r.FailEntry? || r.InternalError? || r.ArmException? || r.Unknown? || r.NoReason? || r.HvfVmx?
    || (r.Mmio? && e.deviceRet < 0)
  }

  function Bump(s: Stats, c: Class): Stats {
    match c
    case IoClass => s.(io := Inc64(s.io))
    case MmioClass => s.(mmio := Inc64(s.mmio))
    case HaltClass => s.(halt := Inc64(s.halt))
    case ShutdownClass => s.(shutdown := Inc64(s.shutdown))
    case ExceptionClass => s.(exception := Inc64(s.exception))
    case CanceledClass => s.(canceled := Inc64(s.canceled))
    case VtimerClass => s.(vtimer := Inc64(s.vtimer))
    case UnknownClass => s.(unknown := Inc64(s.unknown))
    case NotCounted => s
  }

  /** The counters after vcpu_handle_exit. */
  function Counted(s: Stats, r: Reason): Stats {
    Bump(s.(exits := Inc64(s.exits)), ClassOf(r))
  }

  /** The counters after the thread loop has dealt with an exit: the total advances again unless
      the handler failed. */
  function After(s: Stats, e: Exit): Stats {
    var s1 := Counted(s, e.reason);
    if Fails(e) then s1 else s1.(exits := Inc64(s1.exits))
  }

  // ------------------------------------------------------------ thread runs

  /** What one iteration of the thread meets: a stop request that arrived before it, and the result
      of running the guest. */
  datatype RunResult = Interrupted | RunFailed | NoExitInfo | Exited(exit: Exit)
  datatype Event = Event(stopRequested: bool, result: RunResult)

  /** How a run ends: the counters, the stop flag, the exits handled in order, and whether the
      thread has returned (as opposed to waiting for the next event). */
  datatype Outcome = Outcome(stats: Stats, shouldStop: bool, handled: seq<Exit>, returned: bool)

  /** The thread loop over a finite list of events. */
  function ThreadRun(s: Stats, stop: bool, events: seq<Event>): Outcome
    decreases |events|
  {
    if stop then Outcome(s, true, [], true)
    else if events == [] then Outcome(s, false, [], false)
    else if events[0].stopRequested then Outcome(s, true, [], true)
    else match events[0].result
      case Interrupted => ThreadRun(s, false, events[1..])
      case RunFailed => Outcome(s, false, [], true)
      case NoExitInfo => Outcome(s, false, [], true)
      case Exited(e) =>
        var s' := After(s, e);
        if Fails(e) || s'.exits > MAX_EXITS then Outcome(s', Stops(e.reason), [e], true)
        else
          var rest := ThreadRun(s', Stops(e.reason), events[1..]);
          rest.(handled := [e] + rest.handled)
  }

  /** Which exits set the stop flag, and which fail. */
  lemma StopsAndFailsIff(e: Exit)
    ensures Stops(e.reason) <==> e.reason in {Shutdown, FailEntry, InternalError, Exception, SystemEvent, Canceled}
    ensures Fails(e) <==>
      || e.reason in {FailEntry, InternalError, ArmException, Unknown, NoReason, HvfVmx}
      || (e.reason == Mmio && e.deviceRet < 0)
  {
  }

  /** The reasons of each class. */
  lemma ClassesAre(r: Reason)
    ensures ClassOf(r) == IoClass <==> r == Io
    ensures ClassOf(r) == MmioClass <==> r in {Mmio, ArmMmio}
    ensures ClassOf(r) == HaltClass <==> r == Hlt
    ensures ClassOf(r) == ShutdownClass <==> r in {Shutdown, SystemEvent}
    ensures ClassOf(r) == ExceptionClass <==> r in {Exception, ArmException}
    ensures ClassOf(r) == CanceledClass <==> r == Canceled
    ensures ClassOf(r) == VtimerClass <==> r == Vtimer
    ensures ClassOf(r) == UnknownClass <==>
      r in {Unknown, NoReason, HvfVmx, Dcr, Osi, PaprHcall, S390Sieic, S390Reset, S390Ucontrol, Watchdog, S390Tsch, Epr,
            S390Stsi, IoapicEoi, Hyperv, ArmNisv}
  {
  }

  /** Every exit advances the total and the counter of its class. */
  lemma CountedFields(s: Stats, r: Reason)
    ensures var t, c := Counted(s, r), ClassOf(r);
      && t.exits == Inc64(s.exits)
      && t.io == (if c == IoClass then Inc64(s.io) else s.io)
      && t.mmio == (if c == MmioClass then Inc64(s.mmio) else s.mmio)
      && t.halt == (if c == HaltClass then Inc64(s.halt) else s.halt)
      && t.shutdown == (if c == ShutdownClass then Inc64(s.shutdown) else s.shutdown)
      && t.exception == (if c == ExceptionClass then Inc64(s.exception) else s.exception)
      && t.canceled == (if c == CanceledClass then Inc64(s.canceled) else s.canceled)
      && t.vtimer == (if c == VtimerClass then Inc64(s.vtimer) else s.vtimer)
      && t.unknown == (if c == UnknownClass then Inc64(s.unknown) else s.unknown)
  {
  }

  /** All other exits: halts, port accesses, external interrupts, MMIO that the device accepts, ... */
  predicate Ordinary(e: Exit) {
    && e.reason !in {Shutdown, FailEntry, InternalError, Exception, SystemEvent, Canceled}
    && e.reason !in {ArmException, Unknown, NoReason, HvfVmx}
    && (e.reason == Mmio ==> e.deviceRet >= 0)
  }

  predicate KeepsGoing(ev: Event) {
    !ev.stopRequested && (ev.result == Interrupted || (ev.result.Exited? && Ordinary(ev.result.exit)))
  }

  /** The exits among the events, in order. */
  function ExitsOf(events: seq<Event>): seq<Exit> {
    if events == [] then []
    else (match events[0].result case Exited(e) => [e] case _ => []) + ExitsOf(events[1..])
  }

  /** Interrupted runs and ordinary exits, without a stop request, keep the thread going while the count
      stays at or below 1000: all of them are handled, and so is the next exit, whatever it is. */
  lemma {:induction false} OrdinaryExitsGoOn(s: Stats, events: seq<Event>, next: Exit)
    requires forall k :: 0 <= k < |events| ==> KeepsGoing(events[k])
    requires s.exits + 2 * |ExitsOf(events)| <= 1000
    ensures var o := ThreadRun(s, false, events);
      && o.handled == ExitsOf(events) && !o.returned && !o.shouldStop
      && o.stats.exits == s.exits + 2 * |ExitsOf(events)|
    ensures ThreadRun(s, false, events + [Event(false, Exited(next))]).handled == ExitsOf(events) + [next]
    decreases |events|
  {
    var all := events + [Event(false, Exited(next))];
    if events != [] {
      assert all[0] == events[0] && all[1..] == events[1..] + [Event(false, Exited(next))];
      match events[0].result
      case Interrupted => OrdinaryExitsGoOn(s, events[1..], next);
      case Exited(e) =>
        OrdinaryStep(s, events);
        OrdinaryStep(s, all);
        OrdinaryExitsGoOn(After(s, e), events[1..], next);
    } else {
      assert all[1..] == [];
    }
  }

  lemma OrdinaryStep(s: Stats, events: seq<Event>)
    requires events != [] && KeepsGoing(events[0]) && events[0].result.Exited? && s.exits + 2 <= 1000
    ensures var e := events[0].result.exit;
      var rest := ThreadRun(After(s, e), false, events[1..]);
      && After(s, e).exits == s.exits + 2
      && ThreadRun(s, false, events) == rest.(handled := [e] + rest.handled)
  {
    StopsAndFailsIff(events[0].result.exit);
  }

  /** A stop request, a run that fails, and an exit without information end the thread at once; only the
      first sets the stop flag. */
  lemma OtherEventsEnd(s: Stats, ev: Event, rest: seq<Event>)
    requires ev.stopRequested || ev.result in {RunFailed, NoExitInfo}
    ensures ThreadRun(s, false, [ev] + rest) == Outcome(s, ev.stopRequested, [], true)
    ensures ThreadRun(s, true, rest) == Outcome(s, true, [], true)
  {
  }

  /** Only the last exit handled may have asked to stop or failed. */
  lemma {:induction false} StoppingExitIsLast(s: Stats, stop: bool, events: seq<Event>, k: nat)
    requires k + 1 < |ThreadRun(s, stop, events).handled|
    ensures var e := ThreadRun(s, stop, events).handled[k]; !Stops(e.reason) && !Fails(e)
    decreases |events|
  {
    match events[0].result
    case Interrupted => StoppingExitIsLast(s, false, events[1..], k);
    case Exited(e) =>
      var s' := After(s, e);
      if k > 0 {
        StoppingExitIsLast(s', Stops(e.reason), events[1..], k - 1);
      }
  }

  /** A run that handled a stopping or failing exit has returned. */
  lemma {:induction false} StoppingExitReturns(s: Stats, stop: bool, events: seq<Event>, k: nat)
    requires k < |ThreadRun(s, stop, events).handled|
    requires var e := ThreadRun(s, stop, events).handled[k]; Stops(e.reason) || Fails(e)
    ensures ThreadRun(s, stop, events).returned
    decreases |events|
  {
    match events[0].result
    case Interrupted => StoppingExitReturns(s, false, events[1..], k);
    case Exited(e) =>
      var s' := After(s, e);
      if k > 0 {
        StoppingExitReturns(s', Stops(e.reason), events[1..], k - 1);
      }
  }

  /** The largest number of exits a thread handles when started with exit count c: each one advances
      the count twice, and the first count above 1000 ends the run. A count within two of 2^64 wraps
      to 0 or 1 first. */
  function ExitBound(c: U64): nat
    decreases if c >= TWO_64 - 2 then 1 else 0
  {
    if c >= TWO_64 - 2 then 1 + ExitBound(c + 2 - TWO_64)
    else if c >= 1000 then 1
    else (1002 - c) / 2
  }

  lemma {:induction false} RunIsBounded(s: Stats, stop: bool, events: seq<Event>)
    ensures |ThreadRun(s, stop, events).handled| <= ExitBound(s.exits)
    decreases |events|
  {
    if !stop && events != [] && !events[0].stopRequested {
      match events[0].result
      case Interrupted => RunIsBounded(s, false, events[1..]);
      case Exited(e) =>
        var s' := After(s, e);
        TwoSteps(s.exits);
        if !Fails(e) && s'.exits <= MAX_EXITS {
          RunIsBounded(s', Stops(e.reason), events[1..]);
        }
      case _ =>
    }
  }

  lemma TwoSteps(c: U64)
    ensures ExitBound(c) == if Inc64(Inc64(c)) > MAX_EXITS then 1 else 1 + ExitBound(Inc64(Inc64(c)))
  {
  }

  /** How many of the events are something other than an interrupted run. */
  function Uninterrupted(events: seq<Event>): nat {
    if events == [] then 0
    else (if events[0].result == Interrupted then 0 else 1) + Uninterrupted(events[1..])
  }

  /** Interrupted runs are the only way to keep the thread going: after ExitBound other results it
      has returned. */
  lemma {:induction false} RunTerminates(s: Stats, stop: bool, events: seq<Event>)
    requires Uninterrupted(events) >= ExitBound(s.exits)
    ensures ThreadRun(s, stop, events).returned
    decreases |events|
  {
    if !stop && events != [] && !events[0].stopRequested {
      match events[0].result
      case Interrupted => RunTerminates(s, false, events[1..]);
      case Exited(e) =>
        var s' := After(s, e);
        TwoSteps(s.exits);
        if !Fails(e) && s'.exits <= MAX_EXITS {
          RunTerminates(s', Stops(e.reason), events[1..]);
        }
      case _ =>
    } else {
      BoundIsPositive(s.exits);
    }
  }

  lemma BoundIsPositive(c: U64)
    ensures ExitBound(c) >= 1
  {
  }

  predicate Harmless(ev: Event) {
    !ev.stopRequested && ev.result.Exited? && !Fails(ev.result.exit) && !Stops(ev.result.exit.reason)
  }

  /** The bound is attained by every sufficiently long run of harmless exits. */
  lemma {:induction false} BoundIsAttained(s: Stats, events: seq<Event>)
    requires |events| >= ExitBound(s.exits) && forall k :: 0 <= k < |events| ==> Harmless(events[k])
    ensures |ThreadRun(s, false, events).handled| == ExitBound(s.exits)
    decreases |events|
  {
    BoundIsPositive(s.exits);
    assert Harmless(events[0]);
    TwoSteps(s.exits);
    var e := events[0].result.exit;
    var s' := After(s, e);
    if s'.exits <= MAX_EXITS {
      BoundIsAttained(s', events[1..]);
    }
  }

  /** A thread started within two of 2^64 does not notice: its count wraps to 0 or 1, and it handles 502
      or 501 exits. */
  lemma WrappedCountRunsOn(s: Stats, events: seq<Event>)
    requires s.exits >= TWO_64 - 2
    requires |events| >= 502 && forall k :: 0 <= k < |events| ==> Harmless(events[k])
    ensures |ThreadRun(s, false, events).handled| == if s.exits == TWO_64 - 2 then 502 else 501
  {
    assert ExitBound(s.exits) == 1 + ExitBound(s.exits + 2 - TWO_64);
    BoundIsAttained(s, events);
  }

  // ------------------------------------------------------------- accounting

  /** The counter of a class. */
  function ClassValue(s: Stats, c: Class): U64 {
    match c
    case IoClass => s.io
    case MmioClass => s.mmio
    case HaltClass => s.halt
    case ShutdownClass => s.shutdown
    case ExceptionClass => s.exception
    case CanceledClass => s.canceled
    case VtimerClass => s.vtimer
    case UnknownClass => s.unknown
    case NotCounted => 0
  }

  /** How many of the exits are of class c. */
  function CountOf(es: seq<Exit>, c: Class): nat {
    if es == [] then 0 else (if ClassOf(es[0].reason) == c then 1 else 0) + CountOf(es[1..], c)
  }

  function ClassSum(s: Stats): nat {
    s.io + s.mmio + s.halt + s.shutdown + s.exception + s.canceled + s.vtimer + s.unknown
  }

  /** Number of handled exits that ended the run before the second count. */
  function LastFailed(es: seq<Exit>): nat {
    if es != [] && Fails(es[|es| - 1]) then 1 else 0
  }

  /** The counters after a list of handled exits. */
  function CountAll(s: Stats, es: seq<Exit>): Stats
    decreases |es|
  {
    if es == [] then s else CountAll(After(s, es[0]), es[1..])
  }

  lemma {:induction false} StatsCountHandled(s: Stats, stop: bool, events: seq<Event>)
    ensures var o := ThreadRun(s, stop, events); o.stats == CountAll(s, o.handled)
    decreases |events|
  {
    if !stop && events != [] && !events[0].stopRequested {
      match events[0].result
      case Interrupted => StatsCountHandled(s, false, events[1..]);
      case Exited(e) =>
        var s' := After(s, e);
        if !Fails(e) && s'.exits <= MAX_EXITS {
          StatsCountHandled(s', Stops(e.reason), events[1..]);
          var rest := ThreadRun(s', Stops(e.reason), events[1..]);
          assert ([e] + rest.handled)[1..] == rest.handled;
        } else {
          assert [e][1..] == [];
        }
      case _ =>
    }
  }

  /** No counter comes near 2^64 while n exits are counted. */
  ghost predicate Roomy(s: Stats, n: nat) {
    s.exits + 2 * n < TWO_64 && forall c :: ClassValue(s, c) + n < TWO_64
  }

  lemma AfterOne(s: Stats, e: Exit, n: nat)
    requires Roomy(s, n + 1)
    ensures After(s, e).exits == s.exits + if Fails(e) then 1 else 2
    ensures forall c :: c != NotCounted ==>
      ClassValue(After(s, e), c) == ClassValue(s, c) + if ClassOf(e.reason) == c then 1 else 0
    ensures Roomy(After(s, e), n)
  {
    var k := ClassOf(e.reason);
    assert ClassValue(s, k) + 1 < TWO_64;
    forall c | c != NotCounted
      ensures ClassValue(After(s, e), c) == ClassValue(s, c) + if k == c then 1 else 0
    {
      BumpOne(s.(exits := Inc64(s.exits)), k, c);
    }
    forall c ensures ClassValue(After(s, e), c) + n < TWO_64 {
      assert ClassValue(s, c) + (n + 1) < TWO_64;
    }
  }

  lemma BumpOne(s: Stats, k: Class, c: Class)
    requires ClassValue(s, k) + 1 < TWO_64 && c != NotCounted
    ensures ClassValue(Bump(s, k), c) == ClassValue(s, c) + if k == c then 1 else 0
  {
  }

  /** If only the last exit may have failed, each one counts twice in the total, once if it failed,
      and once in the counter of its class. */
  lemma {:induction false} CountAllAccounting(s: Stats, es: seq<Exit>, c: Class)
    requires Roomy(s, |es|) && c != NotCounted
    requires forall k :: 0 <= k < |es| - 1 ==> !Fails(es[k])
    ensures CountAll(s, es).exits == s.exits + 2 * |es| - LastFailed(es)
    ensures ClassValue(CountAll(s, es), c) == ClassValue(s, c) + CountOf(es, c)
    decreases |es|
  {
    if es != [] {
      AfterOne(s, es[0], |es| - 1);
      CountAllAccounting(After(s, es[0]), es[1..], c);
    }
  }

  /** Over every run of n handled exits the total advances by 2n, or 2n - 1 if the last one failed,
      and each class counter by the number of exits of its class. */
  lemma RunAccounting(s: Stats, stop: bool, events: seq<Event>, es: seq<Exit>)
    requires es == ThreadRun(s, stop, events).handled && Roomy(s, |es|)
    ensures var after := ThreadRun(s, stop, events).stats;
      && after.exits == s.exits + 2 * |es| - LastFailed(es)
      && forall c :: c != NotCounted ==> ClassValue(after, c) == ClassValue(s, c) + CountOf(es, c)
  {
    StatsCountHandled(s, stop, events);
    forall k | 0 <= k < |es| - 1 ensures !Fails(es[k]) {
      StoppingExitIsLast(s, stop, events, k);
    }
    CountAllAccounting(s, es, IoClass);
    forall c | c != NotCounted ensures ClassValue(CountAll(s, es), c) == ClassValue(s, c) + CountOf(es, c) {
      CountAllAccounting(s, es, c);
    }
  }

  /** Every exit is of exactly one class. */
  lemma {:induction false} ClassesPartition(es: seq<Exit>)
    ensures |es| == CountOf(es, IoClass) + CountOf(es, MmioClass) + CountOf(es, HaltClass) + CountOf(es, ShutdownClass)
      + CountOf(es, ExceptionClass) + CountOf(es, CanceledClass) + CountOf(es, VtimerClass)
      + CountOf(es, UnknownClass) + CountOf(es, NotCounted)
  {
    if es != [] {
      ClassesPartition(es[1..]);
    }
  }

  /** From reset statistics the same holds of every run, whatever the events, and the class counters
      together miss just the exits of no class. */
  lemma AccountingFromReset(stop: bool, events: seq<Event>, es: seq<Exit>)
    requires es == ThreadRun(RESET_STATS, stop, events).handled
    ensures var after := ThreadRun(RESET_STATS, stop, events).stats;
      && after.exits == 2 * |es| - LastFailed(es)
      && (forall c :: c != NotCounted ==> ClassValue(after, c) == CountOf(es, c))
      && ClassSum(after) == |es| - CountOf(es, NotCounted)
  {
    assert |es| <= 501 by { RunIsBounded(RESET_STATS, stop, events); }
    RunAccounting(RESET_STATS, stop, events, es);
    SumOfCounts(ThreadRun(RESET_STATS, stop, events).stats, es);
  }

  lemma SumOfCounts(s: Stats, es: seq<Exit>)
    requires forall c :: c != NotCounted ==> ClassValue(s, c) == CountOf(es, c)
    ensures ClassSum(s) == |es| - CountOf(es, NotCounted)
  {
    ClassesPartition(es);
    assert ClassValue(s, IoClass) + ClassValue(s, MmioClass) == s.io + s.mmio;
    assert ClassValue(s, HaltClass) + ClassValue(s, ShutdownClass) == s.halt + s.shutdown;
    assert ClassValue(s, ExceptionClass) + ClassValue(s, CanceledClass) == s.exception + s.canceled;
    assert ClassValue(s, VtimerClass) + ClassValue(s, UnknownClass) == s.vtimer + s.unknown;
  }

  // -------------------------------------------------------------------- KVM

  /** The KVM exit reasons that kvm_convert_exit_reason names, and all others. */
  datatype KvmReason = KvmHlt | KvmIo | KvmMmio | KvmIntr | KvmFailEntry | KvmShutdown
                     | KvmInternalError | KvmException | KvmOther(code: U32)

  function ConvertKvm(k: KvmReason): Reason {
    match k
    case KvmHlt => Hlt
    case KvmIo => Io
    case KvmMmio => Mmio
    case KvmIntr => External
    case KvmFailEntry => FailEntry
    case KvmShutdown => Shutdown
    case KvmInternalError => InternalError
    case KvmException => Exception
    case KvmOther(_) => Unknown
  }

  ghost predicate FromKvm(ev: Event) {
    ev.result.Exited? ==> exists kvm :: ev.result.exit.reason == ConvertKvm(kvm)
  }

  /** The reason has the name of the KVM reason; an interrupt is called external. */
  predicate SameName(kvm: KvmReason, r: Reason) {
    && (kvm.KvmHlt? <==> r == Hlt) && (kvm.KvmIo? <==> r == Io) && (kvm.KvmMmio? <==> r == Mmio)
    && (kvm.KvmIntr? <==> r == External) && (kvm.KvmFailEntry? <==> r == FailEntry)
    && (kvm.KvmShutdown? <==> r == Shutdown) && (kvm.KvmInternalError? <==> r == InternalError)
    && (kvm.KvmException? <==> r == Exception) && (kvm.KvmOther? <==> r == Unknown)
  }

  /** Under KVM every handled exit comes from a KVM reason, which is known unless it is none of the
      eight that the conversion names; a reason it does not name, or one that stops, is the last. */
  lemma {:induction false} KvmRuns(s: Stats, stop: bool, events: seq<Event>, k: nat)
    requires forall i :: 0 <= i < |events| ==> FromKvm(events[i])
    requires k < |ThreadRun(s, stop, events).handled|
    ensures var o := ThreadRun(s, stop, events);
      exists kvm :: o.handled[k].reason == ConvertKvm(kvm)
        && (forall kvm' :: ConvertKvm(kvm') == ConvertKvm(kvm) ==> kvm' == kvm || (kvm.KvmOther? && kvm'.KvmOther?))
        && SameName(kvm, o.handled[k].reason)
        && (kvm.KvmOther? || kvm in {KvmFailEntry, KvmInternalError, KvmShutdown, KvmException} ==>
              k == |o.handled| - 1 && o.returned)
  {
    HandledComeFromEvents(s, stop, events, k);
    var e := ThreadRun(s, stop, events).handled[k];
    var i :| 0 <= i < |events| && events[i].result == Exited(e);
    assert FromKvm(events[i]);
    var kvm :| e.reason == ConvertKvm(kvm);
    ConversionKeepsReasons(kvm);
    if kvm.KvmOther? || kvm in {KvmFailEntry, KvmInternalError, KvmShutdown, KvmException} {
      KvmEnds(e, kvm);
    }
    if k + 1 < |ThreadRun(s, stop, events).handled| {
      StoppingExitIsLast(s, stop, events, k);
    }
    if Stops(e.reason) || Fails(e) {
      StoppingExitReturns(s, stop, events, k);
    }
  }

  /** The named KVM reasons stay apart, and the others alone become unknown. */
  lemma ConversionKeepsReasons(kvm: KvmReason)
    ensures SameName(kvm, ConvertKvm(kvm))
    ensures forall kvm' :: ConvertKvm(kvm') == ConvertKvm(kvm) ==> kvm' == kvm || (kvm.KvmOther? && kvm'.KvmOther?)
  {
  }

  lemma KvmEnds(e: Exit, kvm: KvmReason)
    requires e.reason == ConvertKvm(kvm)
    requires kvm.KvmOther? || kvm in {KvmFailEntry, KvmInternalError, KvmShutdown, KvmException}
    ensures Stops(e.reason) || Fails(e)
  {
  }

  /** Handled exits are exits the guest made. */
  lemma {:induction false} HandledComeFromEvents(s: Stats, stop: bool, events: seq<Event>, k: nat)
    requires k < |ThreadRun(s, stop, events).handled|
    ensures exists i :: 0 <= i < |events| && events[i].result == Exited(ThreadRun(s, stop, events).handled[k])
    decreases |events|
  {
    match events[0].result
    case Interrupted =>
      HandledComeFromEvents(s, false, events[1..], k);
      var i :| 0 <= i < |events[1..]| && events[1..][i].result == Exited(ThreadRun(s, false, events[1..]).handled[k]);
      assert events[i + 1] == events[1..][i];
    case Exited(e) =>
      if k > 0 {
        var s' := After(s, e);
        HandledComeFromEvents(s', Stops(e.reason), events[1..], k - 1);
        var rest := ThreadRun(s', Stops(e.reason), events[1..]);
        var i :| 0 <= i < |events[1..]| && events[1..][i].result == Exited(rest.handled[k - 1]);
        assert events[i + 1] == events[1..][i];
      }
  }

  // ---------------------------------------------------------------- the code

  datatype VcpuState = VcpuStopped | VcpuRunning | VcpuWaiting | VcpuError

  class Vcpu {
    const index: int
    var state: VcpuState
    var shouldStop: bool
    var stats: Stats

    constructor (index: int)
      ensures this.index == index && state == VcpuStopped && !shouldStop && stats == RESET_STATS
    {
      this.index := index;
      state, shouldStop, stats := VcpuStopped, false, RESET_STATS;
    }

    /** createOk says whether pthread_create succeeds. */
    method Start(createOk: bool) returns (ret: int)
      modifies this`state, this`shouldStop
      ensures ret == if old(state) == VcpuRunning || createOk then 0 else -1
      ensures state == if ret == 0 then VcpuRunning else old(state)
      ensures shouldStop == (old(state) == VcpuRunning && old(shouldStop))
    {
      if state == VcpuRunning {
        return 0;
      }
      shouldStop := false;
      if !createOk {
        return -1;
      }
      state := VcpuRunning;
      return 0;
    }

    method Stop()
      modifies this`state, this`shouldStop
      ensures state == if old(state) == VcpuRunning then VcpuStopped else old(state)
      ensures shouldStop == (old(state) == VcpuRunning || old(shouldStop))
    {
      if state != VcpuRunning {
        return;
      }
      shouldStop := true;
      state := VcpuStopped;
    }

    /** vcpu_handle_exit with its sub-handlers; out is what port output printed, port the data that the
        exit record of a port access is left with. */
    method HandleExit(e: Exit) returns (ret: int, out: seq<U8>, port: U32)
      requires e.reason == Io ==> e.io.size <= 4
      modifies this
      ensures ret < 0 <==> Fails(e)
      ensures shouldStop == (old(shouldStop) || Stops(e.reason))
      ensures stats == Counted(old(stats), e.reason)
      ensures state == old(state)
      ensures out == if e.reason == Io && e.io.isOut && e.io.port in {0x3f8, 0x3f9}
                     then LittleEndian(e.io.data, e.io.size) else []
      ensures port == if e.reason == Io && !e.io.isOut && (e.io.port in {0x3f8, 0x3f9} || 0x3c0 <= e.io.port <= 0x3da)
                      then 0 else e.io.data
    {
      out, port := [], e.io.data;
      stats := stats.(exits := Inc64(stats.exits));
      match e.reason {
        case Hlt =>
          stats := stats.(halt := Inc64(stats.halt));
          ret := 0;
        case Io =>
          stats := stats.(io := Inc64(stats.io));
          ret, port, out := HandleIoExit(e.io);
        case Mmio =>
          stats := stats.(mmio := Inc64(stats.mmio));
          ret := e.deviceRet;
        case External => ret := 0;
        case Shutdown =>
          stats := stats.(shutdown := Inc64(stats.shutdown));
          shouldStop := true;
          ret := 0;
        case FailEntry =>
          shouldStop := true;
          ret := -1;
        case InternalError =>
          shouldStop := true;
          ret := -1;
        case Exception =>
          stats := stats.(exception := Inc64(stats.exception));
          shouldStop := true;
          ret := 0;
        case IrqWindowOpen | SetTpr | TprAccess | Nmi => ret := 0;
        case SystemEvent =>
          stats := stats.(shutdown := Inc64(stats.shutdown));
          shouldStop := true;
          ret := 0;
        case X86Rdmsr | X86Wrmsr | X86Hypercall | DirtyLogFull | X86BusLock => ret := 0;
        case ArmException =>
          stats := stats.(exception := Inc64(stats.exception));
          ret := -1;
        case ArmTrap => ret := 0;
        case ArmMmio =>
          stats := stats.(mmio := Inc64(stats.mmio));
          ret := 0;
        case ArmIrq => ret := 0;
        case Canceled =>
          stats := stats.(canceled := Inc64(stats.canceled));
          shouldStop := true;
          ret := 0;
        case Vtimer =>
          stats := stats.(vtimer := Inc64(stats.vtimer));
          ret := 0;
        case Dcr | Osi | PaprHcall | S390Sieic | S390Reset | S390Ucontrol | Watchdog | S390Tsch | Epr
           | S390Stsi | IoapicEoi | Hyperv | ArmNisv =>
          stats := stats.(unknown := Inc64(stats.unknown));
          ret := 0;
        case Unknown | NoReason | HvfVmx =>
          stats := stats.(unknown := Inc64(stats.unknown));
          ret := -1;
      }
    }

    /** vcpu_handle_io_exit: COM1 output is printed byte by byte, low byte first; reads of COM1 and
        of the VGA ports yield 0. */
    method HandleIoExit(io: PortAccess) returns (ret: int, data: U32, out: seq<U8>)
      requires io.size <= 4
      ensures ret == 0
      ensures out == if io.isOut && io.port in {0x3f8, 0x3f9} then LittleEndian(io.data, io.size) else []
      ensures data == if !io.isOut && (io.port in {0x3f8, 0x3f9} || 0x3c0 <= io.port <= 0x3da) then 0 else io.data
    {
      ret, data, out := 0, io.data, [];
      if io.port == 0x3f8 || io.port == 0x3f9 {
        if io.isOut {
          var shifted: nat := io.data;
          for i := 0 to io.size
            invariant out + LittleEndian(shifted, io.size - i) == LittleEndian(io.data, io.size)
          {
            out := out + [shifted % 0x100];
            shifted := shifted / 0x100;
          }
        } else {
          data := 0;
        }
      } else if 0x3c0 <= io.port <= 0x3da {
        if !io.isOut {
          data := 0;
        }
      }
    }

    /** vcpu_thread_func over a finite list of events. */
    method ThreadFunc(events: seq<Event>) returns (handled: seq<Exit>, returned: bool)
      requires forall k :: 0 <= k < |events| ==>
        (events[k].result.Exited? && events[k].result.exit.reason == Io ==> events[k].result.exit.io.size <= 4)
      modifies this
      ensures Outcome(stats, shouldStop, handled, returned) == ThreadRun(old(stats), old(shouldStop), events)
      ensures state == old(state)
    {
      handled, returned := [], true;
      var i := 0;
      while !shouldStop
        invariant 0 <= i <= |events| && state == old(state) && returned
        invariant var o, rest := ThreadRun(old(stats), old(shouldStop), events), ThreadRun(stats, shouldStop, events[i..]);
          o == rest.(handled := handled + rest.handled)
        decreases |events| - i, !shouldStop
      {
        if i == |events| {
          returned := false;
          return;
        }
        var ev := events[i];
        assert ev == events[i..][0] && events[i..][1..] == events[i + 1..];
        i := i + 1;
        if ev.stopRequested {
          shouldStop := true;
          return;
        }
        match ev.result
        case Interrupted => continue;
        case RunFailed => return;
        case NoExitInfo => return;
        case Exited(exit) =>
          handled := handled + [exit];
          var ret, out, port := HandleExit(exit);
          if ret < 0 {
            return;
          }
          stats := stats.(exits := Inc64(stats.exits));
          if stats.exits > MAX_EXITS {
            return;
          }
      }
    }

    method ResetStats()
      modifies this
      ensures stats == RESET_STATS && state == old(state) && shouldStop == old(shouldStop)
    {
      stats := RESET_STATS;
    }
  }
}
