/** Who holds which lock: read off the program counters, and kept by every step. */
module Locks {
  import opened Common
  import opened Machine

  /** The one lock of the reservation engine a thread can hold at a time. */
  datatype Section = NoLock | ListWrite | ListRead | EventMutex(ev: nat)

  function SectionOf(pc: Pc): Section {
    match pc
    case Idle => NoLock
    case Enter => NoLock
    case WantEvent(_) => NoLock
    case Return(_) => NoLock
    case CreateStart => ListWrite
    case CreateWalk(_, _) => ListWrite
    case CreateExists => ListWrite
    case CreateAbsent => ListWrite
    case CreateFailed => ListWrite
    case CreateLink(_) => ListWrite
    case CreateLinkTail(_) => ListWrite
    case CreateLinked(_) => ListWrite
    case LookupStart => ListRead
    case LookupWalk(_, _) => ListRead
    case LookupMiss => ListRead
    case LookupHit(_) => ListRead
    case ListStart => ListRead
    case ListEmpty => ListRead
    case CountNodes(_, _, _) => ListRead
    case SendIds(_, _, _, _) => ListRead
    case ListSent(_, _) => ListRead
    case CheckBounds(ev, _) => EventMutex(ev)
    case CheckSeats(ev, _, _) => EventMutex(ev)
    case Refused(ev) => EventMutex(ev)
    case TakeId(ev) => EventMutex(ev)
    case WriteSeats(ev, _, _) => EventMutex(ev)
    case SendSeats(ev, _) => EventMutex(ev)
  }

  predicate InLookup(pc: Pc) {
    pc.LookupStart? || pc.LookupWalk? || pc.LookupMiss? || pc.LookupHit?
  }

  predicate InListing(pc: Pc) {
    pc.ListStart? || pc.ListEmpty? || pc.CountNodes? || pc.SendIds? || pc.ListSent?
  }

  /** Which operations reach which section. */
  predicate PcFitsOp(th: Thread) {
    && (SectionOf(th.pc) == ListWrite ==> th.op.Create?)
    && (th.pc.WantEvent? || InLookup(th.pc) ==> (th.op.Reserve? || th.op.Show?))
    && (th.pc.SendSeats? ==> th.op.Show?)
    && (SectionOf(th.pc).EventMutex? && !th.pc.SendSeats? ==> th.op.Reserve?)
    && (InListing(th.pc) ==> th.op.ListEvents?)
    && (th.pc.Idle? || th.pc.Enter? ==> th.msg.Silent?)
    && (th.op.Create? ==> th.op.rows * th.op.cols <= SIZE_MAX)
  }

  ghost predicate LocksAgree(s: World) {
    && |s.owners| == |s.events|
    && (forall t :: 0 <= t < |s.threads| ==> PcFitsOp(s.threads[t]))
    && ListLockAgrees(s)
    && MutexesAgree(s)
    && PrinterAgrees(s)
  }

  ghost predicate ListLockAgrees(s: World) {
    && (s.writer.Some? ==> s.writer.value < |s.threads| && s.readers == {})
    && (forall t :: t in s.readers ==> t < |s.threads|)
    && (forall t :: 0 <= t < |s.threads| ==>
          && (SectionOf(s.threads[t].pc) == ListWrite <==> s.writer == Some(t))
          && (SectionOf(s.threads[t].pc) == ListRead <==> t in s.readers))
  }

  ghost predicate MutexesAgree(s: World) {
    && (forall t :: 0 <= t < |s.threads| && SectionOf(s.threads[t].pc).EventMutex? ==>
          var ev := SectionOf(s.threads[t].pc).ev;
          ev < |s.owners| && s.owners[ev] == Some(t))
    && (forall ev :: 0 <= ev < |s.owners| && s.owners[ev].Some? ==>
          var t := s.owners[ev].value;
          t < |s.threads| && SectionOf(s.threads[t].pc) == EventMutex(ev))
  }

  ghost predicate PrinterAgrees(s: World) {
    && (s.printer.Some? ==> s.printer.value < |s.threads|)
    && (forall t :: 0 <= t < |s.threads| ==> (s.threads[t].msg.Printing? <==> s.printer == Some(t)))
  }

  // ---- What one step does to the locks -----------------------------------------------------

  /** The locks change exactly as the section of the stepping thread does. */
  ghost predicate LockEffect(s: World, t: nat, s': World)
    requires t < |s.threads|
  {
    && |s'.threads| == |s.threads| && s'.threads == s.threads[t := s'.threads[t]]
    && PcFitsOp(s'.threads[t])
    && |s'.owners| == |s'.events|
    && (match (SectionOf(s.threads[t].pc), SectionOf(s'.threads[t].pc))
        case (NoLock, ListWrite) =>
          s.writer.None? && s.readers == {} && s'.writer == Some(t) && s'.readers == {} && s'.owners == s.owners
        case (ListWrite, NoLock) =>
          s'.writer == None && s'.readers == s.readers && s'.owners == s.owners
        case (NoLock, ListRead) =>
          s.writer.None? && s'.writer == None && s'.readers == s.readers + {t} && s'.owners == s.owners
        case (ListRead, NoLock) =>
          s'.writer == s.writer && s'.readers == s.readers - {t} && s'.owners == s.owners
        case (NoLock, EventMutex(ev)) =>
          ev < |s.owners| && s.owners[ev].None? && s'.owners == s.owners[ev := Some(t)]
          && s'.writer == s.writer && s'.readers == s.readers
        case (EventMutex(ev), NoLock) =>
          ev < |s.owners| && s'.owners == s.owners[ev := None] && s'.writer == s.writer && s'.readers == s.readers
        case (before, after) =>
          before == after && s'.writer == s.writer && s'.readers == s.readers
          && (s'.owners == s.owners || s'.owners == s.owners + [None]))
    && (match (s.threads[t].msg, s'.threads[t].msg)
        case (Waiting, Printing) => s.printer.None? && s'.printer == Some(t)
        case (Printing, Silent) => s'.printer == None
        case (before, after) => (before == after || (before.Silent? && after.Waiting?)) && s'.printer == s.printer)
  }

  predicate CreateBegins(pc: Pc) {
    pc.Enter? || pc.CreateStart? || pc.CreateWalk? || pc.CreateExists?
  }

  lemma CreateLockEffect(s: World, t: nat, c: Choice)
    requires |s.owners| == |s.events| && t < |s.threads| && PcFitsOp(s.threads[t]) && s.threads[t].msg.Silent?
    requires s.threads[t].op.Create? && CreateStep(s, t, c).Some?
    ensures LockEffect(s, t, CreateStep(s, t, c).value)
  {
    hide LockEffect, CreateStep;
    if CreateBegins(s.threads[t].pc) {
      CreateBeginLockEffect(s, t, c);
    } else {
      CreateEndLockEffect(s, t, c);
    }
  }

  lemma CreateBeginLockEffect(s: World, t: nat, c: Choice)
    requires |s.owners| == |s.events| && t < |s.threads| && PcFitsOp(s.threads[t]) && s.threads[t].msg.Silent?
    requires s.threads[t].op.Create? && CreateStep(s, t, c).Some? && CreateBegins(s.threads[t].pc)
    ensures LockEffect(s, t, CreateStep(s, t, c).value)
  {
  }

  lemma CreateEndLockEffect(s: World, t: nat, c: Choice)
    requires |s.owners| == |s.events| && t < |s.threads| && PcFitsOp(s.threads[t]) && s.threads[t].msg.Silent?
    requires s.threads[t].op.Create? && CreateStep(s, t, c).Some? && !CreateBegins(s.threads[t].pc)
    ensures LockEffect(s, t, CreateStep(s, t, c).value)
  {
  }

  predicate LookupBegins(pc: Pc) {
    pc.Enter? || pc.LookupStart? || pc.LookupWalk?
  }

  lemma LookupLockEffect(s: World, t: nat)
    requires |s.owners| == |s.events| && t < |s.threads| && PcFitsOp(s.threads[t]) && s.threads[t].msg.Silent?
    requires s.threads[t].op.Reserve? || s.threads[t].op.Show?
    requires LookupStep(s, t).Some?
    ensures LockEffect(s, t, LookupStep(s, t).value)
  {
    hide LockEffect, LookupStep;
    if LookupBegins(s.threads[t].pc) {
      LookupBeginLockEffect(s, t);
    } else {
      LookupEndLockEffect(s, t);
    }
  }

  lemma LookupBeginLockEffect(s: World, t: nat)
    requires |s.owners| == |s.events| && t < |s.threads| && PcFitsOp(s.threads[t]) && s.threads[t].msg.Silent?
    requires s.threads[t].op.Reserve? || s.threads[t].op.Show?
    requires LookupStep(s, t).Some? && LookupBegins(s.threads[t].pc)
    ensures LockEffect(s, t, LookupStep(s, t).value)
  {
  }

  lemma LookupEndLockEffect(s: World, t: nat)
    requires |s.owners| == |s.events| && t < |s.threads| && PcFitsOp(s.threads[t]) && s.threads[t].msg.Silent?
    requires s.threads[t].op.Reserve? || s.threads[t].op.Show?
    requires LookupStep(s, t).Some? && !LookupBegins(s.threads[t].pc)
    ensures LockEffect(s, t, LookupStep(s, t).value)
  {
  }

  predicate ListBegins(pc: Pc) {
    pc.Enter? || pc.ListStart? || pc.CountNodes?
  }

  lemma ListLockEffect(s: World, t: nat)
    requires |s.owners| == |s.events| && t < |s.threads| && PcFitsOp(s.threads[t]) && s.threads[t].msg.Silent?
    requires s.threads[t].op.ListEvents? && ListStep(s, t).Some?
    ensures LockEffect(s, t, ListStep(s, t).value)
  {
    hide LockEffect, ListStep;
    if ListBegins(s.threads[t].pc) {
      ListBeginLockEffect(s, t);
    } else {
      ListEndLockEffect(s, t);
    }
  }

  lemma ListBeginLockEffect(s: World, t: nat)
    requires |s.owners| == |s.events| && t < |s.threads| && PcFitsOp(s.threads[t]) && s.threads[t].msg.Silent?
    requires s.threads[t].op.ListEvents? && ListStep(s, t).Some? && ListBegins(s.threads[t].pc)
    ensures LockEffect(s, t, ListStep(s, t).value)
  {
  }

  lemma ListEndLockEffect(s: World, t: nat)
    requires |s.owners| == |s.events| && t < |s.threads| && PcFitsOp(s.threads[t]) && s.threads[t].msg.Silent?
    requires s.threads[t].op.ListEvents? && ListStep(s, t).Some? && !ListBegins(s.threads[t].pc)
    ensures LockEffect(s, t, ListStep(s, t).value)
  {
  }

  lemma ShowLockEffect(s: World, t: nat, ev: nat)
    requires |s.owners| == |s.events| && t < |s.threads| && PcFitsOp(s.threads[t]) && s.threads[t].msg.Silent?
    requires s.threads[t].pc.SendSeats? && s.threads[t].pc.ev == ev && EventStep(s, t, ev).Some?
    ensures LockEffect(s, t, EventStep(s, t, ev).value)
  {
  }

  lemma CheckLockEffect(s: World, t: nat, ev: nat)
    requires |s.owners| == |s.events| && t < |s.threads| && PcFitsOp(s.threads[t]) && s.threads[t].msg.Silent?
    requires s.threads[t].op.Reserve? && SectionOf(s.threads[t].pc) == EventMutex(ev) && EventStep(s, t, ev).Some?
    requires s.threads[t].pc.CheckBounds? || s.threads[t].pc.CheckSeats?
    ensures LockEffect(s, t, EventStep(s, t, ev).value)
  {
  }

  lemma ReserveLockEffect(s: World, t: nat, ev: nat)
    requires |s.owners| == |s.events| && t < |s.threads| && PcFitsOp(s.threads[t]) && s.threads[t].msg.Silent?
    requires s.threads[t].op.Reserve? && SectionOf(s.threads[t].pc) == EventMutex(ev) && EventStep(s, t, ev).Some?
    requires !s.threads[t].pc.CheckBounds? && !s.threads[t].pc.CheckSeats?
    ensures LockEffect(s, t, EventStep(s, t, ev).value)
  {
  }

  lemma EventLockEffect(s: World, t: nat, ev: nat)
    requires |s.owners| == |s.events| && t < |s.threads| && PcFitsOp(s.threads[t]) && s.threads[t].msg.Silent?
    requires SectionOf(s.threads[t].pc) == EventMutex(ev) && EventStep(s, t, ev).Some?
    ensures LockEffect(s, t, EventStep(s, t, ev).value)
  {
    hide LockEffect, EventStep;
    if s.threads[t].pc.SendSeats? {
      ShowLockEffect(s, t, ev);
    } else if s.threads[t].pc.CheckBounds? || s.threads[t].pc.CheckSeats? {
      CheckLockEffect(s, t, ev);
    } else {
      ReserveLockEffect(s, t, ev);
    }
  }

  lemma StepLockEffect(s: World, t: nat, c: Choice)
    requires LocksAgree(s) && t < |s.threads| && Step(s, t, c).Some?
    ensures LockEffect(s, t, Step(s, t, c).value)
  {
    hide CreateStep, LookupStep, ListStep, EventStep, ListLockAgrees, MutexesAgree, PrinterAgrees;
    var th := s.threads[t];
    if th.msg.Silent? && !th.pc.Idle? && !th.pc.Return? {
      match SectionOf(th.pc)
      case EventMutex(ev) => EventLockEffect(s, t, ev);
      case _ =>
        match th.op
        case Create(_, _, _) => CreateLockEffect(s, t, c);
        case Reserve(_, _) => LookupLockEffect(s, t);
        case Show(_) => LookupLockEffect(s, t);
        case ListEvents => ListLockEffect(s, t);
    }
  }

  // ---- The locks agree in every state --------------------------------------------------------

  lemma InitLocks(s: World)
    requires Init(s)
    ensures LocksAgree(s)
  {
  }

  lemma EffectKeepsListLock(s: World, t: nat, s': World)
    requires ListLockAgrees(s) && t < |s.threads| && LockEffect(s, t, s')
    ensures ListLockAgrees(s')
  {
  }

  /** The mutexes change only where the stepping thread enters or leaves one, or an event is allocated. */
  lemma EffectOnOwners(s: World, t: nat, s': World)
    requires MutexesAgree(s) && t < |s.threads| && LockEffect(s, t, s')
    ensures s'.threads == s.threads[t := s'.threads[t]] && |s'.threads| == |s.threads|
    ensures var before, after := SectionOf(s.threads[t].pc), SectionOf(s'.threads[t].pc);
            || (before == after && (s'.owners == s.owners || s'.owners == s.owners + [None]))
            || (!before.EventMutex? && !after.EventMutex? && s'.owners == s.owners)
            || (before.EventMutex? && before.ev < |s.owners| && after.NoLock?
                && s'.owners == s.owners[before.ev := None])
            || (after.EventMutex? && after.ev < |s.owners| && s.owners[after.ev].None? && before.NoLock?
                && s'.owners == s.owners[after.ev := Some(t)])
  {
  }

  lemma EffectKeepsMutexes(s: World, t: nat, s': World)
    requires MutexesAgree(s) && t < |s.threads| && LockEffect(s, t, s')
    ensures MutexesAgree(s')
  {
    EffectOnOwners(s, t, s');
    hide LockEffect;
  }

  lemma EffectKeepsPrinter(s: World, t: nat, s': World)
    requires PrinterAgrees(s) && t < |s.threads| && LockEffect(s, t, s')
    ensures PrinterAgrees(s')
  {
  }

  lemma StepKeepsLocks(s: World, t: nat, c: Choice)
    requires LocksAgree(s) && t < |s.threads| && Step(s, t, c).Some?
    ensures LocksAgree(Step(s, t, c).value)
  {
    var s' := Step(s, t, c).value;
    StepLockEffect(s, t, c);
    EffectKeepsListLock(s, t, s');
    EffectKeepsMutexes(s, t, s');
    EffectKeepsPrinter(s, t, s');
  }
}
