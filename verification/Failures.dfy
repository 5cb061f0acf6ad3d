/** Which create calls of a run failed to allocate: exactly those that took a failing step. */
module Failures {
  import opened Machine
  import opened Locks
  import opened Book

  ghost predicate FailureEffect(s: World, t: nat, s': World)
    requires t < |s.threads|
  {
    && t < |s'.threads|
    && var th, th' := s.threads[t], s'.threads[t];
    && (if th.pc.CreateAbsent? && th'.pc.CreateFailed? then s'.failures == s.failures + {th.call}
        else s'.failures == s.failures && (Pending(th'.pc) ==> (th'.pc.CreateFailed? <==> th.pc.CreateFailed?)))
    && (s'.log != s.log ==> |s'.log| == |s.log| + 1 && (s'.log[|s.log|].fails <==> th.pc.CreateFailed?))
  }

  lemma CreateFailureEffect(s: World, t: nat, c: Choice)
    requires t < |s.threads| && s.threads[t].op.Create? && Pending(s.threads[t].pc) && CreateStep(s, t, c).Some?
    ensures FailureEffect(s, t, CreateStep(s, t, c).value)
  {
  }

  lemma LookupFailureEffect(s: World, t: nat)
    requires t < |s.threads| && (s.threads[t].op.Reserve? || s.threads[t].op.Show?)
    requires Pending(s.threads[t].pc) && LookupStep(s, t).Some?
    ensures FailureEffect(s, t, LookupStep(s, t).value)
  {
  }

  lemma ListFailureEffect(s: World, t: nat)
    requires t < |s.threads| && s.threads[t].op.ListEvents? && Pending(s.threads[t].pc) && ListStep(s, t).Some?
    ensures FailureEffect(s, t, ListStep(s, t).value)
  {
  }

  lemma EventFailureEffect(s: World, t: nat, ev: nat)
    requires t < |s.threads| && SectionOf(s.threads[t].pc).EventMutex? && EventStep(s, t, ev).Some?
    ensures FailureEffect(s, t, EventStep(s, t, ev).value)
  {
  }

  lemma StepFailureEffect(s: World, t: nat, c: Choice)
    requires t < |s.threads| && Step(s, t, c).Some?
    ensures FailureEffect(s, t, Step(s, t, c).value)
  {
    var th := s.threads[t];
    if th.msg.Silent? && Pending(th.pc) {
      match SectionOf(th.pc)
      case EventMutex(ev) => EventFailureEffect(s, t, ev);
      case _ =>
        match th.op
        case Create(_, _, _) => CreateFailureEffect(s, t, c);
        case Reserve(_, _) => LookupFailureEffect(s, t);
        case Show(_) => LookupFailureEffect(s, t);
        case ListEvents => ListFailureEffect(s, t);
    }
  }

  /** An entry of the log, and a call in progress, fails exactly when its call is among the failures. */
  ghost predicate FailuresKept(s: World) {
    && (forall call :: call in s.failures ==> call < |s.history|)
    && (forall k :: 0 <= k < |s.log| ==> (s.log[k].fails <==> s.log[k].call in s.failures))
    && (forall t :: 0 <= t < |s.threads| && Pending(s.threads[t].pc) ==>
          (s.threads[t].pc.CreateFailed? <==> s.threads[t].call in s.failures))
  }

  lemma InitFailures(s: World)
    requires Init(s)
    ensures FailuresKept(s)
  {
  }

  lemma StepKeepsFailures(s: World, t: nat, c: Choice)
    requires BookKept(s) && FailuresKept(s) && t < |s.threads| && Step(s, t, c).Some?
    ensures FailuresKept(Step(s, t, c).value)
  {
    hide Step, EntriesInvoked, EntriesOrdered, ReturnsLogged, ReturnsOnce;
    StepBookEffect(s, t, c);
    StepFailureEffect(s, t, c);
    assert ThreadBook(s, s.threads[t]);
  }
}
