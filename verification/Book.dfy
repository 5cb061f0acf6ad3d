/**
 * Book-keeping of the step machine: each call takes effect once, between its invocation and its
 * return, and returns the reply it took effect with. Together with a legal log (module Refinement)
 * this is linearizability.
 */
module Book {
  import opened Ems
  import opened Machine
  import opened Locks

  predicate Pending(pc: Pc) {
    !pc.Idle? && !pc.Return?
  }

  /** What one step adds to the history and to the log. */
  ghost predicate BookEffect(s: World, t: nat, s': World)
    requires t < |s.threads|
  {
    && |s'.threads| == |s.threads| && s'.threads == s.threads[t := s'.threads[t]]
    && var th, th' := s.threads[t], s'.threads[t];
    || (th.pc.Idle? && th'.pc.Enter? && th'.call == |s.history|
        && s'.history == s.history + [Invoked(th'.op)] && s'.log == s.log)
    || (th.pc.Return? && th'.pc.Idle?
        && s'.history == s.history + [Returned(th.call, th.pc.reply)] && s'.log == s.log)
    || (Pending(th.pc) && th'.pc.Return? && th'.call == th.call && th'.op == th.op && s'.history == s.history
        && exists fails :: s'.log == s.log + [Entry(th.call, th.op, fails, th'.pc.reply, |s.history|)])
    || ((th'.pc == th.pc || (Pending(th.pc) && Pending(th'.pc))) && th'.call == th.call && th'.op == th.op
        && s'.history == s.history && s'.log == s.log)
  }

  lemma CreateBookEffect(s: World, t: nat, c: Choice)
    requires t < |s.threads| && s.threads[t].op.Create? && Pending(s.threads[t].pc) && CreateStep(s, t, c).Some?
    ensures BookEffect(s, t, CreateStep(s, t, c).value)
  {
  }

  lemma LookupBookEffect(s: World, t: nat)
    requires t < |s.threads| && (s.threads[t].op.Reserve? || s.threads[t].op.Show?)
    requires Pending(s.threads[t].pc) && LookupStep(s, t).Some?
    ensures BookEffect(s, t, LookupStep(s, t).value)
  {
  }

  lemma ListBookEffect(s: World, t: nat)
    requires t < |s.threads| && s.threads[t].op.ListEvents? && Pending(s.threads[t].pc) && ListStep(s, t).Some?
    ensures BookEffect(s, t, ListStep(s, t).value)
  {
  }

  lemma EventBookEffect(s: World, t: nat, ev: nat)
    requires t < |s.threads| && Pending(s.threads[t].pc) && EventStep(s, t, ev).Some?
    ensures BookEffect(s, t, EventStep(s, t, ev).value)
  {
  }

  lemma StepBookEffect(s: World, t: nat, c: Choice)
    requires t < |s.threads| && Step(s, t, c).Some?
    ensures BookEffect(s, t, Step(s, t, c).value)
  {
    var th := s.threads[t];
    if th.msg.Silent? && Pending(th.pc) {
      match SectionOf(th.pc)
      case EventMutex(ev) => EventBookEffect(s, t, ev);
      case _ =>
        match th.op
        case Create(_, _, _) => CreateBookEffect(s, t, c);
        case Reserve(_, _) => LookupBookEffect(s, t);
        case Show(_) => LookupBookEffect(s, t);
        case ListEvents => ListBookEffect(s, t);
    }
  }

  // ---- The book in every state -----------------------------------------------------------------

  /** Every entry is of an invoked call and comes after the invocation. */
  ghost predicate EntriesInvoked(s: World) {
    forall k :: 0 <= k < |s.log| ==>
      && s.log[k].call < s.log[k].at <= |s.history|
      && s.history[s.log[k].call] == Invoked(s.log[k].op)
  }

  ghost predicate EntriesOrdered(s: World) {
    forall k, l :: 0 <= k < l < |s.log| ==> s.log[k].at <= s.log[l].at && s.log[k].call != s.log[l].call
  }

  ghost predicate InLog(log: seq<Entry>, call: nat, reply: Reply, before: nat) {
    exists k :: 0 <= k < |log| && log[k].call == call && log[k].reply == reply && log[k].at <= before
  }

  /** Every return is of a call that took effect before, with that reply. */
  ghost predicate ReturnsLogged(s: World) {
    forall i :: 0 <= i < |s.history| && s.history[i].Returned? ==>
      InLog(s.log, s.history[i].call, s.history[i].reply, i)
  }

  ghost predicate ReturnsOnce(s: World) {
    forall i, j :: 0 <= i < j < |s.history| && s.history[i].Returned? && s.history[j].Returned? ==>
      s.history[i].call != s.history[j].call
  }

  ghost predicate ThreadBook(s: World, th: Thread) {
    !th.pc.Idle? ==>
      && th.call < |s.history| && s.history[th.call] == Invoked(th.op)
      && (forall i :: 0 <= i < |s.history| && s.history[i].Returned? ==> s.history[i].call != th.call)
      && (th.pc.Return? ==> InLog(s.log, th.call, th.pc.reply, |s.history|))
      && (Pending(th.pc) ==> forall k :: 0 <= k < |s.log| ==> s.log[k].call != th.call)
  }

  ghost predicate ThreadsBook(s: World) {
    && (forall t :: 0 <= t < |s.threads| ==> ThreadBook(s, s.threads[t]))
    && (forall t, u :: 0 <= t < u < |s.threads| && !s.threads[t].pc.Idle? && !s.threads[u].pc.Idle? ==>
          s.threads[t].call != s.threads[u].call)
  }

  ghost predicate BookKept(s: World) {
    EntriesInvoked(s) && EntriesOrdered(s) && ReturnsLogged(s) && ReturnsOnce(s) && ThreadsBook(s)
  }

  lemma InitBook(s: World)
    requires Init(s)
    ensures BookKept(s)
  {
  }

  lemma LogGrows(log: seq<Entry>, e: Entry, call: nat, reply: Reply, before: nat)
    requires InLog(log, call, reply, before)
    ensures InLog(log + [e], call, reply, before)
  {
    var k :| 0 <= k < |log| && log[k].call == call && log[k].reply == reply && log[k].at <= before;
    assert (log + [e])[k] == log[k];
  }

  lemma EffectKeepsEntries(s: World, t: nat, s': World)
    requires BookKept(s) && t < |s.threads| && BookEffect(s, t, s')
    ensures EntriesInvoked(s') && EntriesOrdered(s')
  {
    assert ThreadBook(s, s.threads[t]);
  }

  lemma EffectKeepsReturns(s: World, t: nat, s': World)
    requires BookKept(s) && t < |s.threads| && BookEffect(s, t, s')
    ensures ReturnsLogged(s') && ReturnsOnce(s')
  {
    assert ThreadBook(s, s.threads[t]);
    forall i | 0 <= i < |s'.history| && s'.history[i].Returned?
      ensures InLog(s'.log, s'.history[i].call, s'.history[i].reply, i)
    {
      if i < |s.history| && s'.log != s.log {
        LogGrows(s.log, s'.log[|s.log|], s.history[i].call, s.history[i].reply, i);
      }
    }
  }

  lemma EffectKeepsThreads(s: World, t: nat, s': World)
    requires BookKept(s) && t < |s.threads| && BookEffect(s, t, s')
    ensures ThreadsBook(s')
  {
    assert ThreadBook(s, s.threads[t]);
    forall u | 0 <= u < |s'.threads| ensures ThreadBook(s', s'.threads[u]) {
      assert ThreadBook(s, s.threads[u]);
      if u != t {
        EffectOnOthers(s, t, s', u);
      } else {
        EffectOnSelf(s, t, s');
      }
    }
  }

  lemma EffectOnOthers(s: World, t: nat, s': World, u: nat)
    requires BookKept(s) && t < |s.threads| && BookEffect(s, t, s') && u < |s.threads| && u != t
    ensures ThreadBook(s', s.threads[u])
  {
    var th := s.threads[u];
    assert ThreadBook(s, th) && ThreadBook(s, s.threads[t]);
    if th.pc.Return? && s'.log != s.log {
      LogGrows(s.log, s'.log[|s.log|], th.call, th.pc.reply, |s.history|);
    }
  }

  lemma EffectOnSelf(s: World, t: nat, s': World)
    requires BookKept(s) && t < |s.threads| && BookEffect(s, t, s')
    ensures ThreadBook(s', s'.threads[t])
  {
    assert ThreadBook(s, s.threads[t]);
    if s'.log != s.log {
      var k := |s.log|;
      assert s'.log[k].call == s.threads[t].call;
    }
  }

  lemma StepKeepsBook(s: World, t: nat, c: Choice)
    requires BookKept(s) && t < |s.threads| && Step(s, t, c).Some?
    ensures BookKept(Step(s, t, c).value)
  {
    var s' := Step(s, t, c).value;
    StepBookEffect(s, t, c);
    EffectKeepsEntries(s, t, s');
    EffectKeepsReturns(s, t, s');
    EffectKeepsThreads(s, t, s');
  }
}
