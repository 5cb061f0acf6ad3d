/** The theorems about every run of the step machine, for any number of threads. */
module Concurrency {
  import opened Common
  import opened Ems
  import opened History
  import opened Machine
  import opened Locks
  import opened Book
  import opened Failures
  import opened Refinement

  ghost predicate Inv(s: World) {
    LocksAgree(s) && BookKept(s) && FailuresKept(s) && Legal(s.log) && DataOk(s, Abs(s.log))
  }

  lemma InitInv(s: World)
    requires Init(s)
    ensures Inv(s)
  {
    InitLocks(s);
    InitBook(s);
    InitFailures(s);
    assert CallsOf(s.log) == [];
    assert Writer(s) == InitialThread();
  }

  lemma StepKeepsInv(s: World, t: nat, c: Choice)
    requires Inv(s) && t < |s.threads| && Step(s, t, c).Some?
    ensures Inv(Step(s, t, c).value)
  {
    hide LocksAgree, BookKept, FailuresKept, DataOk, Legal, Step;
    StepKeepsLocks(s, t, c);
    StepKeepsBook(s, t, c);
    StepKeepsFailures(s, t, c);
    StepKeepsData(s, t, c);
  }

  lemma {:induction false} RunKeepsInv(run: seq<World>, i: nat)
    requires IsRun(run) && i < |run|
    ensures Inv(run[i])
  {
    hide Inv, Step, Init;
    if i == 0 {
      InitInv(run[0]);
    } else {
      RunKeepsInv(run, i - 1);
      var t, c := LastStep(run, i);
      StepKeepsInv(run[i - 1], t, c);
    }
  }

  // ---- Linearizability ---------------------------------------------------------------------------------

  /**
   * `order` explains a history serially: it holds invoked calls, each once, every call that has
   * returned is there with the reply it returned, the replies are those of the serial engine, a call
   * fails to allocate exactly when it is among `failures`, and a call that returned before another was
   * invoked comes before it.
   */
  ghost predicate IsLinearization(history: seq<Happening>, failures: set<nat>, order: seq<Entry>) {
    && Legal(order)
    && (forall k :: 0 <= k < |order| ==> (order[k].fails <==> order[k].call in failures))
    && (forall k :: 0 <= k < |order| ==>
          order[k].call < |history| && history[order[k].call] == Invoked(order[k].op))
    && (forall k, l :: 0 <= k < l < |order| ==> order[k].call != order[l].call)
    && (forall i :: 0 <= i < |history| && history[i].Returned? ==>
          exists k :: 0 <= k < |order| && order[k].call == history[i].call && order[k].reply == history[i].reply)
    && (forall i, k, l :: 0 <= i < |history| && history[i].Returned? && 0 <= k < |order| && 0 <= l < |order|
          && order[k].call == history[i].call && i < order[l].call
          ==> k < l)
  }

  lemma BookLinearizes(s: World)
    requires BookKept(s) && FailuresKept(s) && Legal(s.log)
    ensures IsLinearization(s.history, s.failures, s.log)
  {
    hide Legal, ThreadsBook;
    forall j | 0 <= j < |s.history| && s.history[j].Returned?
      ensures exists k :: 0 <= k < |s.log| && s.log[k].call == s.history[j].call && s.log[k].reply == s.history[j].reply
    {
      assert InLog(s.log, s.history[j].call, s.history[j].reply, j);
    }
    forall j, k, l | 0 <= j < |s.history| && s.history[j].Returned? && 0 <= k < |s.log| && 0 <= l < |s.log|
                     && s.log[k].call == s.history[j].call && j < s.log[l].call
      ensures k < l
    {
      RealTime(s, j, k, l);
    }
  }

  /** Every run is linearizable, at every moment. */
  lemma Linearizable(run: seq<World>, i: nat)
    requires IsRun(run) && i < |run|
    ensures IsLinearization(run[i].history, run[i].failures, run[i].log)
  {
    hide IsRun, LocksAgree, BookKept, FailuresKept, DataOk, Legal, IsLinearization;
    RunKeepsInv(run, i);
    BookLinearizes(run[i]);
  }

  ghost predicate FailsAt(run: seq<World>, j: nat, t: nat, call: nat)
    requires j + 1 < |run|
  {
    && t < |run[j].threads| && run[j].threads[t].pc.CreateAbsent? && run[j].threads[t].call == call
    && Step(run[j], t, Fail) == Some(run[j + 1])
  }

  /** A call is among the failures only if a step of its own has failed to allocate. */
  lemma {:induction false} FailuresHappen(run: seq<World>, i: nat, call: nat)
    requires IsRun(run) && i < |run| && call in run[i].failures
    ensures exists j: nat, t: nat :: j < i && FailsAt(run, j, t, call)
  {
    hide IsRun, Step;
    if i == 0 {
      NoFailuresYet(run);
    } else {
      var t, c := LastStep(run, i);
      StepFailureEffect(run[i - 1], t, c);
      if call in run[i - 1].failures {
        FailuresHappen(run, i - 1, call);
      } else {
        OnlyFailFails(run[i - 1], t, c);
        assert FailsAt(run, i - 1, t, call);
      }
    }
  }

  lemma NoFailuresYet(run: seq<World>)
    requires IsRun(run)
    ensures run[0].failures == {}
  {
  }

  lemma LastStep(run: seq<World>, i: nat) returns (t: nat, c: Choice)
    requires IsRun(run) && 0 < i < |run|
    ensures t < |run[i - 1].threads| && Step(run[i - 1], t, c) == Some(run[i])
  {
    hide Step, Init;
    assert Next(run[i - 1], run[i - 1 + 1]);
    t, c :| t < |run[i - 1].threads| && Step(run[i - 1], t, c) == Some(run[i]);
  }

  lemma OnlyFailFails(s: World, t: nat, c: Choice)
    requires t < |s.threads| && Step(s, t, c).Some? && s.threads[t].pc.CreateAbsent?
    requires Step(s, t, c).value.threads[t].pc.CreateFailed?
    ensures c == Fail
  {
  }

  /** In a run in which no allocation fails, no call is explained by a failed one. */
  lemma WithoutFailures(run: seq<World>, i: nat, k: nat)
    requires IsRun(run) && i < |run| && k < |run[i].log|
    requires forall j: nat, t: nat, call: nat :: j < i ==> !FailsAt(run, j, t, call)
    ensures !run[i].log[k].fails
  {
    RunKeepsInv(run, i);
    hide IsRun, Step, LocksAgree, BookKept, Legal, DataOk;
    if run[i].log[k].fails { FailuresHappen(run, i, run[i].log[k].call); }
  }

  lemma RealTime(s: World, j: nat, k: nat, l: nat)
    requires BookKept(s) && j < |s.history| && s.history[j].Returned? && k < |s.log| && l < |s.log|
    requires s.log[k].call == s.history[j].call && j < s.log[l].call
    ensures k < l
  {
    assert InLog(s.log, s.history[j].call, s.history[j].reply, j);
    var m :| 0 <= m < |s.log| && s.log[m].call == s.history[j].call && s.log[m].at <= j;
    assert m == k;
    assert s.log[l].call < s.log[l].at;
  }

  /** An event whose mutex is free holds exactly what the serial order says. */
  lemma FreeEventsAreSerial(run: seq<World>, i: nat)
    requires IsRun(run) && i < |run|
    ensures Legal(run[i].log)
    ensures var s := run[i];
            var abs := Abs(s.log);
            && |abs| <= |s.events| == |s.owners|
            && forall e :: 0 <= e < |abs| && s.owners[e].None? ==> s.events[e] == abs[e]
  {
    RunKeepsInv(run, i);
    var s := run[i];
    var abs := Abs(s.log);
    hide LocksAgree, BookKept, Legal, HeapOk, ThreadsOk;
    forall e | 0 <= e < |abs| && s.owners[e].None? ensures s.events[e] == abs[e] {
      assert EventOk(s, abs, e);
    }
  }

  ghost predicate AllIdle(s: World) {
    forall t :: 0 <= t < |s.threads| ==> s.threads[t].pc.Idle?
  }

  ghost predicate AllLocksFree(s: World) {
    && s.writer.None? && s.readers == {} && s.printer.None?
    && forall e :: 0 <= e < |s.owners| ==> s.owners[e].None?
  }

  lemma IdleFreesLocks(s: World)
    requires LocksAgree(s) && AllIdle(s)
    ensures AllLocksFree(s)
  {
    forall t | t in s.readers ensures false { }
  }

  /** Between calls all locks are free and the whole memory, list included, is the serial state. */
  lemma IdleStateIsSerial(run: seq<World>, i: nat)
    requires IsRun(run) && i < |run| && AllIdle(run[i])
    ensures Legal(run[i].log) && AllLocksFree(run[i])
    ensures var s := run[i];
            var abs := Abs(s.log);
            s.events == abs && |s.nodes| == |abs| && Chain(s, |abs|)
  {
    RunKeepsInv(run, i);
    FreeEventsAreSerial(run, i);
    var s := run[i];
    hide BookKept, Legal, EventsOk, ThreadsOk;
    IdleFreesLocks(s);
    assert Writer(s) == InitialThread();
  }

  // ---- The history theorem under concurrency --------------------------------------------------------------

  /**
   * In every reachable state, seat `c` of an event whose mutex is free holds `k > 0` exactly when the
   * `k`-th request granted on that event names it, as long as its counter has not wrapped.
   */
  lemma SeatsTellHistory(run: seq<World>, i: nat)
    requires IsRun(run) && i < |run|
    ensures Legal(run[i].log)
    ensures var s := run[i];
            && |Abs(s.log)| <= |s.events| == |s.owners|
            && forall e :: 0 <= e < |Abs(s.log)| && s.owners[e].None? ==>
                 && ValidEvent(s.events[e])
                 && var granted := Accepted(CallsOf(s.log), s.events[e].id);
                 (Labelled(s.events[e], granted) <==> |granted| <= UINT_MAX)
  {
    FreeEventsAreSerial(run, i);
    var s := run[i];
    forall e | 0 <= e < |Abs(s.log)| && s.owners[e].None?
      ensures ValidEvent(s.events[e])
      ensures var granted := Accepted(CallsOf(s.log), s.events[e].id);
              (Labelled(s.events[e], granted) <==> |granted| <= UINT_MAX)
    {
      LabelsTellHistory(CallsOf(s.log), e);
    }
  }

  lemma AcceptedGrows(log: seq<Entry>, k: nat, id: uint)
    requires Legal(log) && k <= |log|
    ensures Legal(log[..k]) && Accepted(CallsOf(log[..k]), id) <= Accepted(CallsOf(log), id)
    decreases |log|
  {
    LegalPrefix(log, k);
    if k < |log| {
      var n := |log| - 1;
      LegalPrefix(log, n);
      AcceptedGrows(log[..n], k, id);
      assert log[..n][..k] == log[..k];
      assert CallsOf(log)[..n] == CallsOf(log[..n]);
    } else {
      assert log[..k] == log;
    }
  }

  lemma LegalPrefix(log: seq<Entry>, k: nat)
    requires Legal(log) && k <= |log|
    ensures Legal(log[..k])
  {
    forall j | 0 <= j < k
      ensures log[..k][j].reply == Apply(Abs(log[..k][..j]), log[j].op, log[j].fails).1
    {
      assert log[..k][..j] == log[..j];
    }
  }

  /**
   * A matrix that `ems_show` sent is the labelling by a whole prefix of the requests granted on the
   * event, although seats are written and sent one per step.
   */
  lemma SnapshotsAreWhole(run: seq<World>, i: nat, k: nat)
    requires IsRun(run) && i < |run| && k < |run[i].log| && run[i].log[k].reply.Matrix?
    ensures Legal(run[i].log) && Legal(run[i].log[..k]) && run[i].log[k].op.Show?
    ensures var shown, id := run[i].log[k].reply, run[i].log[k].op.id;
            var granted := Accepted(CallsOf(run[i].log[..k]), id);
            && granted <= Accepted(CallsOf(run[i].log), id)
            && exists e :: ValidEvent(e) && e in Abs(run[i].log[..k]) && e.id == id
                 && shown == Matrix(e.rows, e.cols, e.seats)
                 && (|granted| <= UINT_MAX ==> Labelled(e, granted))
  {
    Linearizable(run, i);
    var log := run[i].log;
    var id := log[k].op.id;
    AcceptedGrows(log, k, id);
    var before := Abs(log[..k]);
    var j := Find(before, id).value;
    LabelsTellHistory(CallsOf(log[..k]), j);
    assert before[j] in before;
  }

  /** In every interleaving, a request refused on an existing event is refused whenever it is made again. */
  lemma RefusalsArePermanent(run: seq<World>, i: nat, k: nat, l: nat)
    requires IsRun(run) && i < |run| && k < l < |run[i].log|
    requires run[i].log[k].op.Reserve? && run[i].log[k].reply == Code(1) && run[i].log[l].op == run[i].log[k].op
    ensures Legal(run[i].log[..k])
    ensures Find(Abs(run[i].log[..k]), run[i].log[k].op.id).Some? ==> run[i].log[l].reply == Code(1)
  {
    hide Legal, Find, Abs, Step, Init;
    Linearizable(run, i);
    LegalPrefix(run[i].log, k);
    if Find(Abs(run[i].log[..k]), run[i].log[k].op.id).Some? { LegalRefusals(run[i].log, k, l); }
  }

  lemma LegalRefusals(log: seq<Entry>, k: nat, l: nat)
    requires Legal(log) && k < l < |log| && Legal(log[..k])
    requires log[k].op.Reserve? && log[k].reply == Code(1) && log[l].op == log[k].op
    requires Find(Abs(log[..k]), log[k].op.id).Some?
    ensures log[l].reply == Code(1)
  {
    hide Apply, Find, Abs;
    LegalPrefix(log, l);
    LegalEntry(log, k);
    LegalEntry(log, l);
    hide Legal;
    var before, after := CallsOf(log[..k]), CallsOf(log[..l]);
    assert after == before + after[k..];
    AbsIs(log[..k]);
    AbsIs(log[..l]);
    RefusedAgain(before, after[k..], log[k].op, log[k].fails, log[l].fails);
  }

  lemma LegalEntry(log: seq<Entry>, k: nat)
    requires Legal(log) && k < |log|
    ensures Legal(log[..k]) && log[k].reply == Apply(Abs(log[..k]), log[k].op, log[k].fails).1
  {
    LegalPrefix(log, k);
  }

  lemma AbsIs(log: seq<Entry>)
    requires Legal(log)
    ensures ValidCalls(CallsOf(log)) && Abs(log) == StateAfter(CallsOf(log))
  {
  }

  /** `ems_list_events` counts what it lists, lists in creation order, and lists no id twice. */
  lemma ListingsAgree(run: seq<World>, i: nat, k: nat)
    requires IsRun(run) && i < |run| && k < |run[i].log| && run[i].log[k].reply.Ids?
    ensures Legal(run[i].log) && Legal(run[i].log[..k])
    ensures var reply := run[i].log[k].reply;
            var before := Abs(run[i].log[..k]);
            && reply.count == |reply.ids| == |before| > 0
            && (forall e :: 0 <= e < |before| ==> reply.ids[e] == before[e].id)
            && forall d, e :: 0 <= d < e < |reply.ids| ==> reply.ids[d] != reply.ids[e]
  {
    Linearizable(run, i);
    LegalListing(run[i].log, k);
  }

  lemma LegalListing(log: seq<Entry>, k: nat)
    requires Legal(log) && k < |log| && log[k].reply.Ids?
    ensures Legal(log[..k])
    ensures var before := Abs(log[..k]);
            log[k].reply == Ids(|before|, IdsOf(before)) && |before| > 0
  {
    LegalPrefix(log, k);
  }

  /**
   * What the client guarantees, no empty request, carries over to every interleaving: on a grid of at
   * most UINT_MAX cells ids are 1, 2, 3, ... without reuse and never exceed the number of taken seats.
   */
  lemma IdsNeverReused(run: seq<World>, i: nat)
    requires IsRun(run) && i < |run|
    requires forall k :: 0 <= k < |run[i].log| && run[i].log[k].op.Reserve? ==> run[i].log[k].op.req != []
    ensures Legal(run[i].log)
    ensures var s := run[i];
            && |Abs(s.log)| <= |s.events| == |s.owners|
            && forall e ::
                 (0 <= e < |Abs(s.log)| && s.owners[e].None? && s.events[e].rows * s.events[e].cols <= UINT_MAX) ==>
                 && ValidEvent(s.events[e]) && Labelled(s.events[e], Accepted(CallsOf(s.log), s.events[e].id))
                 && s.events[e].reservations <= |Taken(s.events[e].seats)|
  {
    FreeEventsAreSerial(run, i);
    var s := run[i];
    forall e | 0 <= e < |Abs(s.log)| && s.owners[e].None? && s.events[e].rows * s.events[e].cols <= UINT_MAX
      ensures ValidEvent(s.events[e]) && Labelled(s.events[e], Accepted(CallsOf(s.log), s.events[e].id))
      ensures s.events[e].reservations <= |Taken(s.events[e].seats)|
    {
      CounterNeverWraps(CallsOf(s.log), e);
    }
  }

  /** The heap list, seen by a thread that holds its lock outside an append, is the serial state in order. */
  lemma HeldListIsSerial(run: seq<World>, i: nat, t: nat)
    requires IsRun(run) && i < |run| && t < |run[i].threads| && Quiet(run[i].threads[t].pc)
    requires SectionOf(run[i].threads[t].pc) == ListWrite || SectionOf(run[i].threads[t].pc) == ListRead
    ensures Legal(run[i].log) && SeesList(run[i], Abs(run[i].log))
  {
    RunKeepsInv(run, i);
    HeldList(run[i], t, Abs(run[i].log));
  }

  // ---- Locking discipline ------------------------------------------------------------------------------------

  /** No thread holds the list lock and an event mutex, or two event mutexes, at once; writers exclude readers. */
  lemma LocksNeverNest(run: seq<World>, i: nat, t: nat)
    requires IsRun(run) && i < |run| && t < |run[i].threads|
    ensures var s := run[i];
            && !(s.writer == Some(t) && t in s.readers)
            && (s.writer == Some(t) || t in s.readers ==> forall e :: 0 <= e < |s.owners| ==> s.owners[e] != Some(t))
            && (forall d, e :: 0 <= d < e < |s.owners| ==> !(s.owners[d] == Some(t) && s.owners[e] == Some(t)))
            && (s.writer.Some? ==> s.readers == {})
  {
    RunKeepsInv(run, i);
    hide BookKept, Legal, DataOk;
  }
}
