/** Two moments of one run of the step machine: what is there stays there. */
module Growth {
  import opened Ems
  import opened History
  import opened Machine
  import opened Locks
  import opened Book
  import opened Refinement
  import opened Failures
  import opened Concurrency

  lemma StepGrows(s: World, t: nat, c: Choice)
    requires t < |s.threads| && Step(s, t, c).Some?
    ensures s.log <= Step(s, t, c).value.log && s.history <= Step(s, t, c).value.history
  {
    hide Step;
    StepBookEffect(s, t, c);
  }

  /** What has happened and what has taken effect is never taken back or reordered. */
  lemma {:induction false} LogGrows(run: seq<World>, i: nat, j: nat)
    requires IsRun(run) && i <= j < |run|
    ensures run[i].log <= run[j].log && run[i].history <= run[j].history
  {
    hide IsRun, Step;
    if i < j {
      LogGrows(run, i, j - 1);
      var t, c := LastStep(run, j);
      StepGrows(run[j - 1], t, c);
    }
  }

  lemma CallsGrow(log: seq<Entry>, more: seq<Entry>)
    requires log <= more
    ensures CallsOf(more) == CallsOf(log) + CallsOf(more[|log|..])
  {
  }

  /** Later serial states keep the place, id and shape of every event. */
  lemma AbsGrows(log: seq<Entry>, more: seq<Entry>, e: nat)
    requires Legal(log) && Legal(more) && log <= more && e < |Abs(log)|
    ensures e < |Abs(more)|
    ensures var a, b := Abs(log)[e], Abs(more)[e]; b.id == a.id && b.rows == a.rows && b.cols == a.cols
  {
    hide StateAfter;
    CallsGrow(log, more);
    TakenForever(CallsOf(log), CallsOf(more[|log|..]), e);
  }

  /** Event `e` of the serial state is in memory, with its node, where its place says. */
  ghost predicate InPlace(s: World, abs: State, e: nat) {
    && e < |abs| && e < |s.nodes| && s.nodes[e].event == e && e < |s.events|
    && s.events[e].id == abs[e].id && s.events[e].rows == abs[e].rows && s.events[e].cols == abs[e].cols
  }

  lemma DataInPlace(s: World, abs: State, e: nat)
    requires DataOk(s, abs) && e < |abs|
    ensures InPlace(s, abs, e)
  {
    hide ThreadsOk, EventsOk;
    EventShapes(s, abs, e);
  }

  lemma UnlockedList(s: World, abs: State)
    requires DataOk(s, abs) && s.writer.None?
    ensures SeesList(s, abs)
  {
    hide ThreadsOk, EventsOk;
    assert Writer(s) == InitialThread();
    forall e | 0 <= e < |abs| ensures s.events[e].id == abs[e].id { EventShapes(s, abs, e); }
  }

  lemma InvData(run: seq<World>, i: nat)
    requires IsRun(run) && i < |run|
    ensures Legal(run[i].log) && DataOk(run[i], Abs(run[i].log))
  {
    hide IsRun, LocksAgree, BookKept, FailuresKept, DataOk;
    RunKeepsInv(run, i);
  }

  /**
   * No event ever moves: whatever is in progress, at every later moment of a run an event that has been
   * created has its node at the same address, the same place in creation order, the same id and dimensions.
   */
  lemma NothingMoves(run: seq<World>, i: nat, j: nat, e: nat)
    requires IsRun(run) && i <= j < |run|
    ensures Legal(run[i].log) && Legal(run[j].log)
    ensures e < |Abs(run[i].log)| ==>
              && InPlace(run[i], Abs(run[i].log), e) && InPlace(run[j], Abs(run[j].log), e)
              && var a, b := run[i].events[e], run[j].events[e];
              b.id == a.id && b.rows == a.rows && b.cols == a.cols
  {
    hide IsRun, DataOk, StateAfter, Apply;
    LogGrows(run, i, j);
    InvData(run, i);
    InvData(run, j);
    if e < |Abs(run[i].log)| {
      AbsGrows(run[i].log, run[j].log, e);
      DataInPlace(run[i], Abs(run[i].log), e);
      DataInPlace(run[j], Abs(run[j].log), e);
    }
  }

  /** Whenever no thread holds the list lock for writing, the heap list is the serial list. */
  lemma UnlockedListIsSerial(run: seq<World>, i: nat)
    requires IsRun(run) && i < |run| && run[i].writer.None?
    ensures Legal(run[i].log) && SeesList(run[i], Abs(run[i].log))
  {
    hide IsRun, DataOk, SeesList, StateAfter, Apply;
    InvData(run, i);
    UnlockedList(run[i], Abs(run[i].log));
  }
}
