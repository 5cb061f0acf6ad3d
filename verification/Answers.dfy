/** What the replies of any run of the step machine say, told by the calls that took effect before. */
module Answers {
  import opened Common
  import opened Ems
  import opened History
  import opened Machine
  import opened Locks
  import opened Book
  import opened Failures
  import opened Refinement
  import opened Concurrency
  import opened Growth
  import opened Direct

  // ---- Which events exist ------------------------------------------------------------------------------------

  /** A create call for the id has succeeded among the first `k` effects. */
  ghost predicate CreatedBefore(log: seq<Entry>, k: nat, id: uint)
    requires k <= |log|
  {
    exists j :: 0 <= j < k && log[j].op.Create? && log[j].op.id == id && log[j].reply == Code(0)
  }

  lemma LegalAbs(log: seq<Entry>)
    requires Legal(log) && log != []
    ensures Legal(log[..|log| - 1])
    ensures var e, before := log[|log| - 1], Abs(log[..|log| - 1]);
            Valid(before) && ValidOp(e.op) && (Abs(log), e.reply) == Apply(before, e.op, e.fails)
  {
    var n := |log| - 1;
    LegalEntry(log, n);
    assert CallsOf(log)[..n] == CallsOf(log[..n]);
    hide Apply, Legal;
  }

  /** Only a create call that answers 0 makes an event, and it makes its own. */
  lemma OneCallCreates(s: State, op: Op, fails: bool, id: uint)
    requires Valid(s) && ValidOp(op)
    ensures var (t, reply) := Apply(s, op, fails);
            Find(t, id).Some? <==> Find(s, id).Some? || (op.Create? && op.id == id && reply == Code(0))
  {
    ApplyValid(s, op, fails);
    var t := Apply(s, op, fails).0;
    if op.Create? {
      if t != s { assert t[..|s|] == s; }
    } else {
      ApplyKeeps(s, op, fails);
      if Find(s, id).Some? { FindIs(t, id, Find(s, id).value); }
      if Find(t, id).Some? { FindIs(s, id, Find(t, id).value); }
    }
  }

  lemma {:induction false} FoundIff(log: seq<Entry>, id: uint)
    requires Legal(log)
    ensures Find(Abs(log), id).Some? <==> CreatedBefore(log, |log|, id)
  {
    hide Apply, Find;
    if log == [] {
      NothingFound(id);
    } else {
      var n := |log| - 1;
      LegalAbs(log);
      FoundIff(log[..n], id);
      OneCallCreates(Abs(log[..n]), log[n].op, log[n].fails, id);
      CreatedOneMore(log, id);
    }
  }

  lemma NothingFound(id: uint)
    ensures Legal([]) && Find(Abs([]), id).None?
  {
  }

  lemma CreatedOneMore(log: seq<Entry>, id: uint)
    requires log != []
    ensures var n := |log| - 1;
            var created := log[n].op.Create? && log[n].op.id == id && log[n].reply == Code(0);
            CreatedBefore(log, |log|, id) <==> CreatedBefore(log[..n], n, id) || created
  {
    var n := |log| - 1;
    if CreatedBefore(log[..n], n, id) {
      var j :| 0 <= j < n && log[..n][j].op.Create? && log[..n][j].op.id == id && log[..n][j].reply == Code(0);
      assert log[j] == log[..n][j];
    }
    if CreatedBefore(log, |log|, id) {
      var j :| 0 <= j < |log| && log[j].op.Create? && log[j].op.id == id && log[j].reply == Code(0);
      if j < n { assert log[..n][j] == log[j]; }
    }
  }

  /** The code a call answers, as far as it depends on which events exist. */
  ghost predicate AnswersRight(log: seq<Entry>, k: nat)
    requires k < |log|
  {
    var e := log[k];
    match e.op
    case Create(id, _, _) => e.reply == Code(if e.fails || CreatedBefore(log, k, id) then 1 else 0)
    case Reserve(id, _) => e.reply.Code? && (CreatedBefore(log, k, id) || e.reply.code == 1)
    case Show(id) => if CreatedBefore(log, k, id) then e.reply.Matrix? else e.reply == Code(1)
    case ListEvents => if exists id :: CreatedBefore(log, k, id) then e.reply.Ids? else e.reply == Code(2)
  }

  lemma LegalAnswers(log: seq<Entry>, k: nat)
    requires Legal(log) && k < |log|
    ensures AnswersRight(log, k)
  {
    LegalEntry(log, k);
    var before := Abs(log[..k]);
    hide Legal, Find, Abs, CreatedBefore, Accepts, Granted, NewEvent, IdsOf;
    forall id ensures Find(before, id).Some? <==> CreatedBefore(log, k, id) {
      FoundIff(log[..k], id);
      SameCreated(log, k, id);
    }
    SomeFound(before);
  }

  lemma SameCreated(log: seq<Entry>, k: nat, id: uint)
    requires k <= |log|
    ensures CreatedBefore(log[..k], |log[..k]|, id) <==> CreatedBefore(log, k, id)
  {
    if CreatedBefore(log, k, id) {
      var j :| 0 <= j < k && log[j].op.Create? && log[j].op.id == id && log[j].reply == Code(0);
      assert log[..k][j] == log[j];
    }
  }

  lemma SomeFound(s: State)
    requires Valid(s)
    ensures s != [] <==> exists id :: Find(s, id).Some?
  {
    if s != [] { FindIs(s, s[0].id, 0); }
  }

  /**
   * In every interleaving a create call is refused exactly when its allocation failed or a create call for the
   * id has succeeded before; a lookup misses exactly when none has; and the list is empty exactly when no
   * create call at all has succeeded.
   */
  lemma RunsAnswerRight(run: seq<World>, i: nat, k: nat)
    requires IsRun(run) && i < |run| && k < |run[i].log|
    ensures AnswersRight(run[i].log, k)
  {
    hide IsRun, LocksAgree, BookKept, FailuresKept, DataOk, Legal, AnswersRight;
    RunKeepsInv(run, i);
    LegalAnswers(run[i].log, k);
  }

  // ---- Every reply, by direct interpretation --------------------------------------------------------------------

  /** The directly interpreted state after a run of calls. */
  ghost function HallsAfter(calls: seq<Call>): (b: Halls)
    requires ValidCalls(calls)
    ensures Fits(b)
  {
    if calls == [] then NO_HALLS
    else
      var n := |calls| - 1;
      Interpret(HallsAfter(calls[..n]), calls[n].op, calls[n].fails).0
  }

  lemma EarlierCountable(b: Halls, op: Op, fails: bool)
    requires Fits(b) && ValidOp(op) && Countable(Interpret(b, op, fails).0)
    ensures Countable(b)
  {
    var c := Interpret(b, op, fails).0;
    forall id | id in b.of ensures |b.of[id].granted| <= UINT_MAX {
      assert id in c.of && |b.of[id].granted| <= |c.of[id].granted|;
    }
  }

  lemma {:induction false} CallsMatch(calls: seq<Call>)
    requires ValidCalls(calls) && Countable(HallsAfter(calls))
    ensures Matches(StateAfter(calls), HallsAfter(calls))
  {
    hide Matches, Interpret, Apply, Countable, Fits, Tells;
    if calls == [] {
      NothingMatches();
    } else {
      var n := |calls| - 1;
      var op, fails := calls[n].op, calls[n].fails;
      EarlierCountable(HallsAfter(calls[..n]), op, fails);
      CallsMatch(calls[..n]);
      CallMatches(StateAfter(calls[..n]), HallsAfter(calls[..n]), op, fails);
    }
  }

  lemma {:induction false} PrefixCountable(calls: seq<Call>, k: nat)
    requires ValidCalls(calls) && k <= |calls| && Countable(HallsAfter(calls))
    ensures Countable(HallsAfter(calls[..k]))
  {
    hide Interpret, Countable, Fits;
    if k == |calls| {
      assert calls[..k] == calls;
    } else {
      var n := |calls| - 1;
      EarlierCountable(HallsAfter(calls[..n]), calls[n].op, calls[n].fails);
      PrefixCountable(calls[..n], k);
      assert calls[..n][..k] == calls[..k];
    }
  }

  lemma LegalTells(log: seq<Entry>, k: nat)
    requires Legal(log) && k < |log| && ValidCalls(CallsOf(log)) && Countable(HallsAfter(CallsOf(log)))
    ensures ValidCalls(CallsOf(log[..k])) && ValidOp(log[k].op)
    ensures Tells(log[k].op, log[k].reply, Interpret(HallsAfter(CallsOf(log[..k])), log[k].op, log[k].fails))
  {
    LegalEntry(log, k);
    AbsIs(log[..k]);
    assert ValidOp(log[k].op) && ValidOp(CallsOf(log)[k].op);
    hide Legal, Matches, Interpret, Apply, Countable, Fits, Tells;
    var calls := CallsOf(log);
    assert calls[..k] == CallsOf(log[..k]);
    assert calls[..k + 1][..k] == calls[..k] && calls[..k + 1][k] == calls[k];
    PrefixCountable(calls, k + 1);
    PrefixCountable(calls, k);
    CallsMatch(calls[..k]);
    CallMatches(StateAfter(calls[..k]), HallsAfter(calls[..k]), log[k].op, log[k].fails);
  }

  /**
   * In every interleaving in which no counter has wrapped, every reply, its code, its matrix or its list, is
   * what direct interpretation says after the calls that took effect before.
   */
  lemma RunsTellDirectly(run: seq<World>, i: nat, k: nat)
    requires IsRun(run) && i < |run| && k < |run[i].log|
    ensures var log := run[i].log;
            && ValidCalls(CallsOf(log)) && ValidCalls(CallsOf(log[..k])) && ValidOp(log[k].op)
            && (Countable(HallsAfter(CallsOf(log))) ==>
                  Tells(log[k].op, log[k].reply,
                        Interpret(HallsAfter(CallsOf(log[..k])), log[k].op, log[k].fails)))
  {
    InvData(run, i);
    hide IsRun, DataOk, Tells, Interpret, Countable, HallsAfter, Apply, Abs;
    var log := run[i].log;
    LegalPrefix(log, k);
    assert ValidOp(log[k].op);
    if Countable(HallsAfter(CallsOf(log))) { LegalTells(log, k); }
  }
}
