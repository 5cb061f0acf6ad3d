/**
 * The circular buffer of session requests in the server's main.c, and the workers that empty it. A worker
 * looks at the count, releases the mutex, and only then retrieves, without looking again.
 */
module Queue {
  import opened Common
  import opened Seats

  datatype Request = Request(sessionId: int, requestPath: string, responsePath: string, serverPath: string)

  const NO_REQUEST := Request(0, "", "", "")

  /** The globals `buffer`, `in`, `out`, `count` and `session_counter`. */
  datatype Ring = Ring(buffer: seq<Request>, next: nat, first: nat, count: int, sessions: int)

  ghost predicate Shaped(q: Ring) {
    q.buffer != [] && q.next < |q.buffer| && q.first < |q.buffer|
  }

  function EmptyRing(capacity: nat): Ring {
    Ring(seq(capacity, i => NO_REQUEST), 0, 0, 0, 0)
  }

  function Put(q: Ring, r: Request): Ring
    requires Shaped(q)
  {
    var stored := r.(sessionId := q.sessions);
    Ring(q.buffer[q.next := stored], (q.next + 1) % |q.buffer|, q.first, q.count + 1, q.sessions + 1)
  }

  function Remove(q: Ring): (Ring, Request)
    requires Shaped(q)
  {
    (q.(first := (q.first + 1) % |q.buffer|, count := q.count - 1), q.buffer[q.first])
  }

  class Server {
    const buffer: array<Request>
    var next: nat
    var first: nat
    var count: int
    var sessions: int

    ghost predicate Valid()
      reads this, buffer
    {
      Shaped(Value())
    }

    ghost function Value(): Ring
      reads this, buffer
    {
      Ring(buffer[..], next, first, count, sessions)
    }

    constructor (capacity: nat)
      requires capacity >= 1
      ensures Valid() && fresh(buffer) && Value() == EmptyRing(capacity)
    {
      buffer := new Request[capacity](i => NO_REQUEST);
      next, first, count, sessions := 0, 0, 0, 0;
      new;
      assert buffer[..] == EmptyRing(capacity).buffer;
    }

    /** `insert_request`, from where its wait for room has ended. */
    method InsertRequest(request: Request)
      requires Valid() && count != buffer.Length
      modifies this, buffer
      ensures Valid() && Value() == Put(old(Value()), request)
    {
      var id := sessions;
      buffer[next] := request;
      buffer[next] := buffer[next].(sessionId := id);
      next := (next + 1) % buffer.Length;
      count := count + 1;
      sessions := sessions + 1;
    }

    /** `retrieve_request`, which does not look at the count. */
    method RetrieveRequest() returns (request: Request)
      requires Valid()
      modifies this
      ensures Valid() && (Value(), request) == Remove(old(Value()))
    {
      request := buffer[first];
      first := (first + 1) % buffer.Length;
      count := count - 1;
    }
  }

  // ---- The producer and the workers ------------------------------------------------------------------------

  /** Where a worker is: before its wait, between its wait and its retrieve, or serving a client. */
  datatype Worker = Waiting | Woken | Serving

  /**
   * The ring, the workers, and the history: the requests submitted, the requests taken, and how many were
   * taken when the count was not positive.
   */
  datatype System = System(ring: Ring, workers: seq<Worker>, submitted: seq<Request>, taken: seq<Request>, blind: nat)

  datatype Move = Submit(r: Request) | Look(w: nat) | Take(w: nat) | Finish(w: nat)

  function Start(capacity: nat, workers: nat): System {
    System(EmptyRing(capacity), seq(workers, i => Waiting), [], [], 0)
  }

  /** One step under the mutex; `None` when it is not possible. */
  function Step(s: System, m: Move): (r: Option<System>)
    requires Shaped(s.ring)
    ensures r.Some? ==> Shaped(r.value.ring) && |r.value.workers| == |s.workers|
  {
    match m
    case Submit(r) =>
      if s.ring.count == |s.ring.buffer| then None
      else Some(s.(ring := Put(s.ring, r), submitted := s.submitted + [r]))
    case Look(w) =>
      if w < |s.workers| && s.workers[w].Waiting? && s.ring.count != 0 then Some(s.(workers := s.workers[w := Woken]))
      else None
    case Take(w) =>
      if w < |s.workers| && s.workers[w].Woken? then
        var (ring, request) := Remove(s.ring);
        Some(System(ring, s.workers[w := Serving], s.submitted, s.taken + [request],
                    if s.ring.count > 0 then s.blind else s.blind + 1))
      else None
    case Finish(w) =>
      if w < |s.workers| && s.workers[w].Serving? then Some(s.(workers := s.workers[w := Waiting])) else None
  }

  /** The state after some steps. */
  function Run(capacity: nat, workers: nat, moves: seq<Move>): (r: Option<System>)
    requires capacity >= 1
    ensures r.Some? ==> Shaped(r.value.ring) && |r.value.workers| == workers
  {
    if moves == [] then Some(Start(capacity, workers))
    else
      match Run(capacity, workers, moves[..|moves| - 1])
      case None => None
      case Some(s) => Step(s, moves[|moves| - 1])
  }

  /** The `k`-th request submitted, as it is stored: with session id `k`. */
  function Stored(s: System, k: nat): Request
    requires k < |s.submitted|
  {
    s.submitted[k].(sessionId := k)
  }

  /** The requests taken are the first ones submitted, in order. */
  ghost predicate InOrder(s: System) {
    |s.taken| <= |s.submitted| && forall k :: 0 <= k < |s.taken| ==> s.taken[k] == Stored(s, k)
  }

  ghost predicate Counted(s: System)
    requires Shaped(s.ring)
  {
    var n := |s.ring.buffer|;
    && s.ring.count == |s.submitted| - |s.taken| <= n
    && s.ring.next == |s.submitted| % n && s.ring.first == |s.taken| % n
    && s.ring.sessions == |s.submitted|
  }

  /** The last requests submitted, up to the capacity, are in their slots. */
  ghost predicate Holds(s: System)
    requires Shaped(s.ring)
  {
    var n := |s.ring.buffer|;
    forall k :: 0 <= k < |s.submitted| && |s.submitted| - n <= k ==> s.ring.buffer[k % n] == Stored(s, k)
  }

  ghost predicate Inv(s: System) {
    && Shaped(s.ring) && Counted(s) && Holds(s)
    && (s.blind == 0 ==> InOrder(s))
  }

  lemma NextSlot(k: nat, n: nat)
    requires n > 0
    ensures (k + 1) % n == (k % n + 1) % n
  {
    var q, r := k / n, k % n;
    assert k == q * n + r;
    if r + 1 < n {
      ModIs(k + 1, q, r + 1, n);
      ModIs(r + 1, 0, r + 1, n);
    } else {
      ModIs(k + 1, q + 1, 0, n);
      ModIs(n, 1, 0, n);
    }
  }

  lemma ModIs(x: int, q: int, r: nat, n: nat)
    requires r < n && x == q * n + r
    ensures x % n == r
  {
    var p := x / n;
    assert p * n <= x < p * n + n;
    if p < q {
      MulMonotonic(p + 1, q, n);
    } else if p > q {
      MulMonotonic(q + 1, p, n);
    }
  }

  /** Slots of requests less than the capacity apart differ. */
  lemma SlotsDiffer(j: nat, k: nat, n: nat)
    requires n > 0 && j < k < j + n
    ensures j % n != k % n
  {
    var q, r := j / n, j % n + k - j;
    assert j == q * n + j % n;
    if r < n {
      ModIs(k, q, r, n);
    } else {
      assert (q + 1) * n == q * n + n;
      ModIs(k, q + 1, r - n, n);
    }
  }

  lemma PutKeeps(s: System, r: Request)
    requires Inv(s) && s.ring.count != |s.ring.buffer|
    ensures Inv(Step(s, Submit(r)).value)
  {
    var t, n, m := Step(s, Submit(r)).value, |s.ring.buffer|, |s.submitted|;
    NextSlot(m, n);
    forall k | 0 <= k < m + 1 && m + 1 - n <= k ensures t.ring.buffer[k % n] == Stored(t, k) {
      if k < m { SlotsDiffer(k, m, n); }
    }
  }

  lemma TakeKeeps(s: System, w: nat)
    requires Inv(s) && Step(s, Take(w)).Some?
    ensures Inv(Step(s, Take(w)).value)
    ensures Step(s, Take(w)).value.blind == 0 ==> s.blind == 0 && s.ring.count > 0
  {
    NextSlot(|s.taken|, |s.ring.buffer|);
    if s.ring.count > 0 {
      assert s.ring.buffer[|s.taken| % |s.ring.buffer|] == Stored(s, |s.taken|);
    }
  }

  /**
   * In every run of any number of workers: the count is the number of requests submitted less those taken
   * and never above the capacity, the indices are these numbers modulo the capacity, the k-th request
   * submitted is stored with session id k, and if every request was taken while the count was positive the
   * k-th taken is the k-th submitted.
   */
  lemma {:induction false} RunKeepsInv(capacity: nat, workers: nat, moves: seq<Move>)
    requires capacity >= 1 && Run(capacity, workers, moves).Some?
    ensures var s := Run(capacity, workers, moves).value; Inv(s) && |s.ring.buffer| == capacity
  {
    if moves != [] {
      var m, before := moves[|moves| - 1], moves[..|moves| - 1];
      RunKeepsInv(capacity, workers, before);
      var s := Run(capacity, workers, before).value;
      match m
      case Submit(r) => PutKeeps(s, r);
      case Take(w) => TakeKeeps(s, w);
      case _ =>
    }
  }

  lemma {:induction false} PrefixRuns(capacity: nat, workers: nat, moves: seq<Move>, i: nat)
    requires capacity >= 1 && Run(capacity, workers, moves).Some? && i <= |moves|
    ensures Run(capacity, workers, moves[..i]).Some?
    ensures Run(capacity, workers, moves[..i]).value.blind <= Run(capacity, workers, moves).value.blind
  {
    if i == |moves| {
      assert moves[..i] == moves;
    } else {
      var before := moves[..|moves| - 1];
      PrefixRuns(capacity, workers, before, i);
      assert before[..i] == moves[..i];
    }
  }

  /** The queue is first-in first-out throughout a run exactly when every take found a positive count. */
  lemma {:induction false} FifoIff(capacity: nat, workers: nat, moves: seq<Move>)
    requires capacity >= 1 && Run(capacity, workers, moves).Some?
    ensures Run(capacity, workers, moves).value.blind == 0
       <==> forall i :: 0 <= i <= |moves| ==> Run(capacity, workers, moves[..i]).Some?
                                               && InOrder(Run(capacity, workers, moves[..i]).value)
  {
    forall i | 0 <= i <= |moves| ensures Run(capacity, workers, moves[..i]).Some? {
      PrefixRuns(capacity, workers, moves, i);
    }
    if Run(capacity, workers, moves).value.blind == 0 {
      forall i | 0 <= i <= |moves| ensures InOrder(Run(capacity, workers, moves[..i]).value) {
        PrefixRuns(capacity, workers, moves, i);
        RunKeepsInv(capacity, workers, moves[..i]);
      }
    } else {
      BlindOvertakes(capacity, workers, moves);
    }
  }

  /** At some point of a run with a blind take, more requests had been taken than submitted. */
  lemma {:induction false} BlindOvertakes(capacity: nat, workers: nat, moves: seq<Move>)
    requires capacity >= 1 && Run(capacity, workers, moves).Some?
    requires Run(capacity, workers, moves).value.blind > 0
    ensures exists i :: 0 <= i <= |moves| && Run(capacity, workers, moves[..i]).Some?
                        && !InOrder(Run(capacity, workers, moves[..i]).value)
  {
    var before := moves[..|moves| - 1];
    RunKeepsInv(capacity, workers, before);
    if Run(capacity, workers, before).value.blind > 0 {
      BlindOvertakes(capacity, workers, before);
      var i :| 0 <= i <= |before| && Run(capacity, workers, before[..i]).Some?
               && !InOrder(Run(capacity, workers, before[..i]).value);
      assert before[..i] == moves[..i];
    } else {
      assert moves[..|moves|] == moves;
      assert !InOrder(Run(capacity, workers, moves[..|moves|]).value);
    }
  }

  /** The whole capacity can be used, and no more. */
  lemma {:induction false} FillsUp(capacity: nat, workers: nat, r: Request, n: nat)
    requires capacity >= 1 && n <= capacity
    ensures var s := Run(capacity, workers, seq(n, i => Submit(r)));
            && s.Some? && s.value.ring.count == n && |s.value.ring.buffer| == capacity
            && (Step(s.value, Submit(r)).None? <==> n == capacity)
  {
    var moves := seq(n, i => Submit(r));
    if n > 0 {
      FillsUp(capacity, workers, r, n - 1);
      assert moves[..n - 1] == seq(n - 1, i => Submit(r));
    }
  }

  // ---- One worker is safe, two are not -----------------------------------------------------------------------

  lemma {:induction false} OneWorkerTakesInOrder(capacity: nat, workers: nat, moves: seq<Move>)
    requires capacity >= 1 && workers <= 1 && Run(capacity, workers, moves).Some?
    ensures var s := Run(capacity, workers, moves).value;
            s.blind == 0 && s.ring.count >= 0 && (workers == 1 && s.workers[0].Woken? ==> s.ring.count > 0)
  {
    if moves != [] {
      OneWorkerTakesInOrder(capacity, workers, moves[..|moves| - 1]);
    }
  }

  lemma {:induction false} RunOneMore(capacity: nat, workers: nat, moves: seq<Move>, m: Move)
    requires capacity >= 1 && Run(capacity, workers, moves).Some?
    ensures Run(capacity, workers, moves + [m]) == Step(Run(capacity, workers, moves).value, m)
  {
    assert (moves + [m])[..|moves|] == moves;
  }

  /** Two workers woken by one request. */
  function Race(r: Request): seq<Move> {
    [] + [Submit(r)] + [Look(0)] + [Look(1)] + [Take(0)] + [Take(1)]
  }

  lemma BothWoken(capacity: nat, workers: nat, r: Request)
    requires capacity >= 1 && workers >= 2
    ensures var s := Run(capacity, workers, [] + [Submit(r)] + [Look(0)] + [Look(1)]);
            && s.Some? && s.value.ring.count == 1 && s.value.blind == 0
            && s.value.submitted == [r] && s.value.taken == []
            && s.value.ring.buffer == EmptyRing(capacity).buffer[0 := r.(sessionId := 0)] && s.value.ring.first == 0
            && s.value.workers == seq(workers, i => if i < 2 then Woken else Waiting)
  {
    hide Run;
    assert Run(capacity, workers, []) == Some(Start(capacity, workers)) by { RunNothing(capacity, workers); }
    RunOneMore(capacity, workers, [], Submit(r));
    RunOneMore(capacity, workers, [] + [Submit(r)], Look(0));
    RunOneMore(capacity, workers, [] + [Submit(r)] + [Look(0)], Look(1));
  }

  lemma RunNothing(capacity: nat, workers: nat)
    requires capacity >= 1
    ensures Run(capacity, workers, []) == Some(Start(capacity, workers))
  {
  }

  /**
   * With two workers both can be woken by one request: the second takes a slot that holds no new request and
   * the count becomes -1, at which a worker does not wait; a request submitted then brings it to 0, so that no
   * waiting worker looks at it.
   */
  lemma RaceGoesWrong(capacity: nat, workers: nat, r: Request, next: Request)
    requires capacity >= 1 && workers >= 2
    ensures Run(capacity, workers, Race(r)).Some? && Run(capacity, workers, Race(r) + [Submit(next)]).Some?
    ensures var s := Run(capacity, workers, Race(r)).value;
            && s.ring.count == -1 && s.blind == 1 && s.submitted == [r]
            && s.taken == [r.(sessionId := 0), if capacity == 1 then r.(sessionId := 0) else NO_REQUEST]
    ensures var u := Run(capacity, workers, Race(r) + [Finish(0)]);
            u.Some? && Step(u.value, Look(0)).Some?
    ensures var t := Run(capacity, workers, Race(r) + [Submit(next)]).value;
            && t.submitted == [r, next] && |t.taken| == 2
            && forall w: nat :: w < workers ==> !t.workers[w].Woken? && Step(t, Look(w)).None?
  {
    hide Run;
    var woken := [] + [Submit(r)] + [Look(0)] + [Look(1)];
    BothWoken(capacity, workers, r);
    RunOneMore(capacity, workers, woken, Take(0));
    RunOneMore(capacity, workers, woken + [Take(0)], Take(1));
    RunOneMore(capacity, workers, Race(r), Submit(next));
    RunOneMore(capacity, workers, Race(r), Finish(0));
  }

  /** No run takes blindly exactly when there is at most one worker. */
  lemma SafeIffOneWorker(capacity: nat, workers: nat)
    requires capacity >= 1
    ensures (forall moves :: Run(capacity, workers, moves).Some? ==> Run(capacity, workers, moves).value.blind == 0)
       <==> workers <= 1
  {
    if workers <= 1 {
      forall moves | Run(capacity, workers, moves).Some? ensures Run(capacity, workers, moves).value.blind == 0 {
        OneWorkerTakesInOrder(capacity, workers, moves);
      }
    } else {
      RaceGoesWrong(capacity, workers, NO_REQUEST, NO_REQUEST);
    }
  }
}
