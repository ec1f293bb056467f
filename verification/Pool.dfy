/**
 * The worker pool of site/js/net.js and the decode queue of site/js/store.js, as state machines over the steps between
 * two awaits. A schedule says which worker goes next; the lemmas quantify over every schedule.
 */
module Pool {
  import opened Prelude
  import Fetch

  /** What a call resolves to, or the message it rejects with. */
  type Outcomes<R> = seq<Result<R, string>>

  datatype Worker = Claiming | Calling(item: nat) | Returned | Threw(item: nat)

  /** `next` and `results` are the shared variables; `calls` lists the items `fn` was called on, in order. */
  datatype State<R> = State(next: nat, results: seq<Option<R>>, workers: seq<Worker>, calls: seq<nat>)

  function Start<R>(n: nat, limit: nat): State<R> {
    State(0, seq(n, _ => None), seq(Min(limit, n), _ => Claiming), [])
  }

  /** Up to the next await: a claiming worker takes an index, a calling one gets its answer. */
  function Step<R>(answers: Outcomes<R>, s: State<R>, w: nat): Option<State<R>> {
    if w >= |s.workers| then None
    else
      match s.workers[w]
      case Claiming =>
        if s.next < |s.results|
        then Some(State(s.next + 1, s.results, s.workers[w := Calling(s.next)], s.calls + [s.next]))
        else Some(s.(next := s.next + 1, workers := s.workers[w := Returned]))
      case Calling(i) =>
        if i >= |answers| || i >= |s.results| then None
        else if answers[i].Ok?
        then Some(s.(results := s.results[i := Some(answers[i].value)], workers := s.workers[w := Claiming]))
        else Some(s.(workers := s.workers[w := Threw(i)]))
      case _ => None
  }

  /** Where a schedule leads, or None if it picks a worker that is through. */
  function After<R>(answers: Outcomes<R>, limit: nat, schedule: seq<nat>): Option<State<R>> {
    if schedule == [] then Some(Start(|answers|, limit))
    else
      var before := After(answers, limit, schedule[..|schedule| - 1]);
      if before.None? then None else Step(answers, before.value, schedule[|schedule| - 1])
  }

  function Upto(n: nat): (indices: seq<nat>)
    ensures |indices| == n && forall i :: 0 <= i < n ==> indices[i] == i
  {
    seq(n, i => i)
  }

  predicate Holds(worker: Worker, i: nat) {
    worker == Calling(i) || worker == Threw(i)
  }

  /** An index is with one worker, or answered, or not claimed. */
  ghost predicate Placed<R>(answers: Outcomes<R>, s: State<R>, i: nat)
    requires i < |answers| == |s.results|
  {
    if s.next <= i then s.results[i] == None && forall w :: 0 <= w < |s.workers| ==> !Holds(s.workers[w], i)
    else
      || (answers[i].Ok? && s.results[i] == Some(answers[i].value)
          && forall w :: 0 <= w < |s.workers| ==> !Holds(s.workers[w], i))
      || (s.results[i] == None && exists w :: Alone(s.workers, w, i))
  }

  ghost predicate Alone(workers: seq<Worker>, w: nat, i: nat) {
    && w < |workers|
    && Holds(workers[w], i)
    && forall v :: 0 <= v < |workers| && v != w ==> !Holds(workers[v], i)
  }

  /** What every step keeps. */
  ghost predicate Sound<R>(answers: Outcomes<R>, s: State<R>) {
    && |s.results| == |answers|
    && s.calls == Upto(Min(s.next, |answers|))
    && (forall i :: 0 <= i < |answers| ==> Placed(answers, s, i))
    && (forall w :: 0 <= w < |s.workers| ==> WorkerSound(answers, s.next, s.workers[w]))
  }

  ghost predicate WorkerSound<R>(answers: Outcomes<R>, next: nat, worker: Worker) {
    match worker
    case Claiming => true
    case Calling(i) => i < |answers|
    case Threw(i) => i < |answers| && answers[i].Err?
    case Returned => next >= |answers|
  }

  lemma {:induction false} StepKeepsSound<R>(answers: Outcomes<R>, s: State<R>, w: nat)
    requires Sound(answers, s) && Step(answers, s, w).Some?
    ensures Sound(answers, Step(answers, s, w).value)
    ensures |Step(answers, s, w).value.workers| == |s.workers|
  {
    var after := Step(answers, s, w).value;
    assert forall v :: 0 <= v < |s.workers| && v != w ==> after.workers[v] == s.workers[v];
    assert Upto(Min(s.next, |answers|)) + (if s.next < |answers| then [s.next] else []) ==
           Upto(Min(s.next + 1, |answers|));
    forall i | 0 <= i < |answers| ensures Placed(answers, after, i) {
      assert Placed(answers, s, i);
      if s.workers[w].Claiming? {
        ClaimPlaces(answers, s, after, w, i);
      } else {
        SettlePlaces(answers, s, after, w, i);
      }
    }
  }

  lemma {:induction false} ClaimPlaces<R>(answers: Outcomes<R>, s: State<R>, after: State<R>, w: nat, i: nat)
    requires Sound(answers, s) && Step(answers, s, w) == Some(after) && s.workers[w].Claiming? && i < |answers|
    ensures Placed(answers, after, i)
  {
    assert Placed(answers, s, i);
    if i == s.next {
      assert Alone(after.workers, w, i);
    } else if i < s.next && s.results[i] == None {
      var v :| Alone(s.workers, v, i);
      assert Alone(after.workers, v, i);
    }
  }

  lemma {:induction false} SettlePlaces<R>(answers: Outcomes<R>, s: State<R>, after: State<R>, w: nat, i: nat)
    requires Sound(answers, s) && Step(answers, s, w) == Some(after) && s.workers[w].Calling? && i < |answers|
    ensures Placed(answers, after, i)
  {
    assert Placed(answers, s, i);
    var mine := s.workers[w].item;
    assert Holds(s.workers[w], mine);
    if i < s.next && s.results[i] == None {
      var v :| Alone(s.workers, v, i);
      if i != mine || answers[i].Err? {
        assert Alone(after.workers, v, i);
      }
    }
  }

  /** How many more steps a worker can take on its own. */
  function Left(worker: Worker): nat {
    match worker
    case Claiming => 1
    case Calling(_) => 2
    case _ => 0
  }

  lemma {:induction false} SumUpdate(costs: seq<nat>, after: seq<nat>, w: nat)
    requires w < |costs| == |after| && forall i :: 0 <= i < |costs| && i != w ==> after[i] == costs[i]
    ensures Sum(after) == Sum(costs) - costs[w] + after[w]
  {
    var n := |costs| - 1;
    if w == n {
      assert after[..n] == costs[..n];
    } else {
      SumUpdate(costs[..n], after[..n], w);
    }
  }

  lemma {:induction false} SumOfSame(costs: seq<nat>, cost: nat)
    requires forall i :: 0 <= i < |costs| ==> costs[i] == cost
    ensures Sum(costs) == |costs| * cost
  {
    if costs != [] {
      SumOfSame(costs[..|costs| - 1], cost);
    }
  }

  function LeftOf(workers: seq<Worker>): seq<nat> {
    seq(|workers|, w requires 0 <= w < |workers| => Left(workers[w]))
  }

  /** Steps a run can still take: each unclaimed index costs a claim and an answer. */
  function Budget<R>(s: State<R>): nat {
    2 * (|s.results| - Min(s.next, |s.results|)) + Sum(LeftOf(s.workers))
  }

  lemma {:induction false} StepSpends<R>(answers: Outcomes<R>, s: State<R>, w: nat)
    requires Step(answers, s, w).Some?
    ensures Budget(Step(answers, s, w).value) < Budget(s)
    ensures (forall i :: 0 <= i < |answers| ==> answers[i].Ok?) ==> Budget(Step(answers, s, w).value) == Budget(s) - 1
  {
    SumUpdate(LeftOf(s.workers), LeftOf(Step(answers, s, w).value.workers), w);
  }

  predicate InFlight(worker: Worker) {
    worker.Calling?
  }

  /** How many calls are pending. */
  function Pending(workers: seq<Worker>): (n: nat)
    ensures n <= |workers|
  {
    if workers == [] then 0
    else Pending(workers[..|workers| - 1]) + if InFlight(workers[|workers| - 1]) then 1 else 0
  }

  /**
   * Every interleaving: items are called in index order, each once; at most min(limit, items) calls are pending; a
   * stored result is the item's own; and the steps a schedule has taken were paid from 2 * items + min(limit, items).
   */
  lemma {:induction false} EveryInterleaving<R>(answers: Outcomes<R>, limit: nat, schedule: seq<nat>)
    requires After(answers, limit, schedule).Some?
    ensures var s := After(answers, limit, schedule).value;
      && Sound(answers, s)
      && |s.workers| == Min(limit, |answers|)
      && Pending(s.workers) <= Min(limit, |answers|)
      && |schedule| + Budget(s) <= 2 * |answers| + Min(limit, |answers|)
  {
    if schedule == [] {
      SumOfSame(LeftOf(Start<R>(|answers|, limit).workers), 1);
    } else {
      EveryInterleaving(answers, limit, schedule[..|schedule| - 1]);
      var before := After(answers, limit, schedule[..|schedule| - 1]).value;
      StepKeepsSound(answers, before, schedule[|schedule| - 1]);
      StepSpends(answers, before, schedule[|schedule| - 1]);
    }
  }

  predicate Through(worker: Worker) {
    worker.Returned? || worker.Threw?
  }

  /** Nobody can move. */
  ghost predicate Stuck<R>(answers: Outcomes<R>, s: State<R>) {
    forall w :: 0 <= w < |s.workers| ==> Step(answers, s, w) == None
  }

  ghost predicate Rejected<R>(s: State<R>) {
    exists w :: 0 <= w < |s.workers| && s.workers[w].Threw?
  }

  /** The promise of the pool is fulfilled: every worker returned. */
  ghost predicate Fulfilled<R>(s: State<R>) {
    forall w :: 0 <= w < |s.workers| ==> s.workers[w].Returned?
  }

  /**
   * Where every schedule ends. With a worker to run, the pool rejects exactly when some item fails, and otherwise its
   * results are the answers, item by item. With none it is fulfilled at once, with no result at all.
   */
  lemma {:induction false} EveryEnd<R>(answers: Outcomes<R>, limit: nat, schedule: seq<nat>)
    requires After(answers, limit, schedule).Some? && Stuck(answers, After(answers, limit, schedule).value)
    ensures var s := After(answers, limit, schedule).value;
      && |s.results| == |answers|
      && (Rejected(s) || Fulfilled(s))
      && (limit > 0 ==> (Rejected(s) <==> exists i :: 0 <= i < |answers| && answers[i].Err?))
      && (limit > 0 && !Rejected(s) ==>
          forall i :: 0 <= i < |answers| ==> answers[i].Ok? && s.results[i] == Some(answers[i].value))
      && (limit == 0 ==> Fulfilled(s) && forall i :: 0 <= i < |answers| ==> s.results[i] == None)
  {
    EveryInterleaving(answers, limit, schedule);
    var s := After(answers, limit, schedule).value;
    forall w | 0 <= w < |s.workers| ensures Through(s.workers[w]) {
      assert Step(answers, s, w) == None;
      assert WorkerSound(answers, s.next, s.workers[w]);
    }
    if limit == 0 {
      NobodyClaims(answers, schedule);
    } else if |answers| > 0 {
      EndOfWork(answers, s);
    }
  }

  lemma {:induction false} NobodyClaims<R>(answers: Outcomes<R>, schedule: seq<nat>)
    requires After(answers, 0, schedule).Some?
    ensures After(answers, 0, schedule).value == Start(|answers|, 0)
  {
    if schedule != [] {
      NobodyClaims(answers, schedule[..|schedule| - 1]);
    }
  }

  lemma {:induction false} EndOfWork<R>(answers: Outcomes<R>, s: State<R>)
    requires Sound(answers, s) && |s.workers| > 0 && forall w :: 0 <= w < |s.workers| ==> Through(s.workers[w])
    ensures Rejected(s) <==> exists i :: 0 <= i < |answers| && answers[i].Err?
    ensures !Rejected(s) ==> forall i :: 0 <= i < |answers| ==> answers[i].Ok? && s.results[i] == Some(answers[i].value)
  {
    if Rejected(s) {
      var w :| 0 <= w < |s.workers| && s.workers[w].Threw?;
      assert WorkerSound(answers, s.next, s.workers[w]);
    } else {
      assert WorkerSound(answers, s.next, s.workers[0]);
      forall i | 0 <= i < |answers| ensures answers[i].Ok? && s.results[i] == Some(answers[i].value) {
        assert Placed(answers, s, i);
      }
    }
  }

  // ---------- the decode queue ----------

  datatype Work = Waiting | Running | Resolved | Failed

  predicate Settled(work: Work) {
    work.Resolved? || work.Failed?
  }

  datatype Tail = Open | Closed(rejected: bool)

  /**
   * `works[k]` is the k-th submitted decode; `tails[k]` is the promise it was chained on, and the last tail is the
   * `decoding` variable. `starts` lists decodes in the order they began.
   */
  datatype Queue = Queue(works: seq<Work>, tails: seq<Tail>, starts: seq<nat>)

  datatype Event = Submit | Begin(k: nat) | Finish(k: nat, ok: bool) | Release(k: nat)

  const EMPTY_QUEUE := Queue([], [Closed(false)], [])

  /**
   * `then(work, work)` begins a work once the tail before it closes, whichever way it closes; the tail after it closes
   * once it settles, and both its handlers return normally.
   */
  function Next(q: Queue, e: Event): Option<Queue> {
    match e
    case Submit => Some(Queue(q.works + [Waiting], q.tails + [Open], q.starts))
    case Begin(k) =>
      if k < |q.works| && k < |q.tails| && q.works[k].Waiting? && q.tails[k].Closed?
      then Some(q.(works := q.works[k := Running], starts := q.starts + [k])) else None
    case Finish(k, ok) =>
      if k < |q.works| && q.works[k].Running?
      then Some(q.(works := q.works[k := if ok then Resolved else Failed])) else None
    case Release(k) =>
      if k < |q.works| && k + 1 < |q.tails| && Settled(q.works[k]) && q.tails[k + 1].Open?
      then Some(q.(tails := q.tails[k + 1 := Closed(false)])) else None
  }

  function Replay(events: seq<Event>): Option<Queue> {
    if events == [] then Some(EMPTY_QUEUE)
    else
      var before := Replay(events[..|events| - 1]);
      if before.None? then None else Next(before.value, events[|events| - 1])
  }

  /** Everything before the front is settled, everything after it waits. */
  ghost predicate Orderly(q: Queue) {
    && |q.tails| == |q.works| + 1
    && |q.starts| <= |q.works|
    && q.starts == Upto(|q.starts|)
    && q.tails[0] == Closed(false)
    && forall k :: 0 <= k < |q.works| ==> WorkOrderly(q, k)
  }

  ghost predicate WorkOrderly(q: Queue, k: nat)
    requires k < |q.works| && |q.tails| == |q.works| + 1
  {
    && (q.works[k].Waiting? <==> k >= |q.starts|)
    && (k + 1 < |q.starts| ==> Settled(q.works[k]) && q.tails[k + 1] == Closed(false))
    && (k >= |q.starts| ==> q.tails[k + 1] == Open)
    && (q.tails[k + 1].Closed? ==> Settled(q.works[k]) && q.tails[k + 1] == Closed(false))
  }

  lemma {:induction false} NextKeepsOrder(q: Queue, e: Event)
    requires Orderly(q) && Next(q, e).Some?
    ensures Orderly(Next(q, e).value)
  {
    var after := Next(q, e).value;
    if e.Begin? {
      assert WorkOrderly(q, e.k);
      if e.k > 0 {
        assert WorkOrderly(q, e.k - 1);
      }
      assert e.k == |q.starts|;
      assert q.starts + [e.k] == Upto(|q.starts| + 1);
    }
    forall k | 0 <= k < |after.works| ensures WorkOrderly(after, k) {
      if k < |q.works| {
        assert WorkOrderly(q, k);
      }
    }
  }

  ghost predicate OneRuns(q: Queue) {
    forall j, k :: 0 <= j < |q.works| && 0 <= k < |q.works| && q.works[j].Running? && q.works[k].Running? ==> j == k
  }

  lemma {:induction false} OrderlyRunsOne(q: Queue)
    requires Orderly(q)
    ensures OneRuns(q)
  {
    forall j, k | 0 <= j < |q.works| && 0 <= k < |q.works| && q.works[j].Running? && q.works[k].Running?
      ensures j == k
    {
      assert WorkOrderly(q, j) && WorkOrderly(q, k);
    }
  }

  /** Every history of the queue: decodes begin in submission order, one at a time. */
  lemma {:induction false} EveryHistory(events: seq<Event>)
    requires Replay(events).Some?
    ensures Orderly(Replay(events).value) && OneRuns(Replay(events).value)
  {
    if events != [] {
      EveryHistory(events[..|events| - 1]);
      NextKeepsOrder(Replay(events[..|events| - 1]).value, events[|events| - 1]);
    }
    OrderlyRunsOne(Replay(events).value);
  }

  // ---------- the pool over the queue ----------

  /** What a busy worker waits for, if anything, and how often its item has been decoded. */
  datatype Job = Job(ticket: Option<nat>, tries: nat)

  datatype Fetching<R> = Fetching(pool: State<R>, queue: Queue, jobs: seq<Job>)

  /**
   * A worker claims, submits what it downloaded for decoding, goes back to downloading after its first decode has
   * settled, or is done with its item; the queue moves by itself.
   */
  datatype Move = Claim(w: nat) | Decode(w: nat) | Again(w: nat) | Done(w: nat) | Queued(e: Event)

  function MoveOf<R>(answers: Outcomes<R>, f: Fetching<R>, m: Move): Option<Fetching<R>> {
    match m
    case Queued(e) =>
      var next := Next(f.queue, e);
      if e.Submit? || next.None? then None else Some(f.(queue := next.value))
    case Claim(w) =>
      if Free(f, w) && f.pool.workers[w].Claiming? then Pooled(answers, f, w) else None
    case Decode(w) =>
      if Free(f, w) && f.pool.workers[w].Calling? && f.jobs[w].ticket.None? && f.jobs[w].tries < Fetch.NAR_ATTEMPTS
      then Some(f.(queue := Next(f.queue, Submit).value,
                   jobs := f.jobs[w := Job(Some(|f.queue.works|), f.jobs[w].tries + 1)]))
      else None
    case Again(w) =>
      if Free(f, w) && f.jobs[w].ticket.Some? && f.jobs[w].tries < Fetch.NAR_ATTEMPTS
      then Some(f.(jobs := f.jobs[w := f.jobs[w].(ticket := None)])) else None
    case Done(w) =>
      if Free(f, w) && f.pool.workers[w].Calling? then Pooled(answers, f, w) else None
  }

  /** The pool steps, and the worker has no job. */
  function Pooled<R>(answers: Outcomes<R>, f: Fetching<R>, w: nat): Option<Fetching<R>>
    requires w < |f.jobs|
  {
    var next := Step(answers, f.pool, w);
    if next.None? then None else Some(f.(pool := next.value, jobs := f.jobs[w := Job(None, 0)]))
  }

  /** A worker goes on when it waits for nothing, or when what it waits for has settled. */
  predicate Free<R>(f: Fetching<R>, w: nat) {
    && w < |f.jobs| && w < |f.pool.workers|
    && match f.jobs[w].ticket
       case None => true
       case Some(k) => k < |f.queue.works| && Settled(f.queue.works[k])
  }

  function FetchAll<R>(answers: Outcomes<R>, limit: nat, moves: seq<Move>): Option<Fetching<R>> {
    if moves == [] then
      Some(Fetching(Start(|answers|, limit), EMPTY_QUEUE, seq(Min(limit, |answers|), _ => Job(None, 0))))
    else
      var before := FetchAll(answers, limit, moves[..|moves| - 1]);
      if before.None? then None else MoveOf(answers, before.value, moves[|moves| - 1])
  }

  /** Each unsettled decode is waited for by a worker that is busy with an item. */
  ghost predicate Ticketed<R>(f: Fetching<R>) {
    && |f.jobs| == |f.pool.workers|
    && (forall w :: 0 <= w < |f.jobs| ==> JobSound(f, w))
    && (forall k :: 0 <= k < |f.queue.works| && !Settled(f.queue.works[k]) ==> Awaited(f.jobs, k))
  }

  ghost predicate JobSound<R>(f: Fetching<R>, w: nat)
    requires w < |f.jobs| == |f.pool.workers|
  {
    && f.jobs[w].tries <= Fetch.NAR_ATTEMPTS
    && (f.jobs[w].ticket.Some? ==> f.pool.workers[w].Calling? && f.jobs[w].ticket.value < |f.queue.works|)
    && (!f.pool.workers[w].Calling? ==> f.jobs[w].tries == 0)
  }

  ghost predicate Awaited(jobs: seq<Job>, k: nat) {
    exists w :: 0 <= w < |jobs| && jobs[w].ticket == Some(k)
  }

  lemma {:induction false} MoveKeepsTickets<R>(answers: Outcomes<R>, f: Fetching<R>, m: Move)
    requires Ticketed(f) && MoveOf(answers, f, m).Some?
    ensures Ticketed(MoveOf(answers, f, m).value)
  {
    var after := MoveOf(answers, f, m).value;
    forall w | 0 <= w < |after.jobs| ensures JobSound(after, w) {
      assert JobSound(f, w);
    }
    forall k | 0 <= k < |after.queue.works| && !Settled(after.queue.works[k]) ensures Awaited(after.jobs, k) {
      if k < |f.queue.works| {
        var w :| 0 <= w < |f.jobs| && f.jobs[w].ticket == Some(k);
        assert after.jobs[w].ticket == Some(k);
      } else {
        assert after.jobs[m.w].ticket == Some(k);
      }
    }
  }

  // ---------- how long it can go on ----------

  function JobLeft(worker: Worker, job: Job): nat {
    match worker
    case Claiming => 1
    case Calling(_) =>
      (if job.tries < Fetch.NAR_ATTEMPTS then 5 * (Fetch.NAR_ATTEMPTS - job.tries) else 0) +
      if job.ticket.Some? then 3 else 2
    case _ => 0
  }

  function JobsLeft<R>(f: Fetching<R>): seq<nat> {
    seq(|f.pool.workers|, w requires 0 <= w < |f.pool.workers| =>
      if w < |f.jobs| then JobLeft(f.pool.workers[w], f.jobs[w]) else 0)
  }

  function WorkLeft(work: Work, tail: Tail): nat {
    match work
    case Waiting => 3
    case Running => 2
    case _ => if tail.Open? then 1 else 0
  }

  function WorksLeft(q: Queue): seq<nat> {
    seq(|q.works|, k requires 0 <= k < |q.works| =>
      WorkLeft(q.works[k], if k + 1 < |q.tails| then q.tails[k + 1] else Open))
  }

  /** Moves a run can still take. */
  function Energy<R>(f: Fetching<R>): nat {
    12 * Unclaimed(f.pool) + Sum(JobsLeft(f)) + Sum(WorksLeft(f.queue))
  }

  lemma {:induction false} QueueSpends(q: Queue, e: Event)
    requires Orderly(q) && !e.Submit? && Next(q, e).Some?
    ensures Sum(WorksLeft(Next(q, e).value)) < Sum(WorksLeft(q))
  {
    if e.Begin? || e.Finish? {
      assert WorkOrderly(q, e.k);
    }
    SumUpdate(WorksLeft(q), WorksLeft(Next(q, e).value), e.k);
  }

  lemma {:induction false} SubmitCosts(q: Queue)
    requires Orderly(q)
    ensures Sum(WorksLeft(Next(q, Submit).value)) == Sum(WorksLeft(q)) + 3
  {
    assert WorksLeft(Next(q, Submit).value)[..|q.works|] == WorksLeft(q);
  }

  /** A worker's own move leaves the queue alone, or submits to it. */
  lemma {:induction false} WorkerAsks<R>(answers: Outcomes<R>, f: Fetching<R>, m: Move)
    requires Orderly(f.queue) && !m.Queued? && MoveOf(answers, f, m).Some?
    ensures var after := MoveOf(answers, f, m).value;
      Sum(WorksLeft(after.queue)) == Sum(WorksLeft(f.queue)) + if m.Decode? then 3 else 0
  {
    SubmitCosts(f.queue);
  }

  /** What a worker's own move does to the cost of its job. */
  lemma {:induction false} WorkerSpends<R>(answers: Outcomes<R>, f: Fetching<R>, m: Move)
    requires Ticketed(f) && !m.Queued? && MoveOf(answers, f, m).Some?
    ensures var after := MoveOf(answers, f, m).value;
      Sum(JobsLeft(after)) == Sum(JobsLeft(f)) - JobsLeft(f)[m.w] + JobsLeft(after)[m.w]
  {
    SumUpdate(JobsLeft(f), JobsLeft(MoveOf(answers, f, m).value), m.w);
  }

  function Unclaimed<R>(s: State<R>): nat {
    |s.results| - Min(s.next, |s.results|)
  }

  /** What a worker's own move saves on its job pays for what it asks of the queue and the list. */
  lemma {:induction false} JobPays<R>(answers: Outcomes<R>, f: Fetching<R>, m: Move)
    requires Ticketed(f) && !m.Queued? && MoveOf(answers, f, m).Some?
    ensures var after := MoveOf(answers, f, m).value;
      JobsLeft(after)[m.w] + (if m.Decode? then 3 else 0) + 12 * Unclaimed(after.pool) <
      JobsLeft(f)[m.w] + 12 * Unclaimed(f.pool)
  {
    assert JobSound(f, m.w);
  }

  lemma {:induction false} MoveSpends<R>(answers: Outcomes<R>, f: Fetching<R>, m: Move)
    requires Ticketed(f) && Orderly(f.queue) && MoveOf(answers, f, m).Some?
    ensures Energy(MoveOf(answers, f, m).value) < Energy(f)
  {
    if m.Queued? {
      assert JobsLeft(MoveOf(answers, f, m).value) == JobsLeft(f);
      QueueSpends(f.queue, m.e);
    } else {
      WorkerSpends(answers, f, m);
      JobPays(answers, f, m);
      WorkerAsks(answers, f, m);
    }
  }

  // ---------- every interleaving of downloads, decodes and workers ----------

  lemma {:induction false} MoveKeeps<R>(answers: Outcomes<R>, f: Fetching<R>, m: Move)
    requires Sound(answers, f.pool) && Orderly(f.queue) && MoveOf(answers, f, m).Some?
    ensures var after := MoveOf(answers, f, m).value;
      Sound(answers, after.pool) && Orderly(after.queue) && |after.pool.workers| == |f.pool.workers|
  {
    match m {
      case Queued(e) => NextKeepsOrder(f.queue, e);
      case Decode(w) => NextKeepsOrder(f.queue, Submit);
      case Again(w) =>
      case _ => StepKeepsSound(answers, f.pool, m.w);
    }
  }

  lemma {:induction false} FetchKeeps<R>(answers: Outcomes<R>, limit: nat, moves: seq<Move>)
    requires FetchAll(answers, limit, moves).Some?
    ensures var f := FetchAll(answers, limit, moves).value;
      && Sound(answers, f.pool) && Orderly(f.queue) && Ticketed(f)
      && |f.pool.workers| == Min(limit, |answers|)
      && |moves| + Energy(f) <= 12 * |answers| + Min(limit, |answers|)
  {
    if moves == [] {
      SumOfSame(JobsLeft(FetchAll(answers, limit, moves).value), 1);
    } else {
      FetchKeeps(answers, limit, moves[..|moves| - 1]);
      var before, m := FetchAll(answers, limit, moves[..|moves| - 1]).value, moves[|moves| - 1];
      MoveKeeps(answers, before, m);
      MoveKeepsTickets(answers, before, m);
      MoveSpends(answers, before, m);
    }
  }

  ghost function Unsettled(works: seq<Work>): set<nat> {
    set k: nat | k < |works| && !Settled(works[k])
  }

  function TicketSet(jobs: seq<Job>): (s: set<nat>)
    ensures |s| <= |jobs|
    ensures forall w :: 0 <= w < |jobs| && jobs[w].ticket.Some? ==> jobs[w].ticket.value in s
  {
    if jobs == [] then {}
    else
      var last := jobs[|jobs| - 1].ticket;
      TicketSet(jobs[..|jobs| - 1]) + if last.Some? then {last.value} else {}
  }

  /**
   * However downloads, decodes and workers interleave: one decode runs at a time, in submission order; no more archives
   * than workers wait to be decoded; and there are at most 12 * items + min(limit, items) moves.
   */
  lemma {:induction false} EveryFetch<R>(answers: Outcomes<R>, limit: nat, moves: seq<Move>)
    requires FetchAll(answers, limit, moves).Some?
    ensures var f := FetchAll(answers, limit, moves).value;
      && |moves| <= 12 * |answers| + Min(limit, |answers|)
      && Sound(answers, f.pool) && Orderly(f.queue)
      && |Unsettled(f.queue.works)| <= Min(limit, |answers|)
      && OneRuns(f.queue)
  {
    FetchKeeps(answers, limit, moves);
    var f := FetchAll(answers, limit, moves).value;
    forall k | k in Unsettled(f.queue.works) ensures k in TicketSet(f.jobs) {
      assert Awaited(f.jobs, k);
    }
    SubsetIsSmaller(Unsettled(f.queue.works), TicketSet(f.jobs));
    OrderlyRunsOne(f.queue);
  }

  /** A run nobody can continue. */
  ghost predicate AtRest<R>(answers: Outcomes<R>, f: Fetching<R>) {
    forall m :: MoveOf(answers, f, m) == None
  }

  /** Whatever failed on the way, a run ends only when every worker is through: no decode is left waiting. */
  lemma {:induction false} EveryFetchEnds<R>(answers: Outcomes<R>, limit: nat, moves: seq<Move>)
    requires FetchAll(answers, limit, moves).Some? && AtRest(answers, FetchAll(answers, limit, moves).value)
    ensures var f := FetchAll(answers, limit, moves).value;
      && (forall w :: 0 <= w < |f.pool.workers| ==> Through(f.pool.workers[w]))
      && (forall k :: 0 <= k < |f.queue.works| ==> Settled(f.queue.works[k]))
      && (limit > 0 ==> (Rejected(f.pool) <==> exists i :: 0 <= i < |answers| && answers[i].Err?))
      && |f.pool.results| == |answers|
      && (limit > 0 && !Rejected(f.pool) ==>
          forall i :: 0 <= i < |answers| ==> answers[i].Ok? && f.pool.results[i] == Some(answers[i].value))
  {
    FetchKeeps(answers, limit, moves);
    var f := FetchAll(answers, limit, moves).value;
    forall w | 0 <= w < |f.pool.workers| ensures Through(f.pool.workers[w]) {
      if !Through(f.pool.workers[w]) {
        SomethingHappens(answers, f, w);
      }
    }
    forall k | 0 <= k < |f.queue.works| ensures Settled(f.queue.works[k]) {
      if !Settled(f.queue.works[k]) {
        UnsettledIsAwaited(f, k);
      }
    }
    if limit > 0 && |answers| > 0 {
      EndOfWork(answers, f.pool);
    }
  }

  lemma {:induction false} UnsettledIsAwaited<R>(f: Fetching<R>, k: nat)
    requires Ticketed(f) && k < |f.queue.works| && !Settled(f.queue.works[k])
    ensures exists w :: 0 <= w < |f.pool.workers| && !Through(f.pool.workers[w])
  {
    var w :| 0 <= w < |f.jobs| && f.jobs[w].ticket == Some(k);
    assert JobSound(f, w);
  }

  /** As long as a worker is not through, something can happen. */
  lemma {:induction false} SomethingHappens<R>(answers: Outcomes<R>, f: Fetching<R>, w: nat)
    requires Sound(answers, f.pool) && Orderly(f.queue) && Ticketed(f) && w < |f.pool.workers|
    requires !Through(f.pool.workers[w])
    ensures exists m :: MoveOf(answers, f, m) != None
  {
    var m: Move;
    assert WorkerSound(answers, f.pool.next, f.pool.workers[w]) && JobSound(f, w);
    if f.pool.workers[w].Claiming? {
      m := Claim(w);
    } else if Free(f, w) {
      m := Done(w);
    } else {
      var e := QueueMoves(f.queue, f.jobs[w].ticket.value);
      m := Queued(e);
    }
    assert MoveOf(answers, f, m) != None;
  }

  /** A failed decode does not block the next: while one is unsettled, the queue can move. */
  lemma {:induction false} QueueMoves(q: Queue, k: nat) returns (e: Event)
    requires Orderly(q) && k < |q.works| && !Settled(q.works[k])
    ensures !e.Submit? && Next(q, e).Some?
  {
    assert WorkOrderly(q, k);
    var front := |q.starts|;
    if q.works[k].Running? {
      e := Finish(k, true);
    } else {
      assert WorkOrderly(q, front);
      if front == 0 {
        e := Begin(0);
      } else {
        assert WorkOrderly(q, front - 1);
        e := if q.works[front - 1].Running? then Finish(front - 1, true)
             else if q.tails[front].Open? then Release(front - 1) else Begin(front);
      }
    }
  }
}
