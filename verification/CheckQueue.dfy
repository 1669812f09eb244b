/** The queue of script checks: one master and any number of workers around one mutex.  Every
    critical section and the execution of every batch is one step. */
module CheckQueues {
  import opened Sequences
  import opened Transactions

  /** Checks are told apart and executed, nothing else. */
  type Check = nat

  /** Where a thread is in Loop(). */
  datatype Phase =
    | Outside
    | Entering                                // called Loop, before its first critical section
    | Waiting                                 // asleep on its condition variable
    | Holding(batch: seq<Check>, fOk: bool)       // took a batch, has not executed it yet
    | Done(batch: seq<Check>, fOk: bool)          // executed its batch, before the next critical section

  /** What the mutex protects. */
  datatype Shared = Shared(
    queue: seq<Check>,
    nIdle: int,
    nTotal: int,
    fAllOk: bool,
    nTodo: int,
    fQuit: bool,
    nBatchSize: nat,
    signalled: bool)    // the master was notified since it went to sleep

  /** What a thread does at the top of the loop: sleep, leave with a result, or take a batch. */
  datatype Outcome = Outcome(shared: Shared, phase: Phase, result: Option<bool>)

  function Max(a: nat, b: nat): nat {
    if a < b then b else a
  }

  function Min(a: nat, b: nat): nat {
    if a < b then a else b
  }

  /** How many checks to take. */
  function BatchSize(q: Shared): (n: nat)
    requires q.queue != [] && q.nTotal >= 0 && q.nIdle >= 0
    ensures 1 <= n <= |q.queue| && (n == 1 || n <= q.nBatchSize)
    ensures n > 1 ==> n * (q.nTotal + q.nIdle + 1) <= |q.queue|
    ensures n < q.nBatchSize ==> (n + 1) * (q.nTotal + q.nIdle + 1) > |q.queue|
  {
    FairShare(|q.queue|, q.nTotal + q.nIdle + 1, q.nBatchSize);
    Max(1, Min(q.nBatchSize, |q.queue| / (q.nTotal + q.nIdle + 1)))
  }

  lemma FairShare(size: nat, threads: nat, limit: nat)
    requires size > 0 && threads > 0
    ensures var n := Max(1, Min(limit, size / threads));
      && 1 <= n <= size && (n == 1 || n <= limit)
      && (n > 1 ==> n * threads <= size)
      && (n < limit ==> (n + 1) * threads > size)
  {
    var share := size / threads;
    ShareIs(size, threads);
    if limit <= share {
      Fewer(limit, share, threads);
    } else if share == 0 {
      Fewer(1, 2, threads);
    }
  }

  lemma ShareIs(size: nat, threads: nat)
    requires threads > 0
    ensures (size / threads) * threads <= size < (size / threads + 1) * threads
    ensures size / threads <= size
  {
    var share, rest := size / threads, size % threads;
    assert size == share * threads + rest;
    Fewer(1, threads, share);
  }

  lemma Fewer(a: nat, b: nat, each: nat)
    requires a <= b
    ensures a * each <= b * each
  {
  }

  /** Account for a finished batch. */
  function Retired(q: Shared, batch: seq<Check>, fOk: bool, fMaster: bool): Shared {
    q.(fAllOk := q.fAllOk && fOk,
       nTodo := q.nTodo - |batch|,
       signalled := q.signalled || (q.nTodo - |batch| == 0 && !fMaster))
  }

  function LoopTop(q: Shared, fMaster: bool): Outcome
    requires q.nTotal >= 0 && q.nIdle >= 0
  {
    if q.queue == [] then
      if (fMaster || q.fQuit) && q.nTodo == 0 then
        Outcome(q.(nTotal := q.nTotal - 1, fAllOk := fMaster || q.fAllOk), Outside, Some(q.fAllOk))
      else
        Outcome(q.(nIdle := q.nIdle + 1, signalled := !fMaster && q.signalled), Waiting, None)
    else
      var n := BatchSize(q);
      Outcome(q.(queue := q.queue[..|q.queue| - n]), Holding(Reversed(q.queue[|q.queue| - n..]), q.fAllOk), None)
  }

  /** Execute a batch, stopping at the first failure. */
  function Execute(batch: seq<Check>, fOk: bool, run: Check -> bool): (r: bool)
    ensures r <==> fOk && forall c | c in batch :: run(c)
  {
    if batch == [] then fOk
    else
      assert forall c :: c in batch <==> c == batch[0] || c in batch[1..];
      Execute(batch[1..], if fOk then run(batch[0]) else fOk, run)
  }

  // ---------------------------------------------------------------- the system

  /** Thread 0 is the master.  `added` holds the checks added since its previous Wait returned, and
      `retired` those of them whose batches were accounted for. */
  datatype State = State(shared: Shared, threads: seq<Phase>, added: seq<Check>, retired: seq<Check>,
                         result: Option<bool>)

  datatype Step =
    | Add(checks: seq<Check>)      // the master adds checks, outside Loop
    | Call(t: nat)             // a thread calls Loop
    | Section(t: nat)          // a critical section from the start of an iteration
    | Wake(t: nat)             // a sleeping thread wakes, for whatever reason
    | Run(t: nat)              // a thread executes its batch

  /** Continue at the top of the loop. */
  function Continue(s: State, q: Shared, t: nat, retired: seq<Check>): State
    requires t < |s.threads| && q.nTotal >= 0 && q.nIdle >= 0
  {
    var o := LoopTop(q, t == 0);
    if t == 0 && o.result.Some? then State(o.shared, s.threads[t := o.phase], [], [], o.result)
    else State(o.shared, s.threads[t := o.phase], s.added, retired, s.result)
  }

  predicate Enabled(s: State, step: Step) {
    match step
    case Add(checks) => |s.threads| > 0 && s.threads[0] == Outside
    case Call(t) => t < |s.threads| && s.threads[t] == Outside
    case Section(t) =>
      && t < |s.threads| && (s.threads[t] == Entering || s.threads[t].Done?)
      && s.shared.nTotal >= 0 && s.shared.nIdle >= 0
    case Wake(t) => t < |s.threads| && s.threads[t] == Waiting && s.shared.nTotal >= 0 && s.shared.nIdle >= 1
    case Run(t) => t < |s.threads| && s.threads[t].Holding?
  }

  function Apply(s: State, step: Step, run: Check -> bool): State
    requires Enabled(s, step)
  {
    var q := s.shared;
    match step
    case Add(checks) =>
      s.(shared := q.(queue := q.queue + checks, nTodo := q.nTodo + |checks|), added := s.added + checks)
    case Call(t) => s.(threads := s.threads[t := Entering])
    case Section(t) =>
      if s.threads[t] == Entering then Continue(s, q.(nTotal := q.nTotal + 1), t, s.retired)
      else
        var p := s.threads[t];
        Continue(s, Retired(q, p.batch, p.fOk, t == 0), t, s.retired + p.batch)
    case Wake(t) => Continue(s, q.(nIdle := q.nIdle - 1), t, s.retired)
    case Run(t) =>
      var p := s.threads[t];
      s.(threads := s.threads[t := Done(p.batch, Execute(p.batch, p.fOk, run))])
  }

  predicate Initial(s: State) {
    && s.shared.queue == [] && s.shared.nIdle == 0 && s.shared.nTotal == 0 && s.shared.fAllOk && s.shared.nTodo == 0
    && !s.shared.signalled
    && |s.threads| > 0 && (forall t | 0 <= t < |s.threads| :: s.threads[t] == Outside)
    && s.added == [] && s.retired == [] && s.result == None
  }

  /** The states after the first `k` steps of a schedule; a step that is not enabled changes nothing. */
  function After(s: State, steps: seq<Step>, k: nat, run: Check -> bool): State
    requires k <= |steps|
    decreases k
  {
    if k == 0 then s
    else
      var before := After(s, steps, k - 1, run);
      if Enabled(before, steps[k - 1]) then Apply(before, steps[k - 1], run) else before
  }

  // ---------------------------------------------------------------- counting

  function IdleOf(p: Phase): nat {
    if p.Waiting? then 1 else 0
  }

  function TotalOf(p: Phase): nat {
    if p.Outside? || p.Entering? then 0 else 1
  }

  function InFlightOf(p: Phase): nat {
    if p.Holding? || p.Done? then |p.batch| else 0
  }

  function CountIdle(threads: seq<Phase>): nat {
    if threads == [] then 0 else IdleOf(threads[0]) + CountIdle(threads[1..])
  }

  function CountTotal(threads: seq<Phase>): nat {
    if threads == [] then 0 else TotalOf(threads[0]) + CountTotal(threads[1..])
  }

  /** Checks in batches that were not accounted for yet. */
  function InFlight(threads: seq<Phase>): nat {
    if threads == [] then 0 else InFlightOf(threads[0]) + InFlight(threads[1..])
  }

  lemma {:induction false} CountsUpdate(threads: seq<Phase>, t: nat, p: Phase)
    requires t < |threads|
    ensures CountIdle(threads[t := p]) == CountIdle(threads) - IdleOf(threads[t]) + IdleOf(p)
    ensures CountTotal(threads[t := p]) == CountTotal(threads) - TotalOf(threads[t]) + TotalOf(p)
    ensures InFlight(threads[t := p]) == InFlight(threads) - InFlightOf(threads[t]) + InFlightOf(p)
    decreases |threads|
  {
    var updated := threads[t := p];
    if t == 0 {
      assert updated[1..] == threads[1..];
    } else {
      assert updated[1..] == threads[1..][t - 1 := p];
      CountsUpdate(threads[1..], t - 1, p);
    }
  }

  lemma {:induction false} CountsBound(threads: seq<Phase>, t: nat)
    requires t < |threads|
    ensures IdleOf(threads[t]) <= CountIdle(threads) && TotalOf(threads[t]) <= CountTotal(threads)
    ensures InFlightOf(threads[t]) <= InFlight(threads)
    decreases |threads|
  {
    if t > 0 {
      CountsBound(threads[1..], t - 1);
    }
  }

  lemma {:induction false} NobodyCounts(threads: seq<Phase>)
    requires forall t | 0 <= t < |threads| :: threads[t] == Outside
    ensures CountIdle(threads) == CountTotal(threads) == InFlight(threads) == 0
    decreases |threads|
  {
    if threads != [] {
      assert forall t | 0 <= t < |threads[1..]| :: threads[1..][t] == threads[t + 1];
      NobodyCounts(threads[1..]);
    }
  }

  lemma {:induction false} SomeoneFlies(threads: seq<Phase>) returns (t: nat)
    requires InFlight(threads) > 0
    ensures t < |threads| && InFlightOf(threads[t]) > 0
    decreases |threads|
  {
    if InFlightOf(threads[0]) > 0 {
      t := 0;
    } else {
      t := SomeoneFlies(threads[1..]);
      t := t + 1;
    }
  }

  lemma {:induction false} NobodyFlies(threads: seq<Phase>)
    requires forall t | 0 <= t < |threads| :: InFlightOf(threads[t]) == 0 && !threads[t].Holding? && !threads[t].Done?
    ensures CountTotal(threads) == CountIdle(threads)
    decreases |threads|
  {
    if threads != [] {
      assert forall t | 0 <= t < |threads[1..]| :: threads[1..][t] == threads[t + 1];
      NobodyFlies(threads[1..]);
    }
  }

  // ---------------------------------------------------------------- invariants

  /** The counters mean what they should. */
  ghost predicate Counted(s: State) {
    && s.shared.nIdle == CountIdle(s.threads)
    && s.shared.nTotal == CountTotal(s.threads)
    && s.shared.nTodo == |s.shared.queue| + InFlight(s.threads)
  }

  predicate HasBatch(p: Phase) {
    p.Holding? || p.Done?
  }

  predicate AllTrue(checks: seq<Check>, run: Check -> bool) {
    forall c | c in checks :: run(c)
  }

  /** Some thread has the check in its batch. */
  predicate InSomeBatch(threads: seq<Phase>, c: Check) {
    exists t :: 0 <= t < |threads| && HasBatch(threads[t]) && c in threads[t].batch
  }

  /** Every added check is queued, in a batch or retired, and nothing else is. */
  ghost predicate Tracked(s: State) {
    && (forall c | c in s.added :: c in s.shared.queue || c in s.retired || InSomeBatch(s.threads, c))
    && (forall c | c in s.shared.queue :: c in s.added)
    && (forall t | 0 <= t < |s.threads| && HasBatch(s.threads[t]) ::
         s.threads[t].batch != [] && forall c | c in s.threads[t].batch :: c in s.added)
  }

  /** A recorded failure is real, and a retired check whose failure is not recorded is true. */
  ghost predicate Honest(s: State, run: Check -> bool) {
    && (s.shared.fAllOk ==> AllTrue(s.retired, run))
    && (!s.shared.fAllOk ==> !AllTrue(s.added, run))
    && (forall t | 0 <= t < |s.threads| && HasBatch(s.threads[t]) && !s.threads[t].fOk :: !AllTrue(s.added, run))
    && (forall t | 0 <= t < |s.threads| && s.threads[t].Done? && s.threads[t].fOk :: AllTrue(s.threads[t].batch, run))
  }

  /** The master only sleeps on an empty queue, and never through the end of the work. */
  ghost predicate Awake(s: State) {
    && |s.threads| > 0
    && (s.threads[0] == Waiting ==> s.shared.queue == [] && (s.shared.nTodo == 0 ==> s.shared.signalled))
  }

  ghost predicate Inv(s: State, run: Check -> bool) {
    Counted(s) && Tracked(s) && Honest(s, run) && Awake(s)
  }

  lemma InitialInv(s: State, run: Check -> bool)
    requires Initial(s)
    ensures Inv(s, run)
  {
    NobodyCounts(s.threads);
  }

  /** Continuing at the top of the loop, in terms of what the rest of the invariant needs: the
      thread itself holds nothing and is counted as running. */
  ghost predicate BeforeTop(s: State, q: Shared, t: nat, retired: seq<Check>, run: Check -> bool) {
    && t < |s.threads|
    && q.nIdle == CountIdle(s.threads) - IdleOf(s.threads[t])
    && q.nTotal == CountTotal(s.threads) - TotalOf(s.threads[t]) + 1
    && q.nTodo == |q.queue| + InFlight(s.threads) - InFlightOf(s.threads[t])
    && q.queue == s.shared.queue
    && (s.threads[0] == Waiting && t != 0 ==> q.queue == [] && (q.nTodo == 0 ==> q.signalled))
    && (forall c | c in s.added :: c in q.queue || c in retired || InSomeBatch(s.threads[t := Outside], c))
    && (q.fAllOk ==> AllTrue(retired, run))
    && (!q.fAllOk ==> !AllTrue(s.added, run))
  }

  lemma ContinueCounts(s: State, q: Shared, t: nat, retired: seq<Check>, run: Check -> bool)
    requires BeforeTop(s, q, t, retired, run)
    ensures q.nTotal >= 0 && q.nIdle >= 0
    ensures Counted(Continue(s, q, t, retired))
  {
    CountsBound(s.threads, t);
    var o := LoopTop(q, t == 0);
    CountsUpdate(s.threads, t, o.phase);
  }

  /** When nothing is queued or in flight, everything added was retired. */
  lemma AllRetired(s: State, q: Shared, t: nat, retired: seq<Check>, run: Check -> bool)
    requires BeforeTop(s, q, t, retired, run) && Tracked(s) && q.queue == [] && q.nTodo == 0
    ensures forall c | c in s.added :: c in retired
    ensures forall u | 0 <= u < |s.threads| && u != t :: !HasBatch(s.threads[u])
  {
    forall u | 0 <= u < |s.threads| && u != t
      ensures !HasBatch(s.threads[u])
    {
      CountsUpdate(s.threads, t, Outside);
      CountsBound(s.threads[t := Outside], u);
    }
  }

  /** Where an added check is after thread `t` got phase `p` and the queue became `queue`. */
  lemma StillTracked(s: State, q: Shared, t: nat, retired: seq<Check>, run: Check -> bool, c: Check, p: Phase,
                     queue: seq<Check>)
    requires BeforeTop(s, q, t, retired, run) && c in s.added
    requires c in q.queue ==> c in queue || (HasBatch(p) && c in p.batch)
    ensures c in queue || c in retired || InSomeBatch(s.threads[t := p], c)
  {
    if c in q.queue {
      if c !in queue {
        assert HasBatch(s.threads[t := p][t]);
      }
    } else if c !in retired {
      var without := s.threads[t := Outside];
      var u :| 0 <= u < |without| && HasBatch(without[u]) && c in without[u].batch;
      assert HasBatch(s.threads[t := p][u]);
    }
  }

  lemma ContinueTracked(s: State, q: Shared, t: nat, retired: seq<Check>, run: Check -> bool)
    requires BeforeTop(s, q, t, retired, run) && Tracked(s) && q.nTotal >= 0 && q.nIdle >= 0
    ensures Tracked(Continue(s, q, t, retired))
  {
    var o := LoopTop(q, t == 0);
    if q.queue == [] && t == 0 && q.nTodo == 0 {
      AllRetired(s, q, t, retired, run);
    } else {
      TakenOrLeft(q);
      forall c | c in s.added
        ensures c in o.shared.queue || c in retired || InSomeBatch(s.threads[t := o.phase], c)
      {
        StillTracked(s, q, t, retired, run, c, o.phase, o.shared.queue);
      }
    }
  }

  lemma TakenOrLeft(q: Shared)
    requires q.nTotal >= 0 && q.nIdle >= 0
    ensures var o := LoopTop(q, true);
      && (forall c :: c in q.queue <==> c in o.shared.queue || (HasBatch(o.phase) && c in o.phase.batch))
      && LoopTop(q, false).shared.queue == o.shared.queue
      && (q.queue != [] ==> LoopTop(q, false) == o)
  {
    if q.queue != [] {
      hide BatchSize, Reversed;
      var n := BatchSize(q);
      ReversedMembers(q.queue[|q.queue| - n..]);
      assert q.queue == q.queue[..|q.queue| - n] + q.queue[|q.queue| - n..];
    }
  }

  lemma ContinueHonest(s: State, q: Shared, t: nat, retired: seq<Check>, run: Check -> bool)
    requires BeforeTop(s, q, t, retired, run) && Tracked(s) && Honest(s, run) && q.nTotal >= 0 && q.nIdle >= 0
    ensures Honest(Continue(s, q, t, retired), run)
  {
    var o := LoopTop(q, t == 0);
    if q.queue == [] && t == 0 && q.nTodo == 0 {
      AllRetired(s, q, t, retired, run);
    }
  }

  lemma ContinueAwake(s: State, q: Shared, t: nat, retired: seq<Check>, run: Check -> bool)
    requires BeforeTop(s, q, t, retired, run) && q.nTotal >= 0 && q.nIdle >= 0
    ensures Awake(Continue(s, q, t, retired))
  {
  }

  lemma ContinueInv(s: State, q: Shared, t: nat, retired: seq<Check>, run: Check -> bool)
    requires BeforeTop(s, q, t, retired, run) && Tracked(s) && Honest(s, run)
    ensures q.nTotal >= 0 && q.nIdle >= 0 && Inv(Continue(s, q, t, retired), run)
  {
    hide Counted, Tracked, Honest, Awake, Continue, AllTrue, InSomeBatch;
    ContinueCounts(s, q, t, retired, run);
    ContinueTracked(s, q, t, retired, run);
    ContinueHonest(s, q, t, retired, run);
    ContinueAwake(s, q, t, retired, run);
    Together(Continue(s, q, t, retired), run);
  }

  lemma Together(s: State, run: Check -> bool)
    requires Counted(s) && Tracked(s) && Honest(s, run) && Awake(s)
    ensures Inv(s, run)
  {
  }

  // ---------------------------------------------------------------- every step keeps the invariant

  lemma AddKeeps(s: State, checks: seq<Check>, run: Check -> bool)
    requires Inv(s, run) && Enabled(s, Add(checks))
    ensures Inv(Apply(s, Add(checks), run), run)
  {
    var s' := Apply(s, Add(checks), run);
    forall c | c in s.added
      ensures c in s'.added
    {
    }
  }

  lemma CallKeeps(s: State, t: nat, run: Check -> bool)
    requires Inv(s, run) && Enabled(s, Call(t))
    ensures Inv(Apply(s, Call(t), run), run)
  {
    CountsUpdate(s.threads, t, Entering);
    var s' := Apply(s, Call(t), run);
    assert forall u | 0 <= u < |s.threads| && HasBatch(s.threads[u]) :: s'.threads[u] == s.threads[u];
  }

  lemma RunKeeps(s: State, t: nat, run: Check -> bool)
    requires Inv(s, run) && Enabled(s, Run(t))
    ensures Inv(Apply(s, Run(t), run), run)
  {
    var p := s.threads[t];
    var p' := Done(p.batch, Execute(p.batch, p.fOk, run));
    CountsUpdate(s.threads, t, p');
    var s' := Apply(s, Run(t), run);
    forall c | c in s.added
      ensures c in s'.shared.queue || c in s'.retired || InSomeBatch(s'.threads, c)
    {
      if u :| 0 <= u < |s.threads| && HasBatch(s.threads[u]) && c in s.threads[u].batch {
        assert HasBatch(s'.threads[u]) && c in s'.threads[u].batch;
      }
    }
  }

  lemma SectionKeeps(s: State, t: nat, run: Check -> bool)
    requires Inv(s, run) && Enabled(s, Section(t))
    ensures Inv(Apply(s, Section(t), run), run)
  {
    hide Tracked, Honest, Awake, BeforeTop, Continue, Retired;
    var q := s.shared;
    CountsBound(s.threads, t);
    if s.threads[t] == Entering {
      EnteringBeforeTop(s, t, run);
      ContinueInv(s, q.(nTotal := q.nTotal + 1), t, s.retired, run);
    } else {
      var p := s.threads[t];
      DoneBeforeTop(s, t, run);
      ContinueInv(s, Retired(q, p.batch, p.fOk, t == 0), t, s.retired + p.batch, run);
    }
  }

  lemma FoundElsewhere(s: State, t: nat)
    requires t < |s.threads|
    ensures forall c | InSomeBatch(s.threads, c) ::
      InSomeBatch(s.threads[t := Outside], c) || (HasBatch(s.threads[t]) && c in s.threads[t].batch)
  {
    forall c | InSomeBatch(s.threads, c)
      ensures InSomeBatch(s.threads[t := Outside], c) || (HasBatch(s.threads[t]) && c in s.threads[t].batch)
    {
      var u :| 0 <= u < |s.threads| && HasBatch(s.threads[u]) && c in s.threads[u].batch;
      if u != t {
        assert HasBatch(s.threads[t := Outside][u]);
      }
    }
  }

  lemma EnteringBeforeTop(s: State, t: nat, run: Check -> bool)
    requires Inv(s, run) && t < |s.threads| && s.threads[t] == Entering
    ensures BeforeTop(s, s.shared.(nTotal := s.shared.nTotal + 1), t, s.retired, run)
  {
    FoundElsewhere(s, t);
  }

  lemma DoneBeforeTop(s: State, t: nat, run: Check -> bool)
    requires Inv(s, run) && t < |s.threads| && s.threads[t].Done?
    ensures BeforeTop(s, Retired(s.shared, s.threads[t].batch, s.threads[t].fOk, t == 0), t,
                      s.retired + s.threads[t].batch, run)
  {
    FoundElsewhere(s, t);
  }

  lemma WakeKeeps(s: State, t: nat, run: Check -> bool)
    requires Inv(s, run) && Enabled(s, Wake(t))
    ensures Inv(Apply(s, Wake(t), run), run)
  {
    var q := s.shared;
    WaitingBeforeTop(s, t, run);
    ContinueInv(s, q.(nIdle := q.nIdle - 1), t, s.retired, run);
  }

  lemma WaitingBeforeTop(s: State, t: nat, run: Check -> bool)
    requires Inv(s, run) && t < |s.threads| && s.threads[t] == Waiting
    ensures BeforeTop(s, s.shared.(nIdle := s.shared.nIdle - 1), t, s.retired, run)
  {
    FoundElsewhere(s, t);
  }

  lemma StepKeepsInv(s: State, step: Step, run: Check -> bool)
    requires Inv(s, run) && Enabled(s, step)
    ensures Inv(Apply(s, step, run), run)
  {
    hide *;
    match step
    case Add(checks) => AddKeeps(s, checks, run);
    case Call(t) => CallKeeps(s, t, run);
    case Section(t) => SectionKeeps(s, t, run);
    case Wake(t) => WakeKeeps(s, t, run);
    case Run(t) => RunKeeps(s, t, run);
  }

  /** Whatever the threads do in whatever order, the invariant holds. */
  lemma {:induction false} AlwaysInv(s: State, steps: seq<Step>, k: nat, run: Check -> bool)
    requires Initial(s) && k <= |steps|
    ensures Inv(After(s, steps, k, run), run)
    decreases k
  {
    hide Inv, Apply, Enabled, Initial;
    if k == 0 {
      InitialInv(s, run);
    } else {
      AlwaysInv(s, steps, k - 1, run);
      var before := After(s, steps, k - 1, run);
      if Enabled(before, steps[k - 1]) {
        StepKeepsInv(before, steps[k - 1], run);
      }
    }
  }

  /** In every reachable state every thread can do its next step: the counters never stand in the way. */
  lemma NothingBlocks(s: State, t: nat, run: Check -> bool)
    requires Inv(s, run) && t < |s.threads|
    ensures match s.threads[t]
      case Outside => Enabled(s, Call(t)) && (t == 0 ==> forall checks :: Enabled(s, Add(checks)))
      case Waiting => Enabled(s, Wake(t))
      case Holding(_, _) => Enabled(s, Run(t))
      case _ => Enabled(s, Section(t))
  {
    CountsBound(s.threads, t);
  }

  // ---------------------------------------------------------------- what it means

  /** The master leaves Loop in this step. */
  predicate MasterReturns(s: State, step: Step, run: Check -> bool) {
    && Enabled(s, step) && |s.threads| > 0 && s.threads[0] != Outside
    && (step == Section(0) || step == Wake(0))
    && Apply(s, step, run).threads[0] == Outside
  }

  /** Wait returns true exactly when every check added since the previous Wait is true, although
      batches taken after a failure are not executed. */
  lemma WaitIsExact(s: State, step: Step, run: Check -> bool)
    requires Inv(s, run) && MasterReturns(s, step, run)
    ensures Apply(s, step, run).result == Some(AllTrue(s.added, run))
    ensures Apply(s, step, run).added == []
  {
    var q := s.shared;
    CountsBound(s.threads, 0);
    if s.threads[0] == Entering {
      EnteringBeforeTop(s, 0, run);
      AllRetired(s, q.(nTotal := q.nTotal + 1), 0, s.retired, run);
    } else if s.threads[0] == Waiting {
      WaitingBeforeTop(s, 0, run);
      AllRetired(s, q.(nIdle := q.nIdle - 1), 0, s.retired, run);
    } else {
      var p := s.threads[0];
      DoneBeforeTop(s, 0, run);
      AllRetired(s, Retired(q, p.batch, p.fOk, true), 0, s.retired + p.batch, run);
    }
  }

  /** Between two uses, when nothing was added yet, the queue is as its controller asserts. */
  lemma ControlAsserts(s: State, run: Check -> bool)
    requires Inv(s, run) && s.added == []
    ensures s.shared.nTotal == s.shared.nIdle && s.shared.nTodo == 0 && s.shared.fAllOk
  {
    forall t | 0 <= t < |s.threads|
      ensures !HasBatch(s.threads[t])
    {
      if HasBatch(s.threads[t]) {
        WorkWasAdded(s, s.threads[t].batch[0]);
      }
    }
    NobodyFlies(s.threads);
    if s.shared.queue != [] {
      WorkWasAdded(s, s.shared.queue[0]);
    }
    if InFlight(s.threads) > 0 {
      var t := SomeoneFlies(s.threads);
    }
  }

  lemma WorkWasAdded(s: State, c: Check)
    requires Tracked(s) && (c in s.shared.queue || InSomeBatch(s.threads, c))
    ensures s.added != []
  {
  }

  // ---------------------------------------------------------------- progress

  function WeightOf(p: Phase): nat {
    match p
    case Outside => 0
    case Waiting => 1
    case Entering => 2
    case Holding(batch, _) => 2 * |batch| + 1
    case Done(batch, _) => |batch| + 1
  }

  function Weight(threads: seq<Phase>): nat {
    if threads == [] then 0 else WeightOf(threads[0]) + Weight(threads[1..])
  }

  lemma {:induction false} WeightUpdate(threads: seq<Phase>, t: nat, p: Phase)
    requires t < |threads|
    ensures Weight(threads[t := p]) == Weight(threads) - WeightOf(threads[t]) + WeightOf(p)
    decreases |threads|
  {
    var updated := threads[t := p];
    if t == 0 {
      assert updated[1..] == threads[1..];
    } else {
      assert updated[1..] == threads[1..][t - 1 := p];
      WeightUpdate(threads[1..], t - 1, p);
    }
  }

  /** The work that remains. */
  function Remaining(s: State): nat {
    3 * |s.shared.queue| + Weight(s.threads)
  }

  /** A step inside Loop that does not just go back to sleep. */
  predicate Advances(s: State, step: Step) {
    && Enabled(s, step)
    && match step
       case Section(t) => true
       case Run(t) => true
       case Wake(t) => s.shared.queue != [] || ((t == 0 || s.shared.fQuit) && s.shared.nTodo == 0)
       case _ => false
  }

  lemma AdvancingWorks(s: State, step: Step, run: Check -> bool)
    requires Inv(s, run) && Advances(s, step)
    ensures Remaining(Apply(s, step, run)) < Remaining(s)
  {
    match step
    case Section(t) => SectionWorks(s, t, run);
    case Wake(t) => WakeWorks(s, t, run);
    case Run(t) => WeightUpdate(s.threads, t, Apply(s, step, run).threads[t]);
    case _ =>
  }

  lemma SectionWorks(s: State, t: nat, run: Check -> bool)
    requires Inv(s, run) && Advances(s, Section(t))
    ensures Remaining(Apply(s, Section(t), run)) < Remaining(s)
  {
    hide Tracked, Honest, Awake, InFlight, CountIdle, CountTotal, Weight;
    CountsBound(s.threads, t);
    if s.threads[t] == Entering {
      TopWorks(s.shared.(nTotal := s.shared.nTotal + 1), t == 0);
      WeightUpdate(s.threads, t, LoopTop(s.shared.(nTotal := s.shared.nTotal + 1), t == 0).phase);
    } else {
      var q := Retired(s.shared, s.threads[t].batch, s.threads[t].fOk, t == 0);
      BatchIsNotEmpty(s, t);
      TopWorks(q, t == 0);
      WeightUpdate(s.threads, t, LoopTop(q, t == 0).phase);
    }
  }

  /** At the top of the loop, what leaves the queue weighs more there than in a batch. */
  lemma TopWorks(q: Shared, fMaster: bool)
    requires q.nTotal >= 0 && q.nIdle >= 0
    ensures var o := LoopTop(q, fMaster);
      3 * |o.shared.queue| + WeightOf(o.phase) <= 3 * |q.queue| + if q.queue == [] then 1 else 0
  {
  }

  lemma WakeWorks(s: State, t: nat, run: Check -> bool)
    requires Inv(s, run) && Advances(s, Wake(t))
    ensures Remaining(Apply(s, Wake(t), run)) < Remaining(s)
  {
    hide Tracked, Honest, Awake;
    WeightUpdate(s.threads, t, LoopTop(s.shared.(nIdle := s.shared.nIdle - 1), t == 0).phase);
  }

  lemma BatchIsNotEmpty(s: State, t: nat)
    requires Tracked(s) && t < |s.threads| && HasBatch(s.threads[t])
    ensures s.threads[t].batch != []
  {
  }

  /** While the master is in Wait, some advancing step is possible without waking a worker: the
      master sleeping through unfinished work means that a worker holds a batch, and the end of
      the work has notified it.  So Wait returns after at most `Remaining` advancing steps. */
  lemma MasterNeverStuck(s: State, run: Check -> bool) returns (step: Step)
    requires Inv(s, run) && s.threads[0] != Outside
    ensures Advances(s, step) && (step.Wake? ==> step == Wake(0) && s.shared.signalled)
    ensures s.threads[0] == Waiting && s.shared.nTodo > 0 ==>
      (step.Section? || step.Run?) && step.t != 0 && HasBatch(s.threads[step.t])
  {
    CountsBound(s.threads, 0);
    match s.threads[0]
    case Entering => step := Section(0);
    case Done(_, _) => step := Section(0);
    case Holding(_, _) => step := Run(0);
    case Waiting =>
      if s.shared.nTodo == 0 {
        step := Wake(0);
      } else {
        var t := SomeoneFlies(s.threads);
        step := if s.threads[t].Holding? then Run(t) else Section(t);
      }
  }

  lemma {:induction false} AfterFirst(s: State, step: Step, steps: seq<Step>, k: nat, run: Check -> bool)
    requires k <= |steps| && Enabled(s, step)
    ensures After(s, [step] + steps, k + 1, run) == After(Apply(s, step, run), steps, k, run)
    decreases k
  {
    hide Apply, Enabled;
    if k > 0 {
      AfterFirst(s, step, steps, k - 1, run);
      assert ([step] + steps)[k] == steps[k - 1];
    } else {
      assert After(s, [step] + steps, 0, run) == s;
    }
  }

  /** Wait always can be brought to its end: from any state with the master in Loop there is a
      schedule of at most `Remaining` advancing steps, none of them waking a worker, after which
      the master has returned. */
  lemma {:induction false} WaitCanFinish(s: State, run: Check -> bool) returns (steps: seq<Step>)
    requires Inv(s, run) && s.threads[0] != Outside
    ensures |steps| <= Remaining(s)
    ensures forall i | 0 <= i < |steps| ::
      (steps[i].Wake? ==> steps[i].t == 0) && Advances(After(s, steps, i, run), steps[i])
    ensures |After(s, steps, |steps|, run).threads| > 0 && After(s, steps, |steps|, run).threads[0] == Outside
    decreases Remaining(s)
  {
    hide Inv, Apply, After, LoopTop;
    var step := MasterNeverStuck(s, run);
    var next := Apply(s, step, run);
    StepKeepsInv(s, step, run);
    AdvancingWorks(s, step, run);
    SomeMaster(next, run);
    var rest := [];
    if next.threads[0] != Outside {
      rest := WaitCanFinish(next, run);
    }
    steps := [step] + rest;
    AfterNone(s, steps, run);
    AfterNone(next, rest, run);
    AfterFirst(s, step, rest, |rest|, run);
    forall i | 0 <= i < |steps|
      ensures (steps[i].Wake? ==> steps[i].t == 0) && Advances(After(s, steps, i, run), steps[i])
    {
      if i > 0 {
        AfterFirst(s, step, rest, i - 1, run);
        assert steps[i] == rest[i - 1];
      }
    }
  }

  lemma AfterNone(s: State, steps: seq<Step>, run: Check -> bool)
    ensures After(s, steps, 0, run) == s
  {
  }

  lemma SomeMaster(s: State, run: Check -> bool)
    requires Inv(s, run)
    ensures |s.threads| > 0
  {
  }

  // ---------------------------------------------------------------- the code between the locks

  /** The queue object.  Its methods are the stretches of Loop and Add that run under the mutex. */
  class CheckQueue {
    var queue: seq<Check>
    var nIdle: int
    var nTotal: int
    var fAllOk: bool
    var nTodo: int
    const fQuit: bool
    const nBatchSize: nat
    ghost var signalled: bool

    ghost function Contents(): Shared
      reads this
    {
      Shared(queue, nIdle, nTotal, fAllOk, nTodo, fQuit, nBatchSize, signalled)
    }

    constructor (nBatchSize: nat)
      ensures Contents() == Shared([], 0, 0, true, 0, false, nBatchSize, false)
    {
      queue, nIdle, nTotal, fAllOk, nTodo := [], 0, 0, true, 0;
      fQuit := false;
      this.nBatchSize := nBatchSize;
      signalled := false;
    }

    method Add(vChecks: seq<Check>)
      modifies this
      ensures Contents() == old(Contents()).(queue := old(queue) + vChecks, nTodo := old(nTodo) + |vChecks|)
    {
      for i := 0 to |vChecks|
        invariant Contents() == old(Contents()).(queue := old(queue) + vChecks[..i])
      {
        queue := queue + [vChecks[i]];
        assert vChecks[..i + 1] == vChecks[..i] + [vChecks[i]];
      }
      assert vChecks[..|vChecks|] == vChecks;
      nTodo := nTodo + |vChecks|;
    }

    /** From the top of the loop to its end, to sleep, or to a batch. */
    method Top(fMaster: bool) returns (phase: Phase, result: Option<bool>)
      requires nTotal >= 0 && nIdle >= 0
      modifies this
      ensures Outcome(Contents(), phase, result) == LoopTop(old(Contents()), fMaster)
    {
      if queue == [] {
        if (fMaster || fQuit) && nTodo == 0 {
          nTotal := nTotal - 1;
          result := Some(fAllOk);
          if fMaster {
            fAllOk := true;
          }
          return Outside, result;
        }
        nIdle := nIdle + 1;
        if fMaster {
          signalled := false;
        }
        return Waiting, None;
      }
      var nNow := BatchSize(Shared(queue, nIdle, nTotal, fAllOk, nTodo, fQuit, nBatchSize, false));
      var vChecks := TakeLast(nNow);
      phase := Holding(vChecks, fAllOk);
      result := None;
    }

    /** Move the last checks of the queue to a batch, last one first. */
    method TakeLast(nNow: nat) returns (vChecks: seq<Check>)
      requires nNow <= |queue|
      modifies this
      ensures Contents() == old(Contents()).(queue := old(queue)[..|old(queue)| - nNow])
      ensures vChecks == Reversed(old(queue)[|old(queue)| - nNow..])
    {
      vChecks := [];
      for i := 0 to nNow
        invariant Contents() == old(Contents()).(queue := old(queue)[..|old(queue)| - i])
        invariant vChecks == Reversed(old(queue)[|old(queue)| - i..])
      {
        ReversedGrows(old(queue), |queue| - 1);
        vChecks := vChecks + [queue[|queue| - 1]];
        queue := queue[..|queue| - 1];
      }
    }

    /** The first critical section of a call. */
    method Register(fMaster: bool) returns (phase: Phase, result: Option<bool>)
      requires nTotal >= 0 && nIdle >= 0
      modifies this
      ensures Outcome(Contents(), phase, result) == LoopTop(old(Contents().(nTotal := nTotal + 1)), fMaster)
    {
      nTotal := nTotal + 1;
      phase, result := Top(fMaster);
    }

    /** A critical section after a batch. */
    method Account(batch: seq<Check>, fOk: bool, fMaster: bool) returns (phase: Phase, result: Option<bool>)
      requires nTotal >= 0 && nIdle >= 0
      modifies this
      ensures Outcome(Contents(), phase, result) == LoopTop(Retired(old(Contents()), batch, fOk, fMaster), fMaster)
    {
      fAllOk := fAllOk && fOk;
      nTodo := nTodo - |batch|;
      if nTodo == 0 && !fMaster {
        signalled := true;
      }
      phase, result := Top(fMaster);
    }

    /** After sleeping. */
    method Resume(fMaster: bool) returns (phase: Phase, result: Option<bool>)
      requires nTotal >= 0 && nIdle >= 1
      modifies this
      ensures Outcome(Contents(), phase, result) == LoopTop(old(Contents().(nIdle := nIdle - 1)), fMaster)
    {
      nIdle := nIdle - 1;
      phase, result := Top(fMaster);
    }
  }

  lemma ReversedGrows(s: seq<Check>, k: nat)
    requires k < |s|
    ensures Reversed(s[k..]) == Reversed(s[k + 1..]) + [s[k]]
  {
  }

  /** Work without the lock: execute the batch until the first failure. */
  method ExecuteBatch(vChecks: seq<Check>, fOkIn: bool, run: Check -> bool) returns (fOk: bool)
    ensures fOk == Execute(vChecks, fOkIn, run)
  {
    fOk := fOkIn;
    for i := 0 to |vChecks|
      invariant Execute(vChecks[i..], fOk, run) == Execute(vChecks, fOkIn, run)
    {
      if fOk {
        fOk := run(vChecks[i]);
      }
    }
  }
}
