/**
  The queue's theorems, over every run: any number of workers, any interleaving the
  fences allow, any stream of triangle-class draws, copies, clears and guest writes.
 */
module QueueTheorems {
  import opened CopyGeometry
  import opened Commands
  import opened PendingCopies
  import opened RenderQueue
  import opened QueueInvariant
  import opened QueueWorkers
  import opened QueueReads
  import opened QueueRows
  import opened QueueProducer
  import opened QueuePublish

  ghost predicate Run(trace: seq<State>, n: nat) {
    && trace != [] && Init(trace[0], n)
    && forall i | 0 < i < |trace| :: Next(trace[i - 1], trace[i])
  }

  lemma InitHolds(s: State, n: nat)
    requires Init(s, n)
    ensures Inv(s)
  {
    assert Base(s);
    assert forall y | 0 <= y < EFB_ROWS :: y % n < n;
  }

  lemma WorkerKeeps(s: State, s': State, w: nat)
    requires Inv(s) && WorkerStep(s, s', w)
    ensures Inv(s') && N(s') == N(s) && s'.start == s.start
  {
    hide Inv, Base;
    if Fetch(s, s', w) {
      FetchKeeps(s, s', w);
    } else if CheckFence(s, s', w) {
      CheckFenceKeeps(s, s', w);
    } else if Enter(s, s', w) {
      EnterKeeps(s, s', w);
    } else if Finish(s, s', w) {
      FinishKeeps(s, s', w);
    } else {
      var t :| RunRow(s, s', w, t);
      RunRowKeeps(s, s', w, t);
    }
  }

  lemma ProducerKeeps(s: State, s': State)
    requires Inv(s) && ProducerStep(s, s')
    ensures Inv(s') && N(s') == N(s) && s'.start == s.start
  {
    hide Inv, RunBody, Resolves, Fenced, Translate, TakesNoSuspect;
    if op, image :| Begin(s, s', op, image) {
      BeginKeeps(s, s', op, image);
    } else if a, v :| Poke(s, s', a, v) {
      PokeKeeps(s, s', a, v);
    } else if b, floor :| Claim(s, s', b, floor) && TakesNoSuspect(s, b) {
      ClaimKeeps(s, s', b, floor);
    } else if image :| Publish(s, s', image) {
      PublishKeeps(s, s', image);
    } else if Drain(s, s') {
      DrainKeeps(s, s');
    } else if Token(s, s') {
      TokenKeeps(s, s');
    } else {
      var lo, n :| Hook(s, s', lo, n);
      HookKeeps(s, s', lo, n);
    }
  }

  lemma NextKeeps(s: State, s': State)
    requires Inv(s) && Next(s, s')
    ensures Inv(s') && N(s') == N(s) && s'.start == s.start
  {
    hide Inv;
    if ProducerStep(s, s') {
      ProducerKeeps(s, s');
    } else {
      var w :| WorkerStep(s, s', w);
      WorkerKeeps(s, s', w);
    }
  }

  lemma {:induction false} RunInv(trace: seq<State>, n: nat, i: nat)
    requires Run(trace, n) && i < |trace|
    ensures Inv(trace[i]) && N(trace[i]) == n && trace[i].start == trace[0].start
  {
    if i == 0 {
      InitHolds(trace[0], n);
    } else {
      RunInv(trace, n, i - 1);
      hide Inv, Init;
      NextKeeps(trace[i - 1], trace[i]);
    }
  }

  // ---- refinement --------------------------------------------------------------------------------

  /** Nothing is queued, running or half built: what a drain waits for. */
  ghost predicate Drained(s: State) {
    !s.claimed && s.todo == [] && Finished(s, |s.log| as int - 1)
  }

  lemma AllRan(s: State)
    requires Base(s) && CountsInv(s) && Finished(s, |s.log| as int - 1)
    ensures forall w | 0 <= w < |s.workers| :: s.workers[w] == Worker(|s.log|, Idle)
  {
    forall w | 0 <= w < |s.workers| ensures s.workers[w] == Worker(|s.log|, Idle) { WorkerFact(s, w); }
  }

  lemma DrainedWorld(s: State)
    requires Inv(s) && Drained(s)
    ensures s.world == s.now
  {
    hide FencesInv, PlanInv, ListInv, ChainInv, OpsInv, RunBody;
    AllRan(s);
    forall y | 0 <= y < EFB_ROWS
      ensures s.world.efb[y] == s.now.efb[y] && s.world.screen[y] == s.now.screen[y]
    {
      RowFact(s, y);
    }
    hide CountsInv, RowsInv;
    forall a: nat | a < MEM_BYTES
      ensures s.world.mem[a] == s.now.mem[a]
    {
      forall c | 0 <= c < |s.log| && StoresAt(s, c, a) ensures MemDone(s, c, a) { assert CommandOk(s, c); }
      assert Frontier(s, |s.log|, a);
    }
  }

  /** The refinement: at a drain the frame buffer, the screen and guest memory are those of
      running the stream's operations one at a time, for every worker count and interleaving. */
  lemma QueueRefinesSequential(trace: seq<State>, n: nat, i: nat)
    requires Run(trace, n) && i < |trace| && Drained(trace[i])
    ensures WorldOk(trace[0].start) && OpsOk(trace[i].ops)
    ensures trace[i].world == RunOps(trace[i].ops, trace[0].world)
  {
    RunInv(trace, n, i);
    DrainedWorld(trace[i]);
    hide CountsInv, FencesInv, PlanInv, MemInv, ChainInv, ListInv, RowsInv, RunBody, RunOps;
  }

  /** So the picture does not depend on the number of workers. */
  lemma WorkerCountDoesNotShow(trace: seq<State>, n: nat, i: nat, trace': seq<State>, n': nat, i': nat)
    requires Run(trace, n) && i < |trace| && Drained(trace[i])
    requires Run(trace', n') && i' < |trace'| && Drained(trace'[i'])
    requires trace[0].world == trace'[0].world && trace[i].ops == trace'[i'].ops
    ensures trace[i].world == trace'[i'].world
  {
    QueueRefinesSequential(trace, n, i);
    QueueRefinesSequential(trace', n', i');
  }

  // ---- slots -----------------------------------------------------------------------------------------

  /** The command worker w asks for is in its slot, under its own number. */
  ghost predicate FindsItsCommand(s: State, w: nat) {
    && w < |s.workers| && s.workers[w].ran < |s.log| && |s.slots| == QUEUE_CAP
    && s.slots[SlotOf(s.workers[w].ran)] == s.log[s.workers[w].ran]
    && s.slots[SlotOf(s.workers[w].ran)].num == s.workers[w].ran
  }

  /** The sequence-mismatch branch is never taken. */
  lemma WorkerFindsItsCommand(trace: seq<State>, n: nat, i: nat, w: nat)
    requires Run(trace, n) && i < |trace| && w < |trace[i].workers| && trace[i].workers[w].ran < |trace[i].log|
    ensures FindsItsCommand(trace[i], w)
  {
    RunInv(trace, n, i);
    SlotFound(trace[i], w);
  }

  /** Though it checks only a stale lower bound, the producer never builds over a slot whose
      command some worker has yet to finish. */
  lemma SlotFreeWhenClaimed(trace: seq<State>, n: nat, i: nat, b: Body, floor: nat)
    requires Run(trace, n) && i + 1 < |trace| && Claim(trace[i], trace[i + 1], b, floor)
    ensures var s := trace[i];
            forall k: nat | k < |s.log| && SlotOf(k) == SlotOf(|s.log|) :: Finished(s, k)
  {
    RunInv(trace, n, i);
    var s := trace[i];
    hide FencesInv, PlanInv, MemInv, ChainInv, ListInv, RowsInv, OpsInv, Resolves, Fenced;
    FloorFact(s);
    forall k: nat | k < |s.log| && SlotOf(k) == SlotOf(|s.log|)
      ensures Finished(s, k)
    {
      if |s.log| < k + QUEUE_CAP {
        SlotsApart(k, |s.log|);
      }
    }
  }

  // ---- no deadlock -------------------------------------------------------------------------------------

  ghost predicate Unfinished(s: State) {
    exists w: nat :: w < |s.workers| && s.workers[w].ran < |s.log|
  }

  lemma {:induction false} Furthest(s: State, m: nat) returns (w: nat)
    requires 0 < m <= |s.workers|
    ensures w < m && forall u | 0 <= u < m :: s.workers[w].ran <= s.workers[u].ran
  {
    if m == 1 {
      w := 0;
    } else {
      w := Furthest(s, m - 1);
      if s.workers[m - 1].ran < s.workers[w].ran {
        w := m - 1;
      }
    }
  }

  /** The worker furthest behind can always take its next step. */
  lemma FurthestBehindRuns(s: State, w: nat) returns (s': State)
    requires Inv(s) && w < |s.workers| && s.workers[w].ran < |s.log|
    requires forall u | 0 <= u < |s.workers| :: s.workers[w].ran <= s.workers[u].ran
    ensures WorkerStep(s, s', w)
  {
    hide FencesInv, PlanInv, MemInv, ChainInv, ListInv, RowsInv, OpsInv, RunTask;
    SlotFound(s, w);
    WorkerFact(s, w);
    hide CountsInv;
    var v := s.workers[w];
    var d := s.log[v.ran];
    assert CommandOk(s, v.ran);
    match v.phase
    case Idle =>
      s' := SetWorker(s, w, v.(phase := Fencing(0)));
      assert Fetch(s, s', w);
    case Fencing(j) =>
      if j == |s.workers| {
        s' := SetWorker(s, w, v.(phase := Running({})));
        assert Enter(s, s', w);
      } else {
        s' := SetWorker(s, w, v.(phase := Fencing(j + 1)));
        assert CheckFence(s, s', w);
      }
    case Running(done) =>
      if t :| IsTask(N(s), w, d.body, t) && t !in done && t.Out? {
        s' := SetWorker(RunTask(s, v.ran, d.body, t), w, v.(phase := Running(done + {t})));
        assert RunRow(s, s', w, t);
      } else if t :| IsTask(N(s), w, d.body, t) && t !in done {
        s' := SetWorker(RunTask(s, v.ran, d.body, t), w, v.(phase := Running(done + {t})));
        assert RunRow(s, s', w, t);
      } else {
        s' := SetWorker(s, w, Worker(v.ran + 1, Idle));
        assert Finish(s, s', w);
      }
  }

  lemma NoDeadlock(trace: seq<State>, n: nat, i: nat) returns (w: nat, s': State)
    requires Run(trace, n) && i < |trace| && Unfinished(trace[i])
    ensures w < n && WorkerStep(trace[i], s', w) && Next(trace[i], s')
  {
    RunInv(trace, n, i);
    w := Furthest(trace[i], n);
    s' := FurthestBehindRuns(trace[i], w);
  }

  // ---- every wait ends --------------------------------------------------------------------------------------

  /** Every row any command can have. */
  ghost function AllTasks(): set<Task> {
    (set y: nat | y < 1024 :: Own(y)) + (set y: nat | y < 1024 :: Out(y))
  }

  /** More than the steps a worker takes over one command. */
  ghost function PerCommand(n: nat): nat { n + |AllTasks()| + 3 }

  ghost function StepsTaken(s: State, v: Worker): nat {
    match v.phase
    case Idle => 0
    case Fencing(j) => 1 + j
    case Running(done) => 2 + |s.workers| + |done|
  }

  /** What is left for one worker: commands published but not run, less the steps into the next. */
  ghost function LeftFor(s: State, w: nat): int
    requires w < |s.workers|
  {
    Lots(|s.log| - s.workers[w].ran, PerCommand(|s.workers|)) - StepsTaken(s, s.workers[w])
  }

  ghost function Lots(a: int, p: int): int { a * p }

  lemma OneLess(a: int, p: nat, taken: nat)
    requires taken < p
    ensures Lots(a - 1, p) < Lots(a, p) - taken
  {
    assert (a - 1) * p == a * p - p;
  }

  ghost function Left(s: State, m: nat): int
    requires m <= |s.workers|
  {
    if m == 0 then 0 else Left(s, m - 1) + LeftFor(s, m - 1)
  }

  lemma DoneBound(s: State, w: nat)
    requires Base(s) && CountsInv(s) && w < |s.workers| && s.workers[w].phase.Running?
    ensures |s.workers[w].phase.done| <= |AllTasks()|
  {
    WorkerFact(s, w);
    assert CommandOk(s, s.workers[w].ran);
    var done := s.workers[w].phase.done;
    forall t | t in done
      ensures t in AllTasks()
    {
    }
    SubsetSize(done, AllTasks());
  }

  lemma {:induction false} SubsetSize<T>(a: set<T>, b: set<T>)
    requires a <= b
    ensures |a| <= |b|
    decreases a
  {
    if a != {} {
      var x :| x in a;
      SubsetSize(a - {x}, b - {x});
    }
  }

  lemma LeftNotNegative(s: State, w: nat)
    requires Base(s) && CountsInv(s) && w < |s.workers|
    ensures 0 <= LeftFor(s, w)
  {
    WorkerFact(s, w);
    if s.workers[w].phase.Running? {
      DoneBound(s, w);
    }
    if s.workers[w].ran < |s.log| {
      Product(|s.log| - s.workers[w].ran, PerCommand(N(s)));
    }
  }

  lemma Product(a: nat, b: nat)
    requires 0 < a
    ensures b <= Lots(a, b)
  {
  }

  lemma {:induction false} LeftSum(s: State, s': State, m: nat, w: nat)
    requires m <= |s.workers| == |s'.workers| && w < |s.workers|
    requires forall u: nat | u < |s.workers| && u != w :: LeftFor(s', u) == LeftFor(s, u)
    requires LeftFor(s', w) < LeftFor(s, w)
    ensures if w < m then Left(s', m) < Left(s, m) else Left(s', m) == Left(s, m)
  {
    if 0 < m {
      LeftSum(s, s', m - 1, w);
    }
  }

  lemma {:induction false} LeftTotal(s: State, m: nat)
    requires Base(s) && CountsInv(s) && m <= |s.workers|
    ensures 0 <= Left(s, m)
  {
    if 0 < m {
      LeftTotal(s, m - 1);
      LeftNotNegative(s, m - 1);
    }
  }

  /** A worker step: one more step into the same command, or on to the next. */
  lemma StepTaken(s: State, s': State, w: nat)
    requires Base(s) && CountsInv(s) && WorkerStep(s, s', w)
    ensures w < |s.workers| && s'.log == s.log && |s'.workers| == |s.workers|
    ensures forall u | 0 <= u < |s.workers| && u != w :: s'.workers[u] == s.workers[u]
    ensures var v, v' := s.workers[w], s'.workers[w];
            || (v'.ran == v.ran && StepsTaken(s', v') == StepsTaken(s, v) + 1)
            || v' == Worker(v.ran + 1, Idle)
  {
    hide CountsInv, Base, IsTask, AllTasks;
  }

  lemma StepLess(s: State, s': State, w: nat)
    requires Base(s) && CountsInv(s) && w < |s.workers| == |s'.workers| && s'.log == s.log
    requires var v, v' := s.workers[w], s'.workers[w];
             || (v'.ran == v.ran && StepsTaken(s', v') == StepsTaken(s, v) + 1)
             || v' == Worker(v.ran + 1, Idle)
    ensures LeftFor(s', w) < LeftFor(s, w)
  {
    WorkerFact(s, w);
    if s.workers[w].phase.Running? {
      DoneBound(s, w);
    }
    hide CountsInv, Base, AllTasks, Lots;
    OneLess(|s.log| - s.workers[w].ran, PerCommand(N(s)), StepsTaken(s, s.workers[w]));
  }

  /** Each worker step leaves strictly less to do. */
  lemma StepsCountDown(s: State, s': State, w: nat)
    requires Inv(s) && WorkerStep(s, s', w)
    ensures |s'.workers| == |s.workers| && s'.log == s.log
    ensures Left(s', |s.workers|) < Left(s, |s.workers|)
  {
    StepTaken(s, s', w);
    hide CountsInv, FencesInv, PlanInv, MemInv, ChainInv, ListInv, RowsInv, OpsInv, AllTasks, WorkerStep, Lots, Base;
    StepLess(s, s', w);
    hide LeftFor, StepsTaken;
    forall u: nat | u < |s.workers| && u != w
      ensures LeftFor(s', u) == LeftFor(s, u)
    {
      SameLeft(s, s', u);
    }
    LeftSum(s, s', |s.workers|, w);
  }

  lemma SameLeft(s: State, s': State, u: nat)
    requires u < |s.workers| == |s'.workers| && s'.log == s.log && s'.workers[u] == s.workers[u]
    ensures LeftFor(s', u) == LeftFor(s, u)
  {
  }

  ghost predicate WorkersMove(s: State, s': State) { exists w :: WorkerStep(s, s', w) }

  /** So however the workers are scheduled, a producer that waits waits for at most
      Left(s) of their steps: by then every worker has run everything published. */
  lemma {:induction false} WaitsEnd(trace: seq<State>)
    requires trace != [] && Inv(trace[0])
    requires forall i | 0 < i < |trace| :: WorkersMove(trace[i - 1], trace[i])
    ensures |trace| - 1 <= Left(trace[0], N(trace[0]))
  {
    var s := trace[0];
    if 1 < |trace| {
      assert WorkersMove(trace[1 - 1], trace[1]);
      var w :| WorkerStep(s, trace[1], w);
      StepsCountDown(s, trace[1], w);
      hide Inv, Base, WorkerStep, Left;
      WorkerKeeps(s, trace[1], w);
      forall i | 0 < i < |trace[1..]|
        ensures WorkersMove(trace[1..][i - 1], trace[1..][i])
      {
        assert trace[1..][i - 1] == trace[i + 1 - 1] && trace[1..][i] == trace[i + 1];
      }
      WaitsEnd(trace[1..]);
    } else {
      LeftTotal(s, N(s));
    }
  }
}
