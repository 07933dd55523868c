/**
  A run of the queue, for any number of workers, after which a hook lets a draw take an
  image memory no longer holds: two overlapping copies are queued and run, and the hook's
  range lies over the second alone.
 */
module QueueStale {
  import opened CopyGeometry
  import opened Commands
  import opened PendingCopies
  import opened RenderQueue
  import opened QueueInvariant
  import opened QueueTheorems
  import opened QueueRaces

  function Last(trace: seq<State>): State
    requires trace != []
  {
    trace[|trace| - 1]
  }

  lemma RunMore(trace: seq<State>, n: nat, s: State)
    requires Run(trace, n) && Next(Last(trace), s)
    ensures Run(trace + [s], n) && Last(trace + [s]) == s && (trace + [s])[0] == trace[0]
  {
    hide Next, Init;
    var more := trace + [s];
    forall i | 0 < i < |more|
      ensures Next(more[i - 1], more[i])
    {
      assert more[i - 1] == trace[i - 1];
    }
  }

  /** What no worker step touches. */
  ghost predicate SameStream(s: State, s': State) {
    s' == s.(world := s'.world, images := s'.images, workers := s'.workers)
  }

  lemma WorkerSameStream(s: State, s': State, w: nat)
    requires WorkerStep(s, s', w)
    ensures SameStream(s, s')
  {
    hide IsTask, FenceOn;
  }

  /** From any state the workers can run everything published. */
  lemma {:induction false} AllRun(trace: seq<State>, n: nat) returns (more: seq<State>)
    requires Run(trace, n)
    ensures more != [] && Run(more, n) && more[0] == trace[0] && SameStream(Last(trace), Last(more))
    ensures Finished(Last(more), |Last(more).log| as int - 1)
    decreases Left(Last(trace), |Last(trace).workers|)
  {
    var s := Last(trace);
    RunInv(trace, n, |trace| - 1);
    assert 0 < |s.workers|;
    hide Inv, Left, WorkerStep, Init;
    var w := Furthest(s, |s.workers|);
    if s.workers[w].ran < |s.log| {
      var s' := FurthestBehindRuns(s, w);
      StepsCountDown(s, s', w);
      LeftTotal(s, |s.workers|);
      WorkerSameStream(s, s', w);
      RunMore(trace, n, s');
      more := AllRun(trace + [s'], n);
    } else {
      more := trace;
    }
  }

  /** A copy of one row that stores v at address 32, with a span of 64 bytes. */
  function Stamp(dest: nat, v: int): Copy {
    Copy(false, false, false, 0, 1, dest, 64, 1, map[32 := 0],
         (y, above, at, below) => [], (y, a, above, at, below, was) => v, (y, row) => row)
  }

  ghost predicate Idling(s: State) { s.todo == [] && !s.claimed }

  function StampBody(dest: nat, v: int): Body { CopyOut(Stamp(dest, v), false, true) }

  /** The producer's three steps: a stamp is parsed, claimed and published. */
  ghost function Parsed(s: State, dest: nat, v: int): State {
    s.(todo := [StampBody(dest, v)], ops := s.ops + [OpCopy(Stamp(dest, v), false)])
  }

  ghost function Claimed(s: State, b: Body): State
    requires 0 < |s.workers| && |s.slots| == QUEUE_CAP
  {
    s.(slots := s.slots[SlotOf(|s.log|) := Fenced(s, b)], fenceAfter := 0, nearAfter := 0, claimed := true)
  }

  ghost function Issued(s: State, dest: nat, v: int): State
    requires |s.slots| == QUEUE_CAP && BodyOk(StampBody(dest, v)) && WorldOk(s.now)
  {
    s.(log := s.log + [s.slots[SlotOf(|s.log|)]], hist := s.hist + [s.now], now := RunBody(StampBody(dest, v), s.now),
       images := s.images + [seq(MEM_BYTES, _ => 0)], pending := s.pending + [Pending(dest, 64, |s.log|)],
       lastCopy := |s.log|, todo := [], claimed := false)
  }

  lemma ParsedNext(s: State, dest: nat, v: int)
    requires Idling(s) && 0 < |s.workers| && dest <= 32
    ensures Next(s, Parsed(s, dest, v))
  {
    assert Begin(s, Parsed(s, dest, v), OpCopy(Stamp(dest, v), false), true);
  }

  lemma ClaimedNext(s: State, b: Body)
    requires !s.claimed && 0 < |s.workers| && |s.slots| == QUEUE_CAP && s.todo == [b] && !b.Draw?
    requires s.floor == 0 && |s.log| < 2
    ensures Next(s, Claimed(s, b))
  {
    hide Fenced;
    assert Claim(s, Claimed(s, b), b, 0);
  }

  lemma IssuedNext(s: State, dest: nat, v: int)
    requires s.claimed && 0 < |s.workers| && |s.slots| == QUEUE_CAP && s.todo == [StampBody(dest, v)] && dest <= 32
    requires s.slots[SlotOf(|s.log|)].body == StampBody(dest, v) && WorldOk(s.now) && |s.pending| < 2
    ensures BodyOk(StampBody(dest, v)) && Next(s, Issued(s, dest, v))
  {
    hide RunBody;
    assert Publish(s, Issued(s, dest, v), seq(MEM_BYTES, _ => 0));
  }

  lemma Queued(trace: seq<State>, n: nat, dest: nat, v: int) returns (more: seq<State>)
    requires Run(trace, n) && Idling(Last(trace)) && dest <= 32 && |Last(trace).log| < 2 && |Last(trace).pending| < 2
    requires Last(trace).floor == 0
    ensures more != [] && Run(more, n) && more[0] == trace[0] && Idling(Last(more)) && Last(more).floor == 0
    ensures WorldOk(Last(trace).now) && BodyOk(StampBody(dest, v))
    ensures var s, s' := Last(trace), Last(more);
            && |s'.log| == |s.log| + 1 && s'.log[..|s.log|] == s.log && s'.log[|s.log|].body == StampBody(dest, v)
            && s'.pending == s.pending + [Pending(dest, 64, |s.log|)] && s'.suspect == s.suspect
            && s'.hist == s.hist + [s.now] && s'.now == RunBody(StampBody(dest, v), s.now)
  {
    var s := Last(trace);
    RunInv(trace, n, |trace| - 1);
    assert 0 < |s.workers| && |s.slots| == QUEUE_CAP && WorldOk(s.now);
    hide Inv, Run, Next, RunBody, Fenced, Init, Stamp, WorldOk;
    var b := StampBody(dest, v);
    ParsedNext(s, dest, v);
    var s1 := Parsed(s, dest, v);
    RunMore(trace, n, s1);
    ClaimedNext(s1, b);
    var s2 := Claimed(s1, b);
    RunMore(trace + [s1], n, s2);
    FencedBody(s1, b);
    IssuedNext(s2, dest, v);
    more := trace + [s1] + [s2] + [Issued(s2, dest, v)];
    RunMore(trace + [s1] + [s2], n, Issued(s2, dest, v));
  }

  lemma FencedBody(s: State, b: Body)
    requires 0 < |s.workers|
    ensures Fenced(s, b).body == b
  {
  }

  lemma Alone(start: State, n: nat)
    requires Init(start, n)
    ensures Run([start], n) && Idling(start) && start.floor == 0 && start.log == [] && start.pending == [] && start.suspect == {}
  {
  }

  /** The run. When it ends, address 32 holds 2; the hook then leaves the first copy's image,
      which holds 1 there, as the one a draw of that copy's texture may take. */
  lemma StaleImageReached(start: State, n: nat) returns (trace: seq<State>, s': State)
    requires Init(start, n)
    ensures trace != [] && Run(trace + [s'], n) && trace[0] == start && Hook(Last(trace), s', 64, 4)
    ensures FeedOk(s', Texture(0, 64, [32]), Image(0))
    ensures |s'.images| == 2 && |s'.images[0]| == |s'.world.mem| == |s'.now.mem| == MEM_BYTES
    ensures s'.images[0][32] == 1 && s'.world.mem[32] == s'.now.mem[32] == 2
  {
    hide Run, Next, RunBody, Init, Inv;
    Alone(start, n);
    var one := Queued([start], n, 0, 1);
    var two := Queued(one, n, 32, 2);
    trace := AllRun(two, n);
    RunInv(trace, n, |trace| - 1);
    var s := Last(trace);
    s' := s.(pending := Kept(s.pending, 64, 4), suspect := s.suspect + Uncovered(s.pending, 64, 4));
    TwoStamps(s, s');
    HookNext(s, s');
    RunMore(trace, n, s');
  }

  lemma HookNext(s: State, s': State)
    requires Hook(s, s', 64, 4)
    ensures Next(s, s')
  {
  }

  /** What the two copies leave. */
  lemma TwoStamps(s: State, s': State)
    requires Inv(s) && |s.log| == 2 && Finished(s, 1) && !s.claimed && s.pending == [Pending(0, 64, 0), Pending(32, 64, 1)] && s.suspect == {}
    requires s.log[0].body == StampBody(0, 1) && s.log[1].body == StampBody(32, 2)
    requires s' == s.(pending := Kept(s.pending, 64, 4), suspect := s.suspect + Uncovered(s.pending, 64, 4))
    ensures Hook(s, s', 64, 4) && FeedOk(s', Texture(0, 64, [32]), Image(0))
    ensures |s'.images| == 2 && |s'.images[0]| == |s'.world.mem| == |s'.now.mem| == MEM_BYTES
    ensures s'.images[0][32] == 1 && s'.world.mem[32] == s'.now.mem[32] == 2
  {
    HookLeavesFirst(s, s');
    StampsStored(s);
  }

  lemma HookLeavesFirst(s: State, s': State)
    requires |s.log| == 2 && Finished(s, 1) && !s.claimed && s.pending == [Pending(0, 64, 0), Pending(32, 64, 1)] && s.suspect == {}
    requires s.log[0].body == StampBody(0, 1) && s' == s.(pending := Kept(s.pending, 64, 4), suspect := s.suspect + Uncovered(s.pending, 64, 4))
    ensures Hook(s, s', 64, 4) && FeedOk(s', Texture(0, 64, [32]), Image(0))
  {
    hide Finished;
    var first, second := Pending(0, 64, 0), Pending(32, 64, 1);
    assert [first, second][..1] == [first] && [first][..0] == [];
    assert NewestOverlap([first, second], 64, 4) == 1;
    assert Kept([first], 64, 4) == [first];
    assert Kept([first, second], 64, 4) == [first];
    assert NewestOverlap([first], 0, 64) == 0;
  }

  lemma StampsStored(s: State)
    requires Inv(s) && |s.log| == 2 && Finished(s, 1) && s.pending == [Pending(0, 64, 0), Pending(32, 64, 1)] && s.suspect == {}
    requires s.log[0].body == StampBody(0, 1) && s.log[1].body == StampBody(32, 2)
    ensures |s.images| == 2 && |s.images[0]| == |s.world.mem| == |s.now.mem| == MEM_BYTES
    ensures s.images[0][32] == 1 && s.world.mem[32] == s.now.mem[32] == 2
  {
    hide CountsInv, FencesInv, PlanInv, RowsInv, OpsInv, RunBody;
    assert StoresAt(s, 0, 32) && StoresAt(s, 1, 32);
    assert CommandOk(s, 0) && CommandOk(s, 1);
    BodyBytes(s.log[0].body, s.hist[0], 32);
    BodyBytes(s.log[1].body, s.hist[1], 32);
    assert Post(s, 0).mem[32] == 1 && Post(s, 1).mem[32] == 2;
    assert MemDone(s, 0, 32) && MemDone(s, 1, 32);
    assert ImageRight(s, 0, 32);
    assert Frontier(s, 2, 32);
    assert s.pending[1] in s.pending && NoStore(s, 1, 2, 32);
  }
}
