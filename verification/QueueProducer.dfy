/**
  Every producer step keeps the queue's invariant.
 */
module QueueProducer {
  import opened CopyGeometry
  import opened Commands
  import opened PendingCopies
  import opened RenderQueue
  import opened QueueInvariant
  import opened QueueWorkers
  import opened QueueReads
  import opened QueueRows

  // ---- steps that only change the producer's own lists --------------------------------------------

  /** Begin, a drain, a token and a hook: the plan, the list of copies and the floor. */
  ghost predicate Light(s: State, s': State) {
    && !s.claimed
    && s' == s.(todo := s'.todo, ops := s'.ops, pending := s'.pending, floor := s'.floor, suspect := s'.suspect)
    && (s'.pending == [] || s.suspect <= s'.suspect)
    && (forall p | p in s'.pending :: p in s.pending)
    && (forall w | 0 <= w < |s.workers| :: s'.floor <= s.workers[w].ran) && s.floor <= s'.floor
  }

  lemma LightBase(s: State, s': State)
    requires Base(s) && Light(s, s')
    ensures Base(s')
    ensures forall k | 0 <= k <= |s.log| :: At(s', k) == At(s, k)
    ensures forall k | 0 <= k < |s.log| :: Post(s', k) == Post(s, k)
  {
    forall k | 0 <= k < |s.log| ensures CommandOk(s', k) && CommandOk(s, k) { assert CommandOk(s, k); }
    hide RunBody;
  }

  lemma LightCounts(s: State, s': State)
    requires Base(s) && Base(s') && Light(s, s') && CountsInv(s)
    ensures CountsInv(s')
  {
    forall w | 0 <= w < |s'.workers| ensures WorkerOk(s', w) { assert WorkerOk(s, w); }
    forall k | 0 <= k < |s.log| ensures Held(s', k) { assert Held(s, k); }
  }

  lemma LightFences(s: State, s': State)
    requires Base(s) && Base(s') && Light(s, s') && FencesInv(s)
    ensures FencesInv(s')
  {
    forall v: nat, k: nat | Started(s', v, k) ensures Started(s, v, k) {}
  }

  lemma LightPlan(s: State, s': State)
    requires Base(s) && Base(s') && Light(s, s') && PlanInv(s)
    ensures PlanInv(s')
  {
    LightBase(s, s');
    hide RunBody, FencesEnough;
    forall c: nat | Finished(s, c) ensures Finished(s', c) {}
    forall k | 0 <= k < |s.log|
      ensures FencesEnough(s', k, s'.log[k])
    {
      EnoughCarries(s, s', k, s.log[k]);
    }
  }

  lemma LightMemory(s: State, s': State)
    requires Base(s) && Base(s') && Light(s, s') && MemInv(s) && ChainInv(s)
    ensures MemInv(s') && ChainInv(s')
  {
    LightBase(s, s');
    assert forall c: nat, a: nat | StoresAt(s, c, a) :: MemDone(s', c, a) == MemDone(s, c, a);
    SameMemory(s, s');
    forall c: nat, j: nat, a: nat | NoStore(s', c, j, a) ensures NoStore(s, c, j, a) {
      forall d | c < d < j ensures !StoresAt(s, d, a) { assert !StoresAt(s', d, a); }
    }
    forall c: nat, a: nat | StoresAt(s', c, a) ensures StoresAt(s, c, a) {}
    hide MemDone, NoStore, RunBody, StoresAt, MemInv;
  }

  lemma LightRows(s: State, s': State)
    requires Base(s) && Base(s') && Light(s, s') && CountsInv(s) && CountsInv(s') && RowsInv(s)
    ensures RowsInv(s')
  {
    LightBase(s, s');
    hide CountsInv, RunBody;
    forall y | 0 <= y < EFB_ROWS
      ensures s'.world.efb[y] == RowNow(s', y) && s'.world.screen[y] == ScreenNow(s', y)
    {
      WorkerFact(s, y % N(s));
      assert s.world.efb[y] == RowNow(s, y) && s.world.screen[y] == ScreenNow(s, y);
    }
  }

  lemma LightKeeps(s: State, s': State)
    requires Inv(s) && Light(s, s') && (Base(s') ==> ListInv(s') && OpsInv(s'))
    ensures Inv(s')
  {
    hide CountsInv, FencesInv, PlanInv, ListInv, MemInv, ChainInv, RowsInv, OpsInv;
    LightBase(s, s');
    LightCounts(s, s');
    LightFences(s, s');
    LightPlan(s, s');
    LightMemory(s, s');
    LightRows(s, s');
  }

  // ---- the list of copies ----------------------------------------------------------------------------

  lemma FloorFact(s: State)
    requires Base(s) && CountsInv(s)
    ensures forall w | 0 <= w < |s.workers| :: s.floor <= s.workers[w].ran <= |s.log|
  {
    forall w | 0 <= w < |s.workers| ensures s.floor <= s.workers[w].ran <= |s.log| { WorkerFact(s, w); }
  }

  /** Dropping finished copies from the list is safe when what is left is still honest. */
  lemma DropList(s: State, s': State)
    requires Base(s) && Base(s') && Light(s, s') && ListInv(s)
    requires Ordered(s'.pending) && HonestBut(s'.pending, Published(s), s'.suspect)
    requires forall p | p in s.pending && p !in s'.pending :: Finished(s, p.cmd)
    ensures ListInv(s')
  {
    SamePublished(s, s');
    hide HonestBut, Ordered;
    forall p | p in s'.pending ensures Spans(s', p.cmd) && p == Entry(s', p.cmd) {
      assert Spans(s, p.cmd) && p == Entry(s, p.cmd);
    }
    forall c: nat | Spans(s', c) ensures c <= s'.lastCopy { assert Spans(s, c); }
    forall c: nat | Spans(s', c) && !Finished(s', c)
      ensures Entry(s', c) in s'.pending
    {
      ListedOrDone(s, c);
      assert Finished(s', c) == Finished(s, c);
    }
  }

  lemma BeginKeeps(s: State, s': State, op: Op, image: bool)
    requires Inv(s) && Begin(s, s', op, image)
    ensures Inv(s')
  {
    hide CountsInv, FencesInv, PlanInv, MemInv, ChainInv, RowsInv, OpsInv, RunOp, RunBody, RunBodies, RunOps, Translate;
    FloorFact(s);
    LightBase(s, s');
    DropList(s, s');
    BeginOps(s, s', op, image);
    LightKeeps(s, s');
  }

  lemma BeginOps(s: State, s': State, op: Op, image: bool)
    requires Base(s) && Base(s') && OpsInv(s) && Begin(s, s', op, image)
    ensures OpsInv(s')
  {
    hide RunOp, RunBody, CommandOk;
    TranslateMeans(N(s), op, image, s.now);
    assert s'.ops[..|s'.ops| - 1] == s.ops;
  }

  lemma DrainKeeps(s: State, s': State)
    requires Inv(s) && Drain(s, s')
    ensures Inv(s')
  {
    hide CountsInv, FencesInv, PlanInv, MemInv, ChainInv, RowsInv, RunBody, RunBodies, RunOps;
    FloorFact(s);
    assert s.floor <= s.workers[0].ran <= |s.log|;
    LightBase(s, s');
    forall p | p in s.pending ensures Finished(s, p.cmd) { assert Spans(s, p.cmd); }
    DropList(s, s');
    LightKeeps(s, s');
  }

  lemma TokenKeeps(s: State, s': State)
    requires Inv(s) && Token(s, s')
    ensures Inv(s')
  {
    hide CountsInv, FencesInv, PlanInv, MemInv, ChainInv, RowsInv, RunBody, RunBodies, RunOps;
    FloorFact(s);
    LightBase(s, s');
    forall p | p in s.pending ensures Finished(s, p.cmd) { assert Spans(s, p.cmd); }
    DropList(s, s');
    LightKeeps(s, s');
  }

  lemma HookKeeps(s: State, s': State, lo: nat, n: nat)
    requires Inv(s) && Hook(s, s', lo, n)
    ensures Inv(s')
  {
    hide CountsInv, FencesInv, PlanInv, MemInv, ChainInv, RowsInv, RunBody, RunBodies, RunOps, Uncovered;
    FloorFact(s);
    KeptMembers(s.pending, lo, n);
    KeptOrdered(s.pending, lo, n);
    NewestIsNewest(s.pending, lo, n);
    LightBase(s, s');
    HookHonestBut(s.pending, Published(s), s.suspect, lo, n);
    DropList(s, s') by { hide HonestBut, Ordered; }
    LightKeeps(s, s') by { hide ListInv; }
  }

  // ---- a write by the guest ------------------------------------------------------------------------------

  /** A byte no unfinished listed copy spans: every copy to it is over. */
  lemma Unlisted(s: State, a: nat, c: nat)
    requires Base(s) && ListInv(s) && StoresAt(s, c, a)
    requires forall p | p in s.pending && Covered(p, a) :: Finished(s, p.cmd)
    ensures MemDone(s, c, a) && Finished(s, c)
  {
    StoreSpans(s, c, a);
    ListedOrDone(s, c);
  }

  lemma PokeBase(s: State, s': State, a: nat, v: int)
    requires Base(s) && Poke(s, s', a, v)
    ensures Base(s')
    ensures forall k | 0 <= k < |s.log| :: At(s', k) == At(s, k) && Post(s', k) == Post(s, k)
    ensures At(s', |s.log|) == s.now.(mem := s.now.mem[a := v])
  {
    forall k | 0 <= k < |s.log| ensures CommandOk(s', k) && CommandOk(s, k) { assert CommandOk(s, k); }
    hide RunBody;
  }

  lemma PokeCounts(s: State, s': State, a: nat, v: int)
    requires Base(s) && Base(s') && CountsInv(s) && FencesInv(s) && Poke(s, s', a, v)
    ensures CountsInv(s') && FencesInv(s')
  {
    forall w | 0 <= w < |s'.workers| ensures WorkerOk(s', w) { assert WorkerOk(s, w); }
    forall k | 0 <= k < |s.log| ensures Held(s', k) { assert Held(s, k); }
    hide WorkerOk, Held;
    forall v: nat, k: nat | Started(s', v, k) ensures Started(s, v, k) {}
  }

  lemma PokeList(s: State, s': State, a: nat, v: int)
    requires Base(s) && Base(s') && ListInv(s) && Poke(s, s', a, v)
    ensures ListInv(s')
  {
    SamePublished(s, s');
    hide HonestBut, Ordered;
    forall p | p in s'.pending ensures Spans(s', p.cmd) && p == Entry(s', p.cmd) {
      assert Spans(s, p.cmd) && p == Entry(s, p.cmd);
    }
    forall c: nat | Spans(s', c) ensures c <= s'.lastCopy { assert Spans(s, c); }
    forall c: nat | Spans(s', c) && !Finished(s', c) ensures Entry(s', c) in s'.pending {
      ListedOrDone(s, c);
      assert Finished(s', c) == Finished(s, c);
    }
  }

  lemma PokePlan(s: State, s': State, a: nat, v: int)
    requires Base(s) && PlanInv(s) && Base(s') && Poke(s, s', a, v)
    ensures PlanInv(s')
  {
    PokeBase(s, s', a, v);
    hide RunBody, FencesEnough;
    forall c: nat | Finished(s, c) ensures Finished(s', c) {}
    forall k | 0 <= k < |s.log|
      ensures FencesEnough(s', k, s'.log[k])
    {
      EnoughCarries(s, s', k, s.log[k]);
    }
  }

  lemma PokeMemory(s: State, s': State, a: nat, v: int)
    requires Inv(s) && Base(s') && Poke(s, s', a, v)
    ensures MemInv(s')
  {
    PokeBase(s, s', a, v);
    hide CountsInv, FencesInv, PlanInv, ChainInv, RowsInv, OpsInv, RunBody;
    forall c: nat, b: nat | StoresAt(s', c, b)
      ensures StoresAt(s, c, b) && MemDone(s', c, b) == MemDone(s, c, b)
    {
      assert StoresAt(s, c, b);
    }
    forall c: nat | StoresAt(s, c, a) ensures MemDone(s, c, a) { Unlisted(s, a, c); }
    hide ListInv, MemDone;
    forall m: nat, b: nat | b < MEM_BYTES && Frontier(s', m, b)
      ensures s'.world.mem[b] == At(s', m).mem[b]
    {
      assert Frontier(s, m, b) by {
        forall c | 0 <= c < m && StoresAt(s, c, b) ensures MemDone(s, c, b) { assert StoresAt(s', c, b); }
      }
    }
    forall c: nat, b: nat | b < MEM_BYTES && StoresAt(s', c, b) && MemDone(s', c, b)
      ensures ImageRight(s', c, b)
    {
      assert ImageRight(s, c, b);
    }
  }

  lemma PokeChain(s: State, s': State, a: nat, v: int)
    requires Inv(s) && Base(s') && Poke(s, s', a, v)
    ensures ChainInv(s')
  {
    hide CountsInv, FencesInv, PlanInv, MemInv, RowsInv, OpsInv, RunBody, HonestBut, Ordered;
    PokeBase(s, s', a, v);
    forall k | 0 <= k < |s.log|
      ensures At(s', k + 1).efb == Post(s', k).efb && At(s', k + 1).screen == Post(s', k).screen
    {
      ChainFact(s, k);
    }
    forall c: nat, j: nat, b: nat | NoStore(s', c, j, b) ensures NoStore(s, c, j, b) {
      forall d | c < d < j ensures !StoresAt(s, d, b) { assert !StoresAt(s', d, b); }
    }
    forall c: nat, b: nat | StoresAt(s', c, b)
      ensures StoresAt(s, c, b) && MemDone(s', c, b) == MemDone(s, c, b)
    {
      assert StoresAt(s, c, b);
    }
    forall c: nat | StoresAt(s, c, a) ensures MemDone(s, c, a) { Unlisted(s, a, c); }
    forall p | p in s.pending && StoresAt(s, p.cmd, a)
      ensures a in s'.suspect
    {
      assert Spans(s, p.cmd) && p == Entry(s, p.cmd) && CommandOk(s, p.cmd);
      assert Covered(p, a);
    }
    hide MemDone, NoStore, StoresAt, ListInv;
  }

  lemma PokeRows(s: State, s': State, a: nat, v: int)
    requires Inv(s) && Base(s') && CountsInv(s') && Poke(s, s', a, v)
    ensures RowsInv(s')
  {
    PokeBase(s, s', a, v);
    hide CountsInv, FencesInv, PlanInv, MemInv, ChainInv, ListInv, OpsInv, RunBody;
    forall y | 0 <= y < EFB_ROWS
      ensures s'.world.efb[y] == RowNow(s', y) && s'.world.screen[y] == ScreenNow(s', y)
    {
      WorkerFact(s, y % N(s));
      assert s.world.efb[y] == RowNow(s, y) && s.world.screen[y] == ScreenNow(s, y);
    }
  }

  lemma PokeOps(s: State, s': State, a: nat, v: int)
    requires Inv(s) && Base(s') && Poke(s, s', a, v)
    ensures OpsInv(s')
  {
    hide CountsInv, FencesInv, PlanInv, MemInv, ChainInv, ListInv, RowsInv, RunBody;
    assert s'.ops[..|s'.ops| - 1] == s.ops;
  }

  lemma PokeKeeps(s: State, s': State, a: nat, v: int)
    requires Inv(s) && Poke(s, s', a, v)
    ensures Inv(s')
  {
    hide CountsInv, FencesInv, PlanInv, MemInv, ChainInv, ListInv, RowsInv, OpsInv, RunBody;
    PokeBase(s, s', a, v);
    PokeCounts(s, s', a, v);
    PokeList(s, s', a, v);
    PokePlan(s, s', a, v);
    PokeMemory(s, s', a, v);
    PokeChain(s, s', a, v);
    PokeRows(s, s', a, v);
    PokeOps(s, s', a, v);
  }
}
