/**
  Every worker step keeps the queue's invariant.
 */
module QueueWorkers {
  import opened CopyGeometry
  import opened Commands
  import opened PendingCopies
  import opened RenderQueue
  import opened QueueInvariant

  // ---- what no worker step touches ---------------------------------------------------------

  /** A worker's progress: later in the queue, or further into the same command. */
  predicate Forward(v: Worker, v': Worker) {
    || v.ran < v'.ran
    || (v.ran == v'.ran && (v.phase.Running? ==> v'.phase.Running? && v.phase.done <= v'.phase.done))
  }

  ghost predicate Quiet(s: State, s': State, w: nat) {
    && w < |s.workers| == |s'.workers|
    && s'.workers == s.workers[w := s'.workers[w]] && Forward(s.workers[w], s'.workers[w])
    && s' == s.(workers := s'.workers, world := s'.world, images := s'.images)
    && WorldOk(s'.world) && |s'.images| == |s.images|
    && forall k | 0 <= k < |s.images| :: |s'.images[k]| == |s.images[k]|
  }

  lemma QuietBase(s: State, s': State, w: nat)
    requires Base(s) && Quiet(s, s', w)
    ensures Base(s')
    ensures forall k | 0 <= k <= |s.log| :: At(s', k) == At(s, k)
    ensures forall k | 0 <= k < |s.log| :: Post(s', k) == Post(s, k)
  {
    forall k | 0 <= k < |s.log|
      ensures CommandOk(s', k) && CommandOk(s, k)
    {
      assert CommandOk(s, k);
    }
    hide RunBody;
  }

  lemma QuietDone(s: State, s': State, w: nat, c: nat, a: nat)
    requires Base(s) && Base(s') && Quiet(s, s', w) && StoresAt(s, c, a) && MemDone(s, c, a)
    ensures MemDone(s', c, a)
  {
  }

  lemma QuietFinished(s: State, s': State, w: nat, c: int)
    requires Quiet(s, s', w) && Finished(s, c)
    ensures Finished(s', c)
  {
  }

  lemma QuietEnough(s: State, s': State, w: nat, k: nat, d: Slot)
    requires Base(s) && Base(s') && Quiet(s, s', w) && k <= |s.log| && FencesEnough(s, k, d)
    ensures FencesEnough(s', k, d)
  {
    QuietBase(s, s', w);
    forall c: nat | Finished(s, c) ensures Finished(s', c) { QuietFinished(s, s', w, c); }
    hide FencesEnough;
    EnoughCarries(s, s', k, d);
  }

  lemma QuietPlan(s: State, s': State, w: nat)
    requires Base(s) && Base(s') && Quiet(s, s', w) && PlanInv(s)
    ensures PlanInv(s')
  {
    forall k, d | 0 <= k <= |s.log| && FencesEnough(s, k, d) ensures FencesEnough(s', k, d) { QuietEnough(s, s', w, k, d); }
    hide FencesEnough;
  }

  lemma SamePublished(s: State, s': State)
    requires s'.log == s.log
    ensures Published(s') == Published(s)
  {
    forall p | p in Published(s)
      ensures p in Published(s')
    {
      var c :| 0 <= c < |s.log| && Spans(s, c) && Entry(s, c) == p;
      assert Spans(s', c) && Entry(s', c) == p;
    }
    forall p | p in Published(s')
      ensures p in Published(s)
    {
      var c :| 0 <= c < |s'.log| && Spans(s', c) && Entry(s', c) == p;
      assert Spans(s, c) && Entry(s, c) == p;
    }
  }

  lemma QuietList(s: State, s': State, w: nat)
    requires Base(s) && Base(s') && Quiet(s, s', w) && ListInv(s)
    ensures ListInv(s')
  {
    SamePublished(s, s');
    hide HonestBut, Ordered;
    forall p | p in s'.pending ensures Spans(s', p.cmd) && p == Entry(s', p.cmd) {
      assert Spans(s, p.cmd) && p == Entry(s, p.cmd);
    }
    forall c: nat | Spans(s', c) ensures c <= s'.lastCopy { assert Spans(s, c); }
    forall c: nat | Spans(s', c) && !Finished(s', c)
      ensures Entry(s', c) in s'.pending
    {
      ListedOrDone(s, c);
      if Finished(s, c) { QuietFinished(s, s', w, c); }
    }
  }

  lemma QuietChain(s: State, s': State, w: nat)
    requires Base(s) && Base(s') && Quiet(s, s', w) && ChainInv(s)
    ensures ChainInv(s')
  {
    QuietBase(s, s', w);
    forall c: nat, j: nat, a: nat | NoStore(s', c, j, a) ensures NoStore(s, c, j, a) {
      forall d | c < d < j ensures !StoresAt(s, d, a) { assert !StoresAt(s', d, a); }
    }
    forall c: nat, a: nat | StoresAt(s', c, a) && a < MEM_BYTES && !MemDone(s', c, a)
      ensures StoresAt(s, c, a) && !MemDone(s, c, a)
    {
      if MemDone(s, c, a) { QuietDone(s, s', w, c, a); }
    }
    hide MemDone, NoStore, RunBody, StoresAt;
  }

  lemma QuietStatic(s: State, s': State, w: nat)
    requires Inv(s) && Quiet(s, s', w)
    ensures Base(s') && PlanInv(s') && ListInv(s') && ChainInv(s') && OpsInv(s')
  {
    QuietBase(s, s', w);
    QuietPlan(s, s', w);
    QuietList(s, s', w);
    QuietChain(s, s', w);
    hide PlanInv, ListInv, ChainInv, CountsInv, FencesInv, MemInv, RowsInv, RunBody, RunBodies;
  }

  /** Counts and slots, when worker w's own place is in order. */
  lemma QuietCounts(s: State, s': State, w: nat)
    requires Base(s) && Base(s') && Quiet(s, s', w) && CountsInv(s) && WorkerOk(s', w)
    ensures CountsInv(s')
  {
    forall u | 0 <= u < |s'.workers|
      ensures WorkerOk(s', u)
    {
      assert WorkerOk(s, u);
    }
    forall k | 0 <= k < |s.log|
      ensures Held(s', k)
    {
      assert Held(s, k);
    }
  }

  /** Fences, when worker w starts no new command. */
  lemma QuietFences(s: State, s': State, w: nat)
    requires Base(s) && Base(s') && Quiet(s, s', w) && FencesInv(s) && CountsInv(s) && CountsInv(s')
    requires forall k: nat | Started(s', w, k) && !Started(s, w, k) ::
               forall u: nat | u < |s.workers| && u != w :: FenceOn(N(s), w, u, s.log[k]) <= s.workers[u].ran
    requires s'.workers[w].phase.Fencing? ==> s'.workers[w].ran < |s.log|
    requires s'.workers[w].phase.Fencing? ==>
               forall u: nat | u < s'.workers[w].phase.next && u < |s.workers| && u != w ::
                 FenceOn(N(s), w, u, s.log[s'.workers[w].ran]) <= s.workers[u].ran
    ensures FencesInv(s')
  {
    hide CountsInv;
    forall v: nat, k: nat, u: nat | Started(s', v, k) && u < |s.workers| && u != v
      ensures FenceOn(N(s'), v, u, s'.log[k]) <= s'.workers[u].ran
    {
      if v != w {
        assert Started(s, v, k);
      }
    }
  }

  // ---- steps that change no row ------------------------------------------------------------------

  /** Worker w moves between phases of the same command without running a row. */
  ghost predicate PhaseOnly(s: State, s': State, w: nat) {
    && Quiet(s, s', w) && s'.world == s.world && s'.images == s.images
    && s'.workers[w].ran == s.workers[w].ran
    && !s.workers[w].phase.Running? && (s'.workers[w].phase.Running? ==> s'.workers[w].phase.done == {})
  }

  lemma PhaseMemory(s: State, s': State, w: nat)
    requires Base(s) && Base(s') && MemInv(s) && PhaseOnly(s, s', w)
    ensures MemInv(s')
  {
    assert forall c: nat, a: nat | StoresAt(s, c, a) :: MemDone(s', c, a) == MemDone(s, c, a);
    SameMemory(s, s');
  }

  lemma PhaseRows(s: State, s': State, w: nat)
    requires Base(s) && Base(s') && CountsInv(s) && CountsInv(s') && RowsInv(s) && PhaseOnly(s, s', w)
    ensures RowsInv(s')
  {
    QuietBase(s, s', w);
    hide CountsInv, RunBody;
    forall y | 0 <= y < EFB_ROWS
      ensures s'.world.efb[y] == RowNow(s', y) && s'.world.screen[y] == ScreenNow(s', y)
    {
      WorkerFact(s, y % N(s));
      assert s.world.efb[y] == RowNow(s, y) && s.world.screen[y] == ScreenNow(s, y);
    }
  }

  /** Memory and images unchanged, and every store as done or not as it was. */
  lemma SameMemory(s: State, s': State)
    requires Base(s) && Base(s') && MemInv(s) && s'.log == s.log && s'.hist == s.hist && s'.now == s.now
    requires s'.world.mem == s.world.mem && s'.images == s.images
    requires forall c: nat, a: nat | StoresAt(s, c, a) :: MemDone(s', c, a) == MemDone(s, c, a)
    ensures MemInv(s')
  {
    hide MemDone, RunBody;
    forall m: nat, a: nat | a < MEM_BYTES && Frontier(s', m, a)
      ensures s'.world.mem[a] == At(s', m).mem[a]
    {
      assert Frontier(s, m, a) by {
        forall c | 0 <= c < m && StoresAt(s, c, a) ensures MemDone(s, c, a) { assert StoresAt(s', c, a); }
      }
    }
    forall c: nat, a: nat | a < MEM_BYTES && StoresAt(s', c, a) && MemDone(s', c, a)
      ensures ImageRight(s', c, a)
    {
      assert StoresAt(s, c, a) && ImageRight(s, c, a);
    }
  }

  lemma FetchKeeps(s: State, s': State, w: nat)
    requires Inv(s) && Fetch(s, s', w)
    ensures Inv(s')
  {
    SlotFound(s, w);
    WorkerFact(s, w);
    hide CountsInv, FencesInv, PlanInv, ListInv, MemInv, ChainInv, RowsInv, OpsInv;
    QuietStatic(s, s', w);
    QuietCounts(s, s', w);
    QuietFences(s, s', w);
    PhaseMemory(s, s', w);
    PhaseRows(s, s', w);
  }

  lemma CheckFenceKeeps(s: State, s': State, w: nat)
    requires Inv(s) && CheckFence(s, s', w)
    ensures Inv(s')
  {
    WorkerFact(s, w);
    SlotFound(s, w);
    CheckedSoFar(s, w);
    hide CountsInv, FencesInv, PlanInv, ListInv, MemInv, ChainInv, RowsInv, OpsInv;
    QuietStatic(s, s', w);
    QuietCounts(s, s', w);
    QuietFences(s, s', w);
    PhaseMemory(s, s', w);
    PhaseRows(s, s', w);
  }

  lemma CheckedSoFar(s: State, w: nat)
    requires Base(s) && FencesInv(s) && w < |s.workers| && s.workers[w].phase.Fencing? && s.workers[w].ran < |s.log|
    ensures forall u: nat | u < s.workers[w].phase.next && u < |s.workers| && u != w ::
              FenceOn(N(s), w, u, s.log[s.workers[w].ran]) <= s.workers[u].ran
  {
  }

  lemma EnterKeeps(s: State, s': State, w: nat)
    requires Inv(s) && Enter(s, s', w)
    ensures Inv(s')
  {
    WorkerFact(s, w);
    SlotFound(s, w);
    CheckedSoFar(s, w);
    hide CountsInv, FencesInv, PlanInv, ListInv, MemInv, ChainInv, RowsInv, OpsInv;
    QuietStatic(s, s', w);
    QuietCounts(s, s', w);
    QuietFences(s, s', w);
    PhaseMemory(s, s', w);
    PhaseRows(s, s', w);
  }
}
