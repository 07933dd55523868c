/**
  Running a row, and finishing a command, keep the queue's invariant.
 */
module QueueRows {
  import opened CopyGeometry
  import opened Commands
  import opened RenderQueue
  import opened QueueInvariant
  import opened QueueReads
  import opened QueueWorkers

  // ---- finishing ---------------------------------------------------------------------------------

  lemma FinishMemory(s: State, s': State, w: nat)
    requires Base(s) && Base(s') && CountsInv(s) && MemInv(s) && Quiet(s, s', w) && Finish(s, s', w)
    ensures MemInv(s')
  {
    WorkerFact(s, w);
    SlotFound(s, w);
    hide CountsInv, MemInv;
    forall c: nat, a: nat | StoresAt(s, c, a)
      ensures MemDone(s', c, a) == MemDone(s, c, a)
    {
      assert CommandOk(s, c);
      var b := s.log[c].body;
      var y := b.copy.store[a];
      if c == s.workers[w].ran && b.copy.Owner(N(s), y) == w {
        assert IsTask(N(s), w, b, Out(y));
      }
    }
    SameMemory(s, s');
  }

  lemma FinishRows(s: State, s': State, w: nat)
    requires Base(s) && Base(s') && CountsInv(s) && CountsInv(s') && RowsInv(s) && ChainInv(s)
    requires Quiet(s, s', w) && Finish(s, s', w)
    ensures RowsInv(s')
  {
    QuietBase(s, s', w);
    WorkerFact(s, w);
    SlotFound(s, w);
    var k := s.workers[w].ran;
    var b := s.log[k].body;
    ChainFact(s, k);
    assert CommandOk(s, k);
    hide CountsInv, ChainInv, RowsInv, RunBody;
    forall y | 0 <= y < EFB_ROWS
      ensures s'.world.efb[y] == RowNow(s', y) && s'.world.screen[y] == ScreenNow(s', y)
    {
      RowFact(s, y);
      WorkerFact(s, y % N(s));
      BodyRows(b, At(s, k), y);
      if y % N(s) == w {
        assert Own(y) in s.workers[w].phase.done || !IsTask(N(s), w, b, Own(y));
        assert b.ToScreen() && y < b.OutRows() ==> IsTask(N(s), w, b, Out(y));
      }
    }
    RowsHold(s');
  }

  lemma RowsHold(s: State)
    requires Base(s) && CountsInv(s)
    requires forall y | 0 <= y < EFB_ROWS :: s.world.efb[y] == RowNow(s, y) && s.world.screen[y] == ScreenNow(s, y)
    ensures RowsInv(s)
  {
  }

  lemma FinishKeeps(s: State, s': State, w: nat)
    requires Inv(s) && Finish(s, s', w)
    ensures Inv(s')
  {
    WorkerFact(s, w);
    SlotFound(s, w);
    hide CountsInv, FencesInv, PlanInv, ListInv, MemInv, ChainInv, RowsInv, OpsInv;
    QuietStatic(s, s', w);
    QuietCounts(s, s', w);
    QuietFences(s, s', w);
    FinishMemory(s, s', w);
    FinishRows(s, s', w);
  }

  // ---- one row -----------------------------------------------------------------------------------

  lemma RunRowQuiet(s: State, s': State, w: nat, t: Task)
    requires Base(s) && RunRow(s, s', w, t) && CountsInv(s)
    ensures Quiet(s, s', w) && s'.workers[w] == s.workers[w].(phase := Running(s.workers[w].phase.done + {t}))
    ensures var k := s.workers[w].ran;
            && k < |s.log| && s' == SetWorker(RunTask(s, k, s.log[k].body, t), w, s'.workers[w])
            && IsTask(N(s), w, s.log[k].body, t) && t !in s.workers[w].phase.done
            && (t.Own? ==> forall y | IsTask(N(s), w, s.log[k].body, Out(y)) :: Out(y) in s.workers[w].phase.done)
  {
    WorkerFact(s, w);
    SlotFound(s, w);
    assert CommandOk(s, s.workers[w].ran);
  }

  lemma RunRowCounts(s: State, s': State, w: nat, t: Task)
    requires Base(s) && Base(s') && CountsInv(s) && RunRow(s, s', w, t)
    ensures CountsInv(s')
  {
    RunRowQuiet(s, s', w, t);
    WorkerFact(s, w);
    hide CountsInv;
    var k := s.workers[w].ran;
    assert DoneOk(s', w, s'.log[k].body, s'.workers[w].phase.done);
    QuietCounts(s, s', w);
  }

  /** The row itself comes out as the one-at-a-time run has it. */
  lemma OwnRight(s: State, s': State, w: nat, y: nat)
    requires Inv(s) && RunRow(s, s', w, Own(y))
    ensures s.workers[w].ran < |s.log|
    ensures y < EFB_ROWS && s'.world == s.world.(efb := s.world.efb[y := Post(s, s.workers[w].ran).efb[y]])
    ensures s'.images == s.images
  {
    RunRowQuiet(s, s', w, Own(y));
    TexturesRead(s, w);
    RowFact(s, y);
    WorkerFact(s, w);
    hide CountsInv, FencesInv, PlanInv, ListInv, MemInv, ChainInv, RowsInv, OpsInv, RunBody;
    var k := s.workers[w].ran;
    BodyRows(s.log[k].body, At(s, k), y);
  }

  lemma ShownRight(s: State, s': State, w: nat, y: nat)
    requires Inv(s) && RunRow(s, s', w, Out(y)) && s.slots[SlotOf(s.workers[w].ran)].body.ToScreen()
    ensures y < EFB_ROWS && y % N(s) == w && s.workers[w].ran < |s.log| && s.log[s.workers[w].ran].body.ToScreen()
    ensures s'.world == s.world.(screen := s.world.screen[y := Post(s, s.workers[w].ran).screen[y]])
    ensures s'.images == s.images
  {
    RunRowQuiet(s, s', w, Out(y));
    WorkerFact(s, w);
    SlotFound(s, w);
    RowsRead(s, w, y);
    var k := s.workers[w].ran;
    assert CommandOk(s, k);
    hide CountsInv, FencesInv, PlanInv, ListInv, MemInv, ChainInv, RowsInv, OpsInv, RunBody;
    BodyRows(s.log[k].body, At(s, k), y);
  }

  /** What a texture row writes: its own bytes, as the one-at-a-time run has them. */
  ghost predicate StoredRow(s: State, s': State, k: nat, y: nat)
    requires Base(s) && k < |s.log| && s.log[k].body.CopyOut?
  {
    assert CommandOk(s, k);
    var c := s.log[k].body.copy;
    && s'.world == s.world.(mem := s'.world.mem) && |s'.world.mem| == MEM_BYTES
    && |s'.images| == |s.images| && |s'.images[k]| == MEM_BYTES
    && (forall a: nat | a < MEM_BYTES ::
          s'.world.mem[a] == if a in c.store && c.store[a] == y then Post(s, k).mem[a] else s.world.mem[a])
    && (forall a: nat | a < MEM_BYTES && a in c.store && c.store[a] == y && s.log[k].body.image ::
          s'.images[k][a] == Post(s, k).mem[a])
    && (forall a: nat | a < MEM_BYTES && !(a in c.store && c.store[a] == y) :: s'.images[k][a] == s.images[k][a])
    && (forall j | 0 <= j < |s.images| && j != k :: s'.images[j] == s.images[j])
  }

  lemma StoredValue(s: State, s': State, w: nat, y: nat, a: nat)
    requires Inv(s) && Reading(s, w, y)
    requires var c := s.log[s.workers[w].ran].body.copy; a in c.store && c.store[a] == y && a < MEM_BYTES
    ensures var k := s.workers[w].ran;
            Stored(s.log[k].body.copy, s.world.efb, a, s.world.mem[a]) == Post(s, k).mem[a]
  {
    hide CountsInv, FencesInv, PlanInv, ListInv, MemInv, ChainInv, RowsInv, OpsInv, RunBody, Stored;
    var k := s.workers[w].ran;
    assert CommandOk(s, k);
    ByteRead(s, w, y, a);
    RowsRead(s, w, y);
    BodyBytes(s.log[k].body, At(s, k), a);
  }

  lemma StoredRight(s: State, s': State, w: nat, y: nat)
    requires Inv(s) && RunRow(s, s', w, Out(y)) && !s.slots[SlotOf(s.workers[w].ran)].body.ToScreen()
    ensures s.workers[w].ran < |s.log| && s.log[s.workers[w].ran].body.CopyOut?
    ensures !s.log[s.workers[w].ran].body.ToScreen()
    ensures StoredRow(s, s', s.workers[w].ran, y)
  {
    hide CountsInv, FencesInv, PlanInv, ListInv, MemInv, ChainInv, RowsInv, OpsInv, RunBody, Stored;
    RunRowQuiet(s, s', w, Out(y));
    WorkerFact(s, w);
    SlotFound(s, w);
    var k := s.workers[w].ran;
    assert CommandOk(s, k);
    var c := s.log[k].body.copy;
    hide RunRow, CommandOk, Base, WorkerOk, Quiet;
    forall a: nat | a < MEM_BYTES && a in c.store && c.store[a] == y
      ensures Stored(c, s.world.efb, a, s.world.mem[a]) == Post(s, k).mem[a]
    {
      StoredValue(s, s', w, y, a);
    }
  }

  // ---- the rows of all workers after one has run a row ---------------------------------------------

  lemma RunRowRows(s: State, s': State, w: nat, t: Task)
    requires Inv(s) && Base(s') && CountsInv(s') && RunRow(s, s', w, t)
    ensures RowsInv(s')
  {
    hide CountsInv, FencesInv, PlanInv, ListInv, MemInv, ChainInv, RowsInv, OpsInv, RunBody, RunTask;
    RunRowQuiet(s, s', w, t);
    SlotFound(s, w);
    forall y | 0 <= y < EFB_ROWS
      ensures s'.world.efb[y] == RowNow(s', y) && s'.world.screen[y] == ScreenNow(s', y)
    {
      RowFact(s, y);
      WorkerFact(s, y % N(s));
      if t.Own? {
        OwnRight(s, s', w, t.y);
      } else if s.log[s.workers[w].ran].body.ToScreen() {
        ShownRight(s, s', w, t.y);
      } else {
        StoredRight(s, s', w, t.y);
      }
      RowAfter(s, s', w, t, y);
    }
    RowsHold(s');
  }

  /** Row y after worker w has run t, given what t wrote. */
  lemma RowAfter(s: State, s': State, w: nat, t: Task, y: nat)
    requires Base(s) && CountsInv(s) && Base(s') && CountsInv(s') && Quiet(s, s', w) && y < EFB_ROWS
    requires s.workers[w].phase.Running? && s'.workers[w] == s.workers[w].(phase := Running(s.workers[w].phase.done + {t}))
    requires s.workers[w].ran < |s.log| && IsTask(N(s), w, s.log[s.workers[w].ran].body, t)
    requires s.world.efb[y] == RowNow(s, y) && s.world.screen[y] == ScreenNow(s, y)
    requires var k := s.workers[w].ran;
             s'.world.efb == (if t.Own? && t.y < EFB_ROWS then s.world.efb[t.y := Post(s, k).efb[t.y]] else s.world.efb)
    requires var k := s.workers[w].ran;
             s'.world.screen == if t.Out? && s.log[k].body.ToScreen() && t.y < EFB_ROWS
                                then s.world.screen[t.y := Post(s, k).screen[t.y]] else s.world.screen
    requires t.Out? && s.log[s.workers[w].ran].body.ToScreen() ==> t.y < EFB_ROWS && t.y % N(s) == w
    ensures s'.world.efb[y] == RowNow(s', y) && s'.world.screen[y] == ScreenNow(s', y)
  {
    QuietBase(s, s', w);
    WorkerFact(s, y % N(s));
    WorkerFact(s, w);
    hide CountsInv, RunBody;
  }

  // ---- memory after a row ------------------------------------------------------------------------------

  /** A row of the frame buffer or the screen stores nothing to memory. */
  lemma RunRowMemoryElsewhere(s: State, s': State, w: nat, t: Task)
    requires Inv(s) && Base(s') && RunRow(s, s', w, t)
    requires t.Own? || s.slots[SlotOf(s.workers[w].ran)].body.ToScreen()
    ensures MemInv(s')
  {
    RunRowQuiet(s, s', w, t);
    SlotFound(s, w);
    if t.Own? {
      OwnRight(s, s', w, t.y);
    } else {
      ShownRight(s, s', w, t.y);
    }
    forall c: nat, a: nat | StoresAt(s, c, a)
      ensures MemDone(s', c, a) == MemDone(s, c, a)
    {
      assert CommandOk(s, c);
    }
    hide CountsInv, FencesInv, PlanInv, ListInv, MemInv, ChainInv, RowsInv, OpsInv, RunBody;
    SameMemory(s, s');
  }

  /** Which stores a texture row makes. */
  lemma RowMakes(s: State, s': State, w: nat, y: nat, c: nat, a: nat)
    requires Inv(s) && Base(s') && RunRow(s, s', w, Out(y)) && StoresAt(s, c, a)
    ensures var k := s.workers[w].ran;
            MemDone(s', c, a) == (MemDone(s, c, a) || (c == k && s.log[k].body.copy.store[a] == y))
    ensures c == s.workers[w].ran && s.log[c].body.copy.store[a] == y ==> !MemDone(s, c, a)
  {
    RunRowQuiet(s, s', w, Out(y));
    assert CommandOk(s, c);
  }

  lemma StoredByte(s: State, s': State, w: nat, y: nat, m: nat, a: nat)
    requires Inv(s) && Base(s') && RunRow(s, s', w, Out(y)) && Quiet(s, s', w)
    requires s.workers[w].ran < |s.log| && s.log[s.workers[w].ran].body.CopyOut?
    requires StoredRow(s, s', s.workers[w].ran, y)
    requires a < MEM_BYTES && Frontier(s', m, a)
    ensures s'.world.mem[a] == At(s, m).mem[a]
  {
    RunRowQuiet(s, s', w, Out(y));
    var k := s.workers[w].ran;
    hide CountsInv, FencesInv, PlanInv, ListInv, ChainInv, RowsInv, OpsInv, RunBody, RunRow, RunTask, MemDone;
    forall c: nat | StoresAt(s, c, a)
      ensures MemDone(s', c, a) == (MemDone(s, c, a) || (c == k && s.log[k].body.copy.store[a] == y))
    {
      RowMakes(s, s', w, y, c, a);
    }
    forall c: nat | StoresAt(s', c, a) ensures StoresAt(s, c, a) {}
    if StoresAt(s, k, a) && s.log[k].body.copy.store[a] == y {
      JustStored(s, s', w, y, m, a);
    } else {
      assert Frontier(s, m, a);
    }
  }

  /** The byte command k has just stored: nothing stores it between k and the new frontier. */
  lemma JustStored(s: State, s': State, w: nat, y: nat, m: nat, a: nat)
    requires Inv(s) && Base(s') && RunRow(s, s', w, Out(y)) && Quiet(s, s', w)
    requires var k := s.workers[w].ran; StoresAt(s, k, a) && s.log[k].body.copy.store[a] == y
    requires a < MEM_BYTES && Frontier(s', m, a)
    ensures At(s, m).mem[a] == Post(s, s.workers[w].ran).mem[a]
  {
    var k := s.workers[w].ran;
    RunRowQuiet(s, s', w, Out(y));
    RowMakes(s, s', w, y, k, a);
    assert Started(s, w, k);
    if m < k {
      StoreOrder(s, m, k, a, w);
      QuietDone(s, s', w, m, a);
    }
    hide CountsInv, FencesInv, PlanInv, ListInv, RowsInv, OpsInv, RunBody, RunRow, RunTask, MemDone, MemInv;
    assert k < m;
    forall c: nat | k < c < m
      ensures !StoresAt(s, c, a)
    {
      if StoresAt(s, c, a) {
        assert StoresAt(s', c, a) && MemDone(s', c, a);
        RowMakes(s, s', w, y, c, a);
        var v := DoneStarted(s, c, a);
        StoreOrder(s, k, c, a, v);
        assert false;
      }
    }
    assert NoStore(s, k, m, a);
  }

  lemma StoredImages(s: State, s': State, w: nat, y: nat)
    requires Inv(s) && Base(s') && RunRow(s, s', w, Out(y)) && Quiet(s, s', w)
    requires s.workers[w].ran < |s.log| && s.log[s.workers[w].ran].body.CopyOut?
    requires StoredRow(s, s', s.workers[w].ran, y)
    ensures forall c: nat, a: nat | a < MEM_BYTES && StoresAt(s', c, a) && MemDone(s', c, a) :: ImageRight(s', c, a)
  {
    QuietBase(s, s', w);
    var k := s.workers[w].ran;
    hide CountsInv, FencesInv, PlanInv, ListInv, ChainInv, RowsInv, OpsInv, RunBody, RunRow, RunTask, MemDone;
    forall c: nat, a: nat | a < MEM_BYTES && StoresAt(s', c, a) && MemDone(s', c, a)
      ensures ImageRight(s', c, a)
    {
      assert StoresAt(s, c, a);
      RowMakes(s, s', w, y, c, a);
      assert CommandOk(s, c);
      if MemDone(s, c, a) {
        assert ImageRight(s, c, a);
      }
    }
  }

  lemma RunRowMemory(s: State, s': State, w: nat, t: Task)
    requires Inv(s) && Base(s') && RunRow(s, s', w, t)
    ensures MemInv(s')
  {
    RunRowQuiet(s, s', w, t);
    QuietBase(s, s', w);
    SlotFound(s, w);
    hide CountsInv, FencesInv, PlanInv, ListInv, ChainInv, RowsInv, OpsInv, RunBody, RunTask, MemDone;
    if t.Own? || s.log[s.workers[w].ran].body.ToScreen() {
      RunRowMemoryElsewhere(s, s', w, t);
    } else {
      StoredRight(s, s', w, t.y);
      StoredImages(s, s', w, t.y);
      forall m: nat, a: nat | a < MEM_BYTES && Frontier(s', m, a)
        ensures s'.world.mem[a] == At(s', m).mem[a]
      {
        StoredByte(s, s', w, t.y, m, a);
      }
    }
  }

  lemma RunRowKeeps(s: State, s': State, w: nat, t: Task)
    requires Inv(s) && RunRow(s, s', w, t)
    ensures Inv(s')
  {
    RunRowQuiet(s, s', w, t);
    hide CountsInv, FencesInv, PlanInv, ListInv, MemInv, ChainInv, RowsInv, OpsInv, RunTask;
    QuietStatic(s, s', w);
    RunRowCounts(s, s', w, t);
    QuietFences(s, s', w);
    RunRowMemory(s, s', w, t);
    RunRowRows(s, s', w, t);
  }
}
