/**
  No two threads of the queue touch the same row or byte at once, one of them writing.
  So it does not matter that a row is many stores: modelling it as one step loses nothing.
 */
module QueueRaces {
  import opened CopyGeometry
  import opened Commands
  import opened PendingCopies
  import opened RenderQueue
  import opened QueueInvariant
  import opened QueueReads
  import opened QueueProducer
  import opened QueuePublish

  datatype Location =
    | EfbRow(y: nat)
    | ScreenRow(y: nat)
    | Byte(a: nat)
    | ImageByte(cmd: nat, a: nat)

  /** What running row t of command k stores to. */
  ghost predicate WritesTo(k: nat, b: Body, t: Task, at: Location) {
    match t
    case Own(y) => at == EfbRow(y)
    case Out(y) =>
      && b.CopyOut?
      && if b.copy.screen then at == ScreenRow(y)
         else (at.Byte? || (at.ImageByte? && at.cmd == k && b.image)) && at.a in b.copy.store && b.copy.store[at.a] == y
  }

  /** What it reads besides: the rows a copy weighs, the bytes a texel shares, the images a draw samples. */
  ghost predicate ReadsFrom(b: Body, t: Task, at: Location) {
    match t
    case Own(y) =>
      || at == EfbRow(y)
      || (b.Draw? && at.ImageByte? && exists i :: 0 <= i < |b.from| && b.from[i] == Image(at.cmd))
    case Out(y) =>
      && b.CopyOut?
      && (|| (at.EfbRow? && (at.y == b.copy.Above(y) || at.y == b.copy.Source(y) || at.y == b.copy.Below(y)))
          || (at.Byte? && at.a in b.copy.store && b.copy.store[at.a] == y))
  }

  /** Worker w is running its command and has yet to finish row t of it. */
  ghost predicate Owes(s: State, w: nat, t: Task) {
    && Base(s) && w < |s.workers| && s.workers[w].phase.Running? && s.workers[w].ran < |s.log|
    && IsTask(|s.workers|, w, s.log[s.workers[w].ran].body, t) && t !in s.workers[w].phase.done
  }

  ghost predicate Running(s: State) {
    Base(s) && CountsInv(s) && FencesInv(s) && PlanInv(s)
  }

  /** Workers about to store the same byte are the same worker: of one command they own
      different rows, and of two the later one's fence holds it. */
  lemma StoresApart(s: State, v: nat, t: Task, w: nat, u: Task, a: nat)
    requires Running(s) && Owes(s, v, t) && Owes(s, w, u)
    requires var b := s.log[s.workers[v].ran].body; b.Stores(a) && t == Out(b.copy.store[a])
    requires var b := s.log[s.workers[w].ran].body; b.Stores(a) && u == Out(b.copy.store[a])
    ensures v == w
  {
    hide CountsInv, FencesInv, PlanInv;
    var k, m := s.workers[v].ran, s.workers[w].ran;
    if k < m {
      StoreOrder(s, k, m, a, w);
    } else if m < k {
      StoreOrder(s, m, k, a, v);
    }
  }

  /** A running draw samples no image of a command some worker has yet to finish. */
  lemma ImagesOver(s: State, w: nat, v: nat, i: nat)
    requires Running(s) && w < |s.workers| && s.workers[w].phase.Running? && s.workers[w].ran < |s.log| && v < |s.workers|
    requires var b := s.log[s.workers[w].ran].body; b.Draw? && i < |b.from| && b.from[i].Image?
    ensures s.log[s.workers[w].ran].body.from[i].cmd < s.workers[v].ran
  {
    hide CountsInv, FencesInv;
    var m := s.workers[w].ran;
    PlanFact(s, m);
    hide PlanInv;
    var d := s.log[m];
    assert FeedRight(s, m, d.fence, d.body.draw.tex[i], d.body.from[i]);
    if v != w {
      FenceFact(s, w, m, v);
    }
  }

  /** Data-race freedom: what one worker is about to store, no other is about to store or read. */
  lemma NoRace(s: State, v: nat, t: Task, w: nat, u: Task, at: Location)
    requires Running(s) && Owes(s, v, t) && Owes(s, w, u) && v != w
    requires WritesTo(s.workers[v].ran, s.log[s.workers[v].ran].body, t, at)
    ensures !WritesTo(s.workers[w].ran, s.log[s.workers[w].ran].body, u, at)
    ensures !ReadsFrom(s.log[s.workers[w].ran].body, u, at)
  {
    hide CountsInv, FencesInv, PlanInv;
    var k, m := s.workers[v].ran, s.workers[w].ran;
    var b, c := s.log[k].body, s.log[m].body;
    match at
    case EfbRow(y) =>
      if u.Out? && ReadsFrom(c, u, at) {
        OwnerNear(s, w, u.y, y);
      }
    case ScreenRow(y) =>
    case Byte(a) =>
      if WritesTo(m, c, u, at) || ReadsFrom(c, u, at) {
        StoresApart(s, v, t, w, u, a);
      }
    case ImageByte(cmd, a) =>
      if WritesTo(m, c, u, at) {
        StoresApart(s, v, t, w, u, a);
      } else if ReadsFrom(c, u, at) {
        var i :| 0 <= i < |c.from| && c.from[i] == Image(cmd);
        ImagesOver(s, w, v, i);
      }
  }

  /** The producer reads a span of guest memory only when no unfinished copy stores into it. */
  lemma ProducerReadsFinal(s: State, lo: nat, n: nat, c: nat, a: nat)
    requires Base(s) && ListInv(s) && Finished(s, NewestOverlap(s.pending, lo, n))
    requires lo <= a < lo + n && StoresAt(s, c, a)
    ensures Finished(s, c)
  {
    StoreSpans(s, c, a);
    ListedOrDone(s, c);
    NewestIsNewest(s.pending, lo, n);
    hide ListInv;
    if Entry(s, c) in s.pending {
      assert Overlaps(Entry(s, c), lo, n);
    }
  }

  /** A hook that uncovers an older copy lets the next draw of that copy's texture take its
      image, though memory no longer holds it. */
  lemma UncoveringHookAllowsAStaleImage(s: State, s': State, lo: nat, n: nat, p: Pending, q: Pending, t: Texture, i: nat)
    requires Inv(s) && Hook(s, s', lo, n)
    requires p in Kept(s.pending, lo, n) && NewestOverlap(Kept(s.pending, lo, n), p.addr, p.bytes) == p.cmd
    requires q in s.pending && Overlaps(q, lo, n) && p.cmd < q.cmd < |s.log|
    requires t.lo == p.addr && t.bytes == p.bytes && i < |t.at| && t.at[i] < MEM_BYTES
    requires p.cmd < |s.log| && s.log[p.cmd].body.CopyOut? && s.log[p.cmd].body.image
    requires forall j | 0 <= j < |t.at| :: s.log[p.cmd].body.Stores(t.at[j])
    requires StoresAt(s, q.cmd, t.at[i]) && t.at[i] !in s.suspect && NoStore(s, q.cmd, |s.log|, t.at[i])
    requires Post(s, q.cmd).mem[t.at[i]] != Post(s, p.cmd).mem[t.at[i]]
    ensures FeedOk(s', t, Image(p.cmd))
    ensures s'.now == s.now && s.now.mem[t.at[i]] != Post(s, p.cmd).mem[t.at[i]]
  {
    hide CountsInv, FencesInv, PlanInv, MemInv, RowsInv, OpsInv, ChainInv;
    KeptMembers(s.pending, lo, n);
    assert Spans(s, p.cmd) && p == Entry(s, p.cmd);
    ListedChain(s, q, t.at[i]);
  }

  // ---- whole screens ------------------------------------------------------------------------------

  /** Worker w has copied all its rows of screen copy k. */
  ghost predicate CopiedOut(s: State, w: nat, k: nat)
    requires Base(s) && w < |s.workers| && k < |s.log|
  {
    || k < s.workers[w].ran
    || (s.workers[w].ran == k && s.workers[w].phase.Running?
        && forall y | IsTask(|s.workers|, w, s.log[k].body, Out(y)) :: Out(y) in s.workers[w].phase.done)
  }

  /** Screen copies never overlap: every worker is over one before any starts the next. */
  lemma ScreensApart(s: State, v: nat, k: nat, w: nat)
    requires Running(s) && v < |s.workers| && w < |s.workers| && v != w
    requires k < |s.log| && s.log[k].body.ToScreen() && Started(s, v, k)
    ensures k <= s.workers[w].ran
  {
    PlanFact(s, k);
    FenceFact(s, v, k, w);
  }

  /** From command k + 1 up to j, which a worker has not passed, no command draws the screen. */
  lemma {:induction false} ScreenStays(s: State, k: nat, j: nat, v: nat, w: nat)
    requires Running(s) && ChainInv(s) && v < |s.workers| && w < |s.workers| && v != w
    requires s.workers[v].ran <= k < j <= s.workers[w].ran && j <= |s.log|
    ensures At(s, j).screen == Post(s, k).screen
    decreases j
  {
    hide CountsInv, FencesInv, PlanInv, ChainInv, RunBody;
    var i := j - 1;
    ChainFact(s, i);
    if k < i {
      ScreenStays(s, k, i, v, w);
      assert Started(s, w, i);
      if s.log[i].body.ToScreen() {
        ScreensApart(s, w, i, v);
      }
      assert CommandOk(s, i);
      var before, after := At(s, i).screen, Post(s, i).screen;
      forall y | 0 <= y < EFB_ROWS
        ensures after[y] == before[y]
      {
        BodyRows(s.log[i].body, At(s, i), y);
      }
      assert after == before;
    }
  }

  /** When the last worker has copied its rows of a screen copy, and until it counts the
      command done, the screen is the one-at-a-time run's: that is when the frame is taken. */
  lemma ScreenWhole(s: State, k: nat, v: nat)
    requires Running(s) && ChainInv(s) && RowsInv(s) && k < |s.log| && s.log[k].body.ToScreen()
    requires forall w | 0 <= w < |s.workers| :: CopiedOut(s, w, k)
    requires v < |s.workers| && s.workers[v].ran == k
    ensures s.world.screen == Post(s, k).screen
  {
    hide CountsInv, FencesInv, PlanInv, ChainInv, RowsInv, RunBody;
    forall y | 0 <= y < EFB_ROWS
      ensures s.world.screen[y] == Post(s, k).screen[y]
    {
      ScreenRowWhole(s, k, v, y);
    }
  }

  lemma ScreenRowWhole(s: State, k: nat, v: nat, y: nat)
    requires Running(s) && ChainInv(s) && RowsInv(s) && k < |s.log| && s.log[k].body.ToScreen()
    requires forall w | 0 <= w < |s.workers| :: CopiedOut(s, w, k)
    requires v < |s.workers| && s.workers[v].ran == k && y < EFB_ROWS
    ensures s.world.screen[y] == Post(s, k).screen[y]
  {
    hide CountsInv, FencesInv, PlanInv, ChainInv, RowsInv, RunBody;
    var w := y % N(s);
    RowFact(s, y);
    WorkerFact(s, w);
    assert CommandOk(s, k) && CopiedOut(s, w, k);
    BodyRows(s.log[k].body, At(s, k), y);
    if s.workers[w].ran == k {
      assert y < s.log[k].body.OutRows() ==> IsTask(N(s), w, s.log[k].body, Out(y));
    } else {
      var j := s.workers[w].ran;
      ScreenStays(s, k, j, v, w);
      if s.workers[w].phase.Running? && s.log[j].body.ToScreen() {
        assert Started(s, w, j);
        ScreensApart(s, w, j, v);
      }
    }
  }
}
