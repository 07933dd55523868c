/**
  What every reachable state of the render command queue satisfies.

  Every row of the frame buffer is what the one-at-a-time run has after exactly its
  owner's count of commands; every byte of memory is what that run has before the first
  command that has yet to store it; and the fences say how far apart two workers can be.
 */
module QueueInvariant {
  import opened CopyGeometry
  import opened Commands
  import opened PendingCopies
  import opened RenderQueue

  // ---- shape ---------------------------------------------------------------------------

  ghost predicate Base(s: State) {
    && 0 < |s.workers| && |s.slots| == QUEUE_CAP
    && WorldOk(s.world) && WorldOk(s.now) && WorldOk(s.start)
    && |s.hist| == |s.log| == |s.images|
    && (forall k | 0 <= k < |s.log| :: CommandOk(s, k))
    && (s.claimed ==> s.todo != [] && BodyOk(s.slots[SlotOf(|s.log|)].body))
  }

  ghost predicate CommandOk(s: State, k: nat)
    requires k < |s.log| == |s.hist| == |s.images|
  {
    && WorldOk(s.hist[k]) && |s.images[k]| == MEM_BYTES && BodyOk(s.log[k].body)
    && s.log[k].num == k && s.log[k].fence <= k && s.log[k].near <= k
  }

  /** The one-at-a-time run just before command k; with k == |log|, as it is now. */
  ghost function At(s: State, k: nat): (w: World)
    requires Base(s) && k <= |s.log|
    ensures WorldOk(w)
  {
    if k < |s.log| then assert CommandOk(s, k); s.hist[k] else s.now
  }

  ghost function Post(s: State, k: nat): (w: World)
    requires Base(s) && k < |s.log|
    ensures WorldOk(w)
  {
    assert CommandOk(s, k);
    RunBody(s.log[k].body, s.hist[k])
  }

  ghost function N(s: State): nat { |s.workers| }

  /** Worker v has passed the fence of command k. */
  ghost predicate Started(s: State, v: nat, k: nat) {
    v < |s.workers| && k < |s.log| && (k < s.workers[v].ran || (s.workers[v].ran == k && s.workers[v].phase.Running?))
  }

  // ---- counts and slots ------------------------------------------------------------------

  /** A worker's place: never past what is published, never further than the ring is long. */
  ghost predicate WorkerOk(s: State, w: nat)
    requires Base(s) && w < |s.workers|
  {
    var v := s.workers[w];
    && s.floor <= v.ran <= |s.log|
    && (v.phase != Idle ==> v.ran < |s.log|)
    && (v.phase.Fencing? ==> v.phase.next <= |s.workers|)
    && (v.phase.Running? ==> DoneOk(s, w, s.log[v.ran].body, v.phase.done))
  }

  /** The rows done are the worker's own, and no row is wiped before its copies are made. */
  ghost predicate DoneOk(s: State, w: nat, b: Body, done: set<Task>)
    requires 0 < |s.workers|
  {
    && (forall t | t in done :: IsTask(|s.workers|, w, b, t))
    && (forall y, z | Own(y) in done && IsTask(|s.workers|, w, b, Out(z)) :: Out(z) in done)
  }

  /** Slot k % QUEUE_CAP holds command k until every worker is past it. */
  ghost predicate Held(s: State, k: nat)
    requires Base(s) && k < |s.log|
  {
    |s.log| + (if s.claimed then 1 else 0) <= k + QUEUE_CAP ==> s.slots[SlotOf(k)] == s.log[k]
  }

  ghost predicate CountsInv(s: State)
    requires Base(s)
  {
    && (forall w | 0 <= w < |s.workers| :: WorkerOk(s, w))
    && |s.log| + (if s.claimed then 1 else 0) <= s.floor + QUEUE_CAP
    && (forall k | 0 <= k < |s.log| :: Held(s, k))
  }

  // ---- fences ------------------------------------------------------------------------------

  /** A worker past a command's fence has seen every count the fence names. */
  ghost predicate FencesInv(s: State)
    requires Base(s)
  {
    && (forall v: nat, k: nat, w: nat | Started(s, v, k) && 0 <= w < |s.workers| && w != v ::
          FenceOn(N(s), v, w, s.log[k]) <= s.workers[w].ran)
    && (forall v: nat, w: nat | 0 <= v < |s.workers| && s.workers[v].phase.Fencing? && s.workers[v].ran < |s.log|
                      && 0 <= w < s.workers[v].phase.next && w < |s.workers| && w != v ::
          FenceOn(N(s), v, w, s.log[s.workers[v].ran]) <= s.workers[w].ran)
  }

  function NearFence(d: Slot): nat { if d.near > d.fence then d.near else d.fence }

  ghost predicate ReadsForeign(s: State, b: Body)
    requires 0 < |s.workers|
  {
    b.CopyOut? && b.copy.Foreign(|s.workers|)
  }

  ghost predicate StoresAt(s: State, k: nat, a: nat) {
    k < |s.log| && s.log[k].body.Stores(a)
  }

  /** What command k's fences guarantee, for the claimed command as for a published one. */
  ghost predicate FencesEnough(s: State, k: nat, d: Slot)
    requires Base(s) && k <= |s.log|
  {
    && d.num == k && d.fence <= k && d.near <= k
    // every row it reads is final
    && (d.body.ToScreen() ==> d.fence == k)
    && (ReadsForeign(s, d.body) ==> !d.body.wipe && (if d.body.copy.NearRows(N(s)) then NearFence(d) == k else d.fence == k))
    // the copy before it is over where it reads
    && (0 < k && ReadsForeign(s, s.log[k - 1].body) ==>
          if s.log[k - 1].body.copy.NearRows(N(s)) then NearFence(d) == k else d.fence == k)
    // every earlier copy to the same byte is over
    && (forall c, a | 0 <= c < k && StoresAt(s, c, a) && d.body.Stores(a) :: c < d.fence || Finished(s, c))
    // its textures are the one-at-a-time run's
    && (d.body.Draw? ==> FeedsRight(s, k, d))
  }

  ghost predicate FeedsRight(s: State, k: nat, d: Slot)
    requires Base(s) && k <= |s.log| && d.body.Draw?
  {
    && |d.body.from| == |d.body.draw.tex|
    && (forall i | 0 <= i < |d.body.from| :: FeedRight(s, k, d.fence, d.body.draw.tex[i], d.body.from[i]))
  }

  ghost predicate FeedRight(s: State, k: nat, fence: nat, t: Texture, o: Origin)
    requires Base(s) && k <= |s.log|
  {
    && TextureOk(t)
    && match o
       case Decoded(bytes) => bytes == Texels(t, At(s, k).mem)
       case Image(c) =>
         && c < fence && c < k && s.log[c].body.CopyOut? && s.log[c].body.image
         && forall i | 0 <= i < |t.at| ::
              s.log[c].body.Stores(t.at[i]) && At(s, k).mem[t.at[i]] == Post(s, c).mem[t.at[i]]
  }

  ghost predicate PlanInv(s: State)
    requires Base(s)
  {
    && (forall k | 0 <= k < |s.log| :: FencesEnough(s, k, s.log[k]))
    && (s.claimed ==> FencesEnough(s, |s.log|, s.slots[SlotOf(|s.log|)])
                      && Listed(s.slots[SlotOf(|s.log|)].body, |s.log|) == Listed(s.todo[0], |s.log|))
    && s.fenceAfter <= |s.log| && s.nearAfter <= |s.log|
    && (!s.claimed && 0 < |s.log| && ReadsForeign(s, s.log[|s.log| - 1].body) ==>
          if s.log[|s.log| - 1].body.copy.NearRows(N(s)) then s.nearAfter == |s.log| else s.fenceAfter == |s.log|)
  }

  // ---- the list of copies ------------------------------------------------------------------

  ghost predicate Spans(s: State, c: nat) {
    c < |s.log| && s.log[c].body.CopyOut? && 0 < s.log[c].body.copy.span
  }

  ghost function Entry(s: State, c: nat): Pending
    requires Spans(s, c)
  {
    Pending(s.log[c].body.copy.dest, s.log[c].body.copy.span, c)
  }

  ghost function Published(s: State): set<Pending> {
    set c | 0 <= c < |s.log| && Spans(s, c) :: Entry(s, c)
  }

  ghost predicate ListInv(s: State)
    requires Base(s)
  {
    && Ordered(s.pending) && HonestBut(s.pending, Published(s), s.suspect)
    && (forall p | p in s.pending :: Spans(s, p.cmd) && p == Entry(s, p.cmd))
    && (forall c: nat | Spans(s, c) && !Finished(s, c) :: Entry(s, c) in s.pending)
    && (forall c: nat | Spans(s, c) :: c <= s.lastCopy)
    && s.lastCopy < |s.log|
  }

  // ---- memory ---------------------------------------------------------------------------------

  /** Command c's store to address a has been made. */
  ghost predicate MemDone(s: State, c: nat, a: nat)
    requires Base(s) && StoresAt(s, c, a)
  {
    var y := s.log[c].body.copy.store[a];
    var w := s.workers[s.log[c].body.copy.Owner(N(s), y)];
    c < w.ran || (w.ran == c && w.phase.Running? && Out(y) in w.phase.done)
  }

  /** Command m is the first that has yet to store a; with m == |log|, none has. */
  ghost predicate Frontier(s: State, m: nat, a: nat)
    requires Base(s)
  {
    && m <= |s.log|
    && (forall c | 0 <= c < m && StoresAt(s, c, a) :: MemDone(s, c, a))
    && (m < |s.log| ==> StoresAt(s, m, a) && !MemDone(s, m, a))
  }

  ghost predicate MemInv(s: State)
    requires Base(s)
  {
    && (forall a: nat, m: nat | a < MEM_BYTES && Frontier(s, m, a) :: s.world.mem[a] == At(s, m).mem[a])
    && (forall c: nat, a: nat | a < MEM_BYTES && StoresAt(s, c, a) && MemDone(s, c, a) :: ImageRight(s, c, a))
  }

  /** A copy's image holds at a what the copy stores there. */
  ghost predicate ImageRight(s: State, c: nat, a: nat)
    requires Base(s) && StoresAt(s, c, a) && a < MEM_BYTES
  {
    assert CommandOk(s, c);
    s.log[c].body.image ==> s.images[c][a] == Post(s, c).mem[a]
  }

  /** No command from c + 1 up to j - 1 stores to a. */
  ghost predicate NoStore(s: State, c: nat, j: nat, a: nat) {
    forall d | c < d < j :: !StoresAt(s, d, a)
  }

  ghost predicate ChainInv(s: State)
    requires Base(s)
  {
    // nothing but commands changes the frame buffer and the screen
    && (forall k | 0 <= k < |s.log| :: At(s, k + 1).efb == Post(s, k).efb && At(s, k + 1).screen == Post(s, k).screen)
    // nor a byte a queued copy has yet to store, or a listed one has stored
    && (forall c: nat, j: nat, a: nat | c < j <= |s.log| && StoresAt(s, c, a) && a < MEM_BYTES && !MemDone(s, c, a)
          && NoStore(s, c, j, a) :: At(s, j).mem[a] == Post(s, c).mem[a])
    && (forall p, a: nat | p in s.pending && StoresAt(s, p.cmd, a) && a < MEM_BYTES && a !in s.suspect && NoStore(s, p.cmd, |s.log|, a) ::
          s.now.mem[a] == Post(s, p.cmd).mem[a])
  }

  // ---- rows -----------------------------------------------------------------------------------

  /** What row y of the frame buffer must be, by its owner's progress. */
  ghost function RowNow(s: State, y: nat): Row
    requires Base(s) && CountsInv(s) && y < EFB_ROWS
  {
    var w := y % N(s);
    var v := s.workers[w];
    assert WorkerOk(s, w);
    if v.phase.Running? && Own(y) in v.phase.done then Post(s, v.ran).efb[y] else At(s, v.ran).efb[y]
  }

  ghost function ScreenNow(s: State, y: nat): Row
    requires Base(s) && CountsInv(s) && y < EFB_ROWS
  {
    var w := y % N(s);
    var v := s.workers[w];
    assert WorkerOk(s, w);
    if v.phase.Running? && s.log[v.ran].body.ToScreen() && Out(y) in v.phase.done then Post(s, v.ran).screen[y]
    else At(s, v.ran).screen[y]
  }

  ghost predicate RowsInv(s: State)
    requires Base(s) && CountsInv(s)
  {
    forall y | 0 <= y < EFB_ROWS :: s.world.efb[y] == RowNow(s, y) && s.world.screen[y] == ScreenNow(s, y)
  }

  // ---- the operations ----------------------------------------------------------------------------

  ghost predicate OpsInv(s: State)
    requires Base(s)
  {
    && BodiesOk(s.todo) && OpsOk(s.ops)
    && RunBodies(s.todo, s.now) == RunOps(s.ops, s.start)
    && (forall i | 0 <= i < |s.todo| :: ReadsForeign(s, s.todo[i]) ==> !s.todo[i].wipe)
    && (s.claimed ==> RunBody(s.slots[SlotOf(|s.log|)].body, s.now) == RunBody(s.todo[0], s.now))
  }

  ghost predicate Inv(s: State) {
    && Base(s) && CountsInv(s) && FencesInv(s) && PlanInv(s) && ListInv(s)
    && MemInv(s) && ChainInv(s) && RowsInv(s) && OpsInv(s)
  }

  // ---- consequences ---------------------------------------------------------------------------------

  lemma FenceFact(s: State, v: nat, k: nat, w: nat)
    requires Base(s) && FencesInv(s) && Started(s, v, k) && w < |s.workers| && w != v
    ensures FenceOn(N(s), v, w, s.log[k]) <= s.workers[w].ran
  {
  }

  lemma PlanFact(s: State, k: nat)
    requires Base(s) && PlanInv(s) && k < |s.log|
    ensures FencesEnough(s, k, s.log[k])
  {
  }

  lemma WorkerFact(s: State, w: nat)
    requires Base(s) && CountsInv(s) && w < |s.workers|
    ensures WorkerOk(s, w)
  {
  }

  /** A worker always finds the command it asks for in its slot. */
  lemma SlotFound(s: State, w: nat)
    requires Base(s) && CountsInv(s) && w < |s.workers| && s.workers[w].ran < |s.log|
    ensures s.slots[SlotOf(s.workers[w].ran)] == s.log[s.workers[w].ran]
    ensures s.log[s.workers[w].ran].num == s.workers[w].ran
  {
    WorkerFact(s, w);
    assert Held(s, s.workers[w].ran);
    assert CommandOk(s, s.workers[w].ran);
  }

  /** A worker past the fence of d, which stores to a, knows every earlier store to a is made. */
  lemma StoreOrder(s: State, c: nat, d: nat, a: nat, v: nat)
    requires Base(s) && CountsInv(s) && FencesInv(s) && PlanInv(s)
    requires c < d && StoresAt(s, c, a) && StoresAt(s, d, a) && Started(s, v, d)
    ensures MemDone(s, c, a) && Finished(s, c)
  {
    PlanFact(s, d);
    hide PlanInv, CountsInv;
    assert c < s.log[d].fence || Finished(s, c);
    hide FencesEnough;
    forall w | 0 <= w < |s.workers|
      ensures c < s.workers[w].ran
    {
      if c < s.log[d].fence && w != v {
        FenceFact(s, v, d, w);
      }
    }
  }

  lemma DoneStarted(s: State, d: nat, a: nat) returns (v: nat)
    requires Base(s) && StoresAt(s, d, a) && MemDone(s, d, a)
    ensures Started(s, v, d)
  {
    v := s.log[d].body.copy.Owner(N(s), s.log[d].body.copy.store[a]);
  }

  /** What a command's fences guarantee survives any step that keeps the past. */
  lemma EnoughCarries(s: State, s': State, k: nat, d: Slot)
    requires Base(s) && Base(s') && k <= |s.log| <= |s'.log| && N(s') == N(s)
    requires forall i | 0 <= i < |s.log| :: s'.log[i] == s.log[i] && Post(s', i) == Post(s, i)
    requires At(s', k) == At(s, k)
    requires forall c: nat | Finished(s, c) :: Finished(s', c)
    requires FencesEnough(s, k, d)
    ensures FencesEnough(s', k, d)
  {
    if d.body.Draw? {
      forall i | 0 <= i < |d.body.from|
        ensures FeedRight(s', k, d.fence, d.body.draw.tex[i], d.body.from[i])
      {
        assert FeedRight(s, k, d.fence, d.body.draw.tex[i], d.body.from[i]);
      }
    }
    hide Finished, Post, At;
    forall c, a | 0 <= c < k && StoresAt(s', c, a) && d.body.Stores(a)
      ensures c < d.fence || Finished(s', c)
    {
      assert StoresAt(s, c, a);
    }
  }

  /** A copy with a span is listed until every worker has finished it. */
  lemma ListedOrDone(s: State, c: nat)
    requires Base(s) && ListInv(s) && Spans(s, c)
    ensures Finished(s, c) || Entry(s, c) in s.pending
  {
  }

  /** A byte a command stores lies in its span. */
  lemma StoreSpans(s: State, c: nat, a: nat)
    requires Base(s) && StoresAt(s, c, a)
    ensures a < MEM_BYTES && Spans(s, c) && s.log[c].body.copy.dest <= a < s.log[c].body.copy.dest + s.log[c].body.copy.span
  {
    assert CommandOk(s, c);
  }
}
