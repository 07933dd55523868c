/**
  Claiming a slot and publishing a command keep the queue's invariant.
 */
module QueuePublish {
  import opened CopyGeometry
  import opened Commands
  import opened PendingCopies
  import opened RenderQueue
  import opened QueueInvariant
  import opened QueueWorkers
  import opened QueueReads
  import opened QueueRows
  import opened QueueProducer

  // ---- claiming a slot --------------------------------------------------------------------------

  /** Two commands less than a ring apart have different slots. */
  lemma SlotsApart(k: nat, n: nat)
    requires k < n < k + QUEUE_CAP
    ensures SlotOf(k) != SlotOf(n)
  {
  }

  lemma ClaimBase(s: State, s': State, b: Body, floor: nat)
    requires Base(s) && OpsInv(s) && Claim(s, s', b, floor)
    ensures Base(s') && BodyOk(b)
    ensures forall k | 0 <= k <= |s.log| :: At(s', k) == At(s, k)
    ensures forall k | 0 <= k < |s.log| :: Post(s', k) == Post(s, k)
  {
    forall k | 0 <= k < |s.log| ensures CommandOk(s', k) && CommandOk(s, k) { assert CommandOk(s, k); }
    assert BodyOk(s.todo[0]);
    hide RunBody, RunBodies, RunOps;
  }

  lemma ClaimCounts(s: State, s': State, b: Body, floor: nat)
    requires Base(s) && Base(s') && CountsInv(s) && FencesInv(s) && Claim(s, s', b, floor)
    ensures CountsInv(s') && FencesInv(s')
  {
    hide Resolves, Fenced;
    forall w | 0 <= w < |s'.workers| ensures WorkerOk(s', w) { assert WorkerOk(s, w); }
    forall k | 0 <= k < |s.log|
      ensures Held(s', k)
    {
      assert Held(s, k);
      if |s.log| < k + QUEUE_CAP {
        SlotsApart(k, |s.log|);
      }
    }
    hide WorkerOk, Held;
    forall v: nat, k: nat | Started(s', v, k) ensures Started(s, v, k) {}
  }

  lemma ClaimMemory(s: State, s': State, b: Body, floor: nat)
    requires Base(s) && MemInv(s) && ChainInv(s) && Base(s') && Claim(s, s', b, floor)
    requires forall k | 0 <= k <= |s.log| :: At(s', k) == At(s, k)
    requires forall k | 0 <= k < |s.log| :: Post(s', k) == Post(s, k)
    ensures MemInv(s') && ChainInv(s')
  {
    hide Resolves, Fenced, RunBody;
    assert forall c: nat, a: nat | StoresAt(s, c, a) :: MemDone(s', c, a) == MemDone(s, c, a);
    SameMemory(s, s');
    hide MemInv;
    forall c: nat, j: nat, a: nat | NoStore(s', c, j, a) ensures NoStore(s, c, j, a) {
      forall d | c < d < j ensures !StoresAt(s, d, a) { assert !StoresAt(s', d, a); }
    }
    forall c: nat, a: nat | StoresAt(s', c, a) ensures StoresAt(s, c, a) {}
    hide MemDone, NoStore, StoresAt;
  }

  lemma ClaimRows(s: State, s': State, b: Body, floor: nat)
    requires Base(s) && CountsInv(s) && RowsInv(s) && Base(s') && CountsInv(s') && Claim(s, s', b, floor)
    requires forall k | 0 <= k <= |s.log| :: At(s', k) == At(s, k)
    requires forall k | 0 <= k < |s.log| :: Post(s', k) == Post(s, k)
    ensures RowsInv(s')
  {
    hide Resolves, Fenced, RunBody, CountsInv, RowsInv;
    forall y | 0 <= y < EFB_ROWS
      ensures s'.world.efb[y] == RowNow(s', y) && s'.world.screen[y] == ScreenNow(s', y)
    {
      WorkerFact(s, y % N(s));
      RowFact(s, y);
    }
    RowsHold(s');
  }

  lemma ClaimList(s: State, s': State, b: Body, floor: nat)
    requires Base(s) && ListInv(s) && Base(s') && Claim(s, s', b, floor)
    ensures ListInv(s')
  {
    hide Resolves, Fenced, HonestBut, Ordered;
    SamePublished(s, s');
    forall p | p in s'.pending ensures Spans(s', p.cmd) && p == Entry(s', p.cmd) {
      assert Spans(s, p.cmd) && p == Entry(s, p.cmd);
    }
    forall c: nat | Spans(s', c) ensures c <= s'.lastCopy { assert Spans(s, c); }
    forall c: nat | Spans(s', c) && !Finished(s', c) ensures Entry(s', c) in s'.pending {
      FinishedSame(s, s', c);
      ListedOrDone(s, c);
    }
  }

  // ---- the claimed command's fences -----------------------------------------------------------------

  lemma Clamped(want: nat, after: nat, n: nat)
    requires after <= n
    ensures var f := FenceOf(n, want, after);
            && after <= f <= n && (want <= n ==> want <= f) && (want == n ==> f == n) && (after == n ==> f == n)
  {
  }

  /** A claimed copy is fenced past every unfinished copy to one of its bytes. */
  lemma OverlapFenced(s: State, b: Body, c: nat, a: nat)
    requires Base(s) && ListInv(s) && PlanInv(s) && BodyOk(b)
    requires StoresAt(s, c, a) && b.Stores(a)
    ensures c < Fenced(s, b).fence || Finished(s, c)
  {
    hide PlanInv;
    StoreSpans(s, c, a);
    ListedOrDone(s, c);
    if !Finished(s, c) {
      NewestIsNewest(s.pending, b.copy.dest, b.copy.span);
      assert Overlaps(Entry(s, c), b.copy.dest, b.copy.span);
    }
  }

  lemma {:induction false} ImageFenced(from: seq<Origin>, i: nat)
    requires i < |from| && from[i].Image?
    ensures from[i].cmd < ImageFence(from)
  {
    if i < |from| - 1 {
      ImageFenced(from[..|from| - 1], i);
    }
  }

  lemma {:induction false} ImageFenceBound(from: seq<Origin>, n: nat)
    requires forall i | 0 <= i < |from| :: from[i].Image? ==> from[i].cmd < n
    ensures ImageFence(from) <= n
  {
    if from != [] {
      ImageFenceBound(from[..|from| - 1], n);
    }
  }

  /** Where the newest listed overlap of a span is finished, the span's bytes are the
      sequential run's. */
  lemma SpanRight(s: State, lo: nat, len: nat, a: nat)
    requires Inv(s) && Finished(s, NewestOverlap(s.pending, lo, len))
    requires lo <= a < lo + len && a < MEM_BYTES
    ensures s.world.mem[a] == s.now.mem[a]
  {
    hide CountsInv, FencesInv, PlanInv, ChainInv, RowsInv, OpsInv, RunBody;
    NewestIsNewest(s.pending, lo, len);
    forall c | 0 <= c < |s.log| && StoresAt(s, c, a)
      ensures MemDone(s, c, a)
    {
      StoreSpans(s, c, a);
      ListedOrDone(s, c);
      if Entry(s, c) in s.pending {
        assert Overlaps(Entry(s, c), lo, len);
        assert Finished(s, c);
      }
    }
    assert Frontier(s, |s.log|, a);
  }

  /** Memory under a texture, once the newest listed copy over it is finished, is final. */
  lemma DecodedRight(s: State, t: Texture, i: nat)
    requires Inv(s) && TextureOk(t) && i < |t.at|
    requires Finished(s, NewestOverlap(s.pending, t.lo, t.bytes))
    ensures s.world.mem[t.at[i]] == s.now.mem[t.at[i]]
  {
    SpanRight(s, t.lo, t.bytes, t.at[i]);
  }

  /** A listed copy that the list names as the newest over its own span is: no later command
      stores any of its bytes. */
  lemma NewestUntouched(s: State, p: Pending, d: nat, a: nat)
    requires Base(s) && ListInv(s) && p in s.pending && NewestOverlap(s.pending, p.addr, p.bytes) == p.cmd
    requires Clean(p.addr, p.bytes, s.suspect)
    requires StoresAt(s, p.cmd, a) && p.cmd < d
    ensures !StoresAt(s, d, a)
  {
    assert Spans(s, p.cmd) && p == Entry(s, p.cmd);
    if StoresAt(s, d, a) {
      StoreSpans(s, d, a);
      StoreSpans(s, p.cmd, a);
      assert Entry(s, d) in Published(s);
      assert Covers(Entry(s, d), p);
    }
  }

  lemma ListedChain(s: State, p: Pending, a: nat)
    requires Base(s) && ChainInv(s) && p in s.pending && StoresAt(s, p.cmd, a) && a < MEM_BYTES
    requires NoStore(s, p.cmd, |s.log|, a) && a !in s.suspect
    ensures s.now.mem[a] == Post(s, p.cmd).mem[a]
  {
  }

  /** The image of the newest listed copy over a texture's span is that texture. */
  lemma ImageRightNow(s: State, t: Texture, c: nat, i: nat)
    requires Inv(s) && FeedOk(s, t, Image(c)) && i < |t.at| && Clean(t.lo, t.bytes, s.suspect)
    ensures t.at[i] < MEM_BYTES && s.now.mem[t.at[i]] == Post(s, c).mem[t.at[i]]
  {
    hide CountsInv, FencesInv, PlanInv, MemInv, ChainInv, RowsInv, OpsInv, RunBody;
    var a := t.at[i];
    assert StoresAt(s, c, a);
    StoreSpans(s, c, a);
    NewestIsNewest(s.pending, t.lo, t.bytes);
    var p :| p in s.pending && p.cmd == c;
    assert Spans(s, c) && p == Entry(s, c);
    forall d | c < d < |s.log| ensures !StoresAt(s, d, a) { NewestUntouched(s, p, d, a); }
    hide ListInv;
    ListedChain(s, p, a);
  }

  lemma FeedsClaimed(s: State, s': State, b: Body, floor: nat)
    requires Inv(s) && Base(s') && Claim(s, s', b, floor) && TakesNoSuspect(s, b) && b.Draw? && BodyOk(b)
    requires At(s', |s.log|) == At(s, |s.log|) && forall k | 0 <= k < |s.log| :: Post(s', k) == Post(s, k)
    ensures FeedsRight(s', |s.log|, Fenced(s, b))
    ensures ImageFence(b.from) <= |s.log|
  {
    var d := Fenced(s, b);
    forall i | 0 <= i < |b.from|
      ensures b.from[i].Image? ==> b.from[i].cmd < |s.log|
    {
      assert FeedOk(s, b.draw.tex[i], b.from[i]);
    }
    ImageFenceBound(b.from, |s.log|);
    hide CountsInv, FencesInv, MemInv, ChainInv, ListInv, RowsInv, OpsInv, RunBody;
    assert s.fenceAfter <= |s.log|;
    Clamped(Want(s, b), s.fenceAfter, |s.log|);
    hide PlanInv;
    forall i | 0 <= i < |b.from|
      ensures FeedRight(s', |s.log|, d.fence, b.draw.tex[i], b.from[i])
    {
      var t, o := b.draw.tex[i], b.from[i];
      assert FeedOk(s, t, o) && TextureOk(t);
      if o.Image? {
        ImageFenced(b.from, i);
        forall j | 0 <= j < |t.at|
          ensures s.now.mem[t.at[j]] == Post(s, o.cmd).mem[t.at[j]]
        {
          ImageRightNow(s, t, o.cmd, j);
        }
      } else {
        forall j | 0 <= j < |t.at|
          ensures s.world.mem[t.at[j]] == s.now.mem[t.at[j]]
        {
          DecodedRight(s, t, j);
        }
      }
    }
  }

  lemma ClaimEnough(s: State, s': State, b: Body, floor: nat)
    requires Inv(s) && Base(s') && Claim(s, s', b, floor) && TakesNoSuspect(s, b) && BodyOk(b)
    requires At(s', |s.log|) == At(s, |s.log|) && forall k | 0 <= k < |s.log| :: Post(s', k) == Post(s, k)
    ensures FencesEnough(s', |s.log|, Fenced(s, b))
  {
    hide CountsInv, FencesInv, MemInv, ChainInv, RowsInv, RunBody, FeedsRight, Finished, TakesNoSuspect, HonestBut, Ordered;
    var n := |s.log|;
    if b.Draw? {
      FeedsClaimed(s, s', b, floor);
    }
    forall c, a | 0 <= c < n && StoresAt(s', c, a) && b.Stores(a)
      ensures c < Fenced(s, b).fence || Finished(s', c)
    {
      assert StoresAt(s, c, a);
      OverlapFenced(s, b, c, a);
      assert Finished(s, c) ==> Finished(s', c) by { FinishedSame(s, s', c); }
    }
    hide ListInv, StoresAt, RunBodies, RunOps, FeedOk;
    Clamped(Want(s, b), s.fenceAfter, n);
    Clamped(WantNear(s, b), s.nearAfter, n);
  }

  lemma FinishedSame(s: State, s': State, c: int)
    requires s'.workers == s.workers
    ensures Finished(s', c) == Finished(s, c)
  {
  }

  lemma ClaimPlan(s: State, s': State, b: Body, floor: nat)
    requires Inv(s) && Base(s') && Claim(s, s', b, floor) && TakesNoSuspect(s, b) && BodyOk(b)
    ensures PlanInv(s')
  {
    ClaimBase(s, s', b, floor);
    ClaimEnough(s, s', b, floor);
    hide CountsInv, FencesInv, MemInv, ChainInv, RowsInv, ListInv, OpsInv, RunBody, FencesEnough, Fenced, FeedOk;
    forall c: nat | Finished(s, c) ensures Finished(s', c) {}
    forall k | 0 <= k < |s.log|
      ensures FencesEnough(s', k, s'.log[k])
    {
      PlanFact(s, k);
      EnoughCarries(s, s', k, s.log[k]);
    }
  }

  lemma ClaimOps(s: State, s': State, b: Body, floor: nat)
    requires Base(s) && OpsInv(s) && Base(s') && Claim(s, s', b, floor) && BodyOk(b)
    ensures OpsInv(s')
  {
    hide Fenced;
    assert s'.slots[SlotOf(|s.log|)].body == b by { FencedBody(s, b); }
  }

  lemma FencedBody(s: State, b: Body)
    requires 0 < |s.workers|
    ensures Fenced(s, b).body == b
  {
  }

  lemma ClaimKeeps(s: State, s': State, b: Body, floor: nat)
    requires Inv(s) && Claim(s, s', b, floor) && TakesNoSuspect(s, b)
    ensures Inv(s')
  {
    hide CountsInv, FencesInv, PlanInv, MemInv, ChainInv, ListInv, RowsInv, OpsInv;
    ClaimBase(s, s', b, floor);
    ClaimCounts(s, s', b, floor);
    ClaimMemory(s, s', b, floor);
    ClaimRows(s, s', b, floor);
    ClaimList(s, s', b, floor);
    ClaimPlan(s, s', b, floor);
    ClaimOps(s, s', b, floor);
  }

  // ---- publishing ----------------------------------------------------------------------------------

  lemma PublishBase(s: State, s': State, image: seq<int>)
    requires Base(s) && PlanInv(s) && Publish(s, s', image)
    ensures Base(s') && |s'.log| == |s.log| + 1
    ensures forall k | 0 <= k < |s.log| :: s'.log[k] == s.log[k] && Post(s', k) == Post(s, k)
    ensures forall k | 0 <= k <= |s.log| :: At(s', k) == At(s, k)
    ensures At(s', |s.log| + 1) == Post(s', |s.log|) == RunBody(s'.log[|s.log|].body, s.now)
    ensures FencesEnough(s, |s.log|, s'.log[|s.log|])
  {
    hide RunBody;
    forall k | 0 <= k < |s'.log|
      ensures CommandOk(s', k)
    {
      if k < |s.log| {
        assert CommandOk(s, k);
      }
    }
  }

  lemma PublishCounts(s: State, s': State, image: seq<int>)
    requires Base(s) && Base(s') && CountsInv(s) && FencesInv(s) && Publish(s, s', image)
    ensures CountsInv(s') && FencesInv(s')
  {
    hide RunBody, Listed;
    forall w | 0 <= w < |s'.workers| ensures WorkerOk(s', w) { assert WorkerOk(s, w); }
    forall k | 0 <= k < |s'.log|
      ensures Held(s', k)
    {
      if k < |s.log| {
        assert Held(s, k);
      }
    }
    forall v: nat, k: nat | Started(s', v, k)
      ensures Started(s, v, k)
    {
      assert WorkerOk(s, v);
    }
    forall v | 0 <= v < |s.workers| && s.workers[v].phase.Fencing?
      ensures s.workers[v].ran < |s.log|
    {
      assert WorkerOk(s, v);
    }
    hide WorkerOk, Held;
  }

  lemma PublishPlan(s: State, s': State, image: seq<int>)
    requires Base(s) && PlanInv(s) && Publish(s, s', image)
    ensures Base(s') && PlanInv(s')
  {
    PublishBase(s, s', image);
    hide RunBody, FencesEnough, Listed;
    forall c: nat | Finished(s, c) ensures Finished(s', c) {}
    forall k | 0 <= k < |s'.log|
      ensures FencesEnough(s', k, s'.log[k])
    {
      EnoughCarries(s, s', k, s'.log[k]);
    }
  }

  lemma PublishedGrows(s: State, s': State)
    requires |s'.log| == |s.log| + 1 && forall k | 0 <= k < |s.log| :: s'.log[k] == s.log[k]
    ensures Published(s') == Published(s) + if Spans(s', |s.log|) then {Entry(s', |s.log|)} else {}
  {
    forall p | p in Published(s)
      ensures p in Published(s')
    {
      var c :| 0 <= c < |s.log| && Spans(s, c) && Entry(s, c) == p;
      assert Spans(s', c) && Entry(s', c) == p;
    }
    forall p | p in Published(s')
      ensures p in Published(s) || (Spans(s', |s.log|) && p == Entry(s', |s.log|))
    {
      var c :| 0 <= c < |s'.log| && Spans(s', c) && Entry(s', c) == p;
      if c < |s.log| {
        assert Spans(s, c) && Entry(s, c) == p;
      }
    }
  }

  lemma PublishList(s: State, s': State, image: seq<int>)
    requires Base(s) && ListInv(s) && PlanInv(s) && Publish(s, s', image)
    ensures Base(s') && ListInv(s')
  {
    PublishBase(s, s', image);
    var n := |s.log|;
    PublishedGrows(s, s');
    hide RunBody, PlanInv, FencesEnough, Base;
    forall p | p in s.pending ensures p in Published(s) && Spans(s', p.cmd) && p == Entry(s', p.cmd) {
      assert Spans(s, p.cmd) && p == Entry(s, p.cmd);
    }
    if Spans(s', n) {
      forall p | p in Published(s) ensures p.cmd < n {}
      AppendHonest(s.pending, Published(s), s.suspect, Entry(s', n));
      assert s'.pending == s.pending + [Entry(s', n)];
    } else {
      assert s'.pending == s.pending;
    }
    hide HonestBut, Ordered, Published;
    forall c: nat | Spans(s', c) && !Finished(s', c)
      ensures Entry(s', c) in s'.pending
    {
      if c < n {
        assert Spans(s, c) && !Finished(s, c) && Entry(s, c) in s.pending;
      }
    }
    forall c: nat | Spans(s', c)
      ensures c <= s'.lastCopy
    {
      if c < n {
        assert Spans(s, c);
      }
    }
  }

  lemma PublishMemory(s: State, s': State, image: seq<int>)
    requires Inv(s) && Base(s') && Publish(s, s', image)
    ensures MemInv(s')
  {
    PublishBase(s, s', image);
    var n := |s.log|;
    forall w | 0 <= w < |s.workers| ensures s.workers[w].ran <= n && (s.workers[w].ran == n ==> s.workers[w].phase == Idle) {
      WorkerFact(s, w);
    }
    hide CountsInv, FencesInv, PlanInv, ChainInv, ListInv, RowsInv, OpsInv, RunBody, Listed, FencesEnough;
    forall c: nat, a: nat | StoresAt(s', c, a)
      ensures if c < n then StoresAt(s, c, a) && MemDone(s', c, a) == MemDone(s, c, a) else !MemDone(s', c, a)
    {
      assert CommandOk(s', c);
      if c < n {
        assert StoresAt(s, c, a);
      }
    }
    forall m: nat, a: nat | a < MEM_BYTES && Frontier(s', m, a)
      ensures s'.world.mem[a] == At(s', m).mem[a]
    {
      PublishFrontier(s, s', image, m, a);
    }
    hide MemDone;
    forall c: nat, a: nat | a < MEM_BYTES && StoresAt(s', c, a) && MemDone(s', c, a)
      ensures ImageRight(s', c, a)
    {
      assert c < n && StoresAt(s, c, a) && ImageRight(s, c, a);
    }
  }

  lemma PublishFrontier(s: State, s': State, image: seq<int>, m: nat, a: nat)
    requires Inv(s) && Base(s') && Publish(s, s', image)
    requires forall c: nat | StoresAt(s', c, a) ::
               if c < |s.log| then StoresAt(s, c, a) && MemDone(s', c, a) == MemDone(s, c, a) else !MemDone(s', c, a)
    requires a < MEM_BYTES && Frontier(s', m, a)
    ensures s'.world.mem[a] == At(s', m).mem[a]
  {
    PublishBase(s, s', image);
    hide CountsInv, FencesInv, PlanInv, ChainInv, ListInv, RowsInv, OpsInv, RunBody, Listed, FencesEnough, MemDone;
    var n := |s.log|;
    var k := if m <= n then m else n;
    forall c | 0 <= c < k && StoresAt(s, c, a) ensures MemDone(s, c, a) { assert StoresAt(s', c, a); }
    assert Frontier(s, k, a);
    if m == n + 1 {
      assert !StoresAt(s', n, a);
      BodyBytes(s'.log[n].body, s.now, a);
    }
  }

  lemma PublishChain(s: State, s': State, image: seq<int>)
    requires Inv(s) && Base(s') && Publish(s, s', image)
    ensures ChainInv(s')
  {
    hide CountsInv, FencesInv, PlanInv, MemInv, RowsInv, OpsInv, RunBody, FencesEnough, HonestBut, Ordered;
    PublishBase(s, s', image);
    var n := |s.log|;
    forall k | 0 <= k < |s'.log|
      ensures At(s', k + 1).efb == Post(s', k).efb && At(s', k + 1).screen == Post(s', k).screen
    {
      if k < n {
        ChainFact(s, k);
      }
    }
    forall c: nat, j: nat, a: nat | c < j <= n + 1 && StoresAt(s', c, a) && a < MEM_BYTES && !MemDone(s', c, a) && NoStore(s', c, j, a)
      ensures At(s', j).mem[a] == Post(s', c).mem[a]
    {
      if c < n {
        ChainByte(s, s', image, c, j, a);
      }
    }
    forall p, a: nat | p in s'.pending && StoresAt(s', p.cmd, a) && a < MEM_BYTES && a !in s'.suspect && NoStore(s', p.cmd, n + 1, a)
      ensures s'.now.mem[a] == Post(s', p.cmd).mem[a]
    {
      if p.cmd != n {
        assert p in s.pending;
        assert Spans(s, p.cmd);
        assert StoresAt(s, p.cmd, a);
        NoStoreBefore(s, s', p.cmd, n + 1, n, a);
        assert !StoresAt(s', n, a);
        BodyBytes(s'.log[n].body, s.now, a);
      }
    }
  }

  /** A byte command c has yet to store stays as the one-at-a-time run left it, past the new
      command too. */
  lemma ChainByte(s: State, s': State, image: seq<int>, c: nat, j: nat, a: nat)
    requires Inv(s) && Base(s') && Publish(s, s', image) && c < |s.log|
    requires c < j <= |s.log| + 1 && StoresAt(s', c, a) && a < MEM_BYTES && !MemDone(s', c, a) && NoStore(s', c, j, a)
    ensures At(s', j).mem[a] == Post(s', c).mem[a]
  {
    PublishBase(s, s', image);
    hide CountsInv, FencesInv, PlanInv, MemInv, RowsInv, OpsInv, ListInv, RunBody, FencesEnough;
    var n := |s.log|;
    var i := if j <= n then j else n;
    assert StoresAt(s, c, a) && !MemDone(s, c, a);
    NoStoreBefore(s, s', c, j, i, a);
    assert At(s, i).mem[a] == Post(s, c).mem[a];
    if j == n + 1 {
      assert !StoresAt(s', n, a);
      BodyBytes(s'.log[n].body, s.now, a);
    }
  }

  lemma NoStoreBefore(s: State, s': State, c: nat, j: nat, i: nat, a: nat)
    requires |s'.log| == |s.log| + 1 && forall k | 0 <= k < |s.log| :: s'.log[k] == s.log[k]
    requires NoStore(s', c, j, a) && i <= j
    ensures NoStore(s, c, i, a)
  {
    forall d | c < d < i ensures !StoresAt(s, d, a) { assert !StoresAt(s', d, a); }
  }

  lemma PublishRows(s: State, s': State, image: seq<int>)
    requires Inv(s) && Base(s') && CountsInv(s') && Publish(s, s', image)
    ensures RowsInv(s')
  {
    PublishBase(s, s', image);
    hide CountsInv, FencesInv, PlanInv, MemInv, ChainInv, ListInv, OpsInv, RunBody, Listed, FencesEnough, RowsInv;
    forall y | 0 <= y < EFB_ROWS
      ensures s'.world.efb[y] == RowNow(s', y) && s'.world.screen[y] == ScreenNow(s', y)
    {
      WorkerFact(s, y % N(s));
      RowFact(s, y);
    }
    RowsHold(s');
  }

  lemma PublishOps(s: State, s': State, image: seq<int>)
    requires Base(s) && OpsInv(s) && PlanInv(s) && Publish(s, s', image)
    ensures Base(s') && OpsInv(s')
  {
    PublishBase(s, s', image);
    hide PlanInv, FencesEnough, RunBody;
    assert BodyOk(s.todo[0]);
  }

  lemma PublishKeeps(s: State, s': State, image: seq<int>)
    requires Inv(s) && Publish(s, s', image)
    ensures Inv(s')
  {
    hide CountsInv, FencesInv, PlanInv, MemInv, ChainInv, ListInv, RowsInv, OpsInv, RunBody;
    PublishBase(s, s', image);
    PublishCounts(s, s', image);
    PublishPlan(s, s', image);
    PublishList(s, s', image);
    PublishMemory(s, s', image);
    PublishChain(s, s', image);
    PublishRows(s, s', image);
    PublishOps(s, s', image);
  }
}
