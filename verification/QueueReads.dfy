/**
  What a worker reads of other workers' rows, images and bytes while it runs a command is
  what the one-at-a-time run reads: this is where the fences earn their keep.
 */
module QueueReads {
  import opened Arithmetic
  import opened CopyGeometry
  import opened Commands
  import opened RenderQueue
  import opened QueueInvariant

  // ---- who owns a row a copy reads ------------------------------------------------------------

  lemma {:induction false} ModAdd(q: nat, x: nat, n: nat)
    requires 0 < n
    ensures (Times(q, n) + x) % n == x % n
    decreases q
  {
    if 0 < q {
      ModAdd(q - 1, x, n);
      assert Times(q, n) == Times(q - 1, n) + n;
      ModShift(Times(q - 1, n) + x, n);
    }
  }

  lemma ModShift(x: nat, n: nat)
    requires 0 < n
    ensures (x + n) % n == x % n
  {
    Split(x, n);
    DivMod(Quotient(x, n) + 1, Remainder(x, n), n);
    assert Times(Quotient(x, n) + 1, n) == Times(Quotient(x, n), n) + n;
    assert Remainder(x + n, n) == Remainder(x, n);
  }

  lemma ModSucc(x: nat, n: nat)
    requires 0 < n
    ensures (x + 1) % n == if x % n + 1 == n then 0 else x % n + 1
  {
    Split(x, n);
    var q, r := Quotient(x, n), Remainder(x, n);
    if r + 1 == n {
      DivMod(q + 1, 0, n);
      assert Times(q + 1, n) == Times(q, n) + n;
      assert Remainder(x + 1, n) == 0;
    } else {
      DivMod(q, r + 1, n);
      assert Remainder(x + 1, n) == r + 1;
    }
  }

  lemma NeighbourBack(n: nat, v: nat, w: nat)
    requires v < n && w < n && Neighbour(n, v, w)
    ensures Neighbour(n, w, v)
  {
  }

  lemma SourceOwner(c: Copy, n: nat, y: nat)
    requires 0 < n && (!c.Foreign(n) || c.NearRows(n)) && !c.half
    ensures c.Source(y) % n == c.Owner(n, y)
  {
    if n == 1 {
    } else {
      Split(c.y0, n);
      ModAdd(Quotient(c.y0, n), y, n);
    }
  }

  /** A row a copy reads that another worker owns: the copy is foreign, and if only for its
      filter, the other worker is a neighbour. */
  lemma TapOwner(c: Copy, n: nat, y: nat, r: nat)
    requires 0 < n && CopyOk(c)
    requires r == c.Above(y) || r == c.Source(y) || r == c.Below(y)
    requires r % n != c.Owner(n, y)
    ensures c.Foreign(n)
    ensures c.NearRows(n) ==> Neighbour(n, c.Owner(n, y), r % n)
  {
    if !c.Foreign(n) {
      SourceOwner(c, n, y);
    }
    if c.NearRows(n) {
      SourceOwner(c, n, y);
      if r == c.Source(y) + 1 {
        ModSucc(c.Source(y), n);
      } else {
        assert r == c.Source(y) - 1;
        ModSucc(r, n);
      }
    }
  }

  // ---- the rows -----------------------------------------------------------------------------------

  ghost predicate Reading(s: State, w: nat, y: nat) {
    && Base(s) && w < |s.workers| && s.workers[w].phase.Running? && s.workers[w].ran < |s.log|
    && var b := s.log[s.workers[w].ran].body;
       && b.CopyOut? && IsTask(|s.workers|, w, b, Out(y)) && Out(y) !in s.workers[w].phase.done
  }

  /** The worker that owns a row being read is on this command or has just finished it. */
  lemma OwnerNear(s: State, w: nat, y: nat, r: nat)
    requires Reading(s, w, y) && CountsInv(s) && FencesInv(s) && PlanInv(s) && r < EFB_ROWS
    requires var c := s.log[s.workers[w].ran].body.copy; r == c.Above(y) || r == c.Source(y) || r == c.Below(y)
    requires r % N(s) != w
    ensures var k, v := s.workers[w].ran, s.workers[r % N(s)];
            && ReadsForeign(s, s.log[k].body) && !s.log[k].body.wipe
            && (v.ran == k || (v.ran == k + 1 && !v.phase.Running?))
  {
    var k, u := s.workers[w].ran, r % N(s);
    var d := s.log[k];
    WorkerFact(s, u);
    assert CommandOk(s, k);
    TapOwner(d.body.copy, N(s), y, r);
    PlanFact(s, k);
    FenceFact(s, w, k, u);
    assert k <= s.workers[u].ran;
    if Started(s, u, k + 1) {
      PlanFact(s, k + 1);
      FenceFact(s, u, k + 1, w);
      if d.body.copy.NearRows(N(s)) {
        NeighbourBack(N(s), w, u);
      }
      assert false;
    }
  }

  lemma RowFact(s: State, y: nat)
    requires Base(s) && CountsInv(s) && RowsInv(s) && y < EFB_ROWS
    ensures s.world.efb[y] == RowNow(s, y) && s.world.screen[y] == ScreenNow(s, y)
  {
  }

  lemma ChainFact(s: State, k: nat)
    requires Base(s) && ChainInv(s) && k < |s.log|
    ensures At(s, k + 1).efb == Post(s, k).efb && At(s, k + 1).screen == Post(s, k).screen
  {
  }

  /** Every row a copy reads is the one-at-a-time run's. */
  lemma RowRead(s: State, w: nat, y: nat, r: nat)
    requires Reading(s, w, y) && CountsInv(s) && FencesInv(s) && PlanInv(s) && ChainInv(s) && RowsInv(s)
    requires var c := s.log[s.workers[w].ran].body.copy; r == c.Above(y) || r == c.Source(y) || r == c.Below(y)
    ensures RowOr(s.world.efb, r) == RowOr(At(s, s.workers[w].ran).efb, r)
  {
    hide CountsInv, FencesInv, PlanInv, ChainInv, RowsInv;
    var k := s.workers[w].ran;
    if r < EFB_ROWS {
      var u := r % N(s);
      RowFact(s, r);
      WorkerFact(s, w);
      WorkerFact(s, u);
      ChainFact(s, k);
      if u != w {
        OwnerNear(s, w, y, r);
      }
    }
  }

  lemma RowsRead(s: State, w: nat, y: nat)
    requires Reading(s, w, y) && CountsInv(s) && FencesInv(s) && PlanInv(s) && ChainInv(s) && RowsInv(s)
    ensures var b := s.log[s.workers[w].ran].body;
            var was := At(s, s.workers[w].ran).efb;
            && Shown(b.copy, s.world.efb, y) == Shown(b.copy, was, y)
            && forall a, v | a in b.copy.store && b.copy.store[a] == y ::
                 Stored(b.copy, s.world.efb, a, v) == Stored(b.copy, was, a, v)
  {
    var c := s.log[s.workers[w].ran].body.copy;
    RowRead(s, w, y, c.Above(y));
    RowRead(s, w, y, c.Source(y));
    RowRead(s, w, y, c.Below(y));
  }

  // ---- bytes and images --------------------------------------------------------------------------------

  /** A byte about to be stored holds what the one-at-a-time run has there. */
  lemma ByteRead(s: State, w: nat, y: nat, a: nat)
    requires Reading(s, w, y) && CountsInv(s) && FencesInv(s) && PlanInv(s) && MemInv(s)
    requires var c := s.log[s.workers[w].ran].body.copy; a in c.store && c.store[a] == y
    requires a < MEM_BYTES
    ensures s.world.mem[a] == At(s, s.workers[w].ran).mem[a]
  {
    var k := s.workers[w].ran;
    assert Started(s, w, k);
    forall c | 0 <= c < k && StoresAt(s, c, a)
      ensures MemDone(s, c, a)
    {
      StoreOrder(s, c, k, a, w);
    }
    assert Frontier(s, k, a);
  }

  /** A texture a running draw samples is the one-at-a-time run's. */
  lemma TextureRead(s: State, w: nat, i: nat)
    requires Base(s) && CountsInv(s) && FencesInv(s) && PlanInv(s) && MemInv(s)
    requires w < |s.workers| && s.workers[w].phase.Running? && s.workers[w].ran < |s.log|
    requires var b := s.log[s.workers[w].ran].body; b.Draw? && i < |b.draw.tex|
    ensures var k := s.workers[w].ran;
            var b := s.log[k].body;
            && |b.from| == |b.draw.tex| && TextureOk(b.draw.tex[i])
            && TexelsFrom(b.from[i], b.draw.tex[i], s.images) == Texels(b.draw.tex[i], At(s, k).mem)
  {
    var k := s.workers[w].ran;
    var d := s.log[k];
    PlanFact(s, k);
    assert FeedRight(s, k, d.fence, d.body.draw.tex[i], d.body.from[i]);
    var t, o := d.body.draw.tex[i], d.body.from[i];
    if o.Image? {
      assert CommandOk(s, o.cmd);
      forall u | 0 <= u < |s.workers|
        ensures o.cmd < s.workers[u].ran
      {
        if u != w {
          FenceFact(s, w, k, u);
        }
      }
      forall j | 0 <= j < |t.at|
        ensures s.images[o.cmd][t.at[j]] == At(s, k).mem[t.at[j]]
      {
        assert StoresAt(s, o.cmd, t.at[j]) && MemDone(s, o.cmd, t.at[j]);
        assert ImageRight(s, o.cmd, t.at[j]);
      }
    }
  }

  lemma TexturesRead(s: State, w: nat)
    requires Base(s) && CountsInv(s) && FencesInv(s) && PlanInv(s) && MemInv(s)
    requires w < |s.workers| && s.workers[w].phase.Running? && s.workers[w].ran < |s.log|
    ensures var b := s.log[s.workers[w].ran].body;
            BodyOk(b) && Fed(b, s.images) == TexelsOf(b, At(s, s.workers[w].ran).mem)
  {
    var k := s.workers[w].ran;
    var b := s.log[k].body;
    assert CommandOk(s, k);
    if b.Draw? {
      forall i | 0 <= i < |b.draw.tex|
        ensures Fed(b, s.images)[i] == TexelsOf(b, At(s, k).mem)[i]
      {
        TextureRead(s, w, i);
      }
    }
  }
}
