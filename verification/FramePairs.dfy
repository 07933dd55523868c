/**
  Frame pairing (pair_slot, pair_claim, pair_match): a frame's draws are recorded by key in
  an open-addressed table of chains, and the next frame's draws each take the nearest of the
  first 32 of their key not yet taken. Draw centres are any points, and nearness any
  ordered distance.
 */
module FramePairs {
  const PAIR_DRAWS: nat := 16384
  const PAIR_SLOTS: nat := 32768
  const PAIR_VERTS: nat := 262144
  const PAIR_LOOK: nat := 32
  const NONE: nat := 0xFFFF_FFFF

  datatype Rec = Rec(key: nat, count: nat, off: nat, next: nat, centre: nat, ortho: bool)

  /** `count` 0 is an empty slot; `head` is the oldest record not yet matched. */
  datatype Slot = Slot(key: nat, count: nat, head: nat, tail: nat)

  const EMPTY: Slot := Slot(0, 0, 0, 0)

  // ---- chains ------------------------------------------------------------------------

  function At(chain: seq<nat>, i: nat): nat { if i < |chain| then chain[i] else NONE }

  /** The slot's chain, in order: from its head each record names the next, and the last none. */
  ghost predicate Chained(rec: seq<Rec>, sl: Slot, chain: seq<nat>) {
    && sl.head == At(chain, 0)
    && (chain != [] ==> sl.tail == chain[|chain| - 1])
    && (forall i: nat | i < |chain| :: chain[i] < |rec| && rec[chain[i]].next == At(chain, i + 1))
  }

  /** Its records are the frame's, of the slot's key, oldest first. */
  ghost predicate OfSlot(rec: seq<Rec>, sl: Slot, chain: seq<nat>, nrec: nat) {
    && (forall i | 0 <= i < |chain| ::
          chain[i] < nrec <= |rec| && rec[chain[i]].key == sl.key && rec[chain[i]].count == sl.count)
    && (forall i, j | 0 <= i < j < |chain| :: chain[i] < chain[j])
  }

  function Without(chain: seq<nat>, k: nat): seq<nat>
    requires k < |chain|
  {
    chain[..k] + chain[k + 1..]
  }

  // ---- the table ----------------------------------------------------------------------------

  function After(i: nat): nat { if i + 1 == PAIR_SLOTS then 0 else i + 1 }

  function Dist(i: nat, j: nat): nat
    requires i < PAIR_SLOTS && j < PAIR_SLOTS
  {
    if i <= j then j - i else j + PAIR_SLOTS - i
  }

  predicate Holds(sl: Slot, key: nat, count: nat) { sl.count != 0 && sl.key == key && sl.count == count }

  /** Every key is reached from its home over slots in use, and no key has two slots. */
  ghost predicate TableOk(slot: seq<Slot>, home: nat -> nat) {
    && |slot| == PAIR_SLOTS && (forall k :: home(k) < PAIR_SLOTS)
    && (forall s: nat, x: nat | s < PAIR_SLOTS && x < PAIR_SLOTS && slot[s].count != 0
          && Dist(home(slot[s].key), x) <= Dist(home(slot[s].key), s) :: slot[x].count != 0)
    && (forall s: nat, t: nat | s < PAIR_SLOTS && t < PAIR_SLOTS && slot[s].count != 0
          && Holds(slot[t], slot[s].key, slot[s].count) :: s == t)
  }

  ghost predicate Known(slot: seq<Slot>, key: nat, count: nat) {
    exists s: nat :: s < |slot| && Holds(slot[s], key, count)
  }

  /** A walk from the home that has met no such key and ends at an empty slot, or has gone all
      round, shows that there is none. */
  lemma WalkIsComplete(slot: seq<Slot>, home: nat -> nat, key: nat, count: nat, n: nat, i: nat)
    requires TableOk(slot, home) && i < PAIR_SLOTS && n <= PAIR_SLOTS
    requires forall x: nat | x < PAIR_SLOTS && Dist(home(key), x) < n :: !Holds(slot[x], key, count)
    requires n == PAIR_SLOTS || (slot[i].count == 0 && Dist(home(key), i) == n)
    ensures !Known(slot, key, count)
  {
    forall s: nat | s < PAIR_SLOTS
      ensures !Holds(slot[s], key, count)
    {
      if n < PAIR_SLOTS && n <= Dist(home(key), s) {
        assert Dist(home(key), i) <= Dist(home(key), s);
      }
    }
  }

  /** A new key in the first empty slot of its walk keeps every key reached. */
  lemma NewKeyKeeps(slot: seq<Slot>, home: nat -> nat, i: nat, sl: Slot)
    requires TableOk(slot, home) && i < PAIR_SLOTS && slot[i].count == 0 && sl.count != 0
    requires !Known(slot, sl.key, sl.count)
    requires forall x: nat | x < PAIR_SLOTS && Dist(home(sl.key), x) < Dist(home(sl.key), i) :: slot[x].count != 0
    ensures TableOk(slot[i := sl], home)
  {
  }

  /** Changing a slot's chain does not touch the table. */
  lemma ChainKeeps(slot: seq<Slot>, home: nat -> nat, i: nat, sl: Slot)
    requires TableOk(slot, home) && i < PAIR_SLOTS && sl.key == slot[i].key && sl.count == slot[i].count
    ensures TableOk(slot[i := sl], home)
  {
  }

  // ---- the choice ------------------------------------------------------------------------------

  /** Element k of the chain is the nearest of its first n, and the first of equals. */
  ghost predicate Nearest(rec: seq<Rec>, chain: seq<nat>, k: nat, n: nat, apart: nat -> int)
    requires ChainIn(rec, chain)
  {
    && k < |chain| && k < n
    && (forall j | 0 <= j < |chain| && j < n :: apart(rec[chain[k]].centre) <= apart(rec[chain[j]].centre))
    && (forall j | 0 <= j < k :: apart(rec[chain[k]].centre) < apart(rec[chain[j]].centre))
  }

  lemma SubsetCounts(a: set<nat>, b: set<nat>)
    requires a <= b
    ensures |a| <= |b|
  {
    assert b == a + (b - a);
  }

  /** A small set misses one of the first n numbers. */
  lemma Missing(a: set<nat>, n: nat) returns (x: nat)
    requires |a| < n
    ensures x < n && x !in a
  {
    if forall y: nat | y < n :: y in a {
      SubsetCounts(UpTo(n), a);
      assert false;
    }
    x :| x < n && x !in a;
  }

  ghost function UpTo(n: nat): (r: set<nat>)
    ensures |r| == n && forall x: nat :: x in r <==> x < n
  {
    if n == 0 then {} else UpTo(n - 1) + {n - 1}
  }

  // ---- what one claim and one match do to a chain -----------------------------------------

  /** A chain none of whose records change keeps. */
  lemma ChainUntouched(rec: seq<Rec>, rec': seq<Rec>, sl: Slot, chain: seq<nat>, nrec: nat, nrec': nat)
    requires Chained(rec, sl, chain) && OfSlot(rec, sl, chain, nrec) && nrec <= nrec' <= |rec'| == |rec|
    requires forall i | 0 <= i < |chain| :: rec'[chain[i]].next == rec[chain[i]].next
                                            && rec'[chain[i]].key == rec[chain[i]].key && rec'[chain[i]].count == rec[chain[i]].count
    ensures Chained(rec', sl, chain) && OfSlot(rec', sl, chain, nrec')
  {
  }

  /** The tail's next, and the new record behind it. */
  lemma ChainGrows(rec: seq<Rec>, sl: Slot, chain: seq<nat>, nrec: nat, r: Rec)
    requires Chained(rec, sl, chain) && OfSlot(rec, sl, chain, nrec) && chain != [] && nrec < |rec|
    requires r.key == sl.key && r.count == sl.count && r.next == NONE
    ensures sl.tail < nrec
    ensures var rec' := rec[nrec := r]; var rec'' := rec'[sl.tail := rec'[sl.tail].(next := nrec)];
            Chained(rec'', sl.(tail := nrec), chain + [nrec]) && OfSlot(rec'', sl.(tail := nrec), chain + [nrec], nrec + 1)
  {
  }

  lemma ChainBegins(rec: seq<Rec>, nrec: nat, r: Rec)
    requires nrec < |rec| && r.next == NONE
    ensures var sl := Slot(r.key, r.count, nrec, nrec);
            Chained(rec[nrec := r], sl, [nrec]) && OfSlot(rec[nrec := r], sl, [nrec], nrec + 1)
  {
  }

  /** What unlinking element k does to the slot and to the record before it. */
  function Unlinked(sl: Slot, chain: seq<nat>, k: nat): Slot
    requires k < |chain|
  {
    var prev := if k == 0 then NONE else chain[k - 1];
    sl.(head := if k == 0 then At(chain, 1) else sl.head, tail := if sl.tail == chain[k] then prev else sl.tail)
  }

  /** And to the record before it. */
  function Relinked(rec: seq<Rec>, chain: seq<nat>, k: nat): (r: seq<Rec>)
    requires k < |chain| && forall i | 0 <= i < |chain| :: chain[i] < |rec|
    ensures |r| == |rec|
    ensures forall x | 0 <= x < |rec| :: r[x] == rec[x] || (0 < k && x == chain[k - 1] && r[x] == rec[x].(next := At(chain, k + 1)))
  {
    if k == 0 then rec else rec[chain[k - 1] := rec[chain[k - 1]].(next := At(chain, k + 1))]
  }

  lemma NextWithout(rec: seq<Rec>, sl: Slot, chain: seq<nat>, nrec: nat, k: nat, i: nat)
    requires Chained(rec, sl, chain) && OfSlot(rec, sl, chain, nrec) && k < |chain| && i + 1 < |chain|
    ensures var left := Without(chain, k);
            i < |left| && left[i] < |rec| && Relinked(rec, chain, k)[left[i]].next == At(left, i + 1)
  {
    hide At, Without;
    WithoutElements(chain, k);
    WithoutAt(chain, k, i + 1);
    var j := if i < k then i else i + 1;
    assert rec[chain[j]].next == At(chain, j + 1);
    assert 0 < k && j != k - 1 ==> chain[j] != chain[k - 1];
  }

  lemma OfSlotShrinks(rec: seq<Rec>, sl: Slot, chain: seq<nat>, nrec: nat, k: nat)
    requires Chained(rec, sl, chain) && OfSlot(rec, sl, chain, nrec) && k < |chain|
    ensures OfSlot(Relinked(rec, chain, k), Unlinked(sl, chain, k), Without(chain, k), nrec)
  {
    hide At, Without, Chained;
    WithoutElements(chain, k);
    hide Relinked;
  }

  lemma NextsWithout(rec: seq<Rec>, sl: Slot, chain: seq<nat>, nrec: nat, k: nat)
    requires Chained(rec, sl, chain) && OfSlot(rec, sl, chain, nrec) && k < |chain|
    ensures var left := Without(chain, k);
            forall i: nat | i < |left| :: left[i] < |rec| && Relinked(rec, chain, k)[left[i]].next == At(left, i + 1)
  {
    hide *;
    InRec(rec, sl, chain, nrec);
    WithoutElements(chain, k);
    var left := Without(chain, k);
    forall i: nat | i < |left|
      ensures left[i] < |rec| && Relinked(rec, chain, k)[left[i]].next == At(left, i + 1)
    {
      NextWithout(rec, sl, chain, nrec, k, i);
    }
  }

  lemma ChainShrinks(rec: seq<Rec>, sl: Slot, chain: seq<nat>, nrec: nat, k: nat)
    requires Chained(rec, sl, chain) && OfSlot(rec, sl, chain, nrec) && k < |chain|
    ensures Chained(Relinked(rec, chain, k), Unlinked(sl, chain, k), Without(chain, k))
    ensures OfSlot(Relinked(rec, chain, k), Unlinked(sl, chain, k), Without(chain, k), nrec)
  {
    hide *;
    InRec(rec, sl, chain, nrec);
    OfSlotShrinks(rec, sl, chain, nrec, k);
    NextsWithout(rec, sl, chain, nrec, k);
    HeadWithout(rec, sl, chain, k);
    TailWithout(rec, sl, chain, nrec, k);
    IsChained(Relinked(rec, chain, k), Unlinked(sl, chain, k), Without(chain, k));
  }

  lemma InRec(rec: seq<Rec>, sl: Slot, chain: seq<nat>, nrec: nat)
    requires OfSlot(rec, sl, chain, nrec)
    ensures forall i | 0 <= i < |chain| :: chain[i] < |rec|
  {
  }

  lemma IsChained(rec: seq<Rec>, sl: Slot, chain: seq<nat>)
    requires sl.head == At(chain, 0) && (chain != [] ==> sl.tail == chain[|chain| - 1])
    requires forall i: nat | i < |chain| :: chain[i] < |rec| && rec[chain[i]].next == At(chain, i + 1)
    ensures Chained(rec, sl, chain)
  {
    hide At;
  }

  lemma TailWithout(rec: seq<Rec>, sl: Slot, chain: seq<nat>, nrec: nat, k: nat)
    requires Chained(rec, sl, chain) && OfSlot(rec, sl, chain, nrec) && k < |chain|
    ensures var left := Without(chain, k); left != [] ==> Unlinked(sl, chain, k).tail == left[|left| - 1]
  {
    hide At;
    LastWithout(chain, k);
    hide Without;
  }

  lemma HeadWithout(rec: seq<Rec>, sl: Slot, chain: seq<nat>, k: nat)
    requires Chained(rec, sl, chain) && k < |chain|
    ensures Unlinked(sl, chain, k).head == At(Without(chain, k), 0)
  {
    hide At, Without;
    WithoutAt(chain, k, 0);
  }

  lemma LastWithout(chain: seq<nat>, k: nat)
    requires k < |chain|
    requires forall i, j | 0 <= i < j < |chain| :: chain[i] < chain[j]
    ensures var left := Without(chain, k);
            left != [] ==> left[|left| - 1] == if chain[|chain| - 1] == chain[k] then chain[k - 1] else chain[|chain| - 1]
  {
  }

  lemma WithoutElements(chain: seq<nat>, k: nat)
    requires k < |chain|
    ensures |Without(chain, k)| == |chain| - 1
    ensures forall i: nat | i < |chain| - 1 :: Without(chain, k)[i] == chain[if i < k then i else i + 1]
  {
  }

  lemma WithoutAt(chain: seq<nat>, k: nat, i: nat)
    requires k < |chain|
    ensures At(Without(chain, k), i) == if i < k then At(chain, i) else At(chain, i + 1)
  {
  }

  /** Records of different keys are different records. */
  lemma KeysApart(rec: seq<Rec>, a: Slot, ca: seq<nat>, b: Slot, cb: seq<nat>, nrec: nat, x: nat)
    requires OfSlot(rec, a, ca, nrec) && OfSlot(rec, b, cb, nrec) && (a.key != b.key || a.count != b.count) && x in ca
    ensures x !in cb
  {
  }

  /** The records' positions: block after block, from the buffer's start. */
  ghost predicate PlacesOk(rec: seq<Rec>, nrec: nat, npos: nat) {
    && nrec <= |rec| && Start(rec, nrec, npos, 0) == 0
    && forall r: nat | r < nrec :: Start(rec, nrec, npos, r + 1) == Start(rec, nrec, npos, r) + rec[r].count
  }

  /** Where record r's positions start, or would. */
  function Start(rec: seq<Rec>, nrec: nat, npos: nat, r: nat): nat
    requires nrec <= |rec|
  {
    if r < nrec then rec[r].off else npos
  }

  lemma {:induction false} PlaceInside(rec: seq<Rec>, nrec: nat, npos: nat, a: nat)
    requires PlacesOk(rec, nrec, npos) && a < nrec
    ensures rec[a].off + rec[a].count <= npos
    decreases nrec - a
  {
    assert Start(rec, nrec, npos, a + 1) == Start(rec, nrec, npos, a) + rec[a].count;
    if a + 1 < nrec {
      PlaceInside(rec, nrec, npos, a + 1);
    }
  }

  /** So no two draws' positions overlap, and all are inside. */
  lemma {:induction false} PlacesApart(rec: seq<Rec>, nrec: nat, npos: nat, a: nat, b: nat)
    requires PlacesOk(rec, nrec, npos) && a < b < nrec
    ensures rec[a].off + rec[a].count <= rec[b].off && rec[b].off + rec[b].count <= npos
    decreases b
  {
    PlaceInside(rec, nrec, npos, b);
    assert Start(rec, nrec, npos, b - 1 + 1) == Start(rec, nrec, npos, b - 1) + rec[b - 1].count;
    if a + 1 < b {
      PlacesApart(rec, nrec, npos, a, b - 1);
    }
  }

  /** A record some chain still holds. */
  ghost predicate Unmatched(chain: seq<seq<nat>>, x: nat) { exists s: nat :: s < |chain| && x in chain[s] }

  /** No record of the key is left to match. */
  ghost predicate NoneLeft(slot: seq<Slot>, chain: seq<seq<nat>>, key: nat, count: nat) {
    forall i: nat | i < |slot| && i < |chain| && Holds(slot[i], key, count) :: chain[i] == []
  }

  /** Of the key's records not yet matched, the nearest of the first 32 is taken. */
  ghost predicate Picked(rec: seq<Rec>, slot: seq<Slot>, chain: seq<seq<nat>>, chain': seq<seq<nat>>, key: nat, count: nat, best: nat, apart: nat -> int) {
    exists i: nat, k: nat ::
      && i < |slot| && i < |chain| && Holds(slot[i], key, count) && ChainIn(rec, chain[i])
      && Nearest(rec, chain[i], k, PAIR_LOOK, apart) && best == chain[i][k]
      && chain' == chain[i := Without(chain[i], k)]
  }

  ghost predicate ChainIn(rec: seq<Rec>, chain: seq<nat>) { forall i | 0 <= i < |chain| :: chain[i] < |rec| }

  // ---- all the chains of a frame -------------------------------------------------------------

  ghost predicate ChainsOk(rec: seq<Rec>, slot: seq<Slot>, chain: seq<seq<nat>>, nrec: nat) {
    && |rec| == PAIR_DRAWS && |slot| == |chain| == PAIR_SLOTS && nrec <= PAIR_DRAWS
    && (forall s: nat | s < PAIR_SLOTS && slot[s].count == 0 :: chain[s] == [])
    && (forall s: nat | s < PAIR_SLOTS && slot[s].count != 0 ::
          Chained(rec, slot[s], chain[s]) && OfSlot(rec, slot[s], chain[s], nrec))
  }

  ghost predicate InUseOk(slot: seq<Slot>, inUse: set<nat>, nrec: nat) {
    && (forall s: nat :: s in inUse <==> s < |slot| && slot[s].count != 0)
    && |inUse| <= nrec
  }

  ghost predicate AllBegun(slot: seq<Slot>, chain: seq<seq<nat>>)
    requires |slot| == |chain|
  {
    forall s: nat | s < |slot| && slot[s].count != 0 :: chain[s] != []
  }

  /** Nothing is changed in the first n records but where they link to. */
  ghost predicate SameDraws(was: seq<Rec>, rec: seq<Rec>, n: nat) {
    n <= |was| && n <= |rec| && forall x | 0 <= x < n :: rec[x] == was[x].(next := rec[x].next)
  }

  /** Record r is the last of its key's chain. */
  ghost predicate Appended(slot: seq<Slot>, chain: seq<seq<nat>>, chain': seq<seq<nat>>, key: nat, count: nat, r: nat) {
    exists i: nat :: i < |slot| && i < |chain| && Holds(slot[i], key, count) && chain' == chain[i := chain[i] + [r]]
  }

  /** A new record goes to the end of its key's chain, or begins one. */
  function Recorded(rec: seq<Rec>, slot: seq<Slot>, nrec: nat, i: nat, r: Rec): (seq<Rec>, seq<Slot>)
    requires i < |slot| && nrec < |rec| && (slot[i].count != 0 ==> slot[i].tail < |rec|)
  {
    var rec' := rec[nrec := r];
    if slot[i].count == 0 then (rec', slot[i := Slot(r.key, r.count, nrec, nrec)])
    else (rec'[slot[i].tail := rec'[slot[i].tail].(next := nrec)], slot[i := slot[i].(tail := nrec)])
  }

  lemma TailKnown(rec: seq<Rec>, slot: seq<Slot>, chain: seq<seq<nat>>, nrec: nat, i: nat)
    requires ChainsOk(rec, slot, chain, nrec) && i < PAIR_SLOTS && slot[i].count != 0 && chain[i] != []
    ensures slot[i].tail < nrec && slot[i].tail in chain[i]
  {
    assert Chained(rec, slot[i], chain[i]) && OfSlot(rec, slot[i], chain[i], nrec);
    hide At;
  }

  lemma RecordedKeeps(rec: seq<Rec>, slot: seq<Slot>, chain: seq<seq<nat>>, nrec: nat, i: nat, r: Rec, home: nat -> nat)
    requires ChainsOk(rec, slot, chain, nrec) && TableOk(slot, home) && i < PAIR_SLOTS && nrec < PAIR_DRAWS
    requires r.count != 0 && r.next == NONE && (slot[i].count == 0 || Holds(slot[i], r.key, r.count))
    requires slot[i].count != 0 ==> chain[i] != [] && slot[i].tail < nrec
    ensures var (rec', slot') := Recorded(rec, slot, nrec, i, r);
            |slot'| == |slot| && ChainsOk(rec', slot', chain[i := chain[i] + [nrec]], nrec + 1)
  {
    var (rec', slot') := Recorded(rec, slot, nrec, i, r);
    if slot[i].count == 0 {
      ChainBegins(rec, nrec, r);
      assert chain[i] + [nrec] == [nrec];
    } else {
      TailKnown(rec, slot, chain, nrec, i);
      ChainGrows(rec, slot[i], chain[i], nrec, r);
    }
    forall s: nat | s < PAIR_SLOTS && s != i && slot[s].count != 0
      ensures Chained(rec', slot[s], chain[s]) && OfSlot(rec', slot[s], chain[s], nrec + 1)
    {
      OtherSlot(rec, slot, chain, nrec, i, s, home);
      assert Chained(rec, slot[s], chain[s]) && OfSlot(rec, slot[s], chain[s], nrec);
      assert slot[i].count != 0 ==> slot[i].tail !in chain[s];
      ChainUntouched(rec, rec', slot[s], chain[s], nrec, nrec + 1);
    }
    hide Chained, OfSlot;
  }

  /** No record is in two slots' chains. */
  lemma OtherSlot(rec: seq<Rec>, slot: seq<Slot>, chain: seq<seq<nat>>, nrec: nat, i: nat, s: nat, home: nat -> nat)
    requires ChainsOk(rec, slot, chain, nrec) && TableOk(slot, home) && i < PAIR_SLOTS && s < PAIR_SLOTS && s != i
    requires slot[s].count != 0
    ensures forall x | x in chain[i] :: x !in chain[s]
  {
    forall x | x in chain[i]
      ensures x !in chain[s]
    {
      assert slot[i].count != 0;
      assert !Holds(slot[s], slot[i].key, slot[i].count);
      assert OfSlot(rec, slot[i], chain[i], nrec) && OfSlot(rec, slot[s], chain[s], nrec);
      hide Chained, At;
      KeysApart(rec, slot[i], chain[i], slot[s], chain[s], nrec, x);
    }
  }

  /** Element k of slot i's chain comes out. */
  lemma TakenKeeps(rec: seq<Rec>, slot: seq<Slot>, chain: seq<seq<nat>>, nrec: nat, i: nat, k: nat, home: nat -> nat)
    requires ChainsOk(rec, slot, chain, nrec) && TableOk(slot, home) && i < PAIR_SLOTS && k < |chain[i]|
    ensures forall j | 0 <= j < |chain[i]| :: chain[i][j] < nrec
    ensures ChainsOk(Relinked(rec, chain[i], k), slot[i := Unlinked(slot[i], chain[i], k)], chain[i := Without(chain[i], k)], nrec)
  {
    assert slot[i].count != 0;
    assert Chained(rec, slot[i], chain[i]) && OfSlot(rec, slot[i], chain[i], nrec);
    var rec' := Relinked(rec, chain[i], k);
    ChainShrinks(rec, slot[i], chain[i], nrec, k);
    forall s: nat | s < PAIR_SLOTS && s != i && slot[s].count != 0
      ensures Chained(rec', slot[s], chain[s]) && OfSlot(rec', slot[s], chain[s], nrec)
    {
      OtherSlot(rec, slot, chain, nrec, i, s, home);
      assert Chained(rec, slot[s], chain[s]) && OfSlot(rec, slot[s], chain[s], nrec);
      assert 0 < k ==> chain[i][k - 1] in chain[i];
      ChainUntouched(rec, rec', slot[s], chain[s], nrec, nrec);
    }
    hide Chained, Without, Relinked, At;
  }

  // ---- a frame ----------------------------------------------------------------------------------

  class Frame {
    const rec: array<Rec>
    const slot: array<Slot>
    const home: nat -> nat
    var nrec: nat
    var npos: nat
    // each slot's records not yet matched, and the slots in use
    ghost var chain: seq<seq<nat>>
    ghost var inUse: set<nat>

    ghost predicate Valid()
      reads this, rec, slot
    {
      && rec.Length == PAIR_DRAWS && slot.Length == PAIR_SLOTS == |chain| && nrec <= PAIR_DRAWS
      && ChainsOk(rec[..], slot[..], chain, nrec) && TableOk(slot[..], home)
      // at most one slot a record
      && InUseOk(slot[..], inUse, nrec)
      // the records' positions lie end to end in the buffer
      && npos <= PAIR_VERTS
      && PlacesOk(rec[..], nrec, npos)
    }

    /** While a frame is recorded nothing of it is matched: no chain in use is empty. */
    ghost predicate Recording()
      reads this, slot
      requires slot.Length == |chain|
    {
      AllBegun(slot[..], chain)
    }

    /** pair_slot: the key's slot, or where it would go. */
    method SlotOf(key: nat, count: nat) returns (i: int)
      requires Valid() && 0 < count
      ensures 0 <= i ==> i < PAIR_SLOTS && (Holds(slot[i], key, count) || (slot[i].count == 0 && !Known(slot[..], key, count)))
      ensures 0 <= i && slot[i].count == 0 ==>
                forall x: nat | x < PAIR_SLOTS && Dist(home(key), x) < Dist(home(key), i) :: slot[x].count != 0
      // nowhere only when every slot is taken, which they never are
      ensures nrec < PAIR_SLOTS ==> 0 <= i
    {
      var at: nat := home(key);
      var n := 0;
      while n < PAIR_SLOTS
        invariant n <= PAIR_SLOTS && at < PAIR_SLOTS && (n < PAIR_SLOTS ==> Dist(home(key), at) == n)
        invariant forall x: nat | x < PAIR_SLOTS && Dist(home(key), x) < n :: slot[x].count != 0 && !Holds(slot[x], key, count)
      {
        if slot[at].count == 0 || (slot[at].key == key && slot[at].count == count) {
          if slot[at].count == 0 {
            WalkIsComplete(slot[..], home, key, count, n, at);
          }
          return at;
        }
        at := After(at);
        n := n + 1;
      }
      AllInUse();
      return -1;
    }

    lemma AllInUse()
      requires Valid()
      ensures nrec < PAIR_SLOTS ==> exists x: nat :: x < PAIR_SLOTS && slot[x].count == 0
    {
      var x := Missing(inUse, PAIR_SLOTS);
      assert slot[x].count == 0;
    }

    /** pair_reset, of a new frame. */
    constructor (home: nat -> nat)
      requires forall k :: home(k) < PAIR_SLOTS
      ensures Valid() && Recording() && nrec == 0 && fresh(rec) && fresh(slot)
    {
      this.home := home;
      rec := new Rec[PAIR_DRAWS](_ => Rec(0, 0, 0, NONE, 0, false));
      slot := new Slot[PAIR_SLOTS](_ => EMPTY);
      nrec, npos := 0, 0;
      chain := seq(PAIR_SLOTS, _ => []);
      inUse := {};
    }

    /** The frame has no room for a draw of so many vertices. */
    predicate Full(count: nat)
      reads this
    {
      nrec >= PAIR_DRAWS || npos + count > PAIR_VERTS
    }

    /** pair_claim: the draw is recorded, unless the frame is full. */
    method Claim(key: nat, count: nat, ortho: bool) returns (r: nat)
      requires Valid() && Recording() && 0 < count
      modifies this`nrec, this`npos, this`chain, this`inUse, rec, slot
      ensures Valid() && Recording()
      ensures r == NONE <==> old(Full(count))
      ensures r == NONE ==> nrec == old(nrec) && chain == old(chain) && rec[..] == old(rec[..])
      ensures r != NONE ==>
        && r == old(nrec) && nrec == r + 1 && npos == old(npos) + count
        && rec[r].key == key && rec[r].count == count && rec[r].ortho == ortho && rec[r].off == old(npos)
        && Appended(slot[..], old(chain), chain, key, count, r) && SameDraws(old(rec[..]), rec[..], r)
    {
      if Full(count) {
        return NONE;
      }
      var i := SlotOf(key, count);
      r := nrec;
      Record(i, Rec(key, count, npos, NONE, 0, ortho));
      assert Holds(slot[..][i], key, count);
    }

    /** The search of pair_match: of the first 32 of the chain, the nearest. */
    method Choose(i: nat, apart: nat -> int) returns (best: nat, prev: nat, ghost k: nat)
      requires Valid() && i < PAIR_SLOTS && chain[i] != []
      ensures ChainIn(rec[..], chain[i]) && Nearest(rec[..], chain[i], k, PAIR_LOOK, apart)
      ensures best == chain[i][k] && prev == if k == 0 then NONE else chain[i][k - 1]
    {
      hide ChainsOk, TableOk, PlacesOk, InUseOk, Chained, OfSlot, At, Nearest;
      ghost var c, was := chain[i], rec[..];
      ChainFacts(was, slot[..], chain, nrec, i);
      var r, before, n := slot[i].head, NONE, 0;
      best, prev, k := NONE, NONE, 0;
      while r != NONE && n < PAIR_LOOK
        invariant n <= PAIR_LOOK && n <= |c| && r == At(c, n) && before == if n == 0 then NONE else c[n - 1]
        invariant n == 0 ==> best == NONE
        invariant 0 < n ==> k < n && best == c[k] && prev == (if k == 0 then NONE else c[k - 1]) && Nearest(was, c, k, n, apart)
        decreases PAIR_LOOK - n
      {
        AtIs(c, n);
        assert rec[..][r] == rec[r];
        NearestStep(was, c, k, n, apart);
        if best == NONE || apart(rec[r].centre) < apart(rec[best].centre) {
          best, prev, k := r, before, n;
        }
        before, r, n := r, rec[r].next, n + 1;
      }
      AtIs(c, n);
      NearestAll(was, c, k, n, apart);
    }

    /** pair_match: the draw of the frame before that this one is paired with, or NONE when none
        of its key is left. */
    method Match(key: nat, count: nat, apart: nat -> int) returns (best: nat)
      requires Valid() && 0 < count
      modifies this`chain, rec, slot
      ensures Valid() && nrec == old(nrec)
      ensures best == NONE <==> NoneLeft(old(slot[..]), old(chain), key, count)
      ensures best == NONE ==> chain == old(chain)
      // it is the nearest of the first 32 of its key still there
      ensures best != NONE ==> Picked(old(rec[..]), old(slot[..]), old(chain), chain, key, count, best, apart)
      ensures best != NONE ==> best < nrec && rec[best].key == key && rec[best].count == count
      ensures best != NONE ==> rec[best].off == old(rec[best].off) && rec[best].ortho == old(rec[best].ortho)
      // it was there to be matched, and is not any more
      ensures best != NONE ==> Unmatched(old(chain), best) && !Unmatched(chain, best)
      ensures forall x: nat | Unmatched(chain, x) :: Unmatched(old(chain), x)
    {
      hide ChainsOk, TableOk, PlacesOk, InUseOk, NoneLeft, Picked, Unmatched, Nearest, ChainIn, Without;
      var i := SlotOf(key, count);
      SlotTells(rec[..], slot[..], chain, nrec, home, key, count, i);
      if slot[i].count == 0 || slot[i].head == NONE {
        return NONE;
      }
      best := Nearby(i, key, count, apart);
    }

    method Nearby(i: nat, key: nat, count: nat, apart: nat -> int) returns (best: nat)
      requires Valid() && i < PAIR_SLOTS && Holds(slot[i], key, count) && chain[i] != []
      modifies this`chain, rec, slot
      ensures Valid() && nrec == old(nrec) && best != NONE
      ensures Picked(old(rec[..]), old(slot[..]), old(chain), chain, key, count, best, apart)
      ensures best < nrec && rec[best].key == key && rec[best].count == count
      ensures rec[best].off == old(rec[best].off) && rec[best].ortho == old(rec[best].ortho)
      ensures Unmatched(old(chain), best) && !Unmatched(chain, best)
      ensures forall x: nat | Unmatched(chain, x) :: Unmatched(old(chain), x)
    {
      hide ChainsOk, TableOk, PlacesOk, InUseOk, NoneLeft, Picked, Unmatched, Nearest, ChainIn, Without;
      ghost var k;
      var prev;
      ghost var was, slots, chains := rec[..], slot[..], chain;
      best, prev, k := Choose(i, apart);
      ChosenFacts(was, slots, chains, nrec, i, k, home, key, count, apart);
      assert was[best] == rec[best];
      Take(i, best, prev, k);
    }

    /** The draw's centre, kept for the frame after. */
    method SetCentre(r: nat, centre: nat)
      requires Valid() && r < PAIR_DRAWS
      modifies rec
      ensures Valid() && rec[..] == old(rec[..])[r := old(rec[r]).(centre := centre)]
    {
      hide ChainsOk, TableOk, PlacesOk, InUseOk;
      ghost var was := rec[..];
      CentreKeeps(was, slot[..], chain, nrec, npos, r, centre);
      rec[r] := rec[r].(centre := centre);
      assert rec[..] == was[r := was[r].(centre := centre)];
    }

    ghost predicate NotedAs(r: nat, key: nat, count: nat, off: nat, ortho: bool, centre: nat)
      reads rec
    {
      r < rec.Length && rec[r].(next := NONE) == Rec(key, count, off, NONE, centre, ortho)
    }

    /** What recording a draw leaves: the record, with the draw's centre. */
    method Note(key: nat, count: nat, ortho: bool, centre: nat)
      requires Valid() && Recording() && 0 < count
      modifies this`nrec, this`npos, this`chain, this`inUse, rec, slot
      ensures Valid() && Recording()
      ensures old(Full(count)) ==> nrec == old(nrec) && chain == old(chain) && rec[..] == old(rec[..])
      ensures !old(Full(count)) ==>
        && nrec == old(nrec) + 1 && NotedAs(old(nrec), key, count, old(npos), ortho, centre)
        && Appended(slot[..], old(chain), chain, key, count, old(nrec)) && SameDraws(old(rec[..]), rec[..], old(nrec))
    {
      hide ChainsOk, TableOk, PlacesOk, InUseOk, AllBegun, Appended;
      var r := Claim(key, count, ortho);
      if r != NONE {
        SetCentre(r, centre);
      }
    }

    /** The record chosen comes out of its chain. */
    method Take(i: nat, best: nat, prev: nat, ghost k: nat)
      requires Valid() && i < PAIR_SLOTS && slot[i].count != 0 && k < |chain[i]| && best == chain[i][k] < PAIR_DRAWS
      requires prev == if k == 0 then NONE else chain[i][k - 1]
      modifies this`chain, rec, slot
      ensures Valid() && chain == old(chain)[i := Without(old(chain)[i], k)]
      ensures forall x | 0 <= x < PAIR_DRAWS :: rec[x] == old(rec[x]).(next := rec[x].next)
    {
      hide ChainsOk, TableOk, PlacesOk, InUseOk, Chained, OfSlot, Relinked, Unlinked, Without;
      ghost var was, slots, after := rec[..], slot[..], rec[best].next;
      TakeDone(was, slots, chain, nrec, npos, i, k, home, inUse);
      if prev == NONE {
        slot[i] := slot[i].(head := rec[best].next);
      } else {
        rec[prev] := rec[prev].(next := rec[best].next);
      }
      if slot[i].tail == best {
        slot[i] := slot[i].(tail := prev);
      }
      assert rec[..] == if k == 0 then was else was[prev := was[prev].(next := after)];
      assert slot[..] == slots[i := slots[i].(head := if k == 0 then after else slots[i].head, tail := if slots[i].tail == best then prev else slots[i].tail)];
      chain := chain[i := Without(chain[i], k)];
    }

    /** The record and its place in the chain, written. */
    method Write(i: nat, e: Rec)
      requires rec.Length == PAIR_DRAWS && slot.Length == PAIR_SLOTS && i < PAIR_SLOTS && nrec < PAIR_DRAWS
      requires slot[i].count != 0 ==> slot[i].tail < nrec
      modifies rec, slot
      ensures (rec[..], slot[..]) == Recorded(old(rec[..]), old(slot[..]), nrec, i, e)
    {
      ghost var was, slots := rec[..], slot[..];
      rec[nrec] := e;
      if slot[i].count == 0 {
        slot[i] := Slot(e.key, e.count, nrec, nrec);
        assert rec[..] == was[nrec := e] && slot[..] == slots[i := Slot(e.key, e.count, nrec, nrec)];
      } else {
        assert rec[..] == was[nrec := e];
        rec[slot[i].tail] := rec[slot[i].tail].(next := nrec);
        slot[i] := slot[i].(tail := nrec);
        assert rec[..] == was[nrec := e][slots[i].tail := was[slots[i].tail].(next := nrec)];
        assert slot[..] == slots[i := slots[i].(tail := nrec)];
      }
    }

    method Record(i: nat, e: Rec)
      requires Valid() && Recording() && i < PAIR_SLOTS && nrec < PAIR_DRAWS
      requires e.count != 0 && e.next == NONE && e.off == npos && npos + e.count <= PAIR_VERTS
      requires Holds(slot[i], e.key, e.count) || (slot[i].count == 0 && !Known(slot[..], e.key, e.count))
      requires slot[i].count == 0 ==> forall x: nat | x < PAIR_SLOTS && Dist(home(e.key), x) < Dist(home(e.key), i) :: slot[x].count != 0
      modifies this`nrec, this`npos, this`chain, this`inUse, rec, slot
      ensures Valid() && Recording()
      ensures nrec == old(nrec) + 1 && npos == old(npos) + e.count && Holds(slot[i], e.key, e.count)
      ensures chain == old(chain)[i := old(chain)[i] + [old(nrec)]]
      ensures rec[old(nrec)].(next := NONE) == e && SameDraws(old(rec[..]), rec[..], old(nrec))
    {
      hide ChainsOk, TableOk, PlacesOk, Known, Dist, Recorded, Holds, InUseOk, AllBegun;
      ghost var was, slots, r := rec[..], slot[..], nrec;
      RecordDone(was, slots, chain, r, npos, i, e, home, inUse);
      Write(i, e);
      inUse := inUse + {i};
      chain := chain[i := chain[i] + [r]];
      npos := npos + e.count;
      nrec := nrec + 1;
      assert slot[..][i] == slot[i] && rec[..][r] == rec[r];
      RecordedSame(was, slots, r, i, e);
    }
  }

  lemma RecordedSame(rec: seq<Rec>, slot: seq<Slot>, nrec: nat, i: nat, e: Rec)
    requires i < |slot| && nrec < |rec| && (slot[i].count != 0 ==> slot[i].tail < nrec)
    ensures SameDraws(rec, Recorded(rec, slot, nrec, i, e).0, nrec)
  {
  }

  lemma BegunMore(rec: seq<Rec>, slot: seq<Slot>, chain: seq<seq<nat>>, nrec: nat, i: nat, e: Rec, inUse: set<nat>)
    requires |slot| == |chain| && AllBegun(slot, chain) && InUseOk(slot, inUse, nrec)
    requires i < |slot| && nrec < |rec| && (slot[i].count != 0 ==> slot[i].tail < nrec)
    requires e.count != 0 && e.next == NONE && (slot[i].count == 0 || Holds(slot[i], e.key, e.count))
    ensures var slot' := Recorded(rec, slot, nrec, i, e).1;
            |slot'| == |chain| && AllBegun(slot', chain[i := chain[i] + [nrec]]) && InUseOk(slot', inUse + {i}, nrec + 1)
  {
    RecordedSlot(rec, slot, nrec, i, e);
    OneMore(inUse, i);
    hide Recorded;
  }

  lemma OneMore(a: set<nat>, x: nat)
    ensures |a + {x}| <= |a| + 1
  {
    if x in a {
      assert a + {x} == a;
    }
  }

  /** All of it: the chains, the table, the places and the slots in use. */
  lemma RecordDone(rec: seq<Rec>, slot: seq<Slot>, chain: seq<seq<nat>>, nrec: nat, npos: nat, i: nat, e: Rec, home: nat -> nat, inUse: set<nat>)
    requires ChainsOk(rec, slot, chain, nrec) && TableOk(slot, home) && PlacesOk(rec, nrec, npos)
    requires |slot| == |chain| && AllBegun(slot, chain) && InUseOk(slot, inUse, nrec)
    requires i < PAIR_SLOTS && nrec < PAIR_DRAWS && e.count != 0 && e.next == NONE && e.off == npos
    requires Holds(slot[i], e.key, e.count) || (slot[i].count == 0 && !Known(slot, e.key, e.count))
    requires slot[i].count == 0 ==> forall x: nat | x < PAIR_SLOTS && Dist(home(e.key), x) < Dist(home(e.key), i) :: slot[x].count != 0
    ensures |rec| == PAIR_DRAWS && |slot| == |chain| == PAIR_SLOTS
    ensures slot[i].count != 0 ==> slot[i].tail < nrec
    ensures var (rec', slot') := Recorded(rec, slot, nrec, i, e);
            && |rec'| == |rec| && |slot'| == |slot|
            && AllBegun(slot', chain[i := chain[i] + [nrec]]) && InUseOk(slot', inUse + {i}, nrec + 1)
            && ChainsOk(rec', slot', chain[i := chain[i] + [nrec]], nrec + 1) && TableOk(slot', home)
            && PlacesOk(rec', nrec + 1, npos + e.count)
            && rec'[nrec] == e && Holds(slot'[i], e.key, e.count) && slot'[i].count != 0
            && forall s | 0 <= s < |slot| && s != i :: slot'[s] == slot[s]
  {
    hide Chained, OfSlot, At;
    if slot[i].count != 0 {
      TailKnown(rec, slot, chain, nrec, i);
      ChainKeeps(slot, home, i, slot[i].(tail := nrec));
    } else {
      NewKeyKeeps(slot, home, i, Slot(e.key, e.count, nrec, nrec));
    }
    BegunMore(rec, slot, chain, nrec, i, e, inUse);
    hide ChainsOk, TableOk, PlacesOk, Known;
    RecordedKeeps(rec, slot, chain, nrec, i, e, home);
    PlacesGrow(rec, slot, nrec, npos, i, e);
    RecordedSlot(rec, slot, nrec, i, e);
  }

  lemma RecordedSlot(rec: seq<Rec>, slot: seq<Slot>, nrec: nat, i: nat, e: Rec)
    requires i < |slot| && nrec < |rec| && (slot[i].count != 0 ==> slot[i].tail < nrec)
    requires e.count != 0 && e.next == NONE && (slot[i].count == 0 || Holds(slot[i], e.key, e.count))
    ensures var (rec', slot') := Recorded(rec, slot, nrec, i, e);
            && |rec'| == |rec| && |slot'| == |slot| && rec'[nrec] == e && Holds(slot'[i], e.key, e.count)
            && forall s | 0 <= s < |slot| && s != i :: slot'[s] == slot[s]
  {
  }

  lemma PlacesGrow(rec: seq<Rec>, slot: seq<Slot>, nrec: nat, npos: nat, i: nat, e: Rec)
    requires PlacesOk(rec, nrec, npos) && nrec < |rec| && e.off == npos
    requires i < |slot| && (slot[i].count != 0 ==> slot[i].tail < nrec)
    ensures PlacesOk(Recorded(rec, slot, nrec, i, e).0, nrec + 1, npos + e.count)
  {
    var rec' := Recorded(rec, slot, nrec, i, e).0;
    forall r: nat | r < nrec + 1
      ensures Start(rec', nrec + 1, npos + e.count, r) == Start(rec, nrec, npos, r)
      ensures rec'[r].count == if r < nrec then rec[r].count else e.count
    {
    }
    forall r: nat | r < nrec + 1
      ensures Start(rec', nrec + 1, npos + e.count, r + 1) == Start(rec', nrec + 1, npos + e.count, r) + rec'[r].count
    {
      if r < nrec {
        assert Start(rec, nrec, npos, r + 1) == Start(rec, nrec, npos, r) + rec[r].count;
      }
    }
  }

  /** What a walk along slot i's chain needs to know. */
  lemma ChainFacts(rec: seq<Rec>, slot: seq<Slot>, chain: seq<seq<nat>>, nrec: nat, i: nat)
    requires ChainsOk(rec, slot, chain, nrec) && i < PAIR_SLOTS && chain[i] != []
    ensures slot[i].head == At(chain[i], 0) && ChainIn(rec, chain[i])
    ensures forall j: nat | j < |chain[i]| :: chain[i][j] < PAIR_DRAWS && rec[chain[i][j]].next == At(chain[i], j + 1)
  {
    assert Chained(rec, slot[i], chain[i]) && OfSlot(rec, slot[i], chain[i], nrec);
    hide At;
  }

  lemma EmptyHead(rec: seq<Rec>, slot: seq<Slot>, chain: seq<seq<nat>>, nrec: nat, i: nat)
    requires ChainsOk(rec, slot, chain, nrec) && i < PAIR_SLOTS && slot[i].count != 0
    ensures slot[i].head == NONE <==> chain[i] == []
  {
    assert Chained(rec, slot[i], chain[i]) && OfSlot(rec, slot[i], chain[i], nrec);
    if chain[i] != [] {
      ChainFacts(rec, slot, chain, nrec, i);
    }
  }

  lemma OneSlot(slot: seq<Slot>, home: nat -> nat, key: nat, count: nat, i: nat)
    requires TableOk(slot, home) && i < PAIR_SLOTS && Holds(slot[i], key, count)
    ensures forall j: nat | j < PAIR_SLOTS && Holds(slot[j], key, count) :: j == i
  {
  }

  /** Unlinking as the code does it keeps the frame. */
  lemma TakeDone(rec: seq<Rec>, slot: seq<Slot>, chain: seq<seq<nat>>, nrec: nat, npos: nat, i: nat, k: nat, home: nat -> nat, inUse: set<nat>)
    requires ChainsOk(rec, slot, chain, nrec) && TableOk(slot, home) && InUseOk(slot, inUse, nrec) && PlacesOk(rec, nrec, npos)
    requires i < PAIR_SLOTS && |slot| == |chain| == PAIR_SLOTS && |rec| == PAIR_DRAWS && slot[i].count != 0 && k < |chain[i]|
    ensures ChainIn(rec, chain[i])
    ensures var c := chain[i];
            var prev := if k == 0 then NONE else c[k - 1];
            var rec' := if k == 0 then rec else rec[prev := rec[prev].(next := rec[c[k]].next)];
            var slot' := slot[i := slot[i].(head := if k == 0 then rec[c[k]].next else slot[i].head,
                                            tail := if slot[i].tail == c[k] then prev else slot[i].tail)];
            && (0 < k ==> prev < PAIR_DRAWS)
            && ChainsOk(rec', slot', chain[i := Without(c, k)], nrec)
            && TableOk(slot', home) && InUseOk(slot', inUse, nrec) && PlacesOk(rec', nrec, npos)
  {
    ChainFacts(rec, slot, chain, nrec, i);
    TakenKeeps(rec, slot, chain, nrec, i, k, home);
    var c := chain[i];
    var prev := if k == 0 then NONE else c[k - 1];
    assert rec[c[k]].next == At(c, k + 1);
    assert Relinked(rec, c, k) == if k == 0 then rec else rec[prev := rec[prev].(next := rec[c[k]].next)];
    assert Unlinked(slot[i], c, k) == slot[i].(head := if k == 0 then rec[c[k]].next else slot[i].head,
                                               tail := if slot[i].tail == c[k] then prev else slot[i].tail);
    hide ChainsOk, Relinked, At;
    TableSame(slot, home, inUse, nrec, i, Unlinked(slot[i], c, k));
    hide TableOk, InUseOk, Unlinked;
    PlacesSame(rec, nrec, npos, prev, if k == 0 then 0 else rec[c[k]].next);
  }

  lemma TableSame(slot: seq<Slot>, home: nat -> nat, inUse: set<nat>, nrec: nat, i: nat, sl: Slot)
    requires TableOk(slot, home) && InUseOk(slot, inUse, nrec) && i < PAIR_SLOTS && slot[i].count != 0
    requires sl.key == slot[i].key && sl.count == slot[i].count
    ensures TableOk(slot[i := sl], home) && InUseOk(slot[i := sl], inUse, nrec)
  {
    ChainKeeps(slot, home, i, sl);
  }

  lemma PlacesSame(rec: seq<Rec>, nrec: nat, npos: nat, x: nat, next: nat)
    requires PlacesOk(rec, nrec, npos)
    ensures x < |rec| ==> PlacesOk(rec[x := rec[x].(next := next)], nrec, npos)
  {
    if x < |rec| {
      var rec' := rec[x := rec[x].(next := next)];
      assert forall r: nat :: Start(rec', nrec, npos, r) == Start(rec, nrec, npos, r);
    }
  }

  lemma AtIs(chain: seq<nat>, n: nat)
    ensures At(chain, n) == if n < |chain| then chain[n] else NONE
  {
  }

  /** Looking at one more: it is nearer than the nearest so far, or that stays. */
  lemma NearestStep(rec: seq<Rec>, c: seq<nat>, k: nat, n: nat, apart: nat -> int)
    requires ChainIn(rec, c) && n < |c| && (0 < n ==> Nearest(rec, c, k, n, apart))
    ensures Nearest(rec, c, if n == 0 || apart(rec[c[n]].centre) < apart(rec[c[k]].centre) then n else k, n + 1, apart)
  {
  }

  lemma NearestAll(rec: seq<Rec>, c: seq<nat>, k: nat, n: nat, apart: nat -> int)
    requires ChainIn(rec, c) && 0 < n <= PAIR_LOOK && (n == PAIR_LOOK || |c| <= n) && Nearest(rec, c, k, n, apart)
    ensures Nearest(rec, c, k, PAIR_LOOK, apart)
  {
  }

  lemma CentreKeeps(rec: seq<Rec>, slot: seq<Slot>, chain: seq<seq<nat>>, nrec: nat, npos: nat, r: nat, centre: nat)
    requires ChainsOk(rec, slot, chain, nrec) && PlacesOk(rec, nrec, npos) && r < PAIR_DRAWS
    ensures var rec' := rec[r := rec[r].(centre := centre)]; ChainsOk(rec', slot, chain, nrec) && PlacesOk(rec', nrec, npos)
  {
    var rec' := rec[r := rec[r].(centre := centre)];
    forall s: nat | s < PAIR_SLOTS && slot[s].count != 0
      ensures Chained(rec', slot[s], chain[s]) && OfSlot(rec', slot[s], chain[s], nrec)
    {
      assert Chained(rec, slot[s], chain[s]) && OfSlot(rec, slot[s], chain[s], nrec);
      ChainUntouched(rec, rec', slot[s], chain[s], nrec, nrec);
    }
    hide Chained, OfSlot, At;
    assert forall x: nat :: Start(rec', nrec, npos, x) == Start(rec, nrec, npos, x);
  }

  /** A record taken from its chain is in no chain, and no other is gone. */
  lemma Gone(rec: seq<Rec>, slot: seq<Slot>, chain: seq<seq<nat>>, nrec: nat, i: nat, k: nat, home: nat -> nat)
    requires ChainsOk(rec, slot, chain, nrec) && TableOk(slot, home) && i < PAIR_SLOTS && k < |chain[i]|
    ensures var x := chain[i][k]; var left := chain[i := Without(chain[i], k)];
            && x < nrec && rec[x].key == slot[i].key && rec[x].count == slot[i].count
            && Unmatched(chain, x) && !Unmatched(left, x)
            && forall y: nat | Unmatched(left, y) :: Unmatched(chain, y)
  {
    hide At;
    var x, left := chain[i][k], chain[i := Without(chain[i], k)];
    assert OfSlot(rec, slot[i], chain[i], nrec);
    assert x in chain[i];
    WithoutMembers(chain[i], k);
    hide Without;
    forall s: nat | s < PAIR_SLOTS
      ensures x !in left[s]
      ensures forall y | y in left[s] :: y in chain[s]
    {
      if s != i && slot[s].count != 0 {
        OtherSlot(rec, slot, chain, nrec, i, s, home);
      }
    }
  }

  lemma WithoutMembers(c: seq<nat>, k: nat)
    requires k < |c| && forall i, j | 0 <= i < j < |c| :: c[i] < c[j]
    ensures c[k] !in Without(c, k) && forall y | y in Without(c, k) :: y in c
  {
  }

  lemma SlotTells(rec: seq<Rec>, slot: seq<Slot>, chain: seq<seq<nat>>, nrec: nat, home: nat -> nat, key: nat, count: nat, i: nat)
    requires ChainsOk(rec, slot, chain, nrec) && TableOk(slot, home) && i < PAIR_SLOTS
    requires Holds(slot[i], key, count) || (slot[i].count == 0 && !Known(slot, key, count))
    ensures NoneLeft(slot, chain, key, count) <==> slot[i].count == 0 || slot[i].head == NONE
    ensures Holds(slot[i], key, count) ==> (slot[i].head == NONE <==> chain[i] == [])
  {
    if Holds(slot[i], key, count) {
      EmptyHead(rec, slot, chain, nrec, i);
      OneSlot(slot, home, key, count, i);
    }
    hide ChainsOk, TableOk;
  }

  lemma ChosenFacts(rec: seq<Rec>, slot: seq<Slot>, chain: seq<seq<nat>>, nrec: nat, i: nat, k: nat, home: nat -> nat, key: nat, count: nat, apart: nat -> int)
    requires ChainsOk(rec, slot, chain, nrec) && TableOk(slot, home) && i < PAIR_SLOTS && Holds(slot[i], key, count)
    requires ChainIn(rec, chain[i]) && Nearest(rec, chain[i], k, PAIR_LOOK, apart)
    ensures k < |chain[i]|
    ensures var x := chain[i][k]; var left := chain[i := Without(chain[i], k)];
            && x < nrec <= PAIR_DRAWS && rec[x].key == key && rec[x].count == count
            && Picked(rec, slot, chain, left, key, count, x, apart)
            && Unmatched(chain, x) && !Unmatched(left, x)
            && forall y: nat | Unmatched(left, y) :: Unmatched(chain, y)
  {
    Gone(rec, slot, chain, nrec, i, k, home);
    hide TableOk, Unmatched, Without;
  }

  // ---- two frames --------------------------------------------------------------------------

  class Pairing {
    var before: Frame
    var current: Frame
    var keyed: nat
    var matched: nat
    var unmatched: nat
    var demoted: nat
    ghost var taken: set<nat>  // records of the frame before that some draw has matched

    ghost predicate Valid()
      reads this, before, before.rec, before.slot, current, current.rec, current.slot
    {
      && before != current && before.rec != current.rec && before.slot != current.slot
      && before.Valid() && current.Valid() && current.Recording()
      && keyed == matched + unmatched + demoted
      && (forall x | x in taken :: !Unmatched(before.chain, x))
    }

    constructor (home: nat -> nat)
      requires forall k :: home(k) < PAIR_SLOTS
      ensures Valid() && keyed == 0 && taken == {}
    {
      before := new Frame(home);
      current := new Frame(home);
      keyed, matched, unmatched, demoted, taken := 0, 0, 0, 0, {};
    }

    /** A draw: recorded for the frame after, and paired with one of the frame before. */
    method Draw(key: nat, count: nat, ortho: bool, centre: nat, apart: nat -> int) returns (best: nat, off: nat)
      requires Valid() && 0 < count
      modifies this`keyed, this`matched, this`unmatched, this`demoted, this`taken
      modifies before`chain, before.rec, before.slot
      modifies current`nrec, current`npos, current`chain, current`inUse, current.rec, current.slot
      ensures Valid() && keyed == old(keyed) + 1
      // it is the nearest of the first 32 of its key still there, and none only if none is
      ensures best == NONE <==> NoneLeft(old(before.slot[..]), old(before.chain), key, count)
      ensures best != NONE ==> Picked(old(before.rec[..]), old(before.slot[..]), old(before.chain), before.chain, key, count, best, apart)
      // matched at most once, to a draw of its own key and vertex count
      ensures best == NONE ==> taken == old(taken) && off == NONE && before.chain == old(before.chain)
      ensures best != NONE ==>
        && best !in old(taken) && taken == old(taken) + {best} && best < before.nrec
        && before.rec[best].key == key && before.rec[best].count == count
        && off == if before.rec[best].ortho == ortho then before.rec[best].off else NONE
      ensures before.nrec == old(before.nrec)
      // it counts as one of the three kinds
      ensures matched == old(matched) + (if best != NONE && before.rec[best].ortho == ortho then 1 else 0)
      ensures unmatched == old(unmatched) + (if best == NONE then 1 else 0)
      // and is itself recorded, unless the frame is full
      ensures old(current.Full(count)) ==> current.nrec == old(current.nrec) && current.chain == old(current.chain)
      ensures !old(current.Full(count)) ==>
        && current.nrec == old(current.nrec) + 1
        && current.NotedAs(old(current.nrec), key, count, old(current.npos), ortho, centre)
        && Appended(current.slot[..], old(current.chain), current.chain, key, count, old(current.nrec))
        && SameDraws(old(current.rec[..]), current.rec[..], old(current.nrec))
    {
      hide ChainsOk, TableOk, PlacesOk, InUseOk, AllBegun, Unmatched, Holds, Nearest, ChainIn, Appended, NoneLeft, Picked, SameDraws;
      keyed := keyed + 1;
      off := NONE;
      current.Note(key, count, ortho, centre);
      best := before.Match(key, count, apart);
      if best == NONE {
        unmatched := unmatched + 1;
        return;
      }
      taken := taken + {best};
      if before.rec[best].ortho != ortho {
        demoted := demoted + 1;
      } else {
        off := before.rec[best].off;
        matched := matched + 1;
      }
    }

    /** pair_rotate: the current frame becomes the one before. */
    method Rotate()
      requires Valid()
      modifies this
      ensures Valid() && before == old(current) && taken == {} && before.Recording() && current.nrec == 0
      ensures keyed == old(keyed)
    {
      before := current;
      current := new Frame(before.home);
      taken := {};
    }
  }
}
