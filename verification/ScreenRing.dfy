/**
  The screen's triple buffer (ring_fill, gxr_ring_take), as atomic steps of N workers and
  one presenter.

  Every worker counts itself past the rows of a frame's last screen copy; the one whose
  count completes the frame copies the screen out, swaps it into the middle slot and
  takes the slot that was there. The presenter swaps its own slot for a unread middle one.
  A worker may reach frame f's screen copy only once every other has finished frame
  f - 1's (the copy's entry fence: QueueRuns.NoneAFrameBehind), and what it copies out then
  is that frame whole (QueueRuns.FramesAreSequential), so a slot's contents are a frame number.
 */
module ScreenRing {
  import opened Arithmetic

  datatype Phase =
    | Away                                // not at a frame's last screen copy
    | Filling                             // its count completed the frame
    | Filled                              // back slot written
    | Swapped(got: nat, unread: bool)      // back slot published; `got` is the slot received
    | Missed(got: nat)                    // a frame never taken has been counted
    | Counted(got: nat)                   // the frame has been counted
    | Passed                              // nothing left to do at this copy

  datatype Ring = Ring(
    at: seq<nat>, phase: seq<Phase>, done: nat,
    back: nat, middle: nat, unread: bool, front: nat, slot: seq<int>,
    published: nat, missed: nat,
    looked: bool, taken: nat, shown: seq<int>,
    filled: nat)  // history: frames swapped in so far

  ghost predicate Worker(r: Ring, w: nat) { w < |r.at| == |r.phase| }

  function Set(r: Ring, w: nat, p: Phase): Ring
    requires w < |r.phase|
  {
    r.(phase := r.phase[w := p])
  }

  // ---- steps -----------------------------------------------------------------------------

  /** plat_inc32(&g_ring_done) % need, reached past the copy's entry fence. */
  ghost predicate Count(r: Ring, r': Ring, w: nat) {
    && Counting(r, r', w)
    && (forall u | 0 <= u < |r.at| && u != w :: r.at[w] <= r.at[u])
  }

  ghost predicate Counting(r: Ring, r': Ring, w: nat) {
    && Worker(r, w) && r.phase[w] == Away
    && r' == Set(r, w, if (r.done + 1) % |r.at| == 0 then Filling else Passed).(done := r.done + 1)
  }

  ghost predicate Fill(r: Ring, r': Ring, w: nat) {
    && Worker(r, w) && r.phase[w] == Filling && r.back < |r.slot|
    && r' == Set(r, w, Filled).(slot := r.slot[r.back := r.at[w]])
  }

  ghost predicate Swap(r: Ring, r': Ring, w: nat) {
    && Worker(r, w) && r.phase[w] == Filled
    && r' == Set(r, w, Swapped(r.middle, r.unread)).(middle := r.back, unread := true, filled := r.filled + 1)
  }

  ghost predicate CountMiss(r: Ring, r': Ring, w: nat) {
    && Worker(r, w) && r.phase[w].Swapped?
    && r' == Set(r, w, Missed(r.phase[w].got)).(missed := r.missed + if r.phase[w].unread then 1 else 0)
  }

  ghost predicate CountFrame(r: Ring, r': Ring, w: nat) {
    && Worker(r, w) && r.phase[w].Missed?
    && r' == Set(r, w, Counted(r.phase[w].got)).(published := r.published + 1)
  }

  ghost predicate KeepOld(r: Ring, r': Ring, w: nat) {
    && Worker(r, w) && r.phase[w].Counted?
    && r' == Set(r, w, Passed).(back := r.phase[w].got)
  }

  /** The worker's command is done: its count says so. */
  ghost predicate Leave(r: Ring, r': Ring, w: nat) {
    && Worker(r, w) && r.phase[w] == Passed
    && r' == Set(r, w, Away).(at := r.at[w := r.at[w] + 1])
  }

  /** gxr_ring_take: a look, and then the swap. */
  ghost predicate Look(r: Ring, r': Ring) {
    r.unread && !r.looked && r' == r.(looked := true)
  }

  ghost predicate Take(r: Ring, r': Ring) {
    && r.looked && r.middle < |r.slot|
    && r' == r.(front := r.middle, middle := r.front, unread := false, looked := false, taken := r.taken + 1,
                shown := r.shown + [r.slot[r.middle]])
  }

  ghost predicate WorkerNext(r: Ring, r': Ring, w: nat) {
    || Count(r, r', w) || Fill(r, r', w) || Swap(r, r', w) || CountMiss(r, r', w) || CountFrame(r, r', w)
    || KeepOld(r, r', w) || Leave(r, r', w)
  }

  ghost predicate Next(r: Ring, r': Ring) {
    Look(r, r') || Take(r, r') || exists w :: WorkerNext(r, r', w)
  }

  ghost predicate Init(r: Ring, n: nat) {
    && 0 < n && |r.at| == |r.phase| == n && (forall w | 0 <= w < n :: r.at[w] == 0 && r.phase[w] == Away)
    && r.done == r.published == r.missed == r.taken == r.filled == 0 && !r.unread && !r.looked && r.shown == []
    && r.back == 0 && r.middle == 1 && r.front == 2 && |r.slot| == 3
  }

  // ---- counting ---------------------------------------------------------------------------

  /** How many frames worker w has counted. */
  ghost function Counts(r: Ring, w: nat): nat
    requires Worker(r, w)
  {
    r.at[w] + if r.phase[w] == Away then 0 else 1
  }

  ghost function Sum(r: Ring, m: nat): nat
    requires m <= |r.at| == |r.phase|
  {
    if m == 0 then 0 else Sum(r, m - 1) + Counts(r, m - 1)
  }

  lemma {:induction false} SumChange(r: Ring, r': Ring, m: nat, w: nat, d: int)
    requires m <= |r.at| == |r.phase| == |r'.at| == |r'.phase| && w < |r.at|
    requires forall u: nat | u < |r.at| && u != w :: Counts(r', u) == Counts(r, u)
    requires Counts(r', w) == Counts(r, w) + d
    ensures Sum(r', m) == Sum(r, m) + if w < m then d else 0
  {
    if 0 < m {
      SumChange(r, r', m - 1, w, d);
    }
  }

  /** Counts of f or f + 1 add up to between m * f and m * (f + 1), and to the most only if
      every worker has counted f + 1. */
  lemma {:induction false} SumBetween(r: Ring, m: nat, f: nat)
    requires m <= |r.at| == |r.phase|
    requires forall w: nat | w < m :: f <= Counts(r, w) <= f + 1
    ensures Times(m, f) <= Sum(r, m) <= Times(m, f) + m
    ensures Sum(r, m) == Times(m, f) + m ==> forall w: nat | w < m :: Counts(r, w) == f + 1
    ensures (exists w: nat :: w < m && Counts(r, w) == f + 1) ==> Times(m, f) < Sum(r, m)
  {
    if 0 < m {
      SumBetween(r, m - 1, f);
      assert Times(m, f) == Times(m - 1, f) + f;
    }
  }

  lemma MultipleOf(n: nat, f: nat, x: nat)
    requires 0 < n && Times(n, f) < x <= Times(n, f) + n
    ensures x % n == 0 <==> x == Times(n, f) + n
  {
    assert Times(n, f) == Times(f, n);
    if x < Times(n, f) + n {
      DivMod(f, x - Times(f, n), n);
      assert Remainder(x, n) == x - Times(f, n);
    } else {
      DivMod(f + 1, 0, n);
      assert Times(f + 1, n) == Times(f, n) + n;
      assert Remainder(x, n) == 0;
    }
  }

  // ---- the invariant -------------------------------------------------------------------------

  predicate FillPhase(p: Phase) { !p.Away? && !p.Passed? }

  ghost predicate Filler(r: Ring, w: nat) { Worker(r, w) && FillPhase(r.phase[w]) }

  ghost predicate CountsInv(r: Ring) {
    && 0 < |r.at| == |r.phase| && r.done == Sum(r, |r.at|)
    // the entry fence: no worker is a frame ahead of another
    && (forall w: nat, u: nat | w < |r.at| && u < |r.at| && w != u :: Counts(r, w) <= r.at[u] + 1)
    // the filler completed the count, and there is one filler
    && (forall w: nat | Filler(r, w) :: forall u: nat | u < |r.at| :: Counts(r, u) == r.at[w] + 1)
    && (forall w: nat, u: nat | Filler(r, w) && Filler(r, u) :: w == u)
  }

  ghost predicate Distinct(a: nat, b: nat, c: nat) { a < 3 && b < 3 && c < 3 && a != b && b != c && a != c }

  ghost predicate SlotsInv(r: Ring) {
    && |r.slot| == 3
    && (forall w: nat | Filler(r, w) ::
          match r.phase[w]
          case Filling => Distinct(r.back, r.middle, r.front)
          case Filled => Distinct(r.back, r.middle, r.front) && r.slot[r.back] == r.at[w]
          case Swapped(k, _) => Distinct(k, r.middle, r.front)
          case Missed(k) => Distinct(k, r.middle, r.front)
          case Counted(k) => Distinct(k, r.middle, r.front)
          case _ => true)
    && ((forall w: nat | w < |r.phase| :: !FillPhase(r.phase[w])) ==> Distinct(r.back, r.middle, r.front))
    && r.middle < 3 && r.front < 3 && r.middle != r.front
    && (r.looked ==> r.unread)
  }

  ghost function Pending(r: Ring, w: nat): (int, int)
    requires Worker(r, w)
  {
    match r.phase[w]
    case Swapped(_, unread) => (1, if unread then 1 else 0)
    case Missed(_) => (1, 0)
    case _ => (0, 0)
  }

  /** Frames swapped in, each taken, missed or still unread; the counters trail by the filler. */
  ghost predicate TallyInv(r: Ring) {
    && (forall w: nat | Filler(r, w) ::
          && r.published + Pending(r, w).0 == r.filled
          && r.filled == r.taken + r.missed + Pending(r, w).1 + (if r.unread then 1 else 0))
    && ((forall w: nat | w < |r.phase| :: !FillPhase(r.phase[w])) ==>
          && r.published == r.filled
          && r.filled == r.taken + r.missed + (if r.unread then 1 else 0))
  }

  /** Frames come out in order: a unread middle slot holds the last frame swapped in, and the
      presenter has only ever been shown earlier ones, each newer than the one before. */
  ghost predicate OrderInv(r: Ring) {
    && |r.slot| == 3 && r.middle < 3 && 0 < |r.at| == |r.phase|
    && (r.unread ==> r.slot[r.middle] == r.filled - 1)
    && (forall i | 0 <= i < |r.shown| :: r.shown[i] < r.filled)
    && (r.unread ==> forall i | 0 <= i < |r.shown| :: r.shown[i] < r.filled - 1)
    && (forall i, j | 0 <= i < j < |r.shown| :: r.shown[i] < r.shown[j])
    // the next frame to fill is the one its filler counts
    && (forall w: nat | Filler(r, w) && (r.phase[w].Filling? || r.phase[w].Filled?) :: r.at[w] == r.filled)
    && (forall w: nat | Filler(r, w) && !r.phase[w].Filling? && !r.phase[w].Filled? :: r.filled == r.at[w] + 1)
    && ((forall w: nat | w < |r.phase| :: !FillPhase(r.phase[w])) ==>
          Times(|r.at|, r.filled) <= r.done < Times(|r.at|, r.filled) + |r.at|)
  }

  ghost predicate Inv(r: Ring) {
    CountsInv(r) && SlotsInv(r) && TallyInv(r) && OrderInv(r)
  }

  // ---- every step keeps it ---------------------------------------------------------------------

  lemma InitHolds(r: Ring, n: nat)
    requires Init(r, n)
    ensures Inv(r)
  {
    SumZero(r, n);
  }

  lemma {:induction false} SumZero(r: Ring, m: nat)
    requires m <= |r.at| == |r.phase| && forall w: nat | w < m :: Counts(r, w) == 0
    ensures Sum(r, m) == 0
  {
    if 0 < m {
      SumZero(r, m - 1);
    }
  }

  /** When a worker counts frame f, every count is f or f + 1; so the count is complete
      exactly when every worker has counted it. */
  lemma CountCompletes(r: Ring, r': Ring, w: nat)
    requires CountsInv(r) && Count(r, r', w)
    ensures r'.done == Sum(r', |r.at|) && Counts(r', w) == r.at[w] + 1
    ensures Times(|r.at|, r.at[w]) < r'.done <= Times(|r.at|, r.at[w]) + |r.at|
    ensures r'.phase[w] == Filling <==> r'.done == Times(|r.at|, r.at[w]) + |r.at|
    ensures r'.phase[w] == Filling ==> forall u: nat | u < |r.at| :: Counts(r', u) == r.at[w] + 1
  {
    var n, f := |r.at|, r.at[w];
    SumChange(r, r', n, w, 1);
    forall u: nat | u < n
      ensures f <= Counts(r', u) <= f + 1
    {
      if u != w {
        assert Counts(r, u) <= r.at[w] + 1;
      }
    }
    SumBetween(r', n, f);
    MultipleOf(n, f, r'.done);
  }

  lemma CountedAll(r: Ring, u: nat, w: nat)
    requires CountsInv(r) && Filler(r, u) && w < |r.at|
    ensures Counts(r, w) == r.at[u] + 1
  {
  }

  ghost predicate NoFiller(r: Ring) { forall w: nat | w < |r.phase| :: !FillPhase(r.phase[w]) }

  lemma CountNoFiller(r: Ring, r': Ring, w: nat)
    requires CountsInv(r) && Count(r, r', w)
    ensures NoFiller(r)
  {
    hide CountsInv;
    forall u: nat | u < |r.phase|
      ensures !FillPhase(r.phase[u])
    {
      if FillPhase(r.phase[u]) {
        CountedAll(r, u, w);
      }
    }
  }

  lemma TimesOrder(n: nat, a: nat, b: nat)
    requires 0 < n
    ensures a < b ==> Times(n, a) + n <= Times(n, b)
    ensures Times(n, a + 1) == Times(n, a) + n
  {
    if a < b {
      TimesMonotone(a, b, n);
    }
  }

  lemma CountCounts(r: Ring, r': Ring, w: nat)
    requires CountsInv(r) && Count(r, r', w)
    ensures CountsInv(r')
  {
    CountCompletes(r, r', w);
    CountNoFiller(r, r', w);
    assert forall u: nat | Filler(r', u) :: u == w;
    forall u: nat | u < |r.at| && u != w ensures Counts(r', u) == Counts(r, u) {}
    hide Sum;
  }

  lemma CountOrder(r: Ring, r': Ring, w: nat)
    requires CountsInv(r) && OrderInv(r) && Count(r, r', w)
    ensures OrderInv(r')
  {
    CountCompletes(r, r', w);
    CountNoFiller(r, r', w);
    hide CountsInv, Sum;
    assert forall u: nat | Filler(r', u) :: u == w;
    TimesOrder(|r.at|, r.filled, r.at[w]);
    TimesOrder(|r.at|, r.at[w], r.filled);
  }

  lemma CountKeeps(r: Ring, r': Ring, w: nat)
    requires Inv(r) && Count(r, r', w)
    ensures Inv(r')
  {
    CountCounts(r, r', w);
    CountOrder(r, r', w);
    CountNoFiller(r, r', w);
    hide CountsInv, OrderInv, Sum;
    assert forall u: nat | Filler(r', u) :: u == w;
    assert NoFiller(r);
  }

  ghost predicate FillStep(r: Ring, r': Ring, w: nat) {
    || Fill(r, r', w) || Swap(r, r', w) || CountMiss(r, r', w) || CountFrame(r, r', w) || KeepOld(r, r', w)
  }

  lemma QuietFacts(r: Ring, r': Ring, w: nat)
    requires 0 < |r.at| && (FillStep(r, r', w) || Leave(r, r', w))
    ensures |r'.at| == |r'.phase| == |r.at| == |r.phase| && w < |r.at| && r'.done == r.done
    ensures forall u: nat | u < |r.at| :: Counts(r', u) == Counts(r, u) && r.at[u] <= r'.at[u]
    ensures forall u: nat | Filler(r', u) :: Filler(r, u) && r'.at[u] == r.at[u]
  {
  }

  lemma QuietCounts(r: Ring, r': Ring, w: nat)
    requires CountsInv(r) && (FillStep(r, r', w) || Leave(r, r', w))
    ensures CountsInv(r')
  {
    QuietFacts(r, r', w);
    SumChange(r, r', |r.at|, w, 0);
    hide Sum, FillStep, Leave, Filler, Counts;
  }

  lemma OnlyFiller(r: Ring, w: nat)
    requires CountsInv(r) && Filler(r, w)
    ensures forall u: nat | u < |r.phase| && u != w :: !FillPhase(r.phase[u])
  {
    forall u: nat | u < |r.phase| && u != w ensures !FillPhase(r.phase[u]) { assert !Filler(r, u); }
  }

  /** With every count at f + 1 they add up to n * (f + 1). */
  lemma FillerDone(r: Ring, w: nat)
    requires CountsInv(r) && Filler(r, w)
    ensures r.done == Times(|r.at|, r.at[w] + 1)
  {
    SumEqual(r, |r.at|, r.at[w] + 1);
  }

  lemma {:induction false} SumEqual(r: Ring, m: nat, f: nat)
    requires m <= |r.at| == |r.phase| && forall u: nat | u < m :: Counts(r, u) == f
    ensures Sum(r, m) == Times(m, f)
  {
    if 0 < m {
      SumEqual(r, m - 1, f);
      assert Times(m, f) == Times(m - 1, f) + f;
    }
  }

  lemma FillStepSlots(r: Ring, r': Ring, w: nat)
    requires CountsInv(r) && SlotsInv(r) && FillStep(r, r', w)
    ensures SlotsInv(r')
  {
    OnlyFiller(r, w);
    hide CountsInv;
    assert Filler(r, w);
    assert forall u: nat | Filler(r', u) :: u == w;
  }

  lemma FillStepTally(r: Ring, r': Ring, w: nat)
    requires CountsInv(r) && TallyInv(r) && FillStep(r, r', w) && !KeepOld(r, r', w)
    ensures TallyInv(r')
  {
    OnlyFiller(r, w);
    hide CountsInv;
    assert Filler(r, w) && Filler(r', w) && FillPhase(r'.phase[w]);
    assert r.published + Pending(r, w).0 == r.filled;
    forall u: nat | Filler(r', u)
      ensures u == w
    {
    }
  }

  lemma KeepOldTally(r: Ring, r': Ring, w: nat)
    requires CountsInv(r) && TallyInv(r) && KeepOld(r, r', w)
    ensures TallyInv(r')
  {
    OnlyFiller(r, w);
    hide CountsInv;
    assert Filler(r, w);
    assert r.published + Pending(r, w).0 == r.filled;
    forall u: nat | Filler(r', u)
      ensures u == w
    {
    }
  }

  lemma FillOrder(r: Ring, r': Ring, w: nat)
    requires CountsInv(r) && SlotsInv(r) && OrderInv(r) && Fill(r, r', w)
    ensures OrderInv(r')
  {
    OnlyFiller(r, w);
    hide CountsInv;
    assert Filler(r, w) && Filler(r', w);
    assert Distinct(r.back, r.middle, r.front);
    hide SlotsInv;
    forall u: nat | Filler(r', u) ensures u == w {}
  }

  lemma SwapOrder(r: Ring, r': Ring, w: nat)
    requires CountsInv(r) && SlotsInv(r) && OrderInv(r) && Swap(r, r', w)
    ensures OrderInv(r')
  {
    OnlyFiller(r, w);
    hide CountsInv;
    assert Filler(r, w) && Filler(r', w);
    assert Distinct(r.back, r.middle, r.front);
    assert r.slot[r.back] == r.at[w];
    hide SlotsInv;
    forall u: nat | Filler(r', u) ensures u == w {}
  }

  lemma TallyOrder(r: Ring, r': Ring, w: nat)
    requires CountsInv(r) && OrderInv(r) && (CountMiss(r, r', w) || CountFrame(r, r', w) || KeepOld(r, r', w))
    ensures OrderInv(r')
  {
    OnlyFiller(r, w);
    FillerDone(r, w);
    hide CountsInv;
    assert Filler(r, w);
    assert forall u: nat | Filler(r', u) :: u == w;
  }

  lemma FillStepKeeps(r: Ring, r': Ring, w: nat)
    requires Inv(r) && FillStep(r, r', w)
    ensures Inv(r')
  {
    hide CountsInv, SlotsInv, TallyInv, OrderInv;
    QuietCounts(r, r', w);
    FillStepSlots(r, r', w);
    if KeepOld(r, r', w) {
      KeepOldTally(r, r', w);
    } else {
      FillStepTally(r, r', w);
    }
    if Fill(r, r', w) {
      FillOrder(r, r', w);
    } else if Swap(r, r', w) {
      SwapOrder(r, r', w);
    } else {
      TallyOrder(r, r', w);
    }
  }

  lemma LeaveKeeps(r: Ring, r': Ring, w: nat)
    requires Inv(r) && Leave(r, r', w)
    ensures Inv(r')
  {
    QuietCounts(r, r', w);
    hide CountsInv;
    forall u: nat | Filler(r', u) ensures Filler(r, u) && r'.phase[u] == r.phase[u] && r'.at[u] == r.at[u] {}
    assert NoFiller(r') ==> NoFiller(r) by {
      if NoFiller(r') {
        forall u: nat | u < |r.phase| ensures !FillPhase(r.phase[u]) { assert !FillPhase(r'.phase[u]); }
      }
    }
    LeaveOthers(r, r', w);
  }

  lemma LeaveOthers(r: Ring, r': Ring, w: nat)
    requires SlotsInv(r) && TallyInv(r) && OrderInv(r) && Leave(r, r', w)
    requires forall u: nat | Filler(r', u) :: Filler(r, u) && r'.phase[u] == r.phase[u] && r'.at[u] == r.at[u]
    requires NoFiller(r') ==> NoFiller(r)
    ensures SlotsInv(r') && TallyInv(r') && OrderInv(r')
  {
    hide FillPhase;
    assert SlotsInv(r') by { hide TallyInv, OrderInv; }
    assert TallyInv(r') by { hide SlotsInv, OrderInv; }
    assert OrderInv(r') by { hide TallyInv; }
  }

  lemma TakerCounts(r: Ring, r': Ring)
    requires CountsInv(r) && (Take(r, r') || Look(r, r'))
    ensures CountsInv(r')
  {
    SameSum(r, r', |r.at|);
    hide Sum;
    forall u: nat | u < |r.at| ensures Counts(r', u) == Counts(r, u) {}
    forall u: nat | Filler(r', u) ensures Filler(r, u) {}
  }

  lemma TakerSlots(r: Ring, r': Ring)
    requires SlotsInv(r) && (Take(r, r') || Look(r, r'))
    ensures SlotsInv(r')
  {
    forall u: nat | Filler(r', u) ensures Filler(r, u) {}
  }

  lemma TakerTally(r: Ring, r': Ring)
    requires TallyInv(r) && SlotsInv(r) && (Take(r, r') || Look(r, r'))
    ensures TallyInv(r')
  {
    assert r.looked ==> r.unread;
    hide SlotsInv;
    forall u: nat | Filler(r', u) ensures Filler(r, u) && Pending(r', u) == Pending(r, u) {}
  }

  lemma TakerOrder(r: Ring, r': Ring)
    requires OrderInv(r) && SlotsInv(r) && (Take(r, r') || Look(r, r'))
    ensures OrderInv(r')
  {
    assert r.looked ==> r.unread;
    assert r.front < 3;
    hide SlotsInv;
    forall u: nat | Filler(r', u) ensures Filler(r, u) {}
  }

  lemma TakeKeeps(r: Ring, r': Ring)
    requires Inv(r) && (Take(r, r') || Look(r, r'))
    ensures Inv(r')
  {
    hide CountsInv, SlotsInv, TallyInv, OrderInv;
    TakerCounts(r, r');
    TakerSlots(r, r');
    TakerTally(r, r');
    TakerOrder(r, r');
  }

  lemma {:induction false} SameSum(r: Ring, r': Ring, m: nat)
    requires m <= |r.at| == |r.phase| && r'.at == r.at && r'.phase == r.phase
    ensures Sum(r', m) == Sum(r, m)
  {
    if 0 < m {
      SameSum(r, r', m - 1);
    }
  }

  lemma NextKeeps(r: Ring, r': Ring)
    requires Inv(r) && Next(r, r')
    ensures Inv(r')
  {
    hide Inv;
    if Look(r, r') || Take(r, r') {
      TakeKeeps(r, r');
    } else {
      var w :| WorkerNext(r, r', w);
      if Count(r, r', w) {
        CountKeeps(r, r', w);
      } else if Leave(r, r', w) {
        LeaveKeeps(r, r', w);
      } else {
        FillStepKeeps(r, r', w);
      }
    }
  }

  ghost predicate Run(trace: seq<Ring>, n: nat) {
    trace != [] && Init(trace[0], n) && forall i | 0 < i < |trace| :: Next(trace[i - 1], trace[i])
  }

  lemma {:induction false} RunInv(trace: seq<Ring>, n: nat, i: nat)
    requires Run(trace, n) && i < |trace|
    ensures Inv(trace[i])
  {
    if i == 0 {
      InitHolds(trace[0], n);
    } else {
      RunInv(trace, n, i - 1);
      hide Inv;
      NextKeeps(trace[i - 1], trace[i]);
    }
  }

  // ---- what a run gives ----------------------------------------------------------------------------

  /** The filler writes a slot that is neither published nor the presenter's, and writes the
      next frame into it. */
  lemma FillerNeverWritesTheTakersSlot(trace: seq<Ring>, n: nat, i: nat, w: nat)
    requires Run(trace, n) && i + 1 < |trace| && Fill(trace[i], trace[i + 1], w)
    ensures var r := trace[i];
            Distinct(r.back, r.middle, r.front)
            && r.back < |r.slot| && trace[i + 1].slot == r.slot[r.back := r.filled]
  {
    RunInv(trace, n, i);
    assert Filler(trace[i], w);
  }

  /** Each frame is filled by one worker, and only one at a time fills. */
  lemma OneFiller(trace: seq<Ring>, n: nat, i: nat, v: nat, w: nat)
    requires Run(trace, n) && i < |trace| && Filler(trace[i], v) && Filler(trace[i], w)
    ensures v == w
  {
    RunInv(trace, n, i);
  }

  /** Between fills the three slots are back, middle and front, and every published frame was
      taken, missed, or is waiting unread. */
  lemma QuietRing(trace: seq<Ring>, n: nat, i: nat)
    requires Run(trace, n) && i < |trace| && forall w: nat | w < |trace[i].phase| :: !FillPhase(trace[i].phase[w])
    ensures var r := trace[i];
            && Distinct(r.back, r.middle, r.front)
            && r.published == r.taken + r.missed + (if r.unread then 1 else 0)
  {
    RunInv(trace, n, i);
  }

  /** The presenter is shown frames in order, none twice, and a take gets the newest. */
  lemma FramesInOrder(trace: seq<Ring>, n: nat, i: nat)
    requires Run(trace, n) && i + 1 < |trace| && Take(trace[i], trace[i + 1])
    ensures var shown := trace[i + 1].shown;
            && shown == trace[i].shown + [trace[i].filled - 1]
            && forall j, k | 0 <= j < k < |shown| :: shown[j] < shown[k]
  {
    RunInv(trace, n, i);
    RunInv(trace, n, i + 1);
  }
}
