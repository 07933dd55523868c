/**
  The queue and the screen's ring together: workers run commands, and the ring's steps at a
  copy that ends a frame; the presenter takes slots. Proved: the queue's fences are all the
  ring asks for, and every picture the presenter is shown is the one-at-a-time run's screen
  after the copy that ends the frame of that number.
 */
module ScreenRuns {
  import opened Commands
  import opened PendingCopies
  import opened RenderQueue
  import opened QueueInvariant
  import opened QueueTheorems
  import opened QueueRaces
  import opened QueueRuns
  import R = ScreenRing

  /** `pic` is what the ring's three slots hold, `shown` what the presenter was shown. */
  datatype Both = Both(s: State, ring: R.Ring, pic: seq<seq<Row>>, shown: seq<seq<Row>>)

  /** Worker w is at a copy that ends a frame, its rows of it done. */
  ghost predicate AtEnd(s: State, last: nat -> bool, w: nat) {
    && Base(s) && w < |s.workers| && s.workers[w].phase.Running? && s.workers[w].ran < |s.log|
    && last(s.workers[w].ran) && CopiedOut(s, w, s.workers[w].ran)
  }

  // ---- steps ---------------------------------------------------------------------------------

  /** Worker w finishes the command that ends a frame. */
  ghost predicate EndsOne(s: State, s': State, last: nat -> bool, w: nat) {
    Finish(s, s', w) && last(s.workers[w].ran)
  }

  ghost predicate QueueStep(b: Both, b': Both, last: nat -> bool) {
    && Next(b.s, b'.s) && EndsFrames(b'.s, last) && (forall w :: !EndsOne(b.s, b'.s, last, w))
    && b' == b.(s := b'.s)
  }

  /** It does so only once it is through with the ring. */
  ghost predicate LeaveStep(b: Both, b': Both, last: nat -> bool, w: nat) {
    EndsOne(b.s, b'.s, last, w) && R.Leave(b.ring, b'.ring, w) && b' == b.(s := b'.s, ring := b'.ring)
  }

  /** ring_fill, with no fence of its own. */
  ghost predicate RingStep(b: Both, b': Both, last: nat -> bool, w: nat) {
    && AtEnd(b.s, last, w)
    && (|| (R.Counting(b.ring, b'.ring, w) && b' == b.(ring := b'.ring))
        || FillStep(b, b', w)
        || ((R.Swap(b.ring, b'.ring, w) || R.CountMiss(b.ring, b'.ring, w) || R.CountFrame(b.ring, b'.ring, w) || R.KeepOld(b.ring, b'.ring, w))
            && b' == b.(ring := b'.ring)))
  }

  ghost predicate FillStep(b: Both, b': Both, w: nat) {
    && R.Fill(b.ring, b'.ring, w) && b.ring.back < |b.pic|
    && b' == b.(ring := b'.ring, pic := b.pic[b.ring.back := b.s.world.screen])
  }

  ghost predicate TakerStep(b: Both, b': Both) {
    || (R.Look(b.ring, b'.ring) && b' == b.(ring := b'.ring))
    || (R.Take(b.ring, b'.ring) && b.ring.middle < |b.pic|
        && b' == b.(ring := b'.ring, shown := b.shown + [b.pic[b.ring.middle]]))
  }

  ghost predicate Step(b: Both, b': Both, last: nat -> bool) {
    || QueueStep(b, b', last) || TakerStep(b, b')
    || exists w :: LeaveStep(b, b', last, w) || RingStep(b, b', last, w)
  }

  ghost predicate Begins(b: Both, n: nat) {
    Init(b.s, n) && R.Init(b.ring, n) && |b.pic| == 3 && b.shown == []
  }

  ghost predicate BothRun(trace: seq<Both>, last: nat -> bool, n: nat) {
    && trace != [] && Begins(trace[0], n)
    && forall i | 0 < i < |trace| :: Step(trace[i - 1], trace[i], last)
  }

  // ---- what holds in every state ------------------------------------------------------------------

  /** p is the screen of frame f. */
  ghost predicate Shows(s: State, last: nat -> bool, p: seq<Row>, f: int)
    requires Base(s)
  {
    exists k: nat :: k < |s.log| && last(k) && Frames(last, k) == f && p == Post(s, k).screen
  }

  ghost predicate Places(s: State, r: R.Ring, last: nat -> bool) {
    && |r.at| == |r.phase| == |s.workers|
    && forall w: nat | w < |r.at| ::
         r.at[w] == Frames(last, s.workers[w].ran) && (r.phase[w] != R.Away ==> AtEnd(s, last, w))
  }

  ghost predicate Pictures(b: Both, last: nat -> bool)
    requires Base(b.s)
  {
    var r := b.ring;
    && |b.pic| == |r.slot| == 3 && |b.shown| == |r.shown| && r.middle < 3
    && (r.unread ==> Shows(b.s, last, b.pic[r.middle], r.slot[r.middle]))
    && (forall w: nat | w < |r.phase| && r.phase[w] == R.Filled ::
          r.back < 3 && Shows(b.s, last, b.pic[r.back], r.slot[r.back]))
    && (forall j | 0 <= j < |b.shown| :: Shows(b.s, last, b.shown[j], r.shown[j]))
  }

  ghost predicate BothInv(b: Both, last: nat -> bool) {
    Inv(b.s) && R.Inv(b.ring) && EndsFrames(b.s, last) && Places(b.s, b.ring, last) && Pictures(b, last)
  }

  // ---- queue steps -----------------------------------------------------------------------------------

  /** What no step takes back. */
  ghost predicate Past(s: State, s': State) {
    && Base(s) && Base(s') && |s.log| <= |s'.log| && N(s') == N(s)
    && forall k | 0 <= k < |s.log| :: s'.log[k] == s.log[k] && s'.hist[k] == s.hist[k]
  }

  lemma NextPast(s: State, s': State)
    requires Inv(s) && Next(s, s')
    ensures Past(s, s')
  {
    NextKeeps(s, s');
    NextLog(s, s');
  }

  lemma NextLog(s: State, s': State)
    requires Base(s) && Next(s, s')
    ensures |s.log| <= |s'.log| && |s.hist| <= |s'.hist|
    ensures forall k | 0 <= k < |s.log| :: s'.log[k] == s.log[k] && s'.hist[k] == s.hist[k]
  {
    hide Resolves, Fenced, RunBody, Translate, TakesNoSuspect, IsTask, FenceOn;
  }

  lemma PastShows(s: State, s': State, last: nat -> bool, p: seq<Row>, f: int)
    requires Past(s, s') && Shows(s, last, p, f)
    ensures Shows(s', last, p, f)
  {
    var k: nat :| k < |s.log| && last(k) && Frames(last, k) == f && p == Post(s, k).screen;
    assert Post(s', k) == Post(s, k);
  }

  /** A step leaves a worker where it was, or it finishes its command. */
  lemma WorkerMoves(s: State, s': State, u: nat)
    requires Inv(s) && Next(s, s') && u < |s.workers|
    ensures |s'.workers| == |s.workers|
    ensures var v, v' := s.workers[u], s'.workers[u];
            || (v'.ran == v.ran && (v.phase.Running? ==> v'.phase.Running? && v.phase.done <= v'.phase.done))
            || (Finish(s, s', u) && v'.ran == v.ran + 1)
  {
    hide Inv, ProducerStep, WorkerStep;
    if ProducerStep(s, s') {
      ProducerStays(s, s');
    } else {
      var w: nat :| WorkerStep(s, s', w);
      InvSlots(s);
      OneMoves(s, s', w, u);
    }
  }

  lemma ProducerStays(s: State, s': State)
    requires ProducerStep(s, s')
    ensures s'.workers == s.workers
  {
    hide Resolves, Fenced, RunBody, Translate, TakesNoSuspect, FeedOk, Kept, Uncovered, Covered, Finished;
  }

  lemma InvSlots(s: State)
    requires Inv(s)
    ensures |s.slots| == QUEUE_CAP
    ensures forall w | 0 <= w < |s.workers| && s.workers[w].ran < |s.log| :: s.slots[SlotOf(s.workers[w].ran)].num == s.workers[w].ran
  {
    hide FencesInv, PlanInv, MemInv, ChainInv, ListInv, RowsInv, OpsInv, CountsInv;
    forall w | 0 <= w < |s.workers| && s.workers[w].ran < |s.log|
      ensures s.slots[SlotOf(s.workers[w].ran)].num == s.workers[w].ran
    {
      SlotFound(s, w);
    }
  }

  lemma OneMoves(s: State, s': State, w: nat, u: nat)
    requires WorkerStep(s, s', w) && u < |s.workers| && |s.slots| == QUEUE_CAP
    requires w < |s.workers| && s.workers[w].ran < |s.log| ==> s.slots[SlotOf(s.workers[w].ran)].num == s.workers[w].ran
    ensures |s'.workers| == |s.workers|
    ensures var v, v' := s.workers[u], s'.workers[u];
            || (v'.ran == v.ran && (v.phase.Running? ==> v'.phase.Running? && v.phase.done <= v'.phase.done))
            || (Finish(s, s', u) && v'.ran == v.ran + 1)
  {
    hide IsTask, FenceOn;
  }

  lemma StaysAtEnd(s: State, s': State, last: nat -> bool, u: nat)
    requires Past(s, s') && AtEnd(s, last, u)
    requires s'.workers[u].ran == s.workers[u].ran && s'.workers[u].phase.Running?
    requires s.workers[u].phase.done <= s'.workers[u].phase.done
    ensures AtEnd(s', last, u)
  {
  }

  lemma QueueStepPlaces(b: Both, b': Both, last: nat -> bool)
    requires BothInv(b, last) && QueueStep(b, b', last)
    ensures Places(b'.s, b'.ring, last)
  {
    hide Inv, Next, CopiedOut, Base, R.Inv, Pictures, Finish;
    var s, s', r := b.s, b'.s, b.ring;
    NextPast(s, s');
    forall w: nat | w < |r.at|
      ensures r.at[w] == Frames(last, s'.workers[w].ran) && (r.phase[w] != R.Away ==> AtEnd(s', last, w))
    {
      WorkerMoves(s, s', w);
      assert !EndsOne(s, s', last, w);
      if s'.workers[w].ran == s.workers[w].ran {
        if r.phase[w] != R.Away {
          StaysAtEnd(s, s', last, w);
        }
      } else {
        assert Frames(last, s.workers[w].ran + 1) == Frames(last, s.workers[w].ran);
      }
    }
  }

  lemma PicturesStay(b: Both, b': Both, last: nat -> bool)
    requires Base(b.s) && Past(b.s, b'.s) && Pictures(b, last) && b'.pic == b.pic && b'.shown == b.shown
    requires b'.ring.slot == b.ring.slot && b'.ring.shown == b.ring.shown
    requires b'.ring.middle == b.ring.middle && b'.ring.unread == b.ring.unread && b'.ring.back == b.ring.back
    requires forall w: nat | w < |b'.ring.phase| && b'.ring.phase[w] == R.Filled :: w < |b.ring.phase| && b.ring.phase[w] == R.Filled
    ensures Pictures(b', last)
  {
    var r := b.ring;
    hide Base, Shows;
    if r.unread {
      PastShows(b.s, b'.s, last, b.pic[r.middle], r.slot[r.middle]);
    }
    forall w: nat | w < |b'.ring.phase| && b'.ring.phase[w] == R.Filled
      ensures r.back < 3 && Shows(b'.s, last, b.pic[r.back], r.slot[r.back])
    {
      PastShows(b.s, b'.s, last, b.pic[r.back], r.slot[r.back]);
    }
    forall j | 0 <= j < |b.shown| ensures Shows(b'.s, last, b.shown[j], r.shown[j]) {
      PastShows(b.s, b'.s, last, b.shown[j], r.shown[j]);
    }
  }

  lemma QueueStepKeeps(b: Both, b': Both, last: nat -> bool)
    requires BothInv(b, last) && QueueStep(b, b', last)
    ensures BothInv(b', last)
  {
    QueueStepPlaces(b, b', last);
    hide Inv, R.Inv, Next, Places, Pictures, EndsOne, Base;
    NextKeeps(b.s, b'.s);
    NextPast(b.s, b'.s);
    PicturesStay(b, b', last);
  }

  lemma LeavePlaces(b: Both, b': Both, last: nat -> bool, w: nat)
    requires BothInv(b, last) && LeaveStep(b, b', last, w)
    ensures Places(b'.s, b'.ring, last)
  {
    hide Inv, Next, CopiedOut, Base, Finish, R.Inv, Pictures;
    var s, s', r, r' := b.s, b'.s, b.ring, b'.ring;
    FinishNext(s, s', w);
    FinishMoves(s, s', w);
    NextPast(s, s');
    forall u: nat | u < |r'.at|
      ensures r'.at[u] == Frames(last, s'.workers[u].ran) && (r'.phase[u] != R.Away ==> AtEnd(s', last, u))
    {
      if u != w && r.phase[u] != R.Away {
        StaysAtEnd(s, s', last, u);
      }
    }
  }

  lemma FinishMoves(s: State, s': State, w: nat)
    requires Finish(s, s', w)
    ensures |s'.workers| == |s.workers| && w < |s.workers| && s'.workers[w].ran == s.workers[w].ran + 1
    ensures forall u | 0 <= u < |s.workers| && u != w :: s'.workers[u] == s.workers[u]
  {
  }

  lemma FinishNext(s: State, s': State, w: nat)
    requires Finish(s, s', w)
    ensures Next(s, s')
  {
    assert WorkerStep(s, s', w);
  }

  lemma SameEnds(s: State, s': State, last: nat -> bool, w: nat)
    requires Finish(s, s', w) && EndsFrames(s, last)
    ensures EndsFrames(s', last)
  {
  }

  lemma LeaveStepKeeps(b: Both, b': Both, last: nat -> bool, w: nat)
    requires BothInv(b, last) && LeaveStep(b, b', last, w)
    ensures BothInv(b', last)
  {
    hide Inv, R.Inv, Next, Places, Pictures, Finish, Base, EndsFrames;
    LeavePlaces(b, b', last, w);
    LeaveRing(b, b', last, w);
    FinishNext(b.s, b'.s, w);
    SameEnds(b.s, b'.s, last, w);
    NextKeeps(b.s, b'.s);
    NextPast(b.s, b'.s);
    R.NextKeeps(b.ring, b'.ring);
    PicturesStay(b, b', last);
  }

  // ---- ring steps ------------------------------------------------------------------------------------

  /** The guard the ring's count needs is there without asking. */
  lemma CountIsFenced(b: Both, r': R.Ring, last: nat -> bool, w: nat)
    requires BothInv(b, last) && AtEnd(b.s, last, w) && R.Counting(b.ring, r', w)
    ensures R.Count(b.ring, r', w)
  {
    hide Inv, CopiedOut, Base;
    forall u | 0 <= u < |b.ring.at| && u != w
      ensures b.ring.at[w] <= b.ring.at[u]
    {
      NoneBehind(b.s, last, w, u);
    }
  }

  /** When the filler copies the screen out, it is whole, and the frame of the filler's number. */
  lemma FillShows(b: Both, last: nat -> bool, w: nat)
    requires BothInv(b, last) && AtEnd(b.s, last, w) && w < |b.ring.phase| && b.ring.phase[w] == R.Filling
    ensures Shows(b.s, last, b.s.world.screen, b.ring.at[w])
  {
    hide MemInv, ListInv, OpsInv, R.SlotsInv, R.TallyInv, R.OrderInv, R.CountsInv, CountsInv, FencesInv, PlanInv, ChainInv, RowsInv, CopiedOut, Pictures, Places;
    PlacesShape(b.s, b.ring, last);
    PlaceOf(b.s, b.ring, last, w);
    AllCopied(b.s, b.ring, last, w);
    ScreenWhole(b.s, b.s.workers[w].ran, w);
  }

  lemma PlaceOf(s: State, r: R.Ring, last: nat -> bool, w: nat)
    requires Places(s, r, last) && w < |r.at|
    ensures w < |s.workers| && r.at[w] == Frames(last, s.workers[w].ran) && (r.phase[w] != R.Away ==> AtEnd(s, last, w))
  {
  }

  lemma AllCopied(s: State, r: R.Ring, last: nat -> bool, w: nat)
    requires Base(s) && R.CountsInv(r) && Places(s, r, last) && AtEnd(s, last, w) && w < |r.phase| && r.phase[w] == R.Filling
    ensures forall u | 0 <= u < |s.workers| :: CopiedOut(s, u, s.workers[w].ran)
  {
    hide Places, AtEnd, Base, R.CountsInv;
    PlacesShape(s, r, last);
    PlaceOf(s, r, last, w);
    var k := s.workers[w].ran;
    forall u | 0 <= u < |s.workers|
      ensures CopiedOut(s, u, k)
    {
      R.CountedAll(r, w, u);
      PlaceOf(s, r, last, u);
      Caught(s, last, w, u, r.phase[u] != R.Away);
    }
  }

  lemma PlacesShape(s: State, r: R.Ring, last: nat -> bool)
    requires Places(s, r, last)
    ensures |r.at| == |r.phase| == |s.workers|
  {
  }

  /** A worker whose count is the filler's has its rows of the filler's copy done, or is past it. */
  lemma Caught(s: State, last: nat -> bool, w: nat, u: nat, counted: bool)
    requires AtEnd(s, last, w) && Base(s) && u < |s.workers| && (counted ==> AtEnd(s, last, u))
    requires Frames(last, s.workers[u].ran) + (if counted then 1 else 0) == Frames(last, s.workers[w].ran) + 1
    ensures CopiedOut(s, u, s.workers[w].ran)
  {
    hide Base;
    var k := s.workers[w].ran;
    if s.workers[u].ran <= k {
      FramesRise(last, s.workers[u].ran, k);
      if s.workers[u].ran < k {
        FramesRise(last, s.workers[u].ran + 1, k);
      }
    }
  }

  lemma RingFollows(b: Both, b': Both, last: nat -> bool, w: nat)
    requires BothInv(b, last) && RingStep(b, b', last, w)
    ensures R.WorkerNext(b.ring, b'.ring, w) && R.Inv(b'.ring)
  {
    hide Inv, R.Inv, AtEnd, Places, Pictures;
    if R.Counting(b.ring, b'.ring, w) {
      CountIsFenced(b, b'.ring, last, w);
    }
    assert R.WorkerNext(b.ring, b'.ring, w);
    R.NextKeeps(b.ring, b'.ring);
  }

  lemma RingStepKeeps(b: Both, b': Both, last: nat -> bool, w: nat)
    requires BothInv(b, last) && RingStep(b, b', last, w)
    ensures BothInv(b', last)
  {
    hide Inv, R.Inv, AtEnd, Pictures, Places, Base;
    RingFollows(b, b', last, w);
    RingPlaces(b, b', last, w);
    RingPictures(b, b', last, w);
  }

  lemma RingPlaces(b: Both, b': Both, last: nat -> bool, w: nat)
    requires BothInv(b, last) && RingStep(b, b', last, w)
    ensures Places(b'.s, b'.ring, last)
  {
    hide Inv, R.Inv, AtEnd, Pictures, Base;
  }

  lemma RingPictures(b: Both, b': Both, last: nat -> bool, w: nat)
    requires BothInv(b, last) && RingStep(b, b', last, w)
    ensures Pictures(b', last)
  {
    hide Inv, R.Inv, Places, Pictures, Shows, AtEnd, Base, EndsFrames;
    if FillStep(b, b', w) {
      FillPictures(b, b', last, w);
    } else if R.Swap(b.ring, b'.ring, w) {
      SwapPictures(b, b', last, w);
    } else {
      PastItself(b.s);
      KeepsPictures(b, b', last, w);
    }
  }

  lemma PastItself(s: State)
    requires Inv(s)
    ensures Past(s, s)
  {
    hide CountsInv, FencesInv, PlanInv, MemInv, ChainInv, ListInv, RowsInv, OpsInv;
  }

  lemma FillPictures(b: Both, b': Both, last: nat -> bool, w: nat)
    requires BothInv(b, last) && AtEnd(b.s, last, w) && FillStep(b, b', w)
    ensures Pictures(b', last)
  {
    hide Inv, R.CountsInv, R.TallyInv, R.OrderInv, Places, Shows, AtEnd, Base, EndsFrames;
    FillShows(b, last, w);
    assert R.Filler(b.ring, w);
  }

  lemma SwapPictures(b: Both, b': Both, last: nat -> bool, w: nat)
    requires BothInv(b, last) && R.Swap(b.ring, b'.ring, w) && b' == b.(ring := b'.ring)
    ensures Pictures(b', last)
  {
    hide Inv, R.TallyInv, Places, Shows, AtEnd, Base, EndsFrames;
    assert R.Filler(b.ring, w);
  }

  lemma KeepsPictures(b: Both, b': Both, last: nat -> bool, w: nat)
    requires BothInv(b, last) && Past(b.s, b.s) && b' == b.(ring := b'.ring)
    requires R.Counting(b.ring, b'.ring, w) || R.CountMiss(b.ring, b'.ring, w) || R.CountFrame(b.ring, b'.ring, w) || R.KeepOld(b.ring, b'.ring, w)
    ensures Pictures(b', last)
  {
    hide Inv, R.TallyInv, R.OrderInv, R.SlotsInv, Places, Shows, AtEnd, Base, EndsFrames;
    forall u: nat | u < |b.ring.phase| && u != w && b.ring.phase[u] == R.Filled
      ensures !R.KeepOld(b.ring, b'.ring, w)
    {
      assert R.Filler(b.ring, u);
      assert R.KeepOld(b.ring, b'.ring, w) ==> R.Filler(b.ring, w);
    }
  }

  // ---- the presenter's ---------------------------------------------------------------------------------

  lemma TakerStepKeeps(b: Both, b': Both, last: nat -> bool)
    requires BothInv(b, last) && TakerStep(b, b')
    ensures BothInv(b', last)
  {
    hide Inv, R.Inv, AtEnd, Pictures, Places, Base;
    TakerPictures(b, b', last);
    TakerPlaces(b, b', last);
    TakerRing(b, b');
    R.NextKeeps(b.ring, b'.ring);
  }

  lemma TakerPlaces(b: Both, b': Both, last: nat -> bool)
    requires BothInv(b, last) && TakerStep(b, b')
    ensures Places(b'.s, b'.ring, last) && b'.s == b.s
  {
    hide Inv, R.Inv, AtEnd, Pictures, Base;
  }

  lemma TakerPictures(b: Both, b': Both, last: nat -> bool)
    requires BothInv(b, last) && TakerStep(b, b')
    ensures Pictures(b', last)
  {
    hide CountsInv, FencesInv, PlanInv, MemInv, ChainInv, ListInv, RowsInv, OpsInv, R.CountsInv, R.TallyInv, R.OrderInv, Shows, AtEnd;
    forall j | 0 <= j < |b'.shown| ensures Shows(b'.s, last, b'.shown[j], b'.ring.shown[j]) {
      if j < |b.shown| {
        assert b'.shown[j] == b.shown[j] && b'.ring.shown[j] == b.ring.shown[j];
      }
    }
  }

  // ---- any run --------------------------------------------------------------------------------------------

  lemma StepKeeps(b: Both, b': Both, last: nat -> bool)
    requires BothInv(b, last) && Step(b, b', last)
    ensures BothInv(b', last)
    ensures b'.ring == b.ring || R.Next(b.ring, b'.ring)
  {
    hide BothInv, QueueStep, TakerStep, LeaveStep, RingStep;
    if QueueStep(b, b', last) {
      QueueStepKeeps(b, b', last);
      assert b'.ring == b.ring by { QueueRing(b, b', last); }
    } else if TakerStep(b, b') {
      TakerStepKeeps(b, b', last);
      TakerRing(b, b');
    } else {
      var w :| LeaveStep(b, b', last, w) || RingStep(b, b', last, w);
      if LeaveStep(b, b', last, w) {
        LeaveStepKeeps(b, b', last, w);
        LeaveRing(b, b', last, w);
      } else {
        RingStepKeeps(b, b', last, w);
        RingFollows(b, b', last, w);
      }
    }
  }

  lemma QueueRing(b: Both, b': Both, last: nat -> bool)
    requires QueueStep(b, b', last)
    ensures b'.ring == b.ring
  {
  }

  lemma TakerRing(b: Both, b': Both)
    requires TakerStep(b, b')
    ensures R.Next(b.ring, b'.ring)
  {
  }

  lemma LeaveRing(b: Both, b': Both, last: nat -> bool, w: nat)
    requires LeaveStep(b, b', last, w)
    ensures R.WorkerNext(b.ring, b'.ring, w) && R.Next(b.ring, b'.ring)
  {
    assert R.WorkerNext(b.ring, b'.ring, w);
  }

  lemma BeginsHolds(b: Both, last: nat -> bool, n: nat)
    requires Begins(b, n)
    ensures BothInv(b, last)
  {
    InitHolds(b.s, n);
    R.InitHolds(b.ring, n);
    hide Inv, R.Inv;
  }

  lemma {:induction false} BothRunInv(trace: seq<Both>, last: nat -> bool, n: nat, i: nat)
    requires BothRun(trace, last, n) && i < |trace|
    ensures BothInv(trace[i], last)
  {
    hide BothInv, Step, Begins;
    if i == 0 {
      BeginsHolds(trace[0], last, n);
    } else {
      BothRunInv(trace, last, n, i - 1);
      StepKeeps(trace[i - 1], trace[i], last);
    }
  }

  /** The theorem: every picture the presenter is shown is the one-at-a-time run's screen after
      the copy that ends the frame of its number; the numbers rise; and no two threads fill. */
  lemma PresentedInOrder(trace: seq<Both>, last: nat -> bool, n: nat, i: nat)
    requires BothRun(trace, last, n) && i < |trace|
    ensures Base(trace[i].s)
    ensures var b := trace[i];
            && |b.shown| == |b.ring.shown|
            && (forall j | 0 <= j < |b.shown| :: Shows(b.s, last, b.shown[j], b.ring.shown[j]))
            && (forall j, k | 0 <= j < k < |b.shown| :: b.ring.shown[j] < b.ring.shown[k])
            && (forall v: nat, w: nat | R.Filler(b.ring, v) && R.Filler(b.ring, w) :: v == w)
  {
    BothRunInv(trace, last, n, i);
    hide CountsInv, FencesInv, PlanInv, MemInv, ChainInv, ListInv, RowsInv, OpsInv, Shows, R.TallyInv, R.SlotsInv, Places;
  }
}
