/**
  What the queue's threads may rely on in every state of every run: no races, reads of
  finished memory, a list that forgets no unfinished copy, and whole screens.
 */
module QueueRuns {
  import opened CopyGeometry
  import opened Commands
  import PendingCopies
  import opened RenderQueue
  import opened QueueInvariant
  import opened QueuePublish
  import opened QueueTheorems
  import opened QueueRaces

  /** What one worker is about to store, no other worker is about to store or read. */
  lemma RunsAreRaceFree(trace: seq<State>, n: nat, i: nat, v: nat, t: Task, w: nat, u: Task, at: Location)
    requires Run(trace, n) && i < |trace| && v != w
    requires Owes(trace[i], v, t) && Owes(trace[i], w, u)
    requires WritesTo(trace[i].workers[v].ran, trace[i].log[trace[i].workers[v].ran].body, t, at)
    ensures !WritesTo(trace[i].workers[w].ran, trace[i].log[trace[i].workers[w].ran].body, u, at)
    ensures !ReadsFrom(trace[i].log[trace[i].workers[w].ran].body, u, at)
  {
    RunInv(trace, n, i);
    NoRace(trace[i], v, t, w, u, at);
  }

  /** Every copy to memory some worker has yet to finish is listed, with the span that holds
      every byte it stores -- through drains, tokens and hooks. */
  lemma UnfinishedCopiesAreListed(trace: seq<State>, n: nat, i: nat, c: nat, a: nat)
    requires Run(trace, n) && i < |trace| && Base(trace[i]) && StoresAt(trace[i], c, a) && !Finished(trace[i], c)
    ensures exists p :: p in trace[i].pending && p.cmd == c && p.addr <= a < p.addr + p.bytes
  {
    var s := trace[i];
    RunInv(trace, n, i);
    StoreSpans(s, c, a);
    ListedOrDone(s, c);
    assert CommandOk(s, c);
    assert Entry(s, c) in s.pending;
  }

  /** Once the newest listed overlap is finished, so is every copy that stores into the span. */
  lemma ProducerReadsFinished(trace: seq<State>, n: nat, i: nat, lo: nat, len: nat, c: nat, a: nat)
    requires Run(trace, n) && i < |trace| && Base(trace[i])
    requires Finished(trace[i], PendingCopies.NewestOverlap(trace[i].pending, lo, len))
    requires lo <= a < lo + len && StoresAt(trace[i], c, a)
    ensures Finished(trace[i], c)
  {
    RunInv(trace, n, i);
    ProducerReadsFinal(trace[i], lo, len, c, a);
  }

  /** A span whose newest listed overlap is finished reads the very bytes that running the
      stream one operation at a time would have left there. */
  lemma ProducerReadsSequential(trace: seq<State>, n: nat, i: nat, lo: nat, len: nat, a: nat)
    requires Run(trace, n) && i < |trace|
    requires Finished(trace[i], PendingCopies.NewestOverlap(trace[i].pending, lo, len))
    requires lo <= a < lo + len && a < MEM_BYTES
    ensures |trace[i].world.mem| == |trace[i].now.mem| == MEM_BYTES
    ensures trace[i].world.mem[a] == trace[i].now.mem[a]
  {
    RunInv(trace, n, i);
    SpanRight(trace[i], lo, len, a);
  }

  /** When the last worker has its rows of a screen copy done, the screen is whole. */
  lemma ScreensAreWhole(trace: seq<State>, n: nat, i: nat, k: nat, v: nat)
    requires Run(trace, n) && i < |trace| && Base(trace[i]) && k < |trace[i].log| && trace[i].log[k].body.ToScreen()
    requires forall w | 0 <= w < |trace[i].workers| :: CopiedOut(trace[i], w, k)
    requires v < |trace[i].workers| && trace[i].workers[v].ran == k
    ensures trace[i].world.screen == Post(trace[i], k).screen
  {
    RunInv(trace, n, i);
    ScreenWhole(trace[i], k, v);
  }

  // ---- the screens, numbered, as the ring counts them -------------------------------------------

  /** How many of the first k commands end a frame. */
  function Frames(last: nat -> bool, k: nat): nat {
    if k == 0 then 0 else Frames(last, k - 1) + if last(k - 1) then 1 else 0
  }

  lemma {:induction false} FramesRise(last: nat -> bool, j: nat, k: nat)
    requires j <= k
    ensures Frames(last, j) <= Frames(last, k)
    ensures (forall i | j <= i < k :: !last(i)) ==> Frames(last, j) == Frames(last, k)
  {
    if j < k {
      FramesRise(last, j, k - 1);
    }
  }

  /** A frame ends with a copy to the screen. */
  ghost predicate EndsFrames(s: State, last: nat -> bool) {
    forall k: nat | k < |s.log| && last(k) :: s.log[k].body.ToScreen()
  }

  /** A worker at the copy that ends a frame has no worker a frame behind it: what the ring's
      count asks (ScreenRing.Count). */
  lemma NoneAFrameBehind(trace: seq<State>, n: nat, i: nat, last: nat -> bool, v: nat, w: nat)
    requires Run(trace, n) && i < |trace| && EndsFrames(trace[i], last) && v < |trace[i].workers| && w < |trace[i].workers|
    requires trace[i].workers[v].phase.Running? && trace[i].workers[v].ran < |trace[i].log| && last(trace[i].workers[v].ran)
    ensures Frames(last, trace[i].workers[v].ran) <= Frames(last, trace[i].workers[w].ran)
  {
    RunInv(trace, n, i);
    NoneBehind(trace[i], last, v, w);
  }

  lemma NoneBehind(s: State, last: nat -> bool, v: nat, w: nat)
    requires Inv(s) && EndsFrames(s, last) && v < |s.workers| && w < |s.workers|
    requires s.workers[v].phase.Running? && s.workers[v].ran < |s.log| && last(s.workers[v].ran)
    ensures Frames(last, s.workers[v].ran) <= Frames(last, s.workers[w].ran)
  {
    if v != w {
      ScreensApart(s, v, s.workers[v].ran, w);
      FramesRise(last, s.workers[v].ran, s.workers[w].ran);
    }
  }

  /** The frame taken when the last worker has its rows of the copy that ends it done is the
      one-at-a-time run's frame of that number: every worker has counted that frame or is
      about to, and none has begun to end the next. */
  lemma FramesAreSequential(trace: seq<State>, n: nat, i: nat, last: nat -> bool, k: nat, v: nat, w: nat)
    requires Run(trace, n) && i < |trace| && Base(trace[i]) && EndsFrames(trace[i], last)
    requires k < |trace[i].log| && last(k)
    requires forall u | 0 <= u < |trace[i].workers| :: CopiedOut(trace[i], u, k)
    requires v < |trace[i].workers| && w < |trace[i].workers| && trace[i].workers[v].ran == k
    ensures trace[i].world.screen == Post(trace[i], k).screen
    ensures Frames(last, trace[i].workers[w].ran) == Frames(last, k) + if trace[i].workers[w].ran == k then 0 else 1
    ensures trace[i].workers[w].phase.Running? && trace[i].workers[w].ran != k ==> !last(trace[i].workers[w].ran)
  {
    var s := trace[i];
    ScreensAreWhole(trace, n, i, k, v);
    RunInv(trace, n, i);
    var j := s.workers[w].ran;
    assert CopiedOut(s, w, k);
    if j != k {
      WorkerFact(s, w);
      forall m: nat | k < m < j
        ensures !last(m)
      {
        if last(m) {
          ScreensApart(s, w, m, v);
        }
      }
      FramesRise(last, k + 1, j);
      if s.workers[w].phase.Running? && last(j) {
        ScreensApart(s, w, j, v);
      }
    }
  }
}
