/**
  The render command queue as a state machine: one producer, N workers, counts that only
  rise. A worker step is one atomic load of another thread's count, or one row of one
  command; steps of different threads interleave freely.
 */
module RenderQueue {
  import opened CopyGeometry
  import opened Commands
  import opened PendingCopies

  /** A published command (DrawCmd): its number and fences, and what to run. */
  datatype Slot = Slot(num: nat, fence: nat, near: nat, body: Body)

  /** A worker's share of a command: rows of the frame buffer, and rows a copy writes. */
  datatype Task = Own(y: nat) | Out(y: nat)

  datatype Phase = Idle | Fencing(next: nat) | Running(done: set<Task>)

  /** `ran` is g_ran[id]. Workers are numbered from 0, so worker w owns rows y % N == w. */
  datatype Worker = Worker(ran: nat, phase: Phase)

  datatype State = State(
    // shared memory
    world: World, images: seq<seq<int>>, slots: seq<Slot>, workers: seq<Worker>,
    // the producer's own
    floor: nat, fenceAfter: nat, nearAfter: nat, lastCopy: int, pending: seq<Pending>,
    claimed: bool, todo: seq<Body>,
    // history: bytes of listed copies that a hook uncovered or the guest has written since
    suspect: set<nat>,
    // history: the commands published, the operations parsed, and the one-at-a-time run of
    // both -- the world before each command, and now. |log| is g_published.
    log: seq<Slot>, hist: seq<World>, now: World, start: World, ops: seq<Op>)

  function Max(a: int, b: int): int { if a < b then b else a }

  // ---- fences -----------------------------------------------------------------------

  /** The workers that own the rows either side of self's. */
  predicate Neighbour(n: nat, self: nat, j: nat) {
    j == (if self == 0 then n - 1 else self - 1) || j == (if self + 1 == n then 0 else self + 1)
  }

  /** What fence_wait asks of worker j's count before self runs the command in slot d. */
  function FenceOn(n: nat, self: nat, j: nat, d: Slot): nat {
    if Neighbour(n, self, j) && d.near > d.fence then d.near else d.fence
  }

  // ---- the worker ------------------------------------------------------------------------

  function SlotOf(k: nat): nat { k % QUEUE_CAP }

  predicate IsTask(n: nat, w: nat, b: Body, t: Task)
    requires 0 < n
  {
    match t
    case Own(y) => y < EFB_ROWS && y % n == w && (b.Draw? || b.Wipes(y))
    case Out(y) => y < b.OutRows() && b.copy.Owner(n, y) == w
  }

  function TexelsFrom(o: Origin, t: Texture, images: seq<seq<int>>): seq<int> {
    match o
    case Decoded(bytes) => bytes
    case Image(c) =>
      if c < |images| && |images[c]| == MEM_BYTES && TextureOk(t) then Texels(t, images[c]) else []
  }

  /** A draw's textures as the worker reads them. */
  function Fed(b: Body, images: seq<seq<int>>): seq<seq<int>> {
    if b.Draw? then
      seq(|b.draw.tex|, i requires 0 <= i < |b.draw.tex| =>
        if i < |b.from| then TexelsFrom(b.from[i], b.draw.tex[i], images) else [])
    else []
  }

  /** One row of a command, run by the worker that owns it. */
  function RunTask(s: State, k: nat, b: Body, t: Task): (r: State)
    ensures r == s.(world := r.world, images := r.images)
  {
    match t
    case Own(y) =>
      if y < |s.world.efb| then
        s.(world := s.world.(efb := s.world.efb[y := OwnRow(b, y, s.world.efb[y], Fed(b, s.images))]))
      else s
    case Out(y) =>
      if !b.CopyOut? then s
      else if b.copy.screen then
        if y < |s.world.screen| then
          s.(world := s.world.(screen := s.world.screen[y := Shown(b.copy, s.world.efb, y)]))
        else s
      else
        var mem := StoreRow(b.copy, s.world.efb, y, s.world.mem);
        s.(world := s.world.(mem := mem),
           images := if b.image && k < |s.images| then s.images[k := ImageRow(b.copy, y, mem, s.images[k])] else s.images)
  }

  function StoreRow(c: Copy, efb: seq<Row>, y: nat, mem: seq<int>): seq<int> {
    seq(|mem|, a requires 0 <= a < |mem| =>
      if a in c.store && c.store[a] == y then Stored(c, efb, a, mem[a]) else mem[a])
  }

  /** tex_decode_row: the image row is decoded from the bytes just written. */
  function ImageRow(c: Copy, y: nat, mem: seq<int>, image: seq<int>): seq<int> {
    seq(|image|, a requires 0 <= a < |image| =>
      if a in c.store && c.store[a] == y && a < |mem| then mem[a] else image[a])
  }

  function SetWorker(s: State, w: nat, v: Worker): State
    requires w < |s.workers|
  {
    s.(workers := s.workers[w := v])
  }

  ghost predicate Fetch(s: State, s': State, w: nat) {
    && w < |s.workers| && s.workers[w].phase == Idle && s.workers[w].ran < |s.log|
    && |s.slots| == QUEUE_CAP
    && var v := s.workers[w];
       // the slot does not hold the command asked for: it is skipped
       s' == if s.slots[SlotOf(v.ran)].num != v.ran then SetWorker(s, w, Worker(v.ran + 1, Idle))
             else SetWorker(s, w, v.(phase := Fencing(0)))
  }

  ghost predicate CheckFence(s: State, s': State, w: nat) {
    && w < |s.workers| && s.workers[w].phase.Fencing? && |s.slots| == QUEUE_CAP
    && var v := s.workers[w];
       var j := v.phase.next;
       && j < |s.workers|
       && (j == w || FenceOn(|s.workers|, w, j, s.slots[SlotOf(v.ran)]) <= s.workers[j].ran)
       && s' == SetWorker(s, w, v.(phase := Fencing(j + 1)))
  }

  ghost predicate Enter(s: State, s': State, w: nat) {
    && w < |s.workers| && s.workers[w].phase == Fencing(|s.workers|)
    && s' == SetWorker(s, w, s.workers[w].(phase := Running({})))
  }

  /** A row. A fused clear wipes a worker's rows only after it has copied all of its own. */
  ghost predicate RunRow(s: State, s': State, w: nat, t: Task) {
    && w < |s.workers| && s.workers[w].phase.Running? && |s.slots| == QUEUE_CAP
    && var v := s.workers[w];
       var b := s.slots[SlotOf(v.ran)].body;
       && IsTask(|s.workers|, w, b, t) && t !in v.phase.done
       && (t.Own? ==> forall y | IsTask(|s.workers|, w, b, Out(y)) :: Out(y) in v.phase.done)
       && s' == SetWorker(RunTask(s, v.ran, b, t), w, v.(phase := Running(v.phase.done + {t})))
  }

  ghost predicate Finish(s: State, s': State, w: nat) {
    && w < |s.workers| && s.workers[w].phase.Running? && |s.slots| == QUEUE_CAP
    && var v := s.workers[w];
       && (forall t | IsTask(|s.workers|, w, s.slots[SlotOf(v.ran)].body, t) :: t in v.phase.done)
       && s' == SetWorker(s, w, Worker(v.ran + 1, Idle))
  }

  ghost predicate WorkerStep(s: State, s': State, w: nat) {
    || Fetch(s, s', w) || CheckFence(s, s', w) || Enter(s, s', w) || Finish(s, s', w)
    || exists t :: RunRow(s, s', w, t)
  }

  // ---- the producer ------------------------------------------------------------------------

  /** Every worker has finished command c (ran_min() > c). */
  ghost predicate Finished(s: State, c: int) {
    forall w | 0 <= w < |s.workers| :: c < s.workers[w].ran
  }

  /** The next operation of the command stream. */
  ghost predicate Begin(s: State, s': State, op: Op, image: bool) {
    && s.todo == [] && !s.claimed && OpOk(op) && !op.OpWrite? && 0 < |s.workers|
    && (image ==> op.OpCopy? && !op.copy.screen)
    && s' == s.(todo := Translate(|s.workers|, op, image), ops := s.ops + [op])
  }

  /** The guest writes a byte no unfinished copy spans. */
  ghost predicate Poke(s: State, s': State, a: nat, v: int) {
    && s.todo == [] && !s.claimed && a < |s.world.mem| && a < |s.now.mem| && a < MEM_BYTES
    && (forall p | p in s.pending && Covered(p, a) :: Finished(s, p.cmd))
    && s' == s.(suspect := if exists p :: p in s.pending && Covered(p, a) then s.suspect + {a} else s.suspect,
                world := s.world.(mem := s.world.mem[a := v]), now := s.now.(mem := s.now.mem[a := v]),
                ops := s.ops + [OpWrite(a, v)])
  }

  /** Where a draw may take a texture from (texture()): the image of the newest listed copy
      over its span, made for that very texture, or memory once that copy is over. */
  ghost predicate FeedOk(s: State, t: Texture, o: Origin) {
    var c := NewestOverlap(s.pending, t.lo, t.bytes);
    match o
    case Decoded(bytes) => Finished(s, c) && TextureOk(t) && |s.world.mem| == MEM_BYTES && bytes == Texels(t, s.world.mem)
    case Image(cmd) =>
      && c == cmd < |s.log| && s.log[cmd].body.CopyOut? && s.log[cmd].body.image
      && t.lo == s.log[cmd].body.copy.dest && t.bytes == s.log[cmd].body.copy.span
      && forall i | 0 <= i < |t.at| :: s.log[cmd].body.Stores(t.at[i])
  }

  /** No image the body takes spans a suspect byte. */
  ghost predicate TakesNoSuspect(s: State, b: Body) {
    b.Draw? ==> forall i | 0 <= i < |b.from| && i < |b.draw.tex| && b.from[i].Image? ::
      Clean(b.draw.tex[i].lo, b.draw.tex[i].bytes, s.suspect)
  }

  /** tex_draw_fence: past every copy whose image the draw samples. */
  function ImageFence(from: seq<Origin>): nat {
    if from == [] then 0
    else
      var o := from[|from| - 1];
      Max(ImageFence(from[..|from| - 1]), if o.Image? then o.cmd + 1 else 0)
  }

  /** The commands' bodies: a draw is given its textures as its slot is built. */
  ghost predicate Resolves(s: State, planned: Body, b: Body) {
    if planned.Draw? then
      && b.Draw? && b.draw == planned.draw && |b.from| == |b.draw.tex|
      && forall i | 0 <= i < |b.from| :: FeedOk(s, b.draw.tex[i], b.from[i])
    else b == planned
  }

  /** What gxr_draw_inner and enqueue_copy ask claim_slot for. */
  function Want(s: State, b: Body): nat
    requires 0 < |s.workers|
  {
    match b
    case Draw(_, from) => ImageFence(from)
    case CopyOut(c, _, _) =>
      if c.screen || (c.Foreign(|s.workers|) && !c.NearRows(|s.workers|)) then |s.log|
      else if 0 < c.span then Max(NewestOverlap(s.pending, c.dest, c.span) + 1, 0)
      else 0
    case Clear(_) => 0
  }

  function WantNear(s: State, b: Body): nat
    requires 0 < |s.workers|
  {
    if b.CopyOut? && !b.copy.screen && b.copy.Foreign(|s.workers|) && b.copy.NearRows(|s.workers|) then |s.log| else 0
  }

  /** claim_slot's fences: the larger of what is asked and what the last copy left, never
      past the command itself; the near one is kept only where it asks more. */
  function FenceOf(n: nat, want: nat, after: nat): nat {
    if Max(want, after) > n then n else Max(want, after)
  }

  function NearOf(n: nat, want: nat, after: nat, fence: nat): nat {
    var near := FenceOf(n, want, after);
    if near > fence then near else 0
  }

  function Fenced(s: State, b: Body): Slot
    requires 0 < |s.workers|
  {
    var fence := FenceOf(|s.log|, Want(s, b), s.fenceAfter);
    Slot(|s.log|, fence, NearOf(|s.log|, WantNear(s, b), s.nearAfter, fence), b)
  }

  /** claim_slot: `floor` is the old lower bound on the workers' counts, or a newer one. */
  ghost predicate Claim(s: State, s': State, b: Body, floor: nat) {
    && s.todo != [] && !s.claimed && 0 < |s.workers| && |s.slots| == QUEUE_CAP
    && Resolves(s, s.todo[0], b)
    && (floor == s.floor || Finished(s, floor as int - 1))
    && |s.log| < floor + QUEUE_CAP
    && s' == s.(slots := s.slots[SlotOf(|s.log|) := Fenced(s, b)], floor := floor,
                fenceAfter := 0, nearAfter := 0, claimed := true)
  }

  function Listed(b: Body, n: nat): seq<Pending> {
    if b.CopyOut? && 0 < b.copy.span then [Pending(b.copy.dest, b.copy.span, n)] else []
  }

  /** publish, with what enqueue_copy notes about a copy: its span, and the fence the command
      after it must carry. The image starts as whatever its memory held. */
  ghost predicate Publish(s: State, s': State, image: seq<int>) {
    && s.claimed && s.todo != [] && |s.slots| == QUEUE_CAP && 0 < |s.workers| && |image| == MEM_BYTES
    && var n := |s.log|;
       var d := s.slots[SlotOf(n)];
       var foreign := d.body.CopyOut? && d.body.copy.Foreign(|s.workers|);
       var near := foreign && d.body.copy.NearRows(|s.workers|);
       && |s.pending| + |Listed(d.body, n)| <= QUEUE_CAP
       && BodyOk(d.body) && WorldOk(s.now)
       && s' == s.(log := s.log + [d], hist := s.hist + [s.now], now := RunBody(d.body, s.now),
                   images := s.images + [image], pending := s.pending + Listed(d.body, n),
                   lastCopy := if d.body.CopyOut? then n else s.lastCopy,
                   fenceAfter := if foreign && !near then n + 1 else s.fenceAfter,
                   nearAfter := if near then n + 1 else s.nearAfter,
                   todo := s.todo[1..], claimed := false)
  }

  /** drain: every command has run; the list of copies starts again. */
  ghost predicate Drain(s: State, s': State) {
    && !s.claimed && Finished(s, |s.log| as int - 1)
    && s' == s.(pending := [], floor := |s.log|, suspect := {})
  }

  /** A draw token: every copy is over, so they are forgotten. */
  ghost predicate Token(s: State, s': State) {
    && !s.claimed && 0 <= s.lastCopy && Finished(s, s.lastCopy)
    && s' == s.(pending := [], suspect := {})
  }

  /** gxr_hook_hazard: waits for the newest copy over [lo, lo + n) and forgets those it overlaps. */
  ghost predicate Hook(s: State, s': State, lo: nat, n: nat) {
    && !s.claimed && Finished(s, NewestOverlap(s.pending, lo, n))
    && s' == s.(pending := Kept(s.pending, lo, n), suspect := s.suspect + Uncovered(s.pending, lo, n))
  }

  ghost predicate ProducerStep(s: State, s': State) {
    || (exists op, image :: Begin(s, s', op, image))
    || (exists a, v :: Poke(s, s', a, v))
    // a draw that takes a suspect image is what breaks the claim (QueueStale.StaleImageReached)
    || (exists b, floor :: Claim(s, s', b, floor) && TakesNoSuspect(s, b))
    || (exists image :: Publish(s, s', image))
    || Drain(s, s') || Token(s, s')
    || (exists lo, n :: Hook(s, s', lo, n))
  }

  ghost predicate Next(s: State, s': State) {
    ProducerStep(s, s') || exists w :: WorkerStep(s, s', w)
  }

  ghost predicate Init(s: State, n: nat) {
    && 0 < n && |s.workers| == n && (forall w | 0 <= w < n :: s.workers[w] == Worker(0, Idle))
    && |s.slots| == QUEUE_CAP && WorldOk(s.world) && s.now == s.start == s.world
    && s.floor == s.fenceAfter == s.nearAfter == 0 && s.lastCopy == -1 && s.pending == [] && s.suspect == {} && !s.claimed
    && s.todo == [] && s.log == [] && s.hist == [] && s.images == [] && s.ops == []
  }
}
