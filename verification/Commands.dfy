/**
  The renderer's operations and commands, and what running them one at a time means.

  What a draw makes of a row, how a copy weighs and converts its rows and what a clear
  fills are fields of the operation, as functions of exactly the rows and bytes the code
  reads; which rows and bytes those are is modelled in full, because that is what the
  queue's fences are for.
 */
module Commands {
  import opened CopyGeometry

  /** One row of the frame buffer, colour and depth. */
  type Row = seq<int>

  datatype World = World(efb: seq<Row>, screen: seq<Row>, mem: seq<int>)

  predicate WorldOk(w: World) {
    |w.efb| == |w.screen| == EFB_ROWS && |w.mem| == MEM_BYTES
  }

  /** A texture in memory: the span its lookup asks about, and its texels' bytes. */
  datatype Texture = Texture(lo: nat, bytes: nat, at: seq<nat>)

  predicate TextureOk(t: Texture) {
    t.lo + t.bytes <= MEM_BYTES && forall i | 0 <= i < |t.at| :: t.lo <= t.at[i] < t.lo + t.bytes
  }

  function Texels(t: Texture, mem: seq<int>): (r: seq<int>)
    requires TextureOk(t) && |mem| == MEM_BYTES
    ensures |r| == |t.at| && forall i | 0 <= i < |t.at| :: r[i] == mem[t.at[i]]
  {
    seq(|t.at|, i requires 0 <= i < |t.at| => mem[t.at[i]])
  }

  /** A triangle-class draw: what it makes of row y, from the row and its textures. */
  datatype DrawOp = DrawOp(shade: (nat, Row, seq<seq<int>>) -> Row, tex: seq<Texture>)

  predicate DrawOk(d: DrawOp) {
    forall i | 0 <= i < |d.tex| :: TextureOk(d.tex[i])
  }

  /**
    A copy: rows y0 .. y0 + h - 1 of the frame buffer to the screen or to memory.
    `store` says which destination row each byte it writes belongs to (CopyGeometry);
    `pix` makes a screen row, `enc` one byte, of the rows above, at and below the source
    row; `enc` also gets the byte's old value, half of which a 4-bit texel keeps.
   */
  datatype Copy = Copy(
    screen: bool, half: bool, filtered: bool, y0: nat, h: nat,
    dest: nat, span: nat, rows: nat, store: map<nat, nat>,
    pix: (nat, Row, Row, Row) -> Row,
    enc: (nat, nat, Row, Row, Row, int) -> int,
    fill: (nat, Row) -> Row)
  {
    /** The destination row's source, before it is clipped to the frame buffer. */
    function Source(y: nat): nat { y0 + if half && !screen then 2 * y else y }

    function Above(y: nat): nat {
      if filtered && y0 < Source(y) < EFB_ROWS then Source(y) - 1 else Source(y)
    }

    /** The last row of the rectangle inside the frame buffer. */
    function Bottom(): int { if y0 + h < EFB_ROWS then y0 + h - 1 else EFB_ROWS - 1 }

    function Below(y: nat): nat {
      if Source(y) >= EFB_ROWS then Source(y)
      else if half && !screen then Source(y) + 1
      else if filtered && Source(y) < Bottom() then Source(y) + 1
      else Source(y)
    }

    /** my_row: which of n workers writes destination row y. */
    function Owner(n: nat, y: nat): nat
      requires 0 < n
    {
      (if half && !screen then 2 * y else y) % n
    }

    /** copy_is_foreign. */
    predicate Foreign(n: nat)
      requires 0 < n
    {
      half || filtered || (1 < n && y0 % n != 0)
    }

    /** Foreign for its filter alone: only the two neighbours' rows are read. */
    predicate NearRows(n: nat)
      requires 0 < n
    {
      filtered && !half && (n <= 1 || y0 % n == 0)
    }

    predicate InRect(y: nat) { y0 <= y < y0 + h }
  }

  predicate CopyOk(c: Copy) {
    && 0 < c.h <= 1024  // ten bits of a register, plus one
    && c.rows <= (if c.screen then EFB_ROWS else if c.half then c.h / 2 else c.h)
    && (c.screen ==> c.span == 0 && c.rows <= c.h)
    && (forall a | a in c.store :: c.dest <= a < c.dest + c.span && a < MEM_BYTES && c.store[a] < c.rows)
  }

  /** A copy to memory, from the registers: its span and bytes are CopyGeometry's. */
  function ToMemory(l: Layout, half: bool, filtered: bool, y0: nat, h: nat,
                    enc: (nat, nat, Row, Row, Row, int) -> int, fill: (nat, Row) -> Row): (c: Copy)
    requires 0 < h <= 1024 && l.oh == (if half then h / 2 else h)
    ensures CopyOk(c) && c.dest == l.dest && c.span == l.Span()
    ensures forall a: nat :: a in c.store <==> a < MEM_BYTES && Writes(l, a)
    ensures forall a | a in c.store :: c.store[a] == RowAt(l, a)
  {
    var store := map a: nat | a < MEM_BYTES && Writes(l, a) :: RowAt(l, a);
    assert forall a: nat | a in store :: l.dest <= a < l.dest + l.Span() by {
      forall a: nat | a in store ensures l.dest <= a < l.dest + l.Span() { WrittenInSpan(l, a); }
    }
    Copy(false, half, filtered, y0, h, l.dest, l.Span(), l.oh, store,
         (y, above, at, below) => [], enc, fill)
  }

  function RowOr(efb: seq<Row>, y: nat): Row { if y < |efb| then efb[y] else [] }

  /** Destination row y of a copy to the screen. */
  function Shown(c: Copy, efb: seq<Row>, y: nat): Row {
    c.pix(y, RowOr(efb, c.Above(y)), RowOr(efb, c.Source(y)), RowOr(efb, c.Below(y)))
  }

  /** What a copy to memory stores at one of its addresses. */
  function Stored(c: Copy, efb: seq<Row>, a: nat, was: int): int
    requires a in c.store
  {
    var y := c.store[a];
    c.enc(y, a, RowOr(efb, c.Above(y)), RowOr(efb, c.Source(y)), RowOr(efb, c.Below(y)), was)
  }

  // ---- operations, as the command stream gives them ---------------------------------

  datatype Op =
    | OpDraw(draw: DrawOp)
    | OpCopy(copy: Copy, clear: bool)
    | OpWrite(a: nat, v: int)  // the guest's CPU, or a hook, writes a byte

  predicate OpOk(op: Op) {
    match op
    case OpDraw(d) => DrawOk(d)
    case OpCopy(c, _) => CopyOk(c)
    case OpWrite(a, _) => a < MEM_BYTES
  }

  function Copied(c: Copy, w: World): World {
    World(w.efb,
          seq(|w.screen|, y requires 0 <= y < |w.screen| => if c.screen && y < c.rows then Shown(c, w.efb, y) else w.screen[y]),
          seq(|w.mem|, a requires 0 <= a < |w.mem| => if a in c.store then Stored(c, w.efb, a, w.mem[a]) else w.mem[a]))
  }

  function Cleared(c: Copy, w: World): World {
    w.(efb := seq(|w.efb|, y requires 0 <= y < |w.efb| => if c.InRect(y) then c.fill(y, w.efb[y]) else w.efb[y]))
  }

  function Drawn(d: DrawOp, w: World): World
    requires DrawOk(d) && WorldOk(w)
  {
    w.(efb := seq(|w.efb|, y requires 0 <= y < |w.efb| => d.shade(y, w.efb[y], AllTexels(d, w.mem))))
  }

  function AllTexels(d: DrawOp, mem: seq<int>): (r: seq<seq<int>>)
    requires DrawOk(d) && |mem| == MEM_BYTES
    ensures |r| == |d.tex| && forall i | 0 <= i < |r| :: r[i] == Texels(d.tex[i], mem)
  {
    seq(|d.tex|, i requires 0 <= i < |d.tex| => Texels(d.tex[i], mem))
  }

  /** The meaning of the stream: each operation whole, before the next begins. */
  function RunOp(op: Op, w: World): (r: World)
    requires OpOk(op) && WorldOk(w)
    ensures WorldOk(r)
  {
    match op
    case OpDraw(d) => Drawn(d, w)
    case OpCopy(c, clear) => if clear then Cleared(c, Copied(c, w)) else Copied(c, w)
    case OpWrite(a, v) => w.(mem := w.mem[a := v])
  }

  predicate OpsOk(ops: seq<Op>) {
    forall i | 0 <= i < |ops| :: OpOk(ops[i])
  }

  function RunOps(ops: seq<Op>, w: World): (r: World)
    requires OpsOk(ops) && WorldOk(w)
    ensures WorldOk(r)
  {
    if ops == [] then w else RunOp(ops[|ops| - 1], RunOps(ops[..|ops| - 1], w))
  }

  // ---- commands, as the producer queues them ---------------------------------------------

  /** Where a draw's texture comes from: decoded by the producer, or a queued copy's image. */
  datatype Origin = Decoded(texels: seq<int>) | Image(cmd: nat)

  datatype Body =
    | Draw(draw: DrawOp, from: seq<Origin>)
    | CopyOut(copy: Copy, wipe: bool, image: bool)
    | Clear(copy: Copy)
  {
    /** Destination rows a copy writes. */
    function OutRows(): nat { if CopyOut? then copy.rows else 0 }

    predicate Stores(a: nat) { CopyOut? && a in copy.store }

    predicate ToScreen() { CopyOut? && copy.screen }

    predicate Wipes(y: nat) { (Clear? || (CopyOut? && wipe)) && copy.InRect(y) }
  }

  predicate BodyOk(b: Body) {
    match b
    case Draw(d, from) => DrawOk(d)
    case CopyOut(c, _, image) => CopyOk(c) && (image ==> !c.screen)
    case Clear(c) => CopyOk(c)
  }

  /** One whole command on a world. Where a draw's textures came from plays no part. */
  function RunBody(b: Body, w: World): (r: World)
    requires BodyOk(b) && WorldOk(w)
    ensures WorldOk(r)
  {
    match b
    case Draw(d, _) => Drawn(d, w)
    case CopyOut(c, wipe, _) => if wipe then Cleared(c, Copied(c, w)) else Copied(c, w)
    case Clear(c) => Cleared(c, w)
  }

  predicate BodiesOk(bs: seq<Body>) {
    forall i | 0 <= i < |bs| :: BodyOk(bs[i])
  }

  function RunBodies(bs: seq<Body>, w: World): (r: World)
    requires BodiesOk(bs) && WorldOk(w)
    ensures WorldOk(r)
  {
    if bs == [] then w else RunBodies(bs[1..], RunBody(bs[0], w))
  }

  /** The commands an operation becomes with n workers (gxr_draw_inner, enqueue_copy): the
      clear rides inside a copy unless the copy reads rows other workers own. */
  function Translate(n: nat, op: Op, image: bool): seq<Body>
    requires 0 < n && !op.OpWrite?
  {
    match op
    case OpDraw(d) => [Draw(d, [])]
    case OpCopy(c, clear) =>
      if c.Foreign(n) then [CopyOut(c, false, image)] + (if clear then [Clear(c)] else [])
      else [CopyOut(c, clear, image)]
  }

  /** Whatever the worker count, the commands of an operation mean the operation. */
  lemma TranslateMeans(n: nat, op: Op, image: bool, w: World)
    requires 0 < n && !op.OpWrite? && OpOk(op) && WorldOk(w)
    requires image ==> op.OpCopy? && !op.copy.screen
    ensures BodiesOk(Translate(n, op, image))
    ensures RunBodies(Translate(n, op, image), w) == RunOp(op, w)
  {
    var bs := Translate(n, op, image);
    if |bs| == 2 {
      assert bs[1..] == [Clear(op.copy)];
      assert RunBodies([Clear(op.copy)], Copied(op.copy, w)) == Cleared(op.copy, Copied(op.copy, w)) by {
        assert [Clear(op.copy)][1..] == [];
      }
    } else {
      assert bs[1..] == [];
    }
  }

  // ---- the effect of a command on one row and one byte --------------------------------------

  /** Row y of the frame buffer after the command. */
  function OwnRow(b: Body, y: nat, row: Row, texels: seq<seq<int>>): Row {
    match b
    case Draw(d, _) => d.shade(y, row, texels)
    case CopyOut(c, _, _) => if b.Wipes(y) then c.fill(y, row) else row
    case Clear(c) => if b.Wipes(y) then c.fill(y, row) else row
  }

  /** The textures as running the commands one at a time would have them. */
  function TexelsOf(b: Body, mem: seq<int>): seq<seq<int>>
    requires BodyOk(b) && |mem| == MEM_BYTES
  {
    if b.Draw? then AllTexels(b.draw, mem) else []
  }

  lemma BodyRows(b: Body, w: World, y: nat)
    requires BodyOk(b) && WorldOk(w) && y < EFB_ROWS
    ensures RunBody(b, w).efb[y] == OwnRow(b, y, w.efb[y], TexelsOf(b, w.mem))
    ensures RunBody(b, w).screen[y] ==
            if b.ToScreen() && y < b.OutRows() then Shown(b.copy, w.efb, y) else w.screen[y]
  {
  }

  lemma BodyBytes(b: Body, w: World, a: nat)
    requires BodyOk(b) && WorldOk(w) && a < MEM_BYTES
    ensures RunBody(b, w).mem[a] == if b.Stores(a) then Stored(b.copy, w.efb, a, w.mem[a]) else w.mem[a]
  {
  }
}
