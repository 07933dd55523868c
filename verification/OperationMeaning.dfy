/**
  What the stream's operations do to the screen, the frame buffer and memory, said without the
  rules by which a copy finds its rows: the rectangle's rows inside the frame buffer, with the
  first and the last doubled at the edges for the vertical filter.
 */
module OperationMeaning {
  import opened Arithmetic
  import opened CopyGeometry
  import opened Commands

  /** The rectangle's rows that lie inside the frame buffer. */
  function Rect(y0: nat, h: nat, efb: seq<Row>): seq<Row> {
    if |efb| <= y0 then [] else efb[y0..if y0 + h < |efb| then y0 + h else |efb|]
  }

  /** Each edge row once more: what the filter finds beyond the rectangle. */
  function Padded(r: seq<Row>): (p: seq<Row>)
    requires r != []
    ensures |p| == |r| + 2
  {
    [r[0]] + r + [r[|r| - 1]]
  }

  /** The rows above, at and below row i of the rectangle. */
  datatype Taps = Taps(above: Row, at: Row, below: Row)

  /** A filtered copy weighs three rows, any other reads one; a row outside the frame buffer
      is empty. */
  function FullScale(filtered: bool, r: seq<Row>, i: nat): Taps {
    if |r| <= i then Taps([], [], [])
    else if filtered then Taps(Padded(r)[i], Padded(r)[i + 1], Padded(r)[i + 2])
    else Taps(r[i], r[i], r[i])
  }

  /** A half-scale copy makes row i of rows 2i and 2i + 1; where it has no pixel to its right
      or below to average with, it filters like any other. */
  function HalfScale(filtered: bool, r: seq<Row>, i: nat): Taps {
    if |r| <= 2 * i then Taps([], [], [])
    else Taps(if filtered && 0 < i then r[2 * i - 1] else r[2 * i], r[2 * i], if 2 * i + 1 < |r| then r[2 * i + 1] else [])
  }

  lemma RectRows(y0: nat, h: nat, efb: seq<Row>, i: nat)
    ensures var r := Rect(y0, h, efb);
            && (i < |r| <==> y0 + i < |efb| && i < h)
            && (i < |r| ==> r[i] == efb[y0 + i])
  {
  }

  lemma PaddedRows(r: seq<Row>, i: nat)
    requires i < |r|
    ensures Padded(r)[i] == if i == 0 then r[0] else r[i - 1]
    ensures Padded(r)[i + 1] == r[i]
    ensures Padded(r)[i + 2] == if i + 1 == |r| then r[i] else r[i + 1]
  {
  }

  lemma FullTaps(c: Copy, efb: seq<Row>, y: nat)
    requires CopyOk(c) && |efb| == EFB_ROWS && y < c.rows && !(c.half && !c.screen)
    ensures Taps(RowOr(efb, c.Above(y)), RowOr(efb, c.Source(y)), RowOr(efb, c.Below(y))) ==
            FullScale(c.filtered, Rect(c.y0, c.h, efb), y)
  {
    hide Rect, Padded;
    RectRows(c.y0, c.h, efb, y);
    RectRows(c.y0, c.h, efb, y + 1);
    if y < |Rect(c.y0, c.h, efb)| {
      PaddedRows(Rect(c.y0, c.h, efb), y);
      if 0 < y {
        RectRows(c.y0, c.h, efb, y - 1);
      }
    }
  }

  lemma HalfTaps(c: Copy, efb: seq<Row>, y: nat)
    requires CopyOk(c) && |efb| == EFB_ROWS && y < c.rows && c.half && !c.screen
    ensures Taps(RowOr(efb, c.Above(y)), RowOr(efb, c.Source(y)), RowOr(efb, c.Below(y))) ==
            HalfScale(c.filtered, Rect(c.y0, c.h, efb), y)
  {
    hide Rect;
    assert 2 * y + 1 < c.h;
    RectRows(c.y0, c.h, efb, 2 * y);
    RectRows(c.y0, c.h, efb, 2 * y + 1);
    if 0 < y {
      RectRows(c.y0, c.h, efb, 2 * y - 1);
    }
  }

  lemma TapsAre(c: Copy, efb: seq<Row>, y: nat)
    requires CopyOk(c) && |efb| == EFB_ROWS && y < c.rows
    ensures var r := Rect(c.y0, c.h, efb);
            Taps(RowOr(efb, c.Above(y)), RowOr(efb, c.Source(y)), RowOr(efb, c.Below(y))) ==
            if c.half && !c.screen then HalfScale(c.filtered, r, y) else FullScale(c.filtered, r, y)
  {
    hide Rect, FullScale, HalfScale, RowOr;
    if c.half && !c.screen {
      HalfTaps(c, efb, y);
    } else {
      FullTaps(c, efb, y);
    }
  }

  /** A clear fills the rectangle's rows and leaves the rest. */
  lemma CopyClears(c: Copy, clear: bool, w: World, y: nat)
    requires CopyOk(c) && WorldOk(w) && y < EFB_ROWS
    ensures var after := RunOp(OpCopy(c, clear), w);
            && after.efb[y] == (if clear && c.y0 <= y < c.y0 + c.h then c.fill(y, w.efb[y]) else w.efb[y])
            && after.screen == Copied(c, w).screen && after.mem == Copied(c, w).mem
  {
    assert |Copied(c, w).efb| == EFB_ROWS;
    hide Shown, Stored;
  }

  /** A copy to the screen: its rows, and nothing else but what it clears. */
  lemma ScreenCopyMeans(c: Copy, clear: bool, w: World, y: nat)
    requires CopyOk(c) && c.screen && WorldOk(w) && y < EFB_ROWS
    ensures var after := RunOp(OpCopy(c, clear), w);
            var t := FullScale(c.filtered, Rect(c.y0, c.h, w.efb), y);
            && after.screen[y] == (if y < c.rows then c.pix(y, t.above, t.at, t.below) else w.screen[y])
            && after.efb[y] == (if clear && c.y0 <= y < c.y0 + c.h then c.fill(y, w.efb[y]) else w.efb[y])
            && after.mem == w.mem
  {
    hide Rect, FullScale, RunOp;
    if y < c.rows {
      TapsAre(c, w.efb, y);
    }
    NoBytes(c);
    assert Copied(c, w).mem == w.mem;
    CopyClears(c, clear, w, y);
  }

  lemma NoBytes(c: Copy)
    requires CopyOk(c) && c.screen
    ensures forall a :: a !in c.store
  {
  }

  /** A copy to memory: each byte it stores, of its row's taps, and nothing else. */
  lemma MemoryCopyMeans(c: Copy, clear: bool, w: World, a: nat)
    requires CopyOk(c) && !c.screen && WorldOk(w) && a < MEM_BYTES
    ensures var after := RunOp(OpCopy(c, clear), w);
            && after.screen == w.screen
            && (a !in c.store ==> after.mem[a] == w.mem[a])
            && (a in c.store ==>
                  var y, r := c.store[a], Rect(c.y0, c.h, w.efb);
                  var t := if c.half then HalfScale(c.filtered, r, y) else FullScale(c.filtered, r, y);
                  after.mem[a] == c.enc(y, a, t.above, t.at, t.below, w.mem[a]))
    ensures forall y | 0 <= y < EFB_ROWS ::
              RunOp(OpCopy(c, clear), w).efb[y] == if clear && c.y0 <= y < c.y0 + c.h then c.fill(y, w.efb[y]) else w.efb[y]
  {
    hide Rect, FullScale, HalfScale, RunOp;
    if a in c.store {
      TapsAre(c, w.efb, c.store[a]);
    }
    assert Copied(c, w).screen == w.screen;
    CopyClears(c, clear, w, 0);
    forall y | 0 <= y < EFB_ROWS
      ensures RunOp(OpCopy(c, clear), w).efb[y] == if clear && c.y0 <= y < c.y0 + c.h then c.fill(y, w.efb[y]) else w.efb[y]
    {
      CopyClears(c, clear, w, y);
    }
  }

  /** A copy to a texture, from the registers: every byte of every texel, of its row's taps, and
      no byte that is no texel's. */
  lemma TextureCopyMeans(l: Layout, half: bool, filtered: bool, y0: nat, h: nat, enc: (nat, nat, Row, Row, Row, int) -> int,
                         fill: (nat, Row) -> Row, clear: bool, w: World, x: nat, y: nat, k: nat)
    requires 0 < h <= 1024 && l.oh == (if half then h / 2 else h) && l.Lands() && WorldOk(w) && x < l.ow && y < l.oh
    requires k < |TexelBytes(l.texfmt, Remainder(x, l.T().w), Remainder(y, l.T().h))|
    ensures var after := RunOp(OpCopy(ToMemory(l, half, filtered, y0, h, enc, fill), clear), w);
            var a, r := TexelAddr(l, x, y, k), Rect(y0, h, w.efb);
            var t := if half then HalfScale(filtered, r, y) else FullScale(filtered, r, y);
            a < MEM_BYTES && after.mem[a] == enc(y, a, t.above, t.at, t.below, w.mem[a])
  {
    TexelRow(l, x, y, k);
    var a := TexelAddr(l, x, y, k);
    WrittenInSpan(l, a);
    hide TexelAddr, RowAt, Writes, Rect, FullScale, HalfScale, RunOp, CopyOk;
    MemoryCopyMeans(ToMemory(l, half, filtered, y0, h, enc, fill), clear, w, a);
  }

  /** A draw shades each row of the texels memory holds; a write is of one byte. */
  lemma DrawAndWriteMean(d: DrawOp, w: World, y: nat, a: nat, v: int)
    requires DrawOk(d) && WorldOk(w) && y < EFB_ROWS && a < MEM_BYTES
    ensures var after := RunOp(OpDraw(d), w);
            var tex := seq(|d.tex|, i requires 0 <= i < |d.tex| => seq(|d.tex[i].at|, j requires 0 <= j < |d.tex[i].at| => w.mem[d.tex[i].at[j]]));
            && after.efb[y] == d.shade(y, w.efb[y], tex) && after.screen == w.screen && after.mem == w.mem
    ensures RunOp(OpWrite(a, v), w) == World(w.efb, w.screen, w.mem[a := v])
  {
    var tex := seq(|d.tex|, i requires 0 <= i < |d.tex| => seq(|d.tex[i].at|, j requires 0 <= j < |d.tex[i].at| => w.mem[d.tex[i].at[j]]));
    assert AllTexels(d, w.mem) == tex by {
      forall i | 0 <= i < |d.tex| ensures AllTexels(d, w.mem)[i] == tex[i] {}
    }
  }
}
