/**
  From the frame buffer to a texture and back: a copy's bytes land where a decode of the texture
  reads them, in a texture as wide as its stride says or packed, and decoding them gives the
  copied pixels, as nearly as the format can.
 */
module CopiedTexture {
  import opened Arithmetic
  import opened CopyGeometry
  import opened Commands
  import opened OperationMeaning
  import opened PendingCopies
  import opened TexelFormats
  import opened TextureCache
  import opened TextureDecode
  import opened TextureLevel

  // ---- where the bytes land ------------------------------------------------------------------

  lemma CopyTiles(fmt: nat)
    requires fmt <= 6
    ensures TileOf(fmt).w == LevelTile(fmt).w && TileOf(fmt).h == LevelTile(fmt).h && TileOf(fmt).bytes == LevelTile(fmt).bytes
  {
  }

  lemma CeilRises(a: nat, b: nat, d: nat)
    requires 0 < d && a <= b
    ensures CeilDiv(a, d) <= CeilDiv(b, d)
  {
    Split(a + d - 1, d);
    Split(b + d - 1, d);
    if CeilDiv(b, d) < CeilDiv(a, d) {
      TimesMonotone(CeilDiv(b, d), CeilDiv(a, d), d);
    }
  }

  // ---- the span declared -----------------------------------------------------------------------

  function TileEnd(l: Layout, tx: nat, ty: nat): nat { l.dest + Times(ty, l.RowBytes()) + Times(tx, l.T().bytes) + l.T().bytes }

  /** The span is no more and no less than the copy's tiles, and nothing for a format it does not
      write; and the copy stores exactly when each of those tiles is in memory. */
  lemma SpanIsTiles(l: Layout)
    requires 0 < l.Cols() && 0 < l.Rows()
    ensures l.texfmt == NO_FORMAT ==> l.Span() == 0 && !l.Lands()
    ensures l.texfmt != NO_FORMAT ==>
              && (forall tx, ty | 0 <= tx < l.Cols() && 0 <= ty < l.Rows() :: TileEnd(l, tx, ty) <= l.dest + l.Span())
              && TileEnd(l, l.Cols() - 1, l.Rows() - 1) == l.dest + l.Span()
              && (l.Lands() <==> forall tx, ty | 0 <= tx < l.Cols() && 0 <= ty < l.Rows() :: TileEnd(l, tx, ty) <= MEM_BYTES)
  {
    var c, r := l.Cols(), l.Rows();
    LastTile(c, l.T().bytes);
    forall tx, ty | 0 <= tx < c && 0 <= ty < r ensures TileEnd(l, tx, ty) <= TileEnd(l, c - 1, r - 1) {
      AtMost(tx, c - 1, l.T().bytes);
      AtMost(ty, r - 1, l.RowBytes());
    }
    hide Times, CeilDiv, TileOf;
    assert l.texfmt != NO_FORMAT ==> TileEnd(l, c - 1, r - 1) == l.dest + l.Extent();
  }

  lemma LastTile(n: nat, b: nat)
    requires 0 < n
    ensures Times(n - 1, b) + b == Times(n, b)
  {
  }

  lemma AtMost(a: nat, b: nat, c: nat)
    requires a <= b
    ensures Times(a, c) <= Times(b, c)
  {
    if a < b {
      TimesMonotone(a, b, c);
    }
  }

  /** The texture a copy's stride makes of it: `width` texels wide. */
  predicate Strides(l: Layout, width: nat) {
    && l.texfmt <= 6 && l.stride < 1024
    && (|| (l.ow <= width && l.stride * 32 == Times(CeilDiv(width, LevelTile(l.texfmt).w), LevelTile(l.texfmt).bytes))
        // a stride narrower than the copy's own rows packs them
        || (width == l.ow && l.stride * 32 <= Times(CeilDiv(width, LevelTile(l.texfmt).w), LevelTile(l.texfmt).bytes)))
  }

  /** Into a texture wider than itself, or packed: each byte of each texel is where a decode of
      that texture reads it. */
  lemma CopyLands(l: Layout, width: nat, x: nat, y: nat, k: nat)
    requires Strides(l, width) && x < l.ow && y < l.oh
    requires k < |TexelBytes(l.texfmt, Remainder(x, l.T().w), Remainder(y, l.T().h))|
    ensures var t := LevelTile(l.texfmt);
            && k < |Reads(l.texfmt, Remainder(x, t.w), Remainder(y, t.h))|
            && TexelAddr(l, x, y, k) == l.dest + TileStart(l.texfmt, width, x, y) + Reads(l.texfmt, Remainder(x, t.w), Remainder(y, t.h))[k]
  {
    hide TexelBytes, TileOf, LevelTile, Reads, CeilDiv, Times, Quotient, Remainder;
    var t := LevelTile(l.texfmt);
    CopyTiles(l.texfmt);
    StoredIsRead(l.texfmt, Remainder(x, t.w), Remainder(y, t.h));
    CeilRises(l.ow, width, t.w);
    Widens(CeilDiv(l.ow, t.w), CeilDiv(width, t.w), t.bytes);
    assert l.RowBytes() == Times(CeilDiv(width, t.w), t.bytes);
    Rearranged(Quotient(y, t.h), CeilDiv(width, t.w), Quotient(x, t.w), t.bytes);
  }

  lemma Widens(a: nat, b: nat, c: nat)
    requires a <= b
    ensures Times(a, c) <= Times(b, c)
  {
    if a < b {
      TimesMonotone(a, b, c);
    }
  }

  lemma Rearranged(ty: nat, across: nat, tx: nat, b: nat)
    ensures Times(ty, Times(across, b)) + Times(tx, b) == Times(Times(ty, across) + tx, b)
  {
  }

  /** The producer's walk and the workers' rows find a texel's tile there too. */
  lemma PlanLands(p: Plan, fmt: nat, x: nat, y: nat)
    requires p.tw == LevelTile(fmt).w && p.th == LevelTile(fmt).h && p.tileBytes == LevelTile(fmt).bytes
    ensures p.TileAt(Quotient(x, p.tw), Quotient(y, p.th)) == p.base + TileStart(fmt, p.w, x, y)
  {
  }

  // ---- and what they are -----------------------------------------------------------------------

  /** What a copy makes of pixel x, of its row's taps, and the grey it takes of it. */
  datatype Painter = Painter(look: (nat, Row, Row, Row) -> Colour, grey: Colour -> int)

  ghost predicate PainterOk(p: Painter) {
    && (forall x, a, b, c :: PixelOk(p.look(x, a, b, c)))
    && (forall px: Colour :: PixelOk(px) ==> IsByte(p.grey(px)))
  }

  /** Which of a texel's bytes is at place o of its tile. */
  function Which(fmt: nat, o: nat): nat { if fmt <= 2 then 0 else o / 32 * 2 + o % 2 }

  /** One byte of a copy: of one texel, or of two of four bits, the left one first. */
  function Painted(fmt: nat, ow: nat, p: Painter, x: nat, o: nat, above: Row, at: Row, below: Row, was: int): int
    requires fmt <= 6
  {
    var px := p.look(x, above, at, below);
    if fmt == 0 then
      var left := ToBytes(0, px, p.grey(px), 0, was % 256)[0];
      var py := p.look(x + 1, above, at, below);
      if x + 1 < ow then ToBytes(0, py, p.grey(py), 1, left)[0] else left
    else
      var b := ToBytes(fmt, px, p.grey(px), 0, 0);
      if Which(fmt, o) < |b| then b[Which(fmt, o)] else 0
  }

  function Paints(l: Layout, p: Painter): (nat, nat, Row, Row, Row, int) -> int {
    (y, a, above, at, below, was) =>
      if l.texfmt <= 6 && l.dest <= a && 0 < l.RowBytes() then
        Painted(l.texfmt, l.ow, p, ColumnAt(l, a), Remainder(Remainder(a - l.dest, l.RowBytes()), l.T().bytes), above, at, below, was)
      else was
  }

  /** The column and the place in its tile that the inverse gives a texel's byte. */
  lemma ByteFound(l: Layout, x: nat, y: nat, k: nat)
    requires l.Lands() && l.texfmt <= 6 && x < l.ow && y < l.oh
    requires k < |TexelBytes(l.texfmt, Remainder(x, l.T().w), Remainder(y, l.T().h))|
    ensures var a, o := TexelAddr(l, x, y, k), TexelBytes(l.texfmt, Remainder(x, l.T().w), Remainder(y, l.T().h))[k];
            && 0 < l.RowBytes() && l.dest <= a
            && Remainder(Remainder(a - l.dest, l.RowBytes()), l.T().bytes) == o
            && ColumnAt(l, a) == (if l.texfmt == 0 then x - x % 2 else x)
  {
    var t := l.T();
    var o := TexelBytes(l.texfmt, Remainder(x, t.w), Remainder(y, t.h))[k];
    TexelPlace(l, x, y, k);
    TileByte(l.texfmt, Remainder(x, t.w), Remainder(y, t.h), k);
    ColumnExact(l.texfmt, Remainder(x, t.w), Remainder(y, t.h), k);
    EvenTiles(x, l.texfmt);
    hide TexelBytes, TileOf, TileRowAt, TileColumnAt;
    DivMod(Quotient(y, t.h), WithinRow(l, x, y, k), l.RowBytes());
    DivMod(Quotient(x, t.w), o, t.bytes);
    Split(x, t.w);
  }

  lemma EvenTiles(x: nat, fmt: nat)
    ensures fmt == 0 ==> Remainder(x, TileOf(fmt).w) % 2 == x % 2
  {
    if fmt == 0 {
      OfEights(x);
      assert TileOf(fmt).w == 8;
    }
  }

  lemma OfEights(x: nat)
    ensures Remainder(x, 8) % 2 == x % 2
  {
    var q, r := x / 8, x % 8;
    assert x == 2 * (4 * q) + r && Remainder(x, 8) == r;
  }

  lemma ColumnExact(fmt: nat, ix: nat, iy: nat, k: nat)
    requires fmt <= 6 && ix < TileOf(fmt).w && iy < TileOf(fmt).h && k < |TexelBytes(fmt, ix, iy)|
    ensures TileColumnAt(TileOf(fmt), TexelBytes(fmt, ix, iy)[k]) == if fmt == 0 then ix - ix % 2 else ix
    ensures Which(fmt, TexelBytes(fmt, ix, iy)[k]) == k
  {
    if fmt == 0 {
      NibbleExact(ix, iy);
    } else if fmt <= 2 {
      ByteExact(ix, iy);
    } else {
      WidePlace(fmt, ix, iy, k);
      WideByte(fmt, ix, iy, k);
      WideWhich(ix, iy, k);
    }
  }

  lemma NibbleExact(ix: nat, iy: nat)
    requires ix < 8 && iy < 8
    ensures (iy * 4 + ix / 2) % 32 % 4 * 8 / 4 == ix - ix % 2
  {
    Slice4(iy, ix / 2);
  }

  lemma ByteExact(ix: nat, iy: nat)
    requires ix < 8 && iy < 4
    ensures (iy * 8 + ix) % 32 % 8 * 8 / 8 == ix
  {
    Slice8(iy, ix);
  }

  lemma WidePlace(fmt: nat, ix: nat, iy: nat, k: nat)
    requires 3 <= fmt && k < |TexelBytes(fmt, ix, iy)|
    ensures k < 4 && TexelBytes(fmt, ix, iy)[k] == (if k < 2 then 0 else 32) + 8 * iy + 2 * ix + k % 2
  {
  }

  lemma WideWhich(ix: nat, iy: nat, k: nat)
    requires ix < 4 && iy < 4 && k < 4
    ensures var o := (if k < 2 then 0 else 32) + 8 * iy + 2 * ix + k % 2; o / 32 * 2 + o % 2 == k
  {
    var o := (if k < 2 then 0 else 32) + 8 * iy + 2 * ix + k % 2;
    assert o == 2 * ((if k < 2 then 0 else 16) + 4 * iy + ix) + k % 2;
  }

  /** A copy's tiles lie in its span. */
  lemma TileInSpan(l: Layout, width: nat, x: nat, y: nat)
    requires Strides(l, width) && l.Lands() && x < l.ow && y < l.oh
    ensures l.dest % MEM_WINDOW == l.dest
    ensures l.dest + TileStart(l.texfmt, width, x, y) + LevelTile(l.texfmt).bytes <= MEM_BYTES
  {
    hide TileOf, LevelTile, CeilDiv, Times, Quotient, Remainder;
    var t := LevelTile(l.texfmt);
    CopyTiles(l.texfmt);
    CeilRises(l.ow, width, t.w);
    QuotientBound(x, l.ow, t.w);
    QuotientBound(y, l.oh, t.h);
    Widens(CeilDiv(l.ow, t.w), CeilDiv(width, t.w), t.bytes);
    Rearranged(Quotient(y, t.h), CeilDiv(width, t.w), Quotient(x, t.w), t.bytes);
    TimesMonotone(Quotient(x, t.w), l.Cols(), t.bytes);
    Widens(Quotient(y, t.h), l.Rows() - 1, l.RowBytes());
  }

  /** What is painted into a texel's byte: the bytes of its pixel, or its half of the byte. */
  lemma PaintedIs(fmt: nat, ow: nat, p: Painter, x: nat, o: nat, k: nat, above: Row, at: Row, below: Row, was: int)
    requires fmt <= 6 && PainterOk(p) && x < ow && k < |Reads(fmt, 0, 0)| && Which(fmt, o) == k
    ensures var px := p.look(x, above, at, below);
            var v := Painted(fmt, ow, p, if fmt == 0 then x - x % 2 else x, o, above, at, below, was);
            && IsByte(v)
            && (fmt == 0 ==> Nibble(v, x) == p.grey(px) / 16)
            && (fmt != 0 ==> |ToBytes(fmt, px, p.grey(px), 0, 0)| == |Reads(fmt, 0, 0)| && v == ToBytes(fmt, px, p.grey(px), 0, 0)[k])
  {
    var px := p.look(x, above, at, below);
    if fmt == 0 {
      var x0 := x - x % 2;
      var left, right := p.look(x0, above, at, below), p.look(x0 + 1, above, at, below);
      Halved(was % 256, p.grey(left), p.grey(right));
    } else {
      BytesAre(fmt, px, p.grey(px), k);
    }
  }

  lemma Halved(was: int, left: int, right: int)
    requires IsByte(was) && IsByte(left) && IsByte(right)
    ensures var b := was % 16 + left / 16 * 16;
            && IsByte(b) && b / 16 == left / 16
            && IsByte(b / 16 * 16 + right / 16) && (b / 16 * 16 + right / 16) / 16 == left / 16 && (b / 16 * 16 + right / 16) % 16 == right / 16
  {
    TwoNibbles(left / 16, was % 16);
    TwoNibbles(left / 16, right / 16);
  }

  lemma BytesAre(fmt: nat, px: Colour, grey: int, k: nat)
    requires fmt <= 6 && PixelOk(px) && IsByte(grey) && k < |Reads(fmt, 0, 0)|
    ensures IsByte(ToBytes(fmt, px, grey, 0, 0)[k])
  {
    hide TexelFormats.Halves;
    if fmt == 4 {
      HalvesAre(px[0] / 8 * 2048 + px[1] / 4 * 32 + px[2] / 8);
    } else if fmt == 5 {
      HalvesAre(if px[3] >= 224 then 32768 + px[0] / 8 * 1024 + px[1] / 8 * 32 + px[2] / 8
                else px[3] / 32 * 4096 + px[0] / 16 * 256 + px[1] / 16 * 16 + px[2] / 16);
    }
  }

  lemma HalvesAre(v: int)
    requires 0 <= v < 0x1_0000
    ensures IsByte(TexelFormats.Halves(v)[0]) && IsByte(TexelFormats.Halves(v)[1])
  {
  }

  /** Bytes at their places in a tile, decoded. */
  lemma TileDecodes(fmt: nat, tile: seq<int>, ix: nat, iy: nat, x: nat, px: Colour, grey: int, palette: int -> Colour)
    requires fmt <= 6 && PixelOk(px) && IsByte(grey) && (fmt == 0 ==> ix % 2 == x % 2)
    requires var r := Reads(fmt, ix, iy);
             forall k | 0 <= k < |r| ::
               && r[k] < |tile| && IsByte(tile[r[k]])
               && (if fmt == 0 then Nibble(tile[r[k]], x) == grey / 16 else tile[r[k]] == ToBytes(fmt, px, grey, 0, 0)[k])
    ensures OfTile(fmt, tile, ix, iy, palette) == Rounded(fmt, px, grey)
  {
    hide OfBytes, ToBytes, Rounded, Nibble, OfTile;
    var b := Gathered(fmt, tile, ix, iy);
    TileIs(fmt, tile, ix, iy, palette);
    if fmt == 0 {
      GreyIs(b, ix, x, px, grey, palette);
    } else {
      SameTexel(fmt, px, grey, ix);
      assert b == ToBytes(fmt, px, grey, 0, 0);
      DecodedAs(fmt, px, grey, ix, 0, palette);
    }
  }

  function Gathered(fmt: nat, tile: seq<int>, ix: nat, iy: nat): (b: seq<int>)
    ensures |b| == |Reads(fmt, ix, iy)| == |Reads(fmt, ix, 0)|
  {
    var r := Reads(fmt, ix, iy);
    seq(|r|, k requires 0 <= k < |r| => ByteOf(tile, r[k]))
  }

  lemma TileIs(fmt: nat, tile: seq<int>, ix: nat, iy: nat, palette: int -> Colour)
    requires fmt <= 6
    ensures OfTile(fmt, tile, ix, iy, palette) == OfBytes(fmt, Gathered(fmt, tile, ix, iy), ix, palette)
  {
    hide OfBytes, Reads;
  }

  lemma GreyIs(b: seq<int>, ix: nat, x: nat, px: Colour, grey: int, palette: int -> Colour)
    requires |b| == 1 && ix % 2 == x % 2 && Nibble(b[0], x) == grey / 16
    ensures OfBytes(0, b, ix, palette) == Rounded(0, px, grey)
  {
  }

  lemma SameTexel(fmt: nat, px: Colour, grey: int, ix: nat)
    requires 0 < fmt <= 6
    ensures ToBytes(fmt, px, grey, ix, 0) == ToBytes(fmt, px, grey, 0, 0)
    ensures |ToBytes(fmt, px, grey, 0, 0)| == |Reads(fmt, ix, 0)|
  {
    hide TexelFormats.Halves;
  }

  /** Copied row y's taps. */
  function TapsOf(half: bool, filtered: bool, y0: nat, h: nat, efb: seq<Row>, y: nat): Taps {
    if half then HalfScale(filtered, Rect(y0, h, efb), y) else FullScale(filtered, Rect(y0, h, efb), y)
  }

  /** What byte k of texel (x, y) holds after the copy. */
  lemma CopiedByte(l: Layout, half: bool, filtered: bool, y0: nat, h: nat, p: Painter, fill: (nat, Row) -> Row, clear: bool, w: World,
                   x: nat, y: nat, k: nat)
    requires 0 < h <= 1024 && l.oh == (if half then h / 2 else h) && l.Lands() && l.texfmt <= 6 && WorldOk(w) && PainterOk(p)
    requires x < l.ow && y < l.oh && k < |TexelBytes(l.texfmt, Remainder(x, l.T().w), Remainder(y, l.T().h))|
    ensures var after := RunOp(OpCopy(ToMemory(l, half, filtered, y0, h, Paints(l, p), fill), clear), w);
            var a, t := TexelAddr(l, x, y, k), TapsOf(half, filtered, y0, h, w.efb, y);
            var px := p.look(x, t.above, t.at, t.below);
            && a < MEM_BYTES && IsByte(after.mem[a])
            && (if l.texfmt == 0 then Nibble(after.mem[a], x) == p.grey(px) / 16
                else k < |ToBytes(l.texfmt, px, p.grey(px), 0, 0)| && after.mem[a] == ToBytes(l.texfmt, px, p.grey(px), 0, 0)[k])
  {
    hide *;
    var ix, iy := Remainder(x, l.T().w), Remainder(y, l.T().h);
    SixTiles(l);
    ByteFound(l, x, y, k);
    ColumnExact(l.texfmt, ix, iy, k);
    StoredIsRead(l.texfmt, ix, iy);
    SameCount(l.texfmt, ix, iy);
    CopyOpOk(l, half, filtered, y0, h, Paints(l, p), fill, clear);
    TextureCopyMeans(l, half, filtered, y0, h, Paints(l, p), fill, clear, w, x, y, k);
    var a, t := TexelAddr(l, x, y, k), TapsOf(half, filtered, y0, h, w.efb, y);
    TapsAs(half, filtered, y0, h, w.efb, y);
    Sized(w);
    InMemory(l, x, y, k);
    PaintsAs(l, p, y, a, t, w.mem[a]);
    PaintedIs(l.texfmt, l.ow, p, x, TexelBytes(l.texfmt, ix, iy)[k], k, t.above, t.at, t.below, w.mem[a]);
  }

  lemma SixTiles(l: Layout)
    requires l.texfmt <= 6
    ensures 0 < l.T().w && 0 < l.T().h && l.T() == TileOf(l.texfmt)
  {
  }

  lemma InMemory(l: Layout, x: nat, y: nat, k: nat)
    requires l.Lands() && x < l.ow && y < l.oh && k < |TexelBytes(l.texfmt, Remainder(x, l.T().w), Remainder(y, l.T().h))|
    ensures TexelAddr(l, x, y, k) < MEM_BYTES
  {
    TexelRow(l, x, y, k);
    WrittenInSpan(l, TexelAddr(l, x, y, k));
  }

  lemma TapsAs(half: bool, filtered: bool, y0: nat, h: nat, efb: seq<Row>, y: nat)
    ensures TapsOf(half, filtered, y0, h, efb, y) ==
            if half then HalfScale(filtered, Rect(y0, h, efb), y) else FullScale(filtered, Rect(y0, h, efb), y)
  {
  }

  lemma PaintsAs(l: Layout, p: Painter, y: nat, a: nat, t: Taps, was: int)
    requires l.texfmt <= 6 && l.dest <= a && 0 < l.RowBytes() && 0 < l.T().bytes
    ensures Paints(l, p)(y, a, t.above, t.at, t.below, was) ==
            Painted(l.texfmt, l.ow, p, ColumnAt(l, a), Remainder(Remainder(a - l.dest, l.RowBytes()), l.T().bytes), t.above, t.at, t.below, was)
  {
    hide Painted, ColumnAt;
  }

  lemma SameCount(fmt: nat, ix: nat, iy: nat)
    ensures |Reads(fmt, ix, iy)| == |Reads(fmt, 0, 0)|
  {
  }

  lemma CopyOpOk(l: Layout, half: bool, filtered: bool, y0: nat, h: nat, enc: (nat, nat, Row, Row, Row, int) -> int, fill: (nat, Row) -> Row, clear: bool)
    requires 0 < h <= 1024 && l.oh == (if half then h / 2 else h)
    ensures OpOk(OpCopy(ToMemory(l, half, filtered, y0, h, enc, fill), clear))
  {
  }

  lemma Looks(p: Painter, x: nat, t: Taps)
    requires PainterOk(p)
    ensures var px := p.look(x, t.above, t.at, t.below); PixelOk(px) && IsByte(p.grey(px))
  {
  }

  lemma SixFormats(l: Layout, width: nat)
    requires Strides(l, width)
    ensures l.texfmt <= 6 && 0 < l.T().w && 0 < l.T().h
  {
  }

  lemma Sized(w: World)
    requires WorldOk(w)
    ensures |w.mem| == MEM_BYTES
  {
  }

  /** Byte k of texel (x, y) is a copied pixel's. */
  ghost predicate HasByte(l: Layout, mem: seq<int>, x: nat, y: nat, k: nat, px: Colour, grey: int)
    requires l.texfmt <= 6 && k < |TexelBytes(l.texfmt, Remainder(x, l.T().w), Remainder(y, l.T().h))|
  {
    var a := TexelAddr(l, x, y, k);
    && a < |mem| && IsByte(mem[a])
    && (if l.texfmt == 0 then Nibble(mem[a], x) == grey / 16
        else k < |ToBytes(l.texfmt, px, grey, 0, 0)| && mem[a] == ToBytes(l.texfmt, px, grey, 0, 0)[k])
  }

  lemma ByteHad(l: Layout, mem: seq<int>, x: nat, y: nat, k: nat, px: Colour, grey: int)
    requires l.texfmt <= 6 && k < |TexelBytes(l.texfmt, Remainder(x, l.T().w), Remainder(y, l.T().h))|
    requires var a := TexelAddr(l, x, y, k);
             && a < |mem| && IsByte(mem[a])
             && (if l.texfmt == 0 then Nibble(mem[a], x) == grey / 16
                 else k < |ToBytes(l.texfmt, px, grey, 0, 0)| && mem[a] == ToBytes(l.texfmt, px, grey, 0, 0)[k])
    ensures HasByte(l, mem, x, y, k, px, grey)
  {
  }

  /** Memory that holds a texel's bytes decodes to it. */
  lemma BytesDecode(l: Layout, width: nat, height: nat, mem: seq<int>, tmem: seq<int>, x: nat, y: nat, px: Colour, grey: int)
    requires Strides(l, width) && l.Lands() && x < l.ow && y < l.oh && |mem| == MEM_BYTES && PixelOk(px) && IsByte(grey) && l.texfmt <= 6
    requires forall k | 0 <= k < |TexelBytes(l.texfmt, Remainder(x, l.T().w), Remainder(y, l.T().h))| :: HasByte(l, mem, x, y, k, px, grey)
    ensures TexelAt(Asked(l.dest, l.texfmt, width, height, 0, 0), mem, tmem, x, y) == Rounded(l.texfmt, px, grey)
  {
    hide PixelOk, ToBytes, Nibble, OfTile, TileStart, Strides, Rounded, TexelAddr;
    var d := LevelTile(l.texfmt);
    var ix, iy, at := Remainder(x, d.w), Remainder(y, d.h), l.dest + TileStart(l.texfmt, width, x, y);
    CopyTiles(l.texfmt);
    TileInSpan(l, width, x, y);
    var tile := mem[at..at + d.bytes];
    StoredIsRead(l.texfmt, ix, iy);
    PlacesInTile(l.texfmt, ix, iy);
    hide LevelTile, TileOf, TexelBytes, Reads;
    forall k | 0 <= k < |Reads(l.texfmt, ix, iy)|
      ensures var o := Reads(l.texfmt, ix, iy)[k];
              && o < |tile| && IsByte(tile[o])
              && (if l.texfmt == 0 then Nibble(tile[o], x) == grey / 16
                  else k < |ToBytes(l.texfmt, px, grey, 0, 0)| && tile[o] == ToBytes(l.texfmt, px, grey, 0, 0)[k])
    {
      CopyLands(l, width, x, y, k);
      assert HasByte(l, mem, x, y, k, px, grey);
    }
    EvenTiles(x, l.texfmt);
    TileDecodes(l.texfmt, tile, ix, iy, x, px, grey, MemoryPalette(tmem, 0, 0));
  }

  lemma PlacesInTile(fmt: nat, ix: nat, iy: nat)
    requires fmt <= 6 && ix < LevelTile(fmt).w && iy < LevelTile(fmt).h
    ensures forall k | 0 <= k < |Reads(fmt, ix, iy)| :: Reads(fmt, ix, iy)[k] < LevelTile(fmt).bytes
  {
  }

  /** The theorem: in the texture the copy's stride makes, however wide, decoding each copied
      texel gives its pixel, rounded to the format. */
  lemma CopiedTextureDecodes(l: Layout, width: nat, height: nat, half: bool, filtered: bool, y0: nat, h: nat, p: Painter, fill: (nat, Row) -> Row,
                             clear: bool, w: World, tmem: seq<int>, x: nat, y: nat)
    requires 0 < h <= 1024 && l.oh == (if half then h / 2 else h) && l.Lands() && Strides(l, width) && WorldOk(w) && PainterOk(p)
    requires x < l.ow && y < l.oh
    ensures var after := RunOp(OpCopy(ToMemory(l, half, filtered, y0, h, Paints(l, p), fill), clear), w);
            var t := TapsOf(half, filtered, y0, h, w.efb, y);
            var px := p.look(x, t.above, t.at, t.below);
            TexelAt(Asked(l.dest, l.texfmt, width, height, 0, 0), after.mem, tmem, x, y) == Rounded(l.texfmt, px, p.grey(px))
  {
    hide *;
    CopyOpOk(l, half, filtered, y0, h, Paints(l, p), fill, clear);
    var after := RunOp(OpCopy(ToMemory(l, half, filtered, y0, h, Paints(l, p), fill), clear), w);
    var t := TapsOf(half, filtered, y0, h, w.efb, y);
    var px := p.look(x, t.above, t.at, t.below);
    Sized(after);
    Looks(p, x, t);
    SixFormats(l, width);
    forall k | 0 <= k < |TexelBytes(l.texfmt, Remainder(x, l.T().w), Remainder(y, l.T().h))|
      ensures HasByte(l, after.mem, x, y, k, px, p.grey(px))
    {
      CopiedByte(l, half, filtered, y0, h, p, fill, clear, w, x, y, k);
      ByteHad(l, after.mem, x, y, k, px, p.grey(px));
    }
    BytesDecode(l, width, height, after.mem, tmem, x, y, px, p.grey(px));
  }
}
