/**
  A texture's memory written from what its texels are to be: each texel a palette entry, or a
  choice among the four colours of its block. Proved: decoding a level finds at each texel the
  entry, or the colour, that was chosen for it.
 */
module TextureEncoding {
  import opened Arithmetic
  import opened CopyGeometry
  import opened PendingCopies
  import opened TexelFormats
  import opened TextureCache
  import opened TextureLevel

  // ---- a picture's pixels --------------------------------------------------------------------

  /** The pixels are in rows, and each pixel's channels together. */
  lemma PixelAt(w: nat, h: nat, texel: (nat, nat) -> Colour, x: nat, y: nat, channel: nat)
    requires x < w && y < h && channel < 4
    ensures var p, at := Pixels(w, h, texel), Times(Times(y, w) + x, 4) + channel;
            |p| == Times(Times(w, h), 4) && at < |p| && p[at] == texel(x, y)[channel]
  {
    hide Times, Quotient, Remainder;
    var i := Times(y, w) + x;
    TimesMonotone(y, h, w);
    Turned(w, h);
    Unique(i, y, x, w);
    Fourfold(i);
    Fourfold(Times(w, h));
    assert (i * 4 + channel) / 4 == i && (i * 4 + channel) % 4 == channel;
  }

  lemma Turned(w: nat, h: nat)
    ensures Times(h, w) == Times(w, h)
  {
  }

  lemma Fourfold(i: nat)
    ensures Times(i, 4) == i * 4
  {
  }

  lemma Unique(n: nat, q: nat, r: nat, d: nat)
    requires r < d && n == Times(q, d) + r
    ensures Quotient(n, d) == q && Remainder(n, d) == r
  {
    DivMod(q, r, d);
  }

  // ---- entries of a palette ------------------------------------------------------------------------

  /** A tile's bytes: two entries to a byte, the left one first; one; or two bytes to an entry. */
  function IndexTile(fmt: nat, entry: (nat, nat) -> nat): (b: seq<int>)
    requires ByPalette(fmt)
    ensures |b| == 32
  {
    if fmt == 8 then seq(32, o requires 0 <= o => entry(o % 4 * 2, o / 4) * 16 + entry(o % 4 * 2 + 1, o / 4))
    else if fmt == 9 then seq(32, o requires 0 <= o => entry(o % 8, o / 8))
    else seq(32, o requires 0 <= o => if o % 2 == 0 then entry(o / 2 % 4, o / 8) / 256 else entry(o / 2 % 4, o / 8) % 256)
  }

  lemma OneByte(fmt: nat, tile: seq<int>, ix: nat, iy: nat, palette: int -> Colour)
    requires fmt == 8 || fmt == 9
    ensures OfTile(fmt, tile, ix, iy, palette) ==
            palette(if fmt == 8 then Nibble(ByteOf(tile, iy * 4 + ix / 2), ix) else ByteOf(tile, iy * 8 + ix))
  {
    hide BlockColour, Grey, Rgb565, Rgb5A3, Nibble, ByteOf;
  }

  lemma TwoBytes(tile: seq<int>, ix: nat, iy: nat, palette: int -> Colour)
    ensures var at := (iy * 4 + ix) * 2;
            OfTile(10, tile, ix, iy, palette) == palette((ByteOf(tile, at) * 256 + ByteOf(tile, at + 1)) % 0x4000)
  {
    hide BlockColour, Grey, Rgb565, Rgb5A3, Nibble, ByteOf;
  }

  lemma Halved(entry: (nat, nat) -> nat, ix: nat, iy: nat)
    requires ix < 8 && iy < 8 && forall x, y :: entry(x, y) < 16
    ensures Nibble(ByteOf(IndexTile(8, entry), iy * 4 + ix / 2), ix) == entry(ix, iy)
  {
    var o, k := iy * 4 + ix / 2, ix / 2;
    assert o % 4 == k && o / 4 == iy;
    assert ByteOf(IndexTile(8, entry), o) == entry(k * 2, iy) * 16 + entry(k * 2 + 1, iy);
    assert ix == if ix % 2 == 0 then k * 2 else k * 2 + 1;
    hide IndexTile, ByteOf;
    TwoNibbles(entry(k * 2, iy), entry(k * 2 + 1, iy));
  }

  lemma Bytewise(entry: (nat, nat) -> nat, ix: nat, iy: nat)
    requires ix < 8 && iy < 4 && forall x, y :: entry(x, y) < 256
    ensures ByteOf(IndexTile(9, entry), iy * 8 + ix) == entry(ix, iy)
  {
    assert (iy * 8 + ix) % 8 == ix && (iy * 8 + ix) / 8 == iy;
  }

  lemma Wordwise(entry: (nat, nat) -> nat, ix: nat, iy: nat)
    requires ix < 4 && iy < 4 && forall x, y :: entry(x, y) < 0x4000
    ensures var at, b := (iy * 4 + ix) * 2, IndexTile(10, entry);
            ByteOf(b, at) == entry(ix, iy) / 256 && ByteOf(b, at + 1) == entry(ix, iy) % 256
  {
    var at := (iy * 4 + ix) * 2;
    assert at % 2 == 0 && at / 2 % 4 == ix && at / 8 == iy && (at + 1) % 2 == 1 && (at + 1) / 2 % 4 == ix && (at + 1) / 8 == iy;
  }

  lemma IndexTexel(fmt: nat, entry: (nat, nat) -> nat, ix: nat, iy: nat, palette: int -> Colour)
    requires ByPalette(fmt) && ix < LevelTile(fmt).w && iy < LevelTile(fmt).h
    requires forall x, y :: entry(x, y) < Entries(fmt)
    ensures OfTile(fmt, IndexTile(fmt, entry), ix, iy, palette) == palette(entry(ix, iy))
  {
    hide OfTile, IndexTile, Nibble, ByteOf;
    if fmt == 8 {
      Halved(entry, ix, iy);
      OneByte(fmt, IndexTile(fmt, entry), ix, iy, palette);
    } else if fmt == 9 {
      Bytewise(entry, ix, iy);
      OneByte(fmt, IndexTile(fmt, entry), ix, iy, palette);
    } else {
      Wordwise(entry, ix, iy);
      TwoBytes(IndexTile(fmt, entry), ix, iy, palette);
      assert entry(ix, iy) / 256 * 256 + entry(ix, iy) % 256 == entry(ix, iy);
    }
  }

  /** A palette's entries are stored as texels of the formats with alpha and grey, of sixteen
      bits' colour, or of colour or translucence: 3, 4 and 5. */
  lemma EntryDecodes(tmem: seq<int>, off: nat, tlutFmt: nat, i: nat, px: Colour, grey: int)
    requires tlutFmt < 3 && PixelOk(px) && IsByte(grey) && off + 2 * i + 2 <= TMEM_BYTES == |tmem|
    requires tmem[off + 2 * i..off + 2 * i + 2] == ToBytes(3 + tlutFmt, px, grey, 0, 0)
    ensures PaletteAt(tmem, off, tlutFmt, i) == Rounded(3 + tlutFmt, px, grey)
  {
    hide Rgb565, Rgb5A3, ToBytes, Rounded, OfBytes, PaletteColour;
    var p, b := off + 2 * i, ToBytes(3 + tlutFmt, px, grey, 0, 0);
    BytesAre(3 + tlutFmt, px, grey);
    assert tmem[p] == tmem[p..p + 2][0] == b[0] && tmem[p + 1] == tmem[p..p + 2][1] == b[1];
    assert (off + i * 2) % TMEM_BYTES == p;
    DecodedAs(3 + tlutFmt, px, grey, 0, 0, j => MAGENTA);
    SameColour(tlutFmt, b, j => MAGENTA);
  }

  lemma SameColour(tlutFmt: nat, b: seq<int>, palette: int -> Colour)
    requires tlutFmt < 3 && |b| == 2
    ensures PaletteColour(tlutFmt, b[0], b[1]) == OfBytes(3 + tlutFmt, b, 0, palette)
  {
    hide Rgb565, Rgb5A3;
  }

  lemma BytesAre(fmt: nat, px: Colour, grey: int)
    requires 3 <= fmt <= 5 && PixelOk(px) && IsByte(grey)
    ensures var b := ToBytes(fmt, px, grey, 0, 0); |b| == 2 && IsByte(b[0]) && IsByte(b[1])
  {
    hide TexelFormats.Halves;
    forall v | 0 <= v < 0x1_0000 ensures IsByte(TexelFormats.Halves(v)[0]) && IsByte(TexelFormats.Halves(v)[1]) {
      HalvesAre(v);
    }
    var r, g, b, a := px[0], px[1], px[2], px[3];
    assert 0 <= r / 8 < 32 && 0 <= g / 4 < 64 && 0 <= g / 8 < 32 && 0 <= b / 8 < 32;
    assert 0 <= a / 32 < 8 && 0 <= r / 16 < 16 && 0 <= g / 16 < 16 && 0 <= b / 16 < 16;
  }

  lemma HalvesAre(v: int)
    requires 0 <= v < 0x1_0000
    ensures IsByte(TexelFormats.Halves(v)[0]) && IsByte(TexelFormats.Halves(v)[1])
  {
  }

  /** The theorem for palettes: where the tile a texel lies in was written from the entries
      chosen, the texel is the colour of its entry. */
  lemma IndexedTexel(g: Asked, mem: seq<int>, tmem: seq<int>, entry: (nat, nat) -> nat, x: nat, y: nat)
    requires ByPalette(g.fmt) && forall x, y :: entry(x, y) < Entries(g.fmt)
    requires var t, at := LevelTile(g.fmt), g.addr % MEM_WINDOW + TileStart(g.fmt, g.w, x, y);
             at + 32 <= |mem|
             && mem[at..at + 32] == IndexTile(g.fmt, (ix, iy) => entry(Times(Quotient(x, t.w), t.w) + ix, Times(Quotient(y, t.h), t.h) + iy))
    ensures TexelAt(g, mem, tmem, x, y) == PaletteAt(tmem, g.tlutOff, g.tlutFmt, entry(x, y))
  {
    hide TileStart, OfTile, IndexTile, PaletteAt, Times, Quotient, Remainder, LevelTile, Entries;
    var t := LevelTile(g.fmt);
    TileSize(g.fmt);
    Split(x, t.w);
    Split(y, t.h);
    IndexTexel(g.fmt, (ix, iy) => entry(Times(Quotient(x, t.w), t.w) + ix, Times(Quotient(y, t.h), t.h) + iy),
               Remainder(x, t.w), Remainder(y, t.h), MemoryPalette(tmem, g.tlutOff, g.tlutFmt));
  }

  lemma TileSize(fmt: nat)
    requires ByPalette(fmt)
    ensures LevelTile(fmt).bytes == 32
  {
  }

  // ---- compressed blocks ---------------------------------------------------------------------------

  /** Two colours, and each texel's choice, a row to a byte and the left texel first. */
  function BlockBytes(c0: nat, c1: nat, choice: (nat, nat) -> nat): (b: seq<int>)
    ensures |b| == 8
  {
    [c0 / 256, c0 % 256, c1 / 256, c1 % 256, RowByte(choice, 0), RowByte(choice, 1), RowByte(choice, 2), RowByte(choice, 3)]
  }

  function RowByte(choice: (nat, nat) -> nat, y: nat): int {
    choice(0, y) * 64 + choice(1, y) * 16 + choice(2, y) * 4 + choice(3, y)
  }

  /** v is the mean of a and b, a weighing n of them, rounded down: opaque. */
  predicate Between(a: Colour, b: Colour, n: nat, of: nat, v: Colour)
    requires n <= of
  {
    v[3] == 255 && forall i | 0 <= i < 3 :: of * v[i] <= n * a[i] + (of - n) * b[i] < of * v[i] + of
  }

  lemma RowChoice(choice: (nat, nat) -> nat, x: nat, y: nat)
    requires x < 4 && forall x, y :: choice(x, y) < 4
    ensures Bits(RowByte(choice, y), if x == 0 then 64 else if x == 1 then 16 else if x == 2 then 4 else 1, 4) == choice(x, y)
    ensures 0 <= RowByte(choice, y) < 256
  {
    var a, b, c, d := choice(0, y), choice(1, y), choice(2, y), choice(3, y);
    FourDigits(a, b, c, d);
  }

  lemma FourDigits(a: nat, b: nat, c: nat, d: nat)
    requires a < 4 && b < 4 && c < 4 && d < 4
    ensures var v := a * 64 + b * 16 + c * 4 + d; v < 256 && v / 64 % 4 == a && v / 16 % 4 == b && v / 4 % 4 == c && v % 4 == d
  {
  }

  /** The first two choices are the block's colours. Of a first colour above the second, the
      others are a third of the way between; else they are halfway, and nothing at all. */
  lemma BlockTexel(c0: nat, c1: nat, choice: (nat, nat) -> nat, x: nat, y: nat)
    requires c0 < 0x1_0000 && c1 < 0x1_0000 && x < 4 && y < 4 && forall x, y :: choice(x, y) < 4
    ensures var v, p, q := BlockColour(BlockBytes(c0, c1, choice), x, y), Rgb565(c0), Rgb565(c1);
            match choice(x, y)
            case 0 => v == p
            case 1 => v == q
            case 2 => if c0 > c1 then Between(p, q, 2, 3, v) else Between(p, q, 1, 2, v)
            case _ => if c0 > c1 then Between(q, p, 2, 3, v) else v == [0, 0, 0, 0]
  {
    hide Bits, RowByte, Rgb565, ByteOf, BlockBytes;
    BlockReads(c0, c1, choice, y);
    RowChoice(choice, x, y);
    assert y % 4 == y && x % 4 == x;
  }

  lemma BlockReads(c0: nat, c1: nat, choice: (nat, nat) -> nat, y: nat)
    requires c0 < 0x1_0000 && c1 < 0x1_0000 && y < 4 && forall x, y :: choice(x, y) < 4
    ensures var b := BlockBytes(c0, c1, choice);
            && ByteOf(b, 0) * 256 + ByteOf(b, 1) == c0 && ByteOf(b, 2) * 256 + ByteOf(b, 3) == c1
            && ByteOf(b, 4 + y) == RowByte(choice, y)
  {
    hide RowByte;
    RowChoice(choice, 0, y);
    hide Bits;
  }

  lemma SamePlace(b: seq<int>, ix: nat, iy: nat)
    ensures BlockColour(b, ix, iy) == BlockColour(b, ix % 4, iy % 4)
  {
    hide Bits, Rgb565, ByteOf;
    assert ix % 4 % 4 == ix % 4 && iy % 4 % 4 == iy % 4;
  }

  lemma BlockOf(tile: seq<int>, ix: nat, iy: nat, palette: int -> Colour)
    requires |tile| == 32 && ix < 8 && iy < 8
    ensures var at := (if iy < 4 then 0 else 16) + (if ix < 4 then 0 else 8);
            OfTile(14, tile, ix, iy, palette) == BlockColour(tile[at..at + 8], ix, iy)
  {
    hide BlockColour;
    assert iy / 4 == (if iy < 4 then 0 else 1) && ix / 4 == (if ix < 4 then 0 else 1);
  }

  lemma Joined4(b: seq<seq<int>>)
    requires |b| == 4 && (forall i | 0 <= i < 4 :: |b[i]| == 8)
    ensures var t := b[0] + b[1] + b[2] + b[3];
            |t| == 32 && t[0..8] == b[0] && t[8..16] == b[1] && t[16..24] == b[2] && t[24..32] == b[3]
  {
  }

  /** A tile is four blocks: left and right, and then those below. */
  lemma FourBlocks(b: seq<seq<int>>, ix: nat, iy: nat, palette: int -> Colour)
    requires |b| == 4 && (forall i | 0 <= i < 4 :: |b[i]| == 8) && ix < 8 && iy < 8
    ensures OfTile(14, b[0] + b[1] + b[2] + b[3], ix, iy, palette) ==
            BlockColour(if iy < 4 then if ix < 4 then b[0] else b[1] else if ix < 4 then b[2] else b[3], ix % 4, iy % 4)
  {
    hide OfTile, BlockColour;
    Joined4(b);
    BlockOf(b[0] + b[1] + b[2] + b[3], ix, iy, palette);
    SamePlace(if iy < 4 then if ix < 4 then b[0] else b[1] else if ix < 4 then b[2] else b[3], ix, iy);
  }
}
