/**
  A texture's base level as decode_level makes it of guest memory and texture memory, texel by
  texel, from the arguments of a lookup. Proved: it depends on exactly the bytes a cache entry's
  key covers, so a cache that decodes those shows the texture asked for; and a lookup's arguments
  name the same entry exactly when they name the same texture.
 */
module TextureLevel {
  import opened Arithmetic
  import opened CopyGeometry
  import opened PendingCopies
  import opened TexelFormats
  import opened TextureIndex
  import opened TextureCache

  /** What a lookup is asked for (texture). */
  datatype Asked = Asked(addr: nat, fmt: nat, w: nat, h: nat, tlutOff: nat, tlutFmt: nat)

  /** decode_level's tiles. */
  function LevelTile(fmt: nat): (t: Tile)
    ensures 0 < t.w && 0 < t.h && 0 < t.bytes
  {
    match fmt
    case 0 => Tile(8, 8, 32, 4) case 8 => Tile(8, 8, 32, 4) case 14 => Tile(8, 8, 32, 4)
    case 1 => Tile(8, 4, 32, 8) case 2 => Tile(8, 4, 32, 8) case 9 => Tile(8, 4, 32, 8)
    case 6 => Tile(4, 4, 64, 8)
    case _ => Tile(4, 4, 32, 8)
  }

  /** Where the tile of texel (x, y) starts, in a level w texels wide. */
  function TileStart(fmt: nat, w: nat, x: nat, y: nat): nat {
    var t := LevelTile(fmt);
    Times(Times(Quotient(y, t.h), CeilDiv(w, t.w)) + Quotient(x, t.w), t.bytes)
  }

  function ByteOf(s: seq<int>, i: int): int { if 0 <= i < |s| then s[i] % 256 else 0 }

  /** A compressed tile is four blocks of four by four texels: two colours, and two bits a texel
      that choose one of them or one between (decode_cmpr_block). */
  function BlockColour(b: seq<int>, ix: nat, iy: nat): Colour {
    var c0, c1 := ByteOf(b, 0) * 256 + ByteOf(b, 1), ByteOf(b, 2) * 256 + ByteOf(b, 3);
    var p, q := Rgb565(c0), Rgb565(c1);
    var unit := if ix % 4 == 0 then 64 else if ix % 4 == 1 then 16 else if ix % 4 == 2 then 4 else 1;
    match Bits(ByteOf(b, 4 + iy % 4), unit, 4)
    case 0 => p
    case 1 => q
    case 2 => if c0 > c1 then [(2 * p[0] + q[0]) / 3, (2 * p[1] + q[1]) / 3, (2 * p[2] + q[2]) / 3, 255]
              else [(p[0] + q[0]) / 2, (p[1] + q[1]) / 2, (p[2] + q[2]) / 2, 255]
    case _ => if c0 > c1 then [(p[0] + 2 * q[0]) / 3, (p[1] + 2 * q[1]) / 3, (p[2] + 2 * q[2]) / 3, 255] else [0, 0, 0, 0]
  }

  /** Texel (ix, iy) of a tile. */
  function OfTile(fmt: nat, tile: seq<int>, ix: nat, iy: nat, palette: int -> Colour): Colour {
    if fmt == 14 then
      var at := (iy / 4 * 2 + ix / 4) * 8;
      BlockColour(if at + 8 <= |tile| then tile[at..at + 8] else [], ix, iy)
    else
      var r := Reads(fmt, ix, iy);
      OfBytes(fmt, seq(|r|, k requires 0 <= k < |r| => ByteOf(tile, r[k])), ix, palette)
  }

  /** Entry i of the palette at `off`. */
  function PaletteAt(tmem: seq<int>, off: nat, tlutFmt: nat, i: int): Colour {
    var p := (off + i * 2) % TMEM_BYTES;
    PaletteColour(tlutFmt, ByteOf(tmem, p), ByteOf(tmem, p + 1))
  }

  function MemoryPalette(tmem: seq<int>, off: nat, tlutFmt: nat): int -> Colour { i => PaletteAt(tmem, off, tlutFmt, i) }

  function KeyPalette(k: Key, src: Source): int -> Colour {
    i => PaletteColour(k.tlutFmt, ByteOf(src.palette, i * 2), ByteOf(src.palette, i * 2 + 1))
  }

  /** Texel (x, y) of the level: black and clear where its tile is not in memory. */
  function TexelAt(g: Asked, mem: seq<int>, tmem: seq<int>, x: nat, y: nat): Colour {
    var t, at := LevelTile(g.fmt), g.addr % MEM_WINDOW + TileStart(g.fmt, g.w, x, y);
    if at + t.bytes > |mem| then [0, 0, 0, 0]
    else OfTile(g.fmt, mem[at..at + t.bytes], Remainder(x, t.w), Remainder(y, t.h), MemoryPalette(tmem, g.tlutOff, g.tlutFmt))
  }

  /** The same of the bytes a cache entry covers. */
  function KeyTexel(k: Key, src: Source, x: nat, y: nat): Colour {
    var t, at := LevelTile(k.fmt), TileStart(k.fmt, k.w, x, y);
    if at + t.bytes > |src.texels| then [0, 0, 0, 0]
    else OfTile(k.fmt, src.texels[at..at + t.bytes], Remainder(x, t.w), Remainder(y, t.h), KeyPalette(k, src))
  }

  /** A level's pixels in rows, four channels each. */
  function Pixels(w: nat, h: nat, texel: (nat, nat) -> Colour): Picture {
    if w == 0 then []
    else seq(Times(Times(w, h), 4), j requires 0 <= j => texel(Remainder(j / 4, w), Quotient(j / 4, w))[j % 4])
  }

  function Level(g: Asked, mem: seq<int>, tmem: seq<int>): Picture { Pixels(g.w, g.h, (x, y) => TexelAt(g, mem, tmem, x, y)) }

  function KeyLevel(k: Key, src: Source): Picture { Pixels(k.w, k.h, (x, y) => KeyTexel(k, src, x, y)) }

  // ---- a key covers what a decode reads -------------------------------------------------------

  lemma SameTiles(fmt: nat)
    ensures LevelTile(fmt).w == TextureTile(fmt).w && LevelTile(fmt).h == TextureTile(fmt).h && LevelTile(fmt).bytes == TextureTile(fmt).bytes
  {
  }

  /** A texel's tile lies in the texture's bytes. */
  lemma TileFits(fmt: nat, w: nat, h: nat, x: nat, y: nat)
    requires x < w && y < h
    ensures TileStart(fmt, w, x, y) + LevelTile(fmt).bytes <= TextureBytes(fmt, w, h)
  {
    SameTiles(fmt);
    var t := LevelTile(fmt);
    hide LevelTile, TextureTile;
    QuotientBound(x, w, t.w);
    QuotientBound(y, h, t.h);
    TileInside(Quotient(x, t.w), Quotient(y, t.h), CeilDiv(w, t.w), CeilDiv(h, t.h), t.bytes);
  }

  lemma TileInside(tx: nat, ty: nat, across: nat, down: nat, b: nat)
    requires tx < across && ty < down
    ensures Times(Times(ty, across) + tx, b) + b <= Times(Times(across, down), b)
  {
    TimesMonotone(ty, down, across);
    assert Times(down, across) == Times(across, down);
    hide Times;
    TimesMonotone(Times(ty, across) + tx, Times(across, down), b);
  }

  /** How many entries of its palette a format can name. */
  function Entries(fmt: nat): nat { if fmt == 8 then 16 else if fmt == 9 then 256 else if fmt == 10 then 0x4000 else 0 }

  lemma PaletteRead(fmt: nat, tile: seq<int>, ix: nat, iy: nat, p: int -> Colour, q: int -> Colour)
    requires forall i | 0 <= i < Entries(fmt) :: p(i) == q(i)
    ensures OfTile(fmt, tile, ix, iy, p) == OfTile(fmt, tile, ix, iy, q)
  {
    hide Rgb565, Rgb5A3, BlockColour;
  }

  lemma EntryIs(k: Key, v: View, i: int)
    requires ViewOk(v) && InRange(k) && 0 <= i < Entries(k.fmt)
    ensures var src := SourceOf(k, v);
            PaletteColour(k.tlutFmt, ByteOf(src.palette, i * 2), ByteOf(src.palette, i * 2 + 1)) ==
            PaletteAt(v.tmem, k.tlutOff, k.tlutFmt, i)
  {
    hide PaletteColour, BaseBytes, ByteOf;
    var n, p := PaletteBytes(k.fmt), SourceOf(k, v).palette;
    assert i * 2 + 1 < n && k.tlutOff + n <= TMEM_BYTES;
    assert p == v.tmem[k.tlutOff..k.tlutOff + n];
    SameByte(p, v.tmem, k.tlutOff, i * 2);
    SameByte(p, v.tmem, k.tlutOff, i * 2 + 1);
    assert (k.tlutOff + i * 2) % TMEM_BYTES == k.tlutOff + i * 2;
  }

  lemma SameByte(cut: seq<int>, s: seq<int>, lo: nat, i: nat)
    requires lo + |cut| <= |s| && cut == s[lo..lo + |cut|] && i < |cut|
    ensures ByteOf(cut, i) == ByteOf(s, lo + i)
  {
  }

  lemma TexelsCut(k: Key, v: View, at: nat, n: nat)
    requires ViewOk(v) && InRange(k) && at + n <= BaseBytes(k)
    ensures var s := SourceOf(k, v).texels;
            |s| == BaseBytes(k) && s[at..at + n] == v.mem[k.addr + at..k.addr + at + n]
  {
    hide BaseBytes, PaletteBytes;
    assert SourceOf(k, v).texels == v.mem[k.addr..k.addr + BaseBytes(k)];
    SliceOfSlice(v.mem, k.addr, BaseBytes(k), at, n);
  }

  lemma SliceOfSlice<T>(s: seq<T>, lo: nat, len: nat, at: nat, n: nat)
    requires lo + len <= |s| && at + n <= len
    ensures s[lo..lo + len][at..at + n] == s[lo + at..lo + at + n]
  {
    var a, b := s[lo..lo + len][at..at + n], s[lo + at..lo + at + n];
    assert |a| == |b| == n;
    assert forall i | 0 <= i < n :: a[i] == s[lo + at + i] == b[i];
  }

  function AskedOf(k: Key): Asked { Asked(k.addr, k.fmt, k.w, k.h, k.tlutOff, k.tlutFmt) }

  lemma KeyTexelIs(k: Key, v: View, x: nat, y: nat)
    requires ViewOk(v) && InRange(k) && k.addr < MEM_WINDOW && x < k.w && y < k.h
    ensures KeyTexel(k, SourceOf(k, v), x, y) == TexelAt(AskedOf(k), v.mem, v.tmem, x, y)
  {
    hide LevelTile, TileStart, OfTile, PaletteColour, PaletteAt, SourceOf, PaletteBytes, TextureBytes, Remainder;
    var t, at, src := LevelTile(k.fmt), TileStart(k.fmt, k.w, x, y), SourceOf(k, v);
    TileFits(k.fmt, k.w, k.h, x, y);
    TexelsCut(k, v, at, t.bytes);
    forall i | 0 <= i < Entries(k.fmt) ensures KeyPalette(k, src)(i) == MemoryPalette(v.tmem, k.tlutOff, k.tlutFmt)(i) {
      EntryIs(k, v, i);
    }
    PaletteRead(k.fmt, v.mem[k.addr + at..k.addr + at + t.bytes], Remainder(x, t.w), Remainder(y, t.h),
                KeyPalette(k, src), MemoryPalette(v.tmem, k.tlutOff, k.tlutFmt));
  }

  lemma PixelsSame(w: nat, h: nat, f: (nat, nat) -> Colour, g: (nat, nat) -> Colour)
    requires forall x: nat, y: nat | x < w && y < h :: f(x, y) == g(x, y)
    ensures Pixels(w, h, f) == Pixels(w, h, g)
  {
    if w != 0 {
      forall j | 0 <= j < |Pixels(w, h, f)|
        ensures Pixels(w, h, f)[j] == Pixels(w, h, g)[j]
      {
        RowOf(j / 4, w, h);
      }
    }
  }

  lemma RowOf(i: nat, w: nat, h: nat)
    requires 0 < w && i < Times(w, h)
    ensures Quotient(i, w) < h && Remainder(i, w) < w
  {
    Split(i, w);
    if h <= Quotient(i, w) {
      assert Times(h, w) == Times(w, h);
      if h < Quotient(i, w) {
        TimesMonotone(h, Quotient(i, w), w);
      }
    }
  }

  /** Decoding an entry's bytes is decoding the level its key names. */
  lemma KeyLevelIs(k: Key, v: View)
    requires ViewOk(v) && InRange(k) && k.addr < MEM_WINDOW
    ensures KeyLevel(k, SourceOf(k, v)) == Level(AskedOf(k), v.mem, v.tmem)
  {
    var g := AskedOf(k);
    var src := SourceOf(k, v);
    hide KeyTexel, TexelAt, SourceOf, InRange, Pixels;
    forall x: nat, y: nat | x < k.w && y < k.h
      ensures KeyTexel(k, src, x, y) == TexelAt(g, v.mem, v.tmem, x, y)
    {
      KeyTexelIs(k, v, x, y);
    }
    PixelsSame(k.w, k.h, (x, y) => KeyTexel(k, src, x, y), (x, y) => TexelAt(g, v.mem, v.tmem, x, y));
  }

  // ---- what a lookup's arguments name ------------------------------------------------------------

  predicate ByPalette(fmt: nat) { fmt == 8 || fmt == 9 || fmt == 10 }

  function KeyOf(g: Asked): Key { KeyFor(g.addr, g.fmt, g.w, g.h, g.tlutOff, g.tlutFmt) }

  /** The level asked for and the level of the key it is filed under are one: the address is seen
      modulo the window, and only the palette formats look at the palette. */
  lemma KeyLevelAsked(g: Asked, mem: seq<int>, tmem: seq<int>)
    ensures Level(AskedOf(KeyOf(g)), mem, tmem) == Level(g, mem, tmem)
    ensures KeyOf(g).addr < MEM_WINDOW
  {
    var k := AskedOf(KeyOf(g));
    assert g.addr % MEM_WINDOW % MEM_WINDOW == g.addr % MEM_WINDOW;
    forall x: nat, y: nat | x < g.w && y < g.h
      ensures TexelAt(k, mem, tmem, x, y) == TexelAt(g, mem, tmem, x, y)
    {
      var t, at := LevelTile(g.fmt), g.addr % MEM_WINDOW + TileStart(g.fmt, g.w, x, y);
      hide LevelTile, TileStart, OfTile, PaletteAt;
      if at + t.bytes <= |mem| && !ByPalette(g.fmt) {
        PaletteRead(g.fmt, mem[at..at + t.bytes], Remainder(x, t.w), Remainder(y, t.h),
                    MemoryPalette(tmem, k.tlutOff, k.tlutFmt), MemoryPalette(tmem, g.tlutOff, g.tlutFmt));
      }
    }
    hide TexelAt, Pixels;
    PixelsSame(g.w, g.h, (x, y) => TexelAt(k, mem, tmem, x, y), (x, y) => TexelAt(g, mem, tmem, x, y));
  }

  /** Two lookups are of one entry exactly when they see the same address, format and size, and,
      for the palette formats, the same palette. */
  lemma KeysShared(a: Asked, b: Asked)
    ensures KeyOf(a) == KeyOf(b) <==>
            && a.addr % MEM_WINDOW == b.addr % MEM_WINDOW && a.fmt == b.fmt && a.w == b.w && a.h == b.h
            && (a.fmt == 8 || a.fmt == 9 || a.fmt == 10 ==> a.tlutOff == b.tlutOff && a.tlutFmt == b.tlutFmt)
  {
  }

  /** The texture's bytes, and its palette's, lie in memory. */
  predicate Fits(g: Asked) {
    && g.addr % MEM_WINDOW + TextureBytes(g.fmt, g.w, g.h) <= MEM_BYTES
    && (ByPalette(g.fmt) ==> g.tlutOff + 2 * Entries(g.fmt) <= TMEM_BYTES)
  }

  ghost predicate Clear(g: Asked, bytes: set<nat>) { Clean(g.addr % MEM_WINDOW, TextureBytes(g.fmt, g.w, g.h), bytes) }

  /** What a sound entry of the key shows, for arguments that fit and are clear of changes. */
  lemma LevelAsked(g: Asked, v: View, decode: (Key, Source) -> Picture)
    requires ViewOk(v) && forall k, src :: decode(k, src) == KeyLevel(k, src)
    ensures Fits(g) ==> decode(KeyOf(g), SourceOf(KeyOf(g), v)) == Level(g, v.mem, v.tmem)
    ensures Fits(g) ==> InRange(KeyOf(g))
    ensures Clear(g, v.dirty) ==> Apart(KeyOf(g), v.dirty)
    ensures Clear(g, v.suspect) ==> Apart(KeyOf(g), v.suspect)
  {
    var k := KeyOf(g);
    KeyLevelAsked(g, v.mem, v.tmem);
    hide TextureBytes, Level, KeyLevel, SourceOf;
    if Fits(g) {
      assert InRange(k);
      KeyLevelIs(k, v);
    }
  }
}
