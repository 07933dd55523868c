/**
  Where a copy from the embedded frame buffer to memory writes.

  The texture a copy makes is tiled: tiles of `w` x `h` texels and `bytes` bytes lie
  side by side in a row of tiles, and rows of tiles lie `rowBytes` apart. The queue's
  producer declares one span per copy (copy_bytes); the workers write single texels
  (copy_to_texture), each only the rows it owns. Everything the queue's ordering needs
  of that layout is proved here: texels stay inside the span, and texels of different
  rows never share a byte.
 */
module CopyGeometry {
  import opened Arithmetic

  const EFB_ROWS: nat := 528
  const MEM_BYTES: nat := 0x180_0000

  /** The format number copy_texfmt gives a word whose texels are not written. */
  const NO_FORMAT: nat := 99

  /** `slice` is the bytes one row of texels takes in each 32 bytes of a tile. */
  datatype Tile = Tile(w: nat, h: nat, bytes: nat, slice: nat)

  function TileOf(texfmt: nat): (t: Tile)
    ensures t.w > 0 && t.h > 0 && t.bytes > 0 && t.slice > 0
  {
    match texfmt
    case 0 => Tile(8, 8, 32, 4)
    case 1 => Tile(8, 4, 32, 8)
    case 2 => Tile(8, 4, 32, 8)
    case 3 => Tile(4, 4, 32, 8)
    case 4 => Tile(4, 4, 32, 8)
    case 5 => Tile(4, 4, 32, 8)
    case _ => Tile(4, 4, 64, 8)
  }

  function CeilDiv(n: nat, d: nat): nat
    requires 0 < d
  {
    (n + d - 1) / d
  }

  /** What copy_to_texture needs of a copy to memory. */
  datatype Layout = Layout(texfmt: nat, dest: nat, ow: nat, oh: nat, stride: nat) {
    function T(): Tile { TileOf(texfmt) }

    function Cols(): nat { CeilDiv(ow, T().w) }

    function Rows(): nat { CeilDiv(oh, T().h) }

    function Natural(): nat { Times(Cols(), T().bytes) }

    /** copy_row_stride: a stride narrower than the copy's own rows packs them. */
    function RowBytes(): nat {
      var s := stride % 1024 * 32;
      if s > Natural() then s else Natural()
    }

    /** copy_extent. */
    function Extent(): nat {
      if Rows() > 0 && Cols() > 0 then Times(Rows() - 1, RowBytes()) + Natural() else 0
    }

    /** copy_bytes: the span the producer declares. */
    function Span(): nat {
      if texfmt == NO_FORMAT then 0 else Extent()
    }

    /** copy_to_texture leaves memory alone for a format it does not write and past the end. */
    predicate Lands() {
      texfmt != NO_FORMAT && dest + Extent() <= MEM_BYTES
    }
  }

  /** The bytes of texel (ix, iy) inside its tile, as the switch in copy_to_texture stores them. */
  function TexelBytes(texfmt: nat, ix: nat, iy: nat): seq<nat> {
    match texfmt
    case 0 => [iy * 4 + ix / 2]
    case 1 => [iy * 8 + ix]
    case 2 => [iy * 8 + ix]
    case 3 => [(iy * 4 + ix) * 2, (iy * 4 + ix) * 2 + 1]
    case 4 => [(iy * 4 + ix) * 2, (iy * 4 + ix) * 2 + 1]
    case 5 => [(iy * 4 + ix) * 2, (iy * 4 + ix) * 2 + 1]
    case _ => [(iy * 4 + ix) * 2, (iy * 4 + ix) * 2 + 1, 32 + (iy * 4 + ix) * 2, 32 + (iy * 4 + ix) * 2 + 1]
  }

  /** Byte k of texel (x, y): the address copy_to_texture stores to. */
  function TexelAddr(l: Layout, x: nat, y: nat, k: nat): nat
    requires k < |TexelBytes(l.texfmt, Remainder(x, l.T().w), Remainder(y, l.T().h))|
  {
    l.dest + (Times(Quotient(y, l.T().h), l.RowBytes()) + WithinRow(l, x, y, k))
  }

  /** The same, from the start of its row of tiles. */
  function WithinRow(l: Layout, x: nat, y: nat, k: nat): nat
    requires k < |TexelBytes(l.texfmt, Remainder(x, l.T().w), Remainder(y, l.T().h))|
  {
    Times(Quotient(x, l.T().w), l.T().bytes) + TexelBytes(l.texfmt, Remainder(x, l.T().w), Remainder(y, l.T().h))[k]
  }

  /** The inverse inside one tile: the texel row, and the leftmost texel, a byte belongs to. */
  function TileRowAt(t: Tile, o: nat): nat
    requires 0 < t.slice
  {
    o % 32 / t.slice
  }

  function TileColumnAt(t: Tile, o: nat): nat
    requires 0 < t.slice
  {
    o % 32 % t.slice * t.w / t.slice
  }

  /** The inverse: which row of the texture a byte of the span belongs to. */
  function RowAt(l: Layout, a: nat): nat
    requires l.dest <= a && 0 < l.RowBytes()
  {
    Times(Quotient(a - l.dest, l.RowBytes()), l.T().h)
    + TileRowAt(l.T(), Remainder(Remainder(a - l.dest, l.RowBytes()), l.T().bytes))
  }

  /** The column of the leftmost texel stored in a byte of the span. */
  function ColumnAt(l: Layout, a: nat): nat
    requires l.dest <= a && 0 < l.RowBytes()
  {
    var r := Remainder(a - l.dest, l.RowBytes());
    Times(Quotient(r, l.T().bytes), l.T().w) + TileColumnAt(l.T(), Remainder(r, l.T().bytes))
  }

  /** Whether the copy stores to address a at all. */
  predicate Writes(l: Layout, a: nat) {
    && l.Lands()
    && l.dest <= a
    && 0 < l.RowBytes()
    && RowAt(l, a) < l.oh
    && ColumnAt(l, a) < l.ow
  }

  // ---- arithmetic -------------------------------------------------------------

  lemma QuotientBound(x: nat, n: nat, d: nat)
    requires 0 < d && x < n
    ensures Quotient(x, d) < CeilDiv(n, d)
  {
    Split(x, d);
    Split(n + d - 1, d);
    if CeilDiv(n, d) < Quotient(x, d) {
      TimesMonotone(CeilDiv(n, d), Quotient(x, d), d);
    }
  }

  /** Inside one tile: a byte of texel (ix, iy) gives back iy, and ix up to a shared nibble. */
  lemma TileByte(texfmt: nat, ix: nat, iy: nat, k: nat)
    requires ix < TileOf(texfmt).w && iy < TileOf(texfmt).h
    requires k < |TexelBytes(texfmt, ix, iy)|
    ensures var o := TexelBytes(texfmt, ix, iy)[k];
            && o < TileOf(texfmt).bytes
            && TileRowAt(TileOf(texfmt), o) == iy
            && TileColumnAt(TileOf(texfmt), o) <= ix
  {
    if texfmt == 0 {
      Slice4(iy, ix / 2);
      assert TexelBytes(texfmt, ix, iy)[k] == 4 * iy + ix / 2;
    } else if texfmt == 1 || texfmt == 2 {
      Slice8(iy, ix);
      assert TexelBytes(texfmt, ix, iy)[k] == 8 * iy + ix;
    } else {
      WideByte(texfmt, ix, iy, k);
    }
  }

  lemma WideByte(texfmt: nat, ix: nat, iy: nat, k: nat)
    requires texfmt >= 3 && ix < 4 && iy < 4
    requires k < |TexelBytes(texfmt, ix, iy)|
    ensures var o := TexelBytes(texfmt, ix, iy)[k];
            && o < TileOf(texfmt).bytes && o % 32 / 8 == iy && o % 32 % 8 * 4 / 8 == ix
            && TileOf(texfmt).slice == 8 && TileOf(texfmt).w == 4
  {
    var i := 2 * ix + k % 2;
    Slice8(iy, i);
    assert i * 4 / 8 == ix;
    assert TexelBytes(texfmt, ix, iy)[k] == (if k < 2 then 0 else 32) + 8 * iy + i;
  }

  lemma Slice4(iy: nat, i: nat)
    requires iy < 8 && i < 4
    ensures (4 * iy + i) % 32 / 4 == iy && (4 * iy + i) % 32 % 4 == i
  {
  }

  lemma Slice8(iy: nat, i: nat)
    requires iy < 4 && i < 8
    ensures (8 * iy + i) % 32 / 8 == iy && (8 * iy + i) % 32 % 8 == i
    ensures (32 + 8 * iy + i) % 32 / 8 == iy && (32 + 8 * iy + i) % 32 % 8 == i
  {
  }

  /** A texel's place in its row of tiles. */
  lemma TexelPlace(l: Layout, x: nat, y: nat, k: nat)
    requires x < l.ow && y < l.oh
    requires k < |TexelBytes(l.texfmt, Remainder(x, l.T().w), Remainder(y, l.T().h))|
    ensures WithinRow(l, x, y, k) < l.Natural() <= l.RowBytes()
    ensures Quotient(y, l.T().h) < l.Rows() && 0 < l.Cols()
  {
    var t := l.T();
    TileByte(l.texfmt, Remainder(x, t.w), Remainder(y, t.h), k);
    QuotientBound(x, l.ow, t.w);
    QuotientBound(y, l.oh, t.h);
    TimesMonotone(Quotient(x, t.w), l.Cols(), t.bytes);
  }

  // ---- the two facts the queue rests on ------------------------------------------

  /** The declared span holds every byte the copy stores. */
  lemma TexelInSpan(l: Layout, x: nat, y: nat, k: nat)
    requires l.texfmt != NO_FORMAT && x < l.ow && y < l.oh
    requires k < |TexelBytes(l.texfmt, Remainder(x, l.T().w), Remainder(y, l.T().h))|
    ensures l.dest <= TexelAddr(l, x, y, k) < l.dest + l.Span()
  {
    TexelPlace(l, x, y, k);
    hide TexelBytes, TileOf, WithinRow;
    var tr := Quotient(y, l.T().h);
    if tr < l.Rows() - 1 {
      TimesMonotone(tr, l.Rows() - 1, l.RowBytes());
    }
  }

  /** Every byte of texel (x, y) is a byte the inverse gives to row y: so texels of
      different rows never share one, and the workers never store to the same byte. */
  lemma TexelRow(l: Layout, x: nat, y: nat, k: nat)
    requires l.Lands() && x < l.ow && y < l.oh
    requires k < |TexelBytes(l.texfmt, Remainder(x, l.T().w), Remainder(y, l.T().h))|
    ensures 0 < l.RowBytes() && l.dest <= TexelAddr(l, x, y, k)
    ensures Writes(l, TexelAddr(l, x, y, k)) && RowAt(l, TexelAddr(l, x, y, k)) == y
  {
    var t := l.T();
    var o := TexelBytes(l.texfmt, Remainder(x, t.w), Remainder(y, t.h))[k];
    TexelPlace(l, x, y, k);
    TileByte(l.texfmt, Remainder(x, t.w), Remainder(y, t.h), k);
    hide TexelBytes, TileOf, TileRowAt, TileColumnAt;
    DivMod(Quotient(y, t.h), WithinRow(l, x, y, k), l.RowBytes());
    DivMod(Quotient(x, t.w), o, t.bytes);
    Split(y, t.h);
    Split(x, t.w);
  }

  /** No byte is stored by two rows of one copy. */
  lemma RowsDisjoint(l: Layout, x: nat, y: nat, k: nat, x': nat, y': nat, k': nat)
    requires l.Lands() && x < l.ow && y < l.oh && x' < l.ow && y' < l.oh
    requires k < |TexelBytes(l.texfmt, Remainder(x, l.T().w), Remainder(y, l.T().h))|
    requires k' < |TexelBytes(l.texfmt, Remainder(x', l.T().w), Remainder(y', l.T().h))|
    requires TexelAddr(l, x, y, k) == TexelAddr(l, x', y', k')
    ensures y == y'
  {
    TexelRow(l, x, y, k);
    TexelRow(l, x', y', k');
  }

  /** A byte of a tile is a byte of the texel the inverse names. */
  lemma TileByteBack(texfmt: nat, o: nat) returns (k: nat)
    requires o < TileOf(texfmt).bytes
    ensures var ix, iy := TileColumnAt(TileOf(texfmt), o), TileRowAt(TileOf(texfmt), o);
            && ix < TileOf(texfmt).w && iy < TileOf(texfmt).h
            && k < |TexelBytes(texfmt, ix, iy)| && TexelBytes(texfmt, ix, iy)[k] == o
  {
    k := if texfmt <= 2 then 0 else o / 32 * 2 + o % 2;
    if texfmt == 0 {
      NibbleBack(o);
    } else if texfmt <= 2 {
      ByteBack(o);
    } else {
      WideBack(texfmt, o);
    }
  }

  lemma NibbleBack(o: nat)
    requires o < 32
    ensures var ix, iy := o % 32 % 4 * 8 / 4, o % 32 / 4; ix < 8 && iy < 8 && iy * 4 + ix / 2 == o
  {
    assert o % 32 == o;
  }

  lemma ByteBack(o: nat)
    requires o < 32
    ensures var ix, iy := o % 32 % 8 * 8 / 8, o % 32 / 8; ix < 8 && iy < 4 && iy * 8 + ix == o
  {
    assert o % 32 == o;
  }

  lemma WideBack(texfmt: nat, o: nat)
    requires texfmt >= 3 && o < TileOf(texfmt).bytes
    ensures var ix, iy, k := o % 32 % 8 * 4 / 8, o % 32 / 8, o / 32 * 2 + o % 2;
            && TileColumnAt(TileOf(texfmt), o) == ix && TileRowAt(TileOf(texfmt), o) == iy && ix < 4 && iy < 4
            && k < |TexelBytes(texfmt, ix, iy)| && TexelBytes(texfmt, ix, iy)[k] == o
  {
    Halves(o);
    var ix, iy, k := o % 32 % 8 * 4 / 8, o % 32 / 8, o / 32 * 2 + o % 2;
    assert TexelBytes(texfmt, ix, iy)[k] == o / 32 * 32 + (iy * 4 + ix) * 2 + o % 2;
  }

  lemma Halves(o: nat)
    requires o < 64
    ensures o / 32 * 32 + (o % 32 / 8 * 4 + o % 32 % 8 * 4 / 8) * 2 + o % 2 == o
  {
    var a, b := o % 32 / 8, o % 32 % 8;
    assert o == o / 32 * 32 + o % 32 && o % 32 == a * 8 + b;
    assert b * 4 / 8 == b / 2 && o % 2 == b % 2;
  }

  /** And the inverse invents nothing: a byte it calls written is some texel's byte. */
  lemma WrittenIsTexel(l: Layout, a: nat) returns (x: nat, k: nat)
    requires Writes(l, a)
    ensures x < l.ow && k < |TexelBytes(l.texfmt, Remainder(x, l.T().w), Remainder(RowAt(l, a), l.T().h))|
    ensures TexelAddr(l, x, RowAt(l, a), k) == a
  {
    var t := l.T();
    var row := l.RowBytes();
    var r := Remainder(a - l.dest, row);
    var o := Remainder(r, t.bytes);
    k := TileByteBack(l.texfmt, o);
    x := ColumnAt(l, a);
    hide TexelBytes, TileOf, TileRowAt, TileColumnAt;
    DivMod(Quotient(r, t.bytes), TileColumnAt(t, o), t.w);
    DivMod(Quotient(a - l.dest, row), TileRowAt(t, o), t.h);
    Split(a - l.dest, row);
    Split(r, t.bytes);
  }

  /** Written bytes lie in the declared span, and in memory. */
  lemma WrittenInSpan(l: Layout, a: nat)
    requires Writes(l, a)
    ensures l.dest <= a < l.dest + l.Span() && a < MEM_BYTES
  {
    var x, k := WrittenIsTexel(l, a);
    TexelInSpan(l, x, RowAt(l, a), k);
  }
}
