/**
  Decoding a tiled texture: the producer's walk, tile by tile (decode_level), and the
  workers' of a single row (tex_decode_row), which makes a copy's image a row at a time as
  the rows are copied. Proved: a row decoded alone is that row of the whole decode, so rows
  decoded by their owners in any order make the picture a lookup would have decoded.

  What a texel's bytes become is a function of the tile's address and the texel's place in
  it. The compressed format, which no copy makes, is not part of this model.
 */
module TextureDecode {
  import opened Arithmetic
  import opened CopyGeometry

  type Texel = nat

  /** Tile size, tiles across, and what memory holds at each place of each tile. */
  datatype Plan = Plan(w: nat, h: nat, tw: nat, th: nat, tileBytes: nat, base: nat, limit: nat, texel: (nat, nat, nat) -> Texel) {
    function Across(): nat
      requires 0 < tw
    {
      CeilDiv(w, tw)
    }

    function Down(): nat
      requires 0 < th
    {
      CeilDiv(h, th)
    }

    function TileAt(tx: nat, ty: nat): nat
      requires 0 < tw
    {
      base + Times(Times(ty, Across()) + tx, tileBytes)
    }

    /** The same, from the start of its row of tiles (tex_decode_row). */
    function RowTileAt(tx: nat, ty: nat): nat
      requires 0 < tw
    {
      base + Times(Times(ty, Across()), tileBytes) + Times(tx, tileBytes)
    }

    /** A tile past the end of memory is left alone. */
    predicate Inside(tx: nat, ty: nat)
      requires 0 < tw
    {
      TileAt(tx, ty) + tileBytes <= limit
    }

    /** Texel (x, y), as a walk in raster order would find it. */
    function At(x: nat, y: nat): Texel
      requires 0 < tw && 0 < th
    {
      texel(TileAt(Quotient(x, tw), Quotient(y, th)), Remainder(x, tw), Remainder(y, th))
    }
  }

  predicate PlanOk(p: Plan) { 0 < p.tw && 0 < p.th }

  lemma QuotientsApart(n: nat, d: nat, q: nat)
    requires 0 < d && Times(q, d) <= n
    ensures q <= Quotient(n, d) && (n < Times(q, d) + d ==> Quotient(n, d) == q)
  {
    Split(n, d);
    if Quotient(n, d) < q {
      TimesMonotone(Quotient(n, d), q, d);
    } else if q < Quotient(n, d) {
      TimesMonotone(q, Quotient(n, d), d);
    }
  }

  lemma InTile(n: nat, d: nat, q: nat)
    requires 0 < d
    ensures Quotient(n, d) == q <==> Times(q, d) <= n < Times(q, d) + d
    ensures Quotient(n, d) == q ==> n == Times(q, d) + Remainder(n, d)
  {
    Split(n, d);
    if Times(q, d) <= n {
      QuotientsApart(n, d, q);
    }
  }

  lemma BelowCeil(n: nat, size: nat, d: nat)
    requires 0 < d && n < size
    ensures Quotient(n, d) < CeilDiv(size, d)
  {
    var q := Quotient(n, d);
    Split(n, d);
    assert CeilDiv(size, d) == Quotient(size + d - 1, d);
    hide Quotient, Remainder, CeilDiv;
    assert Times(q + 1, d) == Times(q, d) + d;
    QuotientsApart(size + d - 1, d, q + 1);
  }

  lemma SameTile(p: Plan, tx: nat, ty: nat)
    requires PlanOk(p)
    ensures p.RowTileAt(tx, ty) == p.TileAt(tx, ty)
  {
    Distribute(Times(ty, p.Across()), tx, p.tileBytes);
    hide Times, CeilDiv;
  }

  lemma Distribute(a: nat, b: nat, c: nat)
    ensures Times(a + b, c) == Times(a, c) + Times(b, c)
  {
  }

  /** Row iy of one tile: as much of it as lies inside the picture. */
  method TileRow(out: array2<Texel>, p: Plan, tile: nat, tx: nat, ty: nat, iy: nat)
    requires PlanOk(p) && tile == p.TileAt(tx, ty) && out.Length0 == p.h && out.Length1 == p.w && iy < p.th && Times(ty, p.th) + iy < p.h
    modifies out
    ensures forall y, x | 0 <= y < p.h && 0 <= x < p.w ::
              out[y, x] == if y == Times(ty, p.th) + iy && Quotient(x, p.tw) == tx then p.At(x, y) else old(out[y, x])
  {
    var y := Times(ty, p.th) + iy;
    DivMod(ty, iy, p.th);
    hide Times, Quotient, Remainder;
    var ix := 0;
    while ix < p.tw && Times(tx, p.tw) + ix < p.w
      invariant 0 <= ix <= p.tw
      invariant forall v, x | 0 <= v < p.h && 0 <= x < p.w ::
                  out[v, x] == if v == y && Times(tx, p.tw) <= x < Times(tx, p.tw) + ix then p.At(x, v) else old(out[v, x])
    {
      var x := Times(tx, p.tw) + ix;
      DivMod(tx, ix, p.tw);
      out[y, x] := p.texel(tile, ix, iy);
      ix := ix + 1;
    }
    forall x: nat | x < p.w
      ensures Quotient(x, p.tw) == tx <==> Times(tx, p.tw) <= x < Times(tx, p.tw) + ix
    {
      InTile(x, p.tw, tx);
    }
  }

  /** tex_decode_row. */
  method DecodeRow(out: array2<Texel>, p: Plan, y: nat)
    requires PlanOk(p) && out.Length0 == p.h && out.Length1 == p.w && y < p.h
    modifies out
    ensures forall v, x | 0 <= v < p.h && 0 <= x < p.w :: out[v, x] == if v == y then p.At(x, v) else old(out[v, x])
  {
    var ty, iy := Quotient(y, p.th), Remainder(y, p.th);
    Split(y, p.th);
    hide Times, Quotient, Remainder, CeilDiv;
    var tx := 0;
    while tx < p.Across()
      invariant 0 <= tx <= p.Across()
      invariant forall v, x: nat | 0 <= v < p.h && x < p.w ::
                  out[v, x] == if v == y && Quotient(x, p.tw) < tx then p.At(x, v) else old(out[v, x])
    {
      SameTile(p, tx, ty);
      TileRow(out, p, p.RowTileAt(tx, ty), tx, ty, iy);
      tx := tx + 1;
    }
    forall x: nat | x < p.w
      ensures Quotient(x, p.tw) < p.Across()
    {
      BelowCeil(x, p.w, p.tw);
    }
  }

  /** One tile of decode_level's walk. */
  method DecodeTile(out: array2<Texel>, p: Plan, tx: nat, ty: nat)
    requires PlanOk(p) && out.Length0 == p.h && out.Length1 == p.w
    modifies out
    ensures forall y: nat, x: nat | y < p.h && x < p.w ::
              out[y, x] == if Quotient(y, p.th) == ty && Quotient(x, p.tw) == tx && p.Inside(tx, ty) then p.At(x, y) else old(out[y, x])
  {
    if p.TileAt(tx, ty) + p.tileBytes > p.limit {
      return;
    }
    hide Times, Quotient, Remainder, CeilDiv;
    var iy := 0;
    while iy < p.th && Times(ty, p.th) + iy < p.h
      invariant 0 <= iy <= p.th
      invariant forall y: nat, x: nat | y < p.h && x < p.w ::
                  out[y, x] == if Times(ty, p.th) <= y < Times(ty, p.th) + iy && Quotient(x, p.tw) == tx then p.At(x, y) else old(out[y, x])
    {
      TileRow(out, p, p.TileAt(tx, ty), tx, ty, iy);
      iy := iy + 1;
    }
    forall y: nat | y < p.h
      ensures Quotient(y, p.th) == ty <==> Times(ty, p.th) <= y < Times(ty, p.th) + iy
    {
      InTile(y, p.th, ty);
    }
  }

  /** decode_level. */
  method DecodeLevel(out: array2<Texel>, p: Plan)
    requires PlanOk(p) && out.Length0 == p.h && out.Length1 == p.w
    modifies out
    ensures forall y: nat, x: nat | y < p.h && x < p.w ::
              out[y, x] == if p.Inside(Quotient(x, p.tw), Quotient(y, p.th)) then p.At(x, y) else old(out[y, x])
  {
    hide Times, Quotient, Remainder, CeilDiv;
    var ty := 0;
    while ty < p.Down()
      invariant 0 <= ty <= p.Down()
      invariant forall y: nat, x: nat | y < p.h && x < p.w ::
                  out[y, x] == if Quotient(y, p.th) < ty && p.Inside(Quotient(x, p.tw), Quotient(y, p.th)) then p.At(x, y) else old(out[y, x])
    {
      DecodeTiles(out, p, ty);
      ty := ty + 1;
    }
    forall y: nat | y < p.h
      ensures Quotient(y, p.th) < p.Down()
    {
      BelowCeil(y, p.h, p.th);
    }
  }

  /** Its inner loop: a row of tiles. */
  method DecodeTiles(out: array2<Texel>, p: Plan, ty: nat)
    requires PlanOk(p) && out.Length0 == p.h && out.Length1 == p.w
    modifies out
    ensures forall y: nat, x: nat | y < p.h && x < p.w ::
              out[y, x] == if Quotient(y, p.th) == ty && p.Inside(Quotient(x, p.tw), ty) then p.At(x, y) else old(out[y, x])
  {
    hide Times, Quotient, Remainder, CeilDiv;
    var tx := 0;
    while tx < p.Across()
      invariant 0 <= tx <= p.Across()
      invariant forall y: nat, x: nat | y < p.h && x < p.w ::
                  out[y, x] == if Quotient(y, p.th) == ty && Quotient(x, p.tw) < tx && p.Inside(Quotient(x, p.tw), ty) then p.At(x, y) else old(out[y, x])
    {
      DecodeTile(out, p, tx, ty);
      tx := tx + 1;
    }
    forall x: nat | x < p.w
      ensures Quotient(x, p.tw) < p.Across()
    {
      BelowCeil(x, p.w, p.tw);
    }
  }

  /** A copy's image: its rows, each decoded once by the worker that owns it, in whatever order
      the workers come to them, are the whole decode's picture when the texture is in memory. */
  method DecodeRows(image: array2<Texel>, whole: array2<Texel>, p: Plan, order: seq<nat>)
    requires PlanOk(p) && image != whole
    requires image.Length0 == whole.Length0 == p.h && image.Length1 == whole.Length1 == p.w
    requires (forall i | 0 <= i < |order| :: order[i] < p.h) && forall y: nat | y < p.h :: y in order
    requires forall y: nat, x: nat | y < p.h && x < p.w :: p.Inside(Quotient(x, p.tw), Quotient(y, p.th))
    modifies image, whole
    ensures forall y, x | 0 <= y < p.h && 0 <= x < p.w :: image[y, x] == whole[y, x]
  {
    hide Times, Quotient, Remainder, CeilDiv;
    DecodeLevel(whole, p);
    var i := 0;
    while i < |order|
      modifies image
      invariant 0 <= i <= |order|
      invariant forall y: nat, x: nat | y < p.h && x < p.w && y in order[..i] :: image[y, x] == p.At(x, y)
    {
      DecodeRow(image, p, order[i]);
      assert order[..i + 1] == order[..i] + [order[i]];
      i := i + 1;
    }
    assert order[..i] == order;
  }
}
