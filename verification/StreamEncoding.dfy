/**
  A command stream written from what it is to say -- loads, calls of lists, and draws of vertices
  laid out attribute by attribute as the descriptor registers have them -- is parsed as exactly
  that, and nothing is left over.
 */
module StreamEncoding {
  import opened Arithmetic
  import opened CommandStream
  import opened Capture
  import opened StreamMeaning

  // ---- vertices -----------------------------------------------------------------------------

  /** How an attribute comes: 0 not at all, 1 itself, 2 and 3 as an index of one and two bytes;
      and, when it comes itself, whether it has its larger count and in which format. */
  datatype Element = Element(how: nat, more: bool, format: nat)

  /** The nine matrix indices, position, normal (with an index for each of its three vectors or
      not), two colours and eight coordinates. */
  datatype VertexLayout = VertexLayout(matrices: seq<bool>, position: Element, normal: Element, each: bool, colours: seq<Element>, coords: seq<Element>)

  predicate ElementOk(e: Element) { e.how < 4 && e.format < 8 }

  predicate LayoutOk(l: VertexLayout) {
    && |l.matrices| == 9 && |l.colours| == 2 && |l.coords| == 8 && ElementOk(l.position) && ElementOk(l.normal)
    && (forall i | 0 <= i < 2 :: ElementOk(l.colours[i])) && (forall i | 0 <= i < 8 :: ElementOk(l.coords[i]))
  }

  /** Bytes of a number: two formats of a byte, two of two bytes, one of four. */
  const NUMBER_BYTES: seq<nat> := [1, 1, 2, 2, 4, 2, 2, 2]
  const COLOUR_BYTES: seq<nat> := [2, 3, 4, 2, 3, 4, 4, 4]

  function ElementBytes(e: Element, direct: nat): nat {
    match e.how case 0 => 0 case 1 => direct case 2 => 1 case _ => 2
  }

  /** The bytes of attribute i of a vertex, in the order they come. */
  function AttributeBytes(l: VertexLayout, i: nat): nat
    requires LayoutOk(l) && i < 21
  {
    if i < 9 then (if l.matrices[i] then 1 else 0)
    else if i == 9 then ElementBytes(l.position, NUMBER_BYTES[l.position.format] * if l.position.more then 3 else 2)
    else if i == 10 then
      (if l.normal.more && l.each && l.normal.how >= 2 then 3 * ElementBytes(l.normal, 0)
       else ElementBytes(l.normal, NUMBER_BYTES[l.normal.format] * if l.normal.more then 9 else 3))
    else if i < 13 then ElementBytes(l.colours[i - 11], COLOUR_BYTES[l.colours[i - 11].format])
    else ElementBytes(l.coords[i - 13], NUMBER_BYTES[l.coords[i - 13].format] * if l.coords[i - 13].more then 2 else 1)
  }

  function BytesBefore(l: VertexLayout, n: nat): nat
    requires LayoutOk(l) && n <= 21
  {
    if n == 0 then 0 else BytesBefore(l, n - 1) + AttributeBytes(l, n - 1)
  }

  /** An element's fields in the registers: how, from bit `at` of one word; its count from bit
      `more`, and its format from bit `format`, of another. */
  predicate Says(e: Element, v: bv32, at: nat, w: bv32, more: nat, format: nat)
    requires at < 32 && more < 32 && format < 32
  {
    Bits(v, at, 3) == e.how && (Bits(w, more, 1) == 1 <==> e.more) && Bits(w, format, 7) == e.format
  }

  /** The descriptor and the format's three words say the layout. */
  predicate RegistersSay(cp: nat -> bv32, vat: nat, l: VertexLayout)
    requires LayoutOk(l)
  {
    var lo, hi, a, b, c := cp(0x50), cp(0x60), cp(0x70 + vat), cp(0x80 + vat), cp(0x90 + vat);
    && (forall i | 0 <= i < 9 :: Bits(lo, i, 1) == if l.matrices[i] then 1 else 0)
    && Says(l.position, lo, 9, a, 0, 1) && Says(l.normal, lo, 11, a, 9, 10) && (Bits(a, 31, 1) == 1 <==> l.each)
    && Bits(lo, 13, 3) == l.colours[0].how && Bits(a, 14, 7) == l.colours[0].format
    && Bits(lo, 15, 3) == l.colours[1].how && Bits(a, 18, 7) == l.colours[1].format
    && Says(l.coords[0], hi, 0, a, 21, 22) && Says(l.coords[1], hi, 2, b, 0, 1) && Says(l.coords[2], hi, 4, b, 9, 10)
    && Says(l.coords[3], hi, 6, b, 18, 19) && Says(l.coords[4], hi, 8, b, 27, 28) && Says(l.coords[5], hi, 10, c, 5, 6)
    && Says(l.coords[6], hi, 12, c, 14, 15) && Says(l.coords[7], hi, 14, c, 23, 24)
  }

  // ---- a layout's registers, written ----------------------------------------------------------

  function Field(w: bv32, at: nat, mask: bv32): bv32
    requires at < 32
  {
    (w >> at) & mask
  }

  predicate Under(v: bv32, n: bv32) { v < n }

  function LoWord(m0: bv32, m1: bv32, m2: bv32, m3: bv32, m4: bv32, m5: bv32, m6: bv32, m7: bv32, m8: bv32, p: bv32, n: bv32, c: bv32, d: bv32): bv32 { m0 | (m1 << 1) | (m2 << 2) | (m3 << 3) | (m4 << 4) | (m5 << 5) | (m6 << 6) | (m7 << 7) | (m8 << 8) | (p << 9) | (n << 11) | (c << 13) | (d << 15) }

  lemma LoFields(m0: bv32, m1: bv32, m2: bv32, m3: bv32, m4: bv32, m5: bv32, m6: bv32, m7: bv32, m8: bv32, p: bv32, n: bv32, c: bv32, d: bv32)
    requires Under(m0, 2) && Under(m1, 2) && Under(m2, 2) && Under(m3, 2) && Under(m4, 2) && Under(m5, 2) && Under(m6, 2) && Under(m7, 2) && Under(m8, 2) && Under(p, 4) && Under(n, 4) && Under(c, 4) && Under(d, 4)
    ensures var w := LoWord(m0, m1, m2, m3, m4, m5, m6, m7, m8, p, n, c, d);
            Field(w, 0, 1) == m0 && Field(w, 1, 1) == m1 && Field(w, 2, 1) == m2 && Field(w, 3, 1) == m3 && Field(w, 4, 1) == m4 && Field(w, 5, 1) == m5 && Field(w, 6, 1) == m6 && Field(w, 7, 1) == m7 && Field(w, 8, 1) == m8 && Field(w, 9, 3) == p && Field(w, 11, 3) == n && Field(w, 13, 3) == c && Field(w, 15, 3) == d
  {
  }

  function HiWord(t0: bv32, t1: bv32, t2: bv32, t3: bv32, t4: bv32, t5: bv32, t6: bv32, t7: bv32): bv32 { t0 | (t1 << 2) | (t2 << 4) | (t3 << 6) | (t4 << 8) | (t5 << 10) | (t6 << 12) | (t7 << 14) }

  lemma HiFields(t0: bv32, t1: bv32, t2: bv32, t3: bv32, t4: bv32, t5: bv32, t6: bv32, t7: bv32)
    requires Under(t0, 4) && Under(t1, 4) && Under(t2, 4) && Under(t3, 4) && Under(t4, 4) && Under(t5, 4) && Under(t6, 4) && Under(t7, 4)
    ensures var w := HiWord(t0, t1, t2, t3, t4, t5, t6, t7);
            Field(w, 0, 3) == t0 && Field(w, 2, 3) == t1 && Field(w, 4, 3) == t2 && Field(w, 6, 3) == t3 && Field(w, 8, 3) == t4 && Field(w, 10, 3) == t5 && Field(w, 12, 3) == t6 && Field(w, 14, 3) == t7
  {
  }

  function AWord(p: bv32, pf: bv32, n: bv32, nf: bv32, cf: bv32, df: bv32, t: bv32, tf: bv32, e: bv32): bv32 { p | (pf << 1) | (n << 9) | (nf << 10) | (cf << 14) | (df << 18) | (t << 21) | (tf << 22) | (e << 31) }

  lemma AFields(p: bv32, pf: bv32, n: bv32, nf: bv32, cf: bv32, df: bv32, t: bv32, tf: bv32, e: bv32)
    requires Under(p, 2) && Under(pf, 8) && Under(n, 2) && Under(nf, 8) && Under(cf, 8) && Under(df, 8) && Under(t, 2) && Under(tf, 8) && Under(e, 2)
    ensures var w := AWord(p, pf, n, nf, cf, df, t, tf, e);
            Field(w, 0, 1) == p && Field(w, 1, 7) == pf && Field(w, 9, 1) == n && Field(w, 10, 7) == nf && Field(w, 14, 7) == cf && Field(w, 18, 7) == df && Field(w, 21, 1) == t && Field(w, 22, 7) == tf && Field(w, 31, 1) == e
  {
  }

  function BWord(t: bv32, tf: bv32, u: bv32, uf: bv32, v: bv32, vf: bv32, x: bv32, xf: bv32): bv32 { t | (tf << 1) | (u << 9) | (uf << 10) | (v << 18) | (vf << 19) | (x << 27) | (xf << 28) }

  lemma BFields(t: bv32, tf: bv32, u: bv32, uf: bv32, v: bv32, vf: bv32, x: bv32, xf: bv32)
    requires Under(t, 2) && Under(tf, 8) && Under(u, 2) && Under(uf, 8) && Under(v, 2) && Under(vf, 8) && Under(x, 2) && Under(xf, 8)
    ensures var w := BWord(t, tf, u, uf, v, vf, x, xf);
            Field(w, 0, 1) == t && Field(w, 1, 7) == tf && Field(w, 9, 1) == u && Field(w, 10, 7) == uf && Field(w, 18, 1) == v && Field(w, 19, 7) == vf && Field(w, 27, 1) == x && Field(w, 28, 7) == xf
  {
  }

  function CWord(t: bv32, tf: bv32, u: bv32, uf: bv32, v: bv32, vf: bv32): bv32 { (t << 5) | (tf << 6) | (u << 14) | (uf << 15) | (v << 23) | (vf << 24) }

  lemma CFields(t: bv32, tf: bv32, u: bv32, uf: bv32, v: bv32, vf: bv32)
    requires Under(t, 2) && Under(tf, 8) && Under(u, 2) && Under(uf, 8) && Under(v, 2) && Under(vf, 8)
    ensures var w := CWord(t, tf, u, uf, v, vf);
            Field(w, 5, 1) == t && Field(w, 6, 7) == tf && Field(w, 14, 1) == u && Field(w, 15, 7) == uf && Field(w, 23, 1) == v && Field(w, 24, 7) == vf
  {
  }

  function Flag(b: bool): bv32 { if b then 1 else 0 }

  function Small(n: nat): bv32
    requires n < 8
  {
    if n == 0 then 0 else if n == 1 then 1 else if n == 2 then 2 else if n == 3 then 3
    else if n == 4 then 4 else if n == 5 then 5 else if n == 6 then 6 else 7
  }

  function Lo(l: VertexLayout): bv32
    requires LayoutOk(l)
  {
    var m := l.matrices;
    LoWord(Flag(m[0]), Flag(m[1]), Flag(m[2]), Flag(m[3]), Flag(m[4]), Flag(m[5]), Flag(m[6]), Flag(m[7]), Flag(m[8]),
           Small(l.position.how), Small(l.normal.how), Small(l.colours[0].how), Small(l.colours[1].how))
  }

  function Hi(l: VertexLayout): bv32
    requires LayoutOk(l)
  {
    var t := l.coords;
    HiWord(Small(t[0].how), Small(t[1].how), Small(t[2].how), Small(t[3].how), Small(t[4].how), Small(t[5].how), Small(t[6].how), Small(t[7].how))
  }

  function FormatA(l: VertexLayout): bv32
    requires LayoutOk(l)
  {
    AWord(Flag(l.position.more), Small(l.position.format), Flag(l.normal.more), Small(l.normal.format), Small(l.colours[0].format),
          Small(l.colours[1].format), Flag(l.coords[0].more), Small(l.coords[0].format), Flag(l.each))
  }

  function FormatB(l: VertexLayout): bv32
    requires LayoutOk(l)
  {
    var t := l.coords;
    BWord(Flag(t[1].more), Small(t[1].format), Flag(t[2].more), Small(t[2].format), Flag(t[3].more), Small(t[3].format), Flag(t[4].more), Small(t[4].format))
  }

  function FormatC(l: VertexLayout): bv32
    requires LayoutOk(l)
  {
    var t := l.coords;
    CWord(Flag(t[5].more), Small(t[5].format), Flag(t[6].more), Small(t[6].format), Flag(t[7].more), Small(t[7].format))
  }

  /** The registers written from a layout say it. */
  lemma WrittenSays(cp: nat -> bv32, vat: nat, l: VertexLayout)
    requires LayoutOk(l) && cp(0x50) == Lo(l) && cp(0x60) == Hi(l)
    requires cp(0x70 + vat) == FormatA(l) && cp(0x80 + vat) == FormatB(l) && cp(0x90 + vat) == FormatC(l)
    ensures RegistersSay(cp, vat, l)
  {
    hide Lo, Hi, FormatA, FormatB, FormatC, Bits;
    LoSays(l);
    HiSays(l);
    NineFlagsMean(Lo(l), l.matrices);
    FormatASays(l);
    FormatBSays(l);
    FormatCSays(l);
  }

  lemma FieldIs(w: bv32, at: nat, mask: bv32, n: nat)
    requires at < 32 && n < 8 && Field(w, at, mask) == Small(n)
    ensures Bits(w, at, mask) == n
  {
  }

  lemma FlagFieldIs(w: bv32, at: nat, b: bool)
    requires at < 32 && Field(w, at, 1) == Flag(b)
    ensures Bits(w, at, 1) == One(b)
  {
  }

  lemma FlagIs(b: bool)
    ensures Under(Flag(b), 2)
  {
  }

  lemma SmallIs(n: nat)
    requires n < 8
    ensures Under(Small(n), 8) && (n < 4 ==> Under(Small(n), 4))
  {
  }

  predicate NineFlags(w: bv32, m: seq<bool>)
    requires |m| == 9
  {
    && Bits(w, 0, 1) == One(m[0]) && Bits(w, 1, 1) == One(m[1]) && Bits(w, 2, 1) == One(m[2])
    && Bits(w, 3, 1) == One(m[3]) && Bits(w, 4, 1) == One(m[4]) && Bits(w, 5, 1) == One(m[5])
    && Bits(w, 6, 1) == One(m[6]) && Bits(w, 7, 1) == One(m[7]) && Bits(w, 8, 1) == One(m[8])
  }

  function One(b: bool): nat { if b then 1 else 0 }

  lemma NineFlagsMean(w: bv32, m: seq<bool>)
    requires |m| == 9 && NineFlags(w, m)
    ensures forall i | 0 <= i < 9 :: Bits(w, i, 1) == if m[i] then 1 else 0
  {
    hide Bits;
  }

  lemma LoSays(l: VertexLayout)
    requires LayoutOk(l)
    ensures NineFlags(Lo(l), l.matrices)
    ensures Bits(Lo(l), 9, 3) == l.position.how && Bits(Lo(l), 11, 3) == l.normal.how
    ensures Bits(Lo(l), 13, 3) == l.colours[0].how && Bits(Lo(l), 15, 3) == l.colours[1].how
  {
    hide LoWord, Bits, Field, Under, Flag, Small, NineFlags;
    var m, p, n, c, d := l.matrices, l.position.how, l.normal.how, l.colours[0].how, l.colours[1].how;
    assert ElementOk(l.colours[0]) && ElementOk(l.colours[1]);
    LoWordSays(m[0], m[1], m[2], m[3], m[4], m[5], m[6], m[7], m[8], p, n, c, d);
    NineFlagsAre(Lo(l), m);
  }

  lemma NineFlagsAre(w: bv32, m: seq<bool>)
    requires |m| == 9
    requires Field(w, 0, 1) == Flag(m[0]) && Field(w, 1, 1) == Flag(m[1]) && Field(w, 2, 1) == Flag(m[2])
    requires Field(w, 3, 1) == Flag(m[3]) && Field(w, 4, 1) == Flag(m[4]) && Field(w, 5, 1) == Flag(m[5])
    requires Field(w, 6, 1) == Flag(m[6]) && Field(w, 7, 1) == Flag(m[7]) && Field(w, 8, 1) == Flag(m[8])
    ensures NineFlags(w, m)
  {
    hide Bits, Field, Flag, One;
    FlagFieldIs(w, 0, m[0]);
    FlagFieldIs(w, 1, m[1]);
    FlagFieldIs(w, 2, m[2]);
    FlagFieldIs(w, 3, m[3]);
    FlagFieldIs(w, 4, m[4]);
    FlagFieldIs(w, 5, m[5]);
    FlagFieldIs(w, 6, m[6]);
    FlagFieldIs(w, 7, m[7]);
    FlagFieldIs(w, 8, m[8]);
  }

  lemma LoWordSays(a: bool, b: bool, c: bool, d: bool, e: bool, f: bool, g: bool, h: bool, i: bool, p: nat, n: nat, x: nat, y: nat)
    requires p < 4 && n < 4 && x < 4 && y < 4
    ensures var w := LoWord(Flag(a), Flag(b), Flag(c), Flag(d), Flag(e), Flag(f), Flag(g), Flag(h), Flag(i), Small(p), Small(n), Small(x), Small(y));
            && Field(w, 0, 1) == Flag(a) && Field(w, 1, 1) == Flag(b) && Field(w, 2, 1) == Flag(c) && Field(w, 3, 1) == Flag(d)
            && Field(w, 4, 1) == Flag(e) && Field(w, 5, 1) == Flag(f) && Field(w, 6, 1) == Flag(g) && Field(w, 7, 1) == Flag(h)
            && Field(w, 8, 1) == Flag(i) && Bits(w, 9, 3) == p && Bits(w, 11, 3) == n && Bits(w, 13, 3) == x && Bits(w, 15, 3) == y
  {
    hide LoWord, Bits, Field, Under, Flag, Small;
    FlagIs(a);
    FlagIs(b);
    FlagIs(c);
    FlagIs(d);
    FlagIs(e);
    FlagIs(f);
    FlagIs(g);
    FlagIs(h);
    FlagIs(i);
    SmallIs(p);
    SmallIs(n);
    SmallIs(x);
    SmallIs(y);
    LoFields(Flag(a), Flag(b), Flag(c), Flag(d), Flag(e), Flag(f), Flag(g), Flag(h), Flag(i), Small(p), Small(n), Small(x), Small(y));
    var w := LoWord(Flag(a), Flag(b), Flag(c), Flag(d), Flag(e), Flag(f), Flag(g), Flag(h), Flag(i), Small(p), Small(n), Small(x), Small(y));
    FieldIs(w, 9, 3, p);
    FieldIs(w, 11, 3, n);
    FieldIs(w, 13, 3, x);
    FieldIs(w, 15, 3, y);
  }

  lemma HiSays(l: VertexLayout)
    requires LayoutOk(l)
    ensures forall i | 0 <= i < 8 :: Bits(Hi(l), 2 * i, 3) == l.coords[i].how
  {
    hide LoWord, HiWord, AWord, BWord, CWord, Bits, Field, Under, Flag, Small;
    var w, t := Hi(l), l.coords;
    forall i | 0 <= i < 8 ensures t[i].how < 4 && Under(Small(t[i].how), 4) {
      assert ElementOk(t[i]);
      SmallIs(t[i].how);
    }
    HiFields(Small(t[0].how), Small(t[1].how), Small(t[2].how), Small(t[3].how), Small(t[4].how), Small(t[5].how), Small(t[6].how), Small(t[7].how));
    FieldIs(w, 0, 3, t[0].how);
    FieldIs(w, 2, 3, t[1].how);
    FieldIs(w, 4, 3, t[2].how);
    FieldIs(w, 6, 3, t[3].how);
    FieldIs(w, 8, 3, t[4].how);
    FieldIs(w, 10, 3, t[5].how);
    FieldIs(w, 12, 3, t[6].how);
    FieldIs(w, 14, 3, t[7].how);
  }

  lemma FormatASays(l: VertexLayout)
    requires LayoutOk(l)
    ensures var w := FormatA(l);
            && (Bits(w, 0, 1) == 1 <==> l.position.more) && Bits(w, 1, 7) == l.position.format
            && (Bits(w, 9, 1) == 1 <==> l.normal.more) && Bits(w, 10, 7) == l.normal.format && (Bits(w, 31, 1) == 1 <==> l.each)
            && Bits(w, 14, 7) == l.colours[0].format && Bits(w, 18, 7) == l.colours[1].format
            && (Bits(w, 21, 1) == 1 <==> l.coords[0].more) && Bits(w, 22, 7) == l.coords[0].format
  {
    hide LoWord, HiWord, AWord, BWord, CWord, Bits, Field, Under, Flag, Small;
    var w, p, n, c, d, t := FormatA(l), l.position, l.normal, l.colours[0], l.colours[1], l.coords[0];
    assert ElementOk(c) && ElementOk(d) && ElementOk(t);
    FlagIs(p.more);
    SmallIs(p.format);
    FlagIs(n.more);
    SmallIs(n.format);
    SmallIs(c.format);
    SmallIs(d.format);
    FlagIs(t.more);
    SmallIs(t.format);
    FlagIs(l.each);
    AFields(Flag(p.more), Small(p.format), Flag(n.more), Small(n.format), Small(c.format), Small(d.format), Flag(t.more), Small(t.format), Flag(l.each));
    FlagFieldIs(w, 0, p.more);
    FieldIs(w, 1, 7, p.format);
    FlagFieldIs(w, 9, n.more);
    FieldIs(w, 10, 7, n.format);
    FieldIs(w, 14, 7, c.format);
    FieldIs(w, 18, 7, d.format);
    FlagFieldIs(w, 21, t.more);
    FieldIs(w, 22, 7, t.format);
    FlagFieldIs(w, 31, l.each);
  }

  lemma FormatBSays(l: VertexLayout)
    requires LayoutOk(l)
    ensures var w := FormatB(l);
            && (Bits(w, 0, 1) == 1 <==> l.coords[1].more) && Bits(w, 1, 7) == l.coords[1].format
            && (Bits(w, 9, 1) == 1 <==> l.coords[2].more) && Bits(w, 10, 7) == l.coords[2].format
            && (Bits(w, 18, 1) == 1 <==> l.coords[3].more) && Bits(w, 19, 7) == l.coords[3].format
            && (Bits(w, 27, 1) == 1 <==> l.coords[4].more) && Bits(w, 28, 7) == l.coords[4].format
  {
    hide LoWord, HiWord, AWord, BWord, CWord, Bits, Field, Under, Flag, Small;
    var w, t, u, v, x := FormatB(l), l.coords[1], l.coords[2], l.coords[3], l.coords[4];
    assert ElementOk(t) && ElementOk(u) && ElementOk(v) && ElementOk(x);
    FlagIs(t.more);
    SmallIs(t.format);
    FlagIs(u.more);
    SmallIs(u.format);
    FlagIs(v.more);
    SmallIs(v.format);
    FlagIs(x.more);
    SmallIs(x.format);
    BFields(Flag(t.more), Small(t.format), Flag(u.more), Small(u.format), Flag(v.more), Small(v.format), Flag(x.more), Small(x.format));
    FlagFieldIs(w, 0, t.more);
    FieldIs(w, 1, 7, t.format);
    FlagFieldIs(w, 9, u.more);
    FieldIs(w, 10, 7, u.format);
    FlagFieldIs(w, 18, v.more);
    FieldIs(w, 19, 7, v.format);
    FlagFieldIs(w, 27, x.more);
    FieldIs(w, 28, 7, x.format);
  }

  lemma FormatCSays(l: VertexLayout)
    requires LayoutOk(l)
    ensures var w := FormatC(l);
            && (Bits(w, 5, 1) == 1 <==> l.coords[5].more) && Bits(w, 6, 7) == l.coords[5].format
            && (Bits(w, 14, 1) == 1 <==> l.coords[6].more) && Bits(w, 15, 7) == l.coords[6].format
            && (Bits(w, 23, 1) == 1 <==> l.coords[7].more) && Bits(w, 24, 7) == l.coords[7].format
  {
    hide LoWord, HiWord, AWord, BWord, CWord, Bits, Field, Under, Flag, Small;
    var w, t, u, v := FormatC(l), l.coords[5], l.coords[6], l.coords[7];
    assert ElementOk(t) && ElementOk(u) && ElementOk(v);
    FlagIs(t.more);
    SmallIs(t.format);
    FlagIs(u.more);
    SmallIs(u.format);
    FlagIs(v.more);
    SmallIs(v.format);
    CFields(Flag(t.more), Small(t.format), Flag(u.more), Small(u.format), Flag(v.more), Small(v.format));
    FlagFieldIs(w, 5, t.more);
    FieldIs(w, 6, 7, t.format);
    FlagFieldIs(w, 14, u.more);
    FieldIs(w, 15, 7, u.format);
    FlagFieldIs(w, 23, v.more);
    FieldIs(w, 24, 7, v.format);
  }

  /** The registers' vertex is the layout's, attribute for attribute. */
  lemma VertexSizeIs(cp: nat -> bv32, vat: nat, l: VertexLayout)
    requires LayoutOk(l) && RegistersSay(cp, vat, l)
    ensures VertexSize(cp, vat) == BytesBefore(l, 21)
  {
    hide Bits, BytesBefore, AttributeBytes, CoordSize, NormalSize, AttrSize, CompSize, ColourSize, Ones, Says;
    NumberSizes(l.position.format);
    NumberSizes(l.normal.format);
    CoordIs(l, cp(0x60), cp(0x70 + vat), 0, 0, 21, 22);
    CoordIs(l, cp(0x60), cp(0x80 + vat), 1, 2, 0, 1);
    CoordIs(l, cp(0x60), cp(0x80 + vat), 2, 4, 9, 10);
    CoordIs(l, cp(0x60), cp(0x80 + vat), 3, 6, 18, 19);
    CoordIs(l, cp(0x60), cp(0x80 + vat), 4, 8, 27, 28);
    CoordIs(l, cp(0x60), cp(0x90 + vat), 5, 10, 5, 6);
    CoordIs(l, cp(0x60), cp(0x90 + vat), 6, 12, 14, 15);
    CoordIs(l, cp(0x60), cp(0x90 + vat), 7, 14, 23, 24);
    MatricesAre(l, cp(0x50));
    MiddleIs(l, cp(0x50), cp(0x70 + vat));
    Total21(l);
  }

  lemma NumberSizes(format: nat)
    requires format < 8
    ensures NUMBER_BYTES[format] == CompSize(format) && COLOUR_BYTES[format] == ColourSize(format)
  {
  }

  lemma CoordIs(l: VertexLayout, hi: bv32, w: bv32, i: nat, at: nat, more: nat, format: nat)
    requires LayoutOk(l) && i < 8 && at < 32 && more < 32 && format < 32 && Says(l.coords[i], hi, at, w, more, format)
    ensures CoordSize(hi, at, w, more, format) == AttributeBytes(l, 13 + i)
  {
    hide Bits;
    assert ElementOk(l.coords[i]);
    NumberSizes(l.coords[i].format);
  }

  lemma MatricesAre(l: VertexLayout, lo: bv32)
    requires LayoutOk(l) && forall i | 0 <= i < 9 :: Bits(lo, i, 1) == if l.matrices[i] then 1 else 0
    ensures Bits(lo, 0, 1) == AttributeBytes(l, 0) && forall i | 0 <= i < 9 :: Ones(lo, i) == AttributeBytes(l, i)
  {
    hide Bits;
  }

  /** Position, normal and colours. */
  lemma MiddleIs(l: VertexLayout, lo: bv32, a: bv32)
    requires LayoutOk(l) && Says(l.position, lo, 9, a, 0, 1) && Says(l.normal, lo, 11, a, 9, 10) && (Bits(a, 31, 1) == 1 <==> l.each)
    requires Bits(lo, 13, 3) == l.colours[0].how && Bits(a, 14, 7) == l.colours[0].format
    requires Bits(lo, 15, 3) == l.colours[1].how && Bits(a, 18, 7) == l.colours[1].format
    ensures AttrSize(Bits(lo, 9, 3), (if Bits(a, 0, 1) == 1 then 3 else 2) * CompSize(Bits(a, 1, 7))) == AttributeBytes(l, 9)
    ensures NormalSize(Bits(lo, 11, 3), Bits(a, 9, 1) == 1, Bits(a, 31, 1) == 1, Bits(a, 10, 7)) == AttributeBytes(l, 10)
    ensures AttrSize(Bits(lo, 13, 3), ColourSize(Bits(a, 14, 7))) == AttributeBytes(l, 11)
    ensures AttrSize(Bits(lo, 15, 3), ColourSize(Bits(a, 18, 7))) == AttributeBytes(l, 12)
  {
    hide Bits;
    NumberSizes(l.position.format);
    NumberSizes(l.normal.format);
    assert ElementOk(l.colours[0]) && ElementOk(l.colours[1]);
    NumberSizes(l.colours[0].format);
    NumberSizes(l.colours[1].format);
  }

  lemma Total21(l: VertexLayout)
    requires LayoutOk(l)
    ensures var b := (i: nat) => if i < 21 then AttributeBytes(l, i) else 0;
            BytesBefore(l, 21) == b(0) + b(1) + b(2) + b(3) + b(4) + b(5) + b(6) + b(7) + b(8) + b(9) + b(10) + b(11) + b(12)
                                  + b(13) + b(14) + b(15) + b(16) + b(17) + b(18) + b(19) + b(20)
  {
    hide AttributeBytes;
    Step5(l, 0);
    Step5(l, 5);
    Step5(l, 10);
    Step5(l, 15);
    assert BytesBefore(l, 21) == BytesBefore(l, 20) + AttributeBytes(l, 20);
  }

  lemma Step5(l: VertexLayout, n: nat)
    requires LayoutOk(l) && n <= 15
    ensures BytesBefore(l, 0) == 0
    ensures BytesBefore(l, n + 5) == BytesBefore(l, n) + AttributeBytes(l, n) + AttributeBytes(l, n + 1) + AttributeBytes(l, n + 2) + AttributeBytes(l, n + 3) + AttributeBytes(l, n + 4)
  {
    hide AttributeBytes;
    assert BytesBefore(l, n + 1) == BytesBefore(l, n) + AttributeBytes(l, n);
    assert BytesBefore(l, n + 2) == BytesBefore(l, n + 1) + AttributeBytes(l, n + 1);
    assert BytesBefore(l, n + 3) == BytesBefore(l, n + 2) + AttributeBytes(l, n + 2);
    assert BytesBefore(l, n + 4) == BytesBefore(l, n + 3) + AttributeBytes(l, n + 3);
    assert BytesBefore(l, n + 5) == BytesBefore(l, n + 4) + AttributeBytes(l, n + 4);
  }

  // ---- commands -----------------------------------------------------------------------------------

  /** A vertex: its attributes' bytes. */
  type Vertex = seq<Bytes>

  predicate VertexOk(l: VertexLayout, v: Vertex)
    requires LayoutOk(l)
  {
    |v| == 21 && forall i | 0 <= i < 21 :: |v[i]| == AttributeBytes(l, i)
  }

  function Flat(parts: seq<Bytes>): Bytes { if parts == [] then [] else Flat(parts[..|parts| - 1]) + parts[|parts| - 1] }

  function AllFlat(verts: seq<Vertex>): Bytes { if verts == [] then [] else AllFlat(verts[..|verts| - 1]) + Flat(verts[|verts| - 1]) }

  function WordsFlat(words: seq<bv32>): Bytes { if words == [] then [] else WordsFlat(words[..|words| - 1]) + Word(words[|words| - 1]) }

  datatype Command =
    | SetCp(reg: nat, v: bv32)
    | SetXf(at: nat, words: seq<bv32>)
    | SetIndexed(row: nat, index: bv32, at: nat, words: seq<bv32>)  // the words found at a place of an array
    | SetMissing(row: nat, index: bv32, at: nat, n: nat)             // the same of a place outside memory
    | Other(op: Byte)                                // no operation, or no command at all
    | SetBp(v: bv32)                                 // the register in its top byte
    | Call(addr: bv32, size: bv32, inner: seq<Command>)
    | Draw(op: Byte, layout: VertexLayout, verts: seq<Vertex>)

  function Half(n: nat): (b: Bytes)
    requires n < 0x1_0000
    ensures |b| == 2
  {
    [n / 256, n % 256]
  }

  predicate Sendable(c: Command) {
    match c
    case SetCp(reg, _) => reg < 256
    case SetXf(at, words) => at < 0x1_0000 && 1 <= |words| <= 0x1_0000
    case SetIndexed(row, index, at, words) => row < 4 && index <= 0xFFFF && at < 0x1000 && 1 <= |words| <= 16
    case SetMissing(row, index, at, n) => row < 4 && index <= 0xFFFF && at < 0x1000 && 1 <= n <= 16
    case Other(op) => !IsDraw(op) && !IsIndexed(op) && op != 0x08 && op != 0x10 && op != LIST && op != 0x61
    case SetBp(_) => true
    case Call(_, _, _) => true
    case Draw(op, l, verts) => 0x80 <= op < 0xC0 && |verts| < 0x1_0000 && LayoutOk(l) && forall i | 0 <= i < |verts| :: VertexOk(l, verts[i])
  }

  function Sent(c: Command): Bytes
    requires Sendable(c)
  {
    match c
    case SetCp(reg, v) => [0x08, reg] + Word(v)
    case SetXf(at, words) => XfBytes(at, words)
    case SetIndexed(row, index, at, words) => IndexedBytes(row, index, at, |words|)
    case SetMissing(row, index, at, n) => IndexedBytes(row, index, at, n)
    case Other(op) => [op]
    case SetBp(v) => [0x61] + Word(v)
    case Call(addr, size, _) => [LIST] + Word(addr) + Word(size)
    case Draw(op, _, verts) => [op] + Half(|verts|) + AllFlat(verts)
  }

  function XfBytes(at: nat, words: seq<bv32>): Bytes
    requires at < 0x1_0000 && 1 <= |words| <= 0x1_0000
  {
    [0x10] + Half(|words| - 1) + Half(at) + WordsFlat(words)
  }

  function IndexedBytes(row: nat, index: bv32, at: nat, n: nat): (b: Bytes)
    requires row < 4 && index <= 0xFFFF && at < 0x1000 && 1 <= n <= 16
    ensures |b| == 5
  {
    TopByte(index << 16);
    TopByte(index << 24);
    [0x20 + 8 * row, ((index << 16) >> 24) as nat, ((index << 24) >> 24) as nat] + Half(0x1000 * (n - 1) + at)
  }

  /** Where item `index` of an array is: its base and stride are in the registers. */
  function ItemAt(cp: nat -> bv32, row: nat, index: bv32): bv32 {
    (cp(0xAC + row) & 0x1FFF_FFFF) + index * (cp(0xBC + row) & 0xFF)
  }

  /** Memory holds the words there. */
  predicate Found(cp: nat -> bv32, row: nat, index: bv32, words: seq<bv32>, src: Sources) {
    && InMemory(ItemAt(cp, row, index), 4 * |words|)
    && |words| <= 16 && forall i | 0 <= i < |words| :: words[i] == src.word((ItemAt(cp, row, index) | 0x8000_0000) + 4 * (i as bv32))
  }

  predicate AllSendable(cs: seq<Command>) { forall i | 0 <= i < |cs| :: Sendable(cs[i]) }

  function AllSent(cs: seq<Command>): Bytes
    requires AllSendable(cs)
  {
    if cs == [] then [] else Sent(cs[0]) + AllSent(cs[1..])
  }

  /** What the renderer is to be told. */
  function Told(c: Command, list: List, inList: bool): seq<Event>
    decreases c, 1
  {
    match c
    case SetCp(reg, v) => [CpLoad(reg, v)]
    case SetXf(at, words) => [XfLoad(at, words)]
    case SetIndexed(_, _, at, words) => [XfLoad(at, words)]
    case SetMissing(_, _, at, _) => [XfLoad(at, [])]
    case Other(op) => if op == 0x00 || op == 0x48 then [] else [Unknown(op)]
    case SetBp(v) => [BpLoad((v >> 24) as nat, v & 0xFF_FFFF)]
    case Call(addr, size, inner) => [Called(addr, size)] + if inList then [] else AllTold(inner, In(addr), true)
    case Draw(op, _, verts) => [Drawn(op, |verts|, AllFlat(verts), list)]
  }

  function AllTold(cs: seq<Command>, list: List, inList: bool): seq<Event>
    decreases cs, 0
  {
    if cs == [] then [] else Told(cs[0], list, inList) + AllTold(cs[1..], list, inList)
  }

  /** The registers are such that it can be said: a masked load keeps to its mask, an
      array holds the words to be loaded from it or lies outside memory, a draw's vertices are laid out as the
      registers say, and a list's bytes are what it is to say. */
  ghost predicate Sayable(s: State, c: Command, m: Mode, src: Sources)
    decreases c, 1
  {
    && Sendable(c)
    && match c
       case SetIndexed(row, index, _, words) => Found(s.cp, row, index, words, src)
       case SetMissing(row, index, _, n) => !InMemory(ItemAt(s.cp, row, index), 4 * n)
       case Other(op) => !IsList(op, m)
       case SetBp(v) => BpLoaded(s, v).log == s.log + [BpLoad((v >> 24) as nat, v & 0xFF_FFFF)]
       case Call(addr, size, inner) =>
         m.inList
         || (AllSendable(inner)
             && (if InMemory(addr, size as nat) then src.bytes(addr, size as nat) == AllSent(inner) else inner == [])
             && AllSayable(s.(log := s.log + [Called(addr, size)], list := In(addr)), inner, m.(inList := true), src))
       case Draw(op, l, _) => RegistersSay(s.cp, op % 8, l)
       case _ => true
  }

  ghost predicate AllSayable(s: State, cs: seq<Command>, m: Mode, src: Sources)
    decreases cs, 0
  {
    cs == [] || (Sayable(s, cs[0], m, src) && AllSayable(Parse(s, Sent(cs[0]), m, src).0, cs[1..], m, src))
  }

  // ---- each command is read ------------------------------------------------------------------------

  /** c is one whole command, told as `told`, and the list being read stays. */
  ghost predicate Reads(s: State, b: Bytes, m: Mode, src: Sources, told: seq<Event>) {
    && b != [] && Sized(s, b, m) == Whole(|b|)
    && Run(s, b, m, src).log == s.log + told && Run(s, b, m, src).list == s.list
  }

  lemma HalfBack(n: nat, p: Bytes, i: nat)
    requires n < 0x1_0000 && i + 2 <= |p| && p[i] as nat == n / 256 && p[i + 1] as nat == n % 256
    ensures Be16(p, i) == n
  {
  }

  lemma CpReads(s: State, reg: nat, v: bv32, m: Mode, src: Sources)
    requires reg < 256
    ensures Reads(s, Sent(SetCp(reg, v)), m, src, [CpLoad(reg, v)])
  {
    var b := Sent(SetCp(reg, v));
    assert b[2..6] == Word(v);
    hide Word;
    WordBack(v, b, 2);
    hide Be32;
  }

  lemma BpReads(s: State, v: bv32, m: Mode, src: Sources)
    requires BpLoaded(s, v).log == s.log + [BpLoad((v >> 24) as nat, v & 0xFF_FFFF)]
    ensures Reads(s, Sent(SetBp(v)), m, src, [BpLoad((v >> 24) as nat, v & 0xFF_FFFF)])
  {
    var b := Sent(SetBp(v));
    assert b[1..5] == Word(v);
    hide Word;
    WordBack(v, b, 1);
    BpLength(s, b, m);
    BpKeepsList(s, v);
    hide Be32, BpLoaded;
  }

  lemma BpKeepsList(s: State, v: bv32)
    ensures BpLoaded(s, v).list == s.list
  {
  }

  lemma {:induction false} WordsFlatIs(words: seq<bv32>, i: nat)
    ensures |WordsFlat(words)| == 4 * |words|
    ensures i < |words| ==> WordsFlat(words)[4 * i..4 * i + 4] == Word(words[i])
  {
    hide Word;
    if words != [] {
      var n := |words| - 1;
      WordsFlatIs(words[..n], i);
      var f, w := WordsFlat(words[..n]), Word(words[n]);
      if i < n {
        assert (f + w)[4 * i..4 * i + 4] == f[4 * i..4 * i + 4];
      } else if i == n {
        assert (f + w)[4 * n..4 * n + 4] == w;
      }
    }
  }

  lemma XfReads(s: State, at: nat, words: seq<bv32>, m: Mode, src: Sources)
    requires at < 0x1_0000 && 1 <= |words| <= 0x1_0000
    ensures Reads(s, Sent(SetXf(at, words)), m, src, [XfLoad(at, words)])
  {
    hide *;
    XfSent(at, words);
    var b, f := Sent(SetXf(at, words)), WordsFlat(words);
    WordsFlatIs(words, 0);
    XfHead(b, at, words);
    forall i | 0 <= i < |words| ensures Be32(b, 5 + 4 * i) == words[i] {
      WordsFlatIs(words, i);
      SliceFrom(b, f, 5, 4 * i, 4);
      WordBack(words[i], b, 5 + 4 * i);
    }
    XfWhole(s, b, m, |words|);
    XfTells(s, b, m, src, at, words);
    ReadsIs(s, b, m, src, [XfLoad(at, words)]);
  }

  lemma IndexedReads(s: State, row: nat, index: bv32, at: nat, words: seq<bv32>, m: Mode, src: Sources)
    requires Sendable(SetIndexed(row, index, at, words)) && Found(s.cp, row, index, words, src)
    ensures Reads(s, Sent(SetIndexed(row, index, at, words)), m, src, [XfLoad(at, words)])
  {
    hide *;
    IndexedSent(row, index, at, words);
    var b := Sent(SetIndexed(row, index, at, words));
    IndexedHead(row, index, at, |words|);
    IndexBack(index);
    IndexedTells(s, b, m, src, row, index, at, words);
    ReadsIs(s, b, m, src, [XfLoad(at, words)]);
  }

  lemma IndexedSent(row: nat, index: bv32, at: nat, words: seq<bv32>)
    requires Sendable(SetIndexed(row, index, at, words))
    ensures row < 4 && index <= 0xFFFF && at < 0x1000 && 1 <= |words| <= 16
    ensures Sent(SetIndexed(row, index, at, words)) == IndexedBytes(row, index, at, |words|)
  {
    hide IndexedBytes;
  }

  lemma IndexedHead(row: nat, index: bv32, at: nat, n: nat)
    requires row < 4 && index <= 0xFFFF && at < 0x1000 && 1 <= n <= 16
    ensures var b := IndexedBytes(row, index, at, n);
            && b[0] as nat == 0x20 + 8 * row && b[1] as nat == ((index << 16) >> 24) as nat && b[2] as nat == ((index << 24) >> 24) as nat
            && Be16(b, 3) == 0x1000 * (n - 1) + at
  {
    HalfBack(0x1000 * (n - 1) + at, IndexedBytes(row, index, at, n), 3);
    hide Be16;
  }

  lemma IndexBack(index: bv32)
    requires index <= 0xFFFF
    ensures ((((index << 16) >> 24) as nat as bv32) << 8) | (((index << 24) >> 24) as nat as bv32) == index
  {
    NatBack((index << 16) >> 24);
    NatBack((index << 24) >> 24);
    IndexTogether(index);
  }

  lemma IndexTogether(index: bv32)
    requires index <= 0xFFFF
    ensures (((index << 16) >> 24) << 8) | ((index << 24) >> 24) == index
  {
  }

  lemma IndexedTells(s: State, b: Bytes, m: Mode, src: Sources, row: nat, index: bv32, at: nat, words: seq<bv32>)
    requires row < 4 && at < 0x1000 && 1 <= |words| <= 16 && |b| == 5 && b[0] as nat == 0x20 + 8 * row
    requires b[1] as nat == ((index << 16) >> 24) as nat && b[2] as nat == ((index << 24) >> 24) as nat
    requires ((((index << 16) >> 24) as nat as bv32) << 8) | (((index << 24) >> 24) as nat as bv32) == index
    requires Be16(b, 3) == 0x1000 * (|words| - 1) + at && Found(s.cp, row, index, words, src)
    ensures Sized(s, b, m) == Whole(|b|)
    ensures Run(s, b, m, src).log == s.log + [XfLoad(at, words)] && Run(s, b, m, src).list == s.list
  {
    hide *;
    ItemIs(s, b, row, index);
    FoundMeans(s.cp, row, index, words, src);
    CountAndPlace(Be16(b, 3), |words|, at);
    IndexedRuns(s, b, m, src, row);
    IndexedIs(s, b, src, at, words);
  }

  lemma MissingReads(s: State, row: nat, index: bv32, at: nat, n: nat, m: Mode, src: Sources)
    requires Sendable(SetMissing(row, index, at, n)) && !InMemory(ItemAt(s.cp, row, index), 4 * n)
    ensures Reads(s, Sent(SetMissing(row, index, at, n)), m, src, [XfLoad(at, [])])
  {
    hide *;
    MissingSent(row, index, at, n);
    var b := Sent(SetMissing(row, index, at, n));
    IndexedHead(row, index, at, n);
    IndexBack(index);
    ItemIs(s, b, row, index);
    CountAndPlace(Be16(b, 3), n, at);
    IndexedRuns(s, b, m, src, row);
    MissingIs(s, b, src, at, n);
    ReadsIs(s, b, m, src, [XfLoad(at, [])]);
  }

  lemma MissingSent(row: nat, index: bv32, at: nat, n: nat)
    requires Sendable(SetMissing(row, index, at, n))
    ensures row < 4 && index <= 0xFFFF && at < 0x1000 && 1 <= n <= 16
    ensures Sent(SetMissing(row, index, at, n)) == IndexedBytes(row, index, at, n)
  {
    hide IndexedBytes;
  }

  lemma MissingIs(s: State, b: Bytes, src: Sources, at: nat, n: nat)
    requires |b| == 5 && 1 <= n <= 16 && Be16(b, 3) / 0x1000 + 1 == n && Be16(b, 3) % 0x1000 == at
    requires !InMemory(ArrayAt(s, b), 4 * n)
    ensures Indexed(s, b, src).log == s.log + [XfLoad(at, [])] && Indexed(s, b, src).list == s.list
  {
    hide Be16, InMemory, ArrayAt, WordAt;
  }

  lemma OtherReads(s: State, op: Byte, m: Mode, src: Sources)
    requires Sendable(Other(op)) && !IsList(op, m)
    ensures Reads(s, Sent(Other(op)), m, src, if op == 0x00 || op == 0x48 then [] else [Unknown(op)])
  {
    hide Be16, Be32, XfLoaded, BpLoaded, Indexed, DrawSize, XfSize, InlineSize;
    assert s.log + [] == s.log;
  }

  lemma CountAndPlace(v: nat, n: nat, at: nat)
    requires at < 0x1000 && 1 <= n && v == 0x1000 * (n - 1) + at
    ensures v / 0x1000 + 1 == n && v % 0x1000 == at
  {
  }

  lemma IndexedRuns(s: State, b: Bytes, m: Mode, src: Sources, row: nat)
    requires row < 4 && |b| == 5 && b[0] as nat == 0x20 + 8 * row
    ensures Sized(s, b, m) == Whole(|b|) && Run(s, b, m, src) == Indexed(s, b, src)
  {
    hide Indexed, Be16, Be32;
  }

  lemma FoundMeans(cp: nat -> bv32, row: nat, index: bv32, words: seq<bv32>, src: Sources)
    requires Found(cp, row, index, words, src)
    ensures InMemory(ItemAt(cp, row, index), 4 * |words|)
    ensures |words| <= 16 && forall i | 0 <= i < |words| :: words[i] == src.word(WordAt(ItemAt(cp, row, index), i))
  {
    hide InMemory, ItemAt;
  }

  lemma ItemIs(s: State, b: Bytes, row: nat, index: bv32)
    requires row < 4 && |b| == 5 && b[0] as nat == 0x20 + 8 * row
    requires b[1] as nat == ((index << 16) >> 24) as nat && b[2] as nat == ((index << 24) >> 24) as nat
    requires ((((index << 16) >> 24) as nat as bv32) << 8) | (((index << 24) >> 24) as nat as bv32) == index
    ensures ArrayAt(s, b) == ItemAt(s.cp, row, index)
  {
    hide *;
    IndexOf(b, index);
    ArrayIs(s, b, row, index);
    ItemAtIs(s.cp, row, index);
  }

  lemma IndexOf(b: Bytes, index: bv32)
    requires |b| == 5
    requires b[1] as nat == ((index << 16) >> 24) as nat && b[2] as nat == ((index << 24) >> 24) as nat
    requires ((((index << 16) >> 24) as nat as bv32) << 8) | (((index << 24) >> 24) as nat as bv32) == index
    ensures ((b[1] as bv32) << 8) | (b[2] as bv32) == index
  {
  }

  lemma ArrayIs(s: State, b: Bytes, row: nat, index: bv32)
    requires row < 4 && |b| == 5 && b[0] as nat == 0x20 + 8 * row && ((b[1] as bv32) << 8) | (b[2] as bv32) == index
    ensures ArrayAt(s, b) == Item(s.cp(0xAC + row), index, s.cp(0xBC + row))
  {
    hide Item;
  }

  lemma ItemAtIs(cp: nat -> bv32, row: nat, index: bv32)
    ensures ItemAt(cp, row, index) == Item(cp(0xAC + row), index, cp(0xBC + row))
  {
  }

  lemma IndexedIs(s: State, b: Bytes, src: Sources, at: nat, words: seq<bv32>)
    requires |b| == 5 && 1 <= |words| <= 16 && Be16(b, 3) / 0x1000 + 1 == |words| && Be16(b, 3) % 0x1000 == at
    requires InMemory(ArrayAt(s, b), 4 * |words|) && forall i | 0 <= i < |words| :: words[i] == src.word(WordAt(ArrayAt(s, b), i))
    ensures Indexed(s, b, src).log == s.log + [XfLoad(at, words)] && Indexed(s, b, src).list == s.list
  {
    hide Be16, InMemory, ArrayAt, WordAt;
    var read := seq(|words|, i requires 0 <= i < |words| => src.word(WordAt(ArrayAt(s, b), i)));
    assert |read| == |words| && forall i | 0 <= i < |words| :: read[i] == words[i];
    assert read == words;
  }

  lemma SliceFrom<T>(b: seq<T>, f: seq<T>, lo: nat, at: nat, n: nat)
    requires lo <= |b| && b[lo..] == f && at + n <= |f|
    ensures b[lo + at..lo + at + n] == f[at..at + n]
  {
    var x, y := b[lo + at..lo + at + n], b[lo..][at..at + n];
    assert |x| == |y| == n && forall i | 0 <= i < n :: x[i] == y[i];
  }

  lemma XfSent(at: nat, words: seq<bv32>)
    requires at < 0x1_0000 && 1 <= |words| <= 0x1_0000
    ensures Sendable(SetXf(at, words)) && Sent(SetXf(at, words)) == XfBytes(at, words)
  {
    hide XfBytes;
  }

  lemma XfWhole(s: State, b: Bytes, m: Mode, n: nat)
    requires 5 <= |b| == 5 + 4 * n && b[0] == 0x10 && 1 <= n && Be16(b, 1) == n - 1
    ensures Sized(s, b, m) == Whole(|b|)
  {
    hide Be16;
  }

  lemma XfTells(s: State, b: Bytes, m: Mode, src: Sources, at: nat, words: seq<bv32>)
    requires 5 <= |b| == 5 + 4 * |words| && b[0] == 0x10 && 1 <= |words| && Be16(b, 1) == |words| - 1 && Be16(b, 3) == at
    requires Sized(s, b, m) == Whole(|b|) && forall i | 0 <= i < |words| :: Be32(b, 5 + 4 * i) == words[i]
    ensures Run(s, b, m, src).log == s.log + [XfLoad(at, words)] && Run(s, b, m, src).list == s.list
  {
    hide Be16, Be32, Sized;
    assert Words(b, 5, |words|) == words;
  }

  lemma XfHead(b: Bytes, at: nat, words: seq<bv32>)
    requires at < 0x1_0000 && 1 <= |words| <= 0x1_0000 && b == XfBytes(at, words)
    ensures 5 <= |b| == 5 + |WordsFlat(words)| && b[0] == 0x10 && Be16(b, 1) == |words| - 1 && Be16(b, 3) == at && b[5..] == WordsFlat(words)
  {
    hide WordsFlat, Be16;
    HalfBack(|words| - 1, b, 1);
    HalfBack(at, b, 3);
  }

  lemma {:induction false} FlatIs(l: VertexLayout, v: Vertex, n: nat)
    requires LayoutOk(l) && VertexOk(l, v) && n <= 21
    ensures |Flat(v[..n])| == BytesBefore(l, n)
  {
    hide AttributeBytes;
    if n > 0 {
      FlatIs(l, v, n - 1);
      assert v[..n][..n - 1] == v[..n - 1];
    }
  }

  lemma {:induction false} AllFlatIs(l: VertexLayout, verts: seq<Vertex>)
    requires LayoutOk(l) && forall i | 0 <= i < |verts| :: VertexOk(l, verts[i])
    ensures |AllFlat(verts)| == Times(|verts|, BytesBefore(l, 21))
  {
    hide BytesBefore, VertexOk, Flat;
    if verts != [] {
      var n := |verts| - 1;
      AllFlatIs(l, verts[..n]);
      FlatIs(l, verts[n], 21);
      WholeVertex(l, verts[n]);
      OneMore(n, BytesBefore(l, 21));
    } else {
      assert Times(0, BytesBefore(l, 21)) == 0;
    }
  }

  lemma WholeVertex(l: VertexLayout, v: Vertex)
    requires LayoutOk(l) && VertexOk(l, v)
    ensures v[..21] == v
  {
  }

  lemma OneMore(n: nat, b: nat)
    ensures Times(n + 1, b) == Times(n, b) + b
  {
  }

  lemma DrawReads(s: State, op: Byte, l: VertexLayout, verts: seq<Vertex>, m: Mode, src: Sources)
    requires Sendable(Draw(op, l, verts)) && RegistersSay(s.cp, op % 8, l)
    ensures Reads(s, Sent(Draw(op, l, verts)), m, src, [Drawn(op, |verts|, AllFlat(verts), s.list)])
  {
    hide *;
    var b, f := Sent(Draw(op, l, verts)), AllFlat(verts);
    DrawSent(op, l, verts);
    AllFlatIs(l, verts);
    VertexSizeIs(s.cp, op % 8, l);
    DrawHead(b, op, |verts|, f);
    DrawWhole(s, b, m, |verts|, VertexSize(s.cp, op % 8));
    DrawTells(s, b, m, src);
    ReadsIs(s, b, m, src, [Drawn(op, |verts|, f, s.list)]);
  }

  lemma DrawSent(op: Byte, l: VertexLayout, verts: seq<Vertex>)
    requires Sendable(Draw(op, l, verts))
    ensures Sent(Draw(op, l, verts)) == [op] + Half(|verts|) + AllFlat(verts)
    ensures |verts| < 0x1_0000 && LayoutOk(l) && (forall i | 0 <= i < |verts| :: VertexOk(l, verts[i])) && IsDraw(op)
  {
    hide AllFlat, Half, LayoutOk, VertexOk;
  }

  lemma DrawWhole(s: State, b: Bytes, m: Mode, n: nat, size: nat)
    requires 3 <= |b| && IsDraw(b[0]) && Be16(b, 1) == n && VertexSize(s.cp, b[0] % 8) == size && |b| == 3 + Times(n, size)
    ensures Sized(s, b, m) == Whole(|b|)
  {
    hide VertexSize, Times, Be16;
  }

  lemma DrawTells(s: State, b: Bytes, m: Mode, src: Sources)
    requires 3 <= |b| && IsDraw(b[0]) && Sized(s, b, m) == Whole(|b|)
    ensures Run(s, b, m, src) == s.(log := s.log + [Drawn(b[0], Be16(b, 1), b[3..], s.list)])
  {
    hide Sized, Be16;
  }

  lemma ReadsIs(s: State, b: Bytes, m: Mode, src: Sources, told: seq<Event>)
    requires b != [] && Sized(s, b, m) == Whole(|b|) && Run(s, b, m, src).log == s.log + told && Run(s, b, m, src).list == s.list
    ensures Reads(s, b, m, src, told)
  {
  }

  lemma ReadsMean(s: State, b: Bytes, m: Mode, src: Sources, told: seq<Event>)
    requires Reads(s, b, m, src, told)
    ensures b != [] && Sized(s, b, m) == Whole(|b|) && Run(s, b, m, src).log == s.log + told && Run(s, b, m, src).list == s.list
  {
  }

  lemma DrawHead(b: Bytes, op: Byte, n: nat, f: Bytes)
    requires n < 0x1_0000 && b == [op] + Half(n) + f
    ensures 3 <= |b| == 3 + |f| && b[0] == op && Be16(b, 1) == n && b[3..] == f
  {
    HalfBack(n, b, 1);
    hide Be16;
  }

  lemma CallHead(addr: bv32, size: bv32)
    ensures var b := Sent(Call(addr, size, []));
            && |b| == 9 && b[0] == LIST && Be32(b, 1) == addr && Be32(b, 5) == size
            && forall s, m :: Sized(s, b, m) == Whole(9)
  {
    hide Be32, Sized;
    CallWords(addr, size);
    NineIsWhole(Sent(Call(addr, size, [])));
  }

  lemma NineIsWhole(b: Bytes)
    requires |b| == 9 && b[0] == LIST
    ensures forall s, m :: Sized(s, b, m) == Whole(9)
  {
  }

  lemma CallWords(addr: bv32, size: bv32)
    ensures var b := Sent(Call(addr, size, []));
            && |b| == 9 && b[0] == LIST && Be32(b, 1) == addr && Be32(b, 5) == size
  {
    var b := Sent(Call(addr, size, []));
    assert b[1..5] == Word(addr) && b[5..9] == Word(size);
    hide Word;
    WordBack(addr, b, 1);
    WordBack(size, b, 5);
    hide Be32;
  }

  /** Each command is read as itself. */
  lemma OneReads(s: State, c: Command, m: Mode, src: Sources)
    requires Sayable(s, c, m, src) && (!m.inList ==> s.list == Direct)
    ensures Reads(s, Sent(c), m, src, Told(c, s.list, m.inList))
    decreases c, 1
  {
    hide *;
    SimpleCase(s, c, m, src);
    match c
    case SetCp(reg, v) => CpReads(s, reg, v, m, src);
    case SetXf(at, words) => XfReads(s, at, words, m, src);
    case SetIndexed(row, index, at, words) => IndexedReads(s, row, index, at, words, m, src);
    case SetMissing(row, index, at, n) => MissingReads(s, row, index, at, n, m, src);
    case Other(op) => OtherReads(s, op, m, src);
    case SetBp(v) => BpReads(s, v, m, src);
    case Draw(op, l, verts) => DrawReads(s, op, l, verts, m, src);
    case Call(addr, size, inner) => CallOneReads(s, addr, size, inner, m, src);
  }

  lemma SimpleCase(s: State, c: Command, m: Mode, src: Sources)
    requires Sayable(s, c, m, src)
    ensures Sendable(c)
    ensures c.SetCp? ==> c.reg < 256 && Told(c, s.list, m.inList) == [CpLoad(c.reg, c.v)]
    ensures c.SetXf? ==> c.at < 0x1_0000 && 1 <= |c.words| <= 0x1_0000 && Told(c, s.list, m.inList) == [XfLoad(c.at, c.words)]
    ensures c.SetIndexed? ==> Found(s.cp, c.row, c.index, c.words, src) && Told(c, s.list, m.inList) == [XfLoad(c.at, c.words)]
    ensures c.SetMissing? ==> !InMemory(ItemAt(s.cp, c.row, c.index), 4 * c.n) && Told(c, s.list, m.inList) == [XfLoad(c.at, [])]
    ensures c.Other? ==> !IsList(c.op, m) && Told(c, s.list, m.inList) == (if c.op == 0x00 || c.op == 0x48 then [] else [Unknown(c.op)])
    ensures c.SetBp? ==> var told := BpLoad((c.v >> 24) as nat, c.v & 0xFF_FFFF);
                         BpLoaded(s, c.v).log == s.log + [told] && Told(c, s.list, m.inList) == [told]
    ensures c.Draw? ==> LayoutOk(c.layout) && RegistersSay(s.cp, c.op % 8, c.layout) && Told(c, s.list, m.inList) == [Drawn(c.op, |c.verts|, AllFlat(c.verts), s.list)]
  {
    hide RegistersSay, BpLoaded, Found, AllSayable, AllSent, InMemory, LayoutOk, VertexOk, AllFlat, AllTold;
  }

  lemma CallOneReads(s: State, addr: bv32, size: bv32, inner: seq<Command>, m: Mode, src: Sources)
    requires Sayable(s, Call(addr, size, inner), m, src) && (!m.inList ==> s.list == Direct)
    ensures Reads(s, Sent(Call(addr, size, inner)), m, src, Told(Call(addr, size, inner), s.list, m.inList))
    decreases Call(addr, size, inner), 0
  {
    hide *;
    CallTold(addr, size, inner, s.list, m.inList);
    if m.inList {
      NestedReads(s, addr, size, inner, m, src);
    } else {
      CallSays(s, addr, size, inner, m, src);
      AllRead(s.(log := s.log + [Called(addr, size)], list := In(addr)), inner, m.(inList := true), src);
      CallReads(s, addr, size, inner, m, src);
    }
  }

  lemma CallTold(addr: bv32, size: bv32, inner: seq<Command>, list: List, inList: bool)
    ensures Told(Call(addr, size, inner), list, inList) == [Called(addr, size)] + if inList then [] else AllTold(inner, In(addr), true)
    ensures Sendable(Call(addr, size, inner))
  {
  }

  lemma CallSays(s: State, addr: bv32, size: bv32, inner: seq<Command>, m: Mode, src: Sources)
    requires Sayable(s, Call(addr, size, inner), m, src) && !m.inList
    ensures AllSendable(inner)
    ensures if InMemory(addr, size as nat) then src.bytes(addr, size as nat) == AllSent(inner) else inner == []
    ensures AllSayable(s.(log := s.log + [Called(addr, size)], list := In(addr)), inner, m.(inList := true), src)
  {
    hide AllSent, InMemory, AllSayable, Sendable;
  }

  lemma SameCallBytes(addr: bv32, size: bv32, inner: seq<Command>)
    ensures Sent(Call(addr, size, inner)) == Sent(Call(addr, size, []))
  {
    hide Word;
  }

  lemma NestedReads(s: State, addr: bv32, size: bv32, inner: seq<Command>, m: Mode, src: Sources)
    requires m.inList
    ensures Reads(s, Sent(Call(addr, size, inner)), m, src, [Called(addr, size)] + [])
  {
    SameCallBytes(addr, size, inner);
    CallHead(addr, size);
    hide Sent;
    NestedCallsOnlyCount(s, Sent(Call(addr, size, [])), m, src);
    hide Run, Sized, Be32;
  }

  /** A list carried out says what its bytes say. */
  lemma CallReads(s: State, addr: bv32, size: bv32, inner: seq<Command>, m: Mode, src: Sources)
    requires !m.inList && s.list == Direct && AllSendable(inner)
    requires if InMemory(addr, size as nat) then src.bytes(addr, size as nat) == AllSent(inner) else inner == []
    requires var t := s.(log := s.log + [Called(addr, size)], list := In(addr));
             var (u, rest) := Parse(t, AllSent(inner), m.(inList := true), src);
             u.log == t.log + AllTold(inner, In(addr), true)
    ensures Reads(s, Sent(Call(addr, size, inner)), m, src, [Called(addr, size)] + AllTold(inner, In(addr), true))
  {
    hide *;
    SameCallBytes(addr, size, inner);
    CallHead(addr, size);
    CallTold(addr, size, [], Direct, true);
    var b := Sent(Call(addr, size, []));
    ListByte(m);
    CallRuns(s, b, m, src);
    CalledIs(s, b, addr, size, m, src, inner);
    Regroup(s.log, [Called(addr, size)], AllTold(inner, In(addr), true));
    ReadsIs(s, b, m, src, [Called(addr, size)] + AllTold(inner, In(addr), true));
  }

  lemma ListByte(m: Mode)
    ensures IsList(LIST, m)
  {
  }

  lemma CalledIs(s: State, b: Bytes, addr: bv32, size: bv32, m: Mode, src: Sources, inner: seq<Command>)
    requires 9 <= |b| && b[0] == LIST && Be32(b, 1) == addr && Be32(b, 5) == size && !m.inList && s.list == Direct && AllSendable(inner)
    requires if InMemory(addr, size as nat) then src.bytes(addr, size as nat) == AllSent(inner) else inner == []
    ensures CalledAs(s, b) == s.(log := s.log + [Called(addr, size)], list := In(addr)) && Body(b, m, src) == AllSent(inner)
  {
    hide InMemory, Be32;
  }

  /** The theorem: a stream is read as what it was written from, and nothing is left. */
  lemma AllRead(s: State, cs: seq<Command>, m: Mode, src: Sources)
    requires AllSendable(cs) && AllSayable(s, cs, m, src) && (!m.inList ==> s.list == Direct)
    ensures var (t, rest) := Parse(s, AllSent(cs), m, src);
            t.log == s.log + AllTold(cs, s.list, m.inList) && t.list == s.list && rest == []
    decreases cs, 0
  {
    hide *;
    if cs == [] {
      ParseStops(s, [], m, src);
      NothingToSay(s.list, m.inList);
      Regroup(s.log, [], []);
    } else {
      FirstOf(s, cs, m, src);
      var b, more, first := Sent(cs[0]), AllSent(cs[1..]), Told(cs[0], s.list, m.inList);
      OneReads(s, cs[0], m, src);
      ReadsMean(s, b, m, src, first);
      var u := Run(s, b, m, src);
      Alone(s, b, m, src);
      SizedMonotone(s, b, more, m);
      Halves(b, more);
      ParseStep(s, b + more, m, src, |b|);
      AllRead(u, cs[1..], m, src);
      Regroup(s.log, first, AllTold(cs[1..], s.list, m.inList));
    }
  }

  lemma NothingToSay(list: List, inList: bool)
    ensures AllSendable([]) && AllSent([]) == [] && AllTold([], list, inList) == []
  {
  }

  lemma FirstOf(s: State, cs: seq<Command>, m: Mode, src: Sources)
    requires cs != [] && AllSendable(cs) && AllSayable(s, cs, m, src)
    ensures Sendable(cs[0]) && Sayable(s, cs[0], m, src) && AllSendable(cs[1..])
    ensures AllSayable(Parse(s, Sent(cs[0]), m, src).0, cs[1..], m, src)
    ensures AllSent(cs) == Sent(cs[0]) + AllSent(cs[1..])
    ensures forall list, inList :: AllTold(cs, list, inList) == Told(cs[0], list, inList) + AllTold(cs[1..], list, inList)
  {
    hide Sayable, Sent, Parse, Told, Sendable;
  }

  lemma Alone(s: State, b: Bytes, m: Mode, src: Sources)
    requires b != [] && Sized(s, b, m) == Whole(|b|)
    ensures Parse(s, b, m, src) == (Run(s, b, m, src), [])
  {
    hide Run, Sized, Parse;
    ParseStep(s, b, m, src, |b|);
    assert b[..|b|] == b && b[|b|..] == [];
    ParseStops(Run(s, b, m, src), [], m, src);
  }
}
