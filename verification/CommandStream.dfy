/**
  The graphics command stream: commands whose length depends on registers earlier commands
  set, display lists called from it, and a parser that is fed a store at a time. Proved:
  however the bytes are split, the same commands are carried out in the same order.
 */
module CommandStream {
  import opened Arithmetic

  type Byte = b: nat | b < 256

  type Bytes = seq<Byte>

  const MEM1_SIZE: nat := 0x180_0000
  const MEM_MASK: bv32 := 0x1FF_FFFF
  const XF_WORDS: nat := 0x1100

  /** What the renderer is told, in order. */
  datatype Event =
    | CpLoad(reg: nat, v: bv32)
    | XfLoad(at: nat, words: seq<bv32>)
    | BpLoad(reg: nat, v: bv32)          // as the mask left it
    | Called(body: bv32, size: bv32)     // a display list, run or not
    | Drawn(op: Byte, count: nat, verts: Bytes, list: List)
    | Unknown(op: Byte)

  /** The list a draw came through (g_in_list, g_list_addr). */
  datatype List = Direct | In(addr: bv32)

  datatype State = State(cp: nat -> bv32, xf: nat -> bv32, bp: nat -> bv32, mask: bv32, list: List, log: seq<Event>)

  /** Guest memory as the parser reads it: a list's bytes, and a word. */
  datatype Sources = Sources(bytes: (bv32, nat) -> Bytes, word: bv32 -> bv32)

  ghost predicate SourcesOk(m: Sources) {
    forall addr, n :: |m.bytes(addr, n)| == n
  }

  /** Whose stream it is: live or a capture's, and whether a display list is being read. */
  datatype Mode = Mode(replay: bool, inList: bool)

  // ---- words -------------------------------------------------------------------------

  function Be16(p: Bytes, i: nat): (r: nat)
    requires i + 2 <= |p|
    ensures r <= 0xFFFF
  {
    var hi: nat, lo: nat := p[i], p[i + 1];
    hi * 256 + lo
  }

  function Be32(p: Bytes, i: nat): bv32
    requires i + 4 <= |p|
  {
    ((p[i] as bv32) << 24) | ((p[i + 1] as bv32) << 16) | ((p[i + 2] as bv32) << 8) | (p[i + 3] as bv32)
  }

  // ---- how long a command is -------------------------------------------------------------

  function Bits(v: bv32, lo: nat, mask: bv32): nat
    requires lo < 32
  {
    ((v >> lo) & mask) as nat
  }

  function CompSize(fmt: nat): nat { if fmt == 4 then 4 else if fmt >= 2 then 2 else 1 }

  function ColourSize(comp: nat): nat {
    match comp
    case 0 => 2 case 1 => 3 case 2 => 4 case 3 => 2 case 4 => 3 case _ => 4
  }

  function AttrSize(vcd: nat, direct: nat): nat {
    if vcd == 0 then 0 else if vcd == 1 then direct else if vcd == 2 then 1 else 2
  }

  /** vertex_size: bytes a vertex, from the vertex descriptor and format registers. */
  function VertexSize(cp: nat -> bv32, vat: nat): nat {
    var lo, hi := cp(0x50), cp(0x60);
    var a, b, c := cp(0x70 + vat), cp(0x80 + vat), cp(0x90 + vat);
    Bits(lo, 0, 1) + Ones(lo, 1) + Ones(lo, 2) + Ones(lo, 3) + Ones(lo, 4) + Ones(lo, 5) + Ones(lo, 6) + Ones(lo, 7) + Ones(lo, 8)
    + AttrSize(Bits(lo, 9, 3), (if Bits(a, 0, 1) == 1 then 3 else 2) * CompSize(Bits(a, 1, 7)))
    + NormalSize(Bits(lo, 11, 3), Bits(a, 9, 1) == 1, Bits(a, 31, 1) == 1, Bits(a, 10, 7))
    + AttrSize(Bits(lo, 13, 3), ColourSize(Bits(a, 14, 7)))
    + AttrSize(Bits(lo, 15, 3), ColourSize(Bits(a, 18, 7)))
    + CoordSize(hi, 0, a, 21, 22) + CoordSize(hi, 2, b, 0, 1) + CoordSize(hi, 4, b, 9, 10) + CoordSize(hi, 6, b, 18, 19)
    + CoordSize(hi, 8, b, 27, 28) + CoordSize(hi, 10, c, 5, 6) + CoordSize(hi, 12, c, 14, 15) + CoordSize(hi, 14, c, 23, 24)
  }

  function Ones(v: bv32, bit: nat): nat
    requires bit < 32
  {
    Bits(v, bit, 1)
  }

  /** A normal, or normal, tangent and binormal, which may have an index each. */
  function NormalSize(vcd: nat, three: bool, each: bool, fmt: nat): nat {
    if vcd >= 2 && three && each then 3 * (if vcd == 2 then 1 else 2)
    else AttrSize(vcd, (if three then 9 else 3) * CompSize(fmt))
  }

  function CoordSize(hi: bv32, at: nat, v: bv32, elems: nat, fmt: nat): nat
    requires at < 32 && elems < 32 && fmt < 32
  {
    AttrSize(Bits(hi, at, 3), (if Bits(v, elems, 1) == 1 then 2 else 1) * CompSize(Bits(v, fmt, 7)))
  }

  datatype Size = Short | Whole(n: nat)

  function Fits(n: nat, p: Bytes): Size { if n > |p| then Short else Whole(n) }

  const LIST: Byte := 0x40
  const INLINE_LIST: Byte := 0x41  // in a capture only

  predicate IsList(op: Byte, m: Mode) { op == LIST || (op == INLINE_LIST && m.replay && !m.inList) }

  predicate IsDraw(op: Byte) { 0x80 <= op < 0xC0 }

  function XfSize(p: Bytes): (n: nat)
    requires 5 <= |p|
    ensures 9 <= n
  {
    5 + 4 * (Be16(p, 1) + 1)
  }

  function InlineSize(p: Bytes): (n: nat)
    requires 9 <= |p|
    ensures 9 <= n
  {
    9 + Be32(p, 5) as nat
  }

  function DrawSize(cp: nat -> bv32, p: Bytes): (n: nat)
    requires 3 <= |p|
    ensures 3 <= n
  {
    3 + Times(Be16(p, 1), VertexSize(cp, p[0] % 8))
  }

  /** The bytes that say how long a command is. */
  function Head(op: Byte, m: Mode): (h: nat)
    ensures 1 <= h
  {
    if op == 0x10 then 5 else if IsList(op, m) && op != LIST then 9 else if IsDraw(op) then 3 else 1
  }

  function Total(s: State, p: Bytes, m: Mode): (n: nat)
    requires p != [] && Head(p[0], m) <= |p|
    ensures Head(p[0], m) <= n
  {
    var op := p[0];
    if op == 0x08 then 6
    else if op == 0x10 then XfSize(p)
    else if op == 0x20 || op == 0x28 || op == 0x30 || op == 0x38 then 5
    else if op == LIST then 9
    else if IsList(op, m) then InlineSize(p)
    else if op == 0x61 then 5
    else if IsDraw(op) then DrawSize(s.cp, p)
    else 1  // no operation, or an unknown byte: on to the next
  }

  /** The command p begins with: its length, or Short when p does not hold all of it. */
  function Sized(s: State, p: Bytes, m: Mode): (r: Size)
    requires p != []
    ensures r.Whole? ==> 1 <= r.n <= |p|
  {
    if |p| < Head(p[0], m) then Short else Fits(Total(s, p, m), p)
  }

  // ---- what a command does ----------------------------------------------------------------

  function Words(p: Bytes, at: nat, n: nat): (r: seq<bv32>)
    requires at + 4 * n <= |p|
    ensures |r| == n
  {
    seq(n, i requires 0 <= i < n => Be32(p, at + 4 * i))
  }

  function XfLoaded(s: State, addr: nat, words: seq<bv32>): State {
    s.(xf := (j: nat) => if addr <= j < addr + |words| && j < XF_WORDS then words[j - addr] else s.xf(j),
       log := s.log + [XfLoad(addr, words)])
  }

  /** load_bp: only the bits the mask names change, and the mask then lapses. */
  function BpLoaded(s: State, v: bv32): State {
    var reg := (v >> 24) as nat;
    var w := ((s.bp(reg) & !s.mask) | (v & s.mask)) & 0xFF_FFFF;
    s.(bp := (r: nat) => if r == reg then w else s.bp(r), mask := if reg == 0xFE then w else 0xFF_FFFF,
       log := s.log + [BpLoad(reg, w)])
  }

  /** A read of guest memory fits: the subtraction cannot wrap. */
  predicate InMemory(addr: bv32, n: nat) { n <= MEM1_SIZE && (addr & MEM_MASK) as nat <= MEM1_SIZE - n }

  function WordAt(at: bv32, i: nat): bv32
    requires i < 16
  {
    (at | 0x8000_0000) + 4 * (i as bv32)
  }

  function ArrayAt(s: State, p: Bytes): bv32
    requires |p| >= 5
  {
    var row: nat := if p[0] < 0x20 then 12 else 12 + (p[0] - 0x20) / 8;
    var index := ((p[1] as bv32) << 8) | (p[2] as bv32);
    Item(s.cp(0xA0 + row), index, s.cp(0xB0 + row))
  }

  function Item(base: bv32, index: bv32, stride: bv32): bv32 { (base & 0x1FFF_FFFF) + index * (stride & 0xFF) }

  /** An indexed load: words of an array the registers name. */
  function Indexed(s: State, p: Bytes, src: Sources): State
    requires |p| >= 5
  {
    var v := Be16(p, 3);
    var n := v / 0x1000 + 1;
    var at := ArrayAt(s, p);
    if InMemory(at, 4 * n) then
      XfLoaded(s, v % 0x1000, seq(n, i requires 0 <= i < n => src.word(WordAt(at, i))))
    else s.(log := s.log + [XfLoad(v % 0x1000, [])])
  }

  /** A list's bytes, if the call is carried out: not from inside a list, nor past memory. */
  function Body(c: Bytes, m: Mode, src: Sources): (r: Bytes)
    requires 9 <= |c|
  {
    if m.inList then []
    else if c[0] == INLINE_LIST then c[9..]
    else if InMemory(Be32(c, 1), Be32(c, 5) as nat) then src.bytes(Be32(c, 1), Be32(c, 5) as nat)
    else []
  }

  /** One whole command. */
  function Run(s: State, c: Bytes, m: Mode, src: Sources): State
    requires c != [] && Sized(s, c, m) == Whole(|c|)
    decreases if m.inList then 0 else 2, |c|, 0
  {
    var op := c[0];
    if op == 0x00 || op == 0x48 then s
    else if op == 0x08 then
      s.(cp := (r: nat) => if r == c[1] then Be32(c, 2) else s.cp(r), log := s.log + [CpLoad(c[1], Be32(c, 2))])
    else if op == 0x10 then XfLoaded(s, Be16(c, 3), Words(c, 5, Be16(c, 1) + 1))
    else if op == 0x20 || op == 0x28 || op == 0x30 || op == 0x38 then Indexed(s, c, src)
    else if IsList(op, m) then
      var t := s.(log := s.log + [Called(Be32(c, 1), Be32(c, 5))]);
      if m.inList then t
      else Parse(t.(list := In(Be32(c, 1))), Body(c, m, src), m.(inList := true), src).0.(list := Direct)
    else if op == 0x61 then BpLoaded(s, Be32(c, 1))
    else if IsDraw(op) then s.(log := s.log + [Drawn(op, Be16(c, 1), c[3..], s.list)])
    else s.(log := s.log + [Unknown(op)])
  }

  /** As many whole commands as p holds, and what is left of p. */
  function Parse(s: State, p: Bytes, m: Mode, src: Sources): (r: (State, Bytes))
    ensures r.1 == [] || Sized(r.0, r.1, m) == Short
    ensures |r.1| <= |p| && r.1 == p[|p| - |r.1|..]
    decreases if m.inList then 0 else 2, |p|, 1
  {
    if p == [] then (s, p)
    else
      match Sized(s, p, m)
      case Short => (s, p)
      case Whole(n) =>
        SizedOfPrefix(s, p, m, n);
        Parse(Run(s, p[..n], m, src), p[n..], m, src)
  }

  lemma Regroup<T>(a: seq<T>, b: seq<T>, c: seq<T>)
    ensures (a + b) + c == a + (b + c) && [] + a == a == a + []
  {
  }

  lemma Halves<T>(a: seq<T>, b: seq<T>)
    ensures (a + b)[..|a|] == a && (a + b)[|a|..] == b
  {
  }

  // ---- a command is what its own bytes say ------------------------------------------------

  /** The length is in the first bytes. */
  lemma SizesOfPrefix(cp: nat -> bv32, p: Bytes, q: Bytes)
    requires p <= q
    ensures 3 <= |p| ==> DrawSize(cp, q) == DrawSize(cp, p)
    ensures 5 <= |p| ==> XfSize(q) == XfSize(p)
    ensures 9 <= |p| ==> InlineSize(q) == InlineSize(p)
  {
    hide VertexSize, Times, Be16, Be32;
    if 3 <= |p| {
      HalfSame(p, q);
    }
    if 9 <= |p| {
      WordSame(p, q, 5);
    }
  }

  lemma HalfSame(p: Bytes, q: Bytes)
    requires 3 <= |p| && p <= q
    ensures Be16(p, 1) == Be16(q, 1)
  {
  }

  lemma WordSame(p: Bytes, q: Bytes, i: nat)
    requires i + 4 <= |p| && i + 4 <= |q| && forall j | i <= j < i + 4 :: p[j] == q[j]
    ensures Be32(p, i) == Be32(q, i)
  {
  }

  lemma TotalOfPrefix(s: State, p: Bytes, q: Bytes, m: Mode)
    requires p != [] && p <= q && Head(p[0], m) <= |p|
    ensures Head(q[0], m) <= |q| && Total(s, q, m) == Total(s, p, m)
  {
    SizesOfPrefix(s.cp, p, q);
    hide DrawSize, XfSize, InlineSize;
  }

  /** A whole command's own bytes are enough to see that it is whole. */
  lemma SizedOfPrefix(s: State, p: Bytes, m: Mode, n: nat)
    requires p != [] && Sized(s, p, m) == Whole(n)
    ensures Sized(s, p[..n], m) == Whole(n)
  {
    hide Total, Head;
    TotalOfPrefix(s, p[..n], p, m);
  }

  /** And more bytes after it do not change it. */
  lemma SizedMonotone(s: State, p: Bytes, q: Bytes, m: Mode)
    requires p != [] && Sized(s, p, m).Whole?
    ensures Sized(s, p + q, m) == Sized(s, p, m)
  {
    hide Total, Head;
    TotalOfPrefix(s, p, p + q, m);
  }

  // ---- however the stream is split -----------------------------------------------------------

  lemma ParseStops(s: State, p: Bytes, m: Mode, src: Sources)
    requires p == [] || Sized(s, p, m) == Short
    ensures Parse(s, p, m, src) == (s, p)
  {
    hide Sized, Run;
  }

  lemma ParseStep(s: State, p: Bytes, m: Mode, src: Sources, n: nat)
    requires p != [] && Sized(s, p, m) == Whole(n)
    ensures Sized(s, p[..n], m) == Whole(n)
    ensures Parse(s, p, m, src) == Parse(Run(s, p[..n], m, src), p[n..], m, src)
  {
    SizedOfPrefix(s, p, m, n);
    hide Sized, Run;
  }

  /** Parsing two stretches one after the other, with what the first left unparsed put before
      the second, is parsing them whole. */
  lemma {:induction false} ParseJoins(s: State, p: Bytes, q: Bytes, m: Mode, src: Sources)
    ensures Parse(s, p + q, m, src) == var (t, rest) := Parse(s, p, m, src); Parse(t, rest + q, m, src)
    decreases |p|
  {
    hide Run, Sized, Parse;
    if p == [] || Sized(s, p, m) == Short {
      ParseStops(s, p, m, src);
    } else {
      var n := Sized(s, p, m).n;
      SizedMonotone(s, p, q, m);
      ParseStep(s, p, m, src, n);
      ParseStep(s, p + q, m, src, n);
      assert (p + q)[..n] == p[..n] && (p + q)[n..] == p[n..] + q;
      ParseJoins(Run(s, p[..n], m, src), p[n..], q, m, src);
    }
  }

  /** A stream as it arrives: stores of any sizes. */
  function Joined(stores: seq<Bytes>): Bytes {
    if stores == [] then [] else Joined(stores[..|stores| - 1]) + stores[|stores| - 1]
  }

  /** The pipe: after each store, everything whole is parsed and the rest is kept. */
  function Fed(s: State, stores: seq<Bytes>, m: Mode, src: Sources): (State, Bytes) {
    if stores == [] then (s, [])
    else
      var (t, pipe) := Fed(s, stores[..|stores| - 1], m, src);
      Parse(t, pipe + stores[|stores| - 1], m, src)
  }

  /** The theorem: whatever the split, the same registers, events and unparsed bytes. */
  lemma {:induction false} SplitDoesNotShow(s: State, stores: seq<Bytes>, m: Mode, src: Sources)
    ensures Fed(s, stores, m, src) == Parse(s, Joined(stores), m, src)
  {
    if stores != [] {
      var before, last := stores[..|stores| - 1], stores[|stores| - 1];
      SplitDoesNotShow(s, before, m, src);
      ParseJoins(s, Joined(before), last, m, src);
    }
  }

  /** A display list runs no list of its own: the depth is one at most. */
  lemma NestedCallsOnlyCount(s: State, c: Bytes, m: Mode, src: Sources)
    requires m.inList && 9 <= |c| && c[0] == LIST && Sized(s, c, m) == Whole(|c|)
    ensures Run(s, c, m, src) == s.(log := s.log + [Called(Be32(c, 1), Be32(c, 5))]) && |c| == 9
  {
  }
}
