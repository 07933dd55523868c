/**
  What the command stream does to the registers: after any parse each register holds the value
  of the last event that loaded it, or what it held before; and a masked load changes the bits
  of its mask alone.
 */
module StreamMeaning {
  import opened Arithmetic
  import opened CommandStream
  import opened Capture

  // ---- words as bytes --------------------------------------------------------------------------

  function Word(v: bv32): (b: Bytes)
    ensures |b| == 4
  {
    TopByte(v);
    TopByte(v << 8);
    TopByte(v << 16);
    TopByte(v << 24);
    [(v >> 24) as nat, ((v << 8) >> 24) as nat, ((v << 16) >> 24) as nat, ((v << 24) >> 24) as nat]
  }

  lemma TopByte(v: bv32)
    ensures ((v >> 24) as nat) < 256
  {
    assert v >> 24 <= 255;
  }

  lemma Reassembled(v: bv32)
    ensures ((v >> 24) << 24) | (((v << 8) >> 24) << 16) | (((v << 16) >> 24) << 8) | ((v << 24) >> 24) == v
  {
  }

  lemma NatBack(x: bv32)
    ensures (x as nat) as bv32 == x
  {
  }

  lemma WordBack(v: bv32, p: Bytes, i: nat)
    requires i + 4 <= |p| && p[i..i + 4] == Word(v)
    ensures Be32(p, i) == v
  {
    hide *;
    var b := p[i..i + 4];
    WordBytes(v, b);
    FourItems(p, i);
    FromBytesAt(v, p, i, b[0], b[1], b[2], b[3]);
  }

  lemma FromBytesAt(v: bv32, p: Bytes, i: nat, a: nat, b: nat, c: nat, d: nat)
    requires i + 4 <= |p| && p[i] as nat == a && p[i + 1] as nat == b && p[i + 2] as nat == c && p[i + 3] as nat == d
    requires a == (v >> 24) as nat && b == ((v << 8) >> 24) as nat && c == ((v << 16) >> 24) as nat && d == ((v << 24) >> 24) as nat
    requires a < 256 && b < 256 && c < 256 && d < 256
    ensures Be32(p, i) == v
  {
    hide *;
    FromBytes(v, a, b, c, d);
    BeIs(p, i, a, b, c, d);
  }

  lemma FourItems<T>(p: seq<T>, i: nat)
    requires i + 4 <= |p|
    ensures p[i] == p[i..i + 4][0] && p[i + 1] == p[i..i + 4][1] && p[i + 2] == p[i..i + 4][2] && p[i + 3] == p[i..i + 4][3]
  {
  }

  lemma BeIs(p: Bytes, i: nat, a: nat, b: nat, c: nat, d: nat)
    requires i + 4 <= |p| && p[i] as nat == a && p[i + 1] as nat == b && p[i + 2] as nat == c && p[i + 3] as nat == d
    requires a < 256 && b < 256 && c < 256 && d < 256
    ensures Be32(p, i) == ((a as bv32) << 24) | ((b as bv32) << 16) | ((c as bv32) << 8) | (d as bv32)
  {
  }

  lemma WordBytes(v: bv32, b: Bytes)
    requires b == Word(v)
    ensures |b| == 4 && b[0] as nat == (v >> 24) as nat && b[1] as nat == ((v << 8) >> 24) as nat
    ensures b[2] as nat == ((v << 16) >> 24) as nat && b[3] as nat == ((v << 24) >> 24) as nat
  {
  }

  lemma FromBytes(v: bv32, a: nat, b: nat, c: nat, d: nat)
    requires a == (v >> 24) as nat && b == ((v << 8) >> 24) as nat && c == ((v << 16) >> 24) as nat && d == ((v << 24) >> 24) as nat
    requires a < 256 && b < 256 && c < 256 && d < 256
    ensures ((a as bv32) << 24) | ((b as bv32) << 16) | ((c as bv32) << 8) | (d as bv32) == v
  {
    NatBack(v >> 24);
    NatBack((v << 8) >> 24);
    NatBack((v << 16) >> 24);
    NatBack((v << 24) >> 24);
    Reassembled(v);
  }

  // ---- registers hold the last load told --------------------------------------------------------

  /** What register `reg` holds after the events past the first `from`, having held `was`. */
  function LastCp(log: seq<Event>, from: nat, reg: nat, was: bv32): bv32 {
    if |log| <= from then was
    else
      var e := log[|log| - 1];
      if e.CpLoad? && e.reg == reg then e.v else LastCp(log[..|log| - 1], from, reg, was)
  }

  function LastXf(log: seq<Event>, from: nat, j: nat, was: bv32): bv32 {
    if |log| <= from then was
    else
      var e := log[|log| - 1];
      if e.XfLoad? && e.at <= j < e.at + |e.words| && j < XF_WORDS then e.words[j - e.at] else LastXf(log[..|log| - 1], from, j, was)
  }

  function LastBp(log: seq<Event>, from: nat, reg: nat, was: bv32): bv32 {
    if |log| <= from then was
    else
      var e := log[|log| - 1];
      if e.BpLoad? && e.reg == reg then e.v else LastBp(log[..|log| - 1], from, reg, was)
  }

  /** The mask a load of register 0xFE sets, for the next load alone. */
  function LastMask(log: seq<Event>, from: nat, was: bv32): bv32 {
    if |log| <= from then was
    else
      var e := log[|log| - 1];
      if e.BpLoad? then (if e.reg == 0xFE then e.v else 0xFF_FFFF) else LastMask(log[..|log| - 1], from, was)
  }

  ghost predicate Follows(s: State, t: State) {
    && s.log <= t.log
    && (forall r: nat :: t.cp(r) == LastCp(t.log, |s.log|, r, s.cp(r)))
    && (forall j: nat :: t.xf(j) == LastXf(t.log, |s.log|, j, s.xf(j)))
    && (forall r: nat :: t.bp(r) == LastBp(t.log, |s.log|, r, s.bp(r)))
    && t.mask == LastMask(t.log, |s.log|, s.mask)
  }

  lemma FollowsItself(s: State)
    ensures Follows(s, s)
  {
  }

  lemma MoreLog(log: seq<Event>, e: Event)
    ensures (log + [e])[|log + [e]| - 1] == e && (log + [e])[..|log + [e]| - 1] == log
  {
  }

  lemma FollowsCp(s: State, t: State, reg: nat, v: bv32)
    requires Follows(s, t)
    ensures Follows(s, t.(cp := (r: nat) => if r == reg then v else t.cp(r), log := t.log + [CpLoad(reg, v)]))
  {
    MoreLog(t.log, CpLoad(reg, v));
  }

  lemma FollowsXf(s: State, t: State, at: nat, words: seq<bv32>)
    requires Follows(s, t)
    ensures Follows(s, XfLoaded(t, at, words))
  {
    MoreLog(t.log, XfLoad(at, words));
  }

  lemma FollowsNothing(s: State, t: State, at: nat)
    requires Follows(s, t)
    ensures Follows(s, t.(log := t.log + [XfLoad(at, [])]))
  {
    MoreLog(t.log, XfLoad(at, []));
  }

  lemma FollowsBpValue(s: State, t: State, u: State, reg: nat, w: bv32)
    requires Follows(s, t) && u.log == t.log + [BpLoad(reg, w)] && u.cp == t.cp && u.xf == t.xf
    requires (forall r: nat :: u.bp(r) == if r == reg then w else t.bp(r)) && u.mask == if reg == 0xFE then w else 0xFF_FFFF
    ensures Follows(s, u)
  {
    MoreLog(t.log, BpLoad(reg, w));
  }

  lemma FollowsBp(s: State, t: State, v: bv32)
    requires Follows(s, t)
    ensures Follows(s, BpLoaded(t, v))
  {
    var reg := (v >> 24) as nat;
    BpValue(t, v, reg);
    hide *;
    FollowsBpValue(s, t, BpLoaded(t, v), reg, BpLoaded(t, v).bp(reg));
  }

  lemma BpValue(t: State, v: bv32, reg: nat)
    requires reg == (v >> 24) as nat
    ensures var u := BpLoaded(t, v);
            var w := u.bp(reg);
            && u.log == t.log + [BpLoad(reg, w)] && u.cp == t.cp && u.xf == t.xf
            && (forall r: nat :: u.bp(r) == if r == reg then w else t.bp(r)) && u.mask == if reg == 0xFE then w else 0xFF_FFFF
  {
  }

  lemma FollowsTold(s: State, t: State, e: Event, list: List)
    requires Follows(s, t) && !e.CpLoad? && !e.XfLoad? && !e.BpLoad?
    ensures Follows(s, t.(log := t.log + [e], list := list))
  {
    MoreLog(t.log, e);
  }

  lemma RunFollows(s: State, t: State, c: Bytes, m: Mode, src: Sources)
    requires Follows(s, t) && c != [] && Sized(t, c, m) == Whole(|c|)
    ensures Follows(s, Run(t, c, m, src))
    decreases if m.inList then 0 else 2, |c|, 0
  {
    hide Follows, Sized, Parse, Body, Be32, Be16, Words, InMemory, ArrayAt, WordAt, DrawSize, XfSize, InlineSize, XfLoaded, BpLoaded;
    var op := c[0];
    if op == 0x00 || op == 0x48 {
    } else if op == 0x08 {
      CpLength(t, c, m);
      FollowsCp(s, t, c[1], Be32(c, 2));
    } else if op == 0x10 {
      XfLength(t, c, m);
      FollowsXf(s, t, Be16(c, 3), Words(c, 5, Be16(c, 1) + 1));
    } else if IsIndexed(op) {
      IndexedFollows(s, t, c, m, src);
    } else if IsList(op, m) {
      NineBytes(t, c, m);
      FollowsTold(s, t, Called(Be32(c, 1), Be32(c, 5)), if m.inList then t.list else In(Be32(c, 1)));
      if !m.inList {
        CallRuns(t, c, m, src);
        ParseFollows(s, CalledAs(t, c), Body(c, m, src), m.(inList := true), src);
        FollowsList(s, Parse(CalledAs(t, c), Body(c, m, src), m.(inList := true), src).0, Direct);
      }
    } else if op == 0x61 {
      BpLength(t, c, m);
      FollowsBp(s, t, Be32(c, 1));
    } else if IsDraw(op) {
      DrawLength(t, c, m);
      FollowsTold(s, t, Drawn(op, Be16(c, 1), c[3..], t.list), t.list);
    } else {
      FollowsTold(s, t, Unknown(op), t.list);
    }
  }

  lemma FollowsList(s: State, t: State, list: List)
    requires Follows(s, t)
    ensures Follows(s, t.(list := list))
  {
  }

  lemma CpLength(s: State, c: Bytes, m: Mode)
    requires c != [] && Sized(s, c, m) == Whole(|c|) && c[0] == 0x08
    ensures |c| == 6
  {
  }

  lemma BpLength(s: State, c: Bytes, m: Mode)
    requires c != [] && Sized(s, c, m) == Whole(|c|) && c[0] == 0x61
    ensures |c| == 5
  {
  }

  lemma XfLength(s: State, c: Bytes, m: Mode)
    requires c != [] && Sized(s, c, m) == Whole(|c|) && c[0] == 0x10
    ensures 5 <= |c| == 5 + 4 * (Be16(c, 1) + 1)
  {
    hide Be16;
  }

  lemma DrawLength(s: State, c: Bytes, m: Mode)
    requires c != [] && Sized(s, c, m) == Whole(|c|) && IsDraw(c[0])
    ensures 3 <= |c|
  {
    hide DrawSize;
  }

  lemma IndexedFollows(s: State, t: State, c: Bytes, m: Mode, src: Sources)
    requires Follows(s, t) && c != [] && Sized(t, c, m) == Whole(|c|) && IsIndexed(c[0])
    ensures 5 <= |c| && Follows(s, Indexed(t, c, src))
  {
    hide Follows, Be16, InMemory, ArrayAt, WordAt, XfLoaded;
    var v := Be16(c, 3);
    FollowsXf(s, t, v % 0x1000, seq(v / 0x1000 + 1, i requires 0 <= i < v / 0x1000 + 1 => src.word(WordAt(ArrayAt(t, c), i))));
    FollowsNothing(s, t, v % 0x1000);
  }

  lemma {:induction false} ParseFollows(s: State, t: State, p: Bytes, m: Mode, src: Sources)
    requires Follows(s, t)
    ensures Follows(s, Parse(t, p, m, src).0)
    decreases if m.inList then 0 else 2, |p|, 1
  {
    hide Follows, Sized, Run, Parse;
    if p == [] || Sized(t, p, m) == Short {
      ParseStops(t, p, m, src);
    } else {
      var n := Sized(t, p, m).n;
      ParseStep(t, p, m, src, n);
      RunFollows(s, t, p[..n], m, src);
      ParseFollows(s, Run(t, p[..n], m, src), p[n..], m, src);
    }
  }

  /** The theorem: after a parse, a register holds what its last load told, or what it held. */
  lemma RegistersFollow(s: State, p: Bytes, m: Mode, src: Sources)
    ensures Follows(s, Parse(s, p, m, src).0)
  {
    hide *;
    FollowsItself(s);
    ParseFollows(s, s, p, m, src);
  }

  /** Of 24 bits, those of the mask from v and the others from `was`. */
  predicate TakesBits(w: bv32, was: bv32, m: bv32, v: bv32) {
    w & m & 0xFF_FFFF == v & m & 0xFF_FFFF && w & !m & 0xFF_FFFF == was & !m & 0xFF_FFFF
  }

  lemma OneLoad(s: State, v: bv32, reg: nat)
    requires reg == (v >> 24) as nat
    ensures var t := BpLoaded(s, v);
            && t.bp(reg) == ((s.bp(reg) & !s.mask) | (v & s.mask)) & 0xFF_FFFF
            && t.mask == (if reg == 0xFE then t.bp(reg) else 0xFF_FFFF)
            && forall r: nat | r != reg :: t.bp(r) == s.bp(r)
  {
  }

  /** A masked load changes the bits of the mask and no other, and the load after it is whole. */
  lemma MaskedLoad(s: State, m: bv32, v: bv32)
    requires m >> 24 == 0xFE && s.mask == 0xFF_FFFF && v >> 24 != 0xFE
    ensures var reg := (v >> 24) as nat;
            var t := BpLoaded(BpLoaded(s, m), v);
            && t.mask == 0xFF_FFFF && TakesBits(t.bp(reg), s.bp(reg), m, v)
            && forall r: nat | r != reg && r != 0xFE :: t.bp(r) == s.bp(r)
  {
    hide *;
    var reg := (v >> 24) as nat;
    MaskedIs(s, m, v, reg);
  }

  lemma MaskedIs(s: State, m: bv32, v: bv32, reg: nat)
    requires m >> 24 == 0xFE && s.mask == 0xFF_FFFF && v >> 24 != 0xFE && reg == (v >> 24) as nat
    ensures var t := BpLoaded(BpLoaded(s, m), v);
            && t.mask == 0xFF_FFFF
            && TakesBits(t.bp(reg), s.bp(reg), m, v)
            && forall r: nat | r != reg && r != 0xFE :: t.bp(r) == s.bp(r)
  {
    hide *;
    NatsApart(v >> 24);
    MaskReg(m);
    OneLoad(s, m, 0xFE);
    WholeMask(s.bp(0xFE), m);
    OneLoad(BpLoaded(s, m), v, reg);
    Merged(BpLoaded(BpLoaded(s, m), v).bp(reg), s.bp(reg), m, v);
  }

  lemma MaskReg(m: bv32)
    requires m >> 24 == 0xFE
    ensures (m >> 24) as nat == 0xFE
  {
  }

  lemma WholeMask(was: bv32, m: bv32)
    ensures ((was & !0xFF_FFFF) | (m & 0xFF_FFFF)) & 0xFF_FFFF == m & 0xFF_FFFF
  {
  }

  lemma NatsApart(x: bv32)
    requires x != 0xFE
    ensures (x as nat) != 0xFE
  {
    NatBack(x);
  }

  lemma Merged(w: bv32, was: bv32, m: bv32, v: bv32)
    requires w == ((was & !(m & 0xFF_FFFF)) | (v & (m & 0xFF_FFFF))) & 0xFF_FFFF
    ensures TakesBits(w, was, m, v)
  {
    hide *;
    MergedBits(was, m, v);
  }

  lemma MergedBits(was: bv32, m: bv32, v: bv32)
    ensures TakesBits(((was & !(m & 0xFF_FFFF)) | (v & (m & 0xFF_FFFF))) & 0xFF_FFFF, was, m, v)
  {
  }
}
