/**
  What a stage of the combiner computes, said without its table of operands or its formula: each
  selector names a register, the texel, the raster colour, a constant or a number; a blend is the
  nearest whole number to the weighted mean; and what it is added to, scaled and held to a range
  are relations between numbers. Proved: every stage, and so every pixel, is what they say, and
  they leave no choice.
 */
module CombinerMeaning {
  import opened Combiner

  // ---- what a stage reads ----------------------------------------------------------------------

  /** Registers of red, green, blue, alpha: the first is the output. */
  datatype Machine = Machine(reg: seq<seq<int>>, texel: seq<int>, raster: seq<int>)

  predicate MachineOk(m: Machine) {
    |m.reg| == |m.texel| == |m.raster| == 4 && forall i | 0 <= i < 4 :: |m.reg[i]| == 4
  }

  function Four(b: Bank, at: nat): (v: seq<int>)
    requires at + 4 <= BANK_SIZE
    ensures |v| == 4
  {
    [b[at], b[at + 1], b[at + 2], b[at + 3]]
  }

  function MachineOf(b: Bank): (m: Machine)
    ensures MachineOk(m)
  {
    Machine([Four(b, 0), Four(b, 4), Four(b, 8), Four(b, 12)], Four(b, 16), Four(b, 20))
  }

  datatype Operand = Register(r: nat, channel: nat) | Texel(channel: nat) | Raster(channel: nat) | Constant(channel: nat) | Number(n: int)

  /** A colour selector, for channel i: the colours and alphas by turns, then the numbers. */
  function ColourOperand(sel: nat, i: nat): Operand {
    var channel := if sel % 2 == 0 then i else 3;
    if sel < 8 then Register(sel / 2, channel)
    else if sel < 10 then Texel(channel)
    else if sel < 12 then Raster(channel)
    else if sel == 12 then Number(255)
    else if sel == 13 then Number(128)
    else if sel == 14 then Constant(i)
    else Number(0)
  }

  function AlphaOperand(sel: nat): Operand {
    if sel < 4 then Register(sel, 3)
    else if sel == 4 then Texel(3)
    else if sel == 5 then Raster(3)
    else if sel == 6 then Constant(3)
    else Number(0)
  }

  function Value(o: Operand, m: Machine, konst: Colour): int
    requires MachineOk(m)
  {
    match o
    case Register(r, i) => if r < 4 && i < 4 then m.reg[r][i] else 0
    case Texel(i) => if i < 4 then m.texel[i] else 0
    case Raster(i) => if i < 4 then m.raster[i] else 0
    case Constant(i) => if i < 4 then konst[i] else 0
    case Number(n) => n
  }

  // ---- what it makes of them -------------------------------------------------------------------

  /** v is the whole number nearest the mean of a and b, b weighing c in 255, a half going up. */
  predicate Blends(a: int, b: int, c: int, v: int) {
    var w := if c < 128 then c else c + 1;
    256 * v - 128 <= a * (256 - w) + b * w < 256 * v + 128
  }

  /** Once, twice, four times, or half of it rounded down. */
  predicate Scales(shift: nat, u: int, q: int) {
    if shift == 1 then q == u + u
    else if shift == 2 then q == u + u + u + u
    else if shift == 3 then 2 * q <= u <= 2 * q + 1
    else q == u
  }

  /** r is q held to a byte, or to eleven signed bits. */
  predicate Held(byte: bool, q: int, r: int) {
    var lo, hi := if byte then 0 else -1024, if byte then 255 else 1023;
    r == q || (q < lo && r == lo) || (hi < q && r == hi)
  }

  predicate HeldTo(byte: bool, q: int, r: int) {
    Held(byte, q, r) && (if byte then 0 <= r <= 255 else -1024 <= r <= 1023)
  }

  function Offset(bias: nat): int { if bias == 1 then 128 else if bias == 2 then -128 else 0 }

  /** A channel: of its operands, and in a comparing stage of whether the comparison hits. */
  ghost predicate ChannelIs(e: ColourEnv, a: int, b: int, c: int, d: int, hits: bool, r: int) {
    if e.bias == 3 then HeldTo(e.clamp, if hits then d + c else d, r)
    else exists v, q :: Blends(a % 256, b % 256, c % 256, v)
                        && Scales(e.shift, (if e.op == 1 then d - v else d + v) + Offset(e.bias), q) && HeldTo(e.clamp, q, r)
  }

  /** x is above y, the last channel weighing most. */
  predicate Above(x: seq<int>, y: seq<int>)
    requires |x| == |y|
  {
    x != [] && (x[|x| - 1] > y[|y| - 1] || (x[|x| - 1] == y[|y| - 1] && Above(x[..|x| - 1], y[..|y| - 1])))
  }

  /** Red alone, green and red, all three, or each channel for itself. */
  function Compared(shift: nat, v: seq<int>, i: nat): seq<int>
    requires |v| == 3 && i < 3
  {
    if shift < 3 then v[..shift + 1] else [v[i]]
  }

  predicate Hits(e: ColourEnv, a: seq<int>, b: seq<int>, i: nat)
    requires |a| == 3 && |b| == 3 && i < 3
  {
    var x, y := Compared(e.shift, a, i), Compared(e.shift, b, i);
    if e.op == 1 then x == y else Above(x, y)
  }

  function Bytes(sel: nat, m: Machine, konst: Colour): (v: seq<int>)
    requires MachineOk(m)
    ensures |v| == 3
  {
    [Value(ColourOperand(sel, 0), m, konst) % 256, Value(ColourOperand(sel, 1), m, konst) % 256, Value(ColourOperand(sel, 2), m, konst) % 256]
  }

  ghost predicate ColourIs(s: Stage, m: Machine, i: nat, r: int)
    requires MachineOk(m) && i < 3
  {
    var e := s.colour;
    ChannelIs(e, Value(ColourOperand(e.a, i), m, s.konst), Value(ColourOperand(e.b, i), m, s.konst),
              Value(ColourOperand(e.c, i), m, s.konst), Value(ColourOperand(e.d, i), m, s.konst),
              Hits(e, Bytes(e.a, m, s.konst), Bytes(e.b, m, s.konst), i), r)
  }

  ghost predicate AlphaIs(s: Stage, m: Machine, r: int)
    requires MachineOk(m)
  {
    var e := s.alpha;
    var a, b := Value(AlphaOperand(e.a), m, s.konst), Value(AlphaOperand(e.b), m, s.konst);
    ChannelIs(e, a, b, Value(AlphaOperand(e.c), m, s.konst), Value(AlphaOperand(e.d), m, s.konst),
              if e.op == 1 then a % 256 == b % 256 else a % 256 > b % 256, r)
  }

  /** The texel and raster colour a stage combines, its channels swapped; a stage without one
      keeps the stage before's. */
  function Fetched(m: Machine, s: Stage, ras: seq<Colour>, sample: Sampler): (r: Machine)
    requires MachineOk(m) && |ras| == 2
    ensures MachineOk(r)
  {
    var t := sample(s.texmap, s.texcoord);
    m.(texel := if s.texen then [t[s.tswap[0]], t[s.tswap[1]], t[s.tswap[2]], t[s.tswap[3]]] else m.texel,
       raster := if s.chan < 2 then
                   [ras[s.chan][s.rswap[0]], ras[s.chan][s.rswap[1]], ras[s.chan][s.rswap[2]], ras[s.chan][s.rswap[3]]]
                 else m.raster)
  }

  /** A stage: three colour channels into one register, and then an alpha, which may read them. */
  ghost predicate StageGives(s: Stage, m: Machine, ras: seq<Colour>, sample: Sampler, m': Machine)
    requires MachineOk(m) && |ras| == 2 && StageOk(s)
  {
    var f, cd, ad := Fetched(m, s, ras, sample), s.colour.dest, s.alpha.dest;
    && MachineOk(m')
    && ColourIs(s, f, 0, m'.reg[cd][0]) && ColourIs(s, f, 1, m'.reg[cd][1]) && ColourIs(s, f, 2, m'.reg[cd][2])
    && var c := f.(reg := f.reg[cd := [m'.reg[cd][0], m'.reg[cd][1], m'.reg[cd][2], f.reg[cd][3]]]);
       AlphaIs(s, c, m'.reg[ad][3]) && m' == c.(reg := c.reg[ad := c.reg[ad][3 := m'.reg[ad][3]]])
  }

  // ---- selectors -----------------------------------------------------------------------------

  predicate Numbers(b: Bank) { b[BANK_ONE] == 255 && b[BANK_HALF] == 128 && b[BANK_ZERO] == 0 }

  /** The bank holds the constants a stage reads. */
  predicate Konst(b: Bank, konst: Colour) { forall i | 0 <= i < 4 :: b[BANK_KONST + i] == konst[i] }

  lemma ColourSelected(b: Bank, konst: Colour, sel: nat, i: nat)
    requires Numbers(b) && Konst(b, konst) && i < 3
    ensures b[ColourIndex(sel, i)] == Value(ColourOperand(sel, i), MachineOf(b), konst)
  {
  }

  lemma AlphaSelected(b: Bank, konst: Colour, sel: nat)
    requires Numbers(b) && Konst(b, konst)
    ensures b[AlphaIndex(sel)] == Value(AlphaOperand(sel), MachineOf(b), konst)
  {
  }

  // ---- channels ---------------------------------------------------------------------------------

  lemma Blended(a: int, b: int, c: int)
    ensures Blends(Byte(a), Byte(b), Byte(c), Blend(Byte(a), Byte(b), Byte(c)))
  {
    var x, y, z := Byte(a), Byte(b), Byte(c);
    assert Weight(z) == if z < 128 then z else z + 1;
    hide Byte;
  }

  lemma RegularIs(e: ColourEnv, a: int, b: int, c: int, d: int, hits: bool)
    requires e.bias != 3
    ensures ChannelIs(e, a, b, c, d, hits, Regular(e, a, b, c, d))
  {
    Blended(a, b, c);
    var v := Blend(Byte(a), Byte(b), Byte(c));
    var u := (if e.op == 1 then d - v else d + v) + Offset(e.bias);
    hide Blend;
    assert Scales(e.shift, u, Shifted(e.shift, u));
    assert HeldTo(e.clamp, Shifted(e.shift, u), Regular(e, a, b, c, d));
    hide Blends;
  }

  lemma JoinedIs(e: ColourEnv, a: seq<int>, b: seq<int>, i: nat)
    requires |a| == 3 && |b| == 3 && i < 3
    ensures var x, y := [Byte(a[0]), Byte(a[1]), Byte(a[2])], [Byte(b[0]), Byte(b[1]), Byte(b[2])];
            Hits(e, x, y, i) <==>
            if e.op == 1 then Joined(a, e.shift, i) == Joined(b, e.shift, i) else Joined(a, e.shift, i) > Joined(b, e.shift, i)
  {
    var x, y := [Byte(a[0]), Byte(a[1]), Byte(a[2])], [Byte(b[0]), Byte(b[1]), Byte(b[2])];
    hide Byte, Above;
    if e.shift == 0 {
      assert x[..1] == [x[0]] && y[..1] == [y[0]];
      OneAbove(x[0], y[0]);
    } else if e.shift == 1 {
      assert x[..2] == [x[0], x[1]] && y[..2] == [y[0], y[1]];
      TwoAbove(x[0], x[1], y[0], y[1]);
    } else if e.shift == 2 {
      assert x[..3] == x && y[..3] == y;
      ThreeAbove(x[0], x[1], x[2], y[0], y[1], y[2]);
    } else {
      OneAbove(x[i], y[i]);
    }
  }

  lemma OneAbove(x: int, y: int)
    ensures Above([x], [y]) <==> x > y
  {
    assert [x][..0] == [] == [y][..0];
  }

  lemma TwoAbove(x: int, x': int, y: int, y': int)
    requires 0 <= x < 256 && 0 <= y < 256
    ensures Above([x, x'], [y, y']) <==> x' * 256 + x > y' * 256 + y
  {
    assert [x, x'][..1] == [x] && [y, y'][..1] == [y];
    OneAbove(x, y);
  }

  lemma ThreeAbove(x: int, x': int, x'': int, y: int, y': int, y'': int)
    requires 0 <= x < 256 && 0 <= y < 256 && 0 <= x' < 256 && 0 <= y' < 256
    ensures Above([x, x', x''], [y, y', y'']) <==> x'' * 0x1_0000 + x' * 256 + x > y'' * 0x1_0000 + y' * 256 + y
  {
    assert [x, x', x''][..2] == [x, x'] && [y, y', y''][..2] == [y, y'];
    TwoAbove(x, x', y, y');
  }

  lemma ColourIsGiven(b: Bank, s: Stage, i: nat)
    requires Numbers(b) && Konst(b, s.konst) && i < 3
    ensures ColourIs(s, MachineOf(b), i, ColourOf(b, s.colour, i))
  {
    var e, m := s.colour, MachineOf(b);
    hide Value, ColourOperand, MachineOf, ColourIndex, Byte, Hits, Joined, Regular, ChannelIs;
    ColourSelected(b, s.konst, e.a, i);
    ColourSelected(b, s.konst, e.b, i);
    ColourSelected(b, s.konst, e.c, i);
    ColourSelected(b, s.konst, e.d, i);
    var x, y := b[ColourIndex(e.a, i)], b[ColourIndex(e.b, i)];
    if e.bias != 3 {
      RegularIs(e, x, y, b[ColourIndex(e.c, i)], b[ColourIndex(e.d, i)], Hits(e, Bytes(e.a, m, s.konst), Bytes(e.b, m, s.konst), i));
    } else {
      ChoiceIs(b, s, i);
      ComparedIs(e, x, y, b[ColourIndex(e.c, i)], b[ColourIndex(e.d, i)], Chosen(b, e, i));
    }
  }

  lemma ComparedIs(e: ColourEnv, a: int, b: int, c: int, d: int, hits: bool)
    requires e.bias == 3
    ensures ChannelIs(e, a, b, c, d, hits, Clamped(e.clamp, (if hits then c else 0) + d))
  {
  }

  lemma ChoiceIs(b: Bank, s: Stage, i: nat)
    requires Numbers(b) && Konst(b, s.konst) && i < 3
    ensures var e, m := s.colour, MachineOf(b); Chosen(b, e, i) <==> Hits(e, Bytes(e.a, m, s.konst), Bytes(e.b, m, s.konst), i)
  {
    var e, m := s.colour, MachineOf(b);
    hide Value, ColourOperand, MachineOf, ColourIndex, Hits, Joined;
    forall k | 0 <= k < 3
      ensures b[ColourIndex(e.a, k)] == Value(ColourOperand(e.a, k), m, s.konst) && b[ColourIndex(e.b, k)] == Value(ColourOperand(e.b, k), m, s.konst)
    {
      ColourSelected(b, s.konst, e.a, k);
      ColourSelected(b, s.konst, e.b, k);
    }
    JoinedIs(e, Gather(b, e.a), Gather(b, e.b), i);
  }

  lemma AlphaIsGiven(b: Bank, s: Stage)
    requires Numbers(b) && Konst(b, s.konst)
    ensures AlphaIs(s, MachineOf(b), AlphaOf(b, s.alpha))
  {
    var e := s.alpha;
    hide Value, AlphaOperand, MachineOf, AlphaIndex, Regular, ChannelIs;
    AlphaSelected(b, s.konst, e.a);
    AlphaSelected(b, s.konst, e.b);
    AlphaSelected(b, s.konst, e.c);
    AlphaSelected(b, s.konst, e.d);
    var x, y, c, d := b[AlphaIndex(e.a)], b[AlphaIndex(e.b)], b[AlphaIndex(e.c)], b[AlphaIndex(e.d)];
    var hits := if e.op == 1 then Byte(x) == Byte(y) else Byte(x) > Byte(y);
    if e.bias != 3 {
      RegularIs(e, x, y, c, d, hits);
    } else {
      ComparedIs(e, x, y, c, d, hits);
    }
  }

  // ---- stages ----------------------------------------------------------------------------------

  lemma FetchedIs(b: Bank, s: Stage, ras: seq<Colour>, sample: Sampler)
    requires |ras| == 2 && Numbers(b)
    ensures var l := Loaded(b, s, ras, sample);
            MachineOf(l) == Fetched(MachineOf(b), s, ras, sample) && Numbers(l) && Konst(l, s.konst)
  {
  }

  lemma ColourStored(b: Bank, dest: nat, r: int, g: int, u: int)
    requires dest < 4
    ensures var c: Bank := b[dest * 4 := r][dest * 4 + 1 := g][dest * 4 + 2 := u];
            var m := MachineOf(b);
            && m.reg[dest][3] == b[4 * dest + 3]
            && MachineOf(c) == m.(reg := m.reg[dest := [r, g, u, m.reg[dest][3]]])
            && (forall j | 16 <= j < BANK_SIZE :: c[j] == b[j])
  {
    var c: Bank := b[dest * 4 := r][dest * 4 + 1 := g][dest * 4 + 2 := u];
    forall k: nat | k < 4
      ensures Four(c, 4 * k) == if k == dest then [r, g, u, b[4 * k + 3]] else Four(b, 4 * k)
    {
    }
    assert MachineOf(c).reg == [Four(c, 4 * 0), Four(c, 4 * 1), Four(c, 4 * 2), Four(c, 4 * 3)];
    assert MachineOf(b).reg == [Four(b, 4 * 0), Four(b, 4 * 1), Four(b, 4 * 2), Four(b, 4 * 3)];
    hide Four;
    assert forall k: nat | k < 4 :: MachineOf(c).reg[k] == MachineOf(b).reg[dest := [r, g, u, b[4 * dest + 3]]][k];
  }

  lemma AlphaStored(b: Bank, dest: nat, a: int)
    requires dest < 4
    ensures var c: Bank := b[dest * 4 + 3 := a];
            var m := MachineOf(b);
            && MachineOf(c) == m.(reg := m.reg[dest := m.reg[dest][3 := a]])
            && (forall j | 16 <= j < BANK_SIZE :: c[j] == b[j])
  {
    var c: Bank := b[dest * 4 + 3 := a];
    forall k: nat | k < 4
      ensures Four(c, 4 * k) == if k == dest then Four(b, 4 * k)[3 := a] else Four(b, 4 * k)
    {
    }
    assert MachineOf(c).reg == [Four(c, 4 * 0), Four(c, 4 * 1), Four(c, 4 * 2), Four(c, 4 * 3)];
    assert MachineOf(b).reg == [Four(b, 4 * 0), Four(b, 4 * 1), Four(b, 4 * 2), Four(b, 4 * 3)];
    hide Four;
    assert forall k: nat | k < 4 :: MachineOf(c).reg[k] == MachineOf(b).reg[dest := MachineOf(b).reg[dest][3 := a]][k];
  }

  /** A stage does to the bank what it says. */
  lemma StageMeans(b: Bank, s: Stage, ras: seq<Colour>, sample: Sampler)
    requires |ras| == 2 && StageOk(s) && Numbers(b)
    ensures StageGives(s, MachineOf(b), ras, sample, MachineOf(RunStage(b, s, ras, sample)))
    ensures Numbers(RunStage(b, s, ras, sample))
  {
    hide *;
    var l := Loaded(b, s, ras, sample);
    FetchedIs(b, s, ras, sample);
    Dests(s);
    var o := s.colour.dest * 4;
    var r, g, u := ColourOf(l, s.colour, 0), ColourOf(l, s.colour, 1), ColourOf(l, s.colour, 2);
    var c: Bank := l[o := r][o + 1 := g][o + 2 := u];
    ColourIsGiven(l, s, 0);
    ColourIsGiven(l, s, 1);
    ColourIsGiven(l, s, 2);
    ColourStored(l, s.colour.dest, r, g, u);
    NumbersStay(l, c, s.konst);
    AlphaIsGiven(c, s);
    AlphaStored(c, s.alpha.dest, AlphaOf(c, s.alpha));
    StageSteps(b, s, ras, sample, l, c);
    NumbersStay(c, RunStage(b, s, ras, sample), s.konst);
    Gives(s, MachineOf(b), ras, sample, r, g, u, AlphaOf(c, s.alpha));
  }

  lemma Dests(s: Stage)
    requires StageOk(s)
    ensures s.colour.dest < 4 && s.alpha.dest < 4 && BANK_SIZE == 32
  {
  }

  lemma NumbersStay(b: Bank, c: Bank, konst: Colour)
    requires Numbers(b) && Konst(b, konst) && forall j | 16 <= j < BANK_SIZE :: c[j] == b[j]
    ensures Numbers(c) && Konst(c, konst)
  {
  }

  /** The registers, put together. */
  lemma Gives(s: Stage, m: Machine, ras: seq<Colour>, sample: Sampler, r: int, g: int, u: int, a: int)
    requires MachineOk(m) && |ras| == 2 && StageOk(s)
    requires var f := Fetched(m, s, ras, sample); ColourIs(s, f, 0, r) && ColourIs(s, f, 1, g) && ColourIs(s, f, 2, u)
    requires var f := Fetched(m, s, ras, sample);
             var c := f.(reg := f.reg[s.colour.dest := [r, g, u, f.reg[s.colour.dest][3]]]); AlphaIs(s, c, a)
    ensures var f := Fetched(m, s, ras, sample);
            var c := f.(reg := f.reg[s.colour.dest := [r, g, u, f.reg[s.colour.dest][3]]]);
            StageGives(s, m, ras, sample, c.(reg := c.reg[s.alpha.dest := c.reg[s.alpha.dest][3 := a]]))
  {
    hide ColourIs, AlphaIs, Fetched;
  }

  // ---- pixels ------------------------------------------------------------------------------------

  /** The registers as loaded for the draw, no texel and no raster colour. */
  function Begun(t: Setup): (m: Machine)
    requires SetupOk(t)
    ensures MachineOk(m)
  {
    Machine([t.reg[0..4], t.reg[4..8], t.reg[8..12], t.reg[12..16]], [0, 0, 0, 0], [0, 0, 0, 0])
  }

  /** A run of the stages, in order, from the setup's registers. */
  ghost predicate Stages(t: Setup, ras: seq<Colour>, sample: Sampler, ms: seq<Machine>)
    requires SetupOk(t) && |ras| == 2
  {
    && |ms| == |t.st| + 1 && ms[0] == Begun(t)
    && (forall i | 0 <= i < |ms| :: MachineOk(ms[i]))
    && forall i | 0 <= i < |t.st| :: StageGives(t.st[i], ms[i], ras, sample, ms[i + 1])
  }

  lemma BegunIs(t: Setup)
    requires SetupOk(t)
    ensures MachineOf(Start(t)) == Begun(t) && Numbers(Start(t))
  {
    RegIs(t.reg, Start(t), 0);
    RegIs(t.reg, Start(t), 4);
    RegIs(t.reg, Start(t), 8);
    RegIs(t.reg, Start(t), 12);
  }

  lemma RegIs(reg: seq<int>, b: Bank, at: nat)
    requires |reg| == 16 && at + 4 <= 16 && forall j | 0 <= j < 16 :: b[j] == reg[j]
    ensures reg[at..at + 4] == Four(b, at)
  {
  }

  lemma {:induction false} StagesRun(t: Setup, ras: seq<Colour>, sample: Sampler, n: nat) returns (ms: seq<Machine>)
    requires SetupOk(t) && |ras| == 2 && n <= |t.st|
    ensures |ms| == n + 1 && ms[0] == Begun(t) && forall i | 0 <= i <= n :: MachineOk(ms[i])
    ensures forall i | 0 <= i < n :: StageGives(t.st[i], ms[i], ras, sample, ms[i + 1])
    ensures var b := RunStages(Start(t), t.st[..n], ras, sample); ms[n] == MachineOf(b) && Numbers(b)
  {
    hide StageGives, RunStage, Numbers, MachineOf, Start, StageOk, Begun;
    if n == 0 {
      BegunIs(t);
      ms := [Begun(t)];
    } else {
      var before := StagesRun(t, ras, sample, n - 1);
      assert t.st[..n][..n - 1] == t.st[..n - 1];
      StageMeans(RunStages(Start(t), t.st[..n - 1], ras, sample), t.st[n - 1], ras, sample);
      ms := before + [MachineOf(RunStages(Start(t), t.st[..n], ras, sample))];
    }
  }

  /** The theorem: a pixel is the first register after the stages, each channel held to a byte. */
  lemma PixelMeans(t: Setup, ras: seq<Colour>, sample: Sampler) returns (ms: seq<Machine>)
    requires SetupOk(t) && |ras| == 2
    ensures Stages(t, ras, sample, ms)
    ensures forall i | 0 <= i < 4 :: HeldTo(true, ms[|t.st|].reg[0][i], General(t, ras, sample)[i])
  {
    hide StageGives, RunStages, StageOk, Numbers, Start, HeldTo, Output, MachineOf;
    ms := StagesRun(t, ras, sample, |t.st|);
    assert t.st[..|t.st|] == t.st;
    OutputIs(RunStages(Start(t), t.st, ras, sample));
  }

  lemma OutputIs(b: Bank)
    ensures forall i | 0 <= i < 4 :: HeldTo(true, MachineOf(b).reg[0][i], Output(b)[i])
  {
  }

  /** And those relations leave no choice. */
  lemma ChannelOnce(e: ColourEnv, a: int, b: int, c: int, d: int, hits: bool, r: int, r': int)
    requires ChannelIs(e, a, b, c, d, hits, r) && ChannelIs(e, a, b, c, d, hits, r')
    ensures r == r'
  {
    hide Blends, Scales, HeldTo, Offset;
    if e.bias != 3 {
      var v, q :| Blends(a % 256, b % 256, c % 256, v) && Scales(e.shift, (if e.op == 1 then d - v else d + v) + Offset(e.bias), q) && HeldTo(e.clamp, q, r);
      var v', q' :| Blends(a % 256, b % 256, c % 256, v') && Scales(e.shift, (if e.op == 1 then d - v' else d + v') + Offset(e.bias), q') && HeldTo(e.clamp, q', r');
      BlendOnce(a % 256, b % 256, c % 256, v, v');
      HeldOnce(e, (if e.op == 1 then d - v else d + v) + Offset(e.bias), q, q', r, r');
    } else {
      HeldOnce(e.(shift := 0), if hits then d + c else d, if hits then d + c else d, if hits then d + c else d, r, r');
    }
  }

  lemma BlendOnce(a: int, b: int, c: int, v: int, v': int)
    requires Blends(a, b, c, v) && Blends(a, b, c, v')
    ensures v == v'
  {
    var w := if c < 128 then c else c + 1;
    Nearest(a * (256 - w) + b * w, v, v');
  }

  lemma Nearest(x: int, v: int, v': int)
    requires 256 * v - 128 <= x < 256 * v + 128 && 256 * v' - 128 <= x < 256 * v' + 128
    ensures v == v'
  {
  }

  lemma HeldOnce(e: ColourEnv, u: int, q: int, q': int, r: int, r': int)
    requires Scales(e.shift, u, q) && Scales(e.shift, u, q') && HeldTo(e.clamp, q, r) && HeldTo(e.clamp, q', r')
    ensures r == r'
  {
  }

  lemma StageOnce(s: Stage, m: Machine, ras: seq<Colour>, sample: Sampler, x: Machine, y: Machine)
    requires MachineOk(m) && |ras| == 2 && StageOk(s)
    requires StageGives(s, m, ras, sample, x) && StageGives(s, m, ras, sample, y)
    ensures x == y
  {
    var f, cd := Fetched(m, s, ras, sample), s.colour.dest;
    forall i: nat | i < 3 ensures x.reg[cd][i] == y.reg[cd][i] {
      SameColour(s, f, i, x.reg[cd][i], y.reg[cd][i]);
    }
    hide ColourIs, AlphaIs, Fetched;
    var c := f.(reg := f.reg[cd := [x.reg[cd][0], x.reg[cd][1], x.reg[cd][2], f.reg[cd][3]]]);
    SameAlpha(s, c, x.reg[s.alpha.dest][3], y.reg[s.alpha.dest][3]);
  }

  lemma SameColour(s: Stage, m: Machine, i: nat, r: int, r': int)
    requires MachineOk(m) && i < 3 && ColourIs(s, m, i, r) && ColourIs(s, m, i, r')
    ensures r == r'
  {
    hide ChannelIs, Value, Hits, Bytes;
    var e := s.colour;
    ChannelOnce(e, Value(ColourOperand(e.a, i), m, s.konst), Value(ColourOperand(e.b, i), m, s.konst),
                Value(ColourOperand(e.c, i), m, s.konst), Value(ColourOperand(e.d, i), m, s.konst),
                Hits(e, Bytes(e.a, m, s.konst), Bytes(e.b, m, s.konst), i), r, r');
  }

  lemma SameAlpha(s: Stage, m: Machine, r: int, r': int)
    requires MachineOk(m) && AlphaIs(s, m, r) && AlphaIs(s, m, r')
    ensures r == r'
  {
    hide ChannelIs, Value;
    var e := s.alpha;
    var a, b := Value(AlphaOperand(e.a), m, s.konst), Value(AlphaOperand(e.b), m, s.konst);
    ChannelOnce(e, a, b, Value(AlphaOperand(e.c), m, s.konst), Value(AlphaOperand(e.d), m, s.konst),
                if e.op == 1 then a % 256 == b % 256 else a % 256 > b % 256, r, r');
  }

  // ---- laws --------------------------------------------------------------------------------------

  /** A weight of nothing takes the first operand, of everything the second; any other lies
      between them. */
  lemma BlendEnds(a: int, b: int, c: int, v: int)
    requires 0 <= a < 256 && 0 <= b < 256 && 0 <= c < 256 && Blends(a, b, c, v)
    ensures (c == 0 ==> v == a) && (c == 255 ==> v == b)
    ensures (if a < b then a else b) <= v <= (if a < b then b else a)
  {
    var w := if c < 128 then c else c + 1;
    if a <= b {
      Between(a, b, w);
    } else {
      Between(b, a, 256 - w);
    }
  }

  lemma Between(a: int, b: int, w: int)
    requires a <= b && 0 <= w <= 256
    ensures 256 * a <= a * (256 - w) + b * w <= 256 * b
  {
    assert a * (256 - w) + b * w == 256 * a + (b - a) * w;
    assert 0 <= (b - a) * w <= (b - a) * 256;
  }

  /** Unscaled, and where neither saturates, adding and subtracting are about the same point. */
  lemma AddsAndSubtracts(e: ColourEnv, a: int, b: int, c: int, d: int, hits: bool, add: int, sub: int)
    requires e.bias != 3 && e.shift == 0 && !e.clamp && -1024 < add < 1023 && -1024 < sub < 1023
    requires ChannelIs(e.(op := 0), a, b, c, d, hits, add) && ChannelIs(e.(op := 1), a, b, c, d, hits, sub)
    ensures add + sub == 2 * (d + Offset(e.bias)) && sub <= d + Offset(e.bias) <= add
  {
    hide Blends;
    var v, q :| Blends(a % 256, b % 256, c % 256, v) && Scales(e.shift, d + v + Offset(e.bias), q) && HeldTo(e.clamp, q, add);
    var v', q' :| Blends(a % 256, b % 256, c % 256, v') && Scales(e.shift, d - v' + Offset(e.bias), q') && HeldTo(e.clamp, q', sub);
    BlendOnce(a % 256, b % 256, c % 256, v, v');
    BlendEnds(a % 256, b % 256, c % 256, v);
  }

  // ---- the alpha test --------------------------------------------------------------------------

  /** A mode's three bits say whether less, equal and more pass; the logic, how many of the two
      tests may. */
  lemma AlphaTestMeans(t: AlphaTest, alpha: int)
    requires t.comp0 < 8 && t.comp1 < 8 && t.logic < 4
    ensures var n := Passes(t.comp0, alpha, t.ref0) + Passes(t.comp1, alpha, t.ref1);
            AlphaPasses(t, alpha) <==> if t.logic == 0 then n == 2 else if t.logic == 1 then n >= 1 else if t.logic == 2 then n == 1 else n != 1
  {
  }

  function Passes(mode: nat, a: int, b: int): nat {
    if (a < b && mode % 2 == 1) || (a == b && mode / 2 % 2 == 1) || (a > b && mode / 4 % 2 == 1) then 1 else 0
  }
}
