/**
  The texture environment: up to sixteen stages that combine texels, raster colours,
  constants and four registers, and the direct arithmetic tev_pixel runs instead for the
  one-stage setups tev_prepare recognises. Proved: the direct arithmetic gives the general
  loop's four bytes and verdict, whatever the colours, texels and constants.

  A pixel's texels are a function of a stage's map and coordinate: both paths sample with
  the same arguments, and how the sampler filters is not part of this model.
 */
module Combiner {
  const BANK_TEX: nat := 16
  const BANK_RAS: nat := 20
  const BANK_KONST: nat := 24
  const BANK_ONE: nat := 28
  const BANK_HALF: nat := 29
  const BANK_ZERO: nat := 30
  const BANK_SIZE: nat := 32

  type Bank = b: seq<int> | |b| == BANK_SIZE witness seq(BANK_SIZE, _ => 0)

  /** Four channels of 0..255. */
  type Colour = c: seq<int> | |c| == 4 && forall i | 0 <= i < 4 :: 0 <= c[i] <= 255 witness [0, 0, 0, 0]

  type Swap = s: seq<nat> | |s| == 4 && forall i | 0 <= i < 4 :: s[i] < 4 witness [0, 1, 2, 3]

  /** Four-bit and three-bit selectors, as the registers hold them. */
  datatype ColourEnv = ColourEnv(a: nat, b: nat, c: nat, d: nat, bias: nat, op: nat, clamp: bool, shift: nat, dest: nat)

  datatype Stage = Stage(texen: bool, texmap: nat, texcoord: nat, chan: nat, rswap: Swap, tswap: Swap,
                         colour: ColourEnv, alpha: ColourEnv, konst: Colour)

  datatype AlphaTest = AlphaTest(comp0: nat, ref0: int, comp1: nat, ref1: int, logic: nat)

  datatype Setup = Setup(st: seq<Stage>, reg: seq<int>, test: AlphaTest)

  predicate StageOk(s: Stage) {
    s.colour.dest < 4 && s.alpha.dest < 4
  }

  predicate SetupOk(t: Setup) {
    && 1 <= |t.st| <= 16 && |t.reg| == 16
    && (forall i | 0 <= i < 16 :: -1024 <= t.reg[i] <= 1023)
    && (forall i | 0 <= i < |t.st| :: StageOk(t.st[i]))
  }

  // ---- selectors ---------------------------------------------------------------------

  function ColourIndex(sel: nat, i: nat): (r: nat)
    requires i < 3
    ensures r < BANK_SIZE
  {
    match sel
    case 0 => i case 1 => 3
    case 2 => 4 + i case 3 => 7
    case 4 => 8 + i case 5 => 11
    case 6 => 12 + i case 7 => 15
    case 8 => BANK_TEX + i case 9 => BANK_TEX + 3
    case 10 => BANK_RAS + i case 11 => BANK_RAS + 3
    case 12 => BANK_ONE case 13 => BANK_HALF
    case 14 => BANK_KONST + i
    case _ => BANK_ZERO
  }

  function AlphaIndex(sel: nat): (r: nat)
    ensures r < BANK_SIZE
  {
    match sel
    case 0 => 3 case 1 => 7 case 2 => 11 case 3 => 15
    case 4 => BANK_TEX + 3 case 5 => BANK_RAS + 3 case 6 => BANK_KONST + 3
    case _ => BANK_ZERO
  }

  // ---- the arithmetic of one channel -----------------------------------------------------

  function Clamp255(v: int): int { if v < 0 then 0 else if v > 255 then 255 else v }

  function ClampS11(v: int): int { if v < -1024 then -1024 else if v > 1023 then 1023 else v }

  function Clamped(on: bool, v: int): (r: int)
    ensures -1024 <= r <= 1023
    ensures on ==> 0 <= r <= 255
  {
    if on then Clamp255(v) else ClampS11(v)
  }

  /** An operand's low eight bits. */
  function Byte(v: int): (r: int)
    ensures 0 <= r <= 255
    ensures 0 <= v <= 255 ==> r == v
  {
    v % 256
  }

  /** c + (c >> 7): 0..255 becomes 0..256, so that 255 weighs whole. */
  function Weight(c: int): int { c + c / 128 }

  function Blend(a: int, b: int, c: int): int { (a * (256 - Weight(c)) + b * Weight(c) + 128) / 256 }

  /** An operand weighed alone: what Blend makes of it with nothing to blend from. */
  function Scaled(b: int, c: int): int { (b * Weight(c) + 128) / 256 }

  function Bias(bias: nat): int { if bias == 1 then 128 else if bias == 2 then -128 else 0 }

  function Shifted(shift: nat, r: int): int {
    if shift == 1 then r * 2 else if shift == 2 then r * 4 else if shift == 3 then r / 2 else r
  }

  /** A stage that blends: bias other than 3. */
  function Regular(e: ColourEnv, a: int, b: int, c: int, d: int): int {
    var v := Blend(Byte(a), Byte(b), Byte(c));
    Clamped(e.clamp, Shifted(e.shift, d + (if e.op == 1 then -v else v) + Bias(e.bias)))
  }

  function Joined(v: seq<int>, shift: nat, i: nat): int
    requires |v| == 3 && i < 3
  {
    if shift == 0 then Byte(v[0])
    else if shift == 1 then Byte(v[1]) * 256 + Byte(v[0])
    else if shift == 2 then Byte(v[2]) * 0x1_0000 + Byte(v[1]) * 256 + Byte(v[0])
    else Byte(v[i])
  }

  function Gather(bank: Bank, sel: nat): (r: seq<int>)
    ensures |r| == 3
  {
    [bank[ColourIndex(sel, 0)], bank[ColourIndex(sel, 1)], bank[ColourIndex(sel, 2)]]
  }

  /** A stage that compares (bias 3): whether channel i takes its third operand. One, two or
      three channels are compared as one number, or each channel for itself. */
  predicate Chosen(bank: Bank, e: ColourEnv, i: nat)
    requires i < 3
  {
    var a, b := Joined(Gather(bank, e.a), e.shift, i), Joined(Gather(bank, e.b), e.shift, i);
    if e.op == 1 then a == b else a > b
  }

  function ColourOf(bank: Bank, e: ColourEnv, i: nat): (r: int)
    requires i < 3
    ensures -1024 <= r <= 1023
  {
    var a, b, c, d := bank[ColourIndex(e.a, i)], bank[ColourIndex(e.b, i)], bank[ColourIndex(e.c, i)], bank[ColourIndex(e.d, i)];
    if e.bias != 3 then Regular(e, a, b, c, d)
    else Clamped(e.clamp, (if Chosen(bank, e, i) then c else 0) + d)
  }

  function AlphaOf(bank: Bank, e: ColourEnv): (r: int)
    ensures -1024 <= r <= 1023
  {
    var a, b, c, d := bank[AlphaIndex(e.a)], bank[AlphaIndex(e.b)], bank[AlphaIndex(e.c)], bank[AlphaIndex(e.d)];
    if e.bias != 3 then Regular(e, a, b, c, d)
    else Clamped(e.clamp, d + if (if e.op == 1 then Byte(a) == Byte(b) else Byte(a) > Byte(b)) then c else 0)
  }

  // ---- the stages --------------------------------------------------------------------------

  type Sampler = (nat, nat) -> Colour

  /** What a stage reads besides the registers: texel, raster colour, constant. */
  function Loaded(bank: Bank, s: Stage, ras: seq<Colour>, sample: Sampler): (r: Bank)
    requires |ras| == 2
    ensures forall j | 0 <= j < BANK_TEX || BANK_ONE <= j < BANK_SIZE :: r[j] == bank[j]
  {
    seq(BANK_SIZE, j requires 0 <= j < BANK_SIZE =>
      if BANK_TEX <= j < BANK_RAS && s.texen then sample(s.texmap, s.texcoord)[s.tswap[j - BANK_TEX]]
      else if BANK_RAS <= j < BANK_KONST && s.chan < 2 then ras[s.chan][s.rswap[j - BANK_RAS]]
      else if BANK_KONST <= j < BANK_ONE then s.konst[j - BANK_KONST]
      else bank[j])
  }

  /** The colour goes into its register before the alpha's operands are read. */
  function RunStage(bank: Bank, s: Stage, ras: seq<Colour>, sample: Sampler): Bank
    requires |ras| == 2 && StageOk(s)
  {
    var b := Loaded(bank, s, ras, sample);
    var o := s.colour.dest * 4;
    var c := b[o := ColourOf(b, s.colour, 0)][o + 1 := ColourOf(b, s.colour, 1)][o + 2 := ColourOf(b, s.colour, 2)];
    c[s.alpha.dest * 4 + 3 := AlphaOf(c, s.alpha)]
  }

  function RunStages(bank: Bank, st: seq<Stage>, ras: seq<Colour>, sample: Sampler): Bank
    requires |ras| == 2 && forall i | 0 <= i < |st| :: StageOk(st[i])
  {
    if st == [] then bank
    else RunStage(RunStages(bank, st[..|st| - 1], ras, sample), st[|st| - 1], ras, sample)
  }

  function Start(t: Setup): Bank
    requires SetupOk(t)
  {
    seq(BANK_SIZE, j requires 0 <= j < BANK_SIZE =>
      if j < 16 then t.reg[j] else if j == BANK_ONE then 255 else if j == BANK_HALF then 128 else 0)
  }

  /** The pixel: what the first register holds in the end. */
  function General(t: Setup, ras: seq<Colour>, sample: Sampler): Colour
    requires SetupOk(t) && |ras| == 2
  {
    Output(RunStages(Start(t), t.st, ras, sample))
  }

  function Output(b: Bank): Colour {
    [Clamp255(b[0]), Clamp255(b[1]), Clamp255(b[2]), Clamp255(b[3])]
  }

  // ---- the alpha test --------------------------------------------------------------------

  predicate Compare(mode: nat, a: int, b: int) {
    match mode
    case 0 => false
    case 1 => a < b
    case 2 => a == b
    case 3 => a <= b
    case 4 => a > b
    case 5 => a != b
    case 6 => a >= b
    case _ => true
  }

  predicate AlphaPasses(t: AlphaTest, alpha: int) {
    var p0, p1 := Compare(t.comp0, alpha, t.ref0), Compare(t.comp1, alpha, t.ref1);
    match t.logic
    case 0 => p0 && p1
    case 1 => p0 || p1
    case 2 => p0 != p1
    case _ => p0 == p1
  }

  /** alpha_always tries every alpha a pixel can have; depth may be tested before the stages
      run when none of them fails. */
  method AlphaAlways(t: AlphaTest) returns (always: bool)
    ensures always <==> forall a | 0 <= a < 256 :: AlphaPasses(t, a)
  {
    always := true;
    var a := 0;
    while a < 256 && always
      invariant 0 <= a <= 256
      invariant always <==> forall k | 0 <= k < a :: AlphaPasses(t, k)
    {
      always := AlphaPasses(t, a);
      a := a + 1;
    }
  }

  // ---- the setup, from the registers ---------------------------------------------------------

  /** The field at weight `unit` of a register word, `size` values wide. */
  function Field(v: nat, unit: nat, size: nat): (r: nat)
    requires 0 < unit && 0 < size
    ensures r < size
  {
    v / unit % size
  }

  /** Eleven bits, signed (tev_register_written). */
  function Signed(v: nat): (r: int)
    ensures -1024 <= r <= 1023
    ensures (r - v) % 2048 == 0
  {
    var low := v % 2048;
    if low >= 1024 then low - 2048 else low
  }

  /** The register words, and the registers and constants latched as their writes arrive. */
  datatype Words = Words(bp: nat -> nat, reg: seq<nat>, konst: seq<Colour>)

  predicate WordsOk(w: Words) { |w.reg| == 16 && |w.konst| == 4 }

  /** konst_value. */
  function KonstValue(w: Words, sel: nat, channel: nat): (r: int)
    requires WordsOk(w) && channel < 4
    ensures 0 <= r <= 255
  {
    if sel < 8 then (if (8 - sel) * 32 > 255 then 255 else (8 - sel) * 32)
    else if 12 <= sel < 16 then w.konst[sel - 12][channel]
    else if 16 <= sel < 32 then w.konst[(sel - 16) % 4][(sel - 16) / 4]
    else 0
  }

  function SwapFrom(w: Words, row: nat): Swap
    requires row < 4
  {
    [Field(w.bp(0xF6 + 2 * row), 1, 4), Field(w.bp(0xF6 + 2 * row), 4, 4),
     Field(w.bp(0xF7 + 2 * row), 1, 4), Field(w.bp(0xF7 + 2 * row), 4, 4)]
  }

  function StageFrom(w: Words, st: nat): (s: Stage)
    requires WordsOk(w) && st < 16
    ensures StageOk(s)
  {
    var tref := w.bp(0x28 + st / 2) / (if st % 2 == 1 then 0x1000 else 1);
    var c, a := w.bp(0xC0 + 2 * st), w.bp(0xC1 + 2 * st);
    var k := w.bp(0xF6 + st / 2);
    var kc := Field(k, if st % 2 == 1 then 0x4000 else 0x10, 32);
    var ka := Field(k, if st % 2 == 1 then 0x8_0000 else 0x200, 32);
    Stage(Field(tref, 64, 2) == 1, Field(tref, 1, 8), Field(tref, 8, 8), Field(tref, 128, 8),
          SwapFrom(w, Field(a, 1, 4)), SwapFrom(w, Field(a, 4, 4)),
          ColourEnv(Field(c, 0x1000, 16), Field(c, 0x100, 16), Field(c, 0x10, 16), Field(c, 1, 16),
                    Field(c, 0x1_0000, 4), Field(c, 0x4_0000, 2), Field(c, 0x8_0000, 2) == 1, Field(c, 0x10_0000, 4), Field(c, 0x40_0000, 4)),
          ColourEnv(Field(a, 0x2000, 8), Field(a, 0x400, 8), Field(a, 0x80, 8), Field(a, 0x10, 8),
                    Field(a, 0x1_0000, 4), Field(a, 0x4_0000, 2), Field(a, 0x8_0000, 2) == 1, Field(a, 0x10_0000, 4), Field(a, 0x40_0000, 4)),
          [KonstValue(w, kc, 0), KonstValue(w, kc, 1), KonstValue(w, kc, 2), KonstValue(w, ka, 3)])
  }

  /** tev_prepare: whatever the words, the setup it makes is one the pixel path can run. */
  function Prepared(w: Words): (t: Setup)
    requires WordsOk(w)
    ensures SetupOk(t)
  {
    var ac := w.bp(0xF3);
    Setup(seq(Field(w.bp(0), 0x400, 16) + 1, st requires 0 <= st < 16 => StageFrom(w, st)),
          seq(16, j requires 0 <= j < 16 => Signed(w.reg[j])),
          AlphaTest(Field(ac, 0x1_0000, 8), Field(ac, 1, 256), Field(ac, 0x8_0000, 8), Field(ac, 0x100, 256), Field(ac, 0x40_0000, 4)))
  }

  // ---- the shapes tev_prepare recognises ---------------------------------------------------

  predicate Straight(s: Swap) { s[0] == 0 && s[1] == 1 && s[2] == 2 && s[3] == 3 }

  /** Every choice but the operands is the plain one. */
  predicate Plain(s: Stage) {
    && s.chan == 0 && Straight(s.rswap) && (s.texen ==> Straight(s.tswap))
    && s.colour.bias == 0 && s.colour.op == 0 && s.colour.clamp && s.colour.dest == 0
    && s.alpha.bias == 0 && s.alpha.op == 0 && s.alpha.clamp && s.alpha.dest == 0 && s.alpha.shift == 0
  }

  predicate Operands(e: ColourEnv, a: nat, b: nat, c: nat, d: nat) { e.a == a && e.b == b && e.c == c && e.d == d }

  /** 1: the vertex colour; 2: texture times vertex colour, doubled or not. */
  function ColourShape(s: Stage): nat {
    if s.colour.shift == 0 && (Operands(s.colour, 10, 15, 15, 15) || Operands(s.colour, 15, 15, 15, 10)) then 1
    else if s.texen && s.colour.shift <= 1 && Operands(s.colour, 15, 8, 10, 15) then 2
    else 0
  }

  /** 1: the constant; 2: vertex alpha; 3: texture times vertex alpha. */
  function AlphaShape(s: Stage): nat {
    if Operands(s.alpha, 6, 7, 7, 7) then 1
    else if Operands(s.alpha, 5, 7, 7, 7) || Operands(s.alpha, 7, 7, 7, 5) then 2
    else if s.texen && Operands(s.alpha, 7, 4, 5, 7) then 3
    else 0
  }

  predicate Recognised(t: Setup) {
    |t.st| == 1 && Plain(t.st[0]) && ColourShape(t.st[0]) != 0 && AlphaShape(t.st[0]) != 0
  }

  /** tev_pixel's direct arithmetic. */
  function Direct(s: Stage, r: Colour, sample: Sampler): Colour {
    var t := if s.texen then sample(s.texmap, s.texcoord) else [0, 0, 0, 0];
    [DirectColour(s, r[0], t[0]), DirectColour(s, r[1], t[1]), DirectColour(s, r[2], t[2]),
     DirectAlpha(s, r[3], t[3])]
  }

  function DirectAlpha(s: Stage, r: int, t: int): (o: int)
    requires 0 <= r <= 255
    ensures 0 <= o <= 255
  {
    if AlphaShape(s) == 1 then s.konst[3] else if AlphaShape(s) == 2 then r else Clamp255(Scaled(t, r))
  }

  function DirectColour(s: Stage, r: int, t: int): (o: int)
    requires 0 <= r <= 255
    ensures 0 <= o <= 255
  {
    if ColourShape(s) == 1 then r
    else
      Clamp255(if s.colour.shift == 1 then Scaled(t, r) * 2 else Scaled(t, r))
  }

  // ---- the direct arithmetic is the general formula --------------------------------------

  /** With nothing to blend towards, an operand passes through unchanged. */
  lemma BlendPasses(a: int)
    requires 0 <= a <= 255
    ensures Blend(a, 0, 0) == a
  {
  }

  lemma BlendScales(b: int, c: int)
    ensures Blend(0, b, c) == Scaled(b, c)
  {
  }

  lemma BlendNothing()
    ensures Blend(0, 0, 0) == 0
  {
  }

  /** Plain choices leave the blend, doubled at most, and the colour clamp. */
  lemma PlainSum(e: ColourEnv, a: int, b: int, c: int, d: int)
    requires e.bias == 0 && e.op == 0 && e.clamp && e.shift <= 1
    requires 0 <= a <= 255 && 0 <= b <= 255 && 0 <= c <= 255
    ensures Regular(e, a, b, c, d) == Clamp255(if e.shift == 1 then (d + Blend(a, b, c)) * 2 else d + Blend(a, b, c))
  {
    assert Byte(a) == a && Byte(b) == b && Byte(c) == c;
    hide Blend, Byte;
  }

  lemma PlainColour(b: Bank, s: Stage, i: nat)
    requires i < 3 && Plain(s) && ColourShape(s) != 0
    requires b[BANK_ZERO] == 0 && 0 <= b[BANK_RAS + i] <= 255 && 0 <= b[BANK_TEX + i] <= 255
    ensures ColourOf(b, s.colour, i) == DirectColour(s, b[BANK_RAS + i], b[BANK_TEX + i])
  {
    hide Blend, Weight, Scaled, Regular, Byte;
    var r, t, e := b[BANK_RAS + i], b[BANK_TEX + i], s.colour;
    if ColourShape(s) == 2 {
      BlendScales(t, r);
      PlainSum(e, 0, t, r, 0);
    } else if e.a == 10 {
      BlendPasses(r);
      PlainSum(e, r, 0, 0, 0);
    } else {
      BlendNothing();
      PlainSum(e, 0, 0, 0, r);
    }
  }

  lemma PlainAlpha(b: Bank, s: Stage)
    requires Plain(s) && AlphaShape(s) != 0 && b[BANK_ZERO] == 0
    requires 0 <= b[BANK_RAS + 3] <= 255 && 0 <= b[BANK_TEX + 3] <= 255 && 0 <= b[BANK_KONST + 3] <= 255
    ensures AlphaOf(b, s.alpha) ==
            if AlphaShape(s) == 1 then b[BANK_KONST + 3]
            else if AlphaShape(s) == 2 then b[BANK_RAS + 3]
            else Clamp255(Scaled(b[BANK_TEX + 3], b[BANK_RAS + 3]))
  {
    hide Blend, Weight, Scaled, Regular, Byte;
    var r, t, k, e := b[BANK_RAS + 3], b[BANK_TEX + 3], b[BANK_KONST + 3], s.alpha;
    if AlphaShape(s) == 3 {
      BlendScales(t, r);
      PlainSum(e, 0, t, r, 0);
    } else if AlphaShape(s) == 1 {
      BlendPasses(k);
      PlainSum(e, k, 0, 0, 0);
    } else if e.a == 5 {
      BlendPasses(r);
      PlainSum(e, r, 0, 0, 0);
    } else {
      BlendNothing();
      PlainSum(e, 0, 0, 0, r);
    }
  }

  /** The theorem: a recognised setup's direct arithmetic is the stage loop's result. */
  lemma DirectIsGeneral(t: Setup, ras: seq<Colour>, sample: Sampler)
    requires SetupOk(t) && |ras| == 2 && Recognised(t)
    ensures Direct(t.st[0], ras[0], sample) == General(t, ras, sample)
  {
    var s := t.st[0];
    assert t.st[..0] == [];
    assert RunStages(Start(t), t.st, ras, sample) == RunStage(Start(t), s, ras, sample);
    PlainStage(Start(t), s, ras, sample);
    hide RunStage, RunStages, Start, Direct, Output, Plain, ColourShape, AlphaShape;
  }

  ghost function WithColour(b: Bank, e: ColourEnv): Bank {
    b[0 := ColourOf(b, e, 0)][1 := ColourOf(b, e, 1)][2 := ColourOf(b, e, 2)]
  }

  lemma FirstRegister(bank: Bank, s: Stage, ras: seq<Colour>, sample: Sampler, b: Bank)
    requires |ras| == 2 && StageOk(s) && s.colour.dest == s.alpha.dest == 0 && b == Loaded(bank, s, ras, sample)
    ensures var r := RunStage(bank, s, ras, sample);
            && r[0] == ColourOf(b, s.colour, 0) && r[1] == ColourOf(b, s.colour, 1) && r[2] == ColourOf(b, s.colour, 2)
            && r[3] == AlphaOf(WithColour(b, s.colour), s.alpha)
    ensures forall j | 3 <= j < BANK_SIZE :: WithColour(b, s.colour)[j] == b[j]
  {
    hide ColourOf, AlphaOf, Loaded;
  }

  /** What a plain stage leaves in the first register, from the bank as loaded. */
  lemma PlainRegister(bank: Bank, s: Stage, ras: seq<Colour>, sample: Sampler, b: Bank)
    requires |ras| == 2 && StageOk(s) && Plain(s) && ColourShape(s) != 0 && AlphaShape(s) != 0
    requires b == Loaded(bank, s, ras, sample) && b[BANK_ZERO] == 0 && b[BANK_KONST + 3] == s.konst[3]
    requires forall i | BANK_TEX <= i < BANK_ONE :: 0 <= b[i] <= 255
    ensures var r := RunStage(bank, s, ras, sample);
            && r[0] == DirectColour(s, b[BANK_RAS], b[BANK_TEX])
            && r[1] == DirectColour(s, b[BANK_RAS + 1], b[BANK_TEX + 1])
            && r[2] == DirectColour(s, b[BANK_RAS + 2], b[BANK_TEX + 2])
            && r[3] == DirectAlpha(s, b[BANK_RAS + 3], b[BANK_TEX + 3])
  {
    PlainColour(b, s, 0);
    PlainColour(b, s, 1);
    PlainColour(b, s, 2);
    FirstRegister(bank, s, ras, sample, b);
    hide ColourOf, DirectColour, Loaded, WithColour;
    PlainAlpha(WithColour(b, s.colour), s);
    hide RunStage, AlphaOf, ColourShape, Plain, Scaled;
  }

  lemma PlainStage(bank: Bank, s: Stage, ras: seq<Colour>, sample: Sampler)
    requires |ras| == 2 && StageOk(s) && Plain(s) && ColourShape(s) != 0 && AlphaShape(s) != 0
    requires bank[BANK_ZERO] == 0 && (forall i | BANK_TEX <= i < BANK_RAS :: bank[i] == 0)
    ensures Output(RunStage(bank, s, ras, sample)) == Direct(s, ras[0], sample)
  {
    var b := Loaded(bank, s, ras, sample);
    LoadedPlain(bank, s, ras, sample);
    PlainRegister(bank, s, ras, sample, b);
    hide RunStage, ColourShape, AlphaShape, Plain, DirectColour, Scaled, Loaded;
  }

  lemma LoadedPlain(bank: Bank, s: Stage, ras: seq<Colour>, sample: Sampler)
    requires |ras| == 2 && Plain(s) && forall i | BANK_TEX <= i < BANK_RAS :: bank[i] == 0
    ensures var b := Loaded(bank, s, ras, sample);
            && b[BANK_ZERO] == bank[BANK_ZERO] && b[BANK_KONST + 3] == s.konst[3]
            && (forall i | BANK_TEX <= i < BANK_ONE :: 0 <= b[i] <= 255)
            && forall i | 0 <= i < 4 ::
                 && b[BANK_RAS + i] == ras[0][i]
                 && b[BANK_TEX + i] == if s.texen then sample(s.texmap, s.texcoord)[i] else 0
  {
  }

  // ---- what holds over any number of stages ------------------------------------------------

  lemma StageBounds(bank: Bank, s: Stage, ras: seq<Colour>, sample: Sampler)
    requires |ras| == 2 && StageOk(s)
    ensures forall j | 0 <= j < 16 :: RunStage(bank, s, ras, sample)[j] == bank[j] || -1024 <= RunStage(bank, s, ras, sample)[j] <= 1023
    ensures forall j | BANK_ONE <= j < BANK_SIZE :: RunStage(bank, s, ras, sample)[j] == bank[j]
  {
    hide ColourOf, AlphaOf;
    var b := Loaded(bank, s, ras, sample);
    hide Loaded;
    var o := s.colour.dest * 4;
    var c := b[o := ColourOf(b, s.colour, 0)][o + 1 := ColourOf(b, s.colour, 1)][o + 2 := ColourOf(b, s.colour, 2)];
    assert forall j | 0 <= j < 16 :: c[j] == bank[j] || -1024 <= c[j] <= 1023;
  }

  /** The registers stay within eleven signed bits, so no stage's sums leave a 32-bit int. */
  lemma {:induction false} RegistersBounded(bank: Bank, st: seq<Stage>, ras: seq<Colour>, sample: Sampler)
    requires |ras| == 2 && (forall i | 0 <= i < |st| :: StageOk(st[i]))
    requires forall j | 0 <= j < 16 :: -1024 <= bank[j] <= 1023
    ensures forall j | 0 <= j < 16 :: -1024 <= RunStages(bank, st, ras, sample)[j] <= 1023
    ensures forall j | BANK_ONE <= j < BANK_SIZE :: RunStages(bank, st, ras, sample)[j] == bank[j]
  {
    if st != [] {
      RegistersBounded(bank, st[..|st| - 1], ras, sample);
      StageBounds(RunStages(bank, st[..|st| - 1], ras, sample), st[|st| - 1], ras, sample);
      hide RunStage;
    }
  }

  // ---- the pixel, in place ------------------------------------------------------------------

  /** One stage of tev_pixel, on the bank. */
  method StageInPlace(bank: array<int>, s: Stage, ras: seq<Colour>, sample: Sampler)
    requires bank.Length == BANK_SIZE && |ras| == 2 && StageOk(s)
    modifies bank
    ensures bank[..] == RunStage(old(bank[..]), s, ras, sample)
  {
    hide ColourOf, AlphaOf, RunStage;
    LoadInPlace(bank, s, ras, sample);
    ghost var b: Bank := bank[..];
    var o := s.colour.dest * 4;
    var r0, r1, r2 := ColourOf(bank[..], s.colour, 0), ColourOf(bank[..], s.colour, 1), ColourOf(bank[..], s.colour, 2);
    bank[o], bank[o + 1], bank[o + 2] := r0, r1, r2;
    assert bank[..] == b[o := r0][o + 1 := r1][o + 2 := r2];
    ghost var c: Bank := bank[..];
    var alpha := AlphaOf(bank[..], s.alpha);
    bank[s.alpha.dest * 4 + 3] := alpha;
    assert bank[..] == c[s.alpha.dest * 4 + 3 := alpha];
    StageSteps(old(bank[..]), s, ras, sample, b, c);
  }

  lemma StageSteps(bank: Bank, s: Stage, ras: seq<Colour>, sample: Sampler, b: Bank, c: Bank)
    requires |ras| == 2 && StageOk(s) && b == Loaded(bank, s, ras, sample)
    requires var o := s.colour.dest * 4;
             c == b[o := ColourOf(b, s.colour, 0)][o + 1 := ColourOf(b, s.colour, 1)][o + 2 := ColourOf(b, s.colour, 2)]
    ensures RunStage(bank, s, ras, sample) == c[s.alpha.dest * 4 + 3 := AlphaOf(c, s.alpha)]
  {
    hide ColourOf, AlphaOf, Loaded;
  }

  method LoadInPlace(bank: array<int>, s: Stage, ras: seq<Colour>, sample: Sampler)
    requires bank.Length == BANK_SIZE && |ras| == 2
    modifies bank
    ensures bank[..] == Loaded(old(bank[..]), s, ras, sample)
  {
    if s.texen {
      var tmp := sample(s.texmap, s.texcoord);
      forall i | 0 <= i < 4 {
        bank[BANK_TEX + i] := tmp[s.tswap[i]];
      }
    }
    if s.chan < 2 {
      var r := ras[s.chan];
      forall i | 0 <= i < 4 {
        bank[BANK_RAS + i] := r[s.rswap[i]];
      }
    }
    forall i | 0 <= i < 4 {
      bank[BANK_KONST + i] := s.konst[i];
    }
  }

  /** tev_pixel's loop. */
  method RunInPlace(t: Setup, ras: seq<Colour>, sample: Sampler) returns (bank: array<int>)
    requires SetupOk(t) && |ras| == 2
    ensures bank.Length == BANK_SIZE && bank[..] == RunStages(Start(t), t.st, ras, sample)
  {
    bank := new int[BANK_SIZE](j => if 0 <= j < |t.reg| then t.reg[j] else if j == BANK_ONE then 255 else if j == BANK_HALF then 128 else 0);
    assert bank[..] == Start(t);
    hide RunStage, Start;
    assert t.st[..0] == [];
    var st := 0;
    while st < |t.st|
      invariant 0 <= st <= |t.st|
      invariant bank[..] == RunStages(Start(t), t.st[..st], ras, sample)
    {
      assert t.st[..st + 1][..st] == t.st[..st];
      StageInPlace(bank, t.st[st], ras, sample);
      st := st + 1;
    }
    assert t.st[..st] == t.st;
  }

  /** tev_pixel: the recognised shapes directly, everything else through the stages. */
  method Pixel(t: Setup, fast: bool, ras: seq<Colour>, sample: Sampler) returns (out: Colour, pass: bool)
    requires SetupOk(t) && |ras| == 2 && (fast ==> Recognised(t))
    ensures out == General(t, ras, sample)
    ensures pass == AlphaPasses(t.test, General(t, ras, sample)[3])
  {
    hide RunStages, Direct, Start, AlphaPasses, Plain, Output;
    if fast {
      DirectIsGeneral(t, ras, sample);
      out := Direct(t.st[0], ras[0], sample);
    } else {
      var bank := RunInPlace(t, ras, sample);
      out := Output(bank[..]);
    }
    pass := AlphaPasses(t.test, out[3]);
  }
}
