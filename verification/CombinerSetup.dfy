/**
  The combiner's register words, written from a setup's choices and read back: tev_prepare finds
  in the words exactly the choices they were written from.
 */
module CombinerSetup {
  import opened Arithmetic
  import opened Combiner

  /** A stage's choices: the environments, the rows of the swap table and the two constants. */
  datatype Choices = Choices(texen: bool, texmap: nat, texcoord: nat, chan: nat, rrow: nat, trow: nat,
                             colour: ColourEnv, alpha: ColourEnv, kc: nat, ka: nat)

  /** A setup's: its stages, the swap table, the test, and the registers and constants latched. */
  datatype Program = Program(st: seq<Choices>, rows: seq<Swap>, test: AlphaTest, reg: seq<int>, konst: seq<Colour>)

  predicate EnvOk(e: ColourEnv, size: nat) {
    e.a < size && e.b < size && e.c < size && e.d < size && e.bias < 4 && e.op < 2 && e.shift < 4 && e.dest < 4
  }

  predicate ChoicesOk(c: Choices) {
    && c.texmap < 8 && c.texcoord < 8 && c.chan < 8 && c.rrow < 4 && c.trow < 4 && c.kc < 32 && c.ka < 32
    && EnvOk(c.colour, 16) && EnvOk(c.alpha, 8)
  }

  predicate ProgramOk(p: Program) {
    && 1 <= |p.st| <= 16 && |p.rows| == 4 && |p.reg| == 16 && |p.konst| == 4
    && (forall i | 0 <= i < |p.st| :: ChoicesOk(p.st[i]))
    && (forall i | 0 <= i < 16 :: -1024 <= p.reg[i] < 1024)
    && p.test.comp0 < 8 && p.test.comp1 < 8 && p.test.logic < 4 && 0 <= p.test.ref0 < 256 && 0 <= p.test.ref1 < 256
  }

  // ---- written ---------------------------------------------------------------------------------

  function Bit(b: bool): nat { if b then 1 else 0 }

  /** What both environments' words end in, from bit 16. */
  function Tail(e: ColourEnv): nat { e.bias + 4 * (e.op + 2 * (Bit(e.clamp) + 2 * (e.shift + 4 * e.dest))) }

  function ColourWord(e: ColourEnv): nat { e.d + 16 * (e.c + 16 * (e.b + 16 * (e.a + 16 * Tail(e)))) }

  function AlphaWord(c: Choices): nat {
    var e := c.alpha;
    c.rrow + 4 * (c.trow + 4 * (e.d + 8 * (e.c + 8 * (e.b + 8 * (e.a + 8 * Tail(e))))))
  }

  function Order(c: Choices): nat { c.texmap + 8 * (c.texcoord + 8 * (Bit(c.texen) + 2 * c.chan)) }

  function StageAt(p: Program, i: nat): Choices
  {
    if i < |p.st| then p.st[i] else Choices(false, 0, 0, 0, 0, 0, ColourEnv(0, 0, 0, 0, 0, 0, false, 0, 0), ColourEnv(0, 0, 0, 0, 0, 0, false, 0, 0), 0, 0)
  }

  /** Two stages to a word. */
  function OrderWord(p: Program, j: nat): nat { Order(StageAt(p, 2 * j)) + 4096 * Order(StageAt(p, 2 * j + 1)) }

  /** Half a row of the swap table, and two stages' constants. */
  function KonstWord(p: Program, j: nat): nat
    requires |p.rows| == 4 && j < 8
  {
    var row, at := p.rows[j / 2], 2 * (j % 2);
    var x, y := StageAt(p, 2 * j), StageAt(p, 2 * j + 1);
    row[at] + 4 * (row[at + 1] + 4 * (x.kc + 32 * (x.ka + 32 * (y.kc + 32 * y.ka))))
  }

  function TestWord(t: AlphaTest): nat
    requires 0 <= t.ref0 && 0 <= t.ref1
  {
    t.ref0 + 256 * (t.ref1 + 256 * (t.comp0 + 8 * (t.comp1 + 8 * t.logic)))
  }

  function WordAt(p: Program, r: nat): nat
    requires ProgramOk(p)
  {
    if r == 0 then 1024 * (|p.st| - 1)
    else if 0x28 <= r < 0x30 then OrderWord(p, r - 0x28)
    else if 0xC0 <= r < 0xE0 then (if r % 2 == 0 then ColourWord(StageAt(p, (r - 0xC0) / 2).colour) else AlphaWord(StageAt(p, (r - 0xC0) / 2)))
    else if r == 0xF3 then TestWord(p.test)
    else if 0xF6 <= r < 0xFE then KonstWord(p, r - 0xF6)
    else 0
  }

  function Written(p: Program): Words
    requires ProgramOk(p)
  {
    Words((r: nat) => if ProgramOk(p) then WordAt(p, r) else 0,
          seq(16, j requires 0 <= j < 16 => if p.reg[j] < 0 then p.reg[j] + 2048 else p.reg[j]), p.konst)
  }

  // ---- and read --------------------------------------------------------------------------------

  /** A constant: an eighth of white, or a register's colour, or one of its channels four times. */
  function KonstOf(konst: seq<Colour>, sel: nat, channel: nat): int
    requires |konst| == 4 && channel < 4
  {
    if sel == 0 then 255
    else if sel < 8 then 256 - 32 * sel
    else if sel < 12 || 32 <= sel then 0
    else if sel < 16 then konst[sel - 12][channel]
    else konst[sel % 4][sel / 4 - 4]
  }

  function StageOf(p: Program, c: Choices): Stage
    requires ProgramOk(p) && ChoicesOk(c)
  {
    Stage(c.texen, c.texmap, c.texcoord, c.chan, p.rows[c.rrow], p.rows[c.trow], c.colour, c.alpha,
          [KonstOf(p.konst, c.kc, 0), KonstOf(p.konst, c.kc, 1), KonstOf(p.konst, c.kc, 2), KonstOf(p.konst, c.ka, 3)])
  }

  /** A field whose digits below it are `lo` and above it `rest`. */
  lemma FieldIs(v: nat, unit: nat, size: nat, lo: nat, x: nat, rest: nat)
    requires lo < unit && x < size && v == lo + unit * (x + size * rest)
    ensures Field(v, unit, size) == x
  {
    Divides(v, x + size * rest, lo, unit);
    assert x + size * rest == rest * size + x;
    Divides(x + size * rest, rest, x, size);
  }

  lemma Divides(v: nat, q: nat, r: nat, d: nat)
    requires r < d && v == r + d * q
    ensures v / d == q && v % d == r
  {
    assert v == q * d + r;
    DivMod(q, r, d);
  }

  lemma TailRead(v: nat, lo: nat, e: ColourEnv)
    requires e.bias < 4 && e.op < 2 && e.shift < 4 && e.dest < 4 && lo < 0x1_0000 && v == lo + 0x1_0000 * Tail(e)
    ensures Field(v, 0x1_0000, 4) == e.bias && Field(v, 0x4_0000, 2) == e.op && Field(v, 0x8_0000, 2) == Bit(e.clamp)
    ensures Field(v, 0x10_0000, 4) == e.shift && Field(v, 0x40_0000, 4) == e.dest
  {
    hide Field;
    var cl := Bit(e.clamp);
    FieldIs(v, 0x1_0000, 4, lo, e.bias, e.op + 2 * (cl + 2 * (e.shift + 4 * e.dest)));
    FieldIs(v, 0x4_0000, 2, lo + 0x1_0000 * e.bias, e.op, cl + 2 * (e.shift + 4 * e.dest));
    FieldIs(v, 0x8_0000, 2, lo + 0x1_0000 * (e.bias + 4 * e.op), cl, e.shift + 4 * e.dest);
    FieldIs(v, 0x10_0000, 4, lo + 0x1_0000 * (e.bias + 4 * (e.op + 2 * cl)), e.shift, e.dest);
    FieldIs(v, 0x40_0000, 4, lo + 0x1_0000 * (e.bias + 4 * (e.op + 2 * (cl + 2 * e.shift))), e.dest, 0);
  }

  lemma ColourRead(e: ColourEnv)
    requires EnvOk(e, 16)
    ensures var c := ColourWord(e);
            ColourEnv(Field(c, 0x1000, 16), Field(c, 0x100, 16), Field(c, 0x10, 16), Field(c, 1, 16),
                      Field(c, 0x1_0000, 4), Field(c, 0x4_0000, 2), Field(c, 0x8_0000, 2) == 1, Field(c, 0x10_0000, 4), Field(c, 0x40_0000, 4)) == e
  {
    hide Field, Tail;
    var c, t := ColourWord(e), Tail(e);
    FieldIs(c, 1, 16, 0, e.d, e.c + 16 * (e.b + 16 * (e.a + 16 * t)));
    FieldIs(c, 0x10, 16, e.d, e.c, e.b + 16 * (e.a + 16 * t));
    FieldIs(c, 0x100, 16, e.d + 16 * e.c, e.b, e.a + 16 * t);
    FieldIs(c, 0x1000, 16, e.d + 16 * (e.c + 16 * e.b), e.a, t);
    TailRead(c, e.d + 16 * (e.c + 16 * (e.b + 16 * e.a)), e);
  }

  lemma AlphaRead(c: Choices)
    requires ChoicesOk(c)
    ensures var a := AlphaWord(c);
            && Field(a, 1, 4) == c.rrow && Field(a, 4, 4) == c.trow
            && ColourEnv(Field(a, 0x2000, 8), Field(a, 0x400, 8), Field(a, 0x80, 8), Field(a, 0x10, 8),
                         Field(a, 0x1_0000, 4), Field(a, 0x4_0000, 2), Field(a, 0x8_0000, 2) == 1, Field(a, 0x10_0000, 4), Field(a, 0x40_0000, 4)) == c.alpha
  {
    hide Field, Tail;
    var a, e, t := AlphaWord(c), c.alpha, Tail(c.alpha);
    FieldIs(a, 1, 4, 0, c.rrow, c.trow + 4 * (e.d + 8 * (e.c + 8 * (e.b + 8 * (e.a + 8 * t)))));
    FieldIs(a, 4, 4, c.rrow, c.trow, e.d + 8 * (e.c + 8 * (e.b + 8 * (e.a + 8 * t))));
    var lo := c.rrow + 4 * c.trow;
    FieldIs(a, 0x10, 8, lo, e.d, e.c + 8 * (e.b + 8 * (e.a + 8 * t)));
    FieldIs(a, 0x80, 8, lo + 16 * e.d, e.c, e.b + 8 * (e.a + 8 * t));
    FieldIs(a, 0x400, 8, lo + 16 * (e.d + 8 * e.c), e.b, e.a + 8 * t);
    FieldIs(a, 0x2000, 8, lo + 16 * (e.d + 8 * (e.c + 8 * e.b)), e.a, t);
    TailRead(a, lo + 16 * (e.d + 8 * (e.c + 8 * (e.b + 8 * e.a))), e);
  }

  lemma OrderRead(v: nat, c: Choices, rest: nat)
    requires ChoicesOk(c) && v == Order(c) + 4096 * rest
    ensures Field(v, 64, 2) == Bit(c.texen) && Field(v, 1, 8) == c.texmap && Field(v, 8, 8) == c.texcoord && Field(v, 128, 8) == c.chan
    ensures v / 4096 == rest
  {
    hide Field;
    FieldIs(v, 1, 8, 0, c.texmap, c.texcoord + 8 * (Bit(c.texen) + 2 * (c.chan + 32 * rest)));
    FieldIs(v, 8, 8, c.texmap, c.texcoord, Bit(c.texen) + 2 * (c.chan + 32 * rest));
    FieldIs(v, 64, 2, c.texmap + 8 * c.texcoord, Bit(c.texen), c.chan + 32 * rest);
    FieldIs(v, 128, 8, c.texmap + 8 * (c.texcoord + 8 * Bit(c.texen)), c.chan, 4 * rest);
    Divides(v, rest, Order(c), 4096);
  }

  lemma KonstRead(p: Program, j: nat)
    requires ProgramOk(p) && j < 8
    ensures var k, row, at := KonstWord(p, j), p.rows[j / 2], 2 * (j % 2);
            var x, y := StageAt(p, 2 * j), StageAt(p, 2 * j + 1);
            && Field(k, 1, 4) == row[at] && Field(k, 4, 4) == row[at + 1]
            && Field(k, 0x10, 32) == x.kc && Field(k, 0x200, 32) == x.ka && Field(k, 0x4000, 32) == y.kc && Field(k, 0x8_0000, 32) == y.ka
  {
    hide Field, StageAt;
    StageAtOk(p, 2 * j);
    StageAtOk(p, 2 * j + 1);
    var k, row, at := KonstWord(p, j), p.rows[j / 2], 2 * (j % 2);
    var x, y := StageAt(p, 2 * j), StageAt(p, 2 * j + 1);
    FieldIs(k, 1, 4, 0, row[at], row[at + 1] + 4 * (x.kc + 32 * (x.ka + 32 * (y.kc + 32 * y.ka))));
    FieldIs(k, 4, 4, row[at], row[at + 1], x.kc + 32 * (x.ka + 32 * (y.kc + 32 * y.ka)));
    var lo := row[at] + 4 * row[at + 1];
    FieldIs(k, 0x10, 32, lo, x.kc, x.ka + 32 * (y.kc + 32 * y.ka));
    FieldIs(k, 0x200, 32, lo + 16 * x.kc, x.ka, y.kc + 32 * y.ka);
    FieldIs(k, 0x4000, 32, lo + 16 * (x.kc + 32 * x.ka), y.kc, y.ka);
    FieldIs(k, 0x8_0000, 32, lo + 16 * (x.kc + 32 * (x.ka + 32 * y.kc)), y.ka, 0);
  }

  lemma StageAtOk(p: Program, i: nat)
    requires ProgramOk(p)
    ensures ChoicesOk(StageAt(p, i))
  {
  }

  lemma SwapRead(p: Program, row: nat)
    requires ProgramOk(p) && row < 4
    ensures SwapFrom(Written(p), row) == p.rows[row]
  {
    hide Field, KonstWord;
    KonstRead(p, 2 * row);
    KonstRead(p, 2 * row + 1);
    assert Written(p).bp(0xF6 + 2 * row) == KonstWord(p, 2 * row) && Written(p).bp(0xF7 + 2 * row) == KonstWord(p, 2 * row + 1);
  }

  lemma KonstIs(p: Program, sel: nat, channel: nat)
    requires ProgramOk(p) && sel < 32 && channel < 4
    ensures KonstValue(Written(p), sel, channel) == KonstOf(p.konst, sel, channel)
  {
    if 16 <= sel {
      assert (sel - 16) % 4 == sel % 4 && (sel - 16) / 4 == sel / 4 - 4;
    }
  }

  lemma WordsAre(p: Program, st: nat)
    requires ProgramOk(p) && st < |p.st|
    ensures var w := Written(p);
            && w.bp(0xC0 + 2 * st) == ColourWord(p.st[st].colour) && w.bp(0xC1 + 2 * st) == AlphaWord(p.st[st])
            && w.bp(0x28 + st / 2) == OrderWord(p, st / 2) && w.bp(0xF6 + st / 2) == KonstWord(p, st / 2)
  {
    hide ColourWord, AlphaWord, OrderWord, KonstWord;
  }

  /** A stage's half of its order word. */
  lemma OrderOf(p: Program, st: nat)
    requires ProgramOk(p) && st < |p.st|
    ensures var tref := OrderWord(p, st / 2) / (if st % 2 == 1 then 0x1000 else 1);
            var c := p.st[st];
            Field(tref, 64, 2) == Bit(c.texen) && Field(tref, 1, 8) == c.texmap && Field(tref, 8, 8) == c.texcoord && Field(tref, 128, 8) == c.chan
  {
    hide Field, Order;
    var j := st / 2;
    StageAtOk(p, 2 * j);
    StageAtOk(p, 2 * j + 1);
    OrderRead(OrderWord(p, j), StageAt(p, 2 * j), Order(StageAt(p, 2 * j + 1)));
    OrderRead(Order(StageAt(p, 2 * j + 1)), StageAt(p, 2 * j + 1), 0);
  }

  lemma KonstsOf(p: Program, st: nat)
    requires ProgramOk(p) && st < |p.st|
    ensures var k := KonstWord(p, st / 2);
            && Field(k, if st % 2 == 1 then 0x4000 else 0x10, 32) == p.st[st].kc
            && Field(k, if st % 2 == 1 then 0x8_0000 else 0x200, 32) == p.st[st].ka
  {
    hide Field, KonstWord;
    KonstRead(p, st / 2);
  }

  lemma StageRead(p: Program, st: nat)
    requires ProgramOk(p) && st < |p.st|
    ensures StageFrom(Written(p), st) == StageOf(p, p.st[st])
  {
    hide Field, ColourWord, AlphaWord, KonstWord, KonstValue, KonstOf, SwapFrom, Order, OrderWord, Written, EnvOk;
    var c := p.st[st];
    assert ChoicesOk(c) && WordsOk(Written(p)) by { WrittenOk(p); }
    WordsAre(p, st);
    ColourRead(c.colour);
    AlphaRead(c);
    OrderOf(p, st);
    KonstsOf(p, st);
    SwapRead(p, c.rrow);
    SwapRead(p, c.trow);
    KonstIs(p, c.kc, 0);
    KonstIs(p, c.kc, 1);
    KonstIs(p, c.kc, 2);
    KonstIs(p, c.ka, 3);
  }

  lemma WrittenOk(p: Program)
    requires ProgramOk(p)
    ensures WordsOk(Written(p))
  {
  }

  /** The theorem: the setup made of a program's words is the program. */
  lemma ProgramRead(p: Program)
    requires ProgramOk(p)
    ensures var t := Prepared(Written(p));
            && |t.st| == |p.st| && (forall i | 0 <= i < |p.st| :: t.st[i] == StageOf(p, p.st[i]))
            && t.reg == p.reg && t.test == p.test
  {
    var w := Written(p);
    hide Field, ColourWord, AlphaWord, KonstWord, StageFrom, StageOf, OrderWord, ChoicesOk;
    forall i | 0 <= i < |p.st| ensures StageFrom(w, i) == StageOf(p, p.st[i]) {
      StageRead(p, i);
    }
    FieldIs(w.bp(0), 0x400, 16, 0, |p.st| - 1, 0);
    TestRead(p.test);
    assert forall j | 0 <= j < 16 :: Signed(w.reg[j]) == p.reg[j];
  }

  lemma TestRead(t: AlphaTest)
    requires t.comp0 < 8 && t.comp1 < 8 && t.logic < 4 && 0 <= t.ref0 < 256 && 0 <= t.ref1 < 256
    ensures var ac := TestWord(t);
            AlphaTest(Field(ac, 0x1_0000, 8), Field(ac, 1, 256), Field(ac, 0x8_0000, 8), Field(ac, 0x100, 256), Field(ac, 0x40_0000, 4)) == t
  {
    hide Field;
    var ac := TestWord(t);
    FieldIs(ac, 1, 256, 0, t.ref0, t.ref1 + 256 * (t.comp0 + 8 * (t.comp1 + 8 * t.logic)));
    FieldIs(ac, 0x100, 256, t.ref0, t.ref1, t.comp0 + 8 * (t.comp1 + 8 * t.logic));
    FieldIs(ac, 0x1_0000, 8, t.ref0 + 256 * t.ref1, t.comp0, t.comp1 + 8 * t.logic);
    FieldIs(ac, 0x8_0000, 8, t.ref0 + 256 * (t.ref1 + 256 * t.comp0), t.comp1, t.logic);
    FieldIs(ac, 0x40_0000, 4, t.ref0 + 256 * (t.ref1 + 256 * (t.comp0 + 8 * t.comp1)), t.logic, 0);
  }
}
