/**
  The flash memory card and its file (card_byte, card_dirty, card_flush, card_deselected,
  card_dma): a byte-driven command machine over 512 KB of flash, whose changes are written
  through to a file a dirty range at a time. Proved: outside that range card and file always
  agree once the file is open, so after the deselect that ends a program or an erase they
  agree everywhere but where a program was dropped because the file could not be opened;
  programs only clear bits; and what is programmed on erased flash reads back.
 */
module MemoryCard {
  const CARD_BYTES: nat := 0x8_0000
  const CARD_SECTOR: nat := 0x2000
  const CARD_ID: nat := 4

  const PROGRAM: nat := 0xF2
  const ERASE_SECTOR: nat := 0xF1
  const ERASE_CHIP: nat := 0xF4
  const READ: nat := 0x52

  type Flash = f: seq<bv8> | |f| == CARD_BYTES witness seq(CARD_BYTES, _ => 0xFF)

  /** The chip's address counter wraps at its end. */
  function At(a: nat, i: nat): (r: nat)
    ensures r < CARD_BYTES
  {
    (a + i) % CARD_BYTES
  }

  /** What has changed since the last write-through. */
  datatype Range = Clean | Dirty(lo: nat, hi: nat)

  /** card_dirty. */
  function Widened(r: Range, off: nat, n: nat): Range {
    match r
    case Clean => Dirty(off, off + n)
    case Dirty(lo, hi) => Dirty(if off < lo then off else lo, if off + n > hi then off + n else hi)
  }

  predicate InRange(r: Range, i: nat) { r.Dirty? && r.lo <= i < r.hi }

  // ---- the chip, a byte at a time ------------------------------------------------------------

  datatype Regs = Regs(addr: nat, cmd: nat, pos: nat, status: bv8, intEn: bool, intReq: bool)

  /** What a byte does to the flash. */
  datatype Effect = Nothing | Program(at: nat, v: bv8) | Erase(base: nat, n: nat)

  /** The address bytes' fields do not overlap: adding is or-ing. */
  function Addressed(r: Regs, v: nat): nat {
    if r.pos == 1 then v * 0x2_0000
    else if r.pos == 2 then r.addr + v * 0x200
    else if r.pos == 3 then r.addr + v % 4 * 0x80
    else if r.pos == 4 then r.addr + v % 0x80
    else r.addr
  }

  function EffectOf(r: Regs, v: bv8): (e: Effect)
    ensures e.Program? ==> e.at < CARD_BYTES
    ensures e.Erase? ==> e.base + e.n <= CARD_BYTES
  {
    if r.pos == 0 then Nothing
    else if r.cmd == PROGRAM && r.pos >= 5 then Program(At(r.addr, 0), v)
    else if r.cmd == ERASE_SECTOR && r.pos == 2 then
      Erase(Addressed(r, v as nat) % CARD_BYTES / CARD_SECTOR * CARD_SECTOR, CARD_SECTOR)
    else if r.cmd == ERASE_CHIP && r.pos == 2 then Erase(0, CARD_BYTES)
    else Nothing
  }

  function Applied(f: Flash, e: Effect): Flash
    requires e.Program? ==> e.at < CARD_BYTES
  {
    match e
    case Nothing => f
    case Program(at, v) => f[at := f[at] & v]
    case Erase(base, n) => seq(CARD_BYTES, i requires 0 <= i < CARD_BYTES => if base <= i < base + n then 0xFF else f[i])
  }

  function Touched(d: Range, e: Effect): Range {
    match e
    case Nothing => d
    case Program(at, _) => Widened(d, at, 1)
    case Erase(base, n) => Widened(d, base, n)
  }

  /** The registers after a byte. */
  function Stepped(r: Regs, v: bv8): Regs {
    var n := v as nat;
    if r.pos == 0 then
      // clear status is one byte long: the error bits go, and the interrupt line
      r.(cmd := n, pos := 1, status := if n == 0x89 then r.status & 0xE7 else r.status, intReq := n != 0x89 && r.intReq)
    else
      var at :=
        if r.cmd == READ then (if r.pos >= 9 then r.addr + 1 else Addressed(r, n))
        else if r.cmd == PROGRAM then (if r.pos >= 5 then r.addr + 1 else Addressed(r, n))
        else if r.cmd == ERASE_SECTOR && r.pos <= 2 then Addressed(r, n)
        else r.addr;
      r.(addr := at, pos := r.pos + 1, intEn := if r.cmd == 0x81 && r.pos == 1 then v & 1 == 1 else r.intEn)
  }

  /** The byte that comes back. */
  function Answer(r: Regs, f: Flash): bv8 {
    if r.pos == 0 then 0xFF
    else match r.cmd
      case 0x00 => if r.pos >= 2 && (r.pos - 2) % 4 == 3 then CARD_ID as bv8 else if r.pos >= 2 then 0 else 0xFF
      case 0x85 => if r.pos == 1 then 0x80 else if r.pos == 2 then 0xC2 else if r.pos == 3 then 0x21 else 0
      case 0x83 => r.status
      case 0x52 => if r.pos >= 9 then f[At(r.addr, 0)] else 0xFF
      case _ => 0xFF
  }

  datatype Chip = Chip(flash: Flash, regs: Regs, dirty: Range)

  function ByteIn(c: Chip, v: bv8): Chip {
    var e := EffectOf(c.regs, v);
    Chip(Applied(c.flash, e), Stepped(c.regs, v), Touched(c.dirty, e))
  }

  // ---- streams of bytes: how they are cut into transfers plays no part ------------------------

  function Sent(c: Chip, bytes: seq<bv8>): Chip {
    if bytes == [] then c else ByteIn(Sent(c, bytes[..|bytes| - 1]), bytes[|bytes| - 1])
  }

  function Answers(c: Chip, bytes: seq<bv8>): (r: seq<bv8>)
    ensures |r| == |bytes|
  {
    if bytes == [] then []
    else
      var before := Sent(c, bytes[..|bytes| - 1]);
      Answers(c, bytes[..|bytes| - 1]) + [Answer(before.regs, before.flash)]
  }

  /** Immediate transfers of one to four bytes and DMA of any length are the same stream. */
  lemma {:induction false} TransfersJoin(c: Chip, a: seq<bv8>, b: seq<bv8>)
    ensures Sent(c, a + b) == Sent(Sent(c, a), b)
    ensures Answers(c, a + b) == Answers(c, a) + Answers(Sent(c, a), b)
  {
    if b == [] {
      assert a + b == a;
    } else {
      var last := b[|b| - 1];
      assert (a + b)[..|a + b| - 1] == a + b[..|b| - 1];
      TransfersJoin(c, a, b[..|b| - 1]);
      assert Answers(c, a + b) == Answers(c, a + b[..|b| - 1]) + [Answer(Sent(c, a + b[..|b| - 1]).regs, Sent(c, a + b[..|b| - 1]).flash)];
    }
  }

  // ---- what programs and erases leave -----------------------------------------------------

  predicate Erases(c: Chip, bytes: seq<bv8>) {
    bytes != [] &&
    (|| Erases(c, bytes[..|bytes| - 1])
     || EffectOf(Sent(c, bytes[..|bytes| - 1]).regs, bytes[|bytes| - 1]).Erase?)
  }

  /** Between erases, bits only go from 1 to 0. */
  lemma {:induction false} BitsOnlyClear(c: Chip, bytes: seq<bv8>, i: nat)
    requires !Erases(c, bytes) && i < CARD_BYTES
    ensures Sent(c, bytes).flash[i] & c.flash[i] == Sent(c, bytes).flash[i]
  {
    if bytes != [] {
      BitsOnlyClear(c, bytes[..|bytes| - 1], i);
      var before := Sent(c, bytes[..|bytes| - 1]);
      var e := EffectOf(before.regs, bytes[|bytes| - 1]);
      ClearsMore(before.flash[i], c.flash[i], bytes[|bytes| - 1]);
    }
  }

  lemma ClearsMore(x: bv8, y: bv8, v: bv8)
    requires x & y == x
    ensures (x & v) & y == x & v
  {
  }

  /** Whatever a stream changes lies in the dirty range, which never shrinks. */
  lemma {:induction false} ChangesAreDirty(c: Chip, bytes: seq<bv8>, i: nat)
    requires i < CARD_BYTES
    ensures InRange(c.dirty, i) ==> InRange(Sent(c, bytes).dirty, i)
    ensures !InRange(Sent(c, bytes).dirty, i) ==> Sent(c, bytes).flash[i] == c.flash[i]
  {
    if bytes != [] {
      ChangesAreDirty(c, bytes[..|bytes| - 1], i);
    }
  }

  /** The four address bytes of a command, and the address they name. */
  datatype Place = Place(b1: bv8, b2: bv8, b3: bv8, b4: bv8) {
    function Address(): nat {
      b1 as nat * 0x2_0000 + b2 as nat * 0x200 + b3 as nat % 4 * 0x80 + b4 as nat % 0x80
    }

    function Command(cmd: bv8): (r: seq<bv8>)
      ensures |r| == 5
    {
      [cmd, b1, b2, b3, b4]
    }
  }

  lemma SentMore(c: Chip, bytes: seq<bv8>, v: bv8)
    ensures Sent(c, bytes + [v]) == ByteIn(Sent(c, bytes), v)
  {
    assert (bytes + [v])[..|bytes|] == bytes;
  }

  lemma SentCommand(c: Chip, cmd: bv8, p: Place)
    ensures Sent(c, p.Command(cmd)) == ByteIn(ByteIn(ByteIn(ByteIn(ByteIn(c, cmd), p.b1), p.b2), p.b3), p.b4)
  {
    assert p.Command(cmd) == [cmd, p.b1, p.b2, p.b3, p.b4] && Sent(c, []) == c;
    FiveOf(cmd, p.b1, p.b2, p.b3, p.b4);
    hide *;
    SentMore(c, [], cmd);
    SentMore(c, [cmd], p.b1);
    SentMore(c, [cmd, p.b1], p.b2);
    SentMore(c, [cmd, p.b1, p.b2], p.b3);
    SentMore(c, [cmd, p.b1, p.b2, p.b3], p.b4);
  }

  lemma FiveOf<T>(a: T, b: T, c: T, d: T, e: T)
    ensures [] + [a] == [a] && [a] + [b] == [a, b] && [a, b] + [c] == [a, b, c]
    ensures [a, b, c] + [d] == [a, b, c, d] && [a, b, c, d] + [e] == [a, b, c, d, e]
  {
  }

  lemma AddressByte(c: Chip, v: bv8)
    requires (c.regs.cmd == PROGRAM || c.regs.cmd == READ) && 1 <= c.regs.pos <= 4
    ensures var d := ByteIn(c, v);
            d == c.(regs := c.regs.(addr := Addressed(c.regs, v as nat), pos := c.regs.pos + 1))
  {
  }

  lemma AddressSent(c: Chip, cmd: bv8, p: Place)
    requires (cmd as nat == PROGRAM || cmd as nat == READ) && c.regs.pos == 0
    ensures var d := Sent(c, p.Command(cmd));
            && d.flash == c.flash && d.dirty == c.dirty
            && d.regs.addr == p.Address() && d.regs.pos == 5 && d.regs.cmd == cmd as nat
  {
    SentCommand(c, cmd, p);
    var c0 := ByteIn(c, cmd);
    assert c0.regs.cmd == cmd as nat && c0.regs.pos == 1 && c0.flash == c.flash && c0.dirty == c.dirty;
    hide ByteIn, Sent;
    AddressByte(c0, p.b1);
    var c1 := ByteIn(c0, p.b1);
    AddressByte(c1, p.b2);
    var c2 := ByteIn(c1, p.b2);
    AddressByte(c2, p.b3);
    var c3 := ByteIn(c2, p.b3);
    AddressByte(c3, p.b4);
  }

  lemma Apart(a: nat, i: nat, n: nat)
    requires i < CARD_BYTES && n < CARD_BYTES && At(a, n) == At(a, i)
    ensures n == i
  {
  }

  lemma AtMoves(a: nat, n: nat)
    ensures At(a + n, 0) == At(a, n)
  {
  }

  lemma ProgramByte(c: Chip, v: bv8)
    requires c.regs.cmd == PROGRAM && c.regs.pos >= 5
    ensures var d := ByteIn(c, v);
            && d.regs == c.regs.(addr := c.regs.addr + 1, pos := c.regs.pos + 1)
            && d.flash == c.flash[At(c.regs.addr, 0) := c.flash[At(c.regs.addr, 0)] & v]
  {
    hide At;
  }

  /** Data bytes clear the flash from a on, each its own byte. */
  lemma {:induction false} ProgramRuns(c: Chip, a: nat, data: seq<bv8>, i: nat)
    requires c.regs.cmd == PROGRAM && c.regs.pos == 5 && c.regs.addr == a && |data| <= CARD_BYTES && i < CARD_BYTES
    ensures var d := Sent(c, data);
            && d.regs.cmd == PROGRAM && d.regs.pos == 5 + |data| && d.regs.addr == a + |data|
            && d.flash[At(a, i)] == if i < |data| then c.flash[At(a, i)] & data[i] else c.flash[At(a, i)]
  {
    hide At, ByteIn;
    if data != [] {
      var n := |data| - 1;
      ProgramRuns(c, a, data[..n], i);
      ProgramByte(Sent(c, data[..n]), data[n]);
      AtMoves(a, n);
      if At(a, n) == At(a, i) {
        Apart(a, i, n);
      }
    }
  }

  lemma ReadByte(c: Chip, v: bv8)
    requires c.regs.cmd == READ && c.regs.pos >= 5
    ensures var d := ByteIn(c, v);
            d.flash == c.flash && d.regs == c.regs.(pos := c.regs.pos + 1, addr := if c.regs.pos >= 9 then c.regs.addr + 1 else c.regs.addr)
    ensures c.regs.pos >= 9 ==> Answer(c.regs, c.flash) == c.flash[At(c.regs.addr, 0)]
  {
    hide At;
  }

  /** After the address come four bytes of latency, then the flash from a on. */
  lemma {:induction false} ReadRuns(c: Chip, a: nat, clocks: seq<bv8>, i: nat)
    requires c.regs.cmd == READ && c.regs.pos == 5 && c.regs.addr == a
    ensures var d := Sent(c, clocks);
            && d.flash == c.flash && d.regs.cmd == READ && d.regs.pos == 5 + |clocks|
            && d.regs.addr == if |clocks| <= 4 then a else a + (|clocks| - 4)
    ensures 4 <= i < |clocks| ==> Answers(c, clocks)[i] == c.flash[At(a, i - 4)]
  {
    hide At, ByteIn, Answer;
    if clocks != [] {
      var n := |clocks| - 1;
      ReadRuns(c, a, clocks[..n], i);
      ReadByte(Sent(c, clocks[..n]), clocks[n]);
      if 4 <= n {
        AtMoves(a, n - 4);
      }
    }
  }

  /** The next transaction, on the card as this one left it. */
  function Reselected(c: Chip): Chip { c.(regs := c.regs.(pos := 0)) }

  lemma ProgramStarts(c: Chip, p: Place)
    requires c.regs.pos == 0
    ensures var d := Sent(c, p.Command(0xF2));
            d.flash == c.flash && d.regs.addr == p.Address() && d.regs.pos == 5 && d.regs.cmd == PROGRAM
  {
    AddressSent(c, 0xF2, p);
    hide Sent;
  }

  /** A program of one byte, from the command on. */
  lemma OneProgrammed(c: Chip, p: Place, v: bv8)
    requires c.regs.pos == 0
    ensures var a, d := At(p.Address(), 0), Sent(c, p.Command(0xF2) + [v]);
            && d.flash == c.flash[a := c.flash[a] & v] && d.dirty == Widened(c.dirty, a, 1)
            && d.regs.cmd == PROGRAM
  {
    AddressSent(c, 0xF2, p);
    SentMore(c, p.Command(0xF2), v);
    hide Sent, At;
  }

  lemma ReadStarts(c: Chip, p: Place)
    requires c.regs.pos == 0
    ensures var d := Sent(c, p.Command(0x52));
            d.flash == c.flash && d.regs.addr == p.Address() && d.regs.pos == 5 && d.regs.cmd == READ
  {
    AddressSent(c, 0x52, p);
    hide Sent;
  }

  lemma Programmed(c: Chip, p: Place, data: seq<bv8>, i: nat)
    requires c.regs.pos == 0 && i < |data| <= CARD_BYTES
    ensures var at := At(p.Address(), i);
            Sent(c, p.Command(0xF2) + data).flash[at] == c.flash[at] & data[i]
  {
    hide *;
    ProgramStarts(c, p);
    TransfersJoin(c, p.Command(0xF2), data);
    ProgramRuns(Sent(c, p.Command(0xF2)), p.Address(), data, i);
  }

  lemma Reads(c: Chip, p: Place, clocks: seq<bv8>, i: nat)
    requires c.regs.pos == 0 && i + 4 < |clocks|
    ensures Answers(c, p.Command(0x52) + clocks)[9 + i] == c.flash[At(p.Address(), i)]
  {
    hide *;
    ReadStarts(c, p);
    TransfersJoin(c, p.Command(0x52), clocks);
    ReadRuns(Sent(c, p.Command(0x52)), p.Address(), clocks, 4 + i);
  }

  /** The round trip: what is programmed reads back through the mask of what was there, and
      on erased flash it reads back as it was sent. */
  lemma ProgramReadsBack(c: Chip, p: Place, data: seq<bv8>, clocks: seq<bv8>, i: nat)
    requires c.regs.pos == 0 && |clocks| == |data| + 4 && i < |data| <= CARD_BYTES
    ensures var again := Reselected(Sent(c, p.Command(0xF2) + data));
            var was := c.flash[At(p.Address(), i)];
            && Answers(again, p.Command(0x52) + clocks)[9 + i] == was & data[i]
            && (was == 0xFF ==> was & data[i] == data[i])
  {
    Programmed(c, p, data, i);
    hide Sent, Answers;
    Reads(Reselected(Sent(c, p.Command(0xF2) + data)), p, clocks, i);
  }

  // ---- what an erase blanks -----------------------------------------------------------------------

  /** A sector erase's two address bytes name any byte of the sector. */
  function Sector(b1: bv8, b2: bv8): (s: nat)
    ensures s < CARD_BYTES / CARD_SECTOR
  {
    (b1 as nat * 0x2_0000 + b2 as nat * 0x200) / CARD_SECTOR % (CARD_BYTES / CARD_SECTOR)
  }

  lemma SectorBase(a: nat)
    ensures a % CARD_BYTES / CARD_SECTOR == a / CARD_SECTOR % (CARD_BYTES / CARD_SECTOR)
  {
  }

  lemma SentThree(c: Chip, x: bv8, y: bv8, z: bv8)
    ensures Sent(c, [x, y, z]) == ByteIn(ByteIn(ByteIn(c, x), y), z)
  {
    assert Sent(c, []) == c && [] + [x] == [x] && [x] + [y] == [x, y] && [x, y] + [z] == [x, y, z];
    hide *;
    SentMore(c, [], x);
    SentMore(c, [x], y);
    SentMore(c, [x, y], z);
  }

  lemma {:induction false} BytesPastAnErase(c: Chip, more: seq<bv8>)
    requires (c.regs.cmd == ERASE_SECTOR || c.regs.cmd == ERASE_CHIP) && c.regs.pos >= 3
    ensures var d := Sent(c, more);
            d.flash == c.flash && d.dirty == c.dirty && d.regs.cmd == c.regs.cmd && d.regs.pos == c.regs.pos + |more|
  {
    if more != [] {
      BytesPastAnErase(c, more[..|more| - 1]);
    }
  }

  /** A sector erase blanks the sector its two bytes name and nothing else; a chip erase blanks
      the card. What is sent after the two bytes changes nothing. */
  lemma EraseBlanks(c: Chip, b1: bv8, b2: bv8, more: seq<bv8>, i: nat)
    requires c.regs.pos == 0 && i < CARD_BYTES
    ensures Sent(c, [0xF1, b1, b2] + more).flash[i] == if i / CARD_SECTOR == Sector(b1, b2) then 0xFF else c.flash[i]
    ensures Sent(c, [0xF4, b1, b2] + more).flash[i] == 0xFF
  {
    SectorErased(c, b1, b2, i);
    ChipErased(c, b1, b2);
    hide *;
    TransfersJoin(c, [0xF1, b1, b2], more);
    TransfersJoin(c, [0xF4, b1, b2], more);
    BytesPastAnErase(Sent(c, [0xF1, b1, b2]), more);
    BytesPastAnErase(Sent(c, [0xF4, b1, b2]), more);
  }

  lemma InSector(a: nat, i: nat)
    requires i < CARD_BYTES
    ensures var base := a % CARD_BYTES / CARD_SECTOR * CARD_SECTOR;
            base <= i < base + CARD_SECTOR <==> i / CARD_SECTOR == a / CARD_SECTOR % (CARD_BYTES / CARD_SECTOR)
  {
    SectorBase(a);
  }

  lemma EraseBegins(c: Chip, b1: bv8)
    requires c.regs.pos == 0
    ensures var d := ByteIn(ByteIn(c, 0xF1), b1);
            d.flash == c.flash && d.regs.cmd == ERASE_SECTOR && d.regs.pos == 2 && d.regs.addr == b1 as nat * 0x2_0000
  {
    hide Answer;
  }

  lemma EraseByte(c: Chip, v: bv8, a: nat, i: nat)
    requires c.regs.cmd == ERASE_SECTOR && c.regs.pos == 2 && a == c.regs.addr + v as nat * 0x200 && i < CARD_BYTES
    ensures var d, base := ByteIn(c, v), a % CARD_BYTES / CARD_SECTOR * CARD_SECTOR;
            && d.flash[i] == (if base <= i < base + CARD_SECTOR then 0xFF else c.flash[i])
            && d.regs.cmd == ERASE_SECTOR && d.regs.pos == 3
  {
    assert EffectOf(c.regs, v) == Erase(a % CARD_BYTES / CARD_SECTOR * CARD_SECTOR, CARD_SECTOR);
    hide EffectOf;
  }

  lemma SectorErased(c: Chip, b1: bv8, b2: bv8, i: nat)
    requires c.regs.pos == 0 && i < CARD_BYTES
    ensures var d := Sent(c, [0xF1, b1, b2]);
            && d.flash[i] == (if i / CARD_SECTOR == Sector(b1, b2) then 0xFF else c.flash[i])
            && d.regs.cmd == ERASE_SECTOR && d.regs.pos == 3
  {
    hide Sent, ByteIn;
    SentThree(c, 0xF1, b1, b2);
    EraseBegins(c, b1);
    var a := b1 as nat * 0x2_0000 + b2 as nat * 0x200;
    EraseByte(ByteIn(ByteIn(c, 0xF1), b1), b2, a, i);
    InSector(a, i);
  }

  lemma ChipErased(c: Chip, b1: bv8, b2: bv8)
    requires c.regs.pos == 0
    ensures var d := Sent(c, [0xF4, b1, b2]);
            && (forall i | 0 <= i < CARD_BYTES :: d.flash[i] == 0xFF) && d.regs.cmd == ERASE_CHIP && d.regs.pos == 3
  {
    hide Sent;
    SentThree(c, 0xF4, b1, b2);
  }

  /** And on the sector just erased a program reads back as it was sent. */
  lemma ErasedProgramReadsBack(c: Chip, b1: bv8, b2: bv8, p: Place, data: seq<bv8>, clocks: seq<bv8>, i: nat)
    requires c.regs.pos == 0 && |clocks| == |data| + 4 && i < |data| <= CARD_BYTES
    requires At(p.Address(), i) / CARD_SECTOR == Sector(b1, b2)
    ensures var erased := Reselected(Sent(c, [0xF1, b1, b2]));
            var again := Reselected(Sent(erased, p.Command(0xF2) + data));
            Answers(again, p.Command(0x52) + clocks)[9 + i] == data[i]
  {
    SectorErased(c, b1, b2, At(p.Address(), i));
    hide Sent, Answers, At, Sector;
    ProgramReadsBack(Reselected(Sent(c, [0xF1, b1, b2])), p, data, clocks, i);
  }

  // ---- registers: identity, status, interrupts ---------------------------------------------------

  lemma SentFirst(c: Chip, cmd: bv8)
    requires c.regs.pos == 0
    ensures var d := Sent(c, [cmd]); d == ByteIn(c, cmd) && d.flash == c.flash && d.dirty == c.dirty && d.regs.cmd == cmd as nat && d.regs.pos == 1
    ensures cmd != 0x89 ==> Sent(c, [cmd]).regs == c.regs.(cmd := cmd as nat, pos := 1)
  {
    assert Sent(c, []) == c && [] + [cmd] == [cmd];
    SentMore(c, [], cmd);
    hide Sent;
    assert cmd != 0x89 ==> cmd as nat != 0x89;
  }

  /** The commands that only ask leave everything but their place in the command. */
  lemma {:induction false} AskingKeeps(c: Chip, bytes: seq<bv8>)
    requires c.regs.pos >= 1 && (c.regs.cmd == 0x00 || c.regs.cmd == 0x83 || c.regs.cmd == 0x85)
    ensures Sent(c, bytes) == c.(regs := c.regs.(pos := c.regs.pos + |bytes|))
  {
    if bytes != [] {
      AskingKeeps(c, bytes[..|bytes| - 1]);
    }
  }

  lemma {:induction false} AnswerAt(c: Chip, bytes: seq<bv8>, i: nat)
    requires i < |bytes|
    ensures Answers(c, bytes)[i] == Answer(Sent(c, bytes[..i]).regs, Sent(c, bytes[..i]).flash)
  {
    if i < |bytes| - 1 {
      AnswerAt(c, bytes[..|bytes| - 1], i);
      assert bytes[..|bytes| - 1][..i] == bytes[..i];
    }
  }

  lemma Asked(c: Chip, cmd: bv8, clocks: seq<bv8>, i: nat)
    requires c.regs.pos == 0 && (cmd == 0x00 || cmd == 0x83 || cmd == 0x85) && i < |clocks|
    ensures Answers(c, [cmd] + clocks)[1 + i] == Answer(c.regs.(cmd := cmd as nat, pos := 1 + i), c.flash)
  {
    hide Answer, Answers, ByteIn;
    var bytes := [cmd] + clocks;
    AnswerAt(c, bytes, 1 + i);
    assert bytes[..1 + i] == [cmd] + clocks[..i];
    TransfersJoin(c, [cmd], clocks[..i]);
    SentFirst(c, cmd);
    hide Sent;
    AskingKeeps(Sent(c, [cmd]), clocks[..i]);
  }

  /** The card says who it is: four bytes of device, the most significant first, and again for as
      long as it is asked; and its maker's. */
  lemma Identity(c: Chip, clocks: seq<bv8>, i: nat)
    requires c.regs.pos == 0 && i < |clocks|
    ensures i > 0 ==> Answers(c, [0x00] + clocks)[1 + i] == if i % 4 == 0 then 4 else 0
    ensures Answers(c, [0x85] + clocks)[1 + i] == if i == 0 then 0x80 else if i == 1 then 0xC2 else if i == 2 then 0x21 else 0
  {
    hide Answers, Answer;
    Asked(c, 0x00, clocks, i);
    Asked(c, 0x85, clocks, i);
    if i > 0 {
      DeviceByte(c.regs.(cmd := 0x00, pos := 1 + i), c.flash, i);
    }
    MakerByte(c.regs.(cmd := 0x85, pos := 1 + i), c.flash, i);
  }

  lemma DeviceByte(r: Regs, f: Flash, i: nat)
    requires r.cmd == 0x00 && r.pos == 1 + i && i > 0
    ensures Answer(r, f) == if i % 4 == 0 then 4 else 0
  {
    Fourth(i);
    hide At;
  }

  lemma Fourth(i: nat)
    requires i > 0
    ensures (i - 1) % 4 == 3 <==> i % 4 == 0
  {
  }

  lemma MakerByte(r: Regs, f: Flash, i: nat)
    requires r.cmd == 0x85 && r.pos == 1 + i
    ensures Answer(r, f) == if i == 0 then 0x80 else if i == 1 then 0xC2 else if i == 2 then 0x21 else 0
  {
    hide At;
  }

  /** The status reads as it is, and clearing it takes the two error bits and the interrupt and
      nothing else. */
  lemma StatusClears(c: Chip, clocks: seq<bv8>, i: nat)
    requires c.regs.pos == 0 && i < |clocks|
    ensures Answers(c, [0x83] + clocks)[1 + i] == c.regs.status
    ensures var d := Reselected(Sent(c, [0x89]));
            && Answers(d, [0x83] + clocks)[1 + i] & 0x18 == 0
            && Answers(d, [0x83] + clocks)[1 + i] | (c.regs.status & 0x18) == c.regs.status
            && !d.regs.intReq && d.regs.intEn == c.regs.intEn && d.flash == c.flash && d.dirty == c.dirty
  {
    var d := Reselected(Sent(c, [0x89]));
    SentFirst(c, 0x89);
    hide Sent, Answers;
    Asked(c, 0x83, clocks, i);
    Asked(d, 0x83, clocks, i);
    WithoutErrors(c.regs.status);
  }

  lemma WithoutErrors(v: bv8)
    ensures (v & 0xE7) & 0x18 == 0 && (v & 0xE7) | (v & 0x18) == v
  {
  }

  /** Whether the end of a write raises the interrupt is one bit of the byte after 0x81. */
  lemma InterruptSet(c: Chip, v: bv8)
    requires c.regs.pos == 0
    ensures var d := Sent(c, [0x81, v]); d.regs.intEn == (v & 1 == 1) && d.regs.intReq == c.regs.intReq && d.flash == c.flash && d.dirty == c.dirty
  {
    SentFirst(c, 0x81);
    assert [0x81] + [v] == [0x81, v];
    SentMore(c, [0x81], v);
    hide Sent;
  }
}
