/**
  The card in its slot and the file behind it: transactions framed by the chip select, and
  the write-through at their end.
 */
module CardFile {
  import opened MemoryCard

  datatype Disk = Absent | Holding(bytes: seq<bv8>)

  /** fwrite of `data` at `lo`, inside the file or at its end. */
  function Overwritten(file: seq<bv8>, lo: nat, data: seq<bv8>): (r: seq<bv8>)
    requires lo <= |file|
    ensures |r| == if lo + |data| > |file| then lo + |data| else |file|
    ensures forall i | 0 <= i < |r| :: r[i] == if lo <= i < lo + |data| then data[i - lo] else file[i]
  {
    file[..lo] + data + if lo + |data| < |file| then file[lo + |data|..] else []
  }

  predicate Writes(cmd: nat) { cmd == ERASE_SECTOR || cmd == PROGRAM || cmd == ERASE_CHIP }

  class Card {
    const flash: array<bv8>
    var regs: Regs
    var dirty: Range
    var selected: int      // the device selected, or -1; the card is 0
    var latched: bool      // the interrupt, in the channel's status
    var file: Disk
    var fileOpen: bool
    ghost const loaded: Disk  // the file, as card_load found it
    // bytes whose last write-through was dropped because the file could not be opened
    ghost var lost: set<nat>

    ghost function Now(): Chip
      reads this, flash
      requires flash.Length == CARD_BYTES
    {
      Chip(flash[..], regs, dirty)
    }

    /** The file is the card's size or more: it can hold what the card holds. */
    ghost predicate Backed()
      reads this
    {
      file.Holding? && CARD_BYTES <= |file.bytes|
    }

    ghost predicate Agrees(i: nat)
      reads this, flash
      requires flash.Length == CARD_BYTES && i < CARD_BYTES && Backed()
    {
      file.bytes[i] == flash[i]
    }

    /** The file's first 512 KB are the card. */
    ghost predicate FileIsCard()
      reads this, flash
      requires flash.Length == CARD_BYTES
    {
      Backed() && file.bytes[..CARD_BYTES] == flash[..]
    }

    /** The flash holds at i what the file did when it was loaded. */
    ghost predicate AsLoaded(i: nat)
      reads this, flash
      requires flash.Length == CARD_BYTES && i < CARD_BYTES
    {
      loaded.Holding? && i < |loaded.bytes| && flash[i] == loaded.bytes[i]
    }

    ghost predicate Valid()
      reads this, flash
    {
      && flash.Length == CARD_BYTES
      && (dirty.Dirty? ==> dirty.lo < dirty.hi <= CARD_BYTES)
      && (fileOpen ==> Backed())
      // outside the dirty range the two agree
      && (Backed() ==> forall i: nat | i < CARD_BYTES && !InRange(dirty, i) && i !in lost :: Agrees(i))
      // a dropped byte is in the file as it was loaded
      && (!fileOpen ==> file == loaded)
      && (forall i | i in lost :: i < CARD_BYTES)
      && (Backed() && lost != {} ==>
            loaded.Holding? && |loaded.bytes| == |file.bytes| && forall i | i in lost :: file.bytes[i] == loaded.bytes[i])
      // and only a program or an erase under way leaves one
      && (dirty.Dirty? ==> selected == 0 && 0 < regs.pos && Writes(regs.cmd))
    }

    /** card_load: blank flash, and as much of the file over it as there is. */
    constructor (file: Disk)
      ensures Valid() && fresh(flash) && lost == {} && !fileOpen && this.file == file == loaded
      ensures dirty == Clean && selected == -1
      ensures forall i | 0 <= i < CARD_BYTES ::
                flash[i] == if file.Holding? && i < |file.bytes| then file.bytes[i] else 0xFF
    {
      flash := new bv8[CARD_BYTES](i => if file.Holding? && 0 <= i < |file.bytes| then file.bytes[i] else 0xFF);
      regs := Regs(0, 0, 0, 0x41, false, false);
      dirty, selected, latched, fileOpen, lost := Clean, -1, false, false, {};
      this.file, loaded := file, file;
    }

    /** What a byte does to the flash, in place. */
    method Change(e: Effect)
      requires flash.Length == CARD_BYTES && (e.Program? ==> e.at < CARD_BYTES) && (e.Erase? ==> e.base + e.n <= CARD_BYTES)
      modifies flash
      ensures flash[..] == Applied(old(flash[..]), e)
    {
      ghost var was: Flash := flash[..];
      match e {
        case Nothing =>
        case Program(at, b) =>
          flash[at] := flash[at] & b;
          assert flash[..] == was[at := was[at] & b];
        case Erase(base, n) =>
          forall i | base <= i < base + n {
            flash[i] := 0xFF;
          }
          assert flash[..] == Applied(was, e);
      }
    }

    /** card_byte. */
    method Byte(v: bv8) returns (out: bv8)
      requires Valid() && selected == 0
      modifies this`regs, this`dirty, flash
      ensures Valid() && Now() == ByteIn(old(Now()), v)
      ensures out == Answer(old(regs), old(flash[..]))
    {
      out := Answer(regs, flash[..]);
      ByteKeeps(regs, v, dirty, flash[..]);
      hide Answer, EffectOf, Applied, Touched, Stepped, InRange, Writes;
      ghost var was: Flash := flash[..];
      var e := EffectOf(regs, v);
      Change(e);
      forall i: nat | i < CARD_BYTES && !InRange(Touched(dirty, e), i)
        ensures flash[i] == was[i] && !InRange(dirty, i)
      {
        assert flash[..][i] == Applied(was, e)[i];
      }
      dirty := Touched(dirty, e);
      regs := Stepped(regs, v);
    }

    /** The file's bytes; a file that was not there is created empty. */
    ghost function Bytes(): seq<bv8>
      reads this
    {
      if file.Holding? then file.bytes else []
    }

    /** A file just opened whose size is not the card's. */
    ghost predicate Resized()
      reads this
    {
      !fileOpen && |Bytes()| != CARD_BYTES
    }

    /** What a flush writes: the dirty range, or the whole card. */
    ghost function Spread(): (r: Range)
      requires dirty.Dirty? && dirty.lo < dirty.hi <= CARD_BYTES && (!Resized() ==> CARD_BYTES <= |Bytes()|)
      reads this
      ensures r.Dirty? && r.lo <= |Bytes()| && r.lo < r.hi <= CARD_BYTES
    {
      if Resized() then Dirty(0, CARD_BYTES) else dirty
    }

    /** When a flush makes the file the card. If the file is open or opens: when it is then
        written whole, or every dropped byte is in the dirty range or back to what was loaded.
        If it does not: when nothing dropped, now or before, differs from what was loaded. */
    ghost predicate Heals(opens: bool)
      requires flash.Length == CARD_BYTES && forall i | i in lost :: i < CARD_BYTES
      requires dirty.Dirty? ==> dirty.hi <= CARD_BYTES
      reads this, flash
    {
      if fileOpen || opens then Resized() || forall i | i in lost :: InRange(dirty, i) || AsLoaded(i)
      else Backed() && forall i: nat | i < CARD_BYTES && (i in lost || InRange(dirty, i)) :: AsLoaded(i)
    }

    /** What a flush does to the file, and to what was dropped. */
    twostate predicate Flushed(opens: bool)
      requires old(Valid())
      reads this, flash
    {
      if old(dirty) == Clean then file == old(file) && fileOpen == old(fileOpen) && lost == old(lost)
      else if old(fileOpen) || opens then
        && fileOpen && file == old(var d := Spread(); Holding(Overwritten(Bytes(), d.lo, flash[d.lo..d.hi])))
        && forall i :: i in lost <==> i in old(lost) && !old(Resized()) && !InRange(old(dirty), i)
      else
        && !fileOpen && file == old(file)
        && forall i :: i in lost <==> i in old(lost) || InRange(old(dirty), i)
    }

    /** card_flush. A file that was not there, or is of another size, is written whole. */
    method Flush(opens: bool)
      requires Valid()
      modifies this`dirty, this`file, this`fileOpen, this`lost
      ensures Valid() && dirty == Clean
      ensures Flushed(opens)
      ensures old(dirty).Dirty? ==> (FileIsCard() <==> old(Heals(opens)))
    {
      if dirty == Clean {
        return;
      }
      if fileOpen || opens {
        WriteOut();
        Settled();
      } else {
        Forget();
      }
    }

    /** The file is open, or opens. */
    method WriteOut()
      requires Valid() && dirty.Dirty?
      modifies this`dirty, this`file, this`fileOpen, this`lost
      ensures Valid() && dirty == Clean && Flushed(true)
    {
      hide Overwritten, Writes;
      if !fileOpen {
        fileOpen := true;
        if file == Absent {
          file := Holding([]);
        }
        if |file.bytes| != CARD_BYTES {
          dirty := Dirty(0, CARD_BYTES);
        }
      }
      lost := set i | i in lost && !InRange(dirty, i);
      file := Holding(Overwritten(file.bytes, dirty.lo, flash[dirty.lo..dirty.hi]));
      dirty := Clean;
    }

    /** The file could not be opened: what was dirty is forgotten. */
    method Forget()
      requires Valid() && dirty.Dirty? && !fileOpen
      modifies this`dirty, this`lost
      ensures Valid() && dirty == Clean && Flushed(false)
      ensures FileIsCard() <==> old(Heals(false))
    {
      lost := lost + (set i: nat | i < CARD_BYTES && InRange(dirty, i));
      dirty := Clean;
      Settled();
    }

    /** card_deselected: the end of a program or an erase. */
    method Deselected(opens: bool)
      requires Valid() && selected == 0
      modifies this`regs, this`dirty, this`latched, this`file, this`fileOpen, this`lost
      ensures Valid() && dirty == Clean
      ensures Flushed(opens) && (old(dirty).Dirty? ==> (FileIsCard() <==> old(Heals(opens))))
      // the line rises once, and stays until clear-status lets go of it
      ensures regs == old(regs).(intReq := old(regs).intReq || (Writes(old(regs).cmd) && old(regs).intEn))
      ensures latched <==> old(latched) || (Writes(old(regs).cmd) && old(regs).intEn && !old(regs).intReq)
    {
      if !Writes(regs.cmd) {
        return;
      }
      Flush(opens);
      if regs.intEn && !regs.intReq {
        regs := regs.(intReq := true);
        latched := true;
      }
    }

    /** A write to the channel's status that selects a device: 0 is the card. */
    method Select(sel: int, opens: bool)
      requires Valid()
      modifies this`regs, this`dirty, this`latched, this`file, this`fileOpen, this`lost, this`selected
      ensures Valid() && selected == sel
      // selecting what is selected changes nothing; anything else starts a transaction
      ensures sel == old(selected) ==>
        && Now() == old(Now()) && latched == old(latched)
        && file == old(file) && fileOpen == old(fileOpen) && lost == old(lost)
      ensures sel != old(selected) ==> regs.pos == 0 && dirty == Clean
      ensures sel != old(selected) && old(selected) != 0 ==>
        && regs == old(regs).(pos := 0) && latched == old(latched)
        && file == old(file) && fileOpen == old(fileOpen) && lost == old(lost)
      ensures sel != old(selected) && old(selected) == 0 ==>
        && regs == old(regs).(pos := 0, intReq := old(regs).intReq || (Writes(old(regs).cmd) && old(regs).intEn))
        && (latched <==> old(latched) || (Writes(old(regs).cmd) && old(regs).intEn && !old(regs).intReq))
      ensures sel != 0 ==> Flushed(opens)
      ensures sel != 0 && old(dirty).Dirty? ==> (FileIsCard() <==> old(Heals(opens)))
      ensures sel != 0 ==> (FileIsCard() <==> Backed() && forall i | i in lost :: AsLoaded(i))
    {
      if sel != selected {
        if selected == 0 {
          Deselected(opens);
        }
        selected := sel;
        regs := regs.(pos := 0);
      }
      if sel != 0 {
        Settled();
      }
    }

    /** Nothing dirty: the file is the card when it is big enough to be, and what was dropped
        is as it was loaded. */
    lemma Settled()
      requires Valid() && dirty == Clean
      ensures FileIsCard() <==> Backed() && forall i | i in lost :: AsLoaded(i)
    {
      if Backed() {
        assert forall i: nat | i < CARD_BYTES :: file.bytes[..CARD_BYTES][i] == file.bytes[i] && flash[..][i] == flash[i];
        if FileIsCard() {
          assert forall i: nat | i < CARD_BYTES :: file.bytes[..CARD_BYTES][i] == flash[..][i];
        } else if forall i | i in lost :: AsLoaded(i) {
          forall i: nat | i < CARD_BYTES
            ensures file.bytes[..CARD_BYTES][i] == flash[..][i]
          {
            if i !in lost {
              assert Agrees(i);
            }
          }
        }
      }
    }

    /** card_dma: the same stream of bytes, from memory or into it; dropped past its end. */
    method Dma(mem: array<bv8>, at: nat, n: nat, send: bool)
      requires Valid() && selected == 0 && mem != flash
      modifies this`regs, this`dirty, flash, mem
      ensures Valid()
      ensures at + n > mem.Length ==> Now() == old(Now()) && mem[..] == old(mem[..])
      ensures at + n <= mem.Length && send ==> Now() == Sent(old(Now()), old(mem[at..at + n])) && mem[..] == old(mem[..])
      ensures at + n <= mem.Length && !send ==>
        && Now() == Sent(old(Now()), seq(n, _ => 0)) && mem[at..at + n] == Answers(old(Now()), seq(n, _ => 0))
        && mem[..at] == old(mem[..at]) && mem[at + n..] == old(mem[at + n..])
    {
      if at + n > mem.Length {
        return;
      }
      if send {
        SendAll(mem, at, n);
      } else {
        ReadAll(mem, at, n);
      }
    }

    method SendAll(mem: array<bv8>, at: nat, n: nat)
      requires Valid() && selected == 0 && mem != flash && at + n <= mem.Length
      modifies this`regs, this`dirty, flash
      ensures Valid() && Now() == Sent(old(Now()), mem[at..at + n])
    {
      hide Sent, ByteIn, Answer;
      ghost var c, bytes := Now(), mem[at..at + n];
      NothingSent(c);
      var i := 0;
      while i < n
        invariant 0 <= i <= n && Valid() && bytes == mem[at..at + n]
        invariant Now() == Sent(c, bytes[..i])
      {
        SentMore(c, bytes[..i], bytes[i]);
        assert bytes[..i + 1] == bytes[..i] + [bytes[i]];
        var out := Byte(mem[at + i]);
        i := i + 1;
      }
      assert bytes[..i] == bytes;
    }

    method ReadAll(mem: array<bv8>, at: nat, n: nat)
      requires Valid() && selected == 0 && mem != flash && at + n <= mem.Length
      modifies this`regs, this`dirty, flash, mem
      ensures Valid() && Now() == Sent(old(Now()), seq(n, _ => 0)) && mem[at..at + n] == Answers(old(Now()), seq(n, _ => 0))
      ensures mem[..at] == old(mem[..at]) && mem[at + n..] == old(mem[at + n..])
    {
      hide Sent, ByteIn, Answer, Answers;
      ghost var c := Now();
      NothingSent(c);
      var i := 0;
      assert seq(0, _ => 0 as bv8) == [];
      while i < n
        invariant 0 <= i <= n && Valid()
        invariant Now() == Sent(c, seq(i, _ => 0)) && mem[at..at + i] == Answers(c, seq(i, _ => 0))
        invariant mem[..at] == old(mem[..at]) && mem[at + n..] == old(mem[at + n..])
      {
        SentMore(c, seq(i, _ => 0), 0);
        AnswersMore(c, seq(i, _ => 0), 0);
        assert seq(i + 1, _ => 0 as bv8) == seq(i, _ => 0 as bv8) + [0];
        var out := Byte(0);
        mem[at + i] := out;
        i := i + 1;
      }
    }
  }

  // ---- where the file falls behind the card --------------------------------------------------

  /** The six bytes of a program of one byte. */
  method SendProgram(c: Card, p: Place, v: bv8)
    requires c.Valid() && c.selected == 0 && c.regs.pos == 0 && c.dirty == Clean
    modifies c`regs, c`dirty, c.flash
    ensures c.Valid()
    ensures var a := At(p.Address(), 0);
            c.flash[..] == old(c.flash[..])[a := old(c.flash[a]) & v] && c.dirty == Dirty(a, a + 1)
  {
    hide Sent, ByteIn, Answer, At, Writes, Card.Agrees, InRange, Card.Backed;
    ghost var chip := c.Now();
    var data := p.Command(0xF2) + [v];
    OneProgrammed(chip, p, v);
    NothingSent(chip);
    var i := 0;
    while i < 6
      invariant 0 <= i <= 6 && c.Valid() && c.Now() == Sent(chip, data[..i])
    {
      SentMore(chip, data[..i], data[i]);
      assert data[..i + 1] == data[..i] + [data[i]];
      var out := c.Byte(data[i]);
      i := i + 1;
    }
    assert data[..6] == data;
  }

  /** A program of one byte: selected, sent, deselected. */
  method ProgramOne(c: Card, p: Place, v: bv8, opens: bool)
    requires c.Valid() && c.selected == -1
    modifies c, c.flash
    ensures c.Valid() && c.selected == -1 && c.dirty == Clean
    ensures var a := At(p.Address(), 0);
            && c.flash[..] == old(c.flash[..])[a := old(c.flash[a]) & v]
            && (c.fileOpen <==> old(c.fileOpen) || opens)
            && c.lost == (if old(c.fileOpen) || opens then (if old(c.Resized()) then {} else old(c.lost) - {a}) else old(c.lost) + {a})
            && (!c.fileOpen ==> c.file == old(c.file))
    ensures c.FileIsCard() <==> c.Backed() && forall i | i in c.lost :: c.AsLoaded(i)
  {
    hide At, Overwritten;
    c.Select(0, false);
    SendProgram(c, p, v);
    c.Select(-1, opens);
  }

  /** A program forgotten because the file could not be opened: the file is the card exactly
      when it is the card's size or more and the program changed nothing. */
  method ForgottenProgram(file: seq<bv8>, p: Place, v: bv8) returns (c: Card)
    ensures c.Valid() && c.selected == -1 && fresh(c) && fresh(c.flash)
    ensures var a := At(p.Address(), 0);
            && (c.FileIsCard() <==> CARD_BYTES <= |file| && file[a] & v == file[a])
            && (c.AsLoaded(a) <==> a < |file| && file[a] & v == file[a])
            && c.lost == {a} && !c.fileOpen && c.file == Holding(file)
  {
    hide At, Overwritten;
    c := new Card(Holding(file));
    ProgramOne(c, p, v, false);
  }

  /** And another after it, when the file opens: that mends the file exactly when it is of
      another size, or the program is of the same byte -- or there was nothing to mend. */
  method MendedProgram(file: seq<bv8>, p: Place, v: bv8, q: Place, w: bv8) returns (c: Card)
    ensures c.Valid()
    ensures var a, b := At(p.Address(), 0), At(q.Address(), 0);
            c.FileIsCard() <==> |file| != CARD_BYTES || a == b || file[a] & v == file[a]
  {
    hide At, Overwritten, Card.Agrees, InRange, Writes;
    c := ForgottenProgram(file, p, v);
    ProgramOne(c, q, w, true);
  }

  lemma NothingSent(c: Chip)
    ensures Sent(c, []) == c && Answers(c, []) == []
  {
  }

  lemma AnswersMore(c: Chip, bytes: seq<bv8>, v: bv8)
    ensures Answers(c, bytes + [v]) == Answers(c, bytes) + [Answer(Sent(c, bytes).regs, Sent(c, bytes).flash)]
  {
    assert (bytes + [v])[..|bytes|] == bytes;
  }

  /** A byte widens the range to all it changes, and only in a program or an erase. */
  lemma ByteKeeps(r: Regs, v: bv8, d: Range, f: Flash)
    requires d.Dirty? ==> d.lo < d.hi <= CARD_BYTES && 0 < r.pos && Writes(r.cmd)
    ensures var d' := Touched(d, EffectOf(r, v));
            && (d'.Dirty? ==> d'.lo < d'.hi <= CARD_BYTES && 0 < Stepped(r, v).pos && Writes(Stepped(r, v).cmd))
            && (forall i: nat | i < CARD_BYTES && !InRange(d', i) :: !InRange(d, i) && Applied(f, EffectOf(r, v))[i] == f[i])
  {
  }
}
