/**
  The write-gather pipe: a buffer of bytes not yet parsed, fed a store at a time, and the
  capture of what went through it, both edited in place.
 */
module CommandPipe {
  import opened CommandStream
  import opened Capture

  const PIPE_CAP: nat := 65536
  const TAIL: nat := 64

  /** One stretch after another. */
  ghost function Cat(a: Bytes, b: Bytes): Bytes { a + b }

  /** Part of the way through a pipe: what is parsed and recorded so far, and what it will be. */
  ghost predicate Along(first: State, all: Bytes, before: Bytes, s: State, p: Bytes, done: Bytes, src: Sources) {
    && Parse(s, p, LIVE, src) == Parse(first, all, LIVE, src)
    && Cat(done, Recorded(s, p, src)) == Cat(before, Recorded(first, all, src))
  }

  /** What cap_inline_list makes of a capture. */
  function Inlined(cap: Bytes, back: nat, body: Bytes): Bytes {
    if 9 <= back <= |cap| && back - 9 <= TAIL && cap[|cap| - back] == LIST then
      var at := |cap| - back;
      cap[..at] + [INLINE_LIST] + cap[at + 1..at + 9] + body + cap[at + 9..]
    else cap
  }

  lemma Slices<T>(a: array<T>, lo: nat, n: nat, hi: nat)
    requires lo + n <= hi <= a.Length
    ensures a[lo..hi][..n] == a[lo..lo + n] && a[lo..hi][n..] == a[lo + n..hi]
    ensures lo == 0 ==> a[..hi] == a[lo..hi] && a[..n] == a[lo..lo + n]
  {
  }

  lemma HeadRest<T>(a: seq<T>, at: nat)
    requires at + 9 <= |a|
    ensures a[at..at + 9][1..] == a[at + 1..at + 9]
  {
  }

  lemma InlinedCall(done: Bytes, c: Bytes, rest: Bytes, body: Bytes)
    requires |c| == 9 && c[0] == LIST && |rest| <= TAIL
    ensures Inlined(done + (c + rest), |c| + |rest|, body) == done + ([INLINE_LIST] + c[1..9] + body) + rest
  {
    var cap, at := done + (c + rest), |done|;
    assert cap[..at] == done && cap[at] == c[0];
    assert cap[at + 1..at + 9] == c[1..9];
    assert cap[at + 9..] == rest;
  }

  class Pipe {
    const buf: array<Byte>
    var len: nat
    var state: State
    var cap: Bytes
    // since the pipe was last empty at a whole command: where it stood, what it has been fed
    // and memory at each store, and the capture before that
    ghost var start: State
    ghost var fed: seq<Store>
    ghost var prior: Bytes

    ghost function Pending(): Bytes
      reads this, buf
      requires len <= buf.Length
    {
      buf[..len]
    }

    /** The pipe holds exactly what is unparsed, and the capture the record of what is. */
    ghost predicate Valid()
      reads this, buf
    {
      && buf.Length == PIPE_CAP && len <= PIPE_CAP && StoresOk(fed)
      && Lived(start, fed) == (state, Pending())
      && cap == Cat(Cat(prior, Captured(start, fed)), Pending())
    }

    constructor (s: State)
      ensures Valid() && state == s == start && fed == [] && cap == [] && Pending() == [] && fresh(buf)
    {
      buf := new Byte[PIPE_CAP];
      len, state, cap := 0, s, [];
      start, fed, prior := s, [], [];
    }

    /** cap_inline_list: the call `back` bytes from the capture's end becomes a record. */
    method InlineList(back: nat, body: Bytes)
      modifies this`cap
      ensures cap == Inlined(old(cap), back, body)
    {
      if back < 9 || back > |cap| || back - 9 > TAIL {
        return;
      }
      var at := |cap| - back;
      if cap[at] != LIST {
        return;
      }
      var head, tail := cap[at..at + 9], cap[at + 9..];
      HeadRest(cap, at);
      cap := cap[..at];
      cap := cap + [INLINE_LIST] + head[1..];
      cap := cap + body;
      cap := cap + tail;
    }

    /** One command of parse(): the bytes at `off`, whole. */
    method Command(off: nat, n: nat, src: Sources, ghost p: Bytes, ghost done: Bytes)
      requires buf.Length == PIPE_CAP && off + n <= len <= PIPE_CAP && SourcesOk(src) && 0 < n <= |p| && p == buf[off..len]
      requires Sized(state, p, LIVE) == Whole(n) == Sized(state, p[..n], LIVE)
      requires cap == Cat(done, p) && len - off - n <= TAIL
      modifies this`state, this`cap
      ensures state == Run(old(state), p[..n], LIVE, src)
      ensures cap == Cat(Cat(done, Record(p[..n], src)), p[n..])
    {
      var c := buf[off..off + n];
      Slices(buf, off, n, len);
      state := Run(state, c, LIVE, src);
      CapturedCall(old(state), done, p, n, src);
      if Inlines(c) {
        InlineList(len - off, src.bytes(Be32(c, 1), Be32(c, 5) as nat));
      }
    }

    /** One turn of parse()'s loop: the command at `off`, or 0 when it is not all there. */
    method Next(off: nat, src: Sources, ghost p: Bytes, ghost done: Bytes) returns (n: nat)
      requires buf.Length == PIPE_CAP && off < len <= PIPE_CAP && SourcesOk(src)
      requires p == buf[off..len] && cap == Cat(done, p)
      requires forall m | Sized(state, p, LIVE) == Whole(m) :: len - off - m <= TAIL
      modifies this`state, this`cap
      ensures n == 0 ==> Sized(state, p, LIVE) == Short && state == old(state) && cap == old(cap)
      ensures 0 < n ==>
        && n <= |p| && p[n..] == buf[off + n..len]
        && Sized(old(state), p, LIVE) == Whole(n) == Sized(old(state), p[..n], LIVE)
        && state == Run(old(state), p[..n], LIVE, src)
        && cap == Cat(Cat(done, Record(p[..n], src)), p[n..])
    {
      hide *;
      var size := Sized(state, buf[off..len], LIVE);
      if size == Short {
        return 0;
      }
      n := size.n;
      SizedOfPrefix(state, p, LIVE, n);
      Slices(buf, off, n, len);
      Command(off, n, src, p, done);
    }

    /** parse(), over what the pipe holds. */
    method ParseHeld(src: Sources, ghost held: nat, ghost before: Bytes, ghost all: Bytes) returns (off: nat)
      requires buf.Length == PIPE_CAP && held <= |all| == len <= PIPE_CAP && len - held <= 8 && SourcesOk(src)
      requires all == buf[0..len] && cap == Cat(before, all)
      requires held == 0 || Sized(state, all[..held], LIVE) == Short
      modifies this`state, this`cap
      ensures off <= len && (state, buf[off..len]) == Parse(old(state), all, LIVE, src)
      ensures cap == Cat(Cat(before, Recorded(old(state), all, src)), buf[off..len])
    {
      hide *;
      off := 0;
      ghost var first, done, p := state, before, all;
      AlongStarts(first, all, before, src);
      while off < len
        modifies this`state, this`cap
        invariant off <= len && p == buf[off..len]
        invariant off == 0 ==> state == first && p == all
        invariant 0 < off ==> held < off || held == 0
        invariant Along(first, all, before, state, p, done, src)
        invariant cap == Cat(done, p)
      {
        EndsInStore(first, all, held, state, p, off);
        ghost var s := state;
        var n := Next(off, src, p, done);
        if n == 0 {
          break;
        }
        AlongStep(first, all, before, s, p, done, src, n);
        done := Cat(done, Record(p[..n], src));
        p := p[n..];
        off := off + n;
      }
      AlongEnds(first, all, before, state, p, done, src);
    }

    /** pipe_flush. */
    method Flush(src: Sources, ghost held: nat, ghost before: Bytes)
      requires buf.Length == PIPE_CAP && held <= len <= PIPE_CAP && len - held <= 8 && SourcesOk(src)
      requires held == 0 || Sized(state, buf[..held], LIVE) == Short
      requires cap == Cat(before, buf[..len])
      modifies this`state, this`cap, this`len, buf
      ensures len <= PIPE_CAP && (state, buf[..len]) == Parse(old(state), old(buf[..len]), LIVE, src)
      ensures cap == Cat(Cat(before, Recorded(old(state), old(buf[..len]), src)), buf[..len])
    {
      hide *;
      Slices(buf, 0, held, len);
      var off := ParseHeld(src, held, before, buf[..len]);
      Leave(off);
    }

    /** The bytes left move to the front. */
    method Leave(off: nat)
      requires buf.Length == PIPE_CAP && off <= len <= PIPE_CAP
      modifies this`len, buf
      ensures len <= PIPE_CAP && buf[..len] == old(buf[off..len])
    {
      ghost var p := buf[off..len];
      var n := len - off;
      forall i | 0 <= i < n {
        buf[i] := buf[off + i];
      }
      len := n;
      assert buf[..len] == p;
    }

    /** gx_pipe_write's loop, of the store's bytes from the highest. */
    method Append(store: Bytes)
      requires buf.Length == PIPE_CAP && len + |store| <= PIPE_CAP
      modifies this`len, this`cap, buf
      ensures len == old(len) + |store| <= PIPE_CAP
      ensures buf[..old(len)] == old(buf[..len]) && buf[..len] == Cat(old(buf[..len]), store)
      ensures cap == Cat(old(cap), store)
    {
      ghost var pending := buf[..len];
      var i := 0;
      while i < |store|
        modifies this`len, buf
        invariant 0 <= i <= |store| && len == |pending| + i <= PIPE_CAP
        invariant buf[..len] == pending + store[..i]
      {
        buf[len] := store[i];
        len := len + 1;
        i := i + 1;
      }
      assert store[..i] == store;
      Slices(buf, 0, |pending|, len);
      Halves(pending, store);
      cap := cap + store;
    }

    /** gx_pipe_write. A store that would overfill the pipe loses what the pipe held; then the
        command it held the start of is nearly as long as the pipe, or longer. */
    method Write(store: Bytes, src: Sources) returns (lost: bool)
      requires Valid() && 1 <= |store| <= 8 && SourcesOk(src)
      modifies this, buf
      ensures Valid()
      ensures lost <==> |old(Pending())| + |store| > PIPE_CAP
      ensures (state, Pending()) == Parse(old(state), Cat(if lost then [] else old(Pending()), store), LIVE, src)
      ensures !lost ==> fed == old(fed) + [Store(store, src)] && start == old(start) && prior == old(prior)
      ensures lost ==> fed == [Store(store, src)] && start == old(state) && prior == old(cap)
      ensures lost ==> PIPE_CAP - 7 < Needed(old(state), old(Pending()))
    {
      hide Parse, Recorded, Captured, Lived, Sized, Run, SourcesOk, Cat, Needed;
      lost := len + |store| > PIPE_CAP;
      HeldIsShort(start, fed);
      if lost {
        NeededMore(state, buf[..len]);
        len := 0;
        prior := cap;
        start, fed := state, [];
        NothingYet(start, cap);
        assert buf[..0] == [];
      }
      ghost var pending := buf[..len];
      PipeStep(start, fed, Store(store, src), prior);
      Append(store);
      Flush(src, |pending|, Cat(prior, Captured(start, fed)));
      fed := fed + [Store(store, src)];
    }
  }

  /** The length of the command p begins with, if p says it. */
  ghost function Needed(s: State, p: Bytes): nat {
    if p != [] && Head(p[0], LIVE) <= |p| then Total(s, p, LIVE) else 0
  }

  lemma NeededMore(s: State, p: Bytes)
    requires 9 <= |p| && Sized(s, p, LIVE) == Short
    ensures |p| < Needed(s, p)
  {
    hide Total;
  }

  lemma HeldIsShort(s: State, fed: seq<Store>)
    ensures var (t, rest) := Lived(s, fed); rest == [] || Sized(t, rest, LIVE) == Short
  {
    hide *;
    LivedShort(s, fed);
  }

  /** Every command whole now ends in the store just written, so little follows it. */
  lemma EndsInStore(first: State, all: Bytes, held: nat, s: State, p: Bytes, off: nat)
    requires held <= |all| <= held + 8 && off < |all| && |p| == |all| - off && p != []
    requires held == 0 || Sized(first, all[..held], LIVE) == Short
    requires (off == 0 ==> s == first && p == all) && (0 < off ==> held < off || held == 0)
    ensures forall m | Sized(s, p, LIVE) == Whole(m) :: |all| - off - m <= TAIL && (held < off + m || held == 0)
  {
    assert TAIL == 64;
    hide *;
    forall m | Sized(s, p, LIVE) == Whole(m)
      ensures |all| - off - m <= TAIL && (held < off + m || held == 0)
    {
      if off == 0 && 0 < held {
        WholeInPrefix(first, all, held, m);
      }
    }
  }

  lemma AlongStarts(first: State, all: Bytes, before: Bytes, src: Sources)
    ensures Along(first, all, before, first, all, before, src)
  {
  }

  lemma AlongStep(first: State, all: Bytes, before: Bytes, s: State, p: Bytes, done: Bytes, src: Sources, n: nat)
    requires Along(first, all, before, s, p, done, src) && p != [] && Sized(s, p, LIVE) == Whole(n)
    ensures Sized(s, p[..n], LIVE) == Whole(n)
    ensures Along(first, all, before, Run(s, p[..n], LIVE, src), p[n..], Cat(done, Record(p[..n], src)), src)
  {
    hide Parse, Recorded, Sized, Run, Record;
    ParseStep(s, p, LIVE, src, n);
    RecordedStep(s, p, src, n);
    Regroup(done, Record(p[..n], src), Recorded(Run(s, p[..n], LIVE, src), p[n..], src));
  }

  lemma AlongEnds(first: State, all: Bytes, before: Bytes, s: State, p: Bytes, done: Bytes, src: Sources)
    requires Along(first, all, before, s, p, done, src) && (p == [] || Sized(s, p, LIVE) == Short)
    ensures (s, p) == Parse(first, all, LIVE, src) && done == Cat(before, Recorded(first, all, src))
  {
    hide Parse, Recorded, Sized, Run, Record;
    ParseStops(s, p, LIVE, src);
    RecordedStops(s, p, src);
    Regroup(done, [], []);
  }

  lemma NothingYet(s: State, cap: Bytes)
    ensures Lived(s, []) == (s, []) && Cat(Cat(cap, Captured(s, [])), []) == cap
  {
    hide Parse, Recorded;
    Regroup(cap, [], []);
  }

  /** What a store adds: to the parse, and to the capture. */
  lemma PipeStep(s: State, fed: seq<Store>, store: Store, prior: Bytes)
    ensures var (t, rest) := Lived(s, fed);
            && Lived(s, fed + [store]) == Parse(t, Cat(rest, store.bytes), LIVE, store.src)
            && Cat(prior, Captured(s, fed + [store])) ==
               Cat(Cat(prior, Captured(s, fed)), Recorded(t, Cat(rest, store.bytes), store.src))
            && Cat(Cat(Cat(prior, Captured(s, fed)), rest), store.bytes) ==
               Cat(Cat(prior, Captured(s, fed)), Cat(rest, store.bytes))
  {
    hide Parse, Recorded, Sized, Run, Record;
    var (t, rest) := Lived(s, fed);
    assert (fed + [store])[..|fed|] == fed;
    Regroup(prior, Captured(s, fed), Recorded(t, rest + store.bytes, store.src));
    Regroup(prior + Captured(s, fed), rest, store.bytes);
  }

  /** A command whole in a longer stretch is whole in its first bytes, if it ends in them. */
  lemma WholeInPrefix(s: State, p: Bytes, held: nat, n: nat)
    requires 0 < held <= |p| && Sized(s, p, LIVE) == Whole(n)
    ensures n <= held ==> Sized(s, p[..held], LIVE) == Whole(n)
  {
    hide *;
    SizedOfPrefix(s, p, LIVE, n);
    if n <= held {
      SizedMonotone(s, p[..n], p[n..held], LIVE);
      assert p[..n] + p[n..held] == p[..held];
    }
  }

  /** What becomes of the capture at a command: a carried-out call is replaced in it. */
  lemma CapturedCall(s: State, done: Bytes, p: Bytes, n: nat, src: Sources)
    requires 0 < n <= |p| && Sized(s, p[..n], LIVE) == Whole(n) && |p| - n <= TAIL
    ensures var c := p[..n];
            Cat(Cat(done, Record(c, src)), p[n..]) ==
            if Inlines(c) then Inlined(Cat(done, p), |p|, src.bytes(Be32(c, 1), Be32(c, 5) as nat)) else Cat(done, p)
  {
    var c, rest := p[..n], p[n..];
    assert p == c + rest;
    if Inlines(c) {
      CallIsNine(s, c);
      hide Be32, InMemory, Inlines, Sized;
      InlinedCall(done, c, rest, src.bytes(Be32(c, 1), Be32(c, 5) as nat));
    } else {
      hide Be32, InMemory, Inlines, Sized;
      Regroup(done, c, rest);
    }
  }

  lemma CallIsNine(s: State, c: Bytes)
    requires Inlines(c) && Sized(s, c, LIVE) == Whole(|c|)
    ensures |c| == 9
  {
  }

  // ---- where the pipe loses bytes ------------------------------------------------------------

  /** A load of every register the stream can name is longer than the pipe: whatever the pipe
      holds of it is never whole. */
  lemma LongLoadNeverWhole(s: State, p: Bytes)
    requires 3 <= |p| <= PIPE_CAP && p[0] == 0x10 && 0x3FFF <= Be16(p, 1)
    ensures Sized(s, p, LIVE) == Short
  {
  }

  /** A run that loses one: in stores of eight bytes, with the store of its 65,537th byte. What
      the pipe held is gone unparsed. */
  method LongLoadIsLost(s: State, src: Sources, load: seq<Bytes>, last: Bytes) returns (pipe: Pipe, lost: bool)
    requires SourcesOk(src) && |load| == 8192 && (forall i | 0 <= i < |load| :: |load[i]| == 8) && 1 <= |last| <= 8
    requires load[0][0] == 0x10 && 0x3FFF <= Be16(load[0], 1)
    ensures pipe.Valid() && lost && pipe.start == s && pipe.fed == [Store(last, src)]
  {
    hide Parse, Lived, Captured, Sized, Run, SourcesOk, Needed, Cat, Be16;
    pipe := new Pipe(s);
    var n := 0;
    while n < 8192
      invariant 0 <= n <= 8192 && pipe.Valid() && pipe.state == s && fresh(pipe) && fresh(pipe.buf)
      invariant |pipe.Pending()| == 8 * n && (0 < n ==> pipe.Pending()[..8] == load[0])
    {
      StillShort(s, src, pipe.Pending(), load[0], load[n], n);
      lost := pipe.Write(load[n], src);
      n := n + 1;
    }
    lost := pipe.Write(last, src);
  }

  lemma StillShort(s: State, src: Sources, held: Bytes, first: Bytes, next: Bytes, n: nat)
    requires |held| == 8 * n && n < 8192 && |first| == |next| == 8 && if n == 0 then next == first else held[..8] == first
    requires first[0] == 0x10 && 0x3FFF <= Be16(first, 1)
    ensures |Cat(held, next)| == 8 * (n + 1) && Cat(held, next)[..8] == first
    ensures Parse(s, Cat(held, next), LIVE, src) == (s, Cat(held, next))
  {
    hide Parse, Sized;
    var p := Cat(held, next);
    assert p[0] == first[0] && p[1] == first[1] && p[2] == first[2];
    LongLoadNeverWhole(s, p);
    ParseStops(s, p, LIVE, src);
  }
}
