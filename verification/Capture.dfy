/**
  A frame's capture: the stream's bytes with each list call replaced by an inline record of
  the list as it was. Proved, for memory that changes as it likes between stores and before
  the replay: parsing the capture carries out the same loads, calls and draws exactly when
  the stream holds no record's byte where a command should begin, and each indexed load
  finds in the replay's memory the words it found live.
 */
module Capture {
  import opened CommandStream

  const LIVE := Mode(false, false)
  const REPLAY := Mode(true, false)

  /** A call whose list is carried out and not empty (cap_inline_list's caller). */
  predicate Inlines(c: Bytes) {
    9 <= |c| && c[0] == LIST && Be32(c, 5) != 0 && InMemory(Be32(c, 1), Be32(c, 5) as nat)
  }

  /** What the capture keeps of one whole command. */
  function Record(c: Bytes, src: Sources): Bytes {
    if Inlines(c) then [INLINE_LIST] + c[1..9] + src.bytes(Be32(c, 1), Be32(c, 5) as nat) else c
  }

  /** The capture of the whole commands in p. */
  function Recorded(s: State, p: Bytes, src: Sources): Bytes
    decreases |p|
  {
    if p == [] then []
    else
      match Sized(s, p, LIVE)
      case Short => []
      case Whole(n) =>
        SizedOfPrefix(s, p, LIVE, n);
        Record(p[..n], src) + Recorded(Run(s, p[..n], LIVE, src), p[n..], src)
  }

  /** No command of the stream begins with the record's byte, which live is an unknown one. */
  predicate NoStrayRecord(s: State, p: Bytes, src: Sources)
    decreases |p|
  {
    if p == [] then true
    else
      match Sized(s, p, LIVE)
      case Short => true
      case Whole(n) =>
        SizedOfPrefix(s, p, LIVE, n);
        p[0] != INLINE_LIST && NoStrayRecord(Run(s, p[..n], LIVE, src), p[n..], src)
  }

  /** Of memory the parser is asked only that as many bytes come as were asked for. */
  ghost predicate BothOk(a: Sources, b: Sources) { SourcesOk(a) && SourcesOk(b) }

  predicate IsIndexed(op: Byte) { op == 0x20 || op == 0x28 || op == 0x30 || op == 0x38 }

  ghost function CalledAs(s: State, c: Bytes): State
    requires 9 <= |c|
  {
    s.(log := s.log + [Called(Be32(c, 1), Be32(c, 5))], list := In(Be32(c, 1)))
  }

  /** A live command whose indexed loads, its own or its list's, find in memory b the words
      they find in a. */
  ghost predicate RunSame(s: State, c: Bytes, m: Mode, a: Sources, b: Sources)
    requires c != [] && Sized(s, c, m) == Whole(|c|)
    decreases if m.inList then 0 else 2, |c|, 0
  {
    if IsIndexed(c[0]) then Indexed(s, c, a) == Indexed(s, c, b)
    else if IsList(c[0], m) && !m.inList then
      NineBytes(s, c, m);
      ParseSame(CalledAs(s, c), Body(c, m, a), m.(inList := true), a, b)
    else true
  }

  /** A live stream, so. The lists' own bytes are a's: of b's nothing is asked. */
  ghost predicate ParseSame(s: State, p: Bytes, m: Mode, a: Sources, b: Sources)
    decreases if m.inList then 0 else 2, |p|, 1
  {
    if p == [] then true
    else
      match Sized(s, p, m)
      case Short => true
      case Whole(n) =>
        SizedOfPrefix(s, p, m, n);
        RunSame(s, p[..n], m, a, b) && ParseSame(Run(s, p[..n], m, a), p[n..], m, a, b)
  }

  lemma NineBytes(s: State, c: Bytes, m: Mode)
    requires c != [] && Sized(s, c, m) == Whole(|c|) && IsList(c[0], m)
    ensures 9 <= |c|
  {
  }

  lemma SameStep(s: State, p: Bytes, m: Mode, a: Sources, b: Sources, n: nat)
    requires p != [] && Sized(s, p, m) == Whole(n)
    ensures Sized(s, p[..n], m) == Whole(n)
    ensures ParseSame(s, p, m, a, b) <==> RunSame(s, p[..n], m, a, b) && ParseSame(Run(s, p[..n], m, a), p[n..], m, a, b)
  {
    SizedOfPrefix(s, p, m, n);
    hide Sized, Run, RunSame;
  }

  lemma SameStops(s: State, p: Bytes, m: Mode, a: Sources, b: Sources)
    requires p == [] || Sized(s, p, m) == Short
    ensures ParseSame(s, p, m, a, b)
  {
    hide Sized, Run, RunSame;
  }

  // ---- what the renderer is told ---------------------------------------------------------------

  /** The two logs say different things at some one place. */
  ghost predicate Clash(x: seq<Event>, y: seq<Event>) { exists i :: 0 <= i < |x| && i < |y| && x[i] != y[i] }

  lemma ClashLasts(x: seq<Event>, y: seq<Event>, x': seq<Event>, y': seq<Event>)
    requires Clash(x, y) && x <= x' && y <= y'
    ensures Clash(x', y') && !(x' <= y')
  {
    var i :| 0 <= i < |x| && i < |y| && x[i] != y[i];
    assert x'[i] == x[i] && y'[i] == y[i];
  }

  lemma PrefixOfMore(x: seq<Event>, x': seq<Event>, y: seq<Event>)
    requires !(x <= y) && x <= x'
    ensures !(x' <= y)
  {
  }

  /** What the renderer is told only grows. */
  lemma RunGrows(s: State, c: Bytes, m: Mode, src: Sources)
    requires c != [] && Sized(s, c, m) == Whole(|c|)
    ensures s.log <= Run(s, c, m, src).log
    decreases if m.inList then 0 else 2, |c|, 0
  {
    hide Sized, Parse, Body, Be32, Be16, Words, InMemory, ArrayAt, WordAt, DrawSize, XfSize, InlineSize;
    if IsList(c[0], m) && !m.inList {
      NineBytes(s, c, m);
      CallRuns(s, c, m, src);
      ParseGrows(CalledAs(s, c), Body(c, m, src), m.(inList := true), src);
    }
  }

  lemma {:induction false} ParseGrows(s: State, p: Bytes, m: Mode, src: Sources)
    ensures s.log <= Parse(s, p, m, src).0.log
    decreases if m.inList then 0 else 2, |p|, 1
  {
    hide Sized, Run, Parse;
    if p == [] || Sized(s, p, m) == Short {
      ParseStops(s, p, m, src);
    } else {
      var n := Sized(s, p, m).n;
      ParseStep(s, p, m, src, n);
      RunGrows(s, p[..n], m, src);
      ParseGrows(Run(s, p[..n], m, src), p[n..], m, src);
    }
  }

  /** Different words are told as different loads, at the same place. */
  lemma IndexedDiffers(s: State, c: Bytes, a: Sources, b: Sources)
    requires 5 <= |c| && Indexed(s, c, a) != Indexed(s, c, b)
    ensures Clash(Indexed(s, c, a).log, Indexed(s, c, b).log)
  {
    hide ArrayAt, WordAt, InMemory, Be16;
    var n := Be16(c, 3) / 0x1000 + 1;
    assert InMemory(ArrayAt(s, c), 4 * n);
    var x := seq(n, i requires 0 <= i < n => a.word(WordAt(ArrayAt(s, c), i)));
    var y := seq(n, i requires 0 <= i < n => b.word(WordAt(ArrayAt(s, c), i)));
    if x == y {
      assert false;
    }
    assert Indexed(s, c, a).log[|s.log|] == XfLoad(Be16(c, 3) % 0x1000, x);
    assert Indexed(s, c, b).log[|s.log|] == XfLoad(Be16(c, 3) % 0x1000, y);
  }

  // ---- inside a list, live and replayed are the same, or clash -------------------------------------

  lemma ListRuns(s: State, c: Bytes, a: Sources, b: Sources)
    requires c != [] && Sized(s, c, Mode(false, true)) == Whole(|c|)
    ensures Sized(s, c, Mode(true, true)) == Whole(|c|)
    ensures RunSame(s, c, Mode(false, true), a, b) ==> Run(s, c, Mode(true, true), b) == Run(s, c, Mode(false, true), a)
    ensures !RunSame(s, c, Mode(false, true), a, b) ==> Clash(Run(s, c, Mode(false, true), a).log, Run(s, c, Mode(true, true), b).log)
  {
    ListSizedSame(s, c);
    hide BpLoaded, XfLoaded, Words, ArrayAt, WordAt, InMemory, DrawSize, XfSize, InlineSize, Indexed, Clash;
    if IsIndexed(c[0]) && Indexed(s, c, a) != Indexed(s, c, b) {
      IndexedDiffers(s, c, a, b);
    }
  }

  lemma ListSizedSame(s: State, p: Bytes)
    requires p != []
    ensures Sized(s, p, Mode(true, true)) == Sized(s, p, Mode(false, true))
  {
    hide DrawSize, XfSize, InlineSize;
  }

  lemma {:induction false} ListParses(s: State, p: Bytes, a: Sources, b: Sources)
    ensures ParseSame(s, p, Mode(false, true), a, b) ==> Parse(s, p, Mode(true, true), b) == Parse(s, p, Mode(false, true), a)
    ensures !ParseSame(s, p, Mode(false, true), a, b) ==>
              Clash(Parse(s, p, Mode(false, true), a).0.log, Parse(s, p, Mode(true, true), b).0.log)
    decreases |p|
  {
    hide Sized, Run, Parse, RunSame, ParseSame, Clash;
    var live, replay := Mode(false, true), Mode(true, true);
    if p != [] {
      ListSizedSame(s, p);
    }
    if p == [] || Sized(s, p, live) == Short {
      ParseStops(s, p, live, a);
      ParseStops(s, p, replay, b);
      SameStops(s, p, live, a, b);
    } else {
      var n := Sized(s, p, live).n;
      ParseStep(s, p, live, a, n);
      ParseStep(s, p, replay, b, n);
      SameStep(s, p, live, a, b, n);
      ListRuns(s, p[..n], a, b);
      var x, y := Run(s, p[..n], live, a), Run(s, p[..n], replay, b);
      if RunSame(s, p[..n], live, a, b) {
        ListParses(x, p[n..], a, b);
      } else {
        ParseGrows(x, p[n..], live, a);
        ParseGrows(y, p[n..], replay, b);
        ClashLasts(x.log, y.log, Parse(x, p[n..], live, a).0.log, Parse(y, p[n..], replay, b).0.log);
      }
    }
  }

  // ---- at the top, a recorded call runs the list that was called ------------------------------

  /** A record is one whole command of a replay, wherever it stands. */
  lemma RecordSized(s: State, c: Bytes, q: Bytes, src: Sources)
    requires SourcesOk(src) && c != [] && Sized(s, c, LIVE) == Whole(|c|) && c[0] != INLINE_LIST
    ensures var r := Record(c, src); r != [] && Sized(s, r + q, REPLAY) == Whole(|r|) && (r + q)[..|r|] == r
  {
    var r := Record(c, src);
    Halves(r, q);
    if Inlines(c) {
      InlinedSized(s, c, q, src);
    } else {
      assert r == c;
      hide *;
      PlainSized(s, c, q);
    }
  }

  lemma InlinedSized(s: State, c: Bytes, q: Bytes, src: Sources)
    requires SourcesOk(src) && Inlines(c)
    ensures var r := Record(c, src); r != [] && Sized(s, r + q, REPLAY) == Whole(|r|)
  {
    InlinedWords(c, src, q);
    RecordHead(c, src, q);
    var p := Record(c, src) + q;
    InlineTotal(s, p);
    hide *;
  }

  lemma RecordHead(c: Bytes, src: Sources, q: Bytes)
    requires Inlines(c)
    ensures 9 <= |Record(c, src)| && (Record(c, src) + q)[0] == INLINE_LIST
  {
    hide InMemory, Be32;
  }

  lemma InlineTotal(s: State, p: Bytes)
    requires 9 <= |p| && p[0] == INLINE_LIST
    ensures Sized(s, p, REPLAY) == Fits(9 + Be32(p, 5) as nat, p)
    ensures 9 + Be32(p, 5) as nat <= |p| ==> Sized(s, p, REPLAY) == Whole(9 + Be32(p, 5) as nat)
  {
    hide Be32;
  }

  lemma PlainSized(s: State, c: Bytes, q: Bytes)
    requires c != [] && Sized(s, c, LIVE) == Whole(|c|) && c[0] != INLINE_LIST
    ensures Sized(s, c + q, REPLAY) == Whole(|c|)
  {
    SizedMonotone(s, c, q, LIVE);
    hide DrawSize, XfSize, InlineSize;
  }

  /** The record's head names the same list and the length of the body behind it. */
  lemma InlinedWords(c: Bytes, src: Sources, q: Bytes := [])
    requires SourcesOk(src) && Inlines(c)
    ensures var r := Record(c, src);
            && 9 <= |r| == 9 + Be32(c, 5) as nat && r[9..] == src.bytes(Be32(c, 1), Be32(c, 5) as nat)
            && Be32(r + q, 1) == Be32(c, 1) && Be32(r + q, 5) == Be32(c, 5)
  {
    hide InMemory, Be32;
    var r := Record(c, src);
    assert forall i | 1 <= i < 9 :: (r + q)[i] == c[i];
    WordSame(r + q, c, 1);
    WordSame(r + q, c, 5);
  }

  /** Carrying out a record is carrying out the command it was made of, when its indexed loads
      find the same words; when they do not, the renderer is told something else. */
  lemma RecordRuns(s: State, c: Bytes, a: Sources, b: Sources)
    requires BothOk(a, b) && c != [] && Sized(s, c, LIVE) == Whole(|c|) && c[0] != INLINE_LIST
    requires Record(c, a) != [] && Sized(s, Record(c, a), REPLAY) == Whole(|Record(c, a)|)
    ensures RunSame(s, c, LIVE, a, b) ==> Run(s, Record(c, a), REPLAY, b) == Run(s, c, LIVE, a)
    ensures !RunSame(s, c, LIVE, a, b) ==> Clash(Run(s, c, LIVE, a).log, Run(s, Record(c, a), REPLAY, b).log)
  {
    hide BpLoaded, XfLoaded, Words, ArrayAt, WordAt, DrawSize, XfSize, InlineSize, InMemory, Parse, Be32, Indexed, Inlines, Clash, ParseSame;
    if c[0] == LIST {
      if Inlines(c) {
        InlinedRuns(s, c, a, b);
      } else {
        EmptyCallRuns(s, c, a, b);
      }
    } else {
      NotInlined(c);
      if IsIndexed(c[0]) && Indexed(s, c, a) != Indexed(s, c, b) {
        IndexedDiffers(s, c, a, b);
      }
    }
  }

  lemma NotInlined(c: Bytes)
    requires c != [] && c[0] != LIST
    ensures !Inlines(c)
  {
  }

  lemma CallRuns(s: State, c: Bytes, m: Mode, src: Sources)
    requires 9 <= |c| && IsList(c[0], m) && !m.inList && Sized(s, c, m) == Whole(|c|)
    ensures Run(s, c, m, src) == Parse(CalledAs(s, c), Body(c, m, src), m.(inList := true), src).0.(list := Direct)
  {
    hide Be32, Body, Parse, Sized;
  }

  lemma InlinedRuns(s: State, c: Bytes, a: Sources, b: Sources)
    requires BothOk(a, b) && Inlines(c) && Sized(s, c, LIVE) == Whole(|c|)
    requires Record(c, a) != [] && Sized(s, Record(c, a), REPLAY) == Whole(|Record(c, a)|)
    ensures RunSame(s, c, LIVE, a, b) ==> Run(s, Record(c, a), REPLAY, b) == Run(s, c, LIVE, a)
    ensures !RunSame(s, c, LIVE, a, b) ==> Clash(Run(s, c, LIVE, a).log, Run(s, Record(c, a), REPLAY, b).log)
  {
    InlinedShape(s, c, a, b);
    SameCall(s, c, a, b);
    hide *;
    var r := Record(c, a);
    CallRuns(s, c, LIVE, a);
    CallRuns(s, r, REPLAY, b);
    ListParses(CalledAs(s, c), r[9..], a, b);
  }

  lemma InlinedShape(s: State, c: Bytes, a: Sources, b: Sources)
    requires SourcesOk(a) && Inlines(c)
    ensures var r := Record(c, a);
            && 9 <= |c| && 9 <= |r| && IsList(c[0], LIVE) && IsList(r[0], REPLAY) && c[0] == LIST
            && Body(c, LIVE, a) == r[9..] == Body(r, REPLAY, b)
            && CalledAs(s, r) == CalledAs(s, c)
  {
    InlinedWords(c, a);
    assert Record(c, a) + [] == Record(c, a);
    hide InMemory, Be32;
  }

  lemma SameCall(s: State, c: Bytes, a: Sources, b: Sources)
    requires 9 <= |c| && c[0] == LIST && Sized(s, c, LIVE) == Whole(|c|)
    ensures RunSame(s, c, LIVE, a, b) <==> ParseSame(CalledAs(s, c), Body(c, LIVE, a), Mode(false, true), a, b)
  {
    hide Sized, Body, ParseSame, Be32;
  }

  /** A call of no bytes, or past memory, runs nothing either way. */
  lemma EmptyCallRuns(s: State, c: Bytes, a: Sources, b: Sources)
    requires BothOk(a, b) && !Inlines(c) && c != [] && c[0] == LIST
    requires Sized(s, c, LIVE) == Whole(|c|) && Sized(s, c, REPLAY) == Whole(|c|)
    ensures Run(s, c, REPLAY, b) == Run(s, c, LIVE, a) && RunSame(s, c, LIVE, a, b)
  {
    EmptyBody(s, c, a, b);
    EmptySame(s, c, a, b);
    hide *;
    CallRuns(s, c, LIVE, a);
    CallRuns(s, c, REPLAY, b);
    ParseStops(CalledAs(s, c), [], Mode(false, true), a);
    ParseStops(CalledAs(s, c), [], Mode(true, true), b);
  }

  lemma EmptySame(s: State, c: Bytes, a: Sources, b: Sources)
    requires c != [] && c[0] == LIST && Sized(s, c, LIVE) == Whole(|c|) && 9 <= |c| && Body(c, LIVE, a) == []
    ensures RunSame(s, c, LIVE, a, b)
  {
    hide Body, Be32, Sized;
  }

  lemma EmptyBody(s: State, c: Bytes, a: Sources, b: Sources)
    requires BothOk(a, b) && !Inlines(c) && c != [] && c[0] == LIST && Sized(s, c, LIVE) == Whole(|c|)
    ensures 9 <= |c| && IsList(c[0], LIVE) && IsList(c[0], REPLAY)
    ensures Body(c, LIVE, a) == [] == Body(c, REPLAY, b)
  {
    hide InMemory, Be32;
  }

  lemma RecordedStep(s: State, p: Bytes, src: Sources, n: nat)
    requires p != [] && Sized(s, p, LIVE) == Whole(n)
    ensures Sized(s, p[..n], LIVE) == Whole(n)
    ensures Recorded(s, p, src) == Record(p[..n], src) + Recorded(Run(s, p[..n], LIVE, src), p[n..], src)
    ensures NoStrayRecord(s, p, src) <==>
              p[0] != INLINE_LIST && NoStrayRecord(Run(s, p[..n], LIVE, src), p[n..], src)
  {
    SizedOfPrefix(s, p, LIVE, n);
    hide Sized, Run, Record;
  }

  lemma RecordedStops(s: State, p: Bytes, src: Sources)
    requires p == [] || Sized(s, p, LIVE) == Short
    ensures Recorded(s, p, src) == [] && NoStrayRecord(s, p, src)
  {
    hide Sized, Run, Record;
  }

  /** The capture of a stream is the captures of its parts. */
  lemma {:induction false} RecordedJoins(s: State, p: Bytes, q: Bytes, src: Sources)
    ensures var (t, rest) := Parse(s, p, LIVE, src);
            Recorded(s, p + q, src) == Recorded(s, p, src) + Recorded(t, rest + q, src)
    decreases |p|
  {
    hide *;
    if p == [] || Sized(s, p, LIVE) == Short {
      ParseStops(s, p, LIVE, src);
      RecordedStops(s, p, src);
    } else {
      var n := Sized(s, p, LIVE).n;
      SizedMonotone(s, p, q, LIVE);
      ParseStep(s, p, LIVE, src, n);
      RecordedStep(s, p, src, n);
      RecordedStep(s, p + q, src, n);
      assert (p + q)[..n] == p[..n] && (p + q)[n..] == p[n..] + q;
      RecordedJoins(Run(s, p[..n], LIVE, src), p[n..], q, src);
    }
  }

  /** What a capture needs to replay in memory b: no command of the stream begins with the
      record's byte, and its indexed loads find in b the words they found when it was live. */
  ghost predicate Replayable(s: State, p: Bytes, a: Sources, b: Sources) {
    NoStrayRecord(s, p, a) && ParseSame(s, p, LIVE, a, b)
  }

  /** The theorem: the capture's records, followed by the bytes of a command cut off, replay
      to the very registers, loads, calls and draws of the live stream, and leave the same
      bytes unparsed, exactly when it is replayable; and when it is not, the renderer is told
      something else. */
  lemma CaptureReplays(s: State, p: Bytes, a: Sources, b: Sources)
    requires BothOk(a, b)
    ensures var (t, rest) := Parse(s, p, LIVE, a);
            var again := Parse(s, Recorded(s, p, a) + rest, REPLAY, b);
            && (again == (t, rest) <==> Replayable(s, p, a, b))
            && (again.0.log == t.log <==> Replayable(s, p, a, b))
  {
    var (t, rest) := Parse(s, p, LIVE, a);
    hide *;
    Continues(s, p, a, b, rest);
    RestIsShort(t, rest);
    ParseStops(t, rest, REPLAY, b);
  }

  /** Its records, with anything after them. */
  lemma {:induction false} Continues(s: State, p: Bytes, a: Sources, b: Sources, q: Bytes)
    requires BothOk(a, b)
    ensures var t := Parse(s, p, LIVE, a).0;
            var again := Parse(s, Recorded(s, p, a) + q, REPLAY, b);
            && (Replayable(s, p, a, b) ==> again == Parse(t, q, REPLAY, b))
            && (!Replayable(s, p, a, b) ==> !(t.log <= again.0.log))
    decreases |p|
  {
    hide Sized, Run, Parse, Record, Recorded, NoStrayRecord, RunSame, ParseSame, Clash;
    if p == [] || Sized(s, p, LIVE) == Short {
      ParseStops(s, p, LIVE, a);
      RecordedStops(s, p, a);
      SameStops(s, p, LIVE, a, b);
      assert [] + q == q;
    } else {
      var n := Sized(s, p, LIVE).n;
      RecordedStep(s, p, a, n);
      if p[0] == INLINE_LIST {
        UnknownRuns(s, p, a);
        StrayTold(s, p, Recorded(s, p, a) + q, a, b);
      } else {
        var c, u := p[..n], Run(s, p[..n], LIVE, a);
        SameStep(s, p, LIVE, a, b, n);
        ParseStep(s, p, LIVE, a, n);
        var v := StepReplays(s, p, n, a, b, q);
        if RunSame(s, c, LIVE, a, b) {
          Continues(u, p[n..], a, b, q);
        } else {
          ParseGrows(u, p[n..], LIVE, a);
          ParseGrows(v, Recorded(u, p[n..], a) + q, REPLAY, b);
          ClashLasts(u.log, v.log, Parse(u, p[n..], LIVE, a).0.log, Parse(v, Recorded(u, p[n..], a) + q, REPLAY, b).0.log);
        }
      }
    }
  }

  /** One command of it: its record replays, to state v, and then the rest does. */
  lemma StepReplays(s: State, p: Bytes, n: nat, a: Sources, b: Sources, q: Bytes) returns (v: State)
    requires BothOk(a, b) && p != [] && p[0] != INLINE_LIST
    requires Sized(s, p, LIVE) == Whole(n) && Sized(s, p[..n], LIVE) == Whole(n)
    ensures var u := Run(s, p[..n], LIVE, a);
            && Parse(s, Recorded(s, p, a) + q, REPLAY, b) == Parse(v, Recorded(u, p[n..], a) + q, REPLAY, b)
            && (RunSame(s, p[..n], LIVE, a, b) ==> v == u)
            && (!RunSame(s, p[..n], LIVE, a, b) ==> Clash(u.log, v.log))
  {
    assert SourcesOk(a);
    hide *;
    var c, u := p[..n], Run(s, p[..n], LIVE, a);
    RecordedStep(s, p, a, n);
    var r, more := Record(c, a), Recorded(u, p[n..], a) + q;
    Regroup(r, Recorded(u, p[n..], a), q);
    RecordSized(s, c, more, a);
    Halves(r, more);
    ParseStep(s, r + more, REPLAY, b, |r|);
    v := Run(s, r, REPLAY, b);
    RecordRuns(s, c, a, b);
  }

  lemma RestIsShort(s: State, p: Bytes)
    requires p == [] || Sized(s, p, LIVE) == Short
    ensures p == [] || Sized(s, p, REPLAY) == Short
  {
    hide DrawSize, XfSize, InlineSize;
  }

  /** Live, the stray byte is an unknown one; in a replay it begins a call, whole or not. */
  lemma StrayTold(s: State, p: Bytes, r: Bytes, a: Sources, b: Sources)
    requires p != [] && p[0] == INLINE_LIST && r != [] && r[0] == INLINE_LIST
    ensures !(Parse(s, p, LIVE, a).0.log <= Parse(s, r, REPLAY, b).0.log)
  {
    var n := |s.log|;
    UnknownRuns(s, p, a);
    hide *;
    ParseStep(s, p, LIVE, a, 1);
    ParseGrows(Run(s, p[..1], LIVE, a), p[1..], LIVE, a);
    assert Parse(s, p, LIVE, a).0.log[n] == Unknown(INLINE_LIST);
    if Sized(s, r, REPLAY) == Short {
      ParseStops(s, r, REPLAY, b);
    } else {
      var k := Sized(s, r, REPLAY).n;
      ParseStep(s, r, REPLAY, b, k);
      StrayCalls(s, r[..k], b);
      ParseGrows(Run(s, r[..k], REPLAY, b), r[k..], REPLAY, b);
      assert Parse(s, r, REPLAY, b).0.log[n].Called?;
    }
  }

  lemma UnknownRuns(s: State, p: Bytes, a: Sources)
    requires p != [] && p[0] == INLINE_LIST
    ensures Sized(s, p, LIVE) == Whole(1) && Sized(s, p[..1], LIVE) == Whole(1)
    ensures Run(s, p[..1], LIVE, a).log == s.log + [Unknown(INLINE_LIST)]
    ensures Record(p[..1], a) == p[..1]
  {
  }

  lemma StrayCalls(s: State, c: Bytes, b: Sources)
    requires c != [] && c[0] == INLINE_LIST && Sized(s, c, REPLAY) == Whole(|c|)
    ensures |s.log| < |Run(s, c, REPLAY, b).log| && Run(s, c, REPLAY, b).log[|s.log|].Called?
  {
    NineBytes(s, c, REPLAY);
    hide Sized, Parse, Body, Be32;
    CallRuns(s, c, REPLAY, b);
    ParseGrows(CalledAs(s, c), Body(c, REPLAY, b), Mode(true, true), b);
    assert CalledAs(s, c).log[|s.log|].Called?;
  }

  // ---- a frame: memory changes between the stores -------------------------------------------------

  /** A store, and memory as it is when the store is parsed. */
  datatype Store = Store(bytes: Bytes, src: Sources)

  ghost predicate StoresOk(stores: seq<Store>) { forall i | 0 <= i < |stores| :: SourcesOk(stores[i].src) }

  /** The live parse of a frame, and what the pipe then holds. */
  function Lived(s: State, stores: seq<Store>): (State, Bytes) {
    if stores == [] then (s, [])
    else
      var (t, pipe) := Lived(s, stores[..|stores| - 1]);
      var last := stores[|stores| - 1];
      Parse(t, pipe + last.bytes, LIVE, last.src)
  }

  /** The frame's capture: each list as it was when it was called. */
  function Captured(s: State, stores: seq<Store>): Bytes {
    if stores == [] then []
    else
      var (t, pipe) := Lived(s, stores[..|stores| - 1]);
      var last := stores[|stores| - 1];
      Captured(s, stores[..|stores| - 1]) + Recorded(t, pipe + last.bytes, last.src)
  }

  ghost predicate AllReplayable(s: State, stores: seq<Store>, b: Sources) {
    stores == [] ||
    (var (t, pipe) := Lived(s, stores[..|stores| - 1]);
     var last := stores[|stores| - 1];
     AllReplayable(s, stores[..|stores| - 1], b) && Replayable(t, pipe + last.bytes, last.src, b))
  }

  lemma {:induction false} FrameContinues(s: State, stores: seq<Store>, b: Sources, q: Bytes)
    requires StoresOk(stores) && SourcesOk(b)
    ensures var t := Lived(s, stores).0;
            var again := Parse(s, Captured(s, stores) + q, REPLAY, b);
            && (AllReplayable(s, stores, b) ==> again == Parse(t, q, REPLAY, b))
            && (!AllReplayable(s, stores, b) ==> !(t.log <= again.0.log))
  {
    hide Parse, Recorded, Replayable, SourcesOk;
    if stores == [] {
      assert [] + q == q;
    } else {
      var before, last := stores[..|stores| - 1], stores[|stores| - 1];
      var (t, pipe) := Lived(s, before);
      var r := Recorded(t, pipe + last.bytes, last.src);
      assert Captured(s, stores) + q == Captured(s, before) + (r + q);
      FrameContinues(s, before, b, r + q);
      Continues(t, pipe + last.bytes, last.src, b, q);
      if !AllReplayable(s, before, b) {
        ParseGrows(t, pipe + last.bytes, LIVE, last.src);
        PrefixOfMore(t.log, Lived(s, stores).0.log, Parse(s, Captured(s, stores) + q, REPLAY, b).0.log);
      }
    }
  }

  lemma {:induction false} LivedShort(s: State, stores: seq<Store>)
    ensures var (t, rest) := Lived(s, stores); rest == [] || Sized(t, rest, LIVE) == Short
  {
    hide Parse, Sized;
  }

  /** The bytes of the stores. */
  function Came(stores: seq<Store>): Bytes {
    if stores == [] then [] else Came(stores[..|stores| - 1]) + stores[|stores| - 1].bytes
  }

  /** While memory does not change, the split into stores shows in neither parse nor capture. */
  lemma {:induction false} SteadyFrame(s: State, stores: seq<Store>, src: Sources)
    requires forall i | 0 <= i < |stores| :: stores[i].src == src
    ensures Lived(s, stores) == Parse(s, Came(stores), LIVE, src)
    ensures Captured(s, stores) == Recorded(s, Came(stores), src)
  {
    hide Parse, Recorded;
    if stores == [] {
      ParseStops(s, [], LIVE, src);
      RecordedStops(s, [], src);
    } else {
      var before, last := stores[..|stores| - 1], stores[|stores| - 1];
      SteadyFrame(s, before, src);
      ParseJoins(s, Came(before), last.bytes, LIVE, src);
      RecordedJoins(s, Came(before), last.bytes, src);
    }
  }

  /** A capture begins where a frame ended, with a copy to the screen. The register file saved
      there leaves out the write mask and the list being read; a replay starts without either,
      and so did the frame: the copy's own write had lapsed the mask. However memory changed
      while the frame was parsed, and since, the frame replays exactly when each store's
      stretch does; and otherwise the renderer is told something else. */
  lemma FrameReplays(before: State, v: bv32, stores: seq<Store>, b: Sources)
    requires StoresOk(stores) && SourcesOk(b) && (v >> 24) == 0x52 && before.list == Direct
    ensures var s := BpLoaded(before, v);
            var (t, rest) := Lived(s, stores);
            var again := Parse(State(s.cp, s.xf, s.bp, 0xFF_FFFF, Direct, s.log), Captured(s, stores) + rest, REPLAY, b);
            && (again == (t, rest) <==> AllReplayable(s, stores, b))
            && (again.0.log == t.log <==> AllReplayable(s, stores, b))
  {
    var s := BpLoaded(before, v);
    assert s.mask == 0xFF_FFFF && s == State(s.cp, s.xf, s.bp, 0xFF_FFFF, Direct, s.log);
    var (t, rest) := Lived(s, stores);
    hide *;
    FrameContinues(s, stores, b, rest);
    LivedShort(s, stores);
    RestIsShort(t, rest);
    ParseStops(t, rest, REPLAY, b);
  }

  // ---- where a capture does not replay ------------------------------------------------------

  /** An indexed load of an array the guest changes before the frame ends: the stream has no
      stray byte, and is its own capture, but the replay loads the array's new word. */
  lemma ChangedArrayDiffers(s: State, a: Sources, b: Sources)
    requires BothOk(a, b)
    requires var at := ArrayAt(s, [0x20, 0, 0, 0, 0]); InMemory(at, 4) && a.word(WordAt(at, 0)) != b.word(WordAt(at, 0))
    ensures var p: Bytes := [0x20, 0, 0, 0, 0];
            var at := ArrayAt(s, p);
            && NoStrayRecord(s, p, a) && !Replayable(s, p, a, b) && Recorded(s, p, a) == p
            && Parse(s, p, LIVE, a).0.log == s.log + [XfLoad(0, [a.word(WordAt(at, 0))])]
            && Parse(s, p, REPLAY, b).0.log == s.log + [XfLoad(0, [b.word(WordAt(at, 0))])]
  {
    var p: Bytes := [0x20, 0, 0, 0, 0];
    LoadOne(s, a, LIVE);
    LoadOne(s, b, REPLAY);
    assert p[..5] == p && p[5..] == [] && p + [] == p;
    hide *;
    var x, y := Run(s, p, LIVE, a), Run(s, p, REPLAY, b);
    ParseStep(s, p, LIVE, a, 5);
    ParseStep(s, p, REPLAY, b, 5);
    RecordedStep(s, p, a, 5);
    ParseStops(x, [], LIVE, a);
    ParseStops(y, [], REPLAY, b);
    RecordedStops(x, [], a);
    CaptureReplays(s, p, a, b);
    OtherWord(s.log, a.word(WordAt(ArrayAt(s, p), 0)), b.word(WordAt(ArrayAt(s, p), 0)));
  }

  lemma OtherWord(log: seq<Event>, x: bv32, y: bv32)
    requires x != y
    ensures log + [XfLoad(0, [x])] != log + [XfLoad(0, [y])]
  {
    assert (log + [XfLoad(0, [x])])[|log|].words[0] == x;
    assert (log + [XfLoad(0, [y])])[|log|].words[0] == y;
  }

  lemma LoadOne(s: State, a: Sources, m: Mode)
    requires InMemory(ArrayAt(s, [0x20, 0, 0, 0, 0]), 4)
    ensures var p: Bytes := [0x20, 0, 0, 0, 0];
            && Sized(s, p, m) == Whole(5) && Record(p, a) == p
            && Run(s, p, m, a).log == s.log + [XfLoad(0, [a.word(WordAt(ArrayAt(s, p), 0))])]
  {
    hide ArrayAt, WordAt, InMemory;
    var p: Bytes := [0x20, 0, 0, 0, 0];
    assert Be16(p, 3) == 0;
    var at := ArrayAt(s, p);
    assert seq(1, i requires 0 <= i < 1 => a.word(WordAt(at, i))) == [a.word(WordAt(at, 0))];
    assert Indexed(s, p, a).log == s.log + [XfLoad(0, [a.word(WordAt(at, 0))])];
  }

  /** An unknown byte is skipped live; in a capture, that byte is a record's, and the register
      load after it is taken for the record's head. */
  lemma StrayRecordSwallowsCommands(s: State, v: Byte, a: Sources, b: Sources)
    ensures var p: Bytes := [INLINE_LIST, 0x08, 0x50, 0, 0, 0, v];
            && Recorded(s, p, a) == p
            && Parse(s, p, LIVE, a).0.log == s.log + [Unknown(INLINE_LIST), CpLoad(0x50, v as bv32)]
            && Parse(s, p, REPLAY, b).0.log == s.log
  {
    hide *;
    var p: Bytes := [INLINE_LIST, 0x08, 0x50, 0, 0, 0, v];
    var load: Bytes := [0x08, 0x50, 0, 0, 0, v];
    var u := s.(log := s.log + [Unknown(INLINE_LIST)]);
    StrayPieces(v);
    StrayByte(s, p, a);
    LoadByte(u, v, a);
    ParseStep(s, p, LIVE, a, 1);
    ParseStep(u, load, LIVE, a, 6);
    RecordedStep(s, p, a, 1);
    RecordedStep(u, load, a, 6);
    ParseStops(Run(u, load, LIVE, a), [], LIVE, a);
    RecordedStops(Run(u, load, LIVE, a), [], a);
    ParseStops(s, p, REPLAY, b);
    Regroup(s.log, [Unknown(INLINE_LIST)], [CpLoad(0x50, v as bv32)]);
    assert [Unknown(INLINE_LIST)] + [CpLoad(0x50, v as bv32)] == [Unknown(INLINE_LIST), CpLoad(0x50, v as bv32)];
  }

  lemma StrayPieces(v: Byte)
    ensures var p: Bytes := [INLINE_LIST, 0x08, 0x50, 0, 0, 0, v];
            var load: Bytes := [0x08, 0x50, 0, 0, 0, v];
            && p[..1] == [INLINE_LIST] && p[1..] == load && [INLINE_LIST] + load == p
            && load[..6] == load && load[6..] == [] && load + [] == load
  {
  }

  lemma StrayByte(s: State, p: Bytes, a: Sources)
    requires 0 < |p| < 9 && p[0] == INLINE_LIST
    ensures Sized(s, p, LIVE) == Whole(1) && Sized(s, p, REPLAY) == Short
    ensures Sized(s, [INLINE_LIST], LIVE) == Whole(1)
    ensures Run(s, [INLINE_LIST], LIVE, a) == s.(log := s.log + [Unknown(INLINE_LIST)])
    ensures Record([INLINE_LIST], a) == [INLINE_LIST]
  {
  }

  lemma LoadByte(s: State, v: Byte, a: Sources)
    ensures var load: Bytes := [0x08, 0x50, 0, 0, 0, v];
            && Sized(s, load, LIVE) == Whole(6)
            && Run(s, load, LIVE, a).log == s.log + [CpLoad(0x50, v as bv32)]
            && Record(load, a) == load
  {
    var load: Bytes := [0x08, 0x50, 0, 0, 0, v];
    assert Be32(load, 2) == v as bv32;
  }
}
