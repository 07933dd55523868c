/**
  Storage that queued draws point into: decoded textures, retired to a graveyard until a
  drain, and vertex blocks cut from an arena that a drain takes back whole. Proved over any
  run: no buffer or block that an unfinished command, or the draw being set up, can reach is
  freed or handed out again, and no buffer is freed twice.
 */
module Buffers {
  const ARENA_BYTES: nat := 0x300_0000
  const VERTEX_BYTES: nat := 156
  const MAX_VERTICES: nat := 0xFFFF

  // ---- the graveyard, in place ----------------------------------------------------------

  /** What the draw being set up still reaches stays; the rest is freed. */
  function Spared(grave: seq<nat>, maps: set<nat>): seq<nat> {
    if grave == [] then []
    else Spared(grave[..|grave| - 1], maps) + if grave[|grave| - 1] in maps then [grave[|grave| - 1]] else []
  }

  function Freed(grave: seq<nat>, maps: set<nat>): seq<nat> {
    if grave == [] then []
    else Freed(grave[..|grave| - 1], maps) + if grave[|grave| - 1] in maps then [] else [grave[|grave| - 1]]
  }

  lemma SparedStep(grave: seq<nat>, i: nat, maps: set<nat>)
    requires i < |grave|
    ensures Spared(grave[..i + 1], maps) == Spared(grave[..i], maps) + if grave[i] in maps then [grave[i]] else []
    ensures Freed(grave[..i + 1], maps) == Freed(grave[..i], maps) + if grave[i] in maps then [] else [grave[i]]
  {
    assert grave[..i + 1][..i] == grave[..i];
  }

  lemma {:induction false} FreedMembers(grave: seq<nat>, maps: set<nat>)
    ensures forall b :: b in Freed(grave, maps) <==> b in grave && b !in maps
    ensures |Freed(grave, maps)| + |Spared(grave, maps)| == |grave|
  {
    if grave != [] {
      FreedMembers(grave[..|grave| - 1], maps);
      assert grave == grave[..|grave| - 1] + [grave[|grave| - 1]];
    }
  }

  lemma NoneKept(maps: set<nat>)
    ensures Spared([], maps) == [] && Freed([], maps) == []
  {
  }

  lemma {:induction false} SparedMembers(grave: seq<nat>, maps: set<nat>)
    ensures forall b :: b in Spared(grave, maps) <==> b in grave && b in maps
  {
    if grave != [] {
      SparedMembers(grave[..|grave| - 1], maps);
      assert grave == grave[..|grave| - 1] + [grave[|grave| - 1]];
    }
  }

  ghost predicate NoRepeats(s: seq<nat>) { forall i, j | 0 <= i < j < |s| :: s[i] != s[j] }

  lemma {:induction false} SparedNoRepeats(grave: seq<nat>, maps: set<nat>)
    requires NoRepeats(grave)
    ensures NoRepeats(Spared(grave, maps))
  {
    if grave != [] {
      var rest, last := grave[..|grave| - 1], grave[|grave| - 1];
      SparedNoRepeats(rest, maps);
      SparedMembers(rest, maps);
      assert last !in rest;
    }
  }

  class Graveyard {
    var slot: array<nat>
    var n: nat

    ghost predicate Valid()
      reads this
    {
      n <= slot.Length
    }

    ghost function Contents(): seq<nat>
      reads this, slot
      requires Valid()
    {
      slot[..n]
    }

    constructor ()
      ensures Valid() && Contents() == [] && fresh(slot)
    {
      slot := new nat[0];
      n := 0;
    }

    /** tex_free_later: the list grows instead of overflowing. */
    method Bury(b: nat)
      requires Valid()
      modifies this, slot
      ensures Valid() && Contents() == old(Contents()) + [b]
      ensures slot == old(slot) || fresh(slot)
    {
      if n == slot.Length {
        var cap := if slot.Length != 0 then slot.Length * 2 else 512;
        var grown := new nat[cap];
        forall i | 0 <= i < n {
          grown[i] := slot[i];
        }
        assert grown[..n] == slot[..n];
        slot := grown;
      }
      slot[n] := b;
      n := n + 1;
    }

    /** tex_graveyard_empty: `maps` are the buffers of the setup being built, if any. */
    method Empty(maps: seq<nat>) returns (freed: seq<nat>)
      requires Valid()
      modifies this`n, slot
      ensures Valid() && slot == old(slot) && Contents() == Spared(old(Contents()), set b | b in maps)
      ensures forall b :: b in freed <==> b in old(Contents()) && b !in maps
      ensures |freed| + n == old(n)
    {
      hide Spared, Freed;
      ghost var was, live := Contents(), set b | b in maps;
      NoneKept(live);
      FreedMembers(was, live);
      var i, keep := 0, 0;
      freed := [];
      while i < n
        invariant 0 <= keep <= i <= n == |was| <= slot.Length
        invariant slot[..keep] == Spared(was[..i], live)
        invariant forall j | i <= j < n :: slot[j] == was[j]
        invariant freed == Freed(was[..i], live)
      {
        SparedStep(was, i, live);
        var p := slot[i];
        if p in maps {
          ghost var before := slot[..keep];
          slot[keep] := p;
          keep := keep + 1;
          assert slot[..keep] == before + [p];
        } else {
          freed := freed + [p];
        }
        i := i + 1;
      }
      assert was[..n] == was;
      n := keep;
    }
  }

  // ---- room in the arena ---------------------------------------------------------------------

  /** Blocks are cut in sixteens. */
  function Sixteens(n: nat): nat { (n + 15) / 16 }

  function Rounded(n: nat): nat { 16 * Sixteens(n) }

  /** What gxr_draw_inner asks before it drains, for a draw of one or two blocks. */
  predicate HasRoom(used: nat, count: nat, two: bool) {
    used + (if two then 2 * (VERTEX_BYTES * count) else VERTEX_BYTES * count) + 16 <= ARENA_BYTES
  }

  /** What it then takes. */
  function Taken(count: nat, two: bool): nat {
    if two then Rounded(VERTEX_BYTES * count) + Rounded(VERTEX_BYTES * count) else Rounded(VERTEX_BYTES * count)
  }

  lemma TakenInSixteens(count: nat, two: bool)
    ensures Taken(count, two) % 16 == 0
  {
    hide Sixteens;
    Sixteenfold(Sixteens(VERTEX_BYTES * count));
  }

  lemma Sixteenfold(k: nat)
    ensures (16 * k) % 16 == 0 && (16 * k + 16 * k) % 16 == 0
  {
  }

  /** Sixteen spare bytes are enough for both blocks' rounding, since the arena is cut in
      sixteens; and an empty arena has room for the longest draw there is. */
  lemma RoomIsEnough(used: nat, count: nat, two: bool)
    requires used % 16 == 0
    ensures HasRoom(used, count, two) ==> used + Taken(count, two) <= ARENA_BYTES
    ensures count <= MAX_VERTICES ==> HasRoom(0, count, two)
  {
    var n := VERTEX_BYTES * count;
    if HasRoom(used, count, two) {
      if two {
        TwoRoundings(used, n);
      } else {
        OneRounding(used, n);
      }
    }
  }

  lemma OneRounding(used: nat, n: nat)
    requires used + n + 16 <= ARENA_BYTES
    ensures used + Rounded(n) <= ARENA_BYTES
  {
  }

  lemma InSixteens(u: nat, q: nat, r: nat, room: nat)
    requires r < 16 && 16 * u + 2 * (16 * q + r) + 16 <= 16 * room
    ensures u + 2 * (if r == 0 then q else q + 1) <= room
  {
    if 0 < r && room < u + 2 * q + 2 {
      assert false;
    }
  }

  lemma SixteensIs(q: nat, r: nat)
    requires r < 16
    ensures Sixteens(16 * q + r) == if r == 0 then q else q + 1
  {
  }

  lemma TwoRoundings(used: nat, n: nat)
    requires used % 16 == 0 && used + 2 * n + 16 <= ARENA_BYTES
    ensures used + Rounded(n) + Rounded(n) <= ARENA_BYTES
  {
    var q, r, u := n / 16, n % 16, used / 16;
    assert n == 16 * q + r && used == 16 * u;
    SixteensIs(q, r);
    hide Sixteens;
    InSixteens(u, q, r, ARENA_BYTES / 16);
  }

  // ---- any run -------------------------------------------------------------------------------

  /** A published command: the buffers it reads or writes, and its vertices' block. */
  datatype Cmd = Cmd(refs: set<nat>, lo: nat, hi: nat)

  /** The draw being set up: resolving its maps, or ready to publish with its block. */
  datatype Setup = Idle | Building(maps: set<nat>, size: nat) | Ready(maps: set<nat>, lo: nat, hi: nat)

  datatype State = State(ran: seq<nat>, cmds: seq<Cmd>, entries: map<nat, nat>, grave: seq<nat>, setup: Setup, used: nat)

  /** Buffers not yet given back to the allocator. */
  ghost predicate Owned(s: State, b: nat) { b in s.grave || exists e :: e in s.entries && s.entries[e] == b }

  function Buried(s: State, e: nat): seq<nat> { if e in s.entries then s.grave + [s.entries[e]] else s.grave }

  ghost predicate WorkerDone(s: State, s': State, w: nat) {
    w < |s.ran| && s.ran[w] < |s.cmds| && s' == s.(ran := s.ran[w := s.ran[w] + 1])
  }

  ghost predicate Begin(s: State, s': State, count: nat, two: bool) {
    s.setup.Idle? && HasRoom(s.used, count, two) && s' == s.(setup := Building({}, Taken(count, two)))
  }

  /** A decode, a replacement or a copy's image: any buffer the allocator has free. */
  ghost predicate Decode(s: State, s': State, e: nat, b: nat) {
    !s.setup.Ready? && !Owned(s, b) && s' == s.(entries := s.entries[e := b], grave := Buried(s, e))
  }

  /** An eviction, or tex_invalidate_all's step: the entry's buffer waits in the graveyard. */
  ghost predicate Drop(s: State, s': State, e: nat) {
    !s.setup.Ready? && e in s.entries && s' == s.(entries := s.entries - {e}, grave := Buried(s, e))
  }

  ghost predicate Resolve(s: State, s': State, e: nat) {
    s.setup.Building? && e in s.entries && s' == s.(setup := Building(s.setup.maps + {s.entries[e]}, s.setup.size))
  }

  ghost predicate TakeBlock(s: State, s': State) {
    s.setup.Building? && s' == s.(setup := Ready(s.setup.maps, s.used, s.used + s.setup.size), used := s.used + s.setup.size)
  }

  ghost predicate Publish(s: State, s': State) {
    s.setup.Ready? && s' == s.(setup := Idle, cmds := s.cmds + [Cmd(s.setup.maps, s.setup.lo, s.setup.hi)])
  }

  /** A copy whose workers decode its rows into a fresh image of its texture's entry. */
  ghost predicate PublishCopy(s: State, s': State, e: nat, b: nat) {
    && s.setup.Idle? && !Owned(s, b)
    && s' == s.(entries := s.entries[e := b], grave := Buried(s, e), cmds := s.cmds + [Cmd({b}, 0, 0)])
  }

  /** A copy without an image, or a clear. */
  ghost predicate PublishOther(s: State, s': State) {
    s.setup.Idle? && s' == s.(cmds := s.cmds + [Cmd({}, 0, 0)])
  }

  function Maps(s: State): set<nat> { if s.setup.Idle? then {} else s.setup.maps }

  /** A drain; it may come while a draw's textures are being resolved, never after. */
  ghost predicate Drain(s: State, s': State) {
    && !s.setup.Ready? && (forall w | 0 <= w < |s.ran| :: s.ran[w] == |s.cmds|)
    && s' == s.(grave := Spared(s.grave, Maps(s)), used := 0)
  }

  ghost predicate Next(s: State, s': State) {
    || (exists w :: WorkerDone(s, s', w))
    || (exists count, two :: Begin(s, s', count, two))
    || (exists e, b :: Decode(s, s', e, b))
    || (exists e :: Drop(s, s', e))
    || (exists e :: Resolve(s, s', e))
    || TakeBlock(s, s') || Publish(s, s') || Drain(s, s')
    || (exists e, b :: PublishCopy(s, s', e, b)) || PublishOther(s, s')
  }

  ghost predicate Init(s: State) {
    && (forall w | 0 <= w < |s.ran| :: s.ran[w] == 0)
    && s.cmds == [] && s.entries == map[] && s.grave == [] && s.setup == Idle && s.used == 0
  }

  /** Some worker has yet to finish command c. */
  ghost predicate Unfinished(s: State, c: nat) { c < |s.cmds| && exists w: nat :: w < |s.ran| && s.ran[w] <= c }

  ghost predicate Block(lo: nat, hi: nat, used: nat) { lo <= hi <= used }

  ghost predicate BlocksApart(a: Cmd, b: Cmd) { a.hi <= b.lo || b.hi <= a.lo }

  // what holds in every state

  ghost predicate CountsOk(s: State) { forall w | 0 <= w < |s.ran| :: s.ran[w] <= |s.cmds| }

  /** No buffer is owned twice. */
  ghost predicate OnceOk(s: State) {
    && NoRepeats(s.grave)
    && (forall e | e in s.entries :: s.entries[e] !in s.grave)
    && (forall e, f | e in s.entries && f in s.entries && s.entries[e] == s.entries[f] :: e == f)
  }

  ghost predicate RefsOk(s: State) {
    && (forall c: nat, b | Unfinished(s, c) && b in s.cmds[c].refs :: Owned(s, b))
    && (forall b | b in Maps(s) :: Owned(s, b))
  }

  ghost predicate ArenaOk(s: State) {
    && s.used % 16 == 0 && s.used <= ARENA_BYTES
    && (s.setup.Building? ==> s.setup.size % 16 == 0 && s.used + s.setup.size <= ARENA_BYTES)
    && (forall c: nat | Unfinished(s, c) :: Block(s.cmds[c].lo, s.cmds[c].hi, s.used))
    && (forall c: nat, d: nat | Unfinished(s, c) && Unfinished(s, d) && c < d :: BlocksApart(s.cmds[c], s.cmds[d]))
    && (s.setup.Ready? ==> s.setup.lo <= s.setup.hi == s.used)
    && (s.setup.Ready? ==> forall c: nat | Unfinished(s, c) :: s.cmds[c].hi <= s.setup.lo)
  }

  ghost predicate Inv(s: State) { CountsOk(s) && OnceOk(s) && RefsOk(s) && ArenaOk(s) }

  lemma StillOwned(s: State, s': State, e: nat, b: nat)
    requires s'.grave == Buried(s, e)
    requires Owned(s, b)
    requires (forall f | f in s.entries && f != e :: f in s'.entries && s'.entries[f] == s.entries[f])
    ensures Owned(s', b)
  {
    if b !in s.grave {
      var f :| f in s.entries && s.entries[f] == b;
      if f != e {
        assert s'.entries[f] == b;
      }
    }
  }

  lemma WorkerKeeps(s: State, s': State, w: nat)
    requires Inv(s) && WorkerDone(s, s', w)
    ensures Inv(s')
  {
    forall c: nat | Unfinished(s', c)
      ensures Unfinished(s, c)
    {
      var v: nat :| v < |s'.ran| && s'.ran[v] <= c;
      assert s.ran[v] <= c;
    }
    assert forall b | Owned(s, b) :: Owned(s', b);
    hide Owned, Unfinished, BlocksApart, Block;
  }

  lemma DecodeKeeps(s: State, s': State, e: nat, b: nat)
    requires Inv(s) && Decode(s, s', e, b)
    ensures Inv(s')
  {
    forall x | Owned(s, x) ensures Owned(s', x) { StillOwned(s, s', e, x); }
    assert forall c: nat :: Unfinished(s', c) <==> Unfinished(s, c);
    DecodeOnce(s, s', e, b);
    hide Owned, Unfinished, OnceOk, BlocksApart, Block;
  }

  lemma DecodeOnce(s: State, s': State, e: nat, b: nat)
    requires OnceOk(s) && !Owned(s, b) && s'.entries == s.entries[e := b] && s'.grave == Buried(s, e)
    ensures OnceOk(s')
  {
  }

  lemma DropKeeps(s: State, s': State, e: nat)
    requires Inv(s) && Drop(s, s', e)
    ensures Inv(s')
  {
    forall x | Owned(s, x) ensures Owned(s', x) { StillOwned(s, s', e, x); }
    assert forall c: nat :: Unfinished(s', c) <==> Unfinished(s, c);
    hide Owned, Unfinished, BlocksApart, Block;
  }

  lemma BeginKeeps(s: State, s': State, count: nat, two: bool)
    requires Inv(s) && Begin(s, s', count, two)
    ensures Inv(s')
  {
    RoomIsEnough(s.used, count, two);
    TakenInSixteens(count, two);
    hide HasRoom, Taken;
    SetupOnly(s, s');
    hide Owned, Unfinished, BlocksApart, Block;
  }

  lemma SetupOnly(s: State, s': State)
    requires s'.ran == s.ran && s'.cmds == s.cmds && s'.entries == s.entries && s'.grave == s.grave
    ensures forall c: nat :: Unfinished(s', c) <==> Unfinished(s, c)
    ensures forall b :: Owned(s', b) <==> Owned(s, b)
  {
  }

  lemma ResolveKeeps(s: State, s': State, e: nat)
    requires Inv(s) && Resolve(s, s', e)
    ensures Inv(s')
  {
    assert Owned(s, s.entries[e]);
    SetupOnly(s, s');
    hide Owned, Unfinished, BlocksApart, Block;
  }

  lemma TakeBlockKeeps(s: State, s': State)
    requires Inv(s) && TakeBlock(s, s')
    ensures Inv(s')
  {
    SetupOnly(s, s');
    hide Owned, Unfinished, BlocksApart;
  }

  lemma PublishKeeps(s: State, s': State)
    requires Inv(s) && (Publish(s, s') || PublishOther(s, s'))
    ensures Inv(s')
  {
    var n := |s.cmds|;
    forall c: nat | Unfinished(s', c) && c != n
      ensures Unfinished(s, c)
    {
    }
    assert forall b :: Owned(s', b) <==> Owned(s, b);
    assert forall c: nat | c < n :: s'.cmds[c] == s.cmds[c];
    hide Owned, Unfinished;
  }

  lemma PublishCopyKeeps(s: State, s': State, e: nat, b: nat)
    requires Inv(s) && PublishCopy(s, s', e, b)
    ensures Inv(s')
  {
    var n := |s.cmds|;
    forall x | Owned(s, x) ensures Owned(s', x) { StillOwned(s, s', e, x); }
    assert Owned(s', b) by { assert s'.entries[e] == b; }
    forall c: nat | Unfinished(s', c) && c != n
      ensures Unfinished(s, c)
    {
    }
    assert forall c: nat | c < n :: s'.cmds[c] == s.cmds[c];
    DecodeOnce(s, s', e, b);
    hide Owned, Unfinished, OnceOk;
  }

  lemma DrainKeeps(s: State, s': State)
    requires Inv(s) && Drain(s, s')
    ensures Inv(s')
  {
    SparedMembers(s.grave, Maps(s));
    SparedNoRepeats(s.grave, Maps(s));
    forall c: nat ensures !Unfinished(s', c) {}
    forall b | b in Maps(s) ensures Owned(s', b) { assert Owned(s, b); }
    hide Spared, Unfinished, Owned;
  }

  lemma NextKeeps(s: State, s': State)
    requires Inv(s) && Next(s, s')
    ensures Inv(s')
  {
    hide Inv, WorkerDone, Begin, Decode, Drop, Resolve, TakeBlock, Publish, PublishCopy, PublishOther, Drain;
    if w :| WorkerDone(s, s', w) {
      WorkerKeeps(s, s', w);
    } else if e, b :| Decode(s, s', e, b) {
      DecodeKeeps(s, s', e, b);
    } else if e :| Drop(s, s', e) {
      DropKeeps(s, s', e);
    } else if e, b :| PublishCopy(s, s', e, b) {
      PublishCopyKeeps(s, s', e, b);
    } else if Publish(s, s') || PublishOther(s, s') {
      PublishKeeps(s, s');
    } else if Drain(s, s') {
      DrainKeeps(s, s');
    } else if TakeBlock(s, s') {
      TakeBlockKeeps(s, s');
    } else if e :| Resolve(s, s', e) {
      ResolveKeeps(s, s', e);
    } else {
      var count, two :| Begin(s, s', count, two);
      BeginKeeps(s, s', count, two);
    }
  }

  ghost predicate Stepped(s: State, s': State) { Next(s, s') }

  ghost predicate Run(trace: seq<State>) {
    trace != [] && Init(trace[0]) && forall i | 0 <= i < |trace| - 1 :: Stepped(trace[i], trace[i + 1])
  }

  lemma {:induction false} RunInv(trace: seq<State>, i: nat)
    requires Run(trace) && i < |trace|
    ensures Inv(trace[i])
  {
    if i == 0 {
      assert Init(trace[0]);
    } else {
      RunInv(trace, i - 1);
      assert Stepped(trace[i - 1], trace[i - 1 + 1]);
      hide Inv, Next;
      NextKeeps(trace[i - 1], trace[i]);
    }
  }

  /** Something may still read or write buffer b: a command not every worker has finished, or
      the draw being set up. */
  ghost predicate Reachable(s: State, b: nat) {
    b in Maps(s) || exists c: nat :: Unfinished(s, c) && b in s.cmds[c].refs
  }

  /** The theorem for buffers: in any run, nothing reachable is handed out again, whether as
      a decode or as a copy's image, and nothing reachable is freed by a drain. */
  lemma NothingReachableIsReused(trace: seq<State>, i: nat, s': State, b: nat)
    requires Run(trace) && i < |trace| && Reachable(trace[i], b)
    ensures !(exists e :: Decode(trace[i], s', e, b)) && !(exists e :: PublishCopy(trace[i], s', e, b))
    ensures Drain(trace[i], s') ==> Owned(s', b)
  {
    RunInv(trace, i);
    assert Owned(trace[i], b);
    if Drain(trace[i], s') {
      DrainKeeps(trace[i], s');
      assert forall c: nat :: !Unfinished(trace[i], c);
      assert b in Maps(s');
    }
  }

  /** What a drain frees, it frees once: the graveyard holds no buffer twice, nor one an entry
      still has. */
  lemma FreedOnce(trace: seq<State>, i: nat, s': State)
    requires Run(trace) && i < |trace| && Drain(trace[i], s')
    ensures NoRepeats(trace[i].grave)
    ensures forall b | b in trace[i].grave && b !in s'.grave :: !Owned(s', b)
  {
    RunInv(trace, i);
    SparedMembers(trace[i].grave, Maps(trace[i]));
  }

  /** And for vertex blocks: those of unfinished draws, and of the one about to be published,
      lie inside the arena and apart. */
  lemma BlocksDisjoint(trace: seq<State>, i: nat, c: nat, d: nat)
    requires Run(trace) && i < |trace| && Unfinished(trace[i], c)
    ensures var s := trace[i];
            && s.cmds[c].lo <= s.cmds[c].hi <= ARENA_BYTES
            && (Unfinished(s, d) && c < d ==> BlocksApart(s.cmds[c], s.cmds[d]))
            && (s.setup.Ready? ==> s.cmds[c].hi <= s.setup.lo <= s.setup.hi <= ARENA_BYTES)
  {
    RunInv(trace, i);
  }
}
