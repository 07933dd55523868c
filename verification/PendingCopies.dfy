/**
  The list of copies to memory since the last drain (g_pending): what each wrote, and
  which command it is. The producer asks it before it reads guest memory
  (pending_overlap), a drain or a token empties it, and a hook that may write memory
  removes the copies it overlaps (gxr_hook_hazard).
 */
module PendingCopies {
  const QUEUE_CAP: nat := 4096
  /** Addresses are compared as memory sees them (MEM_MASK). */
  const MEM_WINDOW: nat := 0x200_0000

  datatype Pending = Pending(addr: nat, bytes: nat, cmd: nat)

  predicate Overlaps(p: Pending, lo: nat, n: nat) {
    lo < p.addr + p.bytes && p.addr < lo + n
  }

  /** Published order: later entries are newer commands; every entry spans something. */
  ghost predicate Ordered(list: seq<Pending>) {
    && (forall i, j | 0 <= i < j < |list| :: list[i].cmd < list[j].cmd)
    && (forall i | 0 <= i < |list| :: 0 < list[i].bytes)
  }

  /** The newest listed copy overlapping [lo, lo + n), or -1. */
  function NewestOverlap(list: seq<Pending>, lo: nat, n: nat): int {
    if list == [] then -1
    else if Overlaps(list[|list| - 1], lo, n) then list[|list| - 1].cmd
    else NewestOverlap(list[..|list| - 1], lo, n)
  }

  /** What NewestOverlap means: a listed overlap newer than every other, or none at all. */
  lemma {:induction false} NewestIsNewest(list: seq<Pending>, lo: nat, n: nat)
    requires Ordered(list)
    ensures var c := NewestOverlap(list, lo, n);
            && (c == -1 ==> forall p | p in list :: !Overlaps(p, lo, n))
            && (c != -1 ==> exists p :: p in list && p.cmd == c && Overlaps(p, lo, n))
            && (forall p | p in list && Overlaps(p, lo, n) :: p.cmd <= c)
  {
    if list != [] {
      var rest, last := list[..|list| - 1], list[|list| - 1];
      assert list == rest + [last];
      NewestIsNewest(rest, lo, n);
      forall p | p in list && Overlaps(p, lo, n)
        ensures p.cmd <= NewestOverlap(list, lo, n)
      {
        if Overlaps(last, lo, n) {
          var i :| 0 <= i < |list| && list[i] == p;
        } else {
          assert p in rest;
        }
      }
      if Overlaps(last, lo, n) {
        assert last in list;
      }
    }
  }

  /** The list once a hook on [lo, lo + n) has removed what it overlaps. */
  function Kept(list: seq<Pending>, lo: nat, n: nat): seq<Pending> {
    if list == [] then []
    else
      var rest := Kept(list[..|list| - 1], lo, n);
      if Overlaps(list[|list| - 1], lo, n) then rest else rest + [list[|list| - 1]]
  }

  lemma KeptNone(lo: nat, n: nat)
    ensures Kept([], lo, n) == []
  {
  }

  lemma KeptStep(list: seq<Pending>, i: nat, lo: nat, n: nat)
    requires i < |list|
    ensures Kept(list[..i + 1], lo, n) == Kept(list[..i], lo, n) + if Overlaps(list[i], lo, n) then [] else [list[i]]
  {
    assert list[..i + 1][..i] == list[..i];
  }

  lemma {:induction false} KeptMembers(list: seq<Pending>, lo: nat, n: nat)
    ensures forall p :: p in Kept(list, lo, n) <==> p in list && !Overlaps(p, lo, n)
  {
    if list != [] {
      KeptMembers(list[..|list| - 1], lo, n);
      assert list == list[..|list| - 1] + [list[|list| - 1]];
    }
  }

  lemma {:induction false} KeptOrdered(list: seq<Pending>, lo: nat, n: nat)
    requires Ordered(list)
    ensures Ordered(Kept(list, lo, n))
  {
    if list != [] {
      var rest, last := list[..|list| - 1], list[|list| - 1];
      KeptOrdered(rest, lo, n);
      KeptMembers(rest, lo, n);
      var kept := Kept(rest, lo, n);
      forall i | 0 <= i < |kept|
        ensures kept[i].cmd < last.cmd
      {
        assert kept[i] in rest;
        var j :| 0 <= j < |rest| && rest[j] == kept[i];
        assert list[j] == kept[i];
      }
    }
  }

  // ---- when the list answers "is this copy's image still the newest?" ------------------

  /** A copy that overlaps p's bytes and was published after it. */
  predicate Covers(q: Pending, p: Pending) {
    p.cmd < q.cmd && Overlaps(q, p.addr, p.bytes)
  }

  /** What a texture lookup relies on: if the list names p as the newest overlap of p's own
      bytes, then no copy ever published since p wrote any of them. */
  ghost predicate Honest(list: seq<Pending>, published: set<Pending>) { HonestBut(list, published, {}) }

  /** The same, of a copy none of whose bytes is suspect. */
  ghost predicate HonestBut(list: seq<Pending>, published: set<Pending>, suspect: set<nat>) {
    forall p | p in list && Clean(p.addr, p.bytes, suspect) && NewestOverlap(list, p.addr, p.bytes) == p.cmd ::
      forall q | q in published :: !Covers(q, p)
  }

  ghost predicate Clean(lo: nat, n: nat, suspect: set<nat>) { forall a: nat | lo <= a < lo + n :: a !in suspect }

  /** A hook on [lo, lo + n) takes away the only listed copy that hid an older one it keeps. */
  ghost predicate Uncovers(list: seq<Pending>, lo: nat, n: nat) {
    exists p, q ::
      && p in Kept(list, lo, n)
      && NewestOverlap(Kept(list, lo, n), p.addr, p.bytes) == p.cmd
      && q in list && Overlaps(q, lo, n) && Covers(q, p)
  }

  predicate Covered(p: Pending, a: nat) { p.addr <= a < p.addr + p.bytes }

  /** What a hook on [lo, lo + n) brings to light: bytes of a copy it keeps that a newer copy
      it forgets wrote after it. */
  ghost function Uncovered(list: seq<Pending>, lo: nat, n: nat): set<nat> {
    set p, q, a: nat | p in list && q in list && !Overlaps(p, lo, n) && Overlaps(q, lo, n) && p.cmd < q.cmd
                       && p.addr <= a < p.addr + p.bytes && Covered(q, a) :: a
  }

  /** With those bytes suspect, the list stays honest but for them, whatever the hook. */
  lemma HookHonestBut(list: seq<Pending>, published: set<Pending>, suspect: set<nat>, lo: nat, n: nat)
    requires Ordered(list) && HonestBut(list, published, suspect)
    ensures HonestBut(Kept(list, lo, n), published, suspect + Uncovered(list, lo, n))
  {
    var kept, marked := Kept(list, lo, n), suspect + Uncovered(list, lo, n);
    KeptMembers(list, lo, n);
    KeptOrdered(list, lo, n);
    forall p, q | p in kept && Clean(p.addr, p.bytes, marked) && NewestOverlap(kept, p.addr, p.bytes) == p.cmd && q in published
      ensures !Covers(q, p)
    {
      NewestOfOwn(list, p);
      NewestOfOwn(kept, p);
      forall r | r in list
        ensures !Covers(r, p)
      {
        if Covers(r, p) {
          Exposed(list, lo, n, p, r, marked);
        }
      }
    }
  }

  lemma Exposed(list: seq<Pending>, lo: nat, n: nat, p: Pending, r: Pending, marked: set<nat>)
    requires p in list && r in list && Ordered(list) && Covers(r, p) && !Overlaps(p, lo, n) && Overlaps(r, lo, n)
    requires Uncovered(list, lo, n) <= marked
    ensures !Clean(p.addr, p.bytes, marked)
  {
    assert forall x | x in list :: 0 < x.bytes;
    var a := if p.addr < r.addr then r.addr else p.addr;
    assert Covered(r, a) && p.addr <= a < p.addr + p.bytes;
    assert a in Uncovered(list, lo, n);
  }

  lemma NewestOfOwn(list: seq<Pending>, p: Pending)
    requires Ordered(list) && p in list
    ensures NewestOverlap(list, p.addr, p.bytes) == p.cmd <==> forall q | q in list :: !Covers(q, p)
  {
    NewestIsNewest(list, p.addr, p.bytes);
    assert Overlaps(p, p.addr, p.bytes);
  }

  /** After a hook the list is honest exactly when the hook uncovers nothing: gxr_hook_hazard
      removes each overlapping copy but not the older ones beneath it that it does not touch. */
  lemma HookHonestIff(list: seq<Pending>, published: set<Pending>, lo: nat, n: nat)
    requires Ordered(list) && Honest(list, published)
    requires forall p | p in list :: p in published
    ensures Honest(Kept(list, lo, n), published) <==> !Uncovers(list, lo, n)
  {
    var kept := Kept(list, lo, n);
    KeptMembers(list, lo, n);
    KeptOrdered(list, lo, n);
    if !Uncovers(list, lo, n) {
      forall p, q | p in kept && NewestOverlap(kept, p.addr, p.bytes) == p.cmd && q in published
        ensures !Covers(q, p)
      {
        NewestOfOwn(list, p);
        assert Clean(p.addr, p.bytes, {});
        NewestOfOwn(kept, p);
      }
    } else {
      var p, q :| p in kept && NewestOverlap(kept, p.addr, p.bytes) == p.cmd && q in list && Overlaps(q, lo, n) && Covers(q, p);
      assert Clean(p.addr, p.bytes, {}) && q in published;
    }
  }

  /** Publishing a copy keeps the list honest: the new one covers what it overwrites. */
  lemma AppendHonest(list: seq<Pending>, published: set<Pending>, suspect: set<nat>, q: Pending)
    requires Ordered(list) && HonestBut(list, published, suspect)
    requires 0 < q.bytes && forall p | p in published :: p.cmd < q.cmd
    requires forall p | p in list :: p in published
    ensures Ordered(list + [q]) && HonestBut(list + [q], published + {q}, suspect)
  {
    var list' := list + [q];
    assert forall i | 0 <= i < |list| :: list[i] in list;
    assert Ordered(list');
    forall p, r | p in list' && Clean(p.addr, p.bytes, suspect) && NewestOverlap(list', p.addr, p.bytes) == p.cmd && r in published + {q}
      ensures !Covers(r, p)
    {
      NewestOfOwn(list', p);
      if p in list {
        NewestOfOwn(list, p);
      }
    }
  }

  /** A run where it goes wrong. Copy 1 writes bytes 0..63 and copy 2 bytes 32..95; a hook
      touches byte 64. Copy 2 is over and is forgotten, copy 1 is kept, and the list now
      names copy 1 as the newest writer of bytes copy 2 wrote after it. */
  lemma HookUncoversAnOlderCopy()
    ensures var one, two := Pending(0, 64, 1), Pending(32, 64, 2);
            && Ordered([one, two]) && Honest([one, two], {one, two})
            && Kept([one, two], 64, 4) == [one]
            && NewestOverlap([one], one.addr, one.bytes) == 1
            && Covers(two, one)
            && !Honest(Kept([one, two], 64, 4), {one, two})
  {
    var one, two := Pending(0, 64, 1), Pending(32, 64, 2);
    var list := [one, two];
    assert list[..1] == [one] && [one][..0] == [];
    assert NewestOverlap(list, one.addr, one.bytes) == 2;
    assert Kept([one], 64, 4) == [one];
    assert NewestOverlap([one], one.addr, one.bytes) == 1;
    assert one in [one];
  }

  // ---- the list itself -------------------------------------------------------------------

  class PendingList {
    var slot: array<Pending>
    var n: nat

    ghost predicate Valid()
      reads this, slot
    {
      n <= slot.Length == QUEUE_CAP && Ordered(slot[..n])
    }

    ghost function Contents(): seq<Pending>
      reads this, slot
      requires n <= slot.Length
    {
      slot[..n]
    }

    constructor ()
      ensures Valid() && fresh(slot) && Contents() == []
    {
      slot := new Pending[QUEUE_CAP](_ => Pending(0, 0, 0));
      n := 0;
    }

    /** pending_overlap, newest first. */
    method Newest(addr: nat, bytes: nat) returns (c: int)
      requires Valid()
      ensures c == NewestOverlap(Contents(), addr % MEM_WINDOW, bytes)
      ensures c == -1 ==> forall p | p in Contents() :: !Overlaps(p, addr % MEM_WINDOW, bytes)
      ensures forall p | p in Contents() && Overlaps(p, addr % MEM_WINDOW, bytes) :: p.cmd <= c
    {
      var lo := addr % MEM_WINDOW;
      NewestIsNewest(Contents(), lo, bytes);
      var i := n;
      while 0 < i
        invariant 0 <= i <= n
        invariant NewestOverlap(slot[..i], lo, bytes) == NewestOverlap(Contents(), lo, bytes)
      {
        i := i - 1;
        assert slot[..i + 1][..i] == slot[..i];
        if Overlaps(slot[i], lo, bytes) {
          return slot[i].cmd;
        }
      }
      return -1;
    }

    /** What enqueue_copy adds; a full list has been drained before. */
    method Add(p: Pending)
      requires Valid() && n < QUEUE_CAP && 0 < p.bytes
      requires forall q | q in Contents() :: q.cmd < p.cmd
      modifies this`n, slot
      ensures Valid() && slot == old(slot) && Contents() == old(Contents()) + [p]
    {
      assert forall i | 0 <= i < n :: slot[i] in Contents();
      slot[n] := p;
      n := n + 1;
      assert slot[..n] == old(slot[..n]) + [p];
    }

    /** A drain's, and a satisfied token's. */
    method Clear()
      requires Valid()
      modifies this`n
      ensures Valid() && Contents() == []
    {
      n := 0;
    }

    /** The hook's compaction, in place. */
    method Forget(addr: nat, bytes: nat)
      requires Valid()
      modifies this`n, slot
      ensures Valid() && slot == old(slot)
      ensures Contents() == Kept(old(Contents()), addr % MEM_WINDOW, bytes)
    {
      var lo := addr % MEM_WINDOW;
      ghost var was := Contents();
      KeptOrdered(was, lo, bytes);
      hide Ordered, Kept, Overlaps;
      var i, k := 0, 0;
      KeptNone(lo, bytes);
      while i < n
        invariant 0 <= k <= i <= n == |was| <= slot.Length
        invariant slot[..k] == Kept(was[..i], lo, bytes)
        invariant forall j | i <= j < n :: slot[j] == was[j]
      {
        KeptStep(was, i, lo, bytes);
        if !Overlaps(slot[i], lo, bytes) {
          ghost var before := slot[..k];
          slot[k] := slot[i];
          k := k + 1;
          assert slot[..k] == before + [was[i]];
        }
        i := i + 1;
      }
      assert was[..n] == was;
      n := k;
    }
  }
}
