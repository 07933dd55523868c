/**
  The texture cache's index (tex_find, tex_index_add, tex_index_remove): open addressing
  with linear probing over twice as many slots as there are entries, and a removal that
  closes the gap behind it. It is proved to be a finite map from key to entry, for any
  hash of the key.
 */
module TextureIndex {
  const TEX_CACHE: nat := 1024
  const TEX_INDEX: nat := 2048

  datatype Key = Key(addr: nat, fmt: nat, w: nat, h: nat, tlutOff: nat, tlutFmt: nat)

  // ---- slots in a ring --------------------------------------------------------------

  function After(i: nat): nat { if i + 1 == TEX_INDEX then 0 else i + 1 }

  /** Steps forward from i to j. */
  function Dist(i: nat, j: nat): nat
    requires i < TEX_INDEX && j < TEX_INDEX
  {
    if i <= j then j - i else j + TEX_INDEX - i
  }

  // ---- what the table means -------------------------------------------------------------

  /** A slot holds an entry's number plus one, or 0. */
  ghost predicate Shaped(t: seq<nat>, keys: seq<Key>, home: Key -> nat) {
    && |t| == TEX_INDEX && |keys| == TEX_CACHE
    && (forall s | 0 <= s < TEX_INDEX :: t[s] <= TEX_CACHE)
    && (forall s, r | 0 <= s < TEX_INDEX && 0 <= r < TEX_INDEX && t[s] == t[r] != 0 :: s == r)
    && (forall k :: home(k) < TEX_INDEX)
  }

  function KeyAt(t: seq<nat>, keys: seq<Key>, s: nat): Key
    requires s < |t| && 0 < t[s] <= |keys|
  {
    keys[t[s] - 1]
  }

  /** Slot x lies on the walk from the home of the key at s to s itself. */
  ghost predicate OnWalk(t: seq<nat>, keys: seq<Key>, home: Key -> nat, s: nat, x: nat)
    requires Shaped(t, keys, home) && s < TEX_INDEX && x < TEX_INDEX && t[s] != 0
  {
    Dist(home(KeyAt(t, keys, s)), x) <= Dist(home(KeyAt(t, keys, s)), s)
  }

  /** Every key is found by walking forward from its home: no slot on the way is empty. */
  ghost predicate Linked(t: seq<nat>, keys: seq<Key>, home: Key -> nat)
    requires Shaped(t, keys, home)
  {
    forall s: nat, x: nat | s < TEX_INDEX && x < TEX_INDEX && t[s] != 0 && OnWalk(t, keys, home, s, x) :: t[x] != 0
  }

  /** The same, but for a hole that only keys further along than j still have to cross. */
  ghost predicate LinkedPast(t: seq<nat>, keys: seq<Key>, home: Key -> nat, hole: nat, j: nat)
    requires Shaped(t, keys, home) && hole < TEX_INDEX && j < TEX_INDEX
  {
    && t[hole] == 0
    && (forall x: nat | x < TEX_INDEX && 0 < Dist(hole, x) <= Dist(hole, j) :: t[x] != 0)
    && forall s: nat, x: nat | s < TEX_INDEX && x < TEX_INDEX && t[s] != 0 && OnWalk(t, keys, home, s, x) ::
         t[x] != 0 || (x == hole && Dist(hole, j) < Dist(hole, s))
  }

  ghost predicate Indexed(t: seq<nat>, n: nat) {
    exists s: nat :: s < |t| && t[s] == n + 1
  }

  ghost predicate Unique(t: seq<nat>, keys: seq<Key>) {
    forall n: nat, m: nat | n < |keys| && m < |keys| && Indexed(t, n) && Indexed(t, m) && keys[n] == keys[m] :: n == m
  }

  /** The finite map the table stands for. */
  ghost function Contents(t: seq<nat>, keys: seq<Key>): map<Key, nat>
    requires Unique(t, keys)
  {
    map n: nat | n < |keys| && Indexed(t, n) :: keys[n] := n
  }

  ghost predicate Holds(t: seq<nat>, keys: seq<Key>, n: nat, k: Key) {
    n < |keys| && Indexed(t, n) && keys[n] == k
  }

  lemma ContentsMeans(t: seq<nat>, keys: seq<Key>, k: Key)
    requires Unique(t, keys)
    ensures k in Contents(t, keys) <==> exists n: nat :: Holds(t, keys, n, k)
    ensures forall n: nat | Holds(t, keys, n, k) :: Contents(t, keys)[k] == n
  {
    if n: nat :| Holds(t, keys, n, k) {
      assert keys[n] in Contents(t, keys);
    }
    if k in Contents(t, keys) {
      var n: nat :| n < |keys| && Indexed(t, n) && keys[n] == k;
      assert Holds(t, keys, n, k);
    }
  }

  /** Tables that hold each key at the same entry are the same map. */
  lemma SameContents(t: seq<nat>, keys: seq<Key>, m: map<Key, nat>)
    requires Unique(t, keys)
    requires forall k, n: nat :: Holds(t, keys, n, k) <==> k in m && m[k] == n
    ensures Contents(t, keys) == m
  {
    forall k
      ensures k in m <==> k in Contents(t, keys)
      ensures k in m ==> Contents(t, keys)[k] == m[k]
    {
      ContentsMeans(t, keys, k);
      assert k in m ==> Holds(t, keys, m[k], k);
    }
  }

  // ---- a probe always meets an empty slot ------------------------------------------------

  ghost function Used(t: seq<nat>, k: nat): set<nat>
    requires k <= |t|
  {
    set s: nat | s < k :: t[s]
  }

  lemma {:induction false} UsedCounts(t: seq<nat>, k: nat)
    requires k <= |t| && forall s, r | 0 <= s < r < k :: t[s] != t[r]
    ensures |Used(t, k)| == k
  {
    if k == 0 {
      assert Used(t, 0) == {};
    } else {
      UsedCounts(t, k - 1);
      assert Used(t, k) == Used(t, k - 1) + {t[k - 1]};
      assert t[k - 1] !in Used(t, k - 1);
    }
  }

  ghost function UpTo(n: nat): (r: set<nat>)
    ensures |r| == n && forall x: nat :: x in r <==> 1 <= x <= n
  {
    if n == 0 then {} else UpTo(n - 1) + {n}
  }

  lemma SubsetCounts(a: set<nat>, b: set<nat>)
    requires a <= b
    ensures |a| <= |b|
  {
    assert b == a + (b - a);
  }

  /** At most 1,024 of the 2,048 slots are ever in use. */
  lemma EmptySlot(t: seq<nat>, keys: seq<Key>, home: Key -> nat) returns (e: nat)
    requires Shaped(t, keys, home)
    ensures e < TEX_INDEX && t[e] == 0
  {
    if forall s | 0 <= s < TEX_INDEX :: t[s] != 0 {
      UsedCounts(t, TEX_INDEX);
      SubsetCounts(Used(t, TEX_INDEX), UpTo(TEX_CACHE));
      assert false;
    }
    e :| e < TEX_INDEX && t[e] == 0;
  }

  // ---- a walk from a key's home ------------------------------------------------------------

  /** A walk from the key's home that ends at an empty slot has passed every slot that
      could hold the key. */
  lemma WalkIsComplete(t: seq<nat>, keys: seq<Key>, home: Key -> nat, key: Key, i: nat)
    requires Shaped(t, keys, home) && Linked(t, keys, home) && i < TEX_INDEX && t[i] == 0
    requires forall x: nat | x < TEX_INDEX && Dist(home(key), x) < Dist(home(key), i) && t[x] != 0 :: KeyAt(t, keys, x) != key
    ensures forall n: nat | n < |keys| && Indexed(t, n) :: keys[n] != key
  {
    forall n: nat | n < |keys| && Indexed(t, n)
      ensures keys[n] != key
    {
      var s: nat :| s < |t| && t[s] == n + 1;
      if OnWalk(t, keys, home, s, i) {
        assert false;
      }
      assert KeyAt(t, keys, s) == keys[n];
    }
  }

  /** A key put into the first empty slot of its walk is found again, and so is every other. */
  lemma AddKeeps(t: seq<nat>, keys: seq<Key>, home: Key -> nat, n: nat, i: nat)
    requires Shaped(t, keys, home) && Linked(t, keys, home) && Unique(t, keys) && n < TEX_CACHE && !Indexed(t, n)
    requires keys[n] !in Contents(t, keys)
    requires i < TEX_INDEX && t[i] == 0
    requires forall x: nat | x < TEX_INDEX && Dist(home(keys[n]), x) < Dist(home(keys[n]), i) :: t[x] != 0
    ensures var t' := t[i := n + 1];
            && Shaped(t', keys, home) && Linked(t', keys, home) && Unique(t', keys)
            && Contents(t', keys) == Contents(t, keys)[keys[n] := n]
  {
    var t' := t[i := n + 1];
    forall s, r | 0 <= s < TEX_INDEX && 0 <= r < TEX_INDEX && t'[s] == t'[r] != 0
      ensures s == r
    {
      if (s == i) != (r == i) {
        assert Indexed(t, n);
      }
    }
    assert Shaped(t', keys, home);
    forall s: nat, x: nat | s < TEX_INDEX && x < TEX_INDEX && t'[s] != 0 && OnWalk(t', keys, home, s, x)
      ensures t'[x] != 0
    {
      if s != i {
        assert KeyAt(t', keys, s) == KeyAt(t, keys, s);
        assert OnWalk(t, keys, home, s, x);
      }
    }
    AddedIndexed(t, i, n);
    ContentsWith(t, t', keys, n);
  }

  lemma ContentsWith(t: seq<nat>, t': seq<nat>, keys: seq<Key>, n: nat)
    requires Unique(t, keys) && n < |keys| && keys[n] !in Contents(t, keys)
    requires forall m: nat :: Indexed(t', m) <==> Indexed(t, m) || m == n
    ensures Unique(t', keys) && Contents(t', keys) == Contents(t, keys)[keys[n] := n]
  {
    hide Indexed;
    assert forall m: nat | m < |keys| && Indexed(t, m) :: keys[m] in Contents(t, keys);
    assert Unique(t', keys);
    var m := Contents(t, keys)[keys[n] := n];
    forall k, e: nat
      ensures Holds(t', keys, e, k) <==> k in m && m[k] == e
    {
      ContentsMeans(t, keys, k);
      assert Holds(t', keys, e, k) <==> Holds(t, keys, e, k) || (e == n && k == keys[n]);
    }
    SameContents(t', keys, m);
  }

  lemma AddedIndexed(t: seq<nat>, i: nat, n: nat)
    requires i < |t| && t[i] == 0
    ensures forall m: nat :: Indexed(t[i := n + 1], m) <==> Indexed(t, m) || m == n
  {
    var t' := t[i := n + 1];
    assert t'[i] == n + 1;
    forall m: nat | Indexed(t, m) ensures Indexed(t', m) {
      var s: nat :| s < |t| && t[s] == m + 1;
      assert t'[s] == m + 1;
    }
    forall m: nat | Indexed(t', m) ensures Indexed(t, m) || m == n {
      var s: nat :| s < |t'| && t'[s] == m + 1;
      assert s == i || t[s] == m + 1;
    }
  }

  // ---- closing the gap ---------------------------------------------------------------------

  /** Emptying a slot leaves a table with one hole, which every walk through it crosses. */
  lemma HoleOpens(t: seq<nat>, keys: seq<Key>, home: Key -> nat, i: nat)
    requires Shaped(t, keys, home) && Linked(t, keys, home) && i < TEX_INDEX
    ensures var t' := t[i := 0]; Shaped(t', keys, home) && LinkedPast(t', keys, home, i, i)
  {
    var t' := t[i := 0];
    forall s: nat, x: nat | s < TEX_INDEX && x < TEX_INDEX && t'[s] != 0 && OnWalk(t', keys, home, s, x)
      ensures t'[x] != 0 || (x == i && Dist(i, i) < Dist(i, s))
    {
      assert OnWalk(t, keys, home, s, x);
    }
  }

  /** Reaching an empty slot: nothing beyond it crosses the hole, so the table is whole. */
  lemma GapEnds(t: seq<nat>, keys: seq<Key>, home: Key -> nat, hole: nat, j: nat)
    requires Shaped(t, keys, home) && hole < TEX_INDEX && j < TEX_INDEX
    requires LinkedPast(t, keys, home, hole, j) && t[After(j)] == 0
    ensures Linked(t, keys, home)
  {
    forall s: nat, x: nat | s < TEX_INDEX && x < TEX_INDEX && t[s] != 0 && OnWalk(t, keys, home, s, x)
      ensures t[x] != 0
    {
      if t[x] == 0 {
        assert x == hole;
        assert After(j) != hole ==> OnWalk(t, keys, home, s, After(j));
      }
    }
  }

  /** The removal's test: the home of the key at j lies cyclically in (hole, j]. */
  predicate Stays(hole: nat, h: nat, j: nat) {
    if hole <= j then hole < h <= j else hole < h || h <= j
  }

  lemma KeyStays(t: seq<nat>, keys: seq<Key>, home: Key -> nat, hole: nat, j: nat)
    requires Shaped(t, keys, home) && hole < TEX_INDEX && j < TEX_INDEX
    requires LinkedPast(t, keys, home, hole, j) && t[After(j)] != 0
    requires Stays(hole, home(KeyAt(t, keys, After(j))), After(j))
    ensures LinkedPast(t, keys, home, hole, After(j))
  {
    var j' := After(j);
    forall s: nat, x: nat | s < TEX_INDEX && x < TEX_INDEX && t[s] != 0 && OnWalk(t, keys, home, s, x)
      ensures t[x] != 0 || (x == hole && Dist(hole, j') < Dist(hole, s))
    {
      assert s == j' ==> !OnWalk(t, keys, home, s, hole);
    }
  }

  /** Moving the key at j back into the hole leaves the hole where it was. */
  lemma KeyMoves(t: seq<nat>, keys: seq<Key>, home: Key -> nat, hole: nat, j: nat)
    requires Shaped(t, keys, home) && hole < TEX_INDEX && j < TEX_INDEX
    requires LinkedPast(t, keys, home, hole, j) && t[After(j)] != 0
    requires !Stays(hole, home(KeyAt(t, keys, After(j))), After(j))
    ensures var j' := After(j);
            var t' := t[hole := t[j']][j' := 0];
            Shaped(t', keys, home) && LinkedPast(t', keys, home, j', j')
  {
    var j' := After(j);
    var t' := t[hole := t[j']][j' := 0];
    assert hole != j';
    assert Shaped(t', keys, home);
    forall s: nat, x: nat | s < TEX_INDEX && x < TEX_INDEX && t'[s] != 0 && OnWalk(t', keys, home, s, x)
      ensures t'[x] != 0 || (x == j' && Dist(j', j') < Dist(j', s))
    {
      if s == hole {
        assert KeyAt(t', keys, s) == KeyAt(t, keys, j');
        assert OnWalk(t, keys, home, j', x);
      } else {
        assert KeyAt(t', keys, s) == KeyAt(t, keys, s);
        assert OnWalk(t, keys, home, s, x);
      }
    }
  }

  lemma MovedIndexed(t: seq<nat>, hole: nat, j: nat)
    requires hole < |t| && j < |t| && hole != j && t[hole] == 0 && t[j] != 0
    ensures forall m: nat :: Indexed(t[hole := t[j]][j := 0], m) <==> Indexed(t, m)
  {
    var t' := t[hole := t[j]][j := 0];
    forall m: nat | Indexed(t, m) ensures Indexed(t', m) {
      var s: nat :| s < |t| && t[s] == m + 1;
      assert t'[if s == j then hole else s] == m + 1;
    }
    forall m: nat | Indexed(t', m) ensures Indexed(t, m) {
      var s: nat :| s < |t'| && t'[s] == m + 1;
      assert t[if s == hole then j else s] == m + 1;
    }
  }

  lemma EmptiedIndexed(t: seq<nat>, keys: seq<Key>, home: Key -> nat, i: nat)
    requires Shaped(t, keys, home) && i < TEX_INDEX && t[i] != 0
    ensures forall m: nat :: Indexed(t[i := 0], m) <==> Indexed(t, m) && m != t[i] - 1
  {
    var t' := t[i := 0];
    forall m: nat | Indexed(t, m) && m != t[i] - 1 ensures Indexed(t', m) {
      var s: nat :| s < |t| && t[s] == m + 1;
      assert t'[s] == m + 1;
    }
    forall m: nat | Indexed(t', m) ensures Indexed(t, m) && m != t[i] - 1 {
      var s: nat :| s < |t'| && t'[s] == m + 1;
      assert t[s] == m + 1;
    }
  }

  /** The map follows from which entries are indexed. */
  lemma ContentsWithout(t: seq<nat>, t': seq<nat>, keys: seq<Key>, n: nat)
    requires Unique(t, keys) && n < |keys| && Indexed(t, n)
    requires forall m: nat :: Indexed(t', m) <==> Indexed(t, m) && m != n
    ensures Unique(t', keys) && Contents(t', keys) == Contents(t, keys) - {keys[n]}
  {
    hide Indexed;
    assert Unique(t', keys);
    var m := Contents(t, keys) - {keys[n]};
    forall k, e: nat
      ensures Holds(t', keys, e, k) <==> k in m && m[k] == e
    {
      ContentsMeans(t, keys, k);
      assert Holds(t', keys, e, k) <==> Holds(t, keys, e, k) && e != n;
      assert Holds(t, keys, n, keys[n]);
    }
    SameContents(t', keys, m);
  }

  // ---- the index ------------------------------------------------------------------------

  class KeyIndex {
    const slots: array<nat>
    const keys: array<Key>  // the key part of g_cache
    const home: Key -> nat

    ghost predicate Valid()
      reads slots, keys
    {
      && Shaped(slots[..], keys[..], home)
      && Linked(slots[..], keys[..], home)
      && Unique(slots[..], keys[..])
    }

    ghost function Map(): map<Key, nat>
      reads slots, keys
      requires Unique(slots[..], keys[..])
    {
      Contents(slots[..], keys[..])
    }

    constructor (home: Key -> nat)
      requires forall k :: home(k) < TEX_INDEX
      ensures Valid() && fresh(slots) && fresh(keys) && Map() == map[] && this.home == home
      ensures forall n: nat :: !Indexed(slots[..], n)
    {
      slots := new nat[TEX_INDEX](_ => 0);
      keys := new Key[TEX_CACHE](_ => Key(0, 0, 0, 0, 0, 0));
      this.home := home;
      new;
      assert forall n: nat :: !Indexed(slots[..], n);
      SameContents(slots[..], keys[..], map[]);
    }

    /** tex_find: the entry of a key that is in the index, or -1. */
    method Find(key: Key) returns (n: int)
      requires Valid()
      ensures n == if key in Map() then Map()[key] else -1
      ensures 0 <= n ==> n < TEX_CACHE && keys[n] == key
    {
      hide Linked, OnWalk;
      var i: nat := home(key);
      ghost var e := EmptySlot(slots[..], keys[..], home);
      while slots[i] != 0
        invariant i < TEX_INDEX && Dist(home(key), i) <= Dist(home(key), e)
        invariant forall x: nat | x < TEX_INDEX && Dist(home(key), x) < Dist(home(key), i) && slots[x] != 0 ::
                    KeyAt(slots[..], keys[..], x) != key
        decreases Dist(home(key), e) - Dist(home(key), i)
      {
        assert KeyAt(slots[..], keys[..], i) == keys[slots[i] - 1];
        if keys[slots[i] - 1] == key {
          assert slots[..][i] == slots[i];
          assert Indexed(slots[..], slots[i] - 1);
          ContentsMeans(slots[..], keys[..], key);
          assert Holds(slots[..], keys[..], slots[i] - 1, key);
          return slots[i] - 1;
        }
        i := After(i);
      }
      WalkIsComplete(slots[..], keys[..], home, key, i);
      ContentsMeans(slots[..], keys[..], key);
      return -1;
    }

    /** tex_index_add, with the key its caller has just given the entry. */
    method Add(n: nat, key: Key)
      requires Valid() && n < TEX_CACHE && !Indexed(slots[..], n) && key !in Map()
      modifies slots, keys
      ensures Valid() && Map() == old(Map())[key := n]
      ensures keys[..] == old(keys[..])[n := key]
      ensures forall m: nat :: Indexed(slots[..], m) <==> old(Indexed(slots[..], m)) || m == n
    {
      RekeyKeeps(slots[..], keys[..], home, n, key);
      keys[n] := key;
      assert keys[..] == old(keys[..])[n := key];
      var i: nat := home(key);
      ghost var e := EmptySlot(slots[..], keys[..], home);
      while slots[i] != 0
        invariant i < TEX_INDEX && Dist(home(key), i) <= Dist(home(key), e)
        invariant forall x: nat | x < TEX_INDEX && Dist(home(key), x) < Dist(home(key), i) :: slots[x] != 0
        decreases Dist(home(key), e) - Dist(home(key), i)
      {
        i := After(i);
      }
      ghost var t: seq<nat> := slots[..];
      AddKeeps(t, keys[..], home, n, i);
      AddedIndexed(t, i, n);
      slots[i] := n + 1;
      assert slots[..] == t[i := n + 1];
    }

    /** Where entry n's number is, walking from its key's home. */
    method Seek(n: nat) returns (i: nat)
      requires Valid() && n < TEX_CACHE && Indexed(slots[..], n)
      ensures i < TEX_INDEX && slots[i] == n + 1
    {
      ghost var at: nat :| at < |slots[..]| && slots[..][at] == n + 1;
      assert KeyAt(slots[..], keys[..], at) == keys[n];
      hide Indexed, Unique;
      i := home(keys[n]);
      while slots[i] != n + 1
        invariant i < TEX_INDEX && Dist(home(keys[n]), i) <= Dist(home(keys[n]), at)
        decreases Dist(home(keys[n]), at) - Dist(home(keys[n]), i)
      {
        i := After(i);
      }
    }

    /** tex_index_remove: entry n's key goes, every other key is still found. */
    method Remove(n: nat)
      requires Valid() && n < TEX_CACHE && Indexed(slots[..], n)
      modifies slots
      ensures Valid() && Map() == old(Map()) - {keys[n]}
      ensures forall m: nat :: Indexed(slots[..], m) <==> old(Indexed(slots[..], m)) && m != n
    {
      hide Indexed, OnWalk, Unique, Linked;
      ghost var t: seq<nat>, ks: seq<Key> := slots[..], keys[..];
      ghost var e := EmptySlot(t, ks, home);
      var i := Seek(n);
      HoleOpens(t, ks, home, i);
      EmptiedIndexed(t, ks, home, i);
      hide Shaped;
      slots[i] := 0;
      assert slots[..] == t[i := 0];
      var j: nat := i;
      while true
        invariant i < TEX_INDEX && j < TEX_INDEX && slots[e] == 0 && e != i
        invariant Dist(i, j) < Dist(i, e)
        invariant keys[..] == ks
        invariant Shaped(slots[..], ks, home) && LinkedPast(slots[..], ks, home, i, j)
        invariant forall m: nat :: Indexed(slots[..], m) <==> Indexed(t, m) && m != n
        decreases Dist(j, e)
      {
        ghost var was: seq<nat> := slots[..];
        ghost var back := j;
        j := After(j);
        if slots[j] == 0 {
          GapEnds(was, ks, home, i, back);
          ContentsWithout(t, was, ks, n);
          return;
        }
        EntryFits(was, ks, home, j);
        if Stays(i, home(keys[slots[j] - 1]), j) {
          KeyStays(was, ks, home, i, back);
        } else {
          KeyMoves(was, ks, home, i, back);
          MovedIndexed(was, i, j);
          slots[i] := slots[j];
          slots[j] := 0;
          assert slots[..] == was[i := was[j]][j := 0];
          i := j;
        }
      }
    }
  }

  lemma EntryFits(t: seq<nat>, keys: seq<Key>, home: Key -> nat, s: nat)
    requires Shaped(t, keys, home) && s < TEX_INDEX && t[s] != 0
    ensures t[s] <= |keys| == TEX_CACHE && home(keys[t[s] - 1]) < TEX_INDEX
  {
  }

  /** Giving a new key to an entry that is not in the index changes nothing yet. */
  lemma RekeyKeeps(t: seq<nat>, keys: seq<Key>, home: Key -> nat, n: nat, key: Key)
    requires Shaped(t, keys, home) && Linked(t, keys, home) && Unique(t, keys)
    requires n < TEX_CACHE && !Indexed(t, n)
    ensures var keys' := keys[n := key];
            && Shaped(t, keys', home) && Linked(t, keys', home) && Unique(t, keys')
            && Contents(t, keys') == Contents(t, keys)
  {
    var keys' := keys[n := key];
    assert Shaped(t, keys', home);
    forall s: nat, x: nat | s < TEX_INDEX && x < TEX_INDEX && t[s] != 0 && OnWalk(t, keys', home, s, x)
      ensures t[x] != 0
    {
      assert t[s] == n + 1 ==> Indexed(t, n);
      assert KeyAt(t, keys', s) == KeyAt(t, keys, s);
      assert OnWalk(t, keys, home, s, x);
    }
    RekeySame(t, keys, n, key);
  }

  lemma RekeySame(t: seq<nat>, keys: seq<Key>, n: nat, key: Key)
    requires Unique(t, keys) && n < |keys| && !Indexed(t, n)
    ensures Unique(t, keys[n := key]) && Contents(t, keys[n := key]) == Contents(t, keys)
  {
    hide Indexed;
    var keys' := keys[n := key];
    assert Unique(t, keys');
    forall k, e: nat
      ensures Holds(t, keys', e, k) <==> k in Contents(t, keys) && Contents(t, keys)[k] == e
    {
      ContentsMeans(t, keys, k);
      assert Holds(t, keys', e, k) <==> Holds(t, keys, e, k);
    }
    SameContents(t, keys', Contents(t, keys));
  }
}
