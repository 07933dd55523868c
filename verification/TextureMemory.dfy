/**
  The texture cache as the renderer keeps it: 1,024 entries behind the index, updated in
  place by lookups, copies, palette loads and evictions. Each method does to one entry what
  TextureCache says a lookup, copy or load does, and keeps every other entry sound.
 */
module TextureMemory {
  import opened CopyGeometry
  import opened PendingCopies
  import opened TextureIndex
  import opened TextureCache
  import opened TextureLevel

  const NONE: nat := TEX_CACHE
  const BLANK: Entry := Entry(false, [], 0, 0, 0, 0, false, 0)

  class Cache {
    const index: KeyIndex
    const entries: array<Entry>
    const hash: Source -> nat
    const decode: (Key, Source) -> Picture
    var used: nat          // entries ever given a key
    var stamp: nat
    var epoch: nat
    var mem: seq<int>
    var tmem: seq<int>
    var pending: seq<Pending>
    var next: nat
    var fence: nat         // what the draw being set up must wait for
    ghost var dirty: set<nat>
    ghost var suspect: set<nat>
    ghost var seen: seq<Seen>

    ghost function Now(): View
      reads this
    {
      View(mem, tmem, pending, next, epoch, dirty, suspect)
    }

    /** What the code itself can see of it. */
    function Around(): View
      reads this
    {
      View(mem, tmem, pending, next, epoch, {}, {})
    }

    /** Every entry in use is indexed and sound, but for one that is being given a new key. */
    ghost predicate ValidBut(x: nat)
      reads this, index, index.slots, index.keys, entries
    {
      && index.Valid() && entries.Length == |seen| == TEX_CACHE && used <= TEX_CACHE
      && ViewOk(Now()) && ListOk(Now()) && CollisionFree(hash)
      && (forall n: nat :: Indexed(index.slots[..], n) <==> n < used && n != x)
      && (forall n: nat | n < used && n != x :: Sound(index.keys[n], entries[n], seen[n], Now(), hash, decode))
      && (forall n: nat | used <= n < TEX_CACHE :: entries[n] == BLANK)
      && (forall n: nat | n < used :: entries[n].stamp <= stamp)
    }

    ghost predicate Valid()
      reads this, index, index.slots, index.keys, entries
    {
      ValidBut(NONE)
    }

    constructor (home: Key -> nat, hash: Source -> nat, decode: (Key, Source) -> Picture, mem: seq<int>, tmem: seq<int>)
      requires CollisionFree(hash) && (forall k :: home(k) < TEX_INDEX)
      requires |mem| == MEM_BYTES && |tmem| == TMEM_BYTES
      ensures Valid() && fresh(index) && fresh(index.slots) && fresh(index.keys) && fresh(entries)
      ensures index.Map() == map[] && used == 0
    {
      index := new KeyIndex(home);
      entries := new Entry[TEX_CACHE](_ => BLANK);
      this.hash := hash;
      this.decode := decode;
      this.mem, this.tmem := mem, tmem;
      used, stamp, epoch, next, fence := 0, 0, 1, 0, 0;
      pending := [];
      dirty, suspect := {}, {};
      seen := seq(TEX_CACHE, _ => Seen(Source([], []), Source([], [])));
    }

    /** The victim when every entry is in use: one whose decode was dropped, or the least
        recently used. */
    method Victim() returns (n: nat)
      requires entries.Length == TEX_CACHE
      ensures n < TEX_CACHE
      ensures entries[n].present ==>
                forall i | 0 <= i < TEX_CACHE :: entries[i].present && entries[n].stamp <= entries[i].stamp
    {
      n := 0;
      for i := 0 to TEX_CACHE
        invariant n <= i && n < TEX_CACHE && (0 < i ==> n < i)
        invariant forall j | 0 <= j < i :: entries[j].present && entries[n].stamp <= entries[j].stamp
      {
        if !entries[i].present {
          return i;
        }
        if entries[i].stamp < entries[n].stamp {
          n := i;
        }
      }
    }

    /** tex_take. */
    method Take() returns (n: nat)
      requires Valid()
      modifies this`used, entries, index.slots
      ensures ValidBut(n) && n < used && !entries[n].present && !entries[n].fromCopy && entries[n].hashed <= epoch
      ensures old(used) < TEX_CACHE ==> n == old(used) && index.Map() == old(index.Map())
      ensures old(used) == TEX_CACHE ==> index.Map() == old(index.Map()) - {index.keys[n]}
      ensures old(used) == TEX_CACHE && old(entries[n].present) ==>
                forall i | 0 <= i < TEX_CACHE :: old(entries[i].present) && old(entries[n].stamp) <= old(entries[i].stamp)
      ensures forall i | 0 <= i < TEX_CACHE && i != n :: entries[i] == old(entries[i])
      ensures !old(Newest(n))
    {
      hide Unique, Linked, Shaped, ListOk, ViewOk, ImageOk, DecodeOk;
      if used < TEX_CACHE {
        n := used;
        used := used + 1;
      } else {
        n := Victim();
        assert !Newest(n) by {
          var other: nat := if n == 0 then 1 else 0;
          assert other < used && other != n && (entries[n].present ==> entries[n].stamp <= entries[other].stamp);
        }
        Evict(n);
      }
    }

    /** Its last step: the victim's decode goes, and its key leaves the index. */
    method Evict(n: nat)
      requires Valid() && n < used
      modifies entries, index.slots
      ensures ValidBut(n) && entries[n] == old(entries[n]).(present := false, fromCopy := false)
      ensures entries[n].hashed <= epoch && index.Map() == old(index.Map()) - {index.keys[n]}
      ensures forall i | 0 <= i < TEX_CACHE && i != n :: entries[i] == old(entries[i])
    {
      assert index.keys.Length == TEX_CACHE;
      hide Sound, Unique, Linked, Shaped, ListOk, ViewOk, CollisionFree;
      HashedBefore(index.keys[n], entries[n], seen[n], Now(), hash, decode);
      entries[n] := entries[n].(present := false, fromCopy := false);
      index.Remove(n);
    }

    /** What texture() does with an entry whose picture is not a live copy's image: hash its
        source at most once an epoch, and decode it again if that or the levels call for it. */
    method Reread(k: Key, was: Entry, nlevels: int) returns (e: Entry, wait: int)
      requires Ordered(pending) && !TakesImage(k, was, Now(), nlevels)
      requires was.fromCopy ==> was.present && was.hashed != epoch
      ensures e == LookedUp(k, was, Now(), nlevels, hash, decode)
      ensures forall p | p in pending && Overlaps(p, k.addr, BaseBytes(k)) :: p.cmd <= wait
    {
      e := was.(fromCopy := false);
      var retired := was.fromCopy;
      var around := Around();
      assert SourceOf(k, around) == SourceOf(k, Now());
      hide BaseBytes, SourceOf, ChainBytes, LevelsMade;
      var levels := if e.present && e.levels > nlevels then e.levels else nlevels;
      wait := NewestOverlap(pending, k.addr, ChainBytes(k.fmt, k.w, k.h, Levels(levels)));
      WaitCovers(pending, k, Levels(levels));
      if e.present {
        var h := e.hash;
        if e.hashed != epoch {
          h := HashOf(k, around, hash);
          e := e.(hashed := epoch);
        }
        if retired || e.hash != h || e.levels < nlevels {
          e := Decoded(k, e, around, Larger(nlevels, e.levels), h, decode);
        }
      } else {
        e := Decoded(k, e, around, nlevels, HashOf(k, around, hash), decode);
      }
    }

    /** texture(), once it has the entry of its key. */
    method Refresh(n: nat, nlevels: int) returns (wait: int)
      requires Valid() && n < used
      modifies this`stamp, this`fence, this`seen, entries
      ensures Valid() && entries[n] == LookedUp(index.keys[n], old(entries[n]), Now(), nlevels, hash, decode).(stamp := stamp)
      ensures stamp == old(stamp) + 1 && old(fence) <= fence
      ensures seen == old(seen)[n := SeenAfter(index.keys[n], old(entries[n]), old(seen[n]), Now(), nlevels, hash)]
      ensures forall i | 0 <= i < TEX_CACHE && i != n :: entries[i] == old(entries[i])
      // a queued copy's image is fenced on its copy; a decode has waited for every copy it may read
      ensures if TakesImage(index.keys[n], old(entries[n]), Now(), nlevels) then fence > entries[n].cmd
              else forall p | p in pending && Overlaps(p, index.keys[n].addr, BaseBytes(index.keys[n])) :: p.cmd <= wait
    {
      var k, e := index.keys[n], entries[n];
      RefreshKeeps(k, e, seen[n], Now(), nlevels, hash, decode, stamp + 1);
      hide Sound, BaseBytes, LookedUp, SeenAfter, Unique, Linked, Shaped, Indexed, NewestOverlap;
      wait := -1;
      seen := seen[n := SeenAfter(k, e, seen[n], Now(), nlevels, hash)];
      stamp := stamp + 1;
      var c := if e.fromCopy then NewestOverlap(pending, k.addr, BaseBytes(k)) else -1;
      if e.fromCopy && c == e.cmd && e.present && nlevels <= 1 {
        if c + 1 > fence {
          fence := c + 1;
        }
      } else {
        e, wait := Reread(k, e, nlevels);
      }
      entries[n] := e.(stamp := stamp);
    }

    /** The last one looked up: every other is older. */
    ghost predicate Newest(n: nat)
      reads this, entries
      requires entries.Length == TEX_CACHE && used <= TEX_CACHE
    {
      n < used && entries[n].present && forall i: nat | i < used && i != n :: entries[i].stamp < entries[n].stamp
    }

    /** The entry of a key, looked up in the index or taken over. */
    method EntryFor(k: Key) returns (n: nat)
      requires Valid()
      modifies this`used, entries, index.slots, index.keys
      ensures Valid() && n < used && index.keys[n] == k
      ensures k in old(index.Map()) ==> n == old(index.Map())[k] && entries[..] == old(entries[..])
      ensures k !in old(index.Map()) ==> !entries[n].present && !old(Newest(n))
      ensures forall i | 0 <= i < TEX_CACHE && i != n :: entries[i] == old(entries[i])
    {
      hide Sound, Unique, Linked, Shaped, ListOk, ViewOk, CollisionFree;
      var found := index.Find(k);
      if found >= 0 {
        FoundIsUsed(index, k);
        return found;
      }
      n := Take();
      Rekey(n, k);
    }

    /** The entry taken is given its key and goes into the index. */
    method Rekey(n: nat, k: Key)
      requires ValidBut(n) && n < used && k !in index.Map()
      requires !entries[n].present && !entries[n].fromCopy && entries[n].hashed <= epoch
      modifies index.slots, index.keys
      ensures Valid() && index.keys[n] == k
    {
      AbsentIsSound(k, entries[n], seen[n], Now(), hash, decode);
      hide Sound, Unique, Linked, Shaped, Indexed, ViewOk, ListOk;
      ghost var keys := index.keys[..];
      index.Add(n, k);
      assert forall i: nat | i < used && i != n :: index.keys[..][i] == keys[i];
      forall i: nat | i < used
        ensures Sound(index.keys[i], entries[i], seen[i], Now(), hash, decode)
      {
        if i != n {
          assert Sound(keys[i], entries[i], seen[i], Now(), hash, decode);
        }
      }
    }

    /** texture(). With TextureCache.LookupShowsMemory: the picture is what decoding memory now
        would give, when every write to the texture has been announced. */
    method Lookup(addr: nat, fmt: nat, w: nat, h: nat, tlutOff: nat, tlutFmt: nat, nlevels: int)
        returns (n: nat, wait: int)
      requires Valid()
      modifies this`used, this`stamp, this`fence, this`seen, entries, index.slots, index.keys
      ensures Valid() && n < used && n < |seen| && entries[n].present
      ensures index.keys[n] == KeyFor(addr, fmt, w, h, tlutOff, tlutFmt)
      ensures var k := index.keys[n];
              k in old(index.Map()) ==>
                entries[n] == LookedUp(k, old(entries[index.Map()[k]]), Now(), nlevels, hash, decode).(stamp := stamp)
      ensures var k := index.keys[n];
              k !in old(index.Map()) ==> entries[n].picture == decode(k, SourceOf(k, Now()))
      ensures var k := index.keys[n];
              InRange(k) && Apart(k, dirty) && Apart(k, suspect) && !seen[n].Torn() ==>
                entries[n].picture == decode(k, SourceOf(k, Now()))
      // which is the level asked for, in memory as it is
      ensures var g := Asked(addr, fmt, w, h, tlutOff, tlutFmt);
              DecodesLevels() && Fits(g) && Clear(g, dirty) && Clear(g, suspect) && !seen[n].Torn() ==>
                entries[n].picture == Level(g, mem, tmem)
      // a queued copy's image is fenced on its copy; a decode has waited for every copy it may read
      ensures old(fence) <= fence
      ensures if entries[n].fromCopy then fence > entries[n].cmd
              else forall p | p in pending && Overlaps(p, index.keys[n].addr, BaseBytes(index.keys[n])) :: p.cmd <= wait
      ensures Newest(n) && (index.keys[n] !in old(index.Map()) ==> !old(Newest(n)))
      ensures index.keys[n] in old(index.Map()) ==> n == old(index.Map())[index.keys[n]]
    {
      var k := KeyFor(addr, fmt, w, h, tlutOff, tlutFmt);
      n := EntryFor(k);
      ghost var e, s := entries[n], seen[n];
      assert Sound(k, e, s, Now(), hash, decode);
      wait := Refresh(n, nlevels);
      LookupRight(k, e, s, Now(), nlevels, hash, decode);
      KeptImage(k, e, Now(), nlevels, hash, decode);
      if DecodesLevels() {
        LevelAsked(Asked(addr, fmt, w, h, tlutOff, tlutFmt), Now(), decode);
      }
    }

    /** The decoder is decode_level, of the bytes a key covers. */
    ghost predicate DecodesLevels()
    {
      forall k, src :: decode(k, src) == KeyLevel(k, src)
    }

    /** tex_epoch_advance. */
    method Advance()
      requires Valid()
      modifies this`epoch, this`dirty
      ensures Valid() && Now() == Advanced(old(Now())) && dirty == {}
    {
      ghost var v := Now();
      epoch := epoch + 1;
      dirty := {};
      forall n: nat | n < used
        ensures Sound(index.keys[n], entries[n], seen[n], Now(), hash, decode)
      {
        AdvanceKeeps(index.keys[n], entries[n], seen[n], v, hash, decode);
      }
    }

    /** The guest's processor, or a hook, writes a byte. */
    method Write(a: nat, b: int)
      requires Valid() && a < MEM_BYTES
      modifies this`mem, this`dirty, this`suspect
      ensures Valid() && Now() == Written(old(Now()), a, b)
    {
      ghost var v := Now();
      mem := mem[a := b];
      dirty := dirty + {a};
      suspect := Written(v, a, b).suspect;
      forall n: nat | n < used
        ensures Sound(index.keys[n], entries[n], seen[n], Now(), hash, decode)
      {
        WriteKeeps(index.keys[n], entries[n], seen[n], v, a, b, hash, decode);
      }
    }

    /** A drain, or a draw token once every copy is over. */
    method Forget()
      requires Valid()
      modifies this`pending, this`suspect
      ensures Valid() && Now() == Forgotten(old(Now()))
    {
      ghost var v := Now();
      pending := [];
      suspect := {};
      forall n: nat | n < used
        ensures Sound(index.keys[n], entries[n], seen[n], Now(), hash, decode)
      {
        ForgetKeeps(index.keys[n], entries[n], seen[n], v, hash, decode);
      }
    }

    /** gxr_hook_hazard, once the copies it waits for are over. */
    method Hook(addr: nat, n: nat)
      requires Valid()
      modifies this`pending, this`suspect
      ensures Valid() && Now() == Hooked(old(Now()), addr % MEM_WINDOW, n)
    {
      ghost var v := Now();
      var lo := addr % MEM_WINDOW;
      pending := Kept(pending, lo, n);
      suspect := Hooked(v, lo, n).suspect;
      KeptMembers(v.pending, lo, n);
      KeptOrdered(v.pending, lo, n);
      forall i: nat | i < used
        ensures Sound(index.keys[i], entries[i], seen[i], Now(), hash, decode)
      {
        HookKeeps(index.keys[i], entries[i], seen[i], v, lo, n, hash, decode);
      }
    }

    /** tmem_load_tlut: a load that does not fit is ignored. */
    method LoadPalette(src: nat, off: nat, n: nat)
      requires Valid()
      modifies this`tmem, entries
      ensures Valid()
      ensures Now() == if LoadFits(src % MEM_WINDOW, off, n) then Loaded(old(Now()), src % MEM_WINDOW, off, n) else old(Now())
      ensures LoadFits(src % MEM_WINDOW, off, n) ==>
                forall i: nat | i < used :: entries[i] == Marked(index.keys[i], old(entries[i]), off, n)
    {
      var from := src % MEM_WINDOW;
      if off + n > TMEM_BYTES || from + n > MEM_BYTES {
        return;
      }
      ghost var v, was := Now(), entries[..];
      hide Sound, Shaped, Linked, Unique, Indexed, ListOk;
      tmem := tmem[..off] + mem[from..from + n] + tmem[off + n..];
      assert Now() == Loaded(v, from, off, n);
      MarkPalettes(off, n);
      forall j: nat | j < used
        ensures Sound(index.keys[j], entries[j], seen[j], Now(), hash, decode)
      {
        LoadKeeps(index.keys[j], was[j], seen[j], v, from, off, n, hash, decode);
      }
    }

    /** Its loop: every decode the load's bytes may reach is hashed again at its next lookup. */
    method MarkPalettes(off: nat, n: nat)
      requires entries.Length == index.keys.Length == TEX_CACHE && used <= TEX_CACHE
      modifies entries
      ensures forall j: nat | j < used :: entries[j] == Marked(index.keys[j], old(entries[j]), off, n)
      ensures forall j: nat | used <= j < TEX_CACHE :: entries[j] == old(entries[j])
    {
      var i: nat := 0;
      while i < used
        invariant i <= used
        invariant forall j: nat | j < i :: entries[j] == Marked(index.keys[j], old(entries[j]), off, n)
        invariant forall j: nat | i <= j < TEX_CACHE :: entries[j] == old(entries[j])
      {
        var k := index.keys[i];
        if entries[i].present && (k.fmt == 8 || k.fmt == 9 || k.fmt == 10) && k.tlutOff < off + n && k.tlutOff + 32768 > off {
          entries[i] := entries[i].(hashed := 0);
        }
        i := i + 1;
      }
    }

    /** tex_invalidate_all. */
    method DropAll()
      requires Valid()
      modifies entries
      ensures Valid() && forall i: nat | i < used :: !entries[i].present
    {
      ghost var was := entries[..];
      var i: nat := 0;
      while i < used
        invariant i <= used
        invariant forall j: nat | j < i :: entries[j] == was[j].(present := false, fromCopy := false)
        invariant forall j: nat | i <= j < TEX_CACHE :: entries[j] == was[j]
      {
        entries[i] := entries[i].(present := false, fromCopy := false);
        i := i + 1;
      }
      forall j: nat | j < used
        ensures Sound(index.keys[j], entries[j], seen[j], Now(), hash, decode)
      {
        DropKeeps(index.keys[j], was[j], seen[j], Now(), hash, decode);
      }
    }

    /** A copy to memory: the epoch moves, the copy is listed, memory will hold `after`, and a
        packed copy's texture is given the image the workers will make. */
    method CopyToMemory(dest: nat, span: nat, image: bool, fmt: nat, w: nat, h: nat, after: seq<int>)
        returns (made: int)
      requires Valid() && CopiesOut(Now(), Now().(mem := after, epoch := epoch + 1, dirty := {}, next := next + 1,
                                      pending := pending + if span > 0 then [Pending(dest, span, next)] else []), dest, span)
      requires image ==> span == TextureBytes(fmt, w, h)
      modifies this, entries, index.slots, index.keys
      ensures Valid() && CopiesOut(old(Now()), Now(), dest, span) && mem == after
      ensures made >= 0 <==> image && fmt <= 6 && 0 < w && 0 < h
      ensures made >= 0 ==>
                && made < used && index.keys[made] == Key(dest, fmt, w, h, 0, 0)
                && entries[made].fromCopy && entries[made].cmd == old(next)
                && entries[made].picture == decode(index.keys[made], SourceOf(index.keys[made], Now()))
    {
      ghost var v := Now();
      var cmd := next;
      made := -1;
      assert index.keys.Length == TEX_CACHE;
      hide Sound, Shaped, Linked, Unique, Indexed;
      epoch, mem, next, dirty := epoch + 1, after, next + 1, {};
      if span > 0 {
        pending := pending + [Pending(dest, span, cmd)];
      }
      CopyListOk(v, Now(), dest, span);
      forall n: nat | n < used
        ensures Sound(index.keys[n], entries[n], seen[n], Now(), hash, decode)
      {
        CopyKeeps(index.keys[n], entries[n], seen[n], v, Now(), dest, span, hash, decode);
      }
      if image && fmt <= 6 && w != 0 && h != 0 {
        made := CopyImage(v, Key(dest, fmt, w, h, 0, 0), cmd);
      }
    }

    /** tex_copy_image. */
    method CopyImage(ghost before: View, k: Key, cmd: nat) returns (n: nat)
      requires Valid() && cmd == before.next && ListOk(before) && CopiesOut(before, Now(), k.addr, BaseBytes(k))
      requires !Indexes(k.fmt)
      modifies this`used, this`stamp, this`seen, entries, index.slots, index.keys
      ensures Valid() && Now() == old(Now())
      ensures n < used && index.keys[n] == k && entries[n].fromCopy && entries[n].cmd == cmd
      ensures entries[n].picture == decode(k, SourceOf(k, Now()))
    {
      hide Sound, Unique, Linked, Shaped, ListOk, ViewOk, CollisionFree, CopiesOut, Indexes, BaseBytes, Indexed;
      KeysLength(index);
      n := EntryFor(k);
      var e := entries[n].(present := true, picture := decode(k, SourceOf(k, Around())), levels := 1,
                           hashed := 0, fromCopy := true, cmd := cmd, stamp := stamp + 1);
      FreshSound(k, e, before, Now(), decode, hash, Around());
      stamp := stamp + 1;
      entries[n] := e;
      seen := seen[n := Seen(SourceOf(k, Now()), SourceOf(k, Now()))];
    }
  }

  lemma KeysLength(index: KeyIndex)
    requires index.Valid()
    ensures index.keys.Length == TEX_CACHE
  {
  }

  /** A copy's image, just made, is sound. */
  lemma FreshSound(k: Key, e: Entry, before: View, v: View, decode: (Key, Source) -> Picture, hash: Source -> nat, around: View)
    requires ListOk(before) && CopiesOut(before, v, k.addr, BaseBytes(k)) && !Indexes(k.fmt)
    requires around == v.(dirty := {}, suspect := {}) && e.present && e.fromCopy
    requires e.hashed == 0 && e.cmd == before.next && e.picture == decode(k, SourceOf(k, around))
    ensures SourceOf(k, around) == SourceOf(k, v)
    ensures Sound(k, e, Seen(SourceOf(k, v), SourceOf(k, v)), v, hash, decode)
  {
    FreshImageOk(k, e, before, v, BaseBytes(k), decode);
  }

  /** Two lookups, one after the other, share an entry exactly when they ask for one texture. */
  method LookupTwice(c: Cache, a: Asked, b: Asked, na: int, nb: int) returns (m: nat, n: nat)
    requires c.Valid()
    modifies c, c.entries, c.index.slots, c.index.keys
    ensures c.Valid()
    ensures m == n <==>
            && a.addr % MEM_WINDOW == b.addr % MEM_WINDOW && a.fmt == b.fmt && a.w == b.w && a.h == b.h
            && (a.fmt == 8 || a.fmt == 9 || a.fmt == 10 ==> a.tlutOff == b.tlutOff && a.tlutFmt == b.tlutFmt)
  {
    assert c.index.keys.Length == TEX_CACHE;
    hide Sound, Unique, Linked, Shaped, ListOk, ViewOk, CollisionFree, Level, Contents;
    KeysShared(a, b);
    var wait;
    m, wait := c.Lookup(a.addr, a.fmt, a.w, a.h, a.tlutOff, a.tlutFmt, na);
    MapOf(c.index, m);
    if KeyOf(b) in c.index.Map() {
      KeyOfMap(c.index, KeyOf(b));
    }
    n, wait := c.Lookup(b.addr, b.fmt, b.w, b.h, b.tlutOff, b.tlutFmt, nb);
  }

  lemma MapOf(index: KeyIndex, m: nat)
    requires index.Valid() && m < index.keys.Length && Indexed(index.slots[..], m)
    ensures index.keys[m] in index.Map() && index.Map()[index.keys[m]] == m
  {
    ContentsMeans(index.slots[..], index.keys[..], index.keys[m]);
    assert Holds(index.slots[..], index.keys[..], m, index.keys[m]);
  }

  lemma KeyOfMap(index: KeyIndex, k: Key)
    requires index.Valid() && k in index.Map()
    ensures index.Map()[k] < index.keys.Length && index.keys[index.Map()[k]] == k
  {
    ContentsMeans(index.slots[..], index.keys[..], k);
    var n: nat :| Holds(index.slots[..], index.keys[..], n, k);
  }

  lemma LookupRight(k: Key, e: Entry, seen: Seen, v: View, nlevels: int, hash: Source -> nat, decode: (Key, Source) -> Picture)
    requires ViewOk(v) && CollisionFree(hash) && Sound(k, e, seen, v, hash, decode)
    ensures LookedUp(k, e, v, nlevels, hash, decode).present
    ensures !e.present ==> LookedUp(k, e, v, nlevels, hash, decode).picture == decode(k, SourceOf(k, v))
    ensures InRange(k) && Apart(k, v.dirty) && Apart(k, v.suspect) && !SeenAfter(k, e, seen, v, nlevels, hash).Torn() ==>
              LookedUp(k, e, v, nlevels, hash, decode).picture == decode(k, SourceOf(k, v))
  {
    hide BaseBytes, SourceOf, LevelsMade;
  }

  /** Only a copy's image is kept as one. */
  lemma KeptImage(k: Key, e: Entry, v: View, nlevels: int, hash: Source -> nat, decode: (Key, Source) -> Picture)
    requires e.fromCopy ==> e.present
    ensures LookedUp(k, e, v, nlevels, hash, decode).fromCopy == TakesImage(k, e, v, nlevels)
    ensures TakesImage(k, e, v, nlevels) ==> LookedUp(k, e, v, nlevels, hash, decode) == e
  {
    hide BaseBytes, SourceOf, LevelsMade, HashOf, NewestOverlap;
  }

  lemma FoundIsUsed(index: KeyIndex, k: Key)
    requires index.Valid() && k in index.Map()
    ensures Indexed(index.slots[..], index.Map()[k])
  {
    ContentsMeans(index.slots[..], index.keys[..], k);
    var n: nat :| Holds(index.slots[..], index.keys[..], n, k);
  }

  lemma AbsentIsSound(k: Key, e: Entry, seen: Seen, v: View, hash: Source -> nat, decode: (Key, Source) -> Picture)
    requires !e.present && !e.fromCopy && e.hashed <= v.epoch
    ensures Sound(k, e, seen, v, hash, decode)
  {
  }

  lemma HashedBefore(k: Key, e: Entry, seen: Seen, v: View, hash: Source -> nat, decode: (Key, Source) -> Picture)
    requires Sound(k, e, seen, v, hash, decode)
    ensures e.hashed <= v.epoch
  {
  }

  lemma RefreshKeeps(k: Key, e: Entry, seen: Seen, v: View, nlevels: int, hash: Source -> nat,
                     decode: (Key, Source) -> Picture, stamp: nat)
    requires ViewOk(v) && CollisionFree(hash) && Sound(k, e, seen, v, hash, decode)
    ensures Sound(k, LookedUp(k, e, v, nlevels, hash, decode).(stamp := stamp), SeenAfter(k, e, seen, v, nlevels, hash), v, hash, decode)
    ensures LookedUp(k, e, v, nlevels, hash, decode).present
    ensures TakesImage(k, e, v, nlevels) ==> LookedUp(k, e, v, nlevels, hash, decode) == e
    ensures e.fromCopy ==> e.present && e.hashed != v.epoch
  {
    LookupKeeps(k, e, seen, v, nlevels, hash, decode);
    StampKeeps(k, LookedUp(k, e, v, nlevels, hash, decode), SeenAfter(k, e, seen, v, nlevels, hash), v, hash, decode, stamp);
  }

  lemma StampKeeps(k: Key, e: Entry, seen: Seen, v: View, hash: Source -> nat, decode: (Key, Source) -> Picture, stamp: nat)
    requires Sound(k, e, seen, v, hash, decode)
    ensures Sound(k, e.(stamp := stamp), seen, v, hash, decode)
  {
  }

  /** Waiting for the newest copy over every level read waits for each copy over the base. */
  lemma WaitCovers(list: seq<Pending>, k: Key, n: nat)
    requires Ordered(list) && 0 < n
    ensures forall p | p in list && Overlaps(p, k.addr, BaseBytes(k)) ::
              p.cmd <= NewestOverlap(list, k.addr, ChainBytes(k.fmt, k.w, k.h, n))
  {
    NewestIsNewest(list, k.addr, ChainBytes(k.fmt, k.w, k.h, n));
  }
}
