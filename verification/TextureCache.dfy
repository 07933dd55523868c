/**
  The texture cache: what a lookup returns is what decoding guest memory now would give.

  "Memory now" is what memory holds once every queued copy has run: a lookup that decodes
  waits for the copies over its bytes first (QueueRaces.ProducerReadsFinal), and one that
  takes a queued copy's image fences its draw on that copy. How texels become colours, and
  the hash, are fields, as functions of exactly the bytes they read; the hash is assumed
  never to collide.
 */
module TextureCache {
  import opened Arithmetic
  import opened CopyGeometry
  import opened PendingCopies
  import opened TextureIndex

  const TMEM_BYTES: nat := 0x10_0000
  const PALETTE_BYTES: nat := 32768  // the widest
  const MAX_MIPS: nat := 11

  type Picture = seq<int>

  /** Everything a decode of the base level reads. */
  datatype Source = Source(texels: seq<int>, palette: seq<int>)

  // ---- what a key covers -----------------------------------------------------------------

  /** The tile of a texture format, which may also be an indexed or a compressed one. */
  function TextureTile(fmt: nat): (t: Tile)
    ensures t.w > 0 && t.h > 0 && t.bytes > 0
  {
    match fmt
    case 0 => Tile(8, 8, 32, 4)
    case 8 => Tile(8, 8, 32, 4)
    case 1 => Tile(8, 4, 32, 8)
    case 2 => Tile(8, 4, 32, 8)
    case 9 => Tile(8, 4, 32, 8)
    case 6 => Tile(4, 4, 64, 8)
    case 14 => Tile(8, 8, 32, 4)
    case _ => Tile(4, 4, 32, 8)
  }

  /** texture_bytes. */
  function TextureBytes(fmt: nat, w: nat, h: nat): nat {
    Times(Times(CeilDiv(w, TextureTile(fmt).w), CeilDiv(h, TextureTile(fmt).h)), TextureTile(fmt).bytes)
  }

  function BaseBytes(k: Key): nat { TextureBytes(k.fmt, k.w, k.h) }

  predicate Indexes(fmt: nat) { fmt == 8 || fmt == 9 || fmt == 10 }

  function PaletteBytes(fmt: nat): (n: nat)
    ensures n <= PALETTE_BYTES
  {
    if fmt == 8 then 32 else if fmt == 9 then 512 else if fmt == 10 then PALETTE_BYTES else 0
  }

  predicate InRange(k: Key) {
    k.addr + BaseBytes(k) <= MEM_BYTES && k.tlutOff + PaletteBytes(k.fmt) <= TMEM_BYTES
  }

  /** chain_bytes: the base and each mip level at half the size, stopping at 1x1. */
  function ChainBytes(fmt: nat, w: nat, h: nat, n: nat): (r: nat)
    ensures n > 0 ==> TextureBytes(fmt, w, h) <= r
    decreases n
  {
    if n == 0 then 0
    else if w == 1 && h == 1 then TextureBytes(fmt, w, h)
    else TextureBytes(fmt, w, h) + ChainBytes(fmt, Halved(w), Halved(h), n - 1)
  }

  function Halved(d: nat): nat { if d > 1 then d / 2 else 1 }

  function Levels(n: int): (r: nat)
    ensures 1 <= r <= MAX_MIPS
  {
    if n < 1 then 1 else if n > MAX_MIPS then MAX_MIPS else n
  }

  /** How many levels a decode of n makes. */
  function LevelsMade(w: nat, h: nat, n: nat): nat
    decreases n
  {
    if n == 0 then 0 else if w == 1 && h == 1 then 1 else 1 + LevelsMade(Halved(w), Halved(h), n - 1)
  }

  /** One key per picture: the address as memory sees it, no palette where none is read. */
  function KeyFor(addr: nat, fmt: nat, w: nat, h: nat, tlutOff: nat, tlutFmt: nat): Key {
    Key(addr % MEM_WINDOW, fmt, w, h, if Indexes(fmt) then tlutOff else 0, if Indexes(fmt) then tlutFmt else 0)
  }

  /** A packed copy's declared span is exactly its texture's bytes, so a lookup of the copy's
      own texture asks the list about exactly the bytes the copy declared. */
  lemma PackedSpan(l: Layout)
    requires l.texfmt <= 6 && l.RowBytes() == l.Natural()
    ensures l.Span() == TextureBytes(l.texfmt, l.ow, l.oh)
  {
    assert TileOf(l.texfmt).w == TextureTile(l.texfmt).w && TileOf(l.texfmt).h == TextureTile(l.texfmt).h;
    assert TileOf(l.texfmt).bytes == TextureTile(l.texfmt).bytes;
    hide TileOf, TextureTile, CeilDiv;
    RowsOfTiles(l.Rows(), l.Cols(), l.T().bytes);
  }

  lemma RowsOfTiles(rows: nat, cols: nat, b: nat)
    ensures Times(Times(cols, rows), b) ==
            if rows > 0 && cols > 0 then Times(rows - 1, Times(cols, b)) + Times(cols, b) else 0
  {
    if rows > 0 && cols > 0 {
      assert (rows - 1) * (cols * b) + cols * b == rows * (cols * b) == (cols * rows) * b;
    } else {
      assert cols * rows == 0;
    }
  }

  // ---- what the cache must agree with -----------------------------------------------------

  /** The renderer's surroundings; and, for the proof alone, the bytes written behind the
      cache's back: `dirty` since the epoch began, `suspect` over a copy still listed. */
  datatype View = View(
    mem: seq<int>, tmem: seq<int>, pending: seq<Pending>, next: nat, epoch: nat,
    dirty: set<nat>, suspect: set<nat>)

  predicate ViewOk(v: View) {
    |v.mem| == MEM_BYTES && |v.tmem| == TMEM_BYTES && 1 <= v.epoch
  }

  ghost predicate ListOk(v: View) {
    Ordered(v.pending) && forall p | p in v.pending :: p.cmd < v.next
  }

  function Cut(s: seq<int>, lo: nat, n: nat): seq<int> {
    if lo + n <= |s| then s[lo..lo + n] else if lo <= |s| then s[lo..] else []
  }

  function SourceOf(k: Key, v: View): Source {
    Source(Cut(v.mem, k.addr, BaseBytes(k)), Cut(v.tmem, k.tlutOff, PaletteBytes(k.fmt)))
  }

  ghost predicate Apart(k: Key, bytes: set<nat>) {
    forall a: nat | k.addr <= a < k.addr + BaseBytes(k) :: a !in bytes
  }

  /** source_hash: 0 for a texture past the end of memory. */
  function HashOf(k: Key, v: View, hash: Source -> nat): nat {
    if k.addr + BaseBytes(k) > MEM_BYTES then 0 else hash(SourceOf(k, v))
  }

  ghost predicate CollisionFree(hash: Source -> nat) {
    forall a, b | hash(a) == hash(b) :: a == b
  }

  // ---- an entry ---------------------------------------------------------------------------

  datatype Entry = Entry(present: bool, picture: Picture, levels: nat, stamp: nat,
                         hash: nat, hashed: nat, fromCopy: bool, cmd: nat)

  /** A copy's image is right while its copy is the newest listed write to its bytes. */
  ghost predicate ImageOk(k: Key, e: Entry, v: View, decode: (Key, Source) -> Picture) {
    && e.hashed == 0 && e.cmd < v.next && !Indexes(k.fmt) && k.addr < MEM_WINDOW
    && (forall p | p in v.pending && p.cmd == e.cmd :: p.addr == k.addr && p.bytes == BaseBytes(k))
    && (InRange(k) && NewestOverlap(v.pending, k.addr, BaseBytes(k)) == e.cmd && Apart(k, v.suspect)
        ==> e.picture == decode(k, SourceOf(k, v)))
  }

  /** For the proof: what an entry's hash was taken of, and what its picture was decoded from.
      They differ once the picture has been decoded again without a new hash. */
  datatype Seen = Seen(src: Source, shown: Source) {
    predicate Torn() { shown != src }
  }

  /** A decode is of the source it was hashed for, which this epoch is memory's own. */
  ghost predicate DecodeOk(k: Key, e: Entry, seen: Seen, v: View, hash: Source -> nat, decode: (Key, Source) -> Picture) {
    InRange(k) ==>
      && e.hash == hash(seen.src)
      && (e.hashed == v.epoch && Apart(k, v.dirty) ==> seen.src == SourceOf(k, v))
      && (e.hashed == v.epoch ==> seen.src.palette == SourceOf(k, v).palette && |seen.src.texels| == BaseBytes(k))
  }

  ghost predicate Sound(k: Key, e: Entry, seen: Seen, v: View, hash: Source -> nat, decode: (Key, Source) -> Picture) {
    && e.hashed <= v.epoch
    && (e.present ==> e.picture == decode(k, seen.shown))
    && (e.fromCopy ==> e.present && ImageOk(k, e, v, decode))
    && (e.present && !e.fromCopy ==> DecodeOk(k, e, seen, v, hash, decode))
  }

  // ---- everything that changes memory, the list or the epoch keeps every entry sound -----

  /** The game's own invalidate, and the end of a frame. */
  function Advanced(v: View): View { v.(epoch := v.epoch + 1, dirty := {}) }

  lemma AdvanceKeeps(k: Key, e: Entry, seen: Seen, v: View, hash: Source -> nat, decode: (Key, Source) -> Picture)
    requires Sound(k, e, seen, v, hash, decode)
    ensures Sound(k, e, seen, Advanced(v), hash, decode)
  {
    assert SourceOf(k, Advanced(v)) == SourceOf(k, v);
  }

  ghost predicate Listed(v: View, a: nat) {
    exists p :: p in v.pending && p.addr <= a < p.addr + p.bytes
  }

  /** The guest's processor writes a byte, announced or not. */
  ghost function Written(v: View, a: nat, b: int): View
    requires a < |v.mem|
  {
    v.(mem := v.mem[a := b], dirty := v.dirty + {a}, suspect := if Listed(v, a) then v.suspect + {a} else v.suspect)
  }

  lemma CutElsewhere(s: seq<int>, lo: nat, n: nat, a: nat, b: int)
    requires a < |s| && !(lo <= a < lo + n) && lo + n <= |s|
    ensures Cut(s[a := b], lo, n) == Cut(s, lo, n)
  {
  }

  lemma NewestListed(list: seq<Pending>, lo: nat, n: nat, c: nat) returns (p: Pending)
    requires Ordered(list) && NewestOverlap(list, lo, n) == c
    ensures p in list && p.cmd == c && Overlaps(p, lo, n)
  {
    NewestIsNewest(list, lo, n);
    p :| p in list && p.cmd == c && Overlaps(p, lo, n);
  }

  lemma WriteKeeps(k: Key, e: Entry, seen: Seen, v: View, a: nat, b: int, hash: Source -> nat, decode: (Key, Source) -> Picture)
    requires ViewOk(v) && ListOk(v) && a < MEM_BYTES
    requires Sound(k, e, seen, v, hash, decode)
    ensures Sound(k, e, seen, Written(v, a, b), hash, decode)
  {
    var v' := Written(v, a, b);
    assert Apart(k, v'.dirty) ==> Apart(k, v.dirty);
    assert Apart(k, v'.suspect) ==> Apart(k, v.suspect);
    if InRange(k) && !(k.addr <= a < k.addr + BaseBytes(k)) {
      CutElsewhere(v.mem, k.addr, BaseBytes(k), a, b);
      assert SourceOf(k, v') == SourceOf(k, v);
    } else if k.addr <= a < k.addr + BaseBytes(k) {
      assert !Apart(k, v'.dirty) by { assert a in v'.dirty; }
      if e.fromCopy && NewestOverlap(v.pending, k.addr, BaseBytes(k)) == e.cmd {
        var p := NewestListed(v.pending, k.addr, BaseBytes(k), e.cmd);
        assert Listed(v, a);
        assert a in v'.suspect;
      }
    }
  }

  /** A copy is queued: memory changes only in the span it declares. */
  ghost predicate CopiesOut(v: View, v': View, dest: nat, span: nat) {
    && v' == v.(mem := v'.mem, epoch := v.epoch + 1, dirty := {}, next := v.next + 1,
                pending := v.pending + if span > 0 then [Pending(dest, span, v.next)] else [])
    && |v'.mem| == |v.mem| && dest < MEM_WINDOW
    && forall a | 0 <= a < |v.mem| && !(dest <= a < dest + span) :: v'.mem[a] == v.mem[a]
  }

  lemma CutSame(s: seq<int>, s': seq<int>, lo: nat, n: nat)
    requires |s| == |s'| && lo + n <= |s| && forall a | lo <= a < lo + n :: s'[a] == s[a]
    ensures Cut(s', lo, n) == Cut(s, lo, n)
  {
  }

  lemma CopyKeeps(k: Key, e: Entry, seen: Seen, v: View, v': View, dest: nat, span: nat, hash: Source -> nat, decode: (Key, Source) -> Picture)
    requires ViewOk(v) && ListOk(v) && CopiesOut(v, v', dest, span)
    requires Sound(k, e, seen, v, hash, decode)
    ensures Sound(k, e, seen, v', hash, decode)
  {
    var n := BaseBytes(k);
    if e.fromCopy && InRange(k) && NewestOverlap(v'.pending, k.addr, n) == e.cmd {
      var p := Pending(dest, span, v.next);
      if span > 0 {
        assert v'.pending[..|v.pending|] == v.pending;
        assert !Overlaps(p, k.addr, n);
      }
      assert v'.pending == v.pending || v'.pending[..|v.pending|] == v.pending;
      assert NewestOverlap(v.pending, k.addr, n) == e.cmd;
      CutSame(v.mem, v'.mem, k.addr, n);
      assert SourceOf(k, v') == SourceOf(k, v);
    }
  }

  lemma CopyListOk(v: View, v': View, dest: nat, span: nat)
    requires ListOk(v) && CopiesOut(v, v', dest, span)
    ensures ListOk(v')
  {
    assert forall i | 0 <= i < |v.pending| :: v.pending[i] in v.pending;
  }

  /** The image the workers will have made of the copy, once its draw's fence lets it run. */
  lemma FreshImageOk(k: Key, e: Entry, v: View, v': View, span: nat, decode: (Key, Source) -> Picture)
    requires ListOk(v) && CopiesOut(v, v', k.addr, span) && span == BaseBytes(k)
    requires !Indexes(k.fmt) && k.addr < MEM_WINDOW
    requires e.hashed == 0 && e.cmd == v.next && e.picture == decode(k, SourceOf(k, v'))
    ensures ImageOk(k, e, v', decode)
  {
  }

  /** A palette load that fits, from guest memory into texture memory. */
  predicate LoadFits(src: nat, off: nat, n: nat) { off + n <= TMEM_BYTES && src + n <= MEM_BYTES }

  function Loaded(v: View, src: nat, off: nat, n: nat): View
    requires ViewOk(v) && LoadFits(src, off, n)
  {
    v.(tmem := v.tmem[..off] + v.mem[src..src + n] + v.tmem[off + n..])
  }

  /** tmem_load_tlut's mark: the decode may have read palette bytes the load replaced. */
  predicate Reaches(k: Key, off: nat, n: nat) {
    Indexes(k.fmt) && k.tlutOff < off + n && k.tlutOff + PALETTE_BYTES > off
  }

  function Marked(k: Key, e: Entry, off: nat, n: nat): Entry {
    if e.present && Reaches(k, off, n) then e.(hashed := 0) else e
  }

  lemma LoadKeeps(k: Key, e: Entry, seen: Seen, v: View, from: nat, off: nat, n: nat, hash: Source -> nat, decode: (Key, Source) -> Picture)
    requires ViewOk(v) && LoadFits(from, off, n)
    requires Sound(k, e, seen, v, hash, decode)
    ensures Sound(k, Marked(k, e, off, n), seen, Loaded(v, from, off, n), hash, decode)
  {
    var v' := Loaded(v, from, off, n);
    if InRange(k) && !Reaches(k, off, n) {
      assert n == 0 ==> v'.tmem == v.tmem;
      CutSame(v.tmem, v'.tmem, k.tlutOff, PaletteBytes(k.fmt));
      assert SourceOf(k, v') == SourceOf(k, v);
    }
  }

  /** A drain or a satisfied token: nothing is listed, so no image is used any more. */
  ghost function Forgotten(v: View): View { v.(pending := [], suspect := {}) }

  lemma ForgetKeeps(k: Key, e: Entry, seen: Seen, v: View, hash: Source -> nat, decode: (Key, Source) -> Picture)
    requires Sound(k, e, seen, v, hash, decode)
    ensures Sound(k, e, seen, Forgotten(v), hash, decode)
  {
    assert SourceOf(k, Forgotten(v)) == SourceOf(k, v);
  }

  /** A hook on [lo, lo + n), with what it uncovers marked. */
  ghost function Hooked(v: View, lo: nat, n: nat): View {
    v.(pending := Kept(v.pending, lo, n),
       suspect := v.suspect + Uncovered(v.pending, lo, n))
  }

  /** What the list names as newest after the hook was the newest before, or is suspect now. */
  lemma StillNewest(v: View, lo: nat, n: nat, k: Key, c: nat)
    requires ListOk(v) && InRange(k) && Apart(k, Hooked(v, lo, n).suspect)
    requires NewestOverlap(Kept(v.pending, lo, n), k.addr, BaseBytes(k)) == c
    requires forall p | p in v.pending && p.cmd == c :: p.addr == k.addr && p.bytes == BaseBytes(k)
    ensures NewestOverlap(v.pending, k.addr, BaseBytes(k)) == c
  {
    var kept, m := Kept(v.pending, lo, n), BaseBytes(k);
    KeptMembers(v.pending, lo, n);
    KeptOrdered(v.pending, lo, n);
    var p := NewestListed(kept, k.addr, m, c);
    NewestIsNewest(v.pending, k.addr, m);
    NewestIsNewest(kept, k.addr, m);
    assert forall q | q in v.pending :: 0 < q.bytes;
    hide Kept, NewestOverlap, BaseBytes, Ordered;
    forall q | q in v.pending && Overlaps(q, k.addr, m)
      ensures q.cmd <= c
    {
      if q.cmd > c {
        NewerIsSuspect(v, lo, n, k, p, q);
      }
    }
  }

  lemma NewerIsSuspect(v: View, lo: nat, n: nat, k: Key, p: Pending, q: Pending)
    requires p in v.pending && q in v.pending && 0 < p.bytes && 0 < q.bytes && p.cmd < q.cmd && !Overlaps(p, lo, n) && Overlaps(q, lo, n)
    requires Overlaps(q, k.addr, BaseBytes(k)) && InRange(k) && p.addr == k.addr && p.bytes == BaseBytes(k)
    ensures !Apart(k, Hooked(v, lo, n).suspect)
  {
    hide BaseBytes;
    var a := if q.addr < p.addr then p.addr else q.addr;
    assert Covered(q, a);
    assert a in Hooked(v, lo, n).suspect;
  }

  lemma HookKeeps(k: Key, e: Entry, seen: Seen, v: View, lo: nat, n: nat, hash: Source -> nat, decode: (Key, Source) -> Picture)
    requires ViewOk(v) && ListOk(v)
    requires Sound(k, e, seen, v, hash, decode)
    ensures Sound(k, e, seen, Hooked(v, lo, n), hash, decode)
  {
    var v' := Hooked(v, lo, n);
    KeptMembers(v.pending, lo, n);
    assert SourceOf(k, v') == SourceOf(k, v);
    hide NewestOverlap, Kept, BaseBytes, Uncovered, Ordered, Overlaps;
    if e.fromCopy && InRange(k) && NewestOverlap(v'.pending, k.addr, BaseBytes(k)) == e.cmd && Apart(k, v'.suspect) {
      StillNewest(v, lo, n, k, e.cmd);
      assert Apart(k, v.suspect);
    }
  }

  // ---- a lookup, on one entry -----------------------------------------------------------

  /** The image of a copy that is the newest queued write to these bytes; never for mips. */
  predicate TakesImage(k: Key, e: Entry, v: View, nlevels: int) {
    e.fromCopy && e.present && nlevels <= 1 && NewestOverlap(v.pending, k.addr, BaseBytes(k)) == e.cmd
  }

  function Decoded(k: Key, e: Entry, v: View, n: int, h: nat, decode: (Key, Source) -> Picture): Entry {
    e.(present := true, picture := decode(k, SourceOf(k, v)), levels := LevelsMade(k.w, k.h, Levels(n)),
       hash := h, hashed := v.epoch, fromCopy := false)
  }

  function Larger(a: int, b: int): int { if a > b then a else b }

  /** What texture() makes of the entry of the key it was asked for, but for its stamp. */
  function LookedUp(k: Key, e: Entry, v: View, nlevels: int, hash: Source -> nat, decode: (Key, Source) -> Picture): Entry {
    if TakesImage(k, e, v, nlevels) then e
    else if !e.present then Decoded(k, e, v, nlevels, HashOf(k, v, hash), decode)
    else
      var h := if e.hashed != v.epoch then HashOf(k, v, hash) else e.hash;
      if e.fromCopy || e.hash != h || e.levels < nlevels then Decoded(k, e, v, Larger(nlevels, e.levels), h, decode)
      else e.(hashed := v.epoch)
  }

  /** Decoded again for more levels in an epoch it was already hashed in. */
  predicate Deepens(e: Entry, v: View, nlevels: int) {
    e.present && !e.fromCopy && e.hashed == v.epoch && e.levels < nlevels
  }

  function SeenAfter(k: Key, e: Entry, seen: Seen, v: View, nlevels: int, hash: Source -> nat): Seen {
    if TakesImage(k, e, v, nlevels) then seen
    else if Deepens(e, v, nlevels) then Seen(seen.src, SourceOf(k, v))
    else if e.present && !e.fromCopy && (e.hashed == v.epoch || e.hash == HashOf(k, v, hash)) && nlevels <= e.levels then seen
    else Seen(SourceOf(k, v), SourceOf(k, v))
  }

  lemma SourceLength(k: Key, v: View)
    requires ViewOk(v) && InRange(k)
    ensures |SourceOf(k, v).texels| == BaseBytes(k)
  {
    hide BaseBytes, PaletteBytes;
  }

  lemma LookupKeeps(k: Key, e: Entry, seen: Seen, v: View, nlevels: int, hash: Source -> nat, decode: (Key, Source) -> Picture)
    requires ViewOk(v) && CollisionFree(hash) && Sound(k, e, seen, v, hash, decode)
    ensures Sound(k, LookedUp(k, e, v, nlevels, hash, decode), SeenAfter(k, e, seen, v, nlevels, hash), v, hash, decode)
    ensures LookedUp(k, e, v, nlevels, hash, decode).present
  {
    if InRange(k) {
      SourceLength(k, v);
    }
    hide BaseBytes, SourceOf, LevelsMade;
  }

  /** The theorem. A lookup shows what decoding memory now would: unless the texture's bytes
      were written since the epoch began, or over a listed copy, or the picture is torn. */
  lemma LookupShowsMemory(k: Key, e: Entry, seen: Seen, v: View, nlevels: int, hash: Source -> nat, decode: (Key, Source) -> Picture)
    requires ViewOk(v) && CollisionFree(hash) && Sound(k, e, seen, v, hash, decode)
    requires InRange(k) && Apart(k, v.dirty) && Apart(k, v.suspect)
    requires e.present && !e.fromCopy ==> decode(k, seen.shown) == decode(k, seen.src)
    ensures LookedUp(k, e, v, nlevels, hash, decode).picture == decode(k, SourceOf(k, v))
  {
    hide BaseBytes, SourceOf, LevelsMade;
  }

  /** A lookup that wants more levels of a picture hashed this epoch, though the texture would
      no longer hash as it did: the decode is new, the hash is kept. */
  predicate Tears(k: Key, e: Entry, v: View, nlevels: int, hash: Source -> nat) {
    Deepens(e, v, nlevels) && HashOf(k, v, hash) != e.hash
  }

  /** Exactly when a picture tears. */
  lemma TearsExactly(k: Key, e: Entry, seen: Seen, v: View, nlevels: int, hash: Source -> nat, decode: (Key, Source) -> Picture)
    requires ViewOk(v) && CollisionFree(hash) && Sound(k, e, seen, v, hash, decode) && InRange(k) && !seen.Torn()
    ensures SeenAfter(k, e, seen, v, nlevels, hash).Torn() <==> Tears(k, e, v, nlevels, hash)
  {
    hide BaseBytes, SourceOf, ImageOk;
  }

  /** Which takes a write that has not been announced. */
  lemma TearsUnannounced(k: Key, e: Entry, seen: Seen, v: View, nlevels: int, hash: Source -> nat, decode: (Key, Source) -> Picture)
    requires ViewOk(v) && CollisionFree(hash) && Sound(k, e, seen, v, hash, decode) && InRange(k)
    requires Tears(k, e, v, nlevels, hash)
    ensures !Apart(k, v.dirty)
  {
    hide BaseBytes, SourceOf, ImageOk;
  }

  /** A run where the picture tears: looked up, rewritten without an invalidate and looked up
      with a mip level more, then put back as it was, invalidated, and looked up again. The
      last lookup shows the bytes of the middle of the run. */
  lemma TornPictureOutlivesInvalidate(k: Key, v0: View, a: nat, hash: Source -> nat, decode: (Key, Source) -> Picture)
    requires ViewOk(v0) && CollisionFree(hash) && InRange(k) && k.addr <= a < k.addr + BaseBytes(k)
    requires k.w > 1 && decode(k, SourceOf(k, v0)) != decode(k, SourceOf(k, Written(v0, a, v0.mem[a] + 1)))
    ensures var v1 := Written(v0, a, v0.mem[a] + 1);
            var v2 := Advanced(Written(v1, a, v0.mem[a]));
            var e0 := LookedUp(k, Entry(false, [], 0, 0, 0, 0, false, 0), v0, 1, hash, decode);
            var e1 := LookedUp(k, e0, v1, 2, hash, decode);
            var e2 := LookedUp(k, e1, v2, 2, hash, decode);
            v2.dirty == {} && v2.mem == v0.mem && e2.picture != decode(k, SourceOf(k, v2))
  {
    var v1 := Written(v0, a, v0.mem[a] + 1);
    var v2 := Advanced(Written(v1, a, v0.mem[a]));
    assert v2.mem == v0.mem;
    assert SourceOf(k, v2) == SourceOf(k, v0);
    hide BaseBytes, SourceOf;
    var e0 := LookedUp(k, Entry(false, [], 0, 0, 0, 0, false, 0), v0, 1, hash, decode);
    assert LevelsMade(k.w, k.h, 1) == 1;
    assert LevelsMade(k.w, k.h, 2) == 1 + LevelsMade(Halved(k.w), Halved(k.h), 1) == 2;
    var e1 := LookedUp(k, e0, v1, 2, hash, decode);
    assert Deepens(e0, v1, 2);
    assert e1.levels == 2 && e1.hash == hash(SourceOf(k, v0));
  }

  // ---- any run, as one key sees it ---------------------------------------------------------

  datatype Config = Config(e: Entry, seen: Seen, v: View)

  datatype Event =
    | Lookup(nlevels: int)
    | Write(a: nat, b: int)
    | Invalidate
    | CopyOut(after: View, dest: nat, span: nat)    // another texture's, or no image made
    | OwnCopy(after: View)                          // a copy that makes this texture's image
    | LoadPalette(from: nat, off: nat, n: nat)
    | Forget
    | Hook(lo: nat, n: nat)
    | Drop                                          // evicted, or every decode thrown out

  ghost predicate Possible(k: Key, c: Config, ev: Event) {
    match ev
    case Write(a, _) => a < MEM_BYTES
    case CopyOut(after, dest, span) => CopiesOut(c.v, after, dest, span)
    case OwnCopy(after) => CopiesOut(c.v, after, k.addr, BaseBytes(k)) && !Indexes(k.fmt) && k.addr < MEM_WINDOW
    case LoadPalette(from, off, n) => LoadFits(from, off, n)
    case _ => true
  }

  ghost function Next(k: Key, c: Config, ev: Event, hash: Source -> nat, decode: (Key, Source) -> Picture): Config
    requires ViewOk(c.v) && Possible(k, c, ev)
  {
    match ev
    case Lookup(n) => Config(LookedUp(k, c.e, c.v, n, hash, decode), SeenAfter(k, c.e, c.seen, c.v, n, hash), c.v)
    case Write(a, b) => c.(v := Written(c.v, a, b))
    case Invalidate => c.(v := Advanced(c.v))
    case CopyOut(after, _, _) => c.(v := after)
    case OwnCopy(after) =>
      c.(v := after, seen := Seen(SourceOf(k, after), SourceOf(k, after)),
         e := c.e.(present := true, picture := decode(k, SourceOf(k, after)), levels := 1,
                               hashed := 0, fromCopy := true, cmd := c.v.next))
    case LoadPalette(from, off, n) => c.(v := Loaded(c.v, from, off, n), e := Marked(k, c.e, off, n))
    case Forget => c.(v := Forgotten(c.v))
    case Hook(lo, n) => c.(v := Hooked(c.v, lo, n))
    case Drop => c.(e := c.e.(present := false, fromCopy := false))
  }

  ghost predicate Good(k: Key, c: Config, hash: Source -> nat, decode: (Key, Source) -> Picture) {
    ViewOk(c.v) && ListOk(c.v) && Sound(k, c.e, c.seen, c.v, hash, decode)
  }

  lemma OwnCopyKeeps(k: Key, c: Config, after: View, hash: Source -> nat, decode: (Key, Source) -> Picture)
    requires Good(k, c, hash, decode) && Possible(k, c, OwnCopy(after))
    ensures var c' := Next(k, c, OwnCopy(after), hash, decode); Sound(k, c'.e, c'.seen, c'.v, hash, decode)
  {
    FreshImageOk(k, Next(k, c, OwnCopy(after), hash, decode).e, c.v, after, BaseBytes(k), decode);
  }

  lemma DropKeeps(k: Key, e: Entry, seen: Seen, v: View, hash: Source -> nat, decode: (Key, Source) -> Picture)
    requires Sound(k, e, seen, v, hash, decode)
    ensures Sound(k, e.(present := false, fromCopy := false), seen, v, hash, decode)
  {
  }

  lemma NextKeeps(k: Key, c: Config, ev: Event, hash: Source -> nat, decode: (Key, Source) -> Picture)
    requires CollisionFree(hash) && Good(k, c, hash, decode) && Possible(k, c, ev)
    ensures Good(k, Next(k, c, ev, hash, decode), hash, decode)
  {
    hide BaseBytes, SourceOf, Sound, LookedUp, SeenAfter, Kept, NewestOverlap;
    match ev
    case Lookup(n) => LookupKeeps(k, c.e, c.seen, c.v, n, hash, decode);
    case Write(a, b) => WriteKeeps(k, c.e, c.seen, c.v, a, b, hash, decode);
    case Invalidate => AdvanceKeeps(k, c.e, c.seen, c.v, hash, decode);
    case CopyOut(after, dest, span) =>
      CopyListOk(c.v, after, dest, span);
      CopyKeeps(k, c.e, c.seen, c.v, after, dest, span, hash, decode);
    case OwnCopy(after) =>
      CopyListOk(c.v, after, k.addr, BaseBytes(k));
      OwnCopyKeeps(k, c, after, hash, decode);
    case LoadPalette(from, off, n) => LoadKeeps(k, c.e, c.seen, c.v, from, off, n, hash, decode);
    case Forget => ForgetKeeps(k, c.e, c.seen, c.v, hash, decode);
    case Hook(lo, n) =>
      KeptMembers(c.v.pending, lo, n);
      KeptOrdered(c.v.pending, lo, n);
      HookKeeps(k, c.e, c.seen, c.v, lo, n, hash, decode);
    case Drop => DropKeeps(k, c.e, c.seen, c.v, hash, decode);
  }

  ghost predicate PossibleRun(k: Key, c: Config, run: seq<Event>, hash: Source -> nat, decode: (Key, Source) -> Picture)
    requires ViewOk(c.v)
    decreases |run|
  {
    run == [] ||
    (Possible(k, c, run[0])
     && ViewOk(Next(k, c, run[0], hash, decode).v)
     && PossibleRun(k, Next(k, c, run[0], hash, decode), run[1..], hash, decode))
  }

  /** No lookup of the run tears the picture. */
  ghost predicate TearFree(k: Key, c: Config, run: seq<Event>, hash: Source -> nat, decode: (Key, Source) -> Picture)
    requires ViewOk(c.v) && PossibleRun(k, c, run, hash, decode)
    decreases |run|
  {
    run == [] ||
    ((run[0].Lookup? ==> !Tears(k, c.e, c.v, run[0].nlevels, hash))
     && TearFree(k, Next(k, c, run[0], hash, decode), run[1..], hash, decode))
  }

  /** Every write to the texture's bytes has been announced. */
  ghost predicate Announced(k: Key, v: View) { Apart(k, v.dirty) && Apart(k, v.suspect) }

  ghost predicate AllAnnounced(k: Key, c: Config, run: seq<Event>, hash: Source -> nat, decode: (Key, Source) -> Picture)
    requires ViewOk(c.v) && PossibleRun(k, c, run, hash, decode)
    decreases |run|
  {
    run == [] ||
    ((run[0].Lookup? ==> Announced(k, c.v)) && AllAnnounced(k, Next(k, c, run[0], hash, decode), run[1..], hash, decode))
  }

  /** Whatever came before it, a lookup with the writes announced shows what memory holds. */
  ghost predicate AnnouncedShowMemory(k: Key, c: Config, run: seq<Event>, hash: Source -> nat, decode: (Key, Source) -> Picture)
    requires ViewOk(c.v) && PossibleRun(k, c, run, hash, decode)
    decreases |run|
  {
    run == [] ||
    (var c' := Next(k, c, run[0], hash, decode);
     (run[0].Lookup? && Announced(k, c.v) ==> c'.e.picture == decode(k, SourceOf(k, c.v)))
     && AnnouncedShowMemory(k, c', run[1..], hash, decode))
  }

  ghost predicate EveryLookupShowsMemory(k: Key, c: Config, run: seq<Event>, hash: Source -> nat, decode: (Key, Source) -> Picture)
    requires ViewOk(c.v) && PossibleRun(k, c, run, hash, decode)
    decreases |run|
  {
    run == [] ||
    (var c' := Next(k, c, run[0], hash, decode);
     (run[0].Lookup? ==> c'.e.picture == decode(k, SourceOf(k, c.v)))
     && EveryLookupShowsMemory(k, c', run[1..], hash, decode))
  }

  /** The picture is as if it had never torn. */
  ghost predicate Intact(k: Key, c: Config, decode: (Key, Source) -> Picture) {
    c.e.present && !c.e.fromCopy ==> decode(k, c.seen.shown) == decode(k, c.seen.src)
  }

  /** Over any run -- writes, invalidates, copies, palette loads, tokens, hooks and evictions in
      any order, announced or not -- in which no lookup tears the picture, every lookup made
      with the writes announced shows what memory holds. */
  lemma {:induction false} RunsShowMemory(k: Key, c: Config, run: seq<Event>, hash: Source -> nat, decode: (Key, Source) -> Picture)
    requires CollisionFree(hash) && Good(k, c, hash, decode) && InRange(k) && Intact(k, c, decode)
    requires PossibleRun(k, c, run, hash, decode) && TearFree(k, c, run, hash, decode)
    ensures AnnouncedShowMemory(k, c, run, hash, decode)
    decreases |run|
  {
    if run != [] {
      hide Sound, SourceOf, BaseBytes, LookedUp, ListOk, ViewOk, Apart, Intact;
      var c' := Next(k, c, run[0], hash, decode);
      NextKeeps(k, c, run[0], hash, decode);
      IntactKeeps(k, c, run[0], hash, decode);
      if run[0].Lookup? && Announced(k, c.v) {
        LookupShowsMemory(k, c.e, c.seen, c.v, run[0].nlevels, hash, decode);
      }
      RunsShowMemory(k, c', run[1..], hash, decode);
    }
  }

  lemma IntactKeeps(k: Key, c: Config, ev: Event, hash: Source -> nat, decode: (Key, Source) -> Picture)
    requires CollisionFree(hash) && Good(k, c, hash, decode) && InRange(k) && Intact(k, c, decode) && Possible(k, c, ev)
    requires ev.Lookup? ==> !Tears(k, c.e, c.v, ev.nlevels, hash)
    ensures Intact(k, Next(k, c, ev, hash, decode), decode)
  {
    hide BaseBytes, SourceOf, ImageOk, ListOk;
  }

  /** What a lookup's harm can be: no later lookup without a tear of its own and with its
      writes announced is wrong, exactly unless this one decoded a picture hashed this epoch
      again for more levels, and got a different picture. */
  lemma TearMattersIff(k: Key, c: Config, n: int, hash: Source -> nat, decode: (Key, Source) -> Picture)
    requires CollisionFree(hash) && Good(k, c, hash, decode) && InRange(k) && Intact(k, c, decode)
    ensures var c' := Next(k, c, Lookup(n), hash, decode);
            (forall run | PossibleRun(k, c', run, hash, decode) && TearFree(k, c', run, hash, decode) ::
               AnnouncedShowMemory(k, c', run, hash, decode))
            <==> !(Deepens(c.e, c.v, n) && decode(k, SourceOf(k, c.v)) != c.e.picture)
  {
    var c' := Next(k, c, Lookup(n), hash, decode);
    NextKeeps(k, c, Lookup(n), hash, decode);
    if Deepens(c.e, c.v, n) && decode(k, SourceOf(k, c.v)) != c.e.picture {
      var run := TornLater(k, c, n, hash, decode);
    } else {
      IntactAfter(k, c, n, hash, decode);
      hide *;
      forall run | PossibleRun(k, c', run, hash, decode) && TearFree(k, c', run, hash, decode)
        ensures AnnouncedShowMemory(k, c', run, hash, decode)
      {
        RunsShowMemory(k, c', run, hash, decode);
      }
    }
  }

  lemma IntactAfter(k: Key, c: Config, n: int, hash: Source -> nat, decode: (Key, Source) -> Picture)
    requires CollisionFree(hash) && Good(k, c, hash, decode) && InRange(k) && Intact(k, c, decode)
    requires !(Deepens(c.e, c.v, n) && decode(k, SourceOf(k, c.v)) != c.e.picture)
    ensures Intact(k, Next(k, c, Lookup(n), hash, decode), decode)
  {
    hide BaseBytes, SourceOf, ImageOk, ListOk;
  }

  /** A copy that puts the bytes back: the texture hashes as it did, and keeps the wrong picture. */
  lemma TornLater(k: Key, c: Config, n: int, hash: Source -> nat, decode: (Key, Source) -> Picture) returns (run: seq<Event>)
    requires CollisionFree(hash) && Good(k, c, hash, decode) && InRange(k) && Intact(k, c, decode)
    requires Deepens(c.e, c.v, n) && decode(k, SourceOf(k, c.v)) != c.e.picture
    ensures var c' := Next(k, c, Lookup(n), hash, decode);
            && ViewOk(c'.v) && PossibleRun(k, c', run, hash, decode) && TearFree(k, c', run, hash, decode)
            && !AnnouncedShowMemory(k, c', run, hash, decode)
  {
    var c1 := Next(k, c, Lookup(n), hash, decode);
    var after := Restored(k, Forgotten(c1.v), c.seen.src);
    var copy := CopyOut(after, k.addr, BaseBytes(k));
    run := [Forget, copy, Lookup(1)];
    SourceBack(k, Forgotten(c1.v), c.seen.src);
    StaysTorn(k, c, n, after, hash, decode);
    var c2, c3 := c1.(v := Forgotten(c1.v)), c1.(v := after);
    hide SourceOf, BaseBytes, LookedUp, HashOf, Sound, ListOk, Restored, Apart;
    assert run[1..] == [copy, Lookup(1)] && run[1..][1..] == [Lookup(1)] && [Lookup(1)][1..] == [];
    assert Next(k, c1, Forget, hash, decode) == c2 && Next(k, c2, copy, hash, decode) == c3;
    assert PossibleRun(k, c3, [Lookup(1)], hash, decode) && TearFree(k, c3, [Lookup(1)], hash, decode);
    assert !AnnouncedShowMemory(k, c3, [Lookup(1)], hash, decode);
    assert PossibleRun(k, c2, run[1..], hash, decode) && TearFree(k, c2, run[1..], hash, decode);
    assert !AnnouncedShowMemory(k, c2, run[1..], hash, decode);
  }

  /** A copy over a texture that leaves these bytes there. */
  ghost function Restored(k: Key, v: View, src: Source): View
    requires |src.texels| == BaseBytes(k) && k.addr + BaseBytes(k) <= |v.mem|
  {
    v.(mem := v.mem[..k.addr] + src.texels + v.mem[k.addr + BaseBytes(k)..], epoch := v.epoch + 1, dirty := {}, next := v.next + 1,
       pending := v.pending + if BaseBytes(k) > 0 then [Pending(k.addr, BaseBytes(k), v.next)] else [])
  }

  lemma SourceBack(k: Key, v: View, src: Source)
    requires ViewOk(v) && InRange(k) && |src.texels| == BaseBytes(k) && src.palette == SourceOf(k, v).palette
    ensures ViewOk(Restored(k, v, src)) && CopiesOut(v, Restored(k, v, src), k.addr, BaseBytes(k))
    ensures SourceOf(k, Restored(k, v, src)) == src
  {
    hide BaseBytes, PaletteBytes;
  }

  lemma LevelsMore(w: nat, h: nat, n: nat)
    requires 1 <= n
    ensures 1 <= LevelsMade(w, h, n)
  {
  }

  /** With the bytes put back, a lookup keeps the torn picture. */
  lemma StaysTorn(k: Key, c: Config, n: int, after: View, hash: Source -> nat, decode: (Key, Source) -> Picture)
    requires CollisionFree(hash) && Good(k, c, hash, decode) && InRange(k) && Intact(k, c, decode)
    requires Deepens(c.e, c.v, n) && decode(k, SourceOf(k, c.v)) != c.e.picture
    requires after.epoch == c.v.epoch + 1 && SourceOf(k, after) == c.seen.src
    ensures var e := LookedUp(k, c.e, c.v, n, hash, decode);
            && !Tears(k, e, after, 1, hash)
            && LookedUp(k, e, after, 1, hash, decode).picture == decode(k, SourceOf(k, c.v))
            && decode(k, SourceOf(k, c.v)) != decode(k, SourceOf(k, after))
  {
    LevelsMore(k.w, k.h, Levels(Larger(n, c.e.levels)));
    hide SourceOf, BaseBytes, LevelsMade, ImageOk, ListOk;
  }

  /** An invalidate does not announce a write over a copy still listed: the next lookup shows
      memory exactly unless it takes that copy's image and the write changes the picture. */
  lemma ImageOutlivesWriteIff(k: Key, c: Config, a: nat, b: int, hash: Source -> nat, decode: (Key, Source) -> Picture)
    requires CollisionFree(hash) && Good(k, c, hash, decode) && InRange(k) && Intact(k, c, decode)
    requires k.addr <= a < k.addr + BaseBytes(k)
    requires TakesImage(k, c.e, c.v, 1) ==> c.e.picture == decode(k, SourceOf(k, c.v))
    ensures var v := Advanced(Written(c.v, a, b));
            LookedUp(k, c.e, v, 1, hash, decode).picture == decode(k, SourceOf(k, v))
            <==> !(TakesImage(k, c.e, c.v, 1) && decode(k, SourceOf(k, v)) != decode(k, SourceOf(k, c.v)))
  {
    hide BaseBytes, SourceOf, LevelsMade, ImageOk, ListOk, Listed, NewestOverlap;
  }

  /** A run that does take it: a copy makes the texture's image, the guest writes one of its
      bytes and invalidates, and the next lookup shows the copy's picture. */
  lemma ImageOutlivesWrite(k: Key, v: View, after: View, a: nat, b: int, hash: Source -> nat, decode: (Key, Source) -> Picture)
      returns (run: seq<Event>)
    requires ViewOk(v) && v.pending == [] && InRange(k) && !Indexes(k.fmt)
    requires CopiesOut(v, after, k.addr, BaseBytes(k)) && k.addr <= a < k.addr + BaseBytes(k)
    requires decode(k, SourceOf(k, Written(after, a, b))) != decode(k, SourceOf(k, after))
    ensures run == [OwnCopy(after), Write(a, b), Invalidate, Lookup(1)]
    ensures PossibleRun(k, Start(v), run, hash, decode) && !EveryLookupShowsMemory(k, Start(v), run, hash, decode)
  {
    run := [OwnCopy(after), Write(a, b), Invalidate, Lookup(1)];
    var c0 := Start(v);
    var c1 := Next(k, c0, OwnCopy(after), hash, decode);
    var c2 := c1.(v := Written(after, a, b));
    var c3 := c2.(v := Advanced(c2.v));
    assert after.pending == [Pending(k.addr, BaseBytes(k), v.next)];
    assert NewestOverlap(c3.v.pending, k.addr, BaseBytes(k)) == v.next;
    assert SourceOf(k, c3.v) == SourceOf(k, c2.v);
    hide SourceOf, BaseBytes, NewestOverlap, Decoded, HashOf, Listed, CopiesOut;
    assert TakesImage(k, c3.e, c3.v, 1);
    assert run[1..] == [Write(a, b), Invalidate, Lookup(1)] && run[1..][1..] == [Invalidate, Lookup(1)];
    assert [Invalidate, Lookup(1)][1..] == [Lookup(1)] && [Lookup(1)][1..] == [];
    assert PossibleRun(k, c3, [Lookup(1)], hash, decode) && !EveryLookupShowsMemory(k, c3, [Lookup(1)], hash, decode);
    assert PossibleRun(k, c2, [Invalidate, Lookup(1)], hash, decode);
    assert !EveryLookupShowsMemory(k, c2, [Invalidate, Lookup(1)], hash, decode);
    assert PossibleRun(k, c1, run[1..], hash, decode) && !EveryLookupShowsMemory(k, c1, run[1..], hash, decode);
  }

  /** With every write announced before the texture is next looked up, no picture tears, and
      every lookup of a run from the renderer's start shows what memory holds. */
  lemma AnnouncedRunsShowMemory(k: Key, v: View, run: seq<Event>, hash: Source -> nat, decode: (Key, Source) -> Picture)
    requires CollisionFree(hash) && ViewOk(v) && v.pending == [] && InRange(k)
    requires PossibleRun(k, Start(v), run, hash, decode) && AllAnnounced(k, Start(v), run, hash, decode)
    ensures EveryLookupShowsMemory(k, Start(v), run, hash, decode)
  {
    AnnouncedAreTearFree(k, Start(v), run, hash, decode);
    RunsShowMemory(k, Start(v), run, hash, decode);
    AllShow(k, Start(v), run, hash, decode);
  }

  /** The renderer starts with nothing cached. */
  function Start(v: View): Config { Config(Entry(false, [], 0, 0, 0, 0, false, 0), Seen(Source([], []), Source([], [])), v) }

  lemma {:induction false} AnnouncedAreTearFree(k: Key, c: Config, run: seq<Event>, hash: Source -> nat, decode: (Key, Source) -> Picture)
    requires CollisionFree(hash) && Good(k, c, hash, decode) && InRange(k)
    requires PossibleRun(k, c, run, hash, decode) && AllAnnounced(k, c, run, hash, decode)
    ensures TearFree(k, c, run, hash, decode)
    decreases |run|
  {
    if run != [] {
      hide Sound, SourceOf, BaseBytes, LookedUp, ListOk, ViewOk, Apart, Tears;
      NextKeeps(k, c, run[0], hash, decode);
      if run[0].Lookup? && Tears(k, c.e, c.v, run[0].nlevels, hash) {
        TearsUnannounced(k, c.e, c.seen, c.v, run[0].nlevels, hash, decode);
      }
      AnnouncedAreTearFree(k, Next(k, c, run[0], hash, decode), run[1..], hash, decode);
    }
  }

  lemma {:induction false} AllShow(k: Key, c: Config, run: seq<Event>, hash: Source -> nat, decode: (Key, Source) -> Picture)
    requires ViewOk(c.v) && PossibleRun(k, c, run, hash, decode)
    requires AllAnnounced(k, c, run, hash, decode) && AnnouncedShowMemory(k, c, run, hash, decode)
    ensures EveryLookupShowsMemory(k, c, run, hash, decode)
    decreases |run|
  {
    if run != [] {
      hide SourceOf, BaseBytes, LookedUp, ViewOk, Apart;
      AllShow(k, Next(k, c, run[0], hash, decode), run[1..], hash, decode);
    }
  }
}
