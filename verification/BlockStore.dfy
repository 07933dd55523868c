/**
  The block-checked store (verify_blocks, block_ok, disc_serve): a read is served only once
  every block it touches has been hashed and found equal to its stored digest, and no block
  is ever hashed twice. The digest is SHA-1 (FIPS 180-4), here any function; the file behind
  the store does not change.
 */
module BlockStore {
  type Byte = b: nat | b < 256
  type Bytes = seq<Byte>
  type Digest = seq<Byte>

  const STORE_BLOCK: nat := 0x1_0000

  // ---- one bit per block ------------------------------------------------------------

  function Bit(i: nat): bv8
    requires i < 8
  {
    match i
    case 0 => 1 case 1 => 2 case 2 => 4 case 3 => 8 case 4 => 16 case 5 => 32 case 6 => 64 case 7 => 128
  }

  predicate Marked(seen: seq<bv8>, k: nat)
    requires k / 8 < |seen|
  {
    seen[k / 8] & Bit(k % 8) != 0
  }

  lemma BitApart(b: bv8, i: nat, j: nat)
    requires i < 8 && j < 8
    ensures (b | Bit(i)) & Bit(j) != 0 <==> i == j || b & Bit(j) != 0
  {
    match i
    case 0 => match j { case _ => }
    case 1 => match j { case _ => }
    case 2 => match j { case _ => }
    case 3 => match j { case _ => }
    case 4 => match j { case _ => }
    case 5 => match j { case _ => }
    case 6 => match j { case _ => }
    case 7 => match j { case _ => }
  }

  /** Setting block k's bit marks block k and nothing else. */
  lemma MarkOne(seen: seq<bv8>, k: nat, j: nat)
    requires k / 8 < |seen| && j / 8 < |seen|
    ensures Marked(seen[k / 8 := seen[k / 8] | Bit(k % 8)], j) <==> j == k || Marked(seen, j)
  {
    BitApart(seen[k / 8], k % 8, j % 8);
    hide Bit;
  }

  // ---- the store ----------------------------------------------------------------------------

  datatype Result = Served(data: Bytes, got: nat) | Stopped(block: nat)

  class Store {
    const image: Bytes            // the image's bytes that the file holds
    const digests: seq<Digest>
    const sha: Bytes -> Digest
    const seen: array<bv8>
    ghost var hashed: seq<nat>    // every block ever hashed, in order

    function Covered(): nat { |image| }

    function Blocks(): nat { (Covered() + STORE_BLOCK - 1) / STORE_BLOCK }

    function BlockEnd(k: nat): nat {
      if (k + 1) * STORE_BLOCK < Covered() then (k + 1) * STORE_BLOCK else Covered()
    }

    function BlockOf(p: nat): nat { p / STORE_BLOCK }

    /** Block k's bytes have the digest the store keeps for it. */
    ghost predicate Intact(k: nat) {
      k < |digests| && k * STORE_BLOCK <= BlockEnd(k) && sha(image[k * STORE_BLOCK..BlockEnd(k)]) == digests[k]
    }

    /** A block is marked exactly when it has been hashed; it was hashed once, and intact. */
    ghost predicate Valid()
      reads this, seen
    {
      && |digests| == Blocks() && seen.Length == Blocks() / 8 + 1
      && (forall k: nat | k < Blocks() :: Marked(seen[..], k) <==> k in hashed)
      && (forall k | k in hashed :: k < Blocks() && Intact(k))
      && (forall i, j | 0 <= i < j < |hashed| :: hashed[i] != hashed[j])
    }

    constructor (image: Bytes, digests: seq<Digest>, sha: Bytes -> Digest)
      requires |digests| == (|image| + STORE_BLOCK - 1) / STORE_BLOCK
      ensures Valid() && hashed == [] && fresh(seen) && this.image == image && this.digests == digests && this.sha == sha
    {
      this.image, this.digests, this.sha := image, digests, sha;
      seen := new bv8[(|image| + STORE_BLOCK - 1) / STORE_BLOCK / 8 + 1](_ => 0);
      hashed := [];
    }

    /** The blocks a read of [offset, end) touches. */
    ghost predicate Touches(offset: nat, end: nat, k: nat) {
      offset < end && offset / STORE_BLOCK <= k && k * STORE_BLOCK < end
    }

    method BlockOk(k: nat) returns (ok: bool)
      requires k < |digests| && k * STORE_BLOCK < Covered()
      ensures ok <==> Intact(k)
    {
      var lo := k * STORE_BLOCK;
      var n := if Covered() - lo < STORE_BLOCK then Covered() - lo else STORE_BLOCK;
      assert lo + n == BlockEnd(k);
      ok := sha(image[lo..lo + n]) == digests[k];
    }

    lemma BlockInTable(k: nat)
      requires k * STORE_BLOCK < Covered()
      ensures k < Blocks()
    {
    }

    /** Every block of the read not yet hashed is hashed; the first that differs stops it. */
    method VerifyBlocks(offset: nat, length: nat) returns (bad: int)
      requires Valid()
      modifies this`hashed, seen
      ensures Valid() && old(hashed) <= hashed
      ensures var end := if offset + length < Covered() then offset + length else Covered();
              && (bad < 0 <==> forall k: nat | Touches(offset, end, k) :: Intact(k))
              && (bad < 0 ==> forall k: nat | Touches(offset, end, k) :: k in hashed)
              && (bad >= 0 ==> Touches(offset, end, bad) && !Intact(bad))
    {
      var end := if offset + length < Covered() then offset + length else Covered();
      if offset >= end {
        return -1;
      }
      hide Intact, Marked;
      var k := offset / STORE_BLOCK;
      ghost var first := k;
      while k * STORE_BLOCK < end
        invariant first <= k && Valid() && old(hashed) <= hashed
        invariant forall j: nat | first <= j < k :: j in hashed
        decreases end - k * STORE_BLOCK
      {
        BlockInTable(k);
        var ok := Check(k);
        if !ok {
          return k;
        }
        k := k + 1;
      }
      bad := -1;
    }

    /** One block: nothing to do when it is marked. */
    method Check(k: nat) returns (ok: bool)
      requires Valid() && k < Blocks() && k * STORE_BLOCK < Covered()
      modifies this`hashed, seen
      ensures Valid() && (ok <==> Intact(k)) && (ok ==> k in hashed)
      ensures hashed == if ok && k !in old(hashed) then old(hashed) + [k] else old(hashed)
    {
      assert Marked(seen[..], k) <==> seen[k / 8] & Bit(k % 8) != 0;
      hide Intact, Marked, Bit;
      if seen[k / 8] & Bit(k % 8) != 0 {
        return true;
      }
      ok := BlockOk(k);
      if ok {
        Mark(k);
      }
    }

    /** A block found intact. */
    method Mark(k: nat)
      requires Valid() && k < Blocks() && Intact(k) && !Marked(seen[..], k)
      modifies this`hashed, seen
      ensures Valid() && hashed == old(hashed) + [k]
    {
      ghost var was := seen[..];
      forall j: nat | j < Blocks()
        ensures Marked(was[k / 8 := was[k / 8] | Bit(k % 8)], j) <==> j == k || Marked(was, j)
      {
        MarkOne(was, k, j);
      }
      seen[k / 8] := seen[k / 8] | Bit(k % 8);
      hashed := hashed + [k];
      assert seen[..] == was[k / 8 := was[k / 8] | Bit(k % 8)];
    }

    /** disc_serve, of the image alone: zeros past its end. */
    method Serve(offset: nat, length: nat, check: bool) returns (r: Result)
      requires Valid()
      modifies this`hashed, seen
      ensures Valid() && old(hashed) <= hashed
      ensures r.Served? ==> |r.data| == length
      ensures r.Served? ==> forall i | 0 <= i < length :: r.data[i] == if offset + i < Covered() then image[offset + i] else 0
      // no byte of a block that is not what was imported
      ensures r.Served? && check ==>
                forall p: nat | offset <= p < offset + length && p < Covered() :: BlockOf(p) in hashed
      ensures check ==>
                (r.Served? <==> forall p: nat | offset <= p < offset + length && p < Covered() :: Intact(BlockOf(p)))
      ensures !check ==> r.Served? && hashed == old(hashed)
    {
      var end := if offset + length < Covered() then offset + length else Covered();
      if check {
        var bad := VerifyBlocks(offset, length);
        ByBytes(offset, end);
        if bad >= 0 {
          return Stopped(bad);
        }
      }
      var got := if offset < end then end - offset else 0;
      var data := if offset < end then image[offset..end] else [];
      r := Served(data + seq(length - got, _ => 0), got);
    }

    /** The blocks a read touches are those of its bytes. */
    lemma ByBytes(offset: nat, end: nat)
      requires end <= Covered()
      ensures (forall k: nat | Touches(offset, end, k) :: Intact(k)) <==> forall p: nat | offset <= p < end :: Intact(BlockOf(p))
      ensures forall p: nat | offset <= p < end :: Touches(offset, end, BlockOf(p))
    {
      forall k: nat | Touches(offset, end, k)
        ensures exists p: nat :: offset <= p < end && BlockOf(p) == k
      {
        var p := if offset < k * STORE_BLOCK then k * STORE_BLOCK else offset;
        assert offset <= p < end && BlockOf(p) == k;
      }
    }
  }
}
