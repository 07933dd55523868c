/**
  The levels of a mip chain: each half the size of the one before, down to one texel. Proved: the
  levels a decode makes, and the bytes it waits for, are those of every size from the texture's
  own to one by one, or as many as were asked for.
 */
module MipChain {
  import opened TextureCache

  function Power(i: nat): (p: nat)
    ensures 1 <= p
  {
    if i == 0 then 1 else 2 * Power(i - 1)
  }

  /** s is d halved i times, rounding down, but never nothing. */
  predicate Halves(d: nat, i: nat, s: nat) {
    1 <= s && d < (s + 1) * Power(i) && (s == 1 || s * Power(i) <= d)
  }

  /** A size has one such half, whichever way it is reached. */
  lemma OneHalf(d: nat, i: nat, s: nat, s': nat)
    requires Halves(d, i, s) && Halves(d, i, s')
    ensures s == s'
  {
    if s < s' {
      Rises(s + 1, s', Power(i));
    } else if s' < s {
      Rises(s' + 1, s, Power(i));
    }
  }

  lemma Rises(a: nat, b: nat, p: nat)
    requires a <= b
    ensures a * p <= b * p
  {
  }

  lemma HalvedOnce(d: nat, i: nat, s: nat)
    requires 1 <= d && Halves(Halved(d), i, s)
    ensures Halves(d, i + 1, s)
  {
    var p := Power(i);
    Doubled(s, p);
    Doubled(s + 1, p);
    var q, r := s * p, (s + 1) * p;
    assert Power(i + 1) == 2 * p;
    if d == 1 {
      assert 1 < r;
      if s != 1 {
        assert q <= 1;
        Rises(2, s, p);
        assert false;
      }
    }
  }

  lemma Doubled(s: nat, p: nat)
    ensures s * (2 * p) == 2 * (s * p)
  {
  }

  function Sum(fmt: nat, sizes: seq<(nat, nat)>): nat {
    if sizes == [] then 0 else TextureBytes(fmt, sizes[0].0, sizes[0].1) + Sum(fmt, sizes[1..])
  }

  /** The theorem: the chain is every half of the texture's size down to one texel, or the first n. */
  lemma {:induction false} ChainIs(fmt: nat, w: nat, h: nat, n: nat) returns (sizes: seq<(nat, nat)>)
    requires 1 <= w && 1 <= h && 1 <= n
    ensures 1 <= |sizes| <= n && (|sizes| == n || sizes[|sizes| - 1] == (1, 1))
    ensures forall i | 0 <= i < |sizes| :: Halves(w, i, sizes[i].0) && Halves(h, i, sizes[i].1)
    ensures forall i | 0 <= i < |sizes| - 1 :: sizes[i] != (1, 1)
    ensures LevelsMade(w, h, n) == |sizes| && ChainBytes(fmt, w, h, n) == Sum(fmt, sizes)
  {
    hide TextureBytes;
    sizes := [(w, h)];
    if n > 1 && !(w == 1 && h == 1) {
      var rest := ChainIs(fmt, Halved(w), Halved(h), n - 1);
      sizes := [(w, h)] + rest;
      forall i | 0 <= i < |sizes| ensures Halves(w, i, sizes[i].0) && Halves(h, i, sizes[i].1) {
        if i > 0 {
          HalvedOnce(w, i - 1, rest[i - 1].0);
          HalvedOnce(h, i - 1, rest[i - 1].1);
        }
      }
      assert sizes[1..] == rest;
    }
  }
}
