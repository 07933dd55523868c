/**
  Which images of a 30-frame-a-second game a display of `hz` refreshes shows
  (interp_rate.h): an integer accumulator whose remainder carries from frame to frame.
  Proved: over any run at one rate the images fall exactly at game times 30 * i / hz, none
  skipped and none repeated.
 */
module DisplayRate {
  import opened Arithmetic

  const RATE_MIN: nat := 30
  const RATE_MAX: nat := 240
  const ROOM: nat := 8

  function Held(hz: nat): (h: nat)
    ensures RATE_MIN <= h <= RATE_MAX
    ensures RATE_MIN <= hz <= RATE_MAX ==> h == hz
  {
    if hz < RATE_MIN then RATE_MIN else if hz > RATE_MAX then RATE_MAX else hz
  }

  function Share(a: int, hz: nat): real
    requires 0 < hz
  {
    a as real / hz as real
  }

  /** Image j of a frame, counted from 0: how far into the frame it shows the game. */
  function Weight(hz: nat, r: nat, j: nat): real
    requires 0 < hz
  {
    Share(30 * (j + 1) - r, hz)
  }

  /** A frame's weights, with remainder r. */
  function Weights(hz: nat, r: nat): (w: seq<real>)
    requires RATE_MIN <= hz <= RATE_MAX && r < 30
    ensures |w| == (r + hz) / 30
  {
    seq((r + hz) / 30, j requires 0 <= j < (r + hz) / 30 => Weight(hz, r, j))
  }

  function Carried(hz: nat, r: nat): (r': nat)
    ensures r' < 30
  {
    (r + hz) % 30
  }

  /** At least one image and at most eight, rising in (0, 1]; the last is the frame's own
      image exactly when the frame ends on a refresh. */
  lemma WeightsRise(hz: nat, r: nat)
    requires RATE_MIN <= hz <= RATE_MAX && r < 30
    ensures var w := Weights(hz, r);
            && 1 <= |w| <= ROOM
            && (forall j | 0 <= j < |w| :: 0.0 < w[j] <= 1.0)
            && (forall i, j | 0 <= i < j < |w| :: w[i] < w[j])
            && (w[|w| - 1] == 1.0 <==> Carried(hz, r) == 0)
  {
    var n := (r + hz) / 30;
    forall j | 0 <= j < n
      ensures 0.0 < Weight(hz, r, j) <= 1.0
      ensures Weight(hz, r, j) == 1.0 <==> 30 * (j + 1) - r == hz
    {
      ShareBounds(30 * (j + 1) - r, hz);
    }
    forall i, j | 0 <= i < j < n
      ensures Weight(hz, r, i) < Weight(hz, r, j)
    {
      ShareRises(30 * (i + 1) - r, 30 * (j + 1) - r, hz);
    }
  }

  lemma ShareBounds(a: int, hz: nat)
    requires 0 < a <= hz
    ensures 0.0 < Share(a, hz) <= 1.0 && (Share(a, hz) == 1.0 <==> a == hz)
  {
    Apart(0.0, a as real, hz as real);
    if a < hz {
      Apart(a as real, hz as real, hz as real);
    }
  }

  lemma ShareRises(a: int, b: int, hz: nat)
    requires a < b && 0 < hz
    ensures Share(a, hz) < Share(b, hz)
  {
    Apart(a as real, b as real, hz as real);
  }

  lemma Apart(a: real, b: real, d: real)
    requires 0.0 < d && a < b
    ensures a / d < b / d
  {
    var x, y := a / d, b / d;
    assert x * d == a && y * d == b;
    if y <= x {
      Monotone(y, x, d);
      assert false;
    }
  }

  lemma Monotone(x: real, y: real, d: real)
    requires x <= y && 0.0 <= d
    ensures x * d <= y * d
  {
  }

  // ---- over a run at one rate ---------------------------------------------------------------

  /** Frame f's remainder, the run having begun on a frame's end. */
  function LeftOver(hz: nat, f: nat): (r: nat)
    ensures r < 30
  {
    if f == 0 then 0 else Carried(hz, LeftOver(hz, f - 1))
  }

  lemma {:induction false} LeftOverIs(hz: nat, f: nat)
    ensures LeftOver(hz, f) == Times(f, hz) % 30
  {
    if f > 0 {
      LeftOverIs(hz, f - 1);
      assert Times(f, hz) == Times(f - 1, hz) + hz;
      hide Times;
      CarryIs(hz, Times(f - 1, hz));
    }
  }

  lemma CarryIs(hz: nat, x: nat)
    ensures Carried(hz, x % 30) == (x + hz) % 30 && (x % 30 + hz) / 30 + x / 30 == (x + hz) / 30
    ensures 30 * (x / 30) == x - x % 30
  {
  }

  /** The game times, in frames, of every image of the first f frames. */
  function Images(hz: nat, f: nat): seq<real>
    requires RATE_MIN <= hz <= RATE_MAX
  {
    if f == 0 then []
    else
      var w := Weights(hz, LeftOver(hz, f - 1));
      Images(hz, f - 1) + seq(|w|, j requires 0 <= j < |w| => (f - 1) as real + w[j])
  }

  /** The theorem: image i, counted from 1, is at game time 30 * i / hz, and frame f's last is
      the newest not after the frame's end. */
  lemma {:induction false} ImagesOnTime(hz: nat, f: nat)
    requires RATE_MIN <= hz <= RATE_MAX
    ensures |Images(hz, f)| == Times(f, hz) / 30
    ensures forall i | 0 <= i < |Images(hz, f)| :: Images(hz, f)[i] == Share(30 * (i + 1), hz)
  {
    if f > 0 {
      ImagesOnTime(hz, f - 1);
      LeftOverIs(hz, f - 1);
      var r, before := LeftOver(hz, f - 1), Images(hz, f - 1);
      var w := Weights(hz, r);
      assert Times(f, hz) == Times(f - 1, hz) + hz;
      CarryIs(hz, Times(f - 1, hz));
      FrameImages(hz, f - 1, r, |before|);
      hide Share, Times, LeftOver, Weight;
    }
  }

  /** A frame's images, in game time. */
  lemma FrameImages(hz: nat, f: nat, r: nat, before: nat)
    requires RATE_MIN <= hz <= RATE_MAX && r < 30 && 30 * before + r == Times(f, hz)
    ensures forall j | 0 <= j < |Weights(hz, r)| :: f as real + Weights(hz, r)[j] == Share(30 * (before + j + 1), hz)
  {
    hide Share, Times;
    forall j | 0 <= j < |Weights(hz, r)|
      ensures f as real + Weights(hz, r)[j] == Share(30 * (before + j + 1), hz)
    {
      WholeFrames(f, 30 * (j + 1) - r, hz);
    }
  }

  /** Whole frames and a share of one make a share of refreshes. */
  lemma WholeFrames(f: nat, a: int, hz: nat)
    requires 0 < hz
    ensures f as real + Share(a, hz) == Share(Times(f, hz) + a, hz)
  {
    assert Times(f, hz) as real == f as real * hz as real;
    assert (f as real * hz as real) / hz as real == f as real;
  }

  /** Every thirtieth frame ends on a refresh, whatever the rate. */
  lemma ComesBack(hz: nat, f: nat)
    requires f % 30 == 0
    ensures LeftOver(hz, f) == 0
  {
    LeftOverIs(hz, f);
    var k := f / 30;
    assert Times(f, hz) == 30 * (k * hz);
  }

  /** But a remainder carried into a rate of whole images a frame is there for good: no frame
      ends on its own image, which is why a change of rate starts again at 0. */
  lemma {:induction false} CarriedForGood(hz: nat, r: nat, frames: nat)
    requires hz % 30 == 0 && 0 < r < 30
    ensures After(hz, r, frames) == r
  {
    if frames > 0 {
      CarriedForGood(hz, r, frames - 1);
      SameCarried(hz, r);
      hide Carried;
    }
  }

  lemma SameCarried(hz: nat, r: nat)
    requires hz % 30 == 0 && r < 30
    ensures Carried(hz, r) == r
  {
    assert hz == 30 * (hz / 30);
  }

  function After(hz: nat, r: nat, frames: nat): nat {
    if frames == 0 then r else Carried(hz, After(hz, r, frames - 1))
  }

  // ---- the accumulator, in place ------------------------------------------------------------

  /** interp_rate_weights. */
  method FrameWeights(hz0: nat, r0: nat, w: array<real>) returns (n: nat, r: nat)
    requires w.Length == ROOM && r0 < 30
    modifies w
    ensures n <= ROOM && w[..n] == Weights(Held(hz0), r0) && r == Carried(Held(hz0), r0)
  {
    var hz := Held(hz0);
    WeightsRise(hz, r0);
    n := (r0 + hz) / 30;
    var j := 1;
    while j <= n
      invariant 1 <= j <= n + 1
      invariant w[..j - 1] == Weights(hz, r0)[..j - 1]
    {
      w[j - 1] := Share(30 * j - r0, hz);
      j := j + 1;
    }
    assert Weights(hz, r0)[..n] == Weights(hz, r0);
    r := (r0 + hz) % 30;
  }

  /** The rate left when the budget has taken images away: at most cap and the frame's own. */
  function Capped(hz: nat, cap: nat): nat {
    if cap != 0 && hz > 30 * (cap + 1) then 30 * (cap + 1) else hz
  }

  /** A rate that needs no more than cap images before each frame's own; cap 0 sets no limit. */
  predicate Leaves(cap: nat, rate: nat) { cap == 0 || rate <= 30 * (cap + 1) }

  /** It is the highest of the display's rate and those below it that the budget leaves: one it
      leaves already is kept. */
  lemma CappedIsMost(hz: nat, cap: nat)
    ensures Leaves(cap, Capped(hz, cap)) && Capped(hz, cap) <= hz
    ensures forall rate: nat | Leaves(cap, rate) && rate <= hz :: rate <= Capped(hz, cap)
    ensures Leaves(cap, hz) ==> Capped(hz, cap) == hz
  {
  }

  /** The producer's accumulator: at a new rate it starts again on a frame's end. */
  class Accumulator {
    var last: nat
    var r: nat
    // the frame the current rate began at, and how many frames have been made
    ghost var start: nat
    ghost var frame: nat

    ghost predicate Valid()
      reads this
    {
      start <= frame && r == LeftOver(Held(last), frame - start)
    }

    constructor ()
      ensures Valid() && frame == 0
    {
      last, r, start, frame := 0, 0, 0, 0;
    }

    /** interp_rate_frame: the frame's images are those a run at this rate, begun at `start`,
        has in this frame. */
    method Frame(hz: nat, cap: nat, w: array<real>) returns (n: nat)
      requires Valid() && w.Length == ROOM
      modifies this, w
      ensures Valid() && frame == old(frame) + 1
      ensures Leaves(cap, last) && last <= hz && forall rate: nat | Leaves(cap, rate) && rate <= hz :: rate <= last
      ensures start == if last != old(last) then old(frame) else old(start)
      ensures n <= ROOM && w[..n] == Weights(Held(last), LeftOver(Held(last), old(frame) - start))
      ensures cap != 0 ==> n <= cap + 1
    {
      var rate := Capped(hz, cap);
      CappedIsMost(hz, cap);
      if rate != last {
        r := 0;
        last := rate;
        start := frame;
      }
      n, r := FrameWeights(rate, r, w);
      frame := frame + 1;
    }
  }
}
