/**
  The bytes of one texel, in each format: what decode_texel makes of them, and what a copy from
  the frame buffer (copy_to_texture) makes of a pixel. Proved: decoding what a copy stored
  gives the pixel back as closely as the format's bits allow, and exactly where they suffice;
  storing that again gives the same bytes; and the half of a byte that another texel owns stays
  that texel's.
 */
module TexelFormats {
  import opened Arithmetic
  import opened CopyGeometry

  /** Red, green, blue, alpha. */
  type Colour = c: seq<int> | |c| == 4 witness [0, 0, 0, 0]

  const MAGENTA: Colour := [255, 0, 255, 255]

  // ---- decode_texel ------------------------------------------------------------------------

  function Bits(v: int, unit: int, size: int): int
    requires 0 < unit && 0 < size
  {
    v / unit % size
  }

  function Rgb565(v: int): Colour { [Bits(v, 2048, 32) * 255 / 31, Bits(v, 32, 64) * 255 / 63, Bits(v, 1, 32) * 255 / 31, 255] }

  function Rgb5A3(v: int): Colour {
    if Bits(v, 32768, 2) == 1 then [Bits(v, 1024, 32) * 255 / 31, Bits(v, 32, 32) * 255 / 31, Bits(v, 1, 32) * 255 / 31, 255]
    else [Bits(v, 256, 16) * 17, Bits(v, 16, 16) * 17, Bits(v, 1, 16) * 17, Bits(v, 4096, 8) * 255 / 7]
  }

  function Grey(v: int, a: int): Colour { [v, v, v, a] }

  /** A palette's entry, from its two bytes (tlut_color). */
  function PaletteColour(tlutFmt: nat, hi: int, lo: int): Colour {
    match tlutFmt
    case 0 => Grey(lo, hi)
    case 1 => Rgb565(hi * 256 + lo)
    case _ => Rgb5A3(hi * 256 + lo)
  }

  /** Where in its tile the bytes of texel (ix, iy) are, for the formats of whole texels. */
  function Reads(fmt: nat, ix: nat, iy: nat): seq<nat> {
    match fmt
    case 0 => [iy * 4 + ix / 2]
    case 8 => [iy * 4 + ix / 2]
    case 1 => [iy * 8 + ix]
    case 2 => [iy * 8 + ix]
    case 9 => [iy * 8 + ix]
    case 3 => [(iy * 4 + ix) * 2, (iy * 4 + ix) * 2 + 1]
    case 4 => [(iy * 4 + ix) * 2, (iy * 4 + ix) * 2 + 1]
    case 5 => [(iy * 4 + ix) * 2, (iy * 4 + ix) * 2 + 1]
    case 10 => [(iy * 4 + ix) * 2, (iy * 4 + ix) * 2 + 1]
    case 6 => [(iy * 4 + ix) * 2, (iy * 4 + ix) * 2 + 1, 32 + (iy * 4 + ix) * 2, 32 + (iy * 4 + ix) * 2 + 1]
    case _ => []
  }

  function Nibble(v: int, ix: nat): int { if ix % 2 == 1 then v % 16 else v / 16 }

  /** One texel of its own bytes; `palette` gives an entry's colour. */
  function OfBytes(fmt: nat, b: seq<int>, ix: nat, palette: int -> Colour): Colour
    requires |b| == |Reads(fmt, ix, 0)|
  {
    match fmt
    case 0 => Grey(Nibble(b[0], ix) * 17, Nibble(b[0], ix) * 17)
    case 1 => Grey(b[0], b[0])
    case 2 => Grey(b[0] % 16 * 17, b[0] / 16 * 17)
    case 3 => Grey(b[1], b[0])
    case 4 => Rgb565(b[0] * 256 + b[1])
    case 5 => Rgb5A3(b[0] * 256 + b[1])
    case 6 => [b[1], b[2], b[3], b[0]]
    case 8 => palette(Nibble(b[0], ix))
    case 9 => palette(b[0])
    case 10 => palette((b[0] * 256 + b[1]) % 0x4000)
    case _ => MAGENTA
  }

  // ---- copy_to_texture ------------------------------------------------------------------------

  predicate IsByte(v: int) { 0 <= v < 256 }

  predicate PixelOk(px: Colour) { IsByte(px[0]) && IsByte(px[1]) && IsByte(px[2]) && IsByte(px[3]) }

  /** The bytes a copy stores of a pixel and its grey value, into texel ix of a row; `was` is the
      byte a 4-bit texel shares. */
  function ToBytes(fmt: nat, px: Colour, grey: int, ix: nat, was: int): (b: seq<int>)
    requires fmt <= 6
    ensures |b| == |Reads(fmt, ix, 0)|
  {
    match fmt
    case 0 => [if ix % 2 == 1 then was / 16 * 16 + grey / 16 else was % 16 + grey / 16 * 16]
    case 1 => [grey]
    case 2 => [px[3] / 16 * 16 + grey / 16]
    case 3 => [px[3], grey]
    case 4 => Halves(px[0] / 8 * 2048 + px[1] / 4 * 32 + px[2] / 8)
    case 5 => Halves(if px[3] >= 224 then 32768 + px[0] / 8 * 1024 + px[1] / 8 * 32 + px[2] / 8
                     else px[3] / 32 * 4096 + px[0] / 16 * 256 + px[1] / 16 * 16 + px[2] / 16)
    case _ => [px[3], px[0], px[1], px[2]]
  }

  function Halves(v: int): (b: seq<int>)
    ensures |b| == 2
  {
    [v / 256, v % 256]
  }

  // ---- a copy, decoded ----------------------------------------------------------------------

  /** A copy stores a texel's bytes where a decode reads them. */
  lemma StoredIsRead(fmt: nat, ix: nat, iy: nat)
    requires fmt <= 6
    ensures TexelBytes(fmt, ix, iy) == Reads(fmt, ix, iy)
  {
  }

  /** What the format can keep: the grey in the formats without colour. */
  function Meant(fmt: nat, px: Colour, grey: int): Colour {
    match fmt
    case 0 => Grey(grey, grey)
    case 1 => Grey(grey, grey)
    case 2 => Grey(grey, px[3])
    case 3 => Grey(grey, px[3])
    case 4 => [px[0], px[1], px[2], 255]
    case _ => px
  }

  /** How far a channel may be off: four bits, six, five, three for a translucent pixel's alpha,
      or none. */
  function Error(fmt: nat, px: Colour, channel: nat): int {
    if fmt == 1 || fmt == 3 || fmt == 6 then 0
    else if fmt == 4 then (if channel == 3 then 0 else if channel == 1 then 3 else 7)
    else if fmt == 5 && px[3] >= 224 then (if channel == 3 then 31 else 7)
    else if fmt == 5 && channel == 3 then 31
    else 15
  }

  predicate Near(x: int, y: int, e: int) { -e <= x - y <= e }

  /** The theorem: a copied pixel decodes to the pixel, as nearly as the format can. */
  lemma CopyDecodes(fmt: nat, px: Colour, grey: int, ix: nat, was: int, palette: int -> Colour, channel: nat)
    requires fmt <= 6 && PixelOk(px) && IsByte(grey) && IsByte(was) && channel < 4
    ensures Near(OfBytes(fmt, ToBytes(fmt, px, grey, ix, was), ix, palette)[channel], Meant(fmt, px, grey)[channel], Error(fmt, px, channel))
    ensures IsByte(OfBytes(fmt, ToBytes(fmt, px, grey, ix, was), ix, palette)[channel])
  {
    hide OfBytes, ToBytes, Rgb565, Rgb5A3, Halves, Bits;
    DecodedAs(fmt, px, grey, ix, was, palette);
    Levels(px[0]);
    Levels(px[1]);
    Levels(px[2]);
    Levels(px[3]);
    Levels(grey);
  }

  /** What is left of each channel's bits, spread over a byte again. */
  function Rounded(fmt: nat, px: Colour, grey: int): Colour {
    match fmt
    case 0 => Grey(grey / 16 * 17, grey / 16 * 17)
    case 1 => Grey(grey, grey)
    case 2 => Grey(grey / 16 * 17, px[3] / 16 * 17)
    case 3 => Grey(grey, px[3])
    case 4 => [px[0] / 8 * 255 / 31, px[1] / 4 * 255 / 63, px[2] / 8 * 255 / 31, 255]
    case 5 =>
      if px[3] >= 224 then [px[0] / 8 * 255 / 31, px[1] / 8 * 255 / 31, px[2] / 8 * 255 / 31, 255]
      else [px[0] / 16 * 17, px[1] / 16 * 17, px[2] / 16 * 17, px[3] / 32 * 255 / 7]
    case _ => px
  }

  lemma DecodedAs(fmt: nat, px: Colour, grey: int, ix: nat, was: int, palette: int -> Colour)
    requires fmt <= 6 && PixelOk(px) && IsByte(grey) && IsByte(was)
    ensures OfBytes(fmt, ToBytes(fmt, px, grey, ix, was), ix, palette) == Rounded(fmt, px, grey)
  {
    hide Rgb565, Rgb5A3, Halves, Bits;
    if fmt == 0 {
      Nibbles(grey, was, ix);
    } else if fmt == 2 {
      TwoNibbles(px[3] / 16, grey / 16);
    } else if fmt == 4 {
      Packed565(px[0] / 8, px[1] / 4, px[2] / 8);
    } else if fmt == 5 && px[3] >= 224 {
      PackedOpaque(px[0] / 8, px[1] / 8, px[2] / 8);
    } else if fmt == 5 {
      PackedSheer(px[3] / 32, px[0] / 16, px[1] / 16, px[2] / 16);
    }
  }

  lemma Nibbles(grey: int, was: int, ix: nat)
    requires IsByte(grey) && IsByte(was)
    ensures Nibble(if ix % 2 == 1 then was / 16 * 16 + grey / 16 else was % 16 + grey / 16 * 16, ix) == grey / 16
  {
  }

  lemma TwoNibbles(hi: int, lo: int)
    requires 0 <= hi < 16 && 0 <= lo < 16
    ensures (hi * 16 + lo) % 16 == lo && (hi * 16 + lo) / 16 == hi
  {
  }

  /** A byte cut to 5, 6, 4 and 3 bits and spread again. */
  lemma Levels(v: int)
    requires IsByte(v)
    ensures Near(v / 8 * 255 / 31, v, 7) && Near(v / 4 * 255 / 63, v, 3) && Near(v / 16 * 17, v, 15) && Near(v / 32 * 255 / 7, v, 31)
    ensures IsByte(v / 8 * 255 / 31) && IsByte(v / 4 * 255 / 63) && IsByte(v / 16 * 17) && IsByte(v / 32 * 255 / 7)
  {
  }

  lemma Joined(v: int)
    ensures Halves(v)[0] * 256 + Halves(v)[1] == v
  {
  }

  /** The digit above `lo`, in a number whose next digit is `hi` of `size`. */
  lemma Digit(v: nat, rest: nat, hi: nat, lo: nat, unit: nat, size: nat)
    requires lo < unit && hi < size && v == (rest * size + hi) * unit + lo
    ensures Bits(v, unit, size) == hi
  {
    assert v == unit * (rest * size + hi) + lo;
    assert v / unit == rest * size + hi by { Divides(v, rest * size + hi, lo, unit); }
    assert (rest * size + hi) / size == rest by { Divides(rest * size + hi, rest, hi, size); }
    assert (rest * size + hi) % size == hi by { Divides(rest * size + hi, rest, hi, size); }
  }

  lemma Divides(v: nat, q: nat, r: nat, d: nat)
    requires r < d && v == q * d + r
    ensures v / d == q && v % d == r
  {
    DivMod(q, r, d);
  }

  lemma Packed565(r: int, g: int, b: int)
    requires 0 <= r < 32 && 0 <= g < 64 && 0 <= b < 32
    ensures var h := Halves(r * 2048 + g * 32 + b);
            Rgb565(h[0] * 256 + h[1]) == [r * 255 / 31, g * 255 / 63, b * 255 / 31, 255]
  {
    hide Halves, Bits;
    var v := r * 2048 + g * 32 + b;
    Joined(v);
    Digit(v, 0, r, g * 32 + b, 2048, 32);
    Digit(v, r, g, b, 32, 64);
    Digit(v, r * 64 + g, b, 0, 1, 32);
  }

  lemma PackedOpaque(r: int, g: int, b: int)
    requires 0 <= r < 32 && 0 <= g < 32 && 0 <= b < 32
    ensures var h := Halves(32768 + r * 1024 + g * 32 + b);
            Rgb5A3(h[0] * 256 + h[1]) == [r * 255 / 31, g * 255 / 31, b * 255 / 31, 255]
  {
    hide Halves, Bits;
    var v := 32768 + r * 1024 + g * 32 + b;
    Joined(v);
    Digit(v, 0, 1, r * 1024 + g * 32 + b, 32768, 2);
    Digit(v, 1, r, g * 32 + b, 1024, 32);
    Digit(v, 32 + r, g, b, 32, 32);
    Digit(v, (32 + r) * 32 + g, b, 0, 1, 32);
  }

  lemma PackedSheer(a: int, r: int, g: int, b: int)
    requires 0 <= a < 8 && 0 <= r < 16 && 0 <= g < 16 && 0 <= b < 16
    ensures var h := Halves(a * 4096 + r * 256 + g * 16 + b);
            Rgb5A3(h[0] * 256 + h[1]) == [r * 17, g * 17, b * 17, a * 255 / 7]
  {
    hide Halves, Bits;
    var v := a * 4096 + r * 256 + g * 16 + b;
    Joined(v);
    Digit(v, 0, 0, v, 32768, 2);
    Digit(v, 0, a, r * 256 + g * 16 + b, 4096, 8);
    Digit(v, a, r, g * 16 + b, 256, 16);
    Digit(v, a * 16 + r, g, b, 16, 16);
    Digit(v, (a * 16 + r) * 16 + g, b, 0, 1, 16);
  }

  /** Copying the decoded texel stores the same bytes: nothing is lost twice. */
  lemma CopyIsStable(fmt: nat, px: Colour, grey: int, ix: nat, was: int, palette: int -> Colour)
    requires fmt <= 6 && PixelOk(px) && IsByte(grey) && IsByte(was)
    ensures var b := ToBytes(fmt, px, grey, ix, was);
            var d := OfBytes(fmt, b, ix, palette);
            ToBytes(fmt, d, d[0], ix, was) == b
  {
    hide OfBytes, ToBytes, Halves;
    DecodedAs(fmt, px, grey, ix, was, palette);
    Again(px[0]);
    Again(px[1]);
    Again(px[2]);
    Again(px[3]);
    Again(grey);
    SameBytes(fmt, px, grey, ix, was);
  }

  /** The bytes depend on no more of the channels than is left of them. */
  lemma SameBytes(fmt: nat, px: Colour, grey: int, ix: nat, was: int)
    requires fmt <= 6 && PixelOk(px) && IsByte(grey) && IsByte(was)
    ensures var d := Rounded(fmt, px, grey); ToBytes(fmt, d, d[0], ix, was) == ToBytes(fmt, px, grey, ix, was)
  {
    hide Halves;
    if fmt == 0 {
      Again(grey);
    } else if fmt == 2 {
      Again(grey);
      Again(px[3]);
    } else if fmt == 4 || fmt == 5 {
      SameColours(fmt, px, grey, ix, was);
    }
  }

  lemma SameColours(fmt: nat, px: Colour, grey: int, ix: nat, was: int)
    requires (fmt == 4 || fmt == 5) && PixelOk(px)
    ensures var d := Rounded(fmt, px, grey); ToBytes(fmt, d, d[0], ix, was) == ToBytes(fmt, px, grey, ix, was)
  {
    hide Halves;
    Again(px[0]);
    Again(px[1]);
    Again(px[2]);
    Again(px[3]);
  }

  lemma Again(v: int)
    requires IsByte(v)
    ensures v / 8 * 255 / 31 / 8 == v / 8 && v / 4 * 255 / 63 / 4 == v / 4 && v / 16 * 17 / 16 == v / 16
    ensures v < 224 ==> v / 32 * 255 / 7 / 32 == v / 32 && v / 32 * 255 / 7 < 224
  {
  }

  /** Two 4-bit texels share a byte: storing one leaves the other what it was. */
  lemma NeighbourKept(px: Colour, grey: int, ix: nat, was: int, palette: int -> Colour)
    requires IsByte(grey) && IsByte(was)
    ensures var b := ToBytes(0, px, grey, ix, was);
            OfBytes(0, b, ix + 1, palette) == OfBytes(0, [was], ix + 1, palette)
  {
    assert (ix + 1) % 2 == 1 - ix % 2;
    if ix % 2 == 1 {
      TwoNibbles(was / 16, grey / 16);
    } else {
      TwoNibbles(grey / 16, was % 16);
    }
  }
}
