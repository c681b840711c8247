/** Solid fills (einklib/bitmap.go). */
module Bitmap {
  import opened Panel
  import opened Device

  type uint32 = x: int | 0 <= x < 0x1_0000_0000

  datatype Rgb = Rgb(r: byte, g: byte, b: byte)

  /** The colour channels of 0xAARRGGBB. */
  function Channels(argb: uint32): Rgb {
    Rgb(argb / 0x1_0000 % 0x100, argb / 0x100 % 0x100, argb % 0x100)
  }

  /** The three weights add up to 256, so the result always fits a byte. */
  function Luma(c: Rgb): byte {
    (54 * c.r + 183 * c.g + 19 * c.b) / 0x100
  }

  function GrayPair(c: Rgb): byte {
    var nib := Luma(c) / 16;
    nib * 16 + nib
  }

  /** How many bytes of an `n`-byte frame a fill writes. */
  function Covered(color: bool, n: nat): nat {
    if color then n - n % 3 else n
  }

  function PatternByte(color: bool, c: Rgb, i: nat): byte {
    if !color then GrayPair(c)
    else if i % 3 == 0 then c.r
    else if i % 3 == 1 then c.g
    else c.b
  }

  /** The bytes a fill writes, from the front of the frame. */
  function FillPattern(color: bool, argb: uint32, n: nat): (p: seq<byte>)
    ensures |p| == Covered(color, n)
    ensures forall i | 0 <= i < |p| :: p[i] == PatternByte(color, Channels(argb), i)
  {
    var c := Channels(argb);
    seq(Covered(color, n), i requires 0 <= i => PatternByte(color, c, i))
  }

  /** Which bytes those are: red, green and blue in turn, or the gray level in both nibbles. */
  lemma FillPatternBytes(color: bool, argb: uint32, n: nat)
    ensures |FillPattern(color, argb, n)| == if color then n - n % 3 else n
    ensures forall i | 0 <= i < |FillPattern(color, argb, n)| ::
              FillPattern(color, argb, n)[i] ==
                (var r, g, b := argb / 0x1_0000 % 0x100, argb / 0x100 % 0x100, argb % 0x100;
                 if !color then 17 * ((54 * r + 183 * g + 19 * b) / 0x100 / 16)
                 else if i % 3 == 0 then r
                 else if i % 3 == 1 then g
                 else b)
  {
  }

  method FillSolid(f: Frame, argb: uint32)
    requires f.Valid() && !f.consumed
    modifies f.display.device.mem
    ensures f.display.device.mem[..] ==
            Overlay(old(f.display.device.mem[..]), FillPattern(f.info.color, argb, f.size))
    ensures f.info.color ==> forall i | 0 <= i < f.display.device.mem.Length ::
              f.display.device.mem[i] ==
                if i >= f.size - f.size % 3 then old(f.display.device.mem[i])
                else if i % 3 == 0 then argb / 0x1_0000 % 0x100
                else if i % 3 == 1 then argb / 0x100 % 0x100
                else argb % 0x100
    ensures !f.info.color ==>
              var luma := (54 * (argb / 0x1_0000 % 0x100) + 183 * (argb / 0x100 % 0x100) + 19 * (argb % 0x100)) / 0x100;
              forall i | 0 <= i < f.display.device.mem.Length ::
                f.display.device.mem[i] == if i >= f.size then old(f.display.device.mem[i]) else 17 * (luma / 16)
  {
    var c := Channels(argb);
    if f.info.color {
      FillColor(f.display.device.mem, f.size, c);
    } else {
      FillGray(f.display.device.mem, f.size, c);
    }
  }

  /** The colour half of FillSolid: whole pixels of three bytes, for as long as one fits. */
  method FillColor(px: array<byte>, n: nat, c: Rgb)
    requires n <= px.Length
    modifies px
    ensures forall j | 0 <= j < px.Length ::
              px[j] == if j < Covered(true, n) then PatternByte(true, c, j) else old(px[j])
    ensures forall j | 0 <= j < n - n % 3 :: px[j] == if j % 3 == 0 then c.r else if j % 3 == 1 then c.g else c.b
    ensures forall j | n - n % 3 <= j < px.Length :: px[j] == old(px[j])
  {
    var i := 0;
    while i + 2 < n
      invariant 0 <= i <= n && i % 3 == 0
      invariant forall j | 0 <= j < i :: px[j] == PatternByte(true, c, j)
      invariant forall j | i <= j < px.Length :: px[j] == old(px[j])
    {
      px[i], px[i + 1], px[i + 2] := c.r, c.g, c.b;
      i := i + 3;
    }
  }

  /** The two nibbles of a gray byte. */
  lemma GrayPairIs(c: Rgb)
    ensures GrayPair(c) == 17 * ((54 * c.r + 183 * c.g + 19 * c.b) / 0x100 / 16)
  {
  }

  /** The grayscale half: two equal nibbles per byte. */
  method FillGray(px: array<byte>, n: nat, c: Rgb)
    requires n <= px.Length
    modifies px
    ensures forall j | 0 <= j < px.Length ::
              px[j] == if j < Covered(false, n) then PatternByte(false, c, j) else old(px[j])
    ensures forall j | 0 <= j < n :: px[j] == 17 * ((54 * c.r + 183 * c.g + 19 * c.b) / 0x100 / 16)
    ensures forall j | n <= j < px.Length :: px[j] == old(px[j])
  {
    var luma := Luma(c);
    var nib := luma / 16;
    var pair := nib * 16 + nib;
    GrayPairIs(c);
    ghost var level := 17 * ((54 * c.r + 183 * c.g + 19 * c.b) / 0x100 / 16);
    for i := 0 to n
      invariant forall j | 0 <= j < i :: px[j] == pair == level
      invariant forall j | i <= j < px.Length :: px[j] == old(px[j])
    {
      px[i] := pair;
    }
  }

  /** Gray inputs keep their value, each channel only brightens, and the result stays within two
      grey levels of the Rec. 709 weights (item 3.2 of ITU-R BT.709). */
  lemma LumaIsRec709(c: Rgb, d: Rgb)
    requires c.r <= d.r && c.g <= d.g && c.b <= d.b
    ensures Luma(Rgb(c.r, c.r, c.r)) == c.r
    ensures Luma(c) <= Luma(d)
    ensures -2.0 < (Luma(c) as real) - (0.2126 * c.r as real + 0.7152 * c.g as real + 0.0722 * c.b as real) < 2.0
  {
  }

  lemma DivMod256(x: nat, q: nat, r: nat)
    requires x == q * 0x100 + r && r < 0x100
    ensures x / 0x100 == q && x % 0x100 == r
  {
  }

  lemma ChannelsIgnoreAlpha(alpha: nat, c: Rgb)
    requires alpha < 0x100
    ensures Channels(alpha * 0x100_0000 + c.r * 0x1_0000 + c.g * 0x100 + c.b) == c
  {
    var argb: nat := alpha * 0x100_0000 + c.r * 0x1_0000 + c.g * 0x100 + c.b;
    var rg: nat := alpha * 0x1_0000 + c.r * 0x100 + c.g;
    DivMod256(argb, rg, c.b);
    DivMod256(rg, alpha * 0x100 + c.r, c.g);
    DivMod256(alpha * 0x100 + c.r, alpha, c.r);
    assert argb / 0x1_0000 == alpha * 0x100 + c.r;
  }

  /** The alpha byte never matters. */
  lemma FillIgnoresAlpha(color: bool, alpha: nat, alpha': nat, c: Rgb, n: nat)
    requires alpha < 0x100 && alpha' < 0x100
    ensures
      var rgb := c.r * 0x1_0000 + c.g * 0x100 + c.b;
      FillPattern(color, alpha * 0x100_0000 + rgb, n) == FillPattern(color, alpha' * 0x100_0000 + rgb, n)
  {
    ChannelsIgnoreAlpha(alpha, c);
    ChannelsIgnoreAlpha(alpha', c);
  }

  /** Both pixels of a grayscale byte get the top four bits of the luma. */
  lemma GrayPairNibbles(c: Rgb)
    ensures GrayPair(c) / 16 == Luma(c) / 16
    ensures GrayPair(c) % 16 == Luma(c) / 16
  {
  }

  /** A fill of a whole frame leaves nothing of what the frame held before, on either kind of
      panel, as long as the frame size is exact. */
  lemma FillCoversFrame(d: DisplayInfo, argb: uint32)
    requires d.Pixels() >= 0 && (d.color ==> 3 * d.Pixels() < TWO63)
    ensures d.FrameByteCount() >= 0
    ensures |FillPattern(d.color, argb, d.FrameByteCount())| == d.FrameByteCount()
  {
    PixelsFit(d);
  }
}
