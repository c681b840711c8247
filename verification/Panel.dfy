/** Panel geometry (einklib/display.go). Go's `int` is the 64-bit one. */
module Panel {
  type byte = x: int | 0 <= x < 0x100
  type int32 = x: int | -0x8000_0000 <= x < 0x8000_0000

  const TWO63: int := 0x8000_0000_0000_0000

  /** The value a 64-bit two's complement register holds for `x`. */
  function Wrap64(x: int): (r: int)
    ensures -TWO63 <= r < TWO63
    ensures -TWO63 <= x < TWO63 ==> r == x
  {
    (x + TWO63) % (2 * TWO63) - TWO63
  }

  /** Go's division by two, which truncates toward zero. */
  function Half(x: int): (r: int)
    ensures x == 2 * r || x == 2 * r + (if x < 0 then -1 else 1)
  {
    if x < 0 then -(-x / 2) else x / 2
  }

  datatype Region = Region(x1: int32, y1: int32, x2: int32, y2: int32)

  datatype DisplayInfo = DisplayInfo(width: int32, height: int32,
                                     virtualWidth: int32, virtualHeight: int32, color: bool)
  {
    function Pixels(): int { virtualWidth * virtualHeight }

    function FrameByteCount(): int {
      if color then Wrap64(Wrap64(Pixels()) * 3) else Half(Wrap64(Pixels()))
    }

    function BytesPerPixelTimes2(): int {
      if color then 6 else 1
    }

    function FullRegion(): Region { Region(0, 0, virtualWidth, virtualHeight) }
  }

  lemma ProductBound(a: nat, b: nat, m: nat)
    requires a <= m && b <= m
    ensures 0 <= a * b <= m * m
  {
  }

  /** The number of pixels itself never overflows. */
  lemma PixelsFit(d: DisplayInfo)
    ensures -TWO63 / 2 <= d.Pixels() <= TWO63 / 2
    ensures Wrap64(d.Pixels()) == d.Pixels()
  {
    var w: int, h: int := d.virtualWidth, d.virtualHeight;
    var w': int, h': int := if w < 0 then -w else w, if h < 0 then -h else h;
    ProductBound(w', h', 0x8000_0000);
    assert w * h == w' * h' || w * h == -(w' * h');
  }

  /** The size of a frame in bytes: three to a pixel of the virtual panel, as 64 bits hold it, or two
      pixels to a byte, cut toward zero. */
  lemma FrameSizeIs(d: DisplayInfo)
    ensures
      var n, p := d.FrameByteCount(), d.virtualWidth * d.virtualHeight;
      if d.color then
        && -0x8000_0000_0000_0000 <= n < 0x8000_0000_0000_0000
        && n in {3 * p, 3 * p - 0x1_0000_0000_0000_0000, 3 * p + 0x1_0000_0000_0000_0000}
      else if p >= 0 then p - 1 <= 2 * n <= p
      else p <= 2 * n <= p + 1
  {
    PixelsFit(d);
  }

  /** The two ways of stating the frame size agree exactly while the colour size fits 64 bits,
      and the grayscale size always does. */
  lemma FrameSizeExactIff(d: DisplayInfo)
    ensures d.FrameByteCount() == Half(d.Pixels() * d.BytesPerPixelTimes2())
       <==> !d.color || -TWO63 <= 3 * d.Pixels() < TWO63
    ensures d.Pixels() >= 0 ==>
              (-TWO63 <= 3 * d.Pixels() < TWO63 <==> d.Pixels() <= (TWO63 - 1) / 3)
  {
    PixelsFit(d);
  }

  lemma SixHalved(p: int)
    ensures Half(p * 6) == 3 * p
  {
  }

  /** Three times a number of pixels, as 64 bits hold it. */
  lemma TripleWraps(p: int)
    requires -TWO63 / 2 <= p <= TWO63 / 2
    ensures
      var n := Wrap64(p * 3);
      if 3 * p >= TWO63 then n == 3 * p - 2 * TWO63 && n < 0
      else if 3 * p < -TWO63 then n == 3 * p + 2 * TWO63 && n > 0 && n % 3 == 1
      else n == 3 * p
  {
    if 3 * p < -TWO63 {
      assert 3 * p + 2 * TWO63 == 3 * (p + 0x5555_5555_5555_5555) + 1;
    }
  }

  /** A frame size that came out positive is exact whenever the dimensions make sense: a product too
      large to triple always wraps to a negative one. With exactly one dimension negative it can
      come out positive all the same, and then is one more than a multiple of three. */
  lemma PositiveSizeExactIff(d: DisplayInfo)
    requires d.FrameByteCount() > 0
    ensures d.Pixels() >= 0 <==> d.FrameByteCount() == Half(d.Pixels() * d.BytesPerPixelTimes2())
    ensures d.Pixels() >= 0 ==> !d.color || 3 * d.Pixels() < TWO63
    ensures d.Pixels() < 0 ==> d.color && d.FrameByteCount() % 3 == 1
  {
    PixelsFit(d);
    if d.color {
      TripleWraps(d.Pixels());
      SixHalved(d.Pixels());
    }
  }

  /** A grayscale frame has room for every pixel, two to a byte, exactly when their number is even. */
  lemma GrayFrameHoldsEveryPixelIff(d: DisplayInfo)
    requires !d.color && d.Pixels() >= 0
    ensures 2 * d.FrameByteCount() >= d.Pixels() <==> d.Pixels() % 2 == 0
    ensures 2 * d.FrameByteCount() >= d.Pixels() - 1
  {
    PixelsFit(d);
  }

  /** `data` written over the front of `base`. */
  function Overlay(base: seq<byte>, data: seq<byte>): (r: seq<byte>)
    requires |data| <= |base|
    ensures |r| == |base|
    ensures forall i | 0 <= i < |base| :: r[i] == if i < |data| then data[i] else base[i]
  {
    data + base[|data|..]
  }
}
