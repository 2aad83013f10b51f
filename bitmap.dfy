/**
 * The pixel encoding of `getData` in packages/project-editor/features/gui/bitmap.tsx. The canvas
 * gives the image as RGBA bytes (a `Uint8ClampedArray`, so every entry is a byte); the encoder
 * walks it four bytes at a time and writes BGRA for 32 bits per pixel, or RGB565 as two bytes,
 * low byte first, for any other depth. JavaScript evaluates `&`, `|`, `<<` and `>>` on 32-bit
 * integers, so the output entries are `bv32` values computed that way.
 */
module Bitmap {
  /** `BitmapData`. */
  datatype BitmapData = BitmapData(width: nat, height: nat, bpp: int, pixels: seq<bv32>)

  /** The first byte of an RGB565 pixel: the low three bits of green and the top five of blue. */
  function Low565(g: bv8, b: bv8): bv32 {
    (((g as bv32) & 28) << 3) | ((b as bv32) >> 3)
  }

  /** The second byte of an RGB565 pixel: the top five bits of red and the top three of green. */
  function High565(r: bv8, g: bv8): bv32 {
    ((r as bv32) & 248) | ((g as bv32) >> 5)
  }

  /** Both bytes of a 565 pixel fit in 8 bits, so the 32-bit arithmetic never spills over. */
  lemma Bytes565(r: bv8, g: bv8, b: bv8)
    ensures Low565(g, b) < 256 && High565(r, g) < 256
  {
  }

  /** The two bytes, high byte first, are the 16-bit word rrrrrggggggbbbbb. */
  lemma Layout565(r: bv8, g: bv8, b: bv8)
    ensures (High565(r, g) << 8) | Low565(g, b)
      == (((r as bv32) >> 3) << 11) | (((g as bv32) >> 2) << 5) | ((b as bv32) >> 3)
  {
  }

  /** The bytes one RGBA pixel becomes. */
  function EncodePixel(bpp: int, r: bv8, g: bv8, b: bv8, a: bv8): seq<bv32> {
    if bpp == 32 then [b as bv32, g as bv32, r as bv32, a as bv32]
    else [Low565(g, b), High565(r, g)]
  }

  /** The number of output bytes per pixel. */
  function BytesPerPixel(bpp: int): nat {
    if bpp == 32 then 4 else 2
  }

  /**
   * The output for RGBA bytes taken four at a time. Only inputs of whole pixels (a length divisible by
   * four) are meaningful, and every lemma below asks for one; below four bytes the output is empty.
   */
  function Encode(bpp: int, data: seq<bv8>): seq<bv32>
    decreases |data|
  {
    if |data| < 4 then []
    else
      var i := |data| - 4;
      Encode(bpp, data[..i]) + EncodePixel(bpp, data[i], data[i + 1], data[i + 2], data[i + 3])
  }

  /** The output has one group of `BytesPerPixel` entries per pixel. */
  lemma EncodeLength(bpp: int, data: seq<bv8>)
    requires |data| % 4 == 0
    ensures |Encode(bpp, data)| == BytesPerPixel(bpp) * (|data| / 4)
  {
    EncodeCount(bpp, data, |data| / 4);
  }

  /** `EncodeLength` for an input of `count` pixels. */
  lemma {:induction false} EncodeCount(bpp: int, data: seq<bv8>, count: nat)
    requires |data| == 4 * count
    ensures |Encode(bpp, data)| == BytesPerPixel(bpp) * count
    decreases count
  {
    if count > 0 {
      EncodeCount(bpp, data[..|data| - 4], count - 1);
    }
  }

  /** The output for `front` followed by `count` pixels is the two outputs concatenated. */
  lemma {:induction false} EncodeAppend(bpp: int, front: seq<bv8>, back: seq<bv8>, count: nat)
    requires |back| == 4 * count
    ensures Encode(bpp, front + back) == Encode(bpp, front) + Encode(bpp, back)
    decreases count
  {
    if count == 0 {
      assert front + back == front;
    } else {
      var j := |back| - 4;
      var both := front + back;
      assert both[..|both| - 4] == front + back[..j];
      assert both[|both| - 4..] == back[j..];
      EncodeAppend(bpp, front, back[..j], count - 1);
      EncodeLast(bpp, both);
      EncodeLast(bpp, back);
    }
  }

  /** The group of pixel `k` holds the encoding of that pixel's channels. */
  lemma EncodeAt(bpp: int, data: seq<bv8>, k: nat)
    requires |data| % 4 == 0 && k < |data| / 4
    ensures var n := BytesPerPixel(bpp);
      n * k + n <= |Encode(bpp, data)|
      && Encode(bpp, data)[n * k..n * k + n]
        == EncodePixel(bpp, data[4 * k], data[4 * k + 1], data[4 * k + 2], data[4 * k + 3])
  {
    var count := |data| / 4;
    assert |data| == 4 * count;
    var n := BytesPerPixel(bpp);
    var front, pixel, back := data[..4 * k], data[4 * k..4 * k + 4], data[4 * k + 4..];
    assert data == (front + pixel) + back;
    EncodeAppend(bpp, front + pixel, back, count - k - 1);
    EncodeAppend(bpp, front, pixel, 1);
    EncodeLast(bpp, pixel);
    assert pixel[..0] == [];
    var px := EncodePixel(bpp, data[4 * k], data[4 * k + 1], data[4 * k + 2], data[4 * k + 3]);
    assert Encode(bpp, pixel) == px;
    EncodeCount(bpp, front, k);
    var before := Encode(bpp, front);
    SliceOfBack(before, px);
    SliceOfFront(before + px, Encode(bpp, back), n * k, n);
  }

  /** The output is the output for all but the last pixel followed by the last pixel's encoding. */
  lemma EncodeLast(bpp: int, data: seq<bv8>)
    requires 4 <= |data|
    ensures var i := |data| - 4;
      Encode(bpp, data) == Encode(bpp, data[..i]) + EncodePixel(bpp, data[i], data[i + 1], data[i + 2], data[i + 3])
  {
  }

  /** Four more bytes of input add the encoding of that pixel to the output. */
  lemma EncodeStep(bpp: int, data: seq<bv8>, i: nat)
    requires i + 4 <= |data|
    ensures Encode(bpp, data[..i + 4])
      == Encode(bpp, data[..i]) + EncodePixel(bpp, data[i], data[i + 1], data[i + 2], data[i + 3])
  {
    var d := data[..i + 4];
    EncodeLast(bpp, d);
    assert d[..i] == data[..i];
  }

  lemma SliceOfFront<T>(a: seq<T>, b: seq<T>, m: nat, n: nat)
    requires m + n <= |a|
    ensures (a + b)[m..m + n] == a[m..m + n]
  {
  }

  lemma SliceOfBack<T>(a: seq<T>, b: seq<T>)
    ensures (a + b)[|a|..|a| + |b|] == b
  {
  }

  /** Every output entry is a byte. */
  lemma {:induction false} EncodeBytes(bpp: int, data: seq<bv8>)
    requires |data| % 4 == 0
    ensures forall j :: 0 <= j < |Encode(bpp, data)| ==> Encode(bpp, data)[j] < 256
    decreases |data|
  {
    if data != [] {
      var i := |data| - 4;
      var before := Encode(bpp, data[..i]);
      var px := EncodePixel(bpp, data[i], data[i + 1], data[i + 2], data[i + 3]);
      EncodeBytes(bpp, data[..i]);
      PixelBytes(bpp, data[i], data[i + 1], data[i + 2], data[i + 3]);
      assert Encode(bpp, data) == before + px;
    }
  }

  /** Every entry of one pixel's encoding is a byte. */
  lemma PixelBytes(bpp: int, r: bv8, g: bv8, b: bv8, a: bv8)
    ensures forall j :: 0 <= j < |EncodePixel(bpp, r, g, b, a)| ==> EncodePixel(bpp, r, g, b, a)[j] < 256
  {
    if bpp != 32 {
      var lo, hi := Low565(g, b), High565(r, g);
      Bytes565(r, g, b);
      assert EncodePixel(bpp, r, g, b, a) == [lo, hi];
    }
  }

  /** Two images that differ only in alpha give the same output at any depth but 32 bits. */
  lemma {:induction false} AlphaIgnored(bpp: int, data: seq<bv8>, other: seq<bv8>)
    requires |data| % 4 == 0 && |other| == |data| && bpp != 32
    requires forall j :: 0 <= j < |data| && j % 4 != 3 ==> data[j] == other[j]
    ensures Encode(bpp, data) == Encode(bpp, other)
    decreases |data|
  {
    if data != [] {
      var i := |data| - 4;
      assert i % 4 == 0;
      assert data[i] == other[i] && data[i + 1] == other[i + 1] && data[i + 2] == other[i + 2];
      AlphaIgnored(bpp, data[..i], other[..i]);
    }
  }

  /** At 32 bits alpha is kept: the fourth byte of each pixel's group is its alpha. */
  lemma AlphaKept(data: seq<bv8>, k: nat)
    requires |data| % 4 == 0 && k < |data| / 4
    ensures 4 * k + 3 < |Encode(32, data)| && Encode(32, data)[4 * k + 3] == data[4 * k + 3] as bv32
  {
    EncodeAt(32, data, k);
    var out := Encode(32, data);
    assert out[4 * k..4 * k + 4][3] == out[4 * k + 3];
  }

  /** The number of RGBA bytes the canvas returns for a `width` by `height` image. */
  function ImageBytes(width: nat, height: nat): nat
  {
    4 * (width * height)
  }

  /**
   * The loop of `getData` over the image data of a `width` by `height` image; the canvas returns
   * exactly four bytes per pixel.
   */
  method GetData(width: nat, height: nat, bpp: int, imageData: seq<bv8>) returns (r: BitmapData)
    requires |imageData| == ImageBytes(width, height)
    ensures r.width == width && r.height == height && r.bpp == bpp
    ensures r.pixels == Encode(bpp, imageData)
  {
    var pixels: seq<bv32> := [];
    var total := ImageBytes(width, height);
    ghost var count := width * height;
    assert total == 4 * count;
    ghost var k := 0;
    var i := 0;
    while i < total
      invariant total == 4 * count && total == |imageData|
      invariant i == 4 * k && 0 <= k <= count
      invariant pixels == Encode(bpp, imageData[..i])
    {
      var red := imageData[i];
      var green := imageData[i + 1];
      var blue := imageData[i + 2];
      ghost var before := pixels;
      if bpp == 32 {
        var alpha := imageData[i + 3];
        pixels := pixels + [blue as bv32, green as bv32, red as bv32, alpha as bv32];
      } else {
        pixels := pixels + [Low565(green, blue)];
        pixels := pixels + [High565(red, green)];
        assert pixels == before + [Low565(green, blue), High565(red, green)];
      }
      assert pixels == before + EncodePixel(bpp, red, green, blue, imageData[i + 3]);
      EncodeStep(bpp, imageData, i);
      i := i + 4;
      k := k + 1;
    }
    assert imageData[..i] == imageData;
    r := BitmapData(width, height, bpp, pixels);
  }
}
