/** The hybridizer, create_hybrid_image: normalises 8-bit input, filters
    each image with its own low- or high-pass, mixes the two, scales the
    mix and quantises it back to 8 bits. */
module Hybrid {
  import opened Grids
  import opened Gaussian
  import opened Filters

  /** `str.lower` on one character (ASCII letters only). */
  function LowerChar(c: char): char
  {
    if 'A' <= c <= 'Z' then (c as int + 32) as char else c
  }

  /** `str.lower`. */
  function Lower(s: string): (r: string)
    ensures |r| == |s|
  {
    if s == [] then [] else [LowerChar(s[0])] + Lower(s[1..])
  }

  lemma {:induction false} LowerAt(s: string, i: int)
    requires 0 <= i < |s|
    ensures Lower(s)[i] == LowerChar(s[i])
  {
    if i > 0 {
      LowerAt(s[1..], i - 1);
    }
  }

  /** The filter-mode test of create_hybrid_image, `mode.lower() == 'low'`. */
  predicate SelectsLowPass(mode: string)
  {
    Lower(mode) == "low"
  }

  /** The test is case-insensitive and exact: it holds for the eight
      spellings of "low" in any mix of cases and for no other string;
      every other string selects the high-pass. */
  lemma SelectsLowPassIff(mode: string)
    ensures SelectsLowPass(mode) <==>
      |mode| == 3 && (mode[0] == 'l' || mode[0] == 'L') && (mode[1] == 'o' || mode[1] == 'O') && (mode[2] == 'w' || mode[2] == 'W')
  {
    if |mode| == 3 {
      LowerAt(mode, 0);
      LowerAt(mode, 1);
      LowerAt(mode, 2);
      if (mode[0] == 'l' || mode[0] == 'L') && (mode[1] == 'o' || mode[1] == 'O') && (mode[2] == 'w' || mode[2] == 'W') {
        assert Lower(mode) == "low";
      }
    }
  }

  /** `img.astype(np.float32) / 255.0`, applied to both images when the
      first is uint8. */
  function Normalize(img: Image, isUint8: bool): (r: Image)
    requires img.Valid()
    ensures r.Valid() && SameShape(r, img)
  {
    if isUint8 then Map(img, x => x / 255.0) else img
  }

  /** 8-bit samples are mapped into [0, 1]. */
  lemma NormalizeRange(img: Image, i: int, j: int, k: int)
    requires img.Valid()
    requires 0 <= i < img.height && 0 <= j < img.width && 0 <= k < img.channels
    requires 0.0 <= img.px[i][j][k] <= 255.0
    ensures 0.0 <= Normalize(img, true).px[i][j][k] <= 1.0
  {
  }

  /** One image after normalisation and its own filter: the low-pass
      when `low` holds, the high-pass otherwise. */
  function Filtered(exp: real -> real, img: Image, isUint8: bool, sigma: real, size: nat, low: bool): (r: Image)
    requires img.Valid() && ValidFilter(exp, sigma)
    ensures r.Valid() && SameShape(r, img)
  {
    var x := Normalize(img, isUint8);
    if low then LowPass(exp, x, sigma, size) else HighPass(exp, x, sigma, size)
  }

  /** `.clip(0, 255).astype(np.uint8)` on one sample: the truncation of
      the value clipped to [0, 255]. */
  function Quantize(v: real): (b: byte)
    ensures v <= 0.0 ==> b == 0
    ensures v >= 255.0 ==> b == 255
    ensures 0.0 <= v <= 255.0 ==> b as real <= v < b as real + 1.0
  {
    var clipped := if v < 0.0 then 0.0 else if v > 255.0 then 255.0 else v;
    clipped.Floor as byte
  }

  /** Quantisation keeps the order of samples. */
  lemma QuantizeMonotone(v: real, u: real)
    requires v <= u
    ensures Quantize(v) <= Quantize(u)
  {
  }

  /** An 8-bit sample survives normalisation, rescaling by 255 and
      quantisation unchanged. */
  lemma QuantizeRoundTrip(b: byte)
    ensures Quantize(b as real / 255.0 * 255.0) == b
  {
    assert b as real / 255.0 * 255.0 == b as real;
  }

  /** `(img * 255).clip(0, 255).astype(np.uint8)` after the scaling by 255. */
  function QuantizeImage(img: Image): (r: ByteImage)
    requires img.Valid()
    ensures r.Valid() && SameShape(r, img)
    ensures forall i, j, k :: 0 <= i < img.height && 0 <= j < img.width && 0 <= k < img.channels ==>
      r.px[i][j][k] == Quantize(img.px[i][j][k])
  {
    SampleInside(img);
    Tabulate(img.height, img.width, img.channels, (i, j, k) => Quantize(Sample(img, i, j, k)))
  }

  /** The weighted sum of the two filtered images, `img1 *= 1 - mixin_ratio`,
      `img2 *= mixin_ratio`, `img1 + img2`. */
  function WeightedSum(f1: Image, f2: Image, mixinRatio: real): (h: Image)
    requires f1.Valid() && f2.Valid() && SameShape(f1, f2)
    ensures h.Valid() && SameShape(h, f1)
    ensures forall i, j, k :: 0 <= i < f1.height && 0 <= j < f1.width && 0 <= k < f1.channels ==>
      h.px[i][j][k] == Times(f1.px[i][j][k], 1.0 - mixinRatio) + Times(f2.px[i][j][k], mixinRatio)
  {
    Add(Scale(f1, 1.0 - mixinRatio), Scale(f2, mixinRatio))
  }

  /** The weighted mix of the two filtered images, `(img1 + img2) * scale_factor`:
      the sample of the result is (f1 · (1 - mixinRatio) + f2 · mixinRatio) · scaleFactor. */
  function Blend(f1: Image, f2: Image, mixinRatio: real, scaleFactor: real): (h: Image)
    requires f1.Valid() && f2.Valid() && SameShape(f1, f2)
    ensures h.Valid() && SameShape(h, f1)
    ensures forall i, j, k :: 0 <= i < f1.height && 0 <= j < f1.width && 0 <= k < f1.channels ==>
      h.px[i][j][k] == Times(Times(f1.px[i][j][k], 1.0 - mixinRatio) + Times(f2.px[i][j][k], mixinRatio), scaleFactor)
  {
    Scale(WeightedSum(f1, f2, mixinRatio), scaleFactor)
  }

  /** One byte of the mix: the quantisation of
      ((v1 · (1 - mixinRatio) + v2 · mixinRatio) · scaleFactor) · 255. */
  function MixSample(v1: real, v2: real, mixinRatio: real, scaleFactor: real): byte
  {
    Quantize(Times(Times(Times(v1, 1.0 - mixinRatio) + Times(v2, mixinRatio), scaleFactor), 255.0))
  }

  /** The mixing tail of create_hybrid_image: the blend times 255, clipped
      and truncated to 8 bits, sample by sample. */
  function Mix(f1: Image, f2: Image, mixinRatio: real, scaleFactor: real): (h: ByteImage)
    requires f1.Valid() && f2.Valid() && SameShape(f1, f2)
    ensures h.Valid() && SameShape(h, f1)
    ensures forall i, j, k :: 0 <= i < f1.height && 0 <= j < f1.width && 0 <= k < f1.channels ==>
      h.px[i][j][k] == MixSample(f1.px[i][j][k], f2.px[i][j][k], mixinRatio, scaleFactor)
  {
    QuantizeImage(Scale(Blend(f1, f2, mixinRatio, scaleFactor), 255.0))
  }

  /** The image create_hybrid_image returns, as a value: the mix of the
      two images, each filtered by the filter its flag selects. */
  function HybridImage(exp: real -> real, img1: Image, img2: Image,
                       sigma1: real, size1: nat, low1: bool,
                       sigma2: real, size2: nat, low2: bool,
                       mixinRatio: real, scaleFactor: real, isUint8: bool): (h: ByteImage)
    requires img1.Valid() && img2.Valid() && SameShape(img1, img2)
    requires ValidFilter(exp, sigma1) && ValidFilter(exp, sigma2)
    ensures h.Valid() && SameShape(h, img1)
  {
    Mix(Filtered(exp, img1, isUint8, sigma1, size1, low1),
        Filtered(exp, img2, isUint8, sigma2, size2, low2), mixinRatio, scaleFactor)
  }

  /** create_hybrid_image: lower-cases both mode strings, normalises 8-bit
      input, filters each image by its own mode (rebinding img1 and img2
      as the code does) and mixes the two. */
  method CreateHybridImage(exp: real -> real, img1: Image, img2: Image,
                           sigma1: real, size1: nat, highLow1: string,
                           sigma2: real, size2: nat, highLow2: string,
                           mixinRatio: real, scaleFactor: real, isUint8: bool)
    returns (hybrid: ByteImage)
    requires img1.Valid() && img2.Valid() && SameShape(img1, img2)
    requires ValidFilter(exp, sigma1) && ValidFilter(exp, sigma2)
    ensures hybrid.Valid() && SameShape(hybrid, img1)
    ensures hybrid == HybridImage(exp, img1, img2, sigma1, size1, SelectsLowPass(highLow1),
                                  sigma2, size2, SelectsLowPass(highLow2), mixinRatio, scaleFactor, isUint8)
  {
    var mode1 := Lower(highLow1);
    var mode2 := Lower(highLow2);
    var a, b := img1, img2;
    if isUint8 {
      a := Map(a, x => x / 255.0);
      b := Map(b, x => x / 255.0);
    }
    if mode1 == "low" {
      a := LowPass(exp, a, sigma1, size1);
    } else {
      a := HighPass(exp, a, sigma1, size1);
    }
    if mode2 == "low" {
      b := LowPass(exp, b, sigma2, size2);
    } else {
      b := HighPass(exp, b, sigma2, size2);
    }
    assert a == Filtered(exp, img1, isUint8, sigma1, size1, SelectsLowPass(highLow1));
    assert b == Filtered(exp, img2, isUint8, sigma2, size2, SelectsLowPass(highLow2));
    hybrid := Mix(a, b, mixinRatio, scaleFactor);
  }

  /** The interior value of a solid colour c after normalisation and the
      filter that mode selects: the normalised colour for the low-pass,
      0 for the high-pass. */
  function SolidFiltered(c: real, isUint8: bool, low: bool): real
  {
    if low then (if isUint8 then c / 255.0 else c) else 0.0
  }

  /** On solid-colour input, the filtered sample at every pixel at least
      size / 2 from each border is the (normalised) colour itself under
      "low", and 0 under any other mode, since the high-pass subtracts
      that same colour from it. */
  lemma FilteredSolidColorInterior(exp: real -> real, img: Image, isUint8: bool, sigma: real, size: nat,
                                   low: bool, k: int, c: real, i: int, j: int)
    requires img.Valid() && ValidFilter(exp, sigma) && size > 0
    requires 0 <= k < img.channels
    requires forall x, y :: 0 <= x < img.height && 0 <= y < img.width ==> img.px[x][y][k] == c
    requires size / 2 <= i < img.height - size / 2 && size / 2 <= j < img.width - size / 2
    ensures Filtered(exp, img, isUint8, sigma, size, low).px[i][j][k] == SolidFiltered(c, isUint8, low)
  {
    NormalizeSolid(img, isUint8, k, c);
    var x := Normalize(img, isUint8);
    var n := if isUint8 then c / 255.0 else c;
    LowPassPreservesConstantInterior(exp, x, sigma, size, k, n, i, j);
    if !low {
      HighPassAt(exp, x, sigma, size, i, j, k);
    }
  }

  /** Normalisation keeps a channel solid. */
  lemma NormalizeSolid(img: Image, isUint8: bool, k: int, c: real)
    requires img.Valid() && 0 <= k < img.channels
    requires forall x, y :: 0 <= x < img.height && 0 <= y < img.width ==> img.px[x][y][k] == c
    ensures forall x, y :: 0 <= x < img.height && 0 <= y < img.width ==>
      Normalize(img, isUint8).px[x][y][k] == if isUint8 then c / 255.0 else c
  {
  }

  /** The hybrid of two solid colours c1 and c2: at every pixel at least
      size1 / 2 and size2 / 2 from each border, the byte is the quantised
      weighted mix of the two filtered colours. */
  lemma HybridOfSolidColorsInterior(exp: real -> real, img1: Image, img2: Image,
                                    sigma1: real, size1: nat, low1: bool,
                                    sigma2: real, size2: nat, low2: bool,
                                    mixinRatio: real, scaleFactor: real, isUint8: bool,
                                    k: int, c1: real, c2: real, i: int, j: int)
    requires img1.Valid() && img2.Valid() && SameShape(img1, img2)
    requires ValidFilter(exp, sigma1) && ValidFilter(exp, sigma2) && size1 > 0 && size2 > 0
    requires 0 <= k < img1.channels
    requires forall x, y :: 0 <= x < img1.height && 0 <= y < img1.width ==> img1.px[x][y][k] == c1
    requires forall x, y :: 0 <= x < img2.height && 0 <= y < img2.width ==> img2.px[x][y][k] == c2
    requires size1 / 2 <= i < img1.height - size1 / 2 && size1 / 2 <= j < img1.width - size1 / 2
    requires size2 / 2 <= i < img1.height - size2 / 2 && size2 / 2 <= j < img1.width - size2 / 2
    ensures ByteSample(HybridImage(exp, img1, img2, sigma1, size1, low1, sigma2, size2, low2,
                                   mixinRatio, scaleFactor, isUint8), i, j, k) ==
            MixSample(SolidFiltered(c1, isUint8, low1), SolidFiltered(c2, isUint8, low2), mixinRatio, scaleFactor)
  {
    FilteredSolidColorInterior(exp, img1, isUint8, sigma1, size1, low1, k, c1, i, j);
    FilteredSolidColorInterior(exp, img2, isUint8, sigma2, size2, low2, k, c2, i, j);
    HybridImageAt(exp, img1, img2, sigma1, size1, low1, sigma2, size2, low2, mixinRatio, scaleFactor, isUint8,
                  i, j, k, SolidFiltered(c1, isUint8, low1), SolidFiltered(c2, isUint8, low2));
  }

  /** One byte of the hybrid, for known samples v1 and v2 of the two
      filtered images. */
  lemma HybridImageAt(exp: real -> real, img1: Image, img2: Image,
                      sigma1: real, size1: nat, low1: bool,
                      sigma2: real, size2: nat, low2: bool,
                      mixinRatio: real, scaleFactor: real, isUint8: bool,
                      i: int, j: int, k: int, v1: real, v2: real)
    requires img1.Valid() && img2.Valid() && SameShape(img1, img2)
    requires ValidFilter(exp, sigma1) && ValidFilter(exp, sigma2)
    requires 0 <= i < img1.height && 0 <= j < img1.width && 0 <= k < img1.channels
    requires Filtered(exp, img1, isUint8, sigma1, size1, low1).px[i][j][k] == v1
    requires Filtered(exp, img2, isUint8, sigma2, size2, low2).px[i][j][k] == v2
    ensures ByteSample(HybridImage(exp, img1, img2, sigma1, size1, low1, sigma2, size2, low2,
                                   mixinRatio, scaleFactor, isUint8), i, j, k) ==
            MixSample(v1, v2, mixinRatio, scaleFactor)
  {
    MixAt(Filtered(exp, img1, isUint8, sigma1, size1, low1), Filtered(exp, img2, isUint8, sigma2, size2, low2),
          mixinRatio, scaleFactor, i, j, k, v1, v2);
  }

  /** One byte of Mix, for known samples v1 and v2 of the two images. */
  lemma MixAt(f1: Image, f2: Image, mixinRatio: real, scaleFactor: real, i: int, j: int, k: int, v1: real, v2: real)
    requires f1.Valid() && f2.Valid() && SameShape(f1, f2)
    requires 0 <= i < f1.height && 0 <= j < f1.width && 0 <= k < f1.channels
    requires f1.px[i][j][k] == v1 && f2.px[i][j][k] == v2
    ensures ByteSample(Mix(f1, f2, mixinRatio, scaleFactor), i, j, k) == MixSample(v1, v2, mixinRatio, scaleFactor)
  {
  }
}
