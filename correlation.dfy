/** The correlation engine, cross_correlation_2d: zero-padded 2D
    cross-correlation of an (H, W, C) image with an (m, n) kernel,
    applied to every channel separately. */
module Correlation {
  import opened Sums
  import opened Grids

  /** The specification of one output sample: the kernel laid over the
      image with its centre cell (m / 2, n / 2) on pixel (i, j), every
      image sample outside the image read as 0:
        Σ_{a < m, b < n} K[a, b] · img[i + a - m/2, j + b - n/2, k]. */
  function WindowSum(img: Image, K: Kernel, i: int, j: int, k: int): real
  {
    Sum2(K.rows, K.cols, (a, b) => Weight(K, a, b) * Sample(img, i + a - K.rows / 2, j + b - K.cols / 2, k))
  }

  /** The correlated image as a value, for the operations built on it. */
  function Correlate(img: Image, K: Kernel): (r: Image)
    requires K.Valid()
    ensures r.Valid() && SameShape(r, img)
    ensures forall i, j, k :: 0 <= i < img.height && 0 <= j < img.width && 0 <= k < img.channels ==>
      r.px[i][j][k] == WindowSum(img, K, i, j, k)
  {
    Tabulate(img.height, img.width, img.channels, (i, j, k) => WindowSum(img, K, i, j, k))
  }

  /** `np.pad(img, ((ph, ph), (pw, pw), (0, 0)), mode='constant')`: ph rows
      of zeros above and below, pw columns of zeros left and right, and no
      padding of the channel axis. Reading the padded image at (x, y) is
      reading the image at (x - ph, y - pw) with zeros outside, at every
      index. */
  function ZeroPad(img: Image, ph: nat, pw: nat): (padded: Image)
    requires img.Valid()
    ensures padded.Valid()
    ensures padded.height == img.height + 2 * ph && padded.width == img.width + 2 * pw
    ensures padded.channels == img.channels
    ensures forall i, j, k :: 0 <= i < padded.height && 0 <= j < padded.width && 0 <= k < padded.channels ==>
      padded.px[i][j][k] == if ph <= i < ph + img.height && pw <= j < pw + img.width then img.px[i - ph][j - pw][k] else 0.0
    ensures forall x, y, k :: Sample(padded, x, y, k) == Sample(img, x - ph, y - pw, k)
  {
    SampleInside(img);
    var p := Tabulate(img.height + 2 * ph, img.width + 2 * pw, img.channels, (i, j, k) => Sample(img, i - ph, j - pw, k));
    PaddedSamples(img, p, ph, pw);
    p
  }

  /** The padded layout, read through Sample, is the image shifted by
      (ph, pw). */
  lemma PaddedSamples(img: Image, padded: Image, ph: nat, pw: nat)
    requires img.Valid() && padded.Valid()
    requires padded.height == img.height + 2 * ph && padded.width == img.width + 2 * pw
    requires padded.channels == img.channels
    requires forall i, j, k :: 0 <= i < padded.height && 0 <= j < padded.width && 0 <= k < padded.channels ==>
      padded.px[i][j][k] == if ph <= i < ph + img.height && pw <= j < pw + img.width then img.px[i - ph][j - pw][k] else 0.0
    ensures forall x, y, k :: Sample(padded, x, y, k) == Sample(img, x - ph, y - pw, k)
  {
    SampleInside(img);
    SampleInside(padded);
  }

  /** `np.sum(padded[i:i+m, j:j+n, k] * kernel)`. */
  function PatchSum(padded: Image, K: Kernel, i: int, j: int, k: int): real
  {
    Sum2(K.rows, K.cols, (a, b) => Sample(padded, i + a, j + b, k) * Weight(K, a, b))
  }

  /** The patch sum over an image whose channel k reads as img shifted by
      the pad sizes (m / 2, n / 2) is the zero-reading window sum of the
      specification. */
  lemma PatchSumIsWindowSum(padded: Image, img: Image, K: Kernel, i: int, j: int, k: int)
    requires forall x, y :: Sample(padded, x, y, k) == Sample(img, x - K.rows / 2, y - K.cols / 2, k)
    ensures PatchSum(padded, K, i, j, k) == WindowSum(img, K, i, j, k)
  {
    Sum2Congruent(K.rows, K.cols,
      (a, b) => Sample(padded, i + a, j + b, k) * Weight(K, a, b),
      (a, b) => Weight(K, a, b) * Sample(img, i + a - K.rows / 2, j + b - K.cols / 2, k));
  }

  lemma PatchSumsAreWindowSums(padded: Image, img: Image, K: Kernel)
    requires forall x, y, k :: Sample(padded, x, y, k) == Sample(img, x - K.rows / 2, y - K.cols / 2, k)
    ensures forall i, j, k :: PatchSum(padded, K, i, j, k) == WindowSum(img, K, i, j, k)
  {
    forall i, j, k
      ensures PatchSum(padded, K, i, j, k) == WindowSum(img, K, i, j, k)
    {
      PatchSumIsWindowSum(padded, img, K, i, j, k);
    }
  }

  /** The innermost loop of cross_correlation_2d: fills the channels of
      output pixel (i, j) with their patch sums. */
  method FillPixel(result: array3<real>, padded: Image, kernel: Kernel, i: int, j: int)
    requires 0 <= i < result.Length0 && 0 <= j < result.Length1
    modifies result
    ensures forall k :: 0 <= k < result.Length2 ==> result[i, j, k] == PatchSum(padded, kernel, i, j, k)
    ensures forall i', j', k' :: 0 <= i' < result.Length0 && 0 <= j' < result.Length1 && 0 <= k' < result.Length2 && (i' != i || j' != j) ==>
      result[i', j', k'] == old(result[i', j', k'])
  {
    for k := 0 to result.Length2
      invariant forall k' :: 0 <= k' < k ==> result[i, j, k'] == PatchSum(padded, kernel, i, j, k')
      invariant forall i', j', k' :: 0 <= i' < result.Length0 && 0 <= j' < result.Length1 && 0 <= k' < result.Length2 && (i' != i || j' != j) ==>
        result[i', j', k'] == old(result[i', j', k'])
    {
      result[i, j, k] := PatchSum(padded, kernel, i, j, k);
    }
  }

  /** cross_correlation_2d: pads the image by half the kernel on each
      side, then fills the result from the padded image. */
  method CrossCorrelation2D(img: Image, kernel: Kernel) returns (result: array3<real>)
    requires img.Valid() && kernel.Valid()
    ensures fresh(result)
    ensures result.Length0 == img.height && result.Length1 == img.width && result.Length2 == img.channels
    ensures forall i, j, k :: 0 <= i < img.height && 0 <= j < img.width && 0 <= k < img.channels ==>
      result[i, j, k] == WindowSum(img, kernel, i, j, k)
  {
    var padHeight := kernel.rows / 2;
    var padWidth := kernel.cols / 2;
    var padded := ZeroPad(img, padHeight, padWidth);
    PatchSumsAreWindowSums(padded, img, kernel);
    result := CorrelatePadded(padded, kernel, img.height, img.width, img.channels);
  }

  /** The loops of cross_correlation_2d: a zeroed height × width × channels
      result filled sample by sample in an i / j / k loop with the patch
      sums of the padded image. */
  method CorrelatePadded(padded: Image, kernel: Kernel, height: nat, width: nat, channels: nat) returns (result: array3<real>)
    requires padded.height == height + 2 * (kernel.rows / 2) && padded.width == width + 2 * (kernel.cols / 2)
    ensures fresh(result)
    ensures result.Length0 == height && result.Length1 == width && result.Length2 == channels
    ensures forall i, j, k :: 0 <= i < height && 0 <= j < width && 0 <= k < channels ==>
      result[i, j, k] == PatchSum(padded, kernel, i, j, k)
  {
    result := new real[height, width, channels]((i, j, k) => 0.0);
    for i := 0 to height
      invariant forall i', j', k' :: 0 <= i' < i && 0 <= j' < width && 0 <= k' < channels ==>
        result[i', j', k'] == PatchSum(padded, kernel, i', j', k')
    {
      for j := 0 to width
        invariant forall i', j', k' :: 0 <= i' < i && 0 <= j' < width && 0 <= k' < channels ==>
          result[i', j', k'] == PatchSum(padded, kernel, i', j', k')
        invariant forall j', k' :: 0 <= j' < j && 0 <= k' < channels ==>
          result[i, j', k'] == PatchSum(padded, kernel, i, j', k')
      {
        // the slice padded[i:i+m, j:j+n] is never cut short
        assert i + kernel.rows <= padded.height && j + kernel.cols <= padded.width;
        FillPixel(result, padded, kernel, i, j);
      }
    }
  }

  /** Channels are independent: output channel k of the correlation reads
      input channel k only, whatever the other channels hold and even when
      the two images have different channel counts. */
  lemma ChannelIndependence(img1: Image, img2: Image, K: Kernel, k: int)
    requires img1.Valid() && img2.Valid() && K.Valid()
    requires img1.height == img2.height && img1.width == img2.width
    requires 0 <= k < img1.channels && k < img2.channels
    requires forall i, j :: 0 <= i < img1.height && 0 <= j < img1.width ==> img1.px[i][j][k] == img2.px[i][j][k]
    ensures forall i, j :: 0 <= i < img1.height && 0 <= j < img1.width ==>
      Correlate(img1, K).px[i][j][k] == Correlate(img2, K).px[i][j][k]
  {
    SameChannelSamples(img1, img2, k);
    forall i, j | 0 <= i < img1.height && 0 <= j < img1.width
      ensures WindowSum(img1, K, i, j, k) == WindowSum(img2, K, i, j, k)
    {
      WindowSumReadsOneChannel(img1, img2, K, i, j, k);
    }
  }

  /** Two images of one height and width that agree on channel k read
      alike on channel k at every index. */
  lemma SameChannelSamples(img1: Image, img2: Image, k: int)
    requires img1.Valid() && img2.Valid()
    requires img1.height == img2.height && img1.width == img2.width
    requires 0 <= k < img1.channels && k < img2.channels
    requires forall i, j :: 0 <= i < img1.height && 0 <= j < img1.width ==> img1.px[i][j][k] == img2.px[i][j][k]
    ensures forall x, y :: Sample(img1, x, y, k) == Sample(img2, x, y, k)
  {
    SampleInside(img1);
    SampleInside(img2);
  }

  /** A window sum on channel k reads nothing but channel k. */
  lemma WindowSumReadsOneChannel(img1: Image, img2: Image, K: Kernel, i: int, j: int, k: int)
    requires forall x, y :: Sample(img1, x, y, k) == Sample(img2, x, y, k)
    ensures WindowSum(img1, K, i, j, k) == WindowSum(img2, K, i, j, k)
  {
    Sum2Congruent(K.rows, K.cols,
      (a, b) => Weight(K, a, b) * Sample(img1, i + a - K.rows / 2, j + b - K.cols / 2, k),
      (a, b) => Weight(K, a, b) * Sample(img2, i + a - K.rows / 2, j + b - K.cols / 2, k));
  }

  /** A window centred at least the pad distance from every border lies
      inside the image, so on a channel constant c it reads c throughout. */
  lemma InteriorWindowInside(img: Image, K: Kernel, k: int, c: real, i: int, j: int)
    requires img.Valid() && 0 <= k < img.channels
    requires forall x, y :: 0 <= x < img.height && 0 <= y < img.width ==> img.px[x][y][k] == c
    requires K.rows / 2 <= i < img.height - K.rows / 2 && K.cols / 2 <= j < img.width - K.cols / 2
    ensures forall x, y :: i - K.rows / 2 <= x < i - K.rows / 2 + K.rows && j - K.cols / 2 <= y < j - K.cols / 2 + K.cols ==>
      Sample(img, x, y, k) == c
  {
    SampleInside(img);
  }

  /** A window whose every sample reads c sums to c under weights that
      sum to 1. */
  lemma WindowSumOfConstant(img: Image, K: Kernel, k: int, c: real, i: int, j: int)
    requires KernelSum(K) == 1.0
    requires forall x, y :: i - K.rows / 2 <= x < i - K.rows / 2 + K.rows && j - K.cols / 2 <= y < j - K.cols / 2 + K.cols ==>
      Sample(img, x, y, k) == c
    ensures WindowSum(img, K, i, j, k) == c
  {
    ConstantWindowTerms(img, K, k, c, i, j);
    Sum2Scale(K.rows, K.cols,
      (a, b) => Weight(K, a, b),
      (a, b) => Weight(K, a, b) * Sample(img, i + a - K.rows / 2, j + b - K.cols / 2, k), c);
  }

  lemma ConstantWindowTerms(img: Image, K: Kernel, k: int, c: real, i: int, j: int)
    requires forall x, y :: i - K.rows / 2 <= x < i - K.rows / 2 + K.rows && j - K.cols / 2 <= y < j - K.cols / 2 + K.cols ==>
      Sample(img, x, y, k) == c
    ensures forall a, b :: 0 <= a < K.rows && 0 <= b < K.cols ==>
      Weight(K, a, b) * Sample(img, i + a - K.rows / 2, j + b - K.cols / 2, k) == c * Weight(K, a, b)
  {
    forall a, b | 0 <= a < K.rows && 0 <= b < K.cols
      ensures Weight(K, a, b) * Sample(img, i + a - K.rows / 2, j + b - K.cols / 2, k) == c * Weight(K, a, b)
    {
      assert Sample(img, i + a - K.rows / 2, j + b - K.cols / 2, k) == c;
    }
  }

  /** Away from the borders nothing is read from the padding: a kernel
      whose weights sum to 1 maps a channel that is constant c to c at
      every pixel at least the pad distance from each border. (Near the
      borders the zeros of the padding pull the value towards 0.) */
  lemma NormalizedKernelPreservesConstantInterior(img: Image, K: Kernel, k: int, c: real, i: int, j: int)
    requires img.Valid() && K.Valid() && KernelSum(K) == 1.0
    requires 0 <= k < img.channels
    requires forall x, y :: 0 <= x < img.height && 0 <= y < img.width ==> img.px[x][y][k] == c
    requires K.rows / 2 <= i < img.height - K.rows / 2 && K.cols / 2 <= j < img.width - K.cols / 2
    ensures Correlate(img, K).px[i][j][k] == c
  {
    InteriorWindowInside(img, K, k, c, i, j);
    WindowSumOfConstant(img, K, k, c, i, j);
  }
}
