/** The kernel generator, gaussian_blur_kernel_2d. The exponential is not
    modelled: it is a parameter `exp` of which only positivity is known,
    so what is proved here is the structure of the kernel (its centre,
    its fill and its normalisation), for any positive weighting. */
module Gaussian {
  import opened Sums
  import opened Grids

  ghost predicate PositiveFunction(exp: real -> real)
  {
    forall x :: exp(x) > 0.0
  }

  /** (i - cy)² + (j - cx)². */
  function SquaredDistance(i: int, j: int, cy: int, cx: int): int
  {
    (i - cy) * (i - cy) + (j - cx) * (j - cx)
  }

  /** The unnormalised weight of cell (i, j) of a height × width kernel,
      exp(-((i - cy)² + (j - cx)²) / (2σ²)), whose centre cell is
      (cy, cx) = (height / 2, width / 2) by floor division. */
  function RawWeight(exp: real -> real, sigma: real, height: nat, width: nat, i: int, j: int): real
    requires sigma != 0.0
  {
    exp((-SquaredDistance(i, j, height / 2, width / 2)) as real / (2.0 * sigma * sigma))
  }

  /** `np.sum(kernel)` before the normalisation. */
  function RawTotal(exp: real -> real, sigma: real, height: nat, width: nat): real
    requires sigma != 0.0
  {
    Sum2(height, width, (i, j) => RawWeight(exp, sigma, height, width, i, j))
  }

  lemma RawTotalPositive(exp: real -> real, sigma: real, height: nat, width: nat)
    requires sigma != 0.0 && PositiveFunction(exp) && height > 0 && width > 0
    ensures RawTotal(exp, sigma, height, width) > 0.0
  {
    Sum2Positive(height, width, (i, j) => RawWeight(exp, sigma, height, width, i, j));
  }

  /** The kernel gaussian_blur_kernel_2d returns, as a value: every raw
      weight divided by the total. A kernel with no cells has nothing to
      normalise. */
  function GaussianKernel(exp: real -> real, sigma: real, height: nat, width: nat): (K: Kernel)
    requires sigma != 0.0 && PositiveFunction(exp)
    ensures K.Valid() && K.rows == height && K.cols == width
  {
    if height == 0 || width == 0 then
      Kernel(height, width, seq(height, _ => []))
    else
      RawTotalPositive(exp, sigma, height, width);
      var total := RawTotal(exp, sigma, height, width);
      TabulateKernel(height, width, (i, j) => RawWeight(exp, sigma, height, width, i, j) / total)
  }

  /** Every weight is positive. */
  lemma GaussianKernelPositive(exp: real -> real, sigma: real, height: nat, width: nat, i: int, j: int)
    requires sigma != 0.0 && PositiveFunction(exp)
    requires 0 <= i < height && 0 <= j < width
    ensures GaussianKernel(exp, sigma, height, width).w[i][j] > 0.0
  {
    RawTotalPositive(exp, sigma, height, width);
  }

  lemma DivisionIsScaling(x: real, t: real)
    requires t != 0.0
    ensures x / t == (1.0 / t) * x
  {
  }

  /** Dividing every cell of f by t scales the sum of f by 1 / t. */
  lemma DividedSum(K: Kernel, f: (int, int) -> real, t: real)
    requires t != 0.0
    requires forall a, b :: 0 <= a < K.rows && 0 <= b < K.cols ==> Weight(K, a, b) == f(a, b) / t
    ensures KernelSum(K) == (1.0 / t) * Sum2(K.rows, K.cols, f)
  {
    DividedCells(K, f, t);
    Sum2Scale(K.rows, K.cols, f, (a, b) => Weight(K, a, b), 1.0 / t);
  }

  lemma DividedCells(K: Kernel, f: (int, int) -> real, t: real)
    requires t != 0.0
    requires forall a, b :: 0 <= a < K.rows && 0 <= b < K.cols ==> Weight(K, a, b) == f(a, b) / t
    ensures forall a, b :: 0 <= a < K.rows && 0 <= b < K.cols ==> Weight(K, a, b) == (1.0 / t) * f(a, b)
  {
    forall a, b | 0 <= a < K.rows && 0 <= b < K.cols
      ensures Weight(K, a, b) == (1.0 / t) * f(a, b)
    {
      DivisionIsScaling(f(a, b), t);
    }
  }

  /** Dividing every cell by the positive sum of the cells gives a kernel
      whose weights sum to 1. */
  lemma NormalizedSumIsOne(K: Kernel, f: (int, int) -> real, total: real)
    requires total > 0.0 && total == Sum2(K.rows, K.cols, f)
    requires forall a, b :: 0 <= a < K.rows && 0 <= b < K.cols ==> Weight(K, a, b) == f(a, b) / total
    ensures KernelSum(K) == 1.0
  {
    DividedSum(K, f, total);
    DivisionIsScaling(total, total);
  }

  /** After the normalisation the weights sum to 1. */
  lemma GaussianKernelSumsToOne(exp: real -> real, sigma: real, height: nat, width: nat)
    requires sigma != 0.0 && PositiveFunction(exp) && height > 0 && width > 0
    ensures KernelSum(GaussianKernel(exp, sigma, height, width)) == 1.0
  {
    RawTotalPositive(exp, sigma, height, width);
    NormalizedSumIsOne(GaussianKernel(exp, sigma, height, width),
      (i, j) => RawWeight(exp, sigma, height, width, i, j), RawTotal(exp, sigma, height, width));
  }

  /** Isotropy about the centre (height / 2, width / 2): two cells at the
      same squared distance from it carry the same weight. */
  lemma GaussianKernelIsotropic(exp: real -> real, sigma: real, height: nat, width: nat, i: int, j: int, i': int, j': int)
    requires sigma != 0.0 && PositiveFunction(exp)
    requires 0 <= i < height && 0 <= j < width && 0 <= i' < height && 0 <= j' < width
    requires SquaredDistance(i, j, height / 2, width / 2) == SquaredDistance(i', j', height / 2, width / 2)
    ensures GaussianKernel(exp, sigma, height, width).w[i][j] == GaussianKernel(exp, sigma, height, width).w[i'][j']
  {
  }

  /** With odd sides the centre is the true middle, so the kernel is
      unchanged by a 180-degree rotation. */
  lemma GaussianKernelSymmetric(exp: real -> real, sigma: real, height: nat, width: nat, i: int, j: int)
    requires sigma != 0.0 && PositiveFunction(exp)
    requires height % 2 == 1 && width % 2 == 1
    requires 0 <= i < height && 0 <= j < width
    ensures GaussianKernel(exp, sigma, height, width).w[i][j] ==
            GaussianKernel(exp, sigma, height, width).w[height - 1 - i][width - 1 - j]
  {
    assert SquaredDistance(i, j, height / 2, width / 2) ==
           SquaredDistance(height - 1 - i, width - 1 - j, height / 2, width / 2);
    GaussianKernelIsotropic(exp, sigma, height, width, i, j, height - 1 - i, width - 1 - j);
  }

  /** gaussian_blur_kernel_2d: fills a zeroed height × width array with
      the raw weights in an i / j loop, then replaces it with a new array,
      the old one divided by the sum of its cells. */
  method GaussianBlurKernel2D(exp: real -> real, sigma: real, height: nat, width: nat) returns (kernel: array2<real>)
    requires sigma != 0.0 && PositiveFunction(exp)
    ensures fresh(kernel)
    ensures kernel.Length0 == height && kernel.Length1 == width
    ensures forall i, j :: 0 <= i < height && 0 <= j < width ==>
      kernel[i, j] == GaussianKernel(exp, sigma, height, width).w[i][j]
  {
    kernel := new real[height, width]((i, j) => 0.0);
    var centerX := width / 2;
    var centerY := height / 2;
    for i := 0 to height
      invariant forall i', j' :: 0 <= i' < i && 0 <= j' < width ==> kernel[i', j'] == RawWeight(exp, sigma, height, width, i', j')
    {
      for j := 0 to width
        invariant forall i', j' :: 0 <= i' < i && 0 <= j' < width ==> kernel[i', j'] == RawWeight(exp, sigma, height, width, i', j')
        invariant forall j' :: 0 <= j' < j ==> kernel[i, j'] == RawWeight(exp, sigma, height, width, i, j')
      {
        kernel[i, j] := exp((-((i - centerY) * (i - centerY) + (j - centerX) * (j - centerX))) as real / (2.0 * sigma * sigma));
      }
    }
    // the array holds exactly the raw weights, so np.sum(kernel) is their total
    var total := RawTotal(exp, sigma, height, width);
    if height > 0 && width > 0 {
      RawTotalPositive(exp, sigma, height, width);
    }
    var raw := kernel;
    kernel := new real[height, width]((i, j) requires 0 <= i < height && 0 <= j < width reads raw => raw[i, j] / total);
  }
}
