/** The frequency filters, low_pass and high_pass, built on the Gaussian
    kernel and the correlation engine. */
module Filters {
  import opened Sums
  import opened Grids
  import opened Correlation
  import opened Convolution
  import opened Gaussian

  /** The filter parameters the code passes on without checking: 2σ²
      must not be zero for the kernel, and the weighting is positive. */
  ghost predicate ValidFilter(exp: real -> real, sigma: real)
  {
    sigma != 0.0 && PositiveFunction(exp)
  }

  /** low_pass: correlation with the size × size Gaussian kernel. */
  function LowPass(exp: real -> real, img: Image, sigma: real, size: nat): (r: Image)
    requires ValidFilter(exp, sigma)
    ensures r.Valid() && SameShape(r, img)
  {
    Correlate(img, GaussianKernel(exp, sigma, size, size))
  }

  /** high_pass: the image minus its low-pass, `img - low_pass(img)`. */
  function HighPass(exp: real -> real, img: Image, sigma: real, size: nat): (r: Image)
    requires img.Valid() && ValidFilter(exp, sigma)
    ensures r.Valid() && SameShape(r, img)
  {
    Subtract(img, LowPass(exp, img, sigma, size))
  }

  /** A high-pass sample is the image sample minus the low-pass sample. */
  lemma HighPassAt(exp: real -> real, img: Image, sigma: real, size: nat, i: int, j: int, k: int)
    requires img.Valid() && ValidFilter(exp, sigma)
    requires 0 <= i < img.height && 0 <= j < img.width && 0 <= k < img.channels
    ensures HighPass(exp, img, sigma, size).px[i][j][k] == img.px[i][j][k] - LowPass(exp, img, sigma, size).px[i][j][k]
  {
  }

  /** The two filters split the image exactly: high-pass plus low-pass is
      the original image, sample for sample. */
  lemma HighPlusLowIsImage(exp: real -> real, img: Image, sigma: real, size: nat)
    requires img.Valid() && ValidFilter(exp, sigma)
    ensures Add(HighPass(exp, img, sigma, size), LowPass(exp, img, sigma, size)) == img
  {
    SubtractThenAdd(img, LowPass(exp, img, sigma, size));
  }

  /** The Gaussian kernel of odd size equals its own rotation, so the
      low-pass is also a true convolution with it. */
  lemma LowPassIsConvolution(exp: real -> real, img: Image, sigma: real, size: nat)
    requires ValidFilter(exp, sigma) && size % 2 == 1
    ensures LowPass(exp, img, sigma, size) == Convolve(img, GaussianKernel(exp, sigma, size, size))
  {
    var K := GaussianKernel(exp, sigma, size, size);
    forall a, b {:trigger K.w[a][b]} | 0 <= a < size && 0 <= b < size
      ensures K.w[a][b] == K.w[size - 1 - a][size - 1 - b]
    {
      GaussianKernelSymmetric(exp, sigma, size, size, a, b);
    }
    ConvolveSymmetric(img, K);
  }

  /** On a channel that is constant c, a non-empty low-pass gives back c
      at every pixel at least size / 2 away from each border (not near the borders,
      where the zero padding enters the window). */
  lemma LowPassPreservesConstantInterior(exp: real -> real, img: Image, sigma: real, size: nat, k: int, c: real, i: int, j: int)
    requires img.Valid() && ValidFilter(exp, sigma) && size > 0
    requires 0 <= k < img.channels
    requires forall x, y :: 0 <= x < img.height && 0 <= y < img.width ==> img.px[x][y][k] == c
    requires size / 2 <= i < img.height - size / 2 && size / 2 <= j < img.width - size / 2
    ensures LowPass(exp, img, sigma, size).px[i][j][k] == c
  {
    GaussianKernelSumsToOne(exp, sigma, size, size);
    NormalizedKernelPreservesConstantInterior(img, GaussianKernel(exp, sigma, size, size), k, c, i, j);
  }
}
