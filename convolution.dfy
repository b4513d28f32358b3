/** The convolution adapter, convolve_2d: true 2D convolution obtained by
    flipping the kernel by 180 degrees and correlating with it. */
module Convolution {
  import opened Sums
  import opened Grids
  import opened Correlation

  /** `np.flip(kernel)`: both axes reversed, so that the flipped weight
      at (a, b) is the original weight at (m - 1 - a, n - 1 - b). */
  function Flip(K: Kernel): (F: Kernel)
    requires K.Valid()
    ensures F.Valid() && F.rows == K.rows && F.cols == K.cols
    ensures forall a, b :: 0 <= a < K.rows && 0 <= b < K.cols ==> F.w[a][b] == K.w[K.rows - 1 - a][K.cols - 1 - b]
  {
    TabulateKernel(K.rows, K.cols, (a, b) => Weight(K, K.rows - 1 - a, K.cols - 1 - b))
  }

  /** Flipping twice gives back the kernel. */
  lemma FlipInvolution(K: Kernel)
    requires K.Valid()
    ensures Flip(Flip(K)) == K
  {
    KernelExtensionality(Flip(Flip(K)), K);
  }

  /** The kernel equals its own 180-degree rotation. */
  ghost predicate Symmetric(K: Kernel)
    requires K.Valid()
  {
    forall a, b {:trigger K.w[a][b]} :: 0 <= a < K.rows && 0 <= b < K.cols ==> K.w[a][b] == K.w[K.rows - 1 - a][K.cols - 1 - b]
  }

  lemma SymmetricIffFlipFixed(K: Kernel)
    requires K.Valid()
    ensures Symmetric(K) <==> Flip(K) == K
  {
    if Symmetric(K) {
      KernelExtensionality(Flip(K), K);
    }
  }

  /** convolve_2d: correlation with the flipped kernel. */
  function Convolve(img: Image, K: Kernel): (r: Image)
    requires K.Valid()
    ensures r.Valid() && SameShape(r, img)
  {
    Correlate(img, Flip(K))
  }

  /** Convolve computes the textbook convolution
        Σ_{a < m, b < n} K[a, b] · img[i - a + m/2, j - b + n/2, k],
      the kernel's index running against the image's. */
  lemma ConvolveIsConvolution(img: Image, K: Kernel, i: int, j: int, k: int)
    requires K.Valid() && K.Odd()
    requires 0 <= i < img.height && 0 <= j < img.width && 0 <= k < img.channels
    ensures Convolve(img, K).px[i][j][k] ==
            Sum2(K.rows, K.cols, (a, b) => Weight(K, a, b) * Sample(img, i - a + K.rows / 2, j - b + K.cols / 2, k))
  {
    var F := Flip(K);
    Sum2Reverse(K.rows, K.cols,
      (a, b) => Weight(K, a, b) * Sample(img, i - a + K.rows / 2, j - b + K.cols / 2, k),
      (a, b) => Weight(F, a, b) * Sample(img, i + a - K.rows / 2, j + b - K.cols / 2, k));
  }

  /** For a kernel equal to its own rotation, convolution and correlation
      coincide. */
  lemma ConvolveSymmetric(img: Image, K: Kernel)
    requires K.Valid() && Symmetric(K)
    ensures Convolve(img, K) == Correlate(img, K)
  {
    SymmetricIffFlipFixed(K);
  }
}
