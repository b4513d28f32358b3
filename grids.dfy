/** The data model: images are dense height × width × channels arrays
    of samples, kernels dense rows × cols arrays of weights. Both are
    values, created fresh by every operation. Reading a sample or a
    weight outside the array gives 0, which is what zero padding means. */
module Grids {
  import opened Sums

  /** A dense (height, width, channels) array, px[i][j][k] being the
      sample of channel k at row i, column j. */
  datatype Grid<T> = Grid(height: nat, width: nat, channels: nat, px: seq<seq<seq<T>>>)
  {
    /** The nested sequences have exactly the declared shape. */
    ghost predicate Valid()
    {
      && |px| == height
      && (forall i :: 0 <= i < height ==> |px[i]| == width)
      && (forall i, j :: 0 <= i < height && 0 <= j < width ==> |px[i][j]| == channels)
    }
  }

  /** Floating-point samples (the code's float32 / float64 arrays). */
  type Image = Grid<real>

  /** An 8-bit unsigned sample. */
  newtype byte = x: int | 0 <= x < 256

  /** 8-bit samples (the code's uint8 arrays). */
  type ByteImage = Grid<byte>

  predicate SameShape<S, T>(a: Grid<S>, b: Grid<T>)
  {
    a.height == b.height && a.width == b.width && a.channels == b.channels
  }

  /** The grid whose sample at (i, j, k) is f(i, j, k). */
  function Tabulate<T>(height: nat, width: nat, channels: nat, f: (int, int, int) -> T): (g: Grid<T>)
    ensures g.Valid() && g.height == height && g.width == width && g.channels == channels
    ensures forall i, j, k :: 0 <= i < height && 0 <= j < width && 0 <= k < channels ==> g.px[i][j][k] == f(i, j, k)
  {
    Grid(height, width, channels, seq(height, i => seq(width, j => seq(channels, k => f(i, j, k)))))
  }

  /** The sample at (i, j, k), and 0 for every index outside the image. */
  function Sample(img: Image, i: int, j: int, k: int): real
  {
    if 0 <= i < |img.px| && 0 <= j < |img.px[i]| && 0 <= k < |img.px[i][j]| then img.px[i][j][k] else 0.0
  }

  /** The byte at (i, j, k), and 0 for every index outside the image. */
  function ByteSample(h: ByteImage, i: int, j: int, k: int): byte
  {
    if 0 <= i < |h.px| && 0 <= j < |h.px[i]| && 0 <= k < |h.px[i][j]| then h.px[i][j][k] else 0
  }

  /** In a valid image, Sample reads px exactly on the declared shape. */
  lemma SampleInside(img: Image)
    requires img.Valid()
    ensures forall i, j, k ::
              Sample(img, i, j, k) ==
              (if 0 <= i < img.height && 0 <= j < img.width && 0 <= k < img.channels then img.px[i][j][k] else 0.0)
  {
  }

  /** Two valid grids of one shape with the same samples are equal. */
  lemma GridExtensionality<T>(a: Grid<T>, b: Grid<T>)
    requires a.Valid() && b.Valid() && SameShape(a, b)
    requires forall i, j, k :: 0 <= i < a.height && 0 <= j < a.width && 0 <= k < a.channels ==> a.px[i][j][k] == b.px[i][j][k]
    ensures a == b
  {
    forall i | 0 <= i < a.height
      ensures a.px[i] == b.px[i]
    {
      forall j | 0 <= j < a.width
        ensures a.px[i][j] == b.px[i][j]
      {
      }
    }
  }

  /** Elementwise application of f (a broadcast scalar operation). */
  function Map(img: Image, f: real -> real): (r: Image)
    requires img.Valid()
    ensures r.Valid() && SameShape(r, img)
    ensures forall i, j, k :: 0 <= i < img.height && 0 <= j < img.width && 0 <= k < img.channels ==>
      r.px[i][j][k] == f(img.px[i][j][k])
  {
    SampleInside(img);
    Tabulate(img.height, img.width, img.channels, (i, j, k) => f(Sample(img, i, j, k)))
  }

  /** The product of a sample and a scalar, x · c, named so that chains
      of products are compared term by term. */
  function Times(x: real, c: real): real
  {
    x * c
  }

  /** Elementwise product with a scalar, `img * c`. */
  function Scale(img: Image, c: real): (r: Image)
    requires img.Valid()
    ensures r.Valid() && SameShape(r, img)
    ensures forall i, j, k :: 0 <= i < img.height && 0 <= j < img.width && 0 <= k < img.channels ==>
      r.px[i][j][k] == Times(img.px[i][j][k], c)
  {
    Map(img, x => Times(x, c))
  }

  /** Elementwise sum of two images of one shape, `a + b`. */
  function Add(a: Image, b: Image): (r: Image)
    requires a.Valid() && b.Valid() && SameShape(a, b)
    ensures r.Valid() && SameShape(r, a)
    ensures forall i, j, k :: 0 <= i < a.height && 0 <= j < a.width && 0 <= k < a.channels ==>
      r.px[i][j][k] == a.px[i][j][k] + b.px[i][j][k]
  {
    SampleInside(a);
    SampleInside(b);
    Tabulate(a.height, a.width, a.channels, (i, j, k) => Sample(a, i, j, k) + Sample(b, i, j, k))
  }

  /** Elementwise difference of two images of one shape, `a - b`. */
  function Subtract(a: Image, b: Image): (r: Image)
    requires a.Valid() && b.Valid() && SameShape(a, b)
    ensures r.Valid() && SameShape(r, a)
    ensures forall i, j, k :: 0 <= i < a.height && 0 <= j < a.width && 0 <= k < a.channels ==>
      r.px[i][j][k] == a.px[i][j][k] - b.px[i][j][k]
  {
    SampleInside(a);
    SampleInside(b);
    Tabulate(a.height, a.width, a.channels, (i, j, k) => Sample(a, i, j, k) - Sample(b, i, j, k))
  }

  /** Subtracting b and adding it back gives a, sample for sample. */
  lemma SubtractThenAdd(a: Image, b: Image)
    requires a.Valid() && b.Valid() && SameShape(a, b)
    ensures Add(Subtract(a, b), b) == a
  {
    GridExtensionality(Add(Subtract(a, b), b), a);
  }

  /** A dense rows × cols matrix of weights, w[a][b] in row a, column b. */
  datatype Kernel = Kernel(rows: nat, cols: nat, w: seq<seq<real>>)
  {
    ghost predicate Valid()
    {
      |w| == rows && forall a :: 0 <= a < rows ==> |w[a]| == cols
    }

    /** Both dimensions odd, so that a unique centre cell exists. */
    predicate Odd()
    {
      rows % 2 == 1 && cols % 2 == 1
    }
  }

  /** The kernel whose weight at (a, b) is f(a, b). */
  function TabulateKernel(rows: nat, cols: nat, f: (int, int) -> real): (K: Kernel)
    ensures K.Valid() && K.rows == rows && K.cols == cols
    ensures forall a, b :: 0 <= a < rows && 0 <= b < cols ==> K.w[a][b] == f(a, b)
  {
    Kernel(rows, cols, seq(rows, a => seq(cols, b => f(a, b))))
  }

  /** The weight at (a, b), and 0 outside the kernel. */
  function Weight(K: Kernel, a: int, b: int): real
  {
    if 0 <= a < |K.w| && 0 <= b < |K.w[a]| then K.w[a][b] else 0.0
  }

  /** The sum of all weights, `np.sum(kernel)`. */
  function KernelSum(K: Kernel): real
  {
    Sum2(K.rows, K.cols, (a, b) => Weight(K, a, b))
  }

  /** Two valid kernels of one shape with the same weights are equal. */
  lemma KernelExtensionality(K: Kernel, L: Kernel)
    requires K.Valid() && L.Valid() && K.rows == L.rows && K.cols == L.cols
    requires forall a, b :: 0 <= a < K.rows && 0 <= b < K.cols ==> K.w[a][b] == L.w[a][b]
    ensures K == L
  {
    forall a | 0 <= a < K.rows
      ensures K.w[a] == L.w[a]
    {
    }
  }
}
