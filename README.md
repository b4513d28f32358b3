# Hybrid images: a verified model of the filtering core

This project models `Project1_Hybrid_Images/hybrid.py`. That file builds a
hybrid image by low-pass filtering one picture, high-pass filtering another,
and mixing the two. It is written in Dafny, and its properties are proved.

The model follows the program's five stages.

- **Gaussian kernel** (`gaussian.dfy`, `gaussian_blur_kernel_2d`).
  - The kernel cell (i, j) holds exp(-((i - cy)² + (j - cx)²) / (2σ²)).
  - The centre is cy = height / 2, cx = width / 2, by floor division.
  - The whole array is then divided by the sum of its cells.
  - `GaussianBlurKernel2D` is the array method: a nested fill loop, then the whole-array division.
  - It is proved equal, cell by cell, to the value `GaussianKernel`.
  - Proved about `GaussianKernel`: every weight is positive, the weights sum to 1, the kernel is isotropic about its centre, and with odd sides it is symmetric under a 180-degree rotation.
  - The exponential is a parameter `exp`, and only its positivity is known (see below).
- **Cross-correlation** (`correlation.dfy`, `cross_correlation_2d`).
  - `ZeroPad` pads the image with zeros by m/2 rows and n/2 columns on each side.
  - `CrossCorrelation2D` pads the image and hands it to `CorrelatePadded`, which fills a new, zeroed (H, W, C) array in an i / j / k loop. The innermost k loop is `FillPixel`.
  - Each output sample is the sum of the padded patch times the kernel.
  - It is proved equal to `WindowSum`: the kernel centred on the pixel, with every sample outside the image read as 0.
  - Also proved: channels do not interact, and a kernel whose weights sum to 1 reproduces a constant channel away from the borders.
- **Convolution** (`convolution.dfy`, `convolve_2d`).
  - The kernel is flipped on both axes (`np.flip`), then correlated.
  - Proved: flipping is an involution, and a kernel is symmetric exactly when it is its own flip.
  - Convolution is the textbook sum with the kernel index running against the image index.
  - For a symmetric kernel, convolution equals correlation.
- **Frequency filters** (`filters.dfy`, `low_pass`, `high_pass`).
  - Low-pass is correlation with the size × size Gaussian kernel. High-pass is the image minus its low-pass.
  - Proved: high-pass plus low-pass gives back the image.
  - Low-pass is also a true convolution with the Gaussian.
  - Low-pass keeps a constant channel away from the borders.
- **Hybridizer** (`hybrid.dfy`, `create_hybrid_image`).
  - Both mode strings are lower-cased. If the input is 8-bit, both images are divided by 255.
  - Each image goes through the filter its own mode selects: "low" in any letter case gives low-pass, and every other string gives high-pass.
  - The two are mixed as (1 - r)·a + r·b, multiplied by the scale factor and by 255, then clipped to [0, 255] and truncated to 8 bits.
  - `CreateHybridImage` is proved to return exactly `HybridImage`, the `Mix` of the two `Filtered` images, each with the filter its mode string selects.
  - For two solid colours, every byte at least size1 / 2 and size2 / 2 from each border is proved to be the quantised mix of the filtered colours: the colour itself (divided by 255 for 8-bit input) for a low-pass, 0 for a high-pass.
  - The properties of the selector and of the quantisation are proved separately.

Images are values `Grid<real>` of shape (height, width, channels), and
kernels are values `Kernel` of shape (rows, cols). `Sums` gives finite
sums over index functions, with congruence, scaling, positivity and
reversal lemmas.

The docstring of `cross_correlation_2d` also accepts grayscale (H, W)
arrays. The code, however, reads `img.shape[2]` and pads three axes, so a
two-dimensional array raises an error. The model follows the code: every
image has a channel axis.

## Model

| member | source | states |
|---|---|---|
| Grids.Map | Project1_Hybrid_Images/hybrid.py:121-122 | a broadcast scalar operation keeps the shape, and each sample is f of the input sample |
| Grids.Scale | Project1_Hybrid_Images/hybrid.py:134-136 | `img * c` keeps the shape, and each sample is the input sample times c |
| Grids.Add | Project1_Hybrid_Images/hybrid.py:136 | `a + b` of same-shape images: same shape, samples added pointwise |
| Grids.Subtract | Project1_Hybrid_Images/hybrid.py:109 | `a - b` of same-shape images: same shape, samples subtracted pointwise |
| Grids.SubtractThenAdd | Project1_Hybrid_Images/hybrid.py:106-111 | (a - b) + b is a, as an image |
| Correlation.Correlate | Project1_Hybrid_Images/hybrid.py:30-64 | the correlated image has the input's shape, and each sample is the zero-padded window sum centred at (m/2, n/2) |
| Correlation.ZeroPad | Project1_Hybrid_Images/hybrid.py:47-52 | `np.pad` as a value: adds ph rows and pw columns of zeros on each side and does not pad the channel axis; reading the padded image at (x, y) is reading the image at (x - ph, y - pw), as 0 outside it |
| Correlation.PatchSum | Project1_Hybrid_Images/hybrid.py:61-62 | definition of `np.sum(patch * kernel)` for the slice of the padded image at (i, j); PatchSumIsWindowSum, FillPixel and CorrelatePadded rest on it |
| Correlation.PatchSumIsWindowSum | Project1_Hybrid_Images/hybrid.py:61-62 | the sum of the padded slice times the kernel equals the centred window sum over the unpadded image |
| Correlation.FillPixel | Project1_Hybrid_Images/hybrid.py:59-62 | sets every channel of output pixel (i, j) to its patch sum and leaves every other pixel unchanged |
| Correlation.CorrelatePadded | Project1_Hybrid_Images/hybrid.py:54-62 | returns a new array of the given height, width and channels whose every sample is the patch sum of the padded image at that pixel |
| Correlation.CrossCorrelation2D | Project1_Hybrid_Images/hybrid.py:47-64 | returns a new array with the image's height, width and channels, and each sample equals the window sum of the specification |
| Correlation.ChannelIndependence | Project1_Hybrid_Images/hybrid.py:57-62 | output channel k depends only on input channel k |
| Correlation.NormalizedKernelPreservesConstantInterior | Project1_Hybrid_Images/hybrid.py:52-62 | with weights summing to 1, a constant channel c gives c at every pixel at least the pad distance from every border |
| Convolution.Flip | Project1_Hybrid_Images/hybrid.py:79 | the flipped weight at (a, b) is the weight at (m-1-a, n-1-b), with the shape kept |
| Convolution.FlipInvolution | Project1_Hybrid_Images/hybrid.py:79 | flipping twice gives back the kernel |
| Convolution.SymmetricIffFlipFixed | Project1_Hybrid_Images/hybrid.py:79 | a kernel is its own 180-degree rotation exactly when flipping leaves it unchanged |
| Convolution.Convolve | Project1_Hybrid_Images/hybrid.py:79-82 | the convolved image has the input's shape |
| Convolution.ConvolveIsConvolution | Project1_Hybrid_Images/hybrid.py:79-82 | each sample is Σ K[a, b] · img[i - a + m/2, j - b + n/2], the true convolution |
| Convolution.ConvolveSymmetric | Project1_Hybrid_Images/hybrid.py:79-82 | for a symmetric kernel, convolution equals correlation |
| Gaussian.RawWeight | Project1_Hybrid_Images/hybrid.py:26 | definition of the unnormalised weight exp(-((i - height/2)² + (j - width/2)²) / (2σ²)); GaussianKernelPositive, GaussianKernelIsotropic and GaussianKernelSymmetric rest on it |
| Gaussian.RawTotal | Project1_Hybrid_Images/hybrid.py:27 | definition of `np.sum(kernel)` over the raw weights; RawTotalPositive and GaussianKernelSumsToOne rest on it |
| Gaussian.RawTotalPositive | Project1_Hybrid_Images/hybrid.py:26-27 | the sum of the unnormalised weights of a non-empty kernel is positive, so the division is defined |
| Gaussian.GaussianKernel | Project1_Hybrid_Images/hybrid.py:21-28 | the kernel has height rows and width columns |
| Gaussian.GaussianKernelPositive | Project1_Hybrid_Images/hybrid.py:26-27 | every weight is positive |
| Gaussian.GaussianKernelSumsToOne | Project1_Hybrid_Images/hybrid.py:27 | after the normalisation the weights of a non-empty kernel sum to 1 |
| Gaussian.GaussianKernelIsotropic | Project1_Hybrid_Images/hybrid.py:22-26 | two cells at the same squared distance from (height/2, width/2) carry equal weights |
| Gaussian.GaussianKernelSymmetric | Project1_Hybrid_Images/hybrid.py:22-26 | with odd sides, the weight at (i, j) equals the weight at (height-1-i, width-1-j) |
| Gaussian.GaussianBlurKernel2D | Project1_Hybrid_Images/hybrid.py:21-28 | the returned array is new and height × width, and each cell is the normalised Gaussian weight of GaussianKernel |
| Grids.KernelSum | Project1_Hybrid_Images/hybrid.py:27 | definition of `np.sum` over a kernel's weights; GaussianKernelSumsToOne and NormalizedKernelPreservesConstantInterior are stated with it |
| Filters.LowPass | Project1_Hybrid_Images/hybrid.py:94-95 | the low-pass image has the input's shape |
| Filters.HighPass | Project1_Hybrid_Images/hybrid.py:106-111 | the high-pass image has the input's shape |
| Filters.HighPassAt | Project1_Hybrid_Images/hybrid.py:109 | each high-pass sample is the image sample minus the low-pass sample |
| Filters.HighPlusLowIsImage | Project1_Hybrid_Images/hybrid.py:106-111 | high-pass plus low-pass is exactly the input image |
| Filters.LowPassIsConvolution | Project1_Hybrid_Images/hybrid.py:94-95 | with odd size, the correlation-based low-pass equals convolution with the same Gaussian |
| Filters.LowPassPreservesConstantInterior | Project1_Hybrid_Images/hybrid.py:94-95 | a channel constant c stays c under a non-empty low-pass at every pixel at least size/2 from each border |
| Hybrid.LowerChar | Project1_Hybrid_Images/hybrid.py:117-118 | definition of the per-character lower-casing (A-Z to a-z, all else kept); LowerAt and SelectsLowPassIff rest on it |
| Hybrid.Lower | Project1_Hybrid_Images/hybrid.py:117-118 | lower-casing keeps the length of the string |
| Hybrid.LowerAt | Project1_Hybrid_Images/hybrid.py:117-118 | each character is lower-cased on its own, at its own position |
| Hybrid.SelectsLowPass | Project1_Hybrid_Images/hybrid.py:124-132 | definition of the test `high_low == 'low'` after lower-casing; SelectsLowPassIff and CreateHybridImage are stated with it |
| Hybrid.SelectsLowPassIff | Project1_Hybrid_Images/hybrid.py:124-132 | the low-pass is selected exactly for the eight case spellings of "low", and every other string selects the high-pass |
| Hybrid.Normalize | Project1_Hybrid_Images/hybrid.py:120-122 | the normalisation keeps the shape |
| Hybrid.NormalizeSolid | Project1_Hybrid_Images/hybrid.py:120-122 | a channel constant c stays constant under the normalisation: c / 255 for 8-bit input, c otherwise |
| Hybrid.NormalizeRange | Project1_Hybrid_Images/hybrid.py:120-122 | 8-bit samples in [0, 255] map into [0, 1] |
| Hybrid.Filtered | Project1_Hybrid_Images/hybrid.py:120-132 | an image normalised and filtered by the low-pass (flag set) or the high-pass keeps its shape |
| Hybrid.SolidFiltered | Project1_Hybrid_Images/hybrid.py:120-132 | definition of the interior value of a filtered solid colour: the normalised colour for the low-pass, 0 for the high-pass; FilteredSolidColorInterior and HybridOfSolidColorsInterior are stated with it |
| Hybrid.FilteredSolidColorInterior | Project1_Hybrid_Images/hybrid.py:120-132 | a solid colour c under a non-empty filter gives, away from the borders, c (c / 255 for 8-bit input) for the low-pass and 0 for the high-pass |
| Hybrid.Quantize | Project1_Hybrid_Images/hybrid.py:137 | values ≤ 0 give 0, values ≥ 255 give 255, and values in between truncate to the byte b with b ≤ v < b + 1 |
| Hybrid.QuantizeMonotone | Project1_Hybrid_Images/hybrid.py:137 | clipping and truncation keep the order of values |
| Hybrid.QuantizeRoundTrip | Project1_Hybrid_Images/hybrid.py:121-137 | an 8-bit sample divided by 255 and multiplied back quantises to itself |
| Hybrid.QuantizeImage | Project1_Hybrid_Images/hybrid.py:137 | keeps the shape, and quantises every sample |
| Hybrid.WeightedSum | Project1_Hybrid_Images/hybrid.py:134-136 | each sample is f1 · (1 - r) + f2 · r, with the shape kept |
| Hybrid.Blend | Project1_Hybrid_Images/hybrid.py:134-136 | each sample is (f1 · (1 - r) + f2 · r) · scaleFactor, with the shape kept |
| Hybrid.MixSample | Project1_Hybrid_Images/hybrid.py:134-137 | definition of one output byte, the quantisation of ((v1 · (1 - r) + v2 · r) · scaleFactor) · 255; Mix, MixAt and HybridOfSolidColorsInterior are stated with it |
| Hybrid.Mix | Project1_Hybrid_Images/hybrid.py:134-137 | keeps the shape, and each byte is MixSample of the two samples: the quantisation of ((f1 · (1 - r) + f2 · r) · scaleFactor) · 255 |
| Hybrid.MixAt | Project1_Hybrid_Images/hybrid.py:134-137 | a byte of the mix at a pixel where the two images hold v1 and v2 is MixSample(v1, v2) |
| Hybrid.HybridImage | Project1_Hybrid_Images/hybrid.py:113-137 | the hybrid of two same-shape images, each filtered by its own low/high flag, has the inputs' shape |
| Hybrid.CreateHybridImage | Project1_Hybrid_Images/hybrid.py:113-137 | the hybrid has the input shape and is exactly HybridImage: image 1 filtered by the filter its lower-cased mode selects, image 2 by its own, both normalised when 8-bit, then mixed |
| Hybrid.HybridImageAt | Project1_Hybrid_Images/hybrid.py:113-137 | a byte of the hybrid at a pixel where the two filtered images hold v1 and v2 is MixSample(v1, v2) |
| Hybrid.HybridOfSolidColorsInterior | Project1_Hybrid_Images/hybrid.py:113-137 | for two solid colours, every byte at least size1 / 2 and size2 / 2 from each border is MixSample of the two filtered colours, for any ratio, scale factor and pair of filters |

## Left out

- The exponential `np.exp` is a parameter `exp: real -> real`, and only its positivity is assumed. Facts that need its actual values, such as weights decreasing away from the centre, are not proved.
- Floating point is not modelled. Samples are mathematical reals, so float32/float64 rounding, NaN and infinities are out of scope.
- The dtype test `img1.dtype == np.uint8` is a boolean parameter `isUint8`. As in the code, it decides the normalisation of both images.
- Broadcasting between arrays of different shapes is not modelled. `Add` and `Subtract` require equal shapes, and `CreateHybridImage` requires the two images to share a shape.
- Grayscale (H, W) arrays are not modelled, because the code's `img.shape[2]` fails on them.
- Hybrid.Lower: lower-cases ASCII letters only; Python's `str.lower` also maps non-ASCII letters.
- The in-place `*=` on the filtered images is modelled by rebinding to new values. The arrays are fresh, so the difference cannot be observed.
- `kernel / np.sum(kernel)` builds a new array. The model builds one too, without a loop, and takes the sum as `RawTotal`, the total of the raw weights the array then holds.
- The empty kernel (height or width 0) is kept as an empty kernel. The code's 0/0 on an empty sum yields an empty array too, so nothing is lost.
- The filter parameters are preconditions (`ValidFilter`), as the code checks nothing:
  - σ ≠ 0, because the code only divides by 2σ²;
  - a positive `exp`.
- Even kernel sides, which the docstrings exclude, are still modelled as the code computes them: such a window is off-centre by one cell. Only the lemmas that rest on a unique centre cell require odd sides: symmetry, convolution as the textbook sum, and low-pass as a convolution.
- The imports of `sys`, `cv2` and `os` are unused by the core and are not modelled.
- `Grids.Times` is a named product x · c, not a source operation. It lets chains of products be compared term by term.
- `Grids.ByteSample` is a total read of a byte image (0 outside it), not a source operation. It lets a lemma name one byte of the hybrid without repeating the index bounds.
