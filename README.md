# Stereo downscaling: sizes, intrinsics and the camera-parameter file

This project models the arithmetic core of `scripts/downscale_image.py`, a
script that shrinks a left/right stereo image pair and rewrites the pair's
pinhole intrinsic matrix K so that it matches the new image size.

- **Rounding** (`rounding.dfy`): `make_divisible_by_56` and
  `make_divisible_by_224` compute `round(dimension / d) * d`. Python's
  `round` goes to the nearest integer and breaks ties towards the even one.
  The model states that rule on reals (`RoundHalfEven`) and proves it equal
  to an integer rule (`RoundToMultiple`). That rule works on the quotient
  and remainder of `dimension` by `d`.
- **Sizes and K** (`stereo.dfy`, `intrinsics.dfy`): the target side is
  `int(original * target_scale)`, which truncates towards zero. The final
  side is `make_divisible_by_224(target)`. fx and cx are multiplied by the
  achieved ratio `final_w / original_w`, and fy and cy by
  `final_h / original_h`. The other five entries of K are copied. The
  baseline is passed through. `process_stereo_pair` is modelled as a
  function of the two image shapes, the lines of the parameter file, the
  scale and the divisor. It checks that both images were read, then that
  their shapes agree, then loads K, and only then computes anything.
- **Parameter file** (`param_file.dfy`): `load_K_and_baseline` reads the
  lines of the file and splits each on white space. A line with exactly one
  token sets the baseline, and the last such line wins. Every other line,
  empty ones included, adds its values to `k_values`. Fewer than nine values
  is an error; otherwise the first nine, row by row, are K.
  `save_K_and_baseline` writes one line with the nine values of K and then,
  if there is a baseline, a line holding only the baseline. The model covers
  `readlines`, `str.split()` and `' '.join` at the level of characters. It
  proves that loading what was saved succeeds and gives back the baseline
  unchanged, and that each K entry comes back as the value of its
  ten-decimal text. K itself comes back only when the texts of its nine
  entries read back exactly.

`float()` parsing and the two float-to-text conversions (`f"{v:.10f}"` for
K, `f"{baseline}"` for the baseline) are parameters of the model:
`parse: string -> Option<real>` (None where Python raises `ValueError`),
`fixed10` and `show`. The round-trip lemmas state what they assume of them:
the texts are single tokens, `parse` reads every `fixed10` text, and `parse`
reads the `show` text of the baseline being saved back exactly (Python's
`repr` of a float round-trips). Exactness is assumed of that one value, not
of every real. K's values are reals; IEEE rounding is not modelled.

The code and its documentation disagree about `divisor`. The docstring,
the `--divisor` help text and the "divisible by {divisor}" message all say
the final size is a multiple of `divisor`. The code always rounds to a
multiple of 224 and uses `divisor` only in messages. One of those messages
prints `final_h // divisor`, so `--divisor 0` raises `ZeroDivisionError`
before anything is resized or saved. The model returns `ZeroDivision` then.
The model of
`process_stereo_pair` follows the code. The documented rule is modelled
beside it (`Stereo.FinalSizeFor`), and the two are proved equal when
`divisor` is 224, the default. For the same reason, scale 1 with divisor 1
does not keep the size, as the documented rule would. The identity the code
does have is for sides that are already multiples of 224
(`Stereo.RescaleIdentity`).

## Model

| member | source | states |
|---|---|---|
| `Rounding.RoundHalfEven` | scripts/downscale_image.py:49 | Python's `round(x)`: the result is within 1/2 of `x`, and at distance exactly 1/2 it is even |
| `Rounding.RoundHalfEvenUnique` | scripts/downscale_image.py:53 | those two properties determine the rounded value: any integer with both is `RoundHalfEven(x)` |
| `Rounding.RoundToMultiple` | scripts/downscale_image.py:51-53 | the result is a multiple of `d` within `d/2` of `n`; at distance exactly `d/2` its quotient is even |
| `Rounding.NearestMultiple` | scripts/downscale_image.py:51-53 | no multiple of `d` is nearer to `n`; unless `n` is a tie, every other multiple is strictly farther |
| `Rounding.RoundQuotient` | scripts/downscale_image.py:49-53 | `round(n / d) * d` computed on reals equals the integer rule `RoundToMultiple(n, d)`, for every integer `n`, negative ones included |
| `Rounding.MakeDivisibleBy56` | scripts/downscale_image.py:47-49 | `make_divisible_by_56` always returns a multiple of 56 |
| `Rounding.MakeDivisibleBy224` | scripts/downscale_image.py:51-53 | `make_divisible_by_224` always returns a multiple of 224 |
| `Rounding.DivisibleBy56IsNearest` | scripts/downscale_image.py:47-49 | `make_divisible_by_56` is the nearest multiple of 56, ties to the even quotient |
| `Rounding.DivisibleBy224IsNearest` | scripts/downscale_image.py:51-53 | `make_divisible_by_224` is the nearest multiple of 224, ties to the even quotient |
| `Rounding.TiesGoToEven` | scripts/downscale_image.py:47-53 | the ties go to the even quotient: 112 goes to 0 and 336 to 448 for 224; 28 goes to 0 and 84 to 112 for 56 |
| `Rounding.RoundMultipleFixed` | scripts/downscale_image.py:51-53 | a value that is already a multiple of `d` is returned unchanged |
| `Rounding.DivisibleBy224IsZero` | scripts/downscale_image.py:51-53 | `make_divisible_by_224` returns 0 exactly for the dimensions from -112 to 112 |
| `Intrinsics.Scaled` | scripts/downscale_image.py:116-120 | fx and cx are multiplied by the width ratio and fy and cy by the height ratio; the other five entries are those of the input |
| `Intrinsics.ScaledByOne` | scripts/downscale_image.py:116-120 | ratios of 1 leave K unchanged |
| `Intrinsics.ScaledTwice` | scripts/downscale_image.py:116-120 | two updates in a row equal one update by the products of the ratios |
| `Intrinsics.UpdateIntrinsics` | scripts/downscale_image.py:115-120 | `K.copy()` and then four in-place `*=` give a fresh array whose entries are `Scaled` of the input's; the input array is not written |
| `ParamFile.Split` | scripts/downscale_image.py:22 | `line.strip().split()` yields only non-empty tokens free of white space |
| `ParamFile.Join` | scripts/downscale_image.py:42 | `' '.join` of words is text with no line break whose only white space is the `' '` separators, so the K line stays one line |
| `ParamFile.SplitJoin` | scripts/downscale_image.py:22-42 | splitting what `' '.join` wrote, followed by any white space such as the `'\n'`, gives back the tokens joined |
| `ParamFile.ReadLines` | scripts/downscale_image.py:14-15 | `readlines()`: the lines put together are the text, none is empty, every line but the last ends with `'\n'`, and no line holds a `'\n'` before its end |
| `ParamFile.ParseAll` | scripts/downscale_image.py:25-27 | `[float(v) for v in values]` succeeds exactly when every token parses, keeping order and length; otherwise the error names the first token that does not parse |
| `ParamFile.ScanLine` | scripts/downscale_image.py:22-27 | one pass of the loop body: it fails exactly when some token of the line does not parse, with `NotANumber` of a token of that line; a one-token line replaces the baseline by its value and keeps `k_values`; any other line keeps the baseline and appends the line's values, in order, to `k_values` |
| `ParamFile.Scan` | scripts/downscale_image.py:21-27 | the loop over all lines only ever raises `NotANumber`, for a token of one of the lines; the format error comes from the length check after the loop (`ScanMeaning` gives the full meaning) |
| `ParamFile.BaselineTokenMeaning` | scripts/downscale_image.py:21-25 | there is a baseline token exactly when some line holds one token, and it is the token of a one-token line after which no line holds exactly one |
| `ParamFile.ScanMeaning` | scripts/downscale_image.py:21-27 | the loop fails exactly when some token of the file does not parse, naming the first; otherwise `k_values` is the values of all tokens of the lines that do not hold exactly one, in order, and the baseline is the value of the last one-token line |
| `ParamFile.Reshape` | scripts/downscale_image.py:30-31 | nine values become a 3 by 3 matrix row by row: entry (i, j) is value `3*i + j` |
| `ParamFile.Load` | scripts/downscale_image.py:12-35 | a successful load gives a 3 by 3 K |
| `ParamFile.LoadMeaning` | scripts/downscale_image.py:21-35 | loading succeeds exactly when every token parses and at least nine values belong to K; K holds the first nine row by row and extra values are ignored; fewer than nine raises the format error; the baseline is the last one-token line's value or None |
| `ParamFile.LoadKAndBaseline` | scripts/downscale_image.py:12-35 | the loop that extends `k_values` and reassigns `baseline`, with its early exit on a token that does not parse, returns exactly `Load` |
| `ParamFile.Flatten` | scripts/downscale_image.py:41 | `K.flatten()` of a 3 by 3 K has nine values, entry (i, j) at position `3*i + j` |
| `ParamFile.ReshapeFlatten` | scripts/downscale_image.py:31-41 | reshaping the flattened K gives K back |
| `ParamFile.FormatAll` | scripts/downscale_image.py:42 | formatting keeps the number and order of the values |
| `ParamFile.SaveText` | scripts/downscale_image.py:37-45 | the text written ends with `'\n'`; `SavedLines` and `SaveLayout` give its lines |
| `ParamFile.SavedLines` | scripts/downscale_image.py:37-45 | the saved text reads back as the joined line of K and, when there is a baseline, the baseline's line, and no other line |
| `ParamFile.SaveLayout` | scripts/downscale_image.py:37-45 | the file has one line of nine tokens, then one single-token line holding the baseline if and only if there is a baseline |
| `ParamFile.SaveLoadRoundTrip` | scripts/downscale_image.py:21-45 | loading what was saved succeeds; each K entry comes back as the value of its ten-decimal text, and the baseline (or its absence) comes back unchanged when `float()` reads its text back exactly |
| `ParamFile.SaveLoadExact` | scripts/downscale_image.py:21-45 | when the ten-decimal texts of K's nine entries read back exactly (as for K = [[1000,0,960],[0,1000,540],[0,0,1]]), loading what was saved gives K and the baseline back |
| `Stereo.Truncate` | scripts/downscale_image.py:91-92 | `int()` of a float truncates towards zero: the result is the integer part, below or above `x` by less than 1 by sign |
| `Stereo.TargetSize` | scripts/downscale_image.py:91-92 | `int(original * target_scale)`: for a non-negative scale the integer part of the product; a scale from 0 to 1 never enlarges the side, and scale 1 keeps it |
| `Stereo.FinalSize` | scripts/downscale_image.py:91-96 | the final side is a multiple of 224 within 112 of the target, with the even quotient at a tie (target 336 gives 448), whatever `divisor` is |
| `Stereo.FinalSizeZero` | scripts/downscale_image.py:91-96 | the final side is 0 exactly when the truncated target is between -112 and 112; nothing guards against it |
| `Stereo.DivisorNotHonoured` | scripts/downscale_image.py:95-102 | with divisor 100, 1920 at scale 0.5 becomes 896, not a multiple of 100; with divisor 1 and scale 1, 1920 becomes 2016 |
| `Stereo.FinalSizeFor` | scripts/downscale_image.py:56-68 | the documented rule: the final side is a multiple of `divisor` within `divisor/2` of the target |
| `Stereo.FinalSizeForDefault` | scripts/downscale_image.py:95-96 | with the default divisor 224 the documented rule and the code agree |
| `Stereo.FinalSizeForIdentity` | scripts/downscale_image.py:56-68 | under the documented rule, divisor 1 and scale 1 keep the size |
| `Stereo.Rescale` | scripts/downscale_image.py:90-120 | both final sides are `FinalSize` of the originals (multiples of 224 within 112 of their targets, ties to the even quotient); fx and cx are scaled by the achieved width ratio and fy and cy by the achieved height ratio; the other entries are unchanged; it fails with a division by zero exactly when `divisor` is 0 (the `final // divisor` report) or an original side is 0 |
| `Stereo.RescaleIdentity` | scripts/downscale_image.py:90-120 | with a non-zero divisor, sides that are positive multiples of 224 at scale 1 stay the same, and K stays the same |
| `Stereo.RescaleIdempotent` | scripts/downscale_image.py:90-120 | with a non-zero divisor, running again at scale 1 on the output sizes and K reproduces that output |
| `Stereo.RescaleExample` | scripts/downscale_image.py:90-120 | 1920 by 1080 at scale 0.5 gives 896 by 448, with K scaled by the different ratios 7/15 and 56/135 |
| `Stereo.ProcessStereoPair` | scripts/downscale_image.py:74-141 | an unread image is an error; different shapes are a size-mismatch error whatever the parameter file holds, so nothing is loaded, computed or written; with equal shapes a load error is returned as `BadParams` of that error, and with a loadable file the run succeeds exactly when `divisor` is not 0 and both sides are positive, the only other outcome being the division by zero; on success the shapes agree, the load succeeded, the baseline is the loaded one unchanged, the sides are multiples of 224, and sizes and K are those of `Rescale` |
| `Stereo.BaselineSurvivesSave` | scripts/downscale_image.py:125-141 | with a non-zero divisor, readable equal non-empty images and a loadable file, the run succeeds, and the baseline in the file it writes reads back as the baseline that was loaded, provided `float()` reads that baseline's text back exactly |

## Left out

- Reading and writing the images with OpenCV, and the area-averaging resize: these are library calls. The model keeps only the image shapes, and `None` for an image that could not be read.
- What OpenCV does when asked for any final side of 0 or below: a single zero side (1920 by 200 at scale 0.5 gives 896 by 0) and a negative `--scale` (negative sides, K scaled by negative ratios) both reach `cv2.resize` unguarded. The model returns `Success` for them, as the code goes on with them, and `Stereo.FinalSizeZero` says when a side is 0.
- Opening, reading and writing files, creating directories, and every `print`.
- Newline translation when reading: the model's `ReadLines` works on text whose line ends are already `'\n'`.
- Argument parsing, the checks in `main` that the input paths exist, and the output paths built from `Path.stem` and `Path.suffix`.
- `float()` parsing and the `:.10f` and `str()` float formatting: these are parameters of the model, as the introduction describes.
- IEEE floating point: the products and quotients of K, `original * target_scale` and `dimension / 224` are exact reals in the model. For very large dimensions the floating-point quotient could round differently.
- A `--scale` of `nan` or `inf`: `argparse` accepts it as a float, and `int(original_w * target_scale)` then raises `ValueError` or `OverflowError`. The model's scale is a real number, so it cannot express these values or the errors they raise.
- `Stereo.ProcessStereoPair`: returns the final sizes, the new K and the baseline. The resized images and the saved file are not part of its result; `Stereo.BaselineSurvivesSave` covers the saved file.
- `scripts/make_tensorrt.py` and `scripts/build_engine_minimal.py`: these are calls into a vendor model compiler. Their only local logic is replacing the dynamic dimension -1 with 1.

## Findings

| source | as written | input that shows it | evidently intended | confidence | as-written member | corrected member |
|---|---|---|---|---|---|---|
| scripts/downscale_image.py:95-96 | the final size is `make_divisible_by_224(target)` and `divisor` is used only in messages, one of which divides by it (so divisor 0 raises) | `--divisor 100`, width 1920, scale 0.5: the final width is 896, not a multiple of 100 | the nearest multiple of `divisor`, as the docstring, the `--divisor` help and the printed message say | not executed | `Stereo.DivisorNotHonoured` | `Stereo.FinalSizeFor` |

The model of `process_stereo_pair` keeps the code's behaviour on purpose. With the default divisor the two rules coincide (`Stereo.FinalSizeForDefault`).
