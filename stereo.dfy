/**
 * The arithmetic of `process_stereo_pair`: the target size, the final size
 * rounded to a multiple of 224, the ratios actually achieved and the
 * updated intrinsics, with the checks the function makes before any of it.
 */
module Stereo {
  import opened Wrappers
  import opened Rounding
  import opened Intrinsics
  import opened ParamFile

  /** Python's `int(x)` on a float: truncation towards zero. */
  function Truncate(x: real): (r: int)
    ensures 0.0 <= x ==> r as real <= x < r as real + 1.0
    ensures x < 0.0 ==> r as real - 1.0 < x <= r as real
  {
    if x >= 0.0 then x.Floor else -((-x).Floor)
  }

  /** `target = int(original * target_scale)`. */
  function TargetSize(original: nat, targetScale: real): (r: int)
    ensures 0.0 <= targetScale <= 1.0 ==> 0 <= r <= original
    ensures targetScale == 1.0 ==> r == original
    ensures 0.0 <= targetScale ==> r as real <= original as real * targetScale < r as real + 1.0
  {
    var x := original as real * targetScale;
    assert 0.0 <= targetScale ==> 0.0 <= x;
    assert 0.0 <= targetScale <= 1.0 ==> x <= original as real;
    Truncate(x)
  }

  /**
   * The final size as the code computes it: `make_divisible_by_224(target)`.
   * The `divisor` argument takes no part.
   */
  function FinalSize(original: nat, targetScale: real, divisor: int): (r: int)
    ensures r % 224 == 0
    ensures 2 * Abs(r - TargetSize(original, targetScale)) <= 224
    ensures 2 * Abs(r - TargetSize(original, targetScale)) == 224 ==> (r / 224) % 2 == 0
  {
    var target := TargetSize(original, targetScale);
    DivisibleBy224IsNearest(target);
    MakeDivisibleBy224(target)
  }

  /** The final size is 0, and nothing stops it, whenever the target lies within 112 of 0. */
  lemma FinalSizeZero(original: nat, targetScale: real, divisor: int)
    ensures FinalSize(original, targetScale, divisor) == 0 <==>
            -112 <= TargetSize(original, targetScale) <= 112
  {
    DivisibleBy224IsZero(TargetSize(original, targetScale));
  }

  /**
   * Whatever `divisor` is asked for, the final size need not be a multiple
   * of it: with divisor 100 a 1920 pixel side at scale 0.5 becomes 896,
   * and with divisor 1 and scale 1 it becomes 2016 rather than staying 1920.
   */
  lemma DivisorNotHonoured()
    ensures FinalSize(1920, 0.5, 100) == 896 && 896 % 100 != 0
    ensures FinalSize(1920, 1.0, 1) == 2016
  {
    assert TargetSize(1920, 0.5) == 960;
    DivisibleBy224IsNearest(960);
    assert RoundedQuotient(960, 224) == 4;
    assert TargetSize(1920, 1.0) == 1920;
    DivisibleBy224IsNearest(1920);
    assert RoundedQuotient(1920, 224) == 9;
  }

  /** The final size the parameter's documentation promises: the nearest multiple of `divisor`. */
  function FinalSizeFor(original: nat, targetScale: real, divisor: int): (r: int)
    requires divisor > 0
    ensures r % divisor == 0
    ensures 2 * Abs(r - TargetSize(original, targetScale)) <= divisor
  {
    RoundToMultiple(TargetSize(original, targetScale), divisor)
  }

  /** With the default divisor the code and the documented rule agree. */
  lemma FinalSizeForDefault(original: nat, targetScale: real)
    ensures FinalSizeFor(original, targetScale, 224) == FinalSize(original, targetScale, 224)
  {
    DivisibleBy224IsNearest(TargetSize(original, targetScale));
  }

  /** With divisor 1 and scale 1 the documented rule keeps the size. */
  lemma FinalSizeForIdentity(original: nat)
    ensures FinalSizeFor(original, 1.0, 1) == original
  {
    assert TargetSize(original, 1.0) == original;
    RoundMultipleFixed(original, 1);
  }

  datatype StereoError =
    | UnreadableImage                        // `cv2.imread` returned None
    | SizeMismatch(left: Shape, right: Shape)
    | BadParams(cause: LoadError)            // raised by `load_K_and_baseline`
    | ZeroDivision                           // `final // divisor` with divisor 0, or `final / original` with a side of 0

  /** `img.shape`: height, width and any further axes such as channels. */
  datatype Shape = Shape(height: nat, width: nat, channels: seq<nat>)

  datatype Rescaled = Rescaled(finalW: int, finalH: int, k: Matrix)

  /**
   * The final size and K after the update: fx and cx follow the achieved
   * width ratio `final_w / original_w`, fy and cy the achieved height
   * ratio, the other entries stay. The size report `final // divisor`
   * comes first and divides by zero when `divisor` is 0.
   */
  function Rescale(originalW: nat, originalH: nat, k: Matrix, targetScale: real, divisor: int)
    : (r: Result<Rescaled, StereoError>)
    requires Is3x3(k)
    ensures r.Failure? <==> divisor == 0 || originalW == 0 || originalH == 0
    ensures r.Failure? ==> r.error == ZeroDivision
    ensures r.Success? ==>
              var s := r.value;
              var sw, sh := s.finalW as real / originalW as real, s.finalH as real / originalH as real;
              && s.finalW == FinalSize(originalW, targetScale, divisor)
              && s.finalH == FinalSize(originalH, targetScale, divisor)
              && s.finalW % 224 == 0 && s.finalH % 224 == 0
              && 2 * Abs(s.finalW - TargetSize(originalW, targetScale)) <= 224
              && 2 * Abs(s.finalH - TargetSize(originalH, targetScale)) <= 224
              && Is3x3(s.k)
              && s.k[0][0] == k[0][0] * sw && s.k[0][2] == k[0][2] * sw
              && s.k[1][1] == k[1][1] * sh && s.k[1][2] == k[1][2] * sh
              && forall i, j :: 0 <= i < 3 && 0 <= j < 3 && !IsScaledEntry(i, j) ==> s.k[i][j] == k[i][j]
  {
    var finalW := FinalSize(originalW, targetScale, divisor);
    var finalH := FinalSize(originalH, targetScale, divisor);
    if divisor == 0 then
      Failure(ZeroDivision)
    else if originalW == 0 || originalH == 0 then
      Failure(ZeroDivision)
    else
      var actualW := finalW as real / originalW as real;
      var actualH := finalH as real / originalH as real;
      Success(Rescaled(finalW, finalH, Scaled(k, actualW, actualH)))
  }

  /** Sides that are already multiples of 224, at scale 1, come out unchanged, and so does K. */
  lemma RescaleIdentity(originalW: nat, originalH: nat, k: Matrix, divisor: int)
    requires Is3x3(k)
    requires divisor != 0
    requires originalW > 0 && originalH > 0
    requires originalW % 224 == 0 && originalH % 224 == 0
    ensures Rescale(originalW, originalH, k, 1.0, divisor) == Success(Rescaled(originalW, originalH, k))
  {
    assert TargetSize(originalW, 1.0) == originalW;
    assert TargetSize(originalH, 1.0) == originalH;
    DivisibleBy224IsNearest(originalW);
    DivisibleBy224IsNearest(originalH);
    RoundMultipleFixed(originalW, 224);
    RoundMultipleFixed(originalH, 224);
    assert originalW as real / originalW as real == 1.0;
    assert originalH as real / originalH as real == 1.0;
    ScaledByOne(k);
  }

  /** Running the rescale again at scale 1 on its own output changes nothing. */
  lemma RescaleIdempotent(originalW: nat, originalH: nat, k: Matrix, targetScale: real, divisor: int)
    requires Is3x3(k)
    requires divisor != 0
    requires originalW > 0 && originalH > 0
    requires FinalSize(originalW, targetScale, divisor) > 0 && FinalSize(originalH, targetScale, divisor) > 0
    ensures var s := Rescale(originalW, originalH, k, targetScale, divisor).value;
            Rescale(s.finalW, s.finalH, s.k, 1.0, divisor) == Success(s)
  {
    var s := Rescale(originalW, originalH, k, targetScale, divisor).value;
    RescaleIdentity(s.finalW, s.finalH, s.k, divisor);
  }

  /**
   * A 1920 by 1080 pair at scale 0.5 becomes 896 by 448, and with fx = fy =
   * 1000, cx = 960, cy = 540 the updated K uses the two different achieved
   * ratios 896/1920 and 448/1080.
   */
  lemma RescaleExample()
    ensures var k := [[1000.0, 0.0, 960.0], [0.0, 1000.0, 540.0], [0.0, 0.0, 1.0]];
            Rescale(1920, 1080, k, 0.5, 224) ==
            Success(Rescaled(896, 448, [[1400.0 / 3.0, 0.0, 448.0], [0.0, 11200.0 / 27.0, 224.0], [0.0, 0.0, 1.0]]))
  {
    assert TargetSize(1920, 0.5) == 960;
    assert TargetSize(1080, 0.5) == 540;
    DivisibleBy224IsNearest(960);
    DivisibleBy224IsNearest(540);
    assert RoundedQuotient(960, 224) == 4;
    assert RoundedQuotient(540, 224) == 2;
    var k := [[1000.0, 0.0, 960.0], [0.0, 1000.0, 540.0], [0.0, 0.0, 1.0]];
    var sw, sh := 896 as real / 1920 as real, 448 as real / 1080 as real;
    assert sw == 7.0 / 15.0 && sh == 56.0 / 135.0;
    assert Rescale(1920, 1080, k, 0.5, 224) == Success(Rescaled(896, 448, Scaled(k, sw, sh)));
    var m := Scaled(k, sw, sh);
    assert m[0] == [1400.0 / 3.0, 0.0, 448.0];
    assert m[1] == [0.0, 11200.0 / 27.0, 224.0];
    assert m[2] == [0.0, 0.0, 1.0];
    assert m == [[1400.0 / 3.0, 0.0, 448.0], [0.0, 11200.0 / 27.0, 224.0], [0.0, 0.0, 1.0]];
  }

  datatype StereoResult = StereoResult(finalW: int, finalH: int, k: Matrix, baseline: Option<real>)

  /**
   * `process_stereo_pair` with the images reduced to their shapes and the
   * parameter file to its lines: both images must have been read and have
   * the same shape, then the parameters are loaded, then the rescale runs.
   */
  function ProcessStereoPair(left: Option<Shape>, right: Option<Shape>, kLines: seq<string>,
                             parse: Parser, targetScale: real, divisor: int)
    : (r: Result<StereoResult, StereoError>)
    ensures left.None? || right.None? <==> r == Failure(UnreadableImage)
    ensures left.Some? && right.Some? && left.value != right.value ==>
              r == Failure(SizeMismatch(left.value, right.value))
    ensures left.Some? && left == right && Load(kLines, parse).Failure? ==>
              r == Failure(BadParams(Load(kLines, parse).error))
    ensures left.Some? && left == right && Load(kLines, parse).Success? ==>
              (r.Success? <==> divisor != 0 && left.value.width > 0 && left.value.height > 0)
    ensures left.Some? && left == right && Load(kLines, parse).Success? && r.Failure? ==>
              r == Failure(ZeroDivision)
    ensures r.Success? ==>
              && left.Some? && left == right
              && Load(kLines, parse).Success?
              && r.value.baseline == Load(kLines, parse).value.baseline
              && r.value.finalW % 224 == 0 && r.value.finalH % 224 == 0
              && Rescale(left.value.width, left.value.height, Load(kLines, parse).value.k, targetScale, divisor)
                 == Success(Rescaled(r.value.finalW, r.value.finalH, r.value.k))
  {
    if left.None? || right.None? then
      Failure(UnreadableImage)
    else if left.value != right.value then
      Failure(SizeMismatch(left.value, right.value))
    else
      match Load(kLines, parse)
      case Failure(e) => Failure(BadParams(e))
      case Success(p) =>
        var s :- Rescale(left.value.width, left.value.height, p.k, targetScale, divisor);
        Success(StereoResult(s.finalW, s.finalH, s.k, p.baseline))
  }

  /**
   * The baseline `process_stereo_pair` saves reads back unchanged from the
   * file it writes, whichever way K's ten-decimal texts round.
   */
  lemma BaselineSurvivesSave(left: Option<Shape>, right: Option<Shape>, kLines: seq<string>,
                             parse: Parser, targetScale: real, divisor: int,
                             fixed10: Formatter, show: Formatter)
    requires forall v :: IsToken(fixed10(v)) && parse(fixed10(v)).Some?
    requires forall v :: IsToken(show(v))
    requires divisor != 0
    requires left.Some? && left == right && left.value.width > 0 && left.value.height > 0
    requires Load(kLines, parse).Success?
    requires var b := Load(kLines, parse).value.baseline; b.Some? ==> parse(show(b.value)) == b
    ensures var out := ProcessStereoPair(left, right, kLines, parse, targetScale, divisor).value;
            var saved := Load(ReadLines(SaveText(out.k, out.baseline, fixed10, show)), parse);
            saved.Success? && saved.value.baseline == Load(kLines, parse).value.baseline
  {
    var out := ProcessStereoPair(left, right, kLines, parse, targetScale, divisor).value;
    SaveLoadRoundTrip(out.k, out.baseline, fixed10, show, parse);
  }
}
