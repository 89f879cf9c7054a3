/**
 * Preview-size negotiation: `chooseOptimalSize`, the display bound it is
 * given, and the per-camera part of `setUpCameraOutputs` that picks the
 * largest JPEG size and the preview size.
 */
module SizeNegotiation {
  import opened JavaLang
  import opened Sizes

  /** The preview is never larger than the 480 x 480 display of the target device. */
  const MAX_PREVIEW_WIDTH: Int32 := 480
  const MAX_PREVIEW_HEIGHT: Int32 := 480

  /** An `android.graphics.Point`: here, the size of the default display. */
  datatype Point = Point(x: Int32, y: Int32)

  /** The arguments of `chooseOptimalSize` other than the list of choices. */
  datatype Constraints = Constraints(
    textureViewWidth: Int32,
    textureViewHeight: Int32,
    maxWidth: Int32,
    maxHeight: Int32,
    aspectRatio: Size)

  /** The bound handed to `chooseOptimalSize`: the display size, each side capped at 480. */
  function MaxPreviewBound(display: Point): (b: Size)
    ensures b.width <= MAX_PREVIEW_WIDTH && b.width <= display.x
    ensures b.width == display.x || b.width == MAX_PREVIEW_WIDTH
    ensures b.height <= MAX_PREVIEW_HEIGHT && b.height <= display.y
    ensures b.height == display.y || b.height == MAX_PREVIEW_HEIGHT
  {
    var maxPreviewWidth := if display.x > MAX_PREVIEW_WIDTH then MAX_PREVIEW_WIDTH else display.x;
    var maxPreviewHeight := if display.y > MAX_PREVIEW_HEIGHT then MAX_PREVIEW_HEIGHT else display.y;
    Size(maxPreviewWidth, maxPreviewHeight)
  }

  predicate WithinBound(o: Size, c: Constraints)
  {
    o.width <= c.maxWidth && o.height <= c.maxHeight
  }

  /** The aspect test as the code writes it: `height == width * h / w`, in `int` arithmetic. */
  predicate MatchesRatio(o: Size, ratio: Size)
    requires ratio.width != 0
  {
    o.height == DivInt(MulInt(o.width, ratio.height), ratio.width)
  }

  /**
   * A choice survives the filter when it is within the bound and passes the
   * aspect test (which is evaluated only for choices within the bound).
   */
  predicate Accepted(o: Size, c: Constraints)
  {
    WithinBound(o, c) && c.aspectRatio.width != 0 && MatchesRatio(o, c.aspectRatio)
  }

  /** At least as large as the texture view in both dimensions. */
  predicate BigEnough(o: Size, c: Constraints)
  {
    o.width >= c.textureViewWidth && o.height >= c.textureViewHeight
  }

  /** Whether the loop of `chooseOptimalSize` adds `o` to `bigEnough` (when `big`) or to `notBigEnough`. */
  predicate Kept(o: Size, c: Constraints, big: bool)
  {
    Accepted(o, c) && BigEnough(o, c) == big
  }

  /** `Kept` as a function value, so that the generic lemmas about `Filter` apply to it. */
  function Keep(c: Constraints, big: bool): Size -> bool
  {
    o => Kept(o, c, big)
  }

  /** The elements of `s` that `keep` holds of, in their order in `s`. */
  function Filter(s: seq<Size>, keep: Size -> bool): (r: seq<Size>)
    ensures forall x :: x in r <==> x in s && keep(x)
  {
    if s == [] then []
    else
      var last := s[|s| - 1];
      assert forall x :: x in s <==> x in s[..|s| - 1] || x == last;
      Filter(s[..|s| - 1], keep) + (if keep(last) then [last] else [])
  }

  /**
   * The list `bigEnough` (when `big`) or `notBigEnough` (otherwise) that the
   * loop of `chooseOptimalSize` has built after visiting `s`.
   */
  function Sift(s: seq<Size>, c: Constraints, big: bool): (r: seq<Size>)
    ensures forall x :: x in r <==> x in s && Kept(x, c, big)
  {
    Filter(s, Keep(c, big))
  }

  /** Nothing is filtered out of a list none of whose elements qualifies. */
  lemma {:induction false} FilterEmpty(s: seq<Size>, keep: Size -> bool)
    requires forall x :: x in s ==> !keep(x)
    ensures Filter(s, keep) == []
  {
    if s != [] {
      FilterEmpty(s[..|s| - 1], keep);
    }
  }

  /**
   * What `chooseOptimalSize(choices, ...)` returns or throws: the smallest
   * accepted choice that is big enough; failing that, the largest accepted
   * one; failing that, `choices[0]`. A zero aspect width makes the first
   * in-bound choice divide by zero.
   */
  function OptimalSize(choices: seq<Size>, c: Constraints): (r: Result<Size>)
    ensures r.Ok? ==> r.value in choices
  {
    if c.aspectRatio.width == 0 && exists o :: o in choices && WithinBound(o, c) then
      Err(ArithmeticException)
    else
      var bigEnough := Sift(choices, c, true);
      var notBigEnough := Sift(choices, c, false);
      if |bigEnough| > 0 then Ok(MinByArea(bigEnough))
      else if |notBigEnough| > 0 then Ok(MaxByArea(notBigEnough))
      else if |choices| > 0 then Ok(choices[0])
      else Err(ArrayIndexOutOfBounds)
  }

  /**
   * The filtered list of `s` extends that of `s` without its last element,
   * by the last element when it is kept: `n` is the length of the shorter one.
   */
  lemma FilterPrefix(s: seq<Size>, keep: Size -> bool) returns (n: nat)
    requires |s| > 0
    ensures n == |Filter(s[..|s| - 1], keep)| <= |Filter(s, keep)|
    ensures Filter(s, keep)[..n] == Filter(s[..|s| - 1], keep)
    ensures forall i :: n <= i < |Filter(s, keep)| ==> Filter(s, keep)[i] == s[|s| - 1]
  {
    n := |Filter(s[..|s| - 1], keep)|;
    assert Filter(s, keep)[..n] == Filter(s[..|s| - 1], keep);
  }

  /** An element kept before the last one of `s` sits in the filtered list before the last one's place. */
  lemma FilteredBeforeLast(s: seq<Size>, keep: Size -> bool, j: int) returns (idx: int)
    requires 0 <= j < |s| - 1 && keep(s[j])
    ensures 0 <= idx < |Filter(s[..|s| - 1], keep)| && Filter(s, keep)[idx] == s[j]
  {
    var p := s[..|s| - 1];
    var rp := Filter(p, keep);
    assert s[j] == p[j];
    idx :| 0 <= idx < |rp| && rp[idx] == s[j];
    assert Filter(s, keep)[..|rp|] == rp;
  }

  /** Filtering keeps order: a first minimal element of a filtered list is first among the kept elements. */
  lemma {:induction false} FilterKeepsFirstMinimal(s: seq<Size>, keep: Size -> bool, m: Size, i: int)
    returns (k: int)
    requires FirstMinimalAt(Filter(s, keep), m, i)
    ensures 0 <= k < |s| && s[k] == m
    ensures forall j :: 0 <= j < k && keep(s[j]) ==> Area(m) < Area(s[j])
  {
    var p := s[..|s| - 1];
    var n := FilterPrefix(s, keep);
    if i < n {
      FirstMinimalAtInPrefix(Filter(s, keep), n, m, i);
      k := FilterKeepsFirstMinimal(p, keep, m, i);
      assert p[k] == s[k];
      forall j | 0 <= j < k && keep(s[j]) ensures Area(m) < Area(s[j]) {
        assert s[j] == p[j];
      }
    } else {
      k := |s| - 1;
      forall j | 0 <= j < k && keep(s[j]) ensures Area(m) < Area(s[j]) {
        var idx := FilteredBeforeLast(s, keep, j);
      }
    }
  }

  /** Filtering keeps order: a first maximal element of a filtered list is first among the kept elements. */
  lemma {:induction false} FilterKeepsFirstMaximal(s: seq<Size>, keep: Size -> bool, m: Size, i: int)
    returns (k: int)
    requires FirstMaximalAt(Filter(s, keep), m, i)
    ensures 0 <= k < |s| && s[k] == m
    ensures forall j :: 0 <= j < k && keep(s[j]) ==> Area(s[j]) < Area(m)
  {
    var p := s[..|s| - 1];
    var n := FilterPrefix(s, keep);
    if i < n {
      FirstMaximalAtInPrefix(Filter(s, keep), n, m, i);
      k := FilterKeepsFirstMaximal(p, keep, m, i);
      assert p[k] == s[k];
      forall j | 0 <= j < k && keep(s[j]) ensures Area(s[j]) < Area(m) {
        assert s[j] == p[j];
      }
    } else {
      k := |s| - 1;
      forall j | 0 <= j < k && keep(s[j]) ensures Area(s[j]) < Area(m) {
        var idx := FilteredBeforeLast(s, keep, j);
      }
    }
  }

  /**
   * When some choice is within the bound, has the aspect ratio and is big
   * enough, the result is such a choice of least area, and the first one
   * in `choices` when several share that area.
   */
  lemma OptimalSizeSmallestBigEnough(choices: seq<Size>, c: Constraints)
    requires exists o :: o in choices && Accepted(o, c) && BigEnough(o, c)
    ensures OptimalSize(choices, c).Ok?
    ensures var m := OptimalSize(choices, c).value;
      && Accepted(m, c) && BigEnough(m, c)
      && (forall o :: o in choices && Accepted(o, c) && BigEnough(o, c) ==> Area(m) <= Area(o))
      && (exists k :: 0 <= k < |choices| && choices[k] == m &&
            forall j :: 0 <= j < k && Accepted(choices[j], c) && BigEnough(choices[j], c) ==> Area(m) < Area(choices[j]))
  {
    var bigEnough := Sift(choices, c, true);
    var o :| o in choices && Accepted(o, c) && BigEnough(o, c);
    assert o in bigEnough;
    var m := MinByArea(bigEnough);
    assert OptimalSize(choices, c) == Ok(m);
    var i := MinByAreaIsFirst(bigEnough);
    var k := FilterKeepsFirstMinimal(choices, Keep(c, true), m, i);
  }

  /**
   * When no accepted choice is big enough but some choice is accepted, the
   * result is an accepted choice of greatest area, the first such in `choices`.
   */
  lemma OptimalSizeLargestNotBigEnough(choices: seq<Size>, c: Constraints)
    requires exists o :: o in choices && Accepted(o, c)
    requires forall o :: o in choices && Accepted(o, c) ==> !BigEnough(o, c)
    ensures OptimalSize(choices, c).Ok?
    ensures var m := OptimalSize(choices, c).value;
      && Accepted(m, c) && !BigEnough(m, c)
      && (forall o :: o in choices && Accepted(o, c) ==> Area(o) <= Area(m))
      && (exists k :: 0 <= k < |choices| && choices[k] == m &&
            forall j :: 0 <= j < k && Accepted(choices[j], c) ==> Area(choices[j]) < Area(m))
  {
    var bigEnough := Sift(choices, c, true);
    var notBigEnough := Sift(choices, c, false);
    var o :| o in choices && Accepted(o, c);
    assert o in notBigEnough;
    FilterEmpty(choices, Keep(c, true));
    var m := MaxByArea(notBigEnough);
    assert OptimalSize(choices, c) == Ok(m);
    var i := MaxByAreaIsFirst(notBigEnough);
    var k := FilterKeepsFirstMaximal(choices, Keep(c, false), m, i);
  }

  /**
   * When no choice survives the filter the result is `choices[0]`, which
   * throws on an empty array, unless a zero aspect width made the division
   * throw first.
   */
  lemma OptimalSizeFallback(choices: seq<Size>, c: Constraints)
    requires forall o :: o in choices ==> !Accepted(o, c)
    ensures OptimalSize(choices, c) ==
      if c.aspectRatio.width == 0 && exists o :: o in choices && WithinBound(o, c) then Err(ArithmeticException)
      else if |choices| == 0 then Err(ArrayIndexOutOfBounds)
      else Ok(choices[0])
  {
    FilterEmpty(choices, Keep(c, true));
    FilterEmpty(choices, Keep(c, false));
  }

  /** With a non-zero aspect width and at least one choice, a size is always returned. */
  lemma OptimalSizeDefined(choices: seq<Size>, c: Constraints)
    requires c.aspectRatio.width != 0 && |choices| > 0
    ensures OptimalSize(choices, c).Ok?
  {
  }

  /**
   * A choice whose cross-products agree passes the aspect test, provided
   * `width * h` does not overflow an `int`.
   */
  lemma ExactRatioPasses(o: Size, ratio: Size)
    requires ratio.width > 0 && o.width >= 0 && ratio.height >= 0
    requires o.width * ratio.height < 0x8000_0000
    requires o.height * ratio.width == o.width * ratio.height
    ensures MatchesRatio(o, ratio)
  {
    var a := o.width * ratio.height;
    MulMonotone(0, o.width, ratio.height);
    assert MulInt(o.width, ratio.height) == a;
    DivOfMultiple(o.height, ratio.width);
    assert TruncDiv(a, ratio.width) == a / ratio.width == o.height;
  }

  /** Dividing an exact multiple gives back the factor. */
  lemma DivOfMultiple(q: int, w: int)
    requires w > 0
    ensures (q * w) / w == q
  {
    var d, r := (q * w) / w, (q * w) % w;
    assert (q - d) * w == r;
    if q - d >= 1 {
      MulMonotone(1, q - d, w);
    } else if q - d <= -1 {
      MulMonotone(1, d - q, w);
    }
  }

  /**
   * The test truncates: 641 x 360 passes against 1920 x 1080 although
   * 360 * 1920 differs from 641 * 1080.
   */
  lemma TruncatingRatioAcceptsInexact()
    ensures MatchesRatio(Size(641, 360), Size(1920, 1080))
    ensures 360 * 1920 != 641 * 1080
  {
  }

  /**
   * The product is an `int`: a 46341 x 46341 choice fails against a square
   * aspect ratio of the same size because `46341 * 46341` overflows.
   */
  lemma OverflowingRatioRejectsExact()
    ensures !MatchesRatio(Size(46341, 46341), Size(46341, 46341))
  {
  }

  /**
   * `chooseOptimalSize` as the code runs it: one pass over `choices` that
   * appends each accepted choice to `bigEnough` or `notBigEnough`, then the
   * selection among them.
   */
  method ChooseOptimalSize(choices: seq<Size>, textureViewWidth: Int32, textureViewHeight: Int32,
                           maxWidth: Int32, maxHeight: Int32, aspectRatio: Size)
    returns (r: Result<Size>)
    ensures r == OptimalSize(choices, Constraints(textureViewWidth, textureViewHeight, maxWidth, maxHeight, aspectRatio))
  {
    ghost var c := Constraints(textureViewWidth, textureViewHeight, maxWidth, maxHeight, aspectRatio);
    var bigEnough: seq<Size> := [];
    var notBigEnough: seq<Size> := [];
    var w := aspectRatio.width;
    var h := aspectRatio.height;
    for i := 0 to |choices|
      invariant bigEnough == Sift(choices[..i], c, true)
      invariant notBigEnough == Sift(choices[..i], c, false)
      invariant w == 0 ==> forall o :: o in choices[..i] ==> !WithinBound(o, c)
    {
      var option := choices[i];
      assert choices[..i + 1][..i] == choices[..i];
      if option.width <= maxWidth && option.height <= maxHeight {
        if w == 0 {
          assert option in choices && WithinBound(option, c);
          return Err(ArithmeticException);
        }
        if option.height == DivInt(MulInt(option.width, h), w) {
          if option.width >= textureViewWidth && option.height >= textureViewHeight {
            bigEnough := bigEnough + [option];
          } else {
            notBigEnough := notBigEnough + [option];
          }
        }
      }
    }
    assert choices[..|choices|] == choices;
    if |bigEnough| > 0 {
      r := Ok(MinByArea(bigEnough));
    } else if |notBigEnough| > 0 {
      r := Ok(MaxByArea(notBigEnough));
    } else if |choices| > 0 {
      r := Ok(choices[0]);
    } else {
      r := Err(ArrayIndexOutOfBounds);
    }
  }

  /** One camera's output configuration, as returned by `getCameraCharacteristics`. */
  datatype StreamMap = StreamMap(jpegSizes: Option<seq<Size>>, previewSizes: Option<seq<Size>>)

  /** How the body of `setUpCameraOutputs` ends for the camera it settles on. */
  datatype Outputs =
    | JpegSizesMissing                              // null JPEG list: NullPointerException, caught
    | JpegSizesEmpty                                // Collections.max throws NoSuchElementException
    | PreviewSizesMissing(largest: Size)            // reader created, then a caught NullPointerException
    | PreviewFailed(largest: Size, fault: Fault)    // reader created, then chooseOptimalSize threw
    | Configured(largest: Size, preview: Size)      // reader created, preview size chosen

  /**
   * The largest JPEG size (sizing the image reader) and the preview size,
   * chosen against the display bound with the largest JPEG size as the
   * aspect ratio.
   */
  function CameraOutputs(streams: StreamMap, width: Int32, height: Int32, display: Point): (o: Outputs)
    ensures !o.JpegSizesMissing? && !o.JpegSizesEmpty? ==>
      streams.jpegSizes.Some? && o.largest in streams.jpegSizes.value &&
      forall s :: s in streams.jpegSizes.value ==> Area(s) <= Area(o.largest)
    ensures o.Configured? ==> streams.previewSizes.Some? && o.preview in streams.previewSizes.value
  {
    match streams.jpegSizes
    case None => JpegSizesMissing
    case Some(jpeg) =>
      if |jpeg| == 0 then JpegSizesEmpty
      else
        var largest := MaxByArea(jpeg);
        var bound := MaxPreviewBound(display);
        match streams.previewSizes
        case None => PreviewSizesMissing(largest)
        case Some(choices) =>
          match OptimalSize(choices, Constraints(width, height, bound.width, bound.height, largest))
          case Err(f) => PreviewFailed(largest, f)
          case Ok(p) => Configured(largest, p)
  }

  /**
   * With JPEG sizes of positive width and a non-empty list of preview sizes,
   * a preview size is chosen; and whenever some preview size passed the
   * filter, the chosen one fits the display and 480 x 480.
   */
  lemma CameraOutputsConfigured(jpeg: seq<Size>, previews: seq<Size>, width: Int32, height: Int32, display: Point)
    requires |jpeg| > 0 && |previews| > 0
    requires forall s :: s in jpeg ==> s.width > 0
    ensures var o := CameraOutputs(StreamMap(Some(jpeg), Some(previews)), width, height, display);
      && o.Configured?
      && o.largest == MaxByArea(jpeg)
      && ((exists p :: p in previews && Accepted(p, Constraints(width, height, MaxPreviewBound(display).width,
                                                                MaxPreviewBound(display).height, o.largest)))
          ==> o.preview.width <= MAX_PREVIEW_WIDTH && o.preview.height <= MAX_PREVIEW_HEIGHT
              && o.preview.width <= display.x && o.preview.height <= display.y)
  {
    var largest := MaxByArea(jpeg);
    var bound := MaxPreviewBound(display);
    var c := Constraints(width, height, bound.width, bound.height, largest);
    OptimalSizeDefined(previews, c);
    if exists p :: p in previews && Accepted(p, c) {
      if exists p :: p in previews && Accepted(p, c) && BigEnough(p, c) {
        OptimalSizeSmallestBigEnough(previews, c);
      } else {
        OptimalSizeLargestNotBigEnough(previews, c);
      }
    }
  }
}
