/**
 * Pixel-slide reveals. A text image is pre-rendered once; each frame shows a
 * window of its columns, padded with fully transparent columns to the canvas
 * width.
 *
 * - `create_slide_animation` (quran_video_generator_updated.py,
 *   quran_video_generator.py, video_generator_new.py): the reveal lasts
 *   `min(cap, duration)` seconds, cap 2.0, 3.0 or 5.0; right-to-left text keeps
 *   the rightmost columns, left-to-right text the leftmost.
 * - `create_rtl_arabic_animation` (rtl_animation.py, video_generator_new.py): the
 *   reveal lasts the whole clip and always keeps the rightmost columns.
 *
 * An image is a sequence of columns, left to right; a column is a sequence of
 * RGBA pixels, top to bottom.
 */
module Slide {
  import opened Wrappers
  import opened RealMath
  import opened Reveal

  datatype Pixel = Pixel(r: int, g: int, b: int, a: int)

  type Column = seq<Pixel>

  type Image = seq<Column>

  const TRANSPARENT := Pixel(0, 0, 0, 0)

  /** Animation caps of the three `create_slide_animation` versions. */
  const SLIDE_CAP_UPDATED: real := 2.0
  const SLIDE_CAP_QURAN: real := 3.0
  const SLIDE_CAP_NEW: real := 5.0

  /** `img` is `width` columns of `height` pixels each. */
  predicate IsImage(img: Image, width: int, height: nat) {
    |img| == width && forall i :: 0 <= i < |img| ==> |img[i]| == height
  }

  function ZeroColumn(height: nat): (c: Column)
    ensures |c| == height && forall j :: 0 <= j < height ==> c[j] == TRANSPARENT
  {
    seq(height, _ => TRANSPARENT)
  }

  /** `np.zeros((height, width, 4))`. */
  function Zeros(width: nat, height: nat): (img: Image)
    ensures IsImage(img, width, height)
    ensures forall i :: 0 <= i < width ==> img[i] == ZeroColumn(height)
  {
    seq(width, _ => ZeroColumn(height))
  }

  /** The image `full` with only the columns in `[lo, hi)` kept and the others transparent. */
  function Window(full: Image, height: nat, lo: int, hi: int): (img: Image)
    ensures |img| == |full|
    ensures forall i :: 0 <= i < |full| ==> img[i] == if lo <= i < hi then full[i] else ZeroColumn(height)
  {
    seq(|full|, i requires 0 <= i < |full| => if lo <= i < hi then full[i] else ZeroColumn(height))
  }

  // ----- canvas geometry -----

  /** A canvas and where the text is drawn on it. */
  datatype Canvas = Canvas(width: int, height: int, textX: int, textY: int)

  /**
   * `create_slide_animation`: the canvas is the text box plus 40 pixels across and
   * `hPad` down; right-to-left text is drawn 10 pixels from the right edge, at
   * height `rtlY` (25 in quran_video_generator_updated.py, 10 elsewhere), and
   * left-to-right text at (10, 10).
   */
  function SlideCanvas(b: Bbox, hPad: int, isRtl: bool, rtlY: int): (c: Canvas)
    ensures var textWidth := b.right - b.left;
      && c.width == textWidth + 40 && c.height == b.bottom - b.top + hPad
      && (isRtl ==> c.textX + textWidth == c.width - 10 && c.textX == 30 && c.textY == rtlY)
      && (!isRtl ==> c.textX == 10 && c.textY == 10 && c.textX + textWidth == c.width - 30)
  {
    var textWidth := b.right - b.left;
    var textHeight := b.bottom - b.top;
    var canvasWidth := textWidth + 40;
    Canvas(canvasWidth, textHeight + hPad, if isRtl then canvasWidth - textWidth - 10 else 10, if isRtl then rtlY else 10)
  }

  /** The drawn text lies inside the canvas whenever the padding below covers the text's offset. */
  lemma SlideCanvasHoldsText(b: Bbox, hPad: int, isRtl: bool, rtlY: int)
    requires b.left <= b.right && b.top <= b.bottom && 0 <= rtlY <= hPad && 10 <= hPad
    ensures var c := SlideCanvas(b, hPad, isRtl, rtlY);
      0 <= c.textX && c.textX + (b.right - b.left) <= c.width
      && 0 <= c.textY && c.textY + (b.bottom - b.top) <= c.height
  {
  }

  /**
   * PIL puts the ink of `draw.text((x, y))` at `x + left .. x + right` across and
   * `y + top .. y + bottom` down. That ink lies inside the canvas whenever the
   * box's left offset is at most 10 pixels and the padding below covers its
   * top offset plus the text's y.
   */
  lemma SlideCanvasHoldsInk(b: Bbox, hPad: int, isRtl: bool, rtlY: int)
    requires b.left <= b.right && b.top <= b.bottom && 0 <= b.left <= 10 && 0 <= b.top
    requires 0 <= rtlY && rtlY + b.top <= hPad && 10 + b.top <= hPad
    ensures var c := SlideCanvas(b, hPad, isRtl, rtlY);
      0 <= c.textX + b.left && c.textX + b.right <= c.width
      && 0 <= c.textY + b.top && c.textY + b.bottom <= c.height
  {
  }

  /**
   * `create_rtl_arabic_animation`: the canvas is the text box plus 100 across and
   * 40 down; the text is drawn at (width - text width - 20, 20).
   */
  function RtlCanvas(b: Bbox): (c: Canvas)
    ensures c.width == (b.right - b.left) + 100 && c.height == (b.bottom - b.top) + 40
    ensures c.textX + (b.right - b.left) == c.width - 20 && c.textX == 80 && c.textY == 20
  {
    var textWidth := b.right - b.left;
    var canvasWidth := textWidth + 100;
    Canvas(canvasWidth, (b.bottom - b.top) + 40, canvasWidth - textWidth - 20, 20)
  }

  // ----- create_slide_animation.make_frame -----

  /** `int(canvas_width * min(1.0, t / anim))` during the reveal, which runs while `0 <= t < anim`. */
  function SlideWidth(width: nat, t: real, anim: real): (v: nat)
    requires 0.0 <= t < anim
    ensures v <= width
    ensures width > 0 ==> v < width
  {
    var p := Min(1.0, t / anim);
    RatioBelowOne(t, anim);
    ScaleFraction(width as real, p);
    assert width > 0 ==> width as real * p < width as real by {
      if width > 0 {
        ScaleFractionBelow(width as real, p);
      }
    }
    FloorMono(width as real * p, width as real);
    (width as real * p).Floor
  }

  /** The revealed width never shrinks during the reveal. */
  lemma SlideWidthMonotone(width: nat, t1: real, t2: real, anim: real)
    requires 0.0 <= t1 <= t2 < anim
    ensures SlideWidth(width, t1, anim) <= SlideWidth(width, t2, anim)
  {
    assert t1 / anim <= t2 / anim by {
      assert t2 / anim - t1 / anim == (t2 - t1) / anim;
    }
    var p1, p2 := Min(1.0, t1 / anim), Min(1.0, t2 / anim);
    assert width as real * p1 <= width as real * p2;
    FloorMono(width as real * p1, width as real * p2);
  }

  /** Nothing is revealed at the start. */
  lemma SlideWidthStart(width: nat, anim: real)
    requires 0.0 < anim
    ensures SlideWidth(width, 0.0, anim) == 0
  {
    assert 0.0 / anim == 0.0;
  }

  /**
   * The frame at time `t` of a slide reveal lasting `min(cap, duration)` over the
   * pre-rendered `full` image of `width` by `height`.
   */
  function SlideFrame(full: Image, width: nat, height: nat, cap: real, duration: real, isRtl: bool, t: real): (frame: Image)
    requires t >= 0.0 && IsImage(full, width, height)
    ensures IsImage(frame, width, height)
    ensures t >= Min(cap, duration) ==> frame == full
  {
    var anim := Min(cap, duration);
    if t < anim then
      var v := SlideWidth(width, t, anim);
      if isRtl then
        Zeros(width - v, height) + (if v > 0 then full[width - v..] else full[..0])
      else
        (if v > 0 then full[..v] else full[..0]) + Zeros(width - v, height)
    else
      full
  }

  /**
   * During the reveal the frame is the full image with only the revealed columns
   * kept, each at its own position: the rightmost `v` for right-to-left text and
   * the leftmost `v` otherwise.
   */
  lemma SlideFrameWindow(full: Image, width: nat, height: nat, cap: real, duration: real, isRtl: bool, t: real)
    requires 0.0 <= t < Min(cap, duration) && IsImage(full, width, height)
    ensures var v := SlideWidth(width, t, Min(cap, duration));
      SlideFrame(full, width, height, cap, duration, isRtl, t)
        == if isRtl then Window(full, height, width - v, width) else Window(full, height, 0, v)
  {
    var v := SlideWidth(width, t, Min(cap, duration));
    var frame := SlideFrame(full, width, height, cap, duration, isRtl, t);
    var w := if isRtl then Window(full, height, width - v, width) else Window(full, height, 0, v);
    forall i | 0 <= i < width ensures frame[i] == w[i] {
      if isRtl {
        if i >= width - v {
          assert frame[i] == full[width - v..][i - (width - v)];
        }
      } else if i >= v {
        assert frame[i] == Zeros(width - v, height)[i - v];
      }
    }
  }

  /** A column shown at some time during the reveal stays shown, unchanged, at every later time. */
  lemma SlideFrameKeepsColumns(full: Image, width: nat, height: nat, cap: real, duration: real, isRtl: bool, t1: real, t2: real, i: int)
    requires 0.0 <= t1 <= t2 && IsImage(full, width, height) && 0 <= i < width
    requires SlideFrame(full, width, height, cap, duration, isRtl, t1)[i] == full[i]
    ensures SlideFrame(full, width, height, cap, duration, isRtl, t2)[i] == full[i]
  {
    var anim := Min(cap, duration);
    if t2 < anim {
      SlideWidthMonotone(width, t1, t2, anim);
      SlideFrameWindow(full, width, height, cap, duration, isRtl, t1);
      SlideFrameWindow(full, width, height, cap, duration, isRtl, t2);
    }
  }

  /** The first frame of a reveal is fully transparent. */
  lemma SlideFrameStartBlank(full: Image, width: nat, height: nat, cap: real, duration: real, isRtl: bool)
    requires 0.0 < Min(cap, duration) && IsImage(full, width, height)
    ensures SlideFrame(full, width, height, cap, duration, isRtl, 0.0) == Zeros(width, height)
  {
    SlideWidthStart(width, Min(cap, duration));
    var frame := SlideFrame(full, width, height, cap, duration, isRtl, 0.0);
    if isRtl {
      assert frame == Zeros(width, height) + [];
    } else {
      assert frame == [] + Zeros(width, height);
    }
  }

  // ----- create_rtl_arabic_animation.make_frame -----

  /** `int(canvas_width * min(1.0, t / duration))`; a zero duration divides by zero. */
  function WindowWidth(width: nat, t: real, duration: real): (v: Option<int>)
    requires t >= 0.0
    ensures v.None? <==> duration == 0.0
    ensures v.Some? ==> v.value <= width
    ensures v.Some? && duration > 0.0 ==> 0 <= v.value
  {
    if duration == 0.0 then None
    else
      var x := width as real * Min(1.0, t / duration);
      assert x <= width as real;
      FloorMono(x, width as real);
      Some(Trunc(x))
  }

  /**
   * The frame at time `t` of `create_rtl_arabic_animation`: the rightmost
   * `visible_width` columns behind transparent padding, or the full image once
   * all columns are visible.
   */
  function WindowFrame(full: Image, width: nat, height: nat, duration: real, t: real): (frame: Option<Image>)
    requires t >= 0.0 && IsImage(full, width, height)
    ensures frame.None? <==> duration == 0.0
    ensures frame.Some? && duration > 0.0 ==> IsImage(frame.value, width, height)
  {
    match WindowWidth(width, t, duration) {
      case None => None
      case Some(v) =>
        var cropped := if v > 0 then full[width - v..] else full[..0];
        if v < width then Some(Zeros(width - v, height) + cropped) else Some(full)
    }
  }

  /** With a positive duration the frame keeps exactly the rightmost `v` columns, `v` growing with `t`. */
  lemma WindowFrameReveals(full: Image, width: nat, height: nat, duration: real, t: real)
    requires t >= 0.0 && duration > 0.0 && IsImage(full, width, height)
    ensures var v := WindowWidth(width, t, duration).value;
      WindowFrame(full, width, height, duration, t).value == Window(full, height, width - v, width)
  {
    var v := WindowWidth(width, t, duration).value;
    var frame := WindowFrame(full, width, height, duration, t).value;
    var w := Window(full, height, width - v, width);
    forall i | 0 <= i < width ensures frame[i] == w[i] {
      if v < width && i >= width - v {
        assert frame[i] == full[width - v..][i - (width - v)];
      }
    }
  }

  lemma WindowWidthValue(width: nat, t: real, duration: real)
    requires t >= 0.0 && duration > 0.0
    ensures WindowWidth(width, t, duration).value == (width as real * Min(1.0, t / duration)).Floor
  {
  }

  /** The visible width never shrinks. */
  lemma WindowWidthMonotone(width: nat, t1: real, t2: real, duration: real)
    requires 0.0 <= t1 <= t2 && duration > 0.0
    ensures WindowWidth(width, t1, duration).value <= WindowWidth(width, t2, duration).value
  {
    var a, b := Min(1.0, t1 / duration), Min(1.0, t2 / duration);
    RatioMono(t1, t2, duration);
    assert a <= b;
    ScaledFloorMono(width, a, b);
    WindowWidthValue(width, t1, duration);
    WindowWidthValue(width, t2, duration);
    assert WindowWidth(width, t1, duration).value == (width as real * a).Floor;
    assert WindowWidth(width, t2, duration).value == (width as real * b).Floor;
  }

  /** From `duration` on, the whole canvas is visible. */
  lemma WindowWidthFull(width: nat, t: real, duration: real)
    requires t >= duration > 0.0
    ensures WindowWidth(width, t, duration).value == width
  {
    WindowWidthValue(width, t, duration);
    RatioMono(duration, t, duration);
    assert duration / duration == 1.0;
    assert Min(1.0, t / duration) == 1.0;
  }

  /** At `t = 0` the frame is fully transparent; from `duration` on it is the full image. */
  lemma WindowFrameEnds(full: Image, width: nat, height: nat, duration: real, t: real)
    requires t >= 0.0 && duration > 0.0 && IsImage(full, width, height)
    ensures WindowFrame(full, width, height, duration, 0.0).value == Zeros(width, height)
    ensures t >= duration ==> WindowFrame(full, width, height, duration, t).value == full
  {
    assert 0.0 / duration == 0.0;
    assert WindowWidth(width, 0.0, duration).value == 0;
    if width == 0 {
      assert full == [] == Zeros(width, height);
    } else {
      assert WindowFrame(full, width, height, duration, 0.0).value == Zeros(width, height) + [];
    }
    if t >= duration {
      WindowWidthFull(width, t, duration);
    }
  }
}
