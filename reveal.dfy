/**
 * Character-paced reveal animations: for a time `t` into the clip, how many
 * characters of a line are drawn and where.
 *
 * - `create_arabic_animation` / `create_english_animation` (quran_video_generator.py,
 *   video_generator_new.py) show `int(len * min(1, t / (len * speed)))` characters.
 * - `animate_arabic_text.get_frame` (arabic_new_anim.py) shows
 *   `int(len * min(1, max(0, t / duration)))` characters, right-aligned.
 *
 * Times are exact reals; Python's `int()` of a non-negative value is `Floor`.
 * Font metrics are foreign calls and come in as a `Font` value.
 */
module Reveal {
  import opened Text
  import opened Wrappers
  import opened RealMath

  const ARABIC_ANIMATION_SPEED: real := 0.05
  const CHAR_ANIMATION_DELAY: real := 0.05

  /** A PIL bounding box `(left, top, right, bottom)`. */
  datatype Bbox = Bbox(left: int, top: int, right: int, bottom: int)

  /** The two font metrics the scripts use: `font.getbbox` and `font.getlength`. */
  datatype Font = Font(bbox: string -> Bbox, length: string -> real)

  /** The width of `text`'s bounding box, `bbox[2] - bbox[0]`. */
  function TextWidth(font: Font, text: string): int {
    font.bbox(text).right - font.bbox(text).left
  }

  /** What one frame draws: the visible text and its top-left corner. */
  datatype TextFrame = TextFrame(visible: string, x: real, y: real)

  /**
   * `int(len(line) * min(1, t / (len(line) * speed)))`; an empty line divides by
   * zero, which is `None`.
   */
  function CharsToShow(len: nat, t: real, speed: real): (k: Option<nat>)
    requires t >= 0.0 && speed > 0.0
    ensures k.None? <==> len == 0
    ensures k.Some? ==> k.value <= len
  {
    if len == 0 then None
    else
      var p := Min(1.0, t / (len as real * speed));
      assert 0.0 <= p <= 1.0;
      assert 0.0 <= len as real * p <= len as real;
      FloorMono(len as real * p, len as real);
      Some((len as real * p).Floor)
  }

  lemma ScaleMin(n: real, q: real)
    requires n > 0.0
    ensures n * Min(1.0, q) == Min(n, n * q)
  {
  }

  lemma FloorMin(n: nat, x: real)
    ensures Min(n as real, x).Floor == if x.Floor < n then x.Floor else n
  {
    if x <= n as real {
      FloorMono(x, n as real);
    } else {
      FloorMono(n as real, x);
    }
  }

  lemma DivSplit(t: real, n: real, speed: real)
    requires n > 0.0 && speed > 0.0
    ensures n * (t / (n * speed)) == t / speed
  {
    var q := t / (n * speed);
    assert q * (n * speed) == t;
    assert (n * q) * speed == t;
  }

  lemma CharsToShowValue(len: nat, t: real, speed: real)
    requires t >= 0.0 && speed > 0.0 && len > 0
    ensures CharsToShow(len, t, speed).value == (len as real * Min(1.0, t / (len as real * speed))).Floor
  {
  }

  /** The count is `min(len, floor(t / speed))`: one character every `speed` seconds. */
  lemma CharsToShowPaced(len: nat, t: real, speed: real)
    requires t >= 0.0 && speed > 0.0 && len > 0
    ensures CharsToShow(len, t, speed) == Some(if (t / speed).Floor < len then (t / speed).Floor else len)
  {
    var n, q := len as real, t / (len as real * speed);
    CharsToShowValue(len, t, speed);
    ScaleMin(n, q);
    DivSplit(t, n, speed);
    assert n * Min(1.0, q) == Min(n, t / speed);
    FloorMin(len, t / speed);
    assert CharsToShow(len, t, speed).value == Min(n, t / speed).Floor;
  }

  /** Nothing is shown at the start of the clip. */
  lemma CharsToShowStart(len: nat, speed: real)
    requires speed > 0.0 && len > 0
    ensures CharsToShow(len, 0.0, speed) == Some(0)
  {
    assert 0.0 / (len as real * speed) == 0.0;
  }

  /** From `len * speed` seconds on, the whole line is shown. */
  lemma CharsToShowFull(len: nat, t: real, speed: real)
    requires speed > 0.0 && len > 0 && t >= len as real * speed
    ensures CharsToShow(len, t, speed) == Some(len)
  {
    RatioAtLeastOne(t, len as real * speed);
  }

  /** The count never decreases as time goes on. */
  lemma CharsToShowMonotone(len: nat, t1: real, t2: real, speed: real)
    requires 0.0 <= t1 <= t2 && speed > 0.0 && len > 0
    ensures CharsToShow(len, t1, speed).value <= CharsToShow(len, t2, speed).value
  {
    var d := len as real * speed;
    assert t1 / d <= t2 / d by {
      assert t2 / d - t1 / d == (t2 - t1) / d;
    }
    var p1, p2 := Min(1.0, t1 / d), Min(1.0, t2 / d);
    assert len as real * p1 <= len as real * p2;
    FloorMono(len as real * p1, len as real * p2);
  }

  /**
   * The right-aligned Arabic frame of `create_arabic_animation`: the first `k`
   * characters of `display` are drawn so that they end 10 pixels before the
   * background's right edge `totalWidth + 20`.
   */
  function ArabicFrame(display: string, len: nat, t: real, font: Font, totalWidth: int): (r: Option<TextFrame>)
    requires t >= 0.0 && |display| == len
    ensures r.None? <==> len == 0
    ensures r.Some? ==> r.value.visible == display[..CharsToShow(len, t, ARABIC_ANIMATION_SPEED).value]
    ensures r.Some? ==> r.value.x + font.length(r.value.visible) == totalWidth as real + 10.0 && r.value.y == 10.0
  {
    match CharsToShow(len, t, ARABIC_ANIMATION_SPEED) {
      case None => None
      case Some(k) =>
        var visible := display[..k];
        Some(TextFrame(visible, (totalWidth + 20) as real - font.length(visible) - 10.0, 10.0))
    }
  }

  /** quran_video_generator.py: the display text is the line itself. */
  function ArabicFrameInOrder(line: string, t: real, font: Font, totalWidth: int): (r: Option<TextFrame>)
    requires t >= 0.0
    ensures r.None? <==> line == []
    ensures r.Some? ==> r.value.visible == line[..CharsToShow(|line|, t, ARABIC_ANIMATION_SPEED).value]
    ensures r.Some? ==> r.value.x + font.length(r.value.visible) == totalWidth as real + 10.0 && r.value.y == 10.0
  {
    ArabicFrame(line, |line|, t, font, totalWidth)
  }

  /**
   * video_generator_new.py: the display text is the reversed line, so the drawn
   * text is the reversal of the line's last `k` characters.
   */
  function ArabicFrameReversed(line: string, t: real, font: Font, totalWidth: int): (r: Option<TextFrame>)
    requires t >= 0.0
    ensures r.None? <==> line == []
    ensures r.Some? ==> |r.value.visible| == CharsToShow(|line|, t, ARABIC_ANIMATION_SPEED).value
    ensures r.Some? ==> |r.value.visible| <= |line| && r.value.visible == Reverse(line[|line| - |r.value.visible|..])
    ensures r.Some? ==> r.value.x + font.length(r.value.visible) == totalWidth as real + 10.0 && r.value.y == 10.0
  {
    var r := ArabicFrame(Reverse(line), |line|, t, font, totalWidth);
    if r.Some? then
      ReversePrefix(line, |r.value.visible|);
      r
    else r
  }

  /** `create_english_animation`: the first `k` characters of the line, at (10, 10). */
  function EnglishFrame(line: string, t: real): (r: Option<TextFrame>)
    requires t >= 0.0
    ensures r.None? <==> line == []
    ensures r.Some? ==> r.value.visible == line[..CharsToShow(|line|, t, CHAR_ANIMATION_DELAY).value]
    ensures r.Some? ==> r.value.x == 10.0 && r.value.y == 10.0
  {
    match CharsToShow(|line|, t, CHAR_ANIMATION_DELAY) {
      case None => None
      case Some(k) => Some(TextFrame(line[..k], 10.0, 10.0))
    }
  }

  /**
   * The drawn text only grows: each frame's text extends every earlier frame's,
   * and from `len * ARABIC_ANIMATION_SPEED` seconds on it is the whole display text.
   */
  lemma ArabicFrameGrows(display: string, t1: real, t2: real, font: Font, totalWidth: int)
    requires 0.0 <= t1 <= t2 && display != []
    ensures var v1 := ArabicFrame(display, |display|, t1, font, totalWidth).value.visible;
      var v2 := ArabicFrame(display, |display|, t2, font, totalWidth).value.visible;
      v1 <= v2
    ensures t2 >= |display| as real * ARABIC_ANIMATION_SPEED ==> ArabicFrame(display, |display|, t2, font, totalWidth).value.visible == display
  {
    CharsToShowMonotone(|display|, t1, t2, ARABIC_ANIMATION_SPEED);
    if t2 >= |display| as real * ARABIC_ANIMATION_SPEED {
      CharsToShowFull(|display|, t2, ARABIC_ANIMATION_SPEED);
    }
  }

  /** The English text only grows, and is the whole line after `len * CHAR_ANIMATION_DELAY` seconds. */
  lemma EnglishFrameGrows(line: string, t1: real, t2: real)
    requires 0.0 <= t1 <= t2 && line != []
    ensures var v1 := EnglishFrame(line, t1).value.visible;
      var v2 := EnglishFrame(line, t2).value.visible;
      v1 <= v2
    ensures t2 >= |line| as real * CHAR_ANIMATION_DELAY ==> EnglishFrame(line, t2).value.visible == line
  {
    CharsToShowMonotone(|line|, t1, t2, CHAR_ANIMATION_DELAY);
    if t2 >= |line| as real * CHAR_ANIMATION_DELAY {
      CharsToShowFull(|line|, t2, CHAR_ANIMATION_DELAY);
    }
  }

  /** `min(1.0, max(0.0, t / duration))`; a zero duration divides by zero, which is `None`. */
  function ClampedProgress(t: real, duration: real): (p: Option<real>)
    ensures p.None? <==> duration == 0.0
    ensures p.Some? ==> 0.0 <= p.value <= 1.0
  {
    if duration == 0.0 then None else Some(Min(1.0, Max(0.0, t / duration)))
  }

  /** `int(len(display_text) * progress)`. */
  function ClampedChars(len: nat, t: real, duration: real): (k: Option<nat>)
    ensures k.None? <==> duration == 0.0
    ensures k.Some? ==> k.value <= len
  {
    match ClampedProgress(t, duration) {
      case None => None
      case Some(p) =>
        ScaleFraction(len as real, p);
        FloorMono(len as real * p, len as real);
        Some((len as real * p).Floor)
    }
  }

  /** Before the clip starts nothing is shown; from `duration` on, everything is. */
  lemma ClampedCharsEnds(len: nat, t: real, duration: real)
    requires duration > 0.0
    ensures t <= 0.0 ==> ClampedChars(len, t, duration) == Some(0)
    ensures t >= duration ==> ClampedChars(len, t, duration) == Some(len)
  {
    if t <= 0.0 {
      assert t / duration <= 0.0;
    }
    if t >= duration {
      RatioAtLeastOne(t, duration);
    }
  }

  /** With a positive duration the count never decreases. */
  lemma ClampedCharsMonotone(len: nat, t1: real, t2: real, duration: real)
    requires t1 <= t2 && duration > 0.0
    ensures ClampedChars(len, t1, duration).value <= ClampedChars(len, t2, duration).value
  {
    assert t1 / duration <= t2 / duration by {
      assert t2 / duration - t1 / duration == (t2 - t1) / duration;
    }
    var p1 := Min(1.0, Max(0.0, t1 / duration));
    var p2 := Min(1.0, Max(0.0, t2 / duration));
    assert len as real * p1 <= len as real * p2;
    FloorMono(len as real * p1, len as real * p2);
  }

  /**
   * `animate_arabic_text(text, duration).get_frame(t)`: the display text is the
   * shaped text reversed; the frame is the text box plus 30 and then 40 pixels in
   * each direction; the visible prefix is right-aligned 20 pixels from the frame's
   * right edge and vertically centred.
   */
  function ClampedFrame(text: string, shape: string -> string, font: Font, t: real, duration: real): (r: Option<TextFrame>)
    ensures r.None? <==> duration == 0.0
    ensures r.Some? ==> var display := Reverse(shape(text));
      var b := font.bbox(display);
      && r.value.visible == display[..ClampedChars(|display|, t, duration).value]
      && r.value.x + font.length(r.value.visible) == (b.right - b.left + 70 - 20) as real
      && r.value.y == 35.0
  {
    var display := Reverse(shape(text));
    var b := font.bbox(display);
    var frameWidth := (b.right - b.left + 30) + 40;
    var frameHeight := (b.bottom - b.top + 30) + 40;
    match ClampedChars(|display|, t, duration) {
      case None => None
      case Some(k) =>
        var visible := display[..k];
        Some(TextFrame(visible, frameWidth as real - font.length(visible) - 20.0, ((frameHeight - (b.bottom - b.top)) / 2) as real))
    }
  }
}
