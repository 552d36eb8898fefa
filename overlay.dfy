/**
 * The frame loop of `process_video` in animated_video_generator.py: for every
 * frame read, the time is `frame_count / fps`; every cue active at that time is
 * drawn, its lines from the last one up, each typed in over
 * `TEXT_APPEAR_DURATION` seconds on a background box; the overlay is then
 * blended onto the frame with the fade of the last active cue.
 *
 * Reading and writing frames, cv2 drawing and blending are left to the caller:
 * the model keeps the time of each written frame, what is drawn where, and the
 * blend weight. `cv2.getTextSize` and the Arabic shaping are parameters.
 */
module Overlay {
  import opened Text
  import opened Wrappers
  import opened RealMath
  import Layout

  const LINE_SPACING: int := 50
  const BOTTOM_MARGIN: int := 120
  const FADE_DURATION: real := 0.6
  const TEXT_APPEAR_DURATION: real := 0.5

  // ----- per-cue quantities -----

  /** A character of the Arabic block U+0600..U+06FF. */
  predicate IsArabicChar(c: char) {
    '\U{0600}' <= c <= '\U{06FF}'
  }

  /** `any('\u0600' <= c <= '\u06FF' for c in text)`, scanning from the front. */
  function HasArabic(text: string): bool {
    text != [] && (IsArabicChar(text[0]) || HasArabic(text[1..]))
  }

  /** A cue's language is `ar` exactly when one of its characters is in the Arabic block. */
  lemma {:induction false} HasArabicIff(text: string)
    ensures HasArabic(text) <==> exists i :: 0 <= i < |text| && IsArabicChar(text[i])
  {
    if text != [] {
      HasArabicIff(text[1..]);
      if exists i :: 0 <= i < |text| && IsArabicChar(text[i]) {
        var i :| 0 <= i < |text| && IsArabicChar(text[i]);
        if i > 0 {
          assert text[1..][i - 1] == text[i];
        }
      }
      if exists i :: 0 <= i < |text[1..]| && IsArabicChar(text[1..][i]) {
        var i :| 0 <= i < |text[1..]| && IsArabicChar(text[1..][i]);
        assert text[i + 1] == text[1..][i];
      }
    }
  }

  /** `start <= current_time <= end`: both ends are included. */
  predicate Active(cue: Layout.Cue, t: real) {
    Layout.CueStart(cue) <= t <= Layout.CueEnd(cue)
  }

  /** `min(1.0, (current_time - start) / TEXT_APPEAR_DURATION)`. */
  function AnimProgress(t: real, start: real): (p: real)
    requires start <= t
    ensures 0.0 <= p <= 1.0
  {
    Min(1.0, (t - start) / TEXT_APPEAR_DURATION)
  }

  /** `int(len(line) * anim_progress)`. */
  function VisibleChars(len: nat, p: real): (k: nat)
    requires 0.0 <= p <= 1.0
    ensures k <= len
  {
    assert 0.0 <= len as real * p <= len as real;
    FloorMono(len as real * p, len as real);
    (len as real * p).Floor
  }

  /** Nothing is typed at the cue's start; the whole line is from `TEXT_APPEAR_DURATION` on. */
  lemma TypingEnds(len: nat, t: real, start: real)
    requires start <= t
    ensures t == start ==> VisibleChars(len, AnimProgress(t, start)) == 0
    ensures t - start >= TEXT_APPEAR_DURATION ==> VisibleChars(len, AnimProgress(t, start)) == len
  {
    if t - start >= TEXT_APPEAR_DURATION {
      assert (t - start) / TEXT_APPEAR_DURATION >= 1.0;
    }
  }

  /** `min((t - start) / FADE_DURATION, (end - t) / FADE_DURATION, 1.0)`. */
  function FadeProgress(t: real, start: real, end: real): real {
    Min(Min((t - start) / FADE_DURATION, (end - t) / FADE_DURATION), 1.0)
  }

  /**
   * While a cue is active its fade lies in [0, 1]; it is 0 at both ends and 1
   * whenever the cue has been on, and will stay on, for `FADE_DURATION`.
   */
  lemma FadeBounds(t: real, start: real, end: real)
    requires start <= t <= end
    ensures 0.0 <= FadeProgress(t, start, end) <= 1.0
    ensures (t == start || t == end) ==> FadeProgress(t, start, end) == 0.0
    ensures t - start >= FADE_DURATION && end - t >= FADE_DURATION ==> FadeProgress(t, start, end) == 1.0
  {
    if t - start >= FADE_DURATION && end - t >= FADE_DURATION {
      assert (t - start) / FADE_DURATION >= 1.0;
      assert (end - t) / FADE_DURATION >= 1.0;
    }
  }

  // ----- drawing one line -----

  datatype Size = Size(w: int, h: int)
  datatype Rect = Rect(x: int, y: int, w: int, h: int)

  /** What is drawn for one line: the typed text, its origin (baseline left) and its background box. */
  datatype Drawn = Drawn(text: string, x: int, y: int, bg: Rect)

  /**
   * One line at baseline `y`: the visible prefix of the (shaped, for Arabic)
   * line, centred with `int((width - text_w) / 2)`, on a box 20 pixels wider on
   * each side and 10 pixels taller above and below.
   */
  function DrawLine(line: string, isArabic: bool, p: real, width: int, y: int, shape: string -> string, textSize: (string, bool) -> Size): (d: Drawn)
    requires 0.0 <= p <= 1.0
    ensures var display := if isArabic then shape(line) else line;
      d.text == display[..VisibleChars(|display|, p)] && d.y == y
  {
    var display := if isArabic then shape(line) else line;
    var visible := display[..VisibleChars(|display|, p)];
    var size := textSize(visible, isArabic);
    var x := Trunc((width - size.w) as real / 2.0);
    Drawn(visible, x, y, Rect(x - 20, y - size.h - 10, size.w + 40, size.h + 20))
  }

  /**
   * The text is centred to within one pixel (the halving truncates toward zero),
   * and the background box extends 20 pixels beyond the text left and right,
   * 10 above its top and 10 below its baseline.
   */
  lemma DrawLineBox(line: string, isArabic: bool, p: real, width: int, y: int, shape: string -> string, textSize: (string, bool) -> Size)
    requires 0.0 <= p <= 1.0
    ensures var d := DrawLine(line, isArabic, p, width, y, shape, textSize);
      var size := textSize(d.text, isArabic);
      && -1 <= 2 * d.x + size.w - width <= 1
      && d.bg.x == d.x - 20 && d.bg.x + d.bg.w == d.x + size.w + 20
      && d.bg.y == d.y - size.h - 10 && d.bg.y + d.bg.h == d.y + 10
  {
  }

  /** The lines `lines[..n]` of one cue, the `k`-th drawn `LINE_SPACING` above the one before. */
  function CueDrawing(lines: seq<string>, n: nat, isArabic: bool, p: real, width: int, y0: int, shape: string -> string, textSize: (string, bool) -> Size): (ds: seq<Drawn>)
    requires n <= |lines| && 0.0 <= p <= 1.0
    ensures |ds| == n
  {
    seq(n, k requires 0 <= k < n => DrawLine(lines[k], isArabic, p, width, y0 - k * LINE_SPACING, shape, textSize))
  }

  /**
   * The text drawn for `line` at typing progress `p`: the first
   * `int(len * p)` characters of the line as displayed.
   */
  predicate TypedFrom(d: Drawn, line: string, isArabic: bool, shape: string -> string, p: real)
    requires 0.0 <= p <= 1.0
  {
    var display := if isArabic then shape(line) else line;
    d.text == display[..VisibleChars(|display|, p)]
  }

  /** The `k`-th drawn line is a typed prefix of `lines[k]`. */
  lemma CueDrawingTexts(lines: seq<string>, n: nat, isArabic: bool, p: real, width: int, y0: int, shape: string -> string, textSize: (string, bool) -> Size)
    requires n <= |lines| && 0.0 <= p <= 1.0
    ensures var ds := CueDrawing(lines, n, isArabic, p, width, y0, shape, textSize);
      forall k :: 0 <= k < n ==> TypedFrom(ds[k], lines[k], isArabic, shape, p)
  {
  }

  /** A cue's lines are drawn last line first: the `k`-th drawn is a typed prefix of the `k`-th line from the bottom. */
  lemma CueDrawingReversed(text: string, isArabic: bool, p: real, width: int, y0: int, shape: string -> string, textSize: (string, bool) -> Size)
    requires 0.0 <= p <= 1.0
    ensures var lines := SplitOn(text, '\n');
      var ds := CueDrawing(Reverse(lines), |lines|, isArabic, p, width, y0, shape, textSize);
      forall k :: 0 <= k < |lines| ==> TypedFrom(ds[k], lines[|lines| - 1 - k], isArabic, shape, p)
  {
    var lines := SplitOn(text, '\n');
    var rev := Reverse(lines);
    CueDrawingTexts(rev, |lines|, isArabic, p, width, y0, shape, textSize);
    assert forall k :: 0 <= k < |lines| ==> rev[k] == lines[|lines| - 1 - k];
  }

  /** Drawn lines whose baselines step up by `LINE_SPACING` from `y0`. */
  predicate OnRows(ds: seq<Drawn>, y0: int) {
    forall k :: 0 <= k < |ds| ==> ds[k].y == y0 - k * LINE_SPACING
  }

  lemma OnRowsAppend(a: seq<Drawn>, b: seq<Drawn>, y0: int)
    requires OnRows(a, y0) && OnRows(b, y0 - |a| * LINE_SPACING)
    ensures OnRows(a + b, y0)
  {
    forall k | |a| <= k < |a + b|
      ensures (a + b)[k].y == y0 - k * LINE_SPACING
    {
      assert (a + b)[k] == b[k - |a|];
    }
  }

  lemma CueDrawingRows(lines: seq<string>, n: nat, isArabic: bool, p: real, width: int, y0: int, shape: string -> string, textSize: (string, bool) -> Size)
    requires n <= |lines| && 0.0 <= p <= 1.0
    ensures OnRows(CueDrawing(lines, n, isArabic, p, width, y0, shape, textSize), y0)
  {
  }

  // ----- one frame -----

  /** What a frame has drawn so far and the fade it would blend with (`None` while unbound). */
  datatype FrameState = FrameState(drawn: seq<Drawn>, fade: Option<real>)

  /**
   * The frame at time `t` after visiting `subs[..n]`: each active cue's lines go
   * on top of what is drawn, from `height - BOTTOM_MARGIN` up, and its fade
   * replaces `fade0`, the value left over from earlier frames.
   */
  function FrameUpTo(subs: seq<Layout.Cue>, n: nat, t: real, width: int, height: int, shape: string -> string, textSize: (string, bool) -> Size, fade0: Option<real>): FrameState
    requires n <= |subs|
  {
    if n == 0 then FrameState([], fade0)
    else
      var prev := FrameUpTo(subs, n - 1, t, width, height, shape, textSize, fade0);
      var cue := subs[n - 1];
      if !Active(cue, t) then prev
      else
        var start, end := Layout.CueStart(cue), Layout.CueEnd(cue);
        var lines := Reverse(SplitOn(cue.text, '\n'));
        var y := height - BOTTOM_MARGIN - |prev.drawn| * LINE_SPACING;
        var ds := CueDrawing(lines, |lines|, HasArabic(cue.text), AnimProgress(t, start), width, y, shape, textSize);
        FrameState(prev.drawn + ds, Some(FadeProgress(t, start, end)))
  }

  /**
   * The `k`-th line drawn in a frame has its baseline at
   * `height - BOTTOM_MARGIN - k * LINE_SPACING`, so no two lines share a row.
   */
  lemma {:induction false} FrameRows(subs: seq<Layout.Cue>, n: nat, t: real, width: int, height: int, shape: string -> string, textSize: (string, bool) -> Size, fade0: Option<real>)
    requires n <= |subs|
    ensures OnRows(FrameUpTo(subs, n, t, width, height, shape, textSize, fade0).drawn, height - BOTTOM_MARGIN)
  {
    if n > 0 {
      FrameRows(subs, n - 1, t, width, height, shape, textSize, fade0);
      var prev := FrameUpTo(subs, n - 1, t, width, height, shape, textSize, fade0);
      var cue := subs[n - 1];
      if Active(cue, t) {
        var lines := Reverse(SplitOn(cue.text, '\n'));
        var y := height - BOTTOM_MARGIN - |prev.drawn| * LINE_SPACING;
        var p := AnimProgress(t, Layout.CueStart(cue));
        var ds := CueDrawing(lines, |lines|, HasArabic(cue.text), p, width, y, shape, textSize);
        assert FrameUpTo(subs, n, t, width, height, shape, textSize, fade0).drawn == prev.drawn + ds;
        CueDrawingRows(lines, |lines|, HasArabic(cue.text), p, width, y, shape, textSize);
        OnRowsAppend(prev.drawn, ds, height - BOTTOM_MARGIN);
      } else {
        assert FrameUpTo(subs, n, t, width, height, shape, textSize, fade0) == prev;
      }
    }
  }

  /**
   * A frame's fade is the one left over when no cue is active, and otherwise
   * lies in [0, 1]; so, starting from a value in [0, 1] or none, it stays so.
   * Which cue it comes from is `FrameFadeLast`.
   */
  lemma {:induction false} FrameFade(subs: seq<Layout.Cue>, n: nat, t: real, width: int, height: int, shape: string -> string, textSize: (string, bool) -> Size, fade0: Option<real>)
    requires n <= |subs|
    ensures var f := FrameUpTo(subs, n, t, width, height, shape, textSize, fade0).fade;
      && ((forall i :: 0 <= i < n ==> !Active(subs[i], t)) ==> f == fade0)
      && ((exists i :: 0 <= i < n && Active(subs[i], t)) ==> f.Some? && 0.0 <= f.value <= 1.0)
  {
    if n > 0 {
      FrameFade(subs, n - 1, t, width, height, shape, textSize, fade0);
      var cue := subs[n - 1];
      if Active(cue, t) {
        FadeBounds(t, Layout.CueStart(cue), Layout.CueEnd(cue));
      } else {
        if exists i :: 0 <= i < n && Active(subs[i], t) {
          var i :| 0 <= i < n && Active(subs[i], t);
          assert i < n - 1;
        }
      }
    }
  }

  /**
   * The fade a frame ends with is the `fade_progress` of the last active cue
   * visited: cue `j`, when it is active and no later cue is.
   */
  lemma {:induction false} FrameFadeLast(subs: seq<Layout.Cue>, n: nat, j: nat, t: real, width: int, height: int, shape: string -> string, textSize: (string, bool) -> Size, fade0: Option<real>)
    requires j < n <= |subs|
    requires Active(subs[j], t)
    requires forall i :: j < i < n ==> !Active(subs[i], t)
    ensures FrameUpTo(subs, n, t, width, height, shape, textSize, fade0).fade
      == Some(FadeProgress(t, Layout.CueStart(subs[j]), Layout.CueEnd(subs[j])))
  {
    if j < n - 1 {
      assert !Active(subs[n - 1], t);
      FrameFadeLast(subs, n - 1, j, t, width, height, shape, textSize, fade0);
    }
  }

  /** One pass of `for sub in subs`, with the inner `for line in reversed(...)` loop. */
  method DrawFrame(subs: seq<Layout.Cue>, t: real, width: int, height: int, shape: string -> string, textSize: (string, bool) -> Size, fadeIn: Option<real>)
    returns (drawn: seq<Drawn>, fade: Option<real>)
    ensures FrameState(drawn, fade) == FrameUpTo(subs, |subs|, t, width, height, shape, textSize, fadeIn)
  {
    drawn, fade := [], fadeIn;
    var yPos := height - BOTTOM_MARGIN;
    for i := 0 to |subs|
      invariant FrameState(drawn, fade) == FrameUpTo(subs, i, t, width, height, shape, textSize, fadeIn)
      invariant yPos == height - BOTTOM_MARGIN - |drawn| * LINE_SPACING
    {
      var cue := subs[i];
      var start, end := Layout.CueStart(cue), Layout.CueEnd(cue);
      if start <= t <= end {
        var isArabic := HasArabic(cue.text);
        var animProgress := AnimProgress(t, start);
        fade := Some(FadeProgress(t, start, end));
        var lines := Reverse(SplitOn(cue.text, '\n'));
        var ds := DrawCue(lines, isArabic, animProgress, width, yPos, shape, textSize);
        assert FrameUpTo(subs, i + 1, t, width, height, shape, textSize, fadeIn) == FrameState(drawn + ds, fade);
        drawn := drawn + ds;
        yPos := yPos - |lines| * LINE_SPACING;
      } else {
        assert FrameUpTo(subs, i + 1, t, width, height, shape, textSize, fadeIn) == FrameState(drawn, fade);
      }
    }
  }

  /** The inner `for line in reversed(...)` loop: one line per row, upwards from `y0`. */
  method DrawCue(lines: seq<string>, isArabic: bool, animProgress: real, width: int, y0: int, shape: string -> string, textSize: (string, bool) -> Size)
    returns (ds: seq<Drawn>)
    requires 0.0 <= animProgress <= 1.0
    ensures ds == CueDrawing(lines, |lines|, isArabic, animProgress, width, y0, shape, textSize)
  {
    ds := [];
    var yPos := y0;
    for j := 0 to |lines|
      invariant |ds| == j
      invariant forall k :: 0 <= k < j ==> ds[k] == DrawLine(lines[k], isArabic, animProgress, width, y0 - k * LINE_SPACING, shape, textSize)
      invariant yPos == y0 - j * LINE_SPACING
    {
      ds := ds + [DrawLine(lines[j], isArabic, animProgress, width, yPos, shape, textSize)];
      yPos := yPos - LINE_SPACING;
    }
  }

  // ----- the video -----

  /** A written frame: its time, what is drawn on the overlay and the overlay's blend weight. */
  datatype Written = Written(t: real, drawn: seq<Drawn>, weight: real)

  /** The frames written so far, the fade carried to the next frame, and whether an exception stopped the loop. */
  datatype Run = Run(frames: seq<Written>, fade: Option<real>, failed: bool)

  /** `fade_progress if fade_progress < 1.0 else 1.0`; the frame itself gets `1 - weight`. */
  function BlendWeight(fade: real): real {
    if fade < 1.0 then fade else 1.0
  }

  /**
   * The first `n` frames of a capture. Frame `i` is at time `i / fps`; a zero
   * `fps` divides by zero, and a frame with no fade bound yet (no cue active in
   * it or before it) fails when blending. `fade0` is the fade before the first
   * frame: `None` in the source.
   */
  function RunUpTo(n: nat, fps: real, subs: seq<Layout.Cue>, width: int, height: int, shape: string -> string, textSize: (string, bool) -> Size, fade0: Option<real>): Run {
    if n == 0 then Run([], fade0, false)
    else
      var prev := RunUpTo(n - 1, fps, subs, width, height, shape, textSize, fade0);
      if prev.failed then prev
      else if fps == 0.0 then Run(prev.frames, prev.fade, true)
      else
        var t := (n - 1) as real / fps;
        var st := FrameUpTo(subs, |subs|, t, width, height, shape, textSize, prev.fade);
        if st.fade.None? then Run(prev.frames, None, true)
        else Run(prev.frames + [Written(t, st.drawn, BlendWeight(st.fade.value))], st.fade, false)
  }

  /**
   * `process_video`'s `while` loop over the `frames` frames the capture yields;
   * `failed` reports the exception that ends it early.
   */
  method ProcessVideo(frames: nat, fps: real, subs: seq<Layout.Cue>, width: int, height: int, shape: string -> string, textSize: (string, bool) -> Size, fade0: Option<real>)
    returns (written: seq<Written>, failed: bool)
    ensures var r := RunUpTo(frames, fps, subs, width, height, shape, textSize, fade0);
      written == r.frames && failed == r.failed
  {
    written, failed := [], false;
    var fadeProgress := fade0;
    var frameCount := 0;
    while frameCount < frames
      invariant frameCount <= frames
      invariant Run(written, fadeProgress, false) == RunUpTo(frameCount, fps, subs, width, height, shape, textSize, fade0)
      decreases frames - frameCount
    {
      if fps == 0.0 {
        failed := true;
        RunStaysFailed(frameCount + 1, frames, fps, subs, width, height, shape, textSize, fade0);
        return;
      }
      var currentTime := frameCount as real / fps;
      frameCount := frameCount + 1;
      var drawn;
      drawn, fadeProgress := DrawFrame(subs, currentTime, width, height, shape, textSize, fadeProgress);
      if fadeProgress.None? {
        failed := true;
        RunStaysFailed(frameCount, frames, fps, subs, width, height, shape, textSize, fade0);
        return;
      }
      written := written + [Written(currentTime, drawn, BlendWeight(fadeProgress.value))];
    }
  }

  /** Once the loop has failed, later frames change nothing. */
  lemma {:induction false} RunStaysFailed(m: nat, n: nat, fps: real, subs: seq<Layout.Cue>, width: int, height: int, shape: string -> string, textSize: (string, bool) -> Size, fade0: Option<real>)
    requires m <= n && RunUpTo(m, fps, subs, width, height, shape, textSize, fade0).failed
    ensures RunUpTo(n, fps, subs, width, height, shape, textSize, fade0) == RunUpTo(m, fps, subs, width, height, shape, textSize, fade0)
    decreases n - m
  {
    if m < n {
      RunStaysFailed(m, n - 1, fps, subs, width, height, shape, textSize, fade0);
    }
  }

  /**
   * Written frames are consecutive: the `k`-th is at time `k / fps`, and when
   * nothing failed every one of the `n` frames was written. Each blend weight
   * lies in [0, 1] when the starting fade does.
   */
  lemma {:induction false} RunFrames(n: nat, fps: real, subs: seq<Layout.Cue>, width: int, height: int, shape: string -> string, textSize: (string, bool) -> Size, fade0: Option<real>)
    requires fade0.Some? ==> 0.0 <= fade0.value <= 1.0
    ensures var r := RunUpTo(n, fps, subs, width, height, shape, textSize, fade0);
      && |r.frames| <= n && (!r.failed ==> |r.frames| == n)
      && (r.fade.Some? ==> 0.0 <= r.fade.value <= 1.0)
      && forall k :: 0 <= k < |r.frames| ==> fps != 0.0 && r.frames[k].t == k as real / fps && 0.0 <= r.frames[k].weight <= 1.0
  {
    if n > 0 {
      RunFrames(n - 1, fps, subs, width, height, shape, textSize, fade0);
      var prev := RunUpTo(n - 1, fps, subs, width, height, shape, textSize, fade0);
      assert var s2 := RunUpTo(n - 1, fps, subs, width, height, shape, textSize, fade0);
        forall k :: 0 <= k < |s2.frames| ==> fps != 0.0 && s2.frames[k].t == k as real / fps && 0.0 <= s2.frames[k].weight <= 1.0;
      if !prev.failed && fps != 0.0 {
        var t := (n - 1) as real / fps;
        FrameFade(subs, |subs|, t, width, height, shape, textSize, prev.fade);
      }
    }
  }

  /**
   * As written, the fade is unbound until a cue has been active: a capture
   * whose first frame shows no cue fails on that frame, before writing
   * anything.
   */
  lemma AsWrittenFailsWithoutCueAtStart(n: nat, fps: real, subs: seq<Layout.Cue>, width: int, height: int, shape: string -> string, textSize: (string, bool) -> Size)
    requires n > 0 && forall i :: 0 <= i < |subs| ==> !Active(subs[i], 0.0)
    ensures var r := RunUpTo(n, fps, subs, width, height, shape, textSize, None);
      r.failed && r.frames == []
  {
    if fps != 0.0 {
      assert 0 as real / fps == 0.0;
      FrameFade(subs, |subs|, 0.0, width, height, shape, textSize, None);
    }
    RunStaysFailed(1, n, fps, subs, width, height, shape, textSize, None);
  }

  /**
   * With the fade starting at 0 (a frame with nothing drawn is then written
   * unchanged, as any weight leaves it), the loop never fails for a positive
   * `fps` and writes every frame.
   */
  lemma {:induction false} FixedWritesEveryFrame(n: nat, fps: real, subs: seq<Layout.Cue>, width: int, height: int, shape: string -> string, textSize: (string, bool) -> Size)
    requires fps > 0.0
    ensures var r := RunUpTo(n, fps, subs, width, height, shape, textSize, Some(0.0));
      !r.failed && |r.frames| == n && r.fade.Some?
  {
    if n > 0 {
      FixedWritesEveryFrame(n - 1, fps, subs, width, height, shape, textSize);
      var prev := RunUpTo(n - 1, fps, subs, width, height, shape, textSize, Some(0.0));
      var t := (n - 1) as real / fps;
      FrameFade(subs, |subs|, t, width, height, shape, textSize, prev.fade);
    }
  }
}
