/**
 * Where subtitle lines go on screen: `create_subtitle_clips` in
 * quran_video_generator.py, video_generator_new.py and
 * quran_video_generator_updated.py.
 *
 * A cue's text is split on newlines; blank lines are dropped; the others are
 * sorted, in order, into Arabic and English by the language detector (a
 * detector failure counts as English). English lines stack upwards from
 * `H - SUBTITLE_HEIGHT`; Arabic lines stack upwards from a slot 80 pixels above
 * room for all the English lines. Each clip's x is `(W - w) / 2`, for the
 * width `w` the script centres on.
 *
 * Rendering a line (fonts, PIL) is a foreign call: it yields that width, or
 * `None` when it raises. In quran_video_generator.py and
 * quran_video_generator_updated.py `w` is the canvas width that
 * `process_subtitle_line` returns, so the clip is centred exactly. In
 * video_generator_new.py `w` is the text width measured by
 * `preprocess_subtitle`, while the clip's canvas is 20 pixels wider, so
 * there each clip sits 10 pixels right of centre.
 */
module Layout {
  import opened Text
  import opened Wrappers

  /** Spacing and bottom offset of quran_video_generator.py, video_generator_new.py and the per-character scripts. */
  const LINE_SPACING: int := 80
  const SUBTITLE_HEIGHT: int := 120

  /** The same two constants in quran_video_generator_updated.py. */
  const LINE_SPACING_UPDATED: int := 130
  const SUBTITLE_HEIGHT_UPDATED: int := 230

  /** The distance between two slots of a group; `updated` selects quran_video_generator_updated.py. */
  function Spacing(updated: bool): int {
    if updated then LINE_SPACING_UPDATED else LINE_SPACING
  }

  function SubtitleHeight(updated: bool): int {
    if updated then SUBTITLE_HEIGHT_UPDATED else SUBTITLE_HEIGHT
  }

  /** A pysrt cue: its text and its start and end as millisecond ordinals. */
  datatype Cue = Cue(text: string, startMs: int, endMs: int)

  /** A positioned clip: the line, its script, its top-left corner and its time span. */
  datatype Slot = Slot(line: string, isArabic: bool, x: real, y: int, start: real, duration: real)

  /** What every clip of one cue shares: the script version, the video size, the English line count and the time span. */
  datatype Frame = Frame(updated: bool, width: int, height: int, englishCount: nat, start: real, duration: real)

  /** `detect(line) == "ar"`, where a detector exception (`None`) means `"en"`. */
  predicate IsArabicLine(detect: string -> Option<string>, line: string) {
    detect(line) == Some("ar")
  }

  // ----- sorting lines by language -----

  /** The non-blank lines the detector calls Arabic, in order. */
  function ArabicLines(lines: seq<string>, detect: string -> Option<string>): seq<string> {
    if lines == [] then []
    else
      var init := ArabicLines(lines[..|lines| - 1], detect);
      var line := lines[|lines| - 1];
      if !IsBlank(line) && IsArabicLine(detect, line) then init + [line] else init
  }

  /** The other non-blank lines, in order. */
  function EnglishLines(lines: seq<string>, detect: string -> Option<string>): seq<string> {
    if lines == [] then []
    else
      var init := EnglishLines(lines[..|lines| - 1], detect);
      var line := lines[|lines| - 1];
      if !IsBlank(line) && !IsArabicLine(detect, line) then init + [line] else init
  }

  /** The non-blank lines, in order. */
  function NonBlankLines(lines: seq<string>): seq<string> {
    if lines == [] then []
    else
      var init := NonBlankLines(lines[..|lines| - 1]);
      var line := lines[|lines| - 1];
      if !IsBlank(line) then init + [line] else init
  }

  /** The loop that fills `arabic_lines` and `english_lines`. */
  method SplitByLanguage(lines: seq<string>, detect: string -> Option<string>) returns (arabic: seq<string>, english: seq<string>)
    ensures arabic == ArabicLines(lines, detect) && english == EnglishLines(lines, detect)
  {
    arabic, english := [], [];
    for i := 0 to |lines|
      invariant arabic == ArabicLines(lines[..i], detect)
      invariant english == EnglishLines(lines[..i], detect)
    {
      assert lines[..i + 1][..i] == lines[..i];
      var line := lines[i];
      if IsBlank(line) {
        continue;
      }
      if IsArabicLine(detect, line) {
        arabic := arabic + [line];
      } else {
        english := english + [line];
      }
    }
    assert lines[..|lines|] == lines;
  }

  /**
   * Every non-blank line lands in exactly one group: the two groups together are
   * the non-blank lines, the Arabic ones are those the detector calls Arabic and
   * the English ones all the others.
   */
  lemma {:induction false} SplitIsPartition(lines: seq<string>, detect: string -> Option<string>)
    ensures multiset(ArabicLines(lines, detect)) + multiset(EnglishLines(lines, detect)) == multiset(NonBlankLines(lines))
    ensures forall l :: l in ArabicLines(lines, detect) ==> l in lines && !IsBlank(l) && IsArabicLine(detect, l)
    ensures forall l :: l in EnglishLines(lines, detect) ==> l in lines && !IsBlank(l) && !IsArabicLine(detect, l)
  {
    if lines != [] {
      var init := lines[..|lines| - 1];
      SplitIsPartition(init, detect);
      assert forall l :: l in init ==> l in lines;
    }
  }

  // ----- vertical slots -----

  /** The y of the `idx`-th Arabic slot when the cue has `englishCount` English lines. */
  function ArabicY(updated: bool, height: int, englishCount: nat, idx: nat): int {
    if updated then height - SUBTITLE_HEIGHT_UPDATED - englishCount * LINE_SPACING_UPDATED - idx * LINE_SPACING_UPDATED - 80
    else height - SUBTITLE_HEIGHT - englishCount * LINE_SPACING - idx * LINE_SPACING - 80
  }

  /** The y of the `idx`-th English slot. */
  function EnglishY(updated: bool, height: int, idx: nat): int {
    if updated then height - SUBTITLE_HEIGHT_UPDATED - idx * LINE_SPACING_UPDATED
    else height - SUBTITLE_HEIGHT - idx * LINE_SPACING
  }

  /**
   * Every Arabic slot lies above every English slot of the same cue, by at least
   * the spacing plus 80 pixels; within a group, slots are one spacing apart,
   * each one above the one before.
   */
  lemma ArabicAboveEnglish(updated: bool, height: int, englishCount: nat, ia: nat, ie: nat)
    requires ie < englishCount
    ensures ArabicY(updated, height, englishCount, ia) + Spacing(updated) + 80 <= EnglishY(updated, height, ie)
    ensures ArabicY(updated, height, englishCount, ia + 1) == ArabicY(updated, height, englishCount, ia) - Spacing(updated)
    ensures EnglishY(updated, height, ie + 1) == EnglishY(updated, height, ie) - Spacing(updated)
  {
  }

  // ----- placing one group of lines -----

  /**
   * The slots of one group of lines. Each line is rendered; a line whose rendering
   * fails gets no slot. A line's slot index is its position in the group, or,
   * when `countBuilt`, the number of slots already placed.
   */
  function Placed(lines: seq<string>, isArabic: bool, build: (string, bool) -> Option<int>, countBuilt: bool, f: Frame): (slots: seq<Slot>)
    ensures |slots| <= |lines|
  {
    if lines == [] then []
    else
      var prev := Placed(lines[..|lines| - 1], isArabic, build, countBuilt, f);
      var line := lines[|lines| - 1];
      match build(line, isArabic) {
        case None => prev
        case Some(canvasWidth) =>
          var idx := if countBuilt then |prev| else |lines| - 1;
          var y := if isArabic then ArabicY(f.updated, f.height, f.englishCount, idx) else EnglishY(f.updated, f.height, idx);
          prev + [Slot(line, isArabic, (f.width - canvasWidth) as real / 2.0, y, f.start, f.duration)]
      }
  }

  /** One slot: at `x = (W - canvasWidth) / 2`, at slot `idx` of its group, with the cue's time span. */
  predicate SlotAt(s: Slot, line: string, isArabic: bool, canvasWidth: int, idx: nat, f: Frame) {
    && s.line == line && s.isArabic == isArabic
    && 2.0 * s.x + canvasWidth as real == f.width as real
    && s.y == (if isArabic then ArabicY(f.updated, f.height, f.englishCount, idx) else EnglishY(f.updated, f.height, idx))
    && s.start == f.start && s.duration == f.duration
  }

  /** When rendering never fails, line `i` gets slot `i`, at `x = (W - w) / 2` for its rendered width `w`. */
  lemma {:induction false} PlacedEveryLine(lines: seq<string>, isArabic: bool, build: (string, bool) -> Option<int>, countBuilt: bool, f: Frame)
    requires forall i :: 0 <= i < |lines| ==> build(lines[i], isArabic).Some?
    ensures var slots := Placed(lines, isArabic, build, countBuilt, f);
      |slots| == |lines|
      && forall i :: 0 <= i < |lines| ==> SlotAt(slots[i], lines[i], isArabic, build(lines[i], isArabic).value, i, f)
  {
    if lines != [] {
      PlacedEveryLine(lines[..|lines| - 1], isArabic, build, countBuilt, f);
    }
  }

  /**
   * With `countBuilt` (quran_video_generator_updated.py's `arabic_line_count`), the
   * `k`-th slot placed is at slot `k` whichever lines failed, so slots are
   * one spacing apart with no gaps; the slotted lines are the ones that rendered.
   */
  lemma {:induction false} PlacedCountedPacked(lines: seq<string>, isArabic: bool, build: (string, bool) -> Option<int>, f: Frame)
    ensures var slots := Placed(lines, isArabic, build, true, f);
      && (forall k :: 0 <= k < |slots| ==>
            slots[k].y == (if isArabic then ArabicY(f.updated, f.height, f.englishCount, k) else EnglishY(f.updated, f.height, k)))
      && (forall k :: 0 <= k < |slots| ==> slots[k].line in lines && build(slots[k].line, isArabic).Some?)
  {
    if lines != [] {
      PlacedCountedPacked(lines[..|lines| - 1], isArabic, build, f);
    }
  }

  /** The y of slot `idx` of a group. */
  function GroupY(isArabic: bool, f: Frame, idx: nat): int {
    if isArabic then ArabicY(f.updated, f.height, f.englishCount, idx) else EnglishY(f.updated, f.height, idx)
  }

  /** A later slot of a group lies at least one spacing above an earlier one. */
  lemma GroupYOrder(isArabic: bool, f: Frame, j: nat, k: nat)
    requires j < k
    ensures GroupY(isArabic, f, k) + Spacing(f.updated) <= GroupY(isArabic, f, j)
  {
  }

  /** Every slot lies between slot `n - 1` and slot 0 of its group, and each later one at least a spacing above each earlier one. */
  predicate Stacked(slots: seq<Slot>, isArabic: bool, f: Frame, n: nat) {
    && (forall k :: 0 <= k < |slots| ==> 0 < n && GroupY(isArabic, f, n - 1) <= slots[k].y <= GroupY(isArabic, f, 0))
    && (forall j, k :: 0 <= j < k < |slots| ==> slots[k].y + Spacing(f.updated) <= slots[j].y)
  }

  /**
   * Without `countBuilt`, slot indices are positions in the group: every slot lies
   * between the group's first and last slot, and each later slot lies at least
   * one spacing above every earlier one, so no two overlap.
   */
  lemma {:induction false} PlacedIndexed(lines: seq<string>, isArabic: bool, build: (string, bool) -> Option<int>, f: Frame)
    ensures Stacked(Placed(lines, isArabic, build, false, f), isArabic, f, |lines|)
  {
    if lines != [] {
      var init := lines[..|lines| - 1];
      PlacedIndexed(init, isArabic, build, f);
      var prev := Placed(init, isArabic, build, false, f);
      var line := lines[|lines| - 1];
      match build(line, isArabic) {
        case None =>
          StackedWider(prev, isArabic, f, |init|);
        case Some(cw) =>
          var s := Slot(line, isArabic, (f.width - cw) as real / 2.0, GroupY(isArabic, f, |init|), f.start, f.duration);
          assert Placed(lines, isArabic, build, false, f) == prev + [s];
          StackedSnoc(prev, s, isArabic, f, |init|);
      }
    }
  }

  /** A group stacked within `n` slots is stacked within `n + 1`. */
  lemma StackedWider(slots: seq<Slot>, isArabic: bool, f: Frame, n: nat)
    requires Stacked(slots, isArabic, f, n)
    ensures Stacked(slots, isArabic, f, n + 1)
  {
    if n > 0 {
      GroupYOrder(isArabic, f, n - 1, n);
    }
  }

  /** A slot at index `n`, above all the others, keeps the group stacked. */
  lemma StackedSnoc(slots: seq<Slot>, s: Slot, isArabic: bool, f: Frame, n: nat)
    requires Stacked(slots, isArabic, f, n) && s.y == GroupY(isArabic, f, n)
    ensures Stacked(slots + [s], isArabic, f, n + 1)
  {
    if n > 0 {
      GroupYOrder(isArabic, f, n - 1, n);
      GroupYOrder(isArabic, f, 0, n);
    }
    var all := slots + [s];
    forall j, k | 0 <= j < k < |all| ensures all[k].y + Spacing(f.updated) <= all[j].y {
      if k < |slots| {
        assert all[j] == slots[j] && all[k] == slots[k];
      } else {
        assert all[j] == slots[j] && all[k] == s;
      }
    }
  }

  /**
   * Every slot has `x = (W - w) / 2` for the width `w` rendering reported for
   * its line (its canvas in the two quran scripts, its text in
   * video_generator_new.py), and carries the cue's time span.
   */
  lemma {:induction false} PlacedCentred(lines: seq<string>, isArabic: bool, build: (string, bool) -> Option<int>, countBuilt: bool, f: Frame)
    ensures var slots := Placed(lines, isArabic, build, countBuilt, f);
      forall k :: 0 <= k < |slots| ==>
        && slots[k].isArabic == isArabic
        && build(slots[k].line, isArabic).Some?
        && 2.0 * slots[k].x + build(slots[k].line, isArabic).value as real == f.width as real
        && slots[k].start == f.start && slots[k].duration == f.duration
  {
    if lines != [] {
      var init := lines[..|lines| - 1];
      PlacedCentred(init, isArabic, build, countBuilt, f);
      assert var s2 := Placed(init, isArabic, build, countBuilt, f);
        forall k :: 0 <= k < |s2| ==>
          && s2[k].isArabic == isArabic
          && build(s2[k].line, isArabic).Some?
          && 2.0 * s2[k].x + build(s2[k].line, isArabic).value as real == f.width as real
          && s2[k].start == f.start && s2[k].duration == f.duration;
      var slots := Placed(lines, isArabic, build, countBuilt, f);
      var prev := Placed(init, isArabic, build, countBuilt, f);
      forall k | 0 <= k < |slots|
        ensures && slots[k].isArabic == isArabic
          && build(slots[k].line, isArabic).Some?
          && 2.0 * slots[k].x + build(slots[k].line, isArabic).value as real == f.width as real
          && slots[k].start == f.start && slots[k].duration == f.duration
      {
        var line := lines[|lines| - 1];
        match build(line, isArabic) {
          case None =>
            assert slots == prev;
          case Some(cw) =>
            assert slots == prev + [slots[|prev|]];
            if k < |prev| {
              assert slots[k] == prev[k];
            } else {
              assert slots[k].line == line;
            }
        }
      }
    }
  }

  // ----- one cue -----

  /** A cue's `sub.start.ordinal / 1000` and `sub.end.ordinal / 1000`, in seconds. */
  function CueStart(cue: Cue): real { cue.startMs as real / 1000.0 }
  function CueEnd(cue: Cue): real { cue.endMs as real / 1000.0 }

  /** What a cue's clips share: its start and its duration in seconds. */
  function CueFrame(cue: Cue, updated: bool, width: int, height: int, englishCount: nat): Frame {
    Frame(updated, width, height, englishCount, CueStart(cue), CueEnd(cue) - CueStart(cue))
  }

  /**
   * The clips of one cue: the Arabic lines first, then the English ones.
   * `updated` selects quran_video_generator_updated.py, with its own spacing and
   * Arabic slots that count only the lines that rendered; the other versions use
   * the line's index.
   */
  function CueSlots(cue: Cue, detect: string -> Option<string>, build: (string, bool) -> Option<int>, updated: bool, width: int, height: int): seq<Slot> {
    var lines := SplitOn(cue.text, '\n');
    var arabic := ArabicLines(lines, detect);
    var english := EnglishLines(lines, detect);
    var f := CueFrame(cue, updated, width, height, |english|);
    Placed(arabic, true, build, updated, f) + Placed(english, false, build, false, f)
  }

  /** The body of `for sub in subs` in `create_subtitle_clips`. */
  method PlaceCue(cue: Cue, detect: string -> Option<string>, build: (string, bool) -> Option<int>, updated: bool, width: int, height: int)
    returns (slots: seq<Slot>)
    ensures slots == CueSlots(cue, detect, build, updated, width, height)
  {
    var lines := SplitOn(cue.text, '\n');
    var arabic, english := SplitByLanguage(lines, detect);
    var f := CueFrame(cue, updated, width, height, |english|);
    var arabicSlots := PlaceArabic(arabic, build, f);
    var englishSlots := PlaceEnglish(english, build, f);
    slots := arabicSlots + englishSlots;
  }

  /** The `for i, line in enumerate(arabic_lines)` loop; the updated version counts the lines placed. */
  method PlaceArabic(arabic: seq<string>, build: (string, bool) -> Option<int>, f: Frame) returns (slots: seq<Slot>)
    ensures slots == Placed(arabic, true, build, f.updated, f)
  {
    slots := [];
    var arabicLineCount := 0;
    for i := 0 to |arabic|
      invariant slots == Placed(arabic[..i], true, build, f.updated, f)
      invariant arabicLineCount == |slots|
    {
      assert arabic[..i + 1][..i] == arabic[..i];
      var line := arabic[i];
      match build(line, true) {
        case None =>
        case Some(canvasWidth) =>
          var idx := if f.updated then arabicLineCount else i;
          var y := ArabicY(f.updated, f.height, f.englishCount, idx);
          var x := (f.width - canvasWidth) as real / 2.0;
          slots := slots + [Slot(line, true, x, y, f.start, f.duration)];
          arabicLineCount := arabicLineCount + 1;
      }
    }
    assert arabic[..|arabic|] == arabic;
  }

  /** The `for i, line in enumerate(english_lines)` loop. */
  method PlaceEnglish(english: seq<string>, build: (string, bool) -> Option<int>, f: Frame) returns (slots: seq<Slot>)
    ensures slots == Placed(english, false, build, false, f)
  {
    slots := [];
    for i := 0 to |english|
      invariant slots == Placed(english[..i], false, build, false, f)
    {
      assert english[..i + 1][..i] == english[..i];
      var line := english[i];
      match build(line, false) {
        case None =>
        case Some(canvasWidth) =>
          var y := EnglishY(f.updated, f.height, i);
          var x := (f.width - canvasWidth) as real / 2.0;
          slots := slots + [Slot(line, false, x, y, f.start, f.duration)];
      }
    }
    assert english[..|english|] == english;
  }

  /**
   * In every version, each Arabic clip of a cue lies above each English clip by at
   * least the spacing plus 80 pixels.
   */
  lemma CueArabicAboveEnglish(cue: Cue, detect: string -> Option<string>, build: (string, bool) -> Option<int>, updated: bool, width: int, height: int, a: nat, e: nat)
    requires var slots := CueSlots(cue, detect, build, updated, width, height);
      a < |slots| && e < |slots| && slots[a].isArabic && !slots[e].isArabic
    ensures var slots := CueSlots(cue, detect, build, updated, width, height);
      slots[a].y + Spacing(updated) + 80 <= slots[e].y
  {
    var lines := SplitOn(cue.text, '\n');
    var arabic := ArabicLines(lines, detect);
    var english := EnglishLines(lines, detect);
    var f := CueFrame(cue, updated, width, height, |english|);
    var sa := Placed(arabic, true, build, updated, f);
    var se := Placed(english, false, build, false, f);
    var slots := sa + se;
    PlacedCentred(arabic, true, build, updated, f);
    PlacedCentred(english, false, build, false, f);
    assert var s2 := Placed(arabic, true, build, updated, f);
      forall k :: 0 <= k < |s2| ==> s2[k].isArabic == true;
    assert var s2 := Placed(english, false, build, false, f);
      forall k :: 0 <= k < |s2| ==> s2[k].isArabic == false;
    assert slots[a] == sa[a] && slots[e] == se[e - |sa|];
    PlacedIndexed(english, false, build, f);
    assert EnglishY(updated, height, |english| - 1) <= se[e - |sa|].y;
    ArabicAboveEnglish(updated, height, |english|, 0, |english| - 1);
    if updated {
      PlacedCountedPacked(arabic, true, build, f);
      assert var s2 := Placed(arabic, true, build, true, f);
        forall k :: 0 <= k < |s2| ==> s2[k].y == ArabicY(f.updated, f.height, f.englishCount, k);
      assert sa[a].y == ArabicY(updated, height, |english|, a);
    } else {
      PlacedIndexed(arabic, true, build, f);
      assert sa[a].y <= ArabicY(updated, height, |english|, 0);
    }
  }

  // ----- all cues -----

  /** The clips of all cues, in cue order. */
  function AllSlots(subs: seq<Cue>, detect: string -> Option<string>, build: (string, bool) -> Option<int>, updated: bool, width: int, height: int): seq<Slot> {
    if subs == [] then []
    else
      AllSlots(subs[..|subs| - 1], detect, build, updated, width, height)
        + CueSlots(subs[|subs| - 1], detect, build, updated, width, height)
  }

  /** `create_subtitle_clips(video, subs, ...)`, keeping the positions and time spans of the clips. */
  method CreateSubtitleClips(subs: seq<Cue>, detect: string -> Option<string>, build: (string, bool) -> Option<int>, updated: bool, width: int, height: int)
    returns (clips: seq<Slot>)
    ensures clips == AllSlots(subs, detect, build, updated, width, height)
  {
    clips := [];
    for i := 0 to |subs|
      invariant clips == AllSlots(subs[..i], detect, build, updated, width, height)
    {
      assert subs[..i + 1][..i] == subs[..i];
      var cueClips := PlaceCue(subs[i], detect, build, updated, width, height);
      clips := clips + cueClips;
    }
    assert subs[..|subs|] == subs;
  }

  // ----- headers -----

  /** The per-version constants of `create_header_clips_updated`. */
  datatype HeaderStyle = HeaderStyle(arabicPad: int, gapAfterArabic: int, gapAfterEnglish: int)

  /** quran_video_generator.py: Arabic canvas padding 70, gaps 20 and 20. */
  const HEADERS_QURAN := HeaderStyle(70, 20, 20)

  /** quran_video_generator_updated.py: Arabic canvas padding 130, gaps 40 and 10. */
  const HEADERS_UPDATED := HeaderStyle(130, 40, 10)

  datatype Position = Position(x: real, y: int)

  /** The canvas height `create_slide_animation` gives text of height `textHeight` with padding `hPad`. */
  function CanvasHeight(textHeight: int, hPad: int): int {
    textHeight + hPad
  }

  /**
   * The positions of the three header clips (Arabic name, English name, English
   * meaning), given each canvas's width and text height: each is centred, the
   * first at y = 136 and each next one below the previous canvas plus a gap.
   */
  method HeaderPositions(style: HeaderStyle, videoWidth: int, widths: seq<int>, textHeights: seq<int>)
    returns (ps: seq<Position>)
    requires |widths| == 3 && |textHeights| == 3
    ensures |ps| == 3 && ps[0].y == 136
    ensures forall i :: 0 <= i < 3 ==> 2.0 * ps[i].x + widths[i] as real == videoWidth as real
    ensures ps[1].y == ps[0].y + CanvasHeight(textHeights[0], style.arabicPad) + style.gapAfterArabic
    ensures ps[2].y == ps[1].y + CanvasHeight(textHeights[1], 40) + style.gapAfterEnglish
    // With either script's gaps and non-negative text heights, each header
    // canvas ends above the next header's top, so headers never overlap.
    ensures (style == HEADERS_QURAN || style == HEADERS_UPDATED) && textHeights[0] >= 0 && textHeights[1] >= 0 ==>
      ps[0].y + CanvasHeight(textHeights[0], style.arabicPad) < ps[1].y
      && ps[1].y + CanvasHeight(textHeights[1], 40) < ps[2].y
      && ps[0].y + style.arabicPad < ps[1].y && ps[1].y + 40 < ps[2].y
  {
    var baseY := 136;
    var heightAr := CanvasHeight(textHeights[0], style.arabicPad);
    ps := [Position((videoWidth - widths[0]) as real / 2.0, baseY)];
    baseY := baseY + heightAr + style.gapAfterArabic;
    var heightEn := CanvasHeight(textHeights[1], 40);
    ps := ps + [Position((videoWidth - widths[1]) as real / 2.0, baseY)];
    baseY := baseY + heightEn + style.gapAfterEnglish;
    ps := ps + [Position((videoWidth - widths[2]) as real / 2.0, baseY)];
  }
}
