/**
 * The per-character clip schedule of `create_subtitle_clips` in
 * video_generator.py and animation_moviepy.py (the two are the same loop).
 *
 * Every line of a cue keeps its position in the cue (`line_idx`), blank lines
 * included, and sits at `H - SUBTITLE_HEIGHT - line_idx * LINE_SPACING`. An
 * Arabic line becomes one clip; an English line becomes a background clip plus
 * one clip per non-space character, each appearing `CHAR_ANIMATION_DELAY`
 * seconds after the one before it would, and all ending with the cue.
 *
 * A clip here records what the source passes to `with_position`, `with_start`
 * and `with_end`, plus two labels the source keeps implicit: the line index and,
 * for a character clip, the character and its index in the line.
 */
module CharClips {
  import opened Text
  import opened Wrappers
  import opened Reveal
  import opened Layout

  datatype Kind = LineImage | Background | Char(c: char, charIdx: nat)

  datatype Clip = Clip(kind: Kind, lineIdx: nat, x: real, y: int, start: real, end: real)

  /** `preprocess_subtitle`'s height: the bounding-box height plus 20. */
  function TextHeight(font: Font, text: string): int {
    font.bbox(text).bottom - font.bbox(text).top + 20
  }

  /** The rounded panel image of `process_subtitle_line` and the corner its text is drawn at. */
  datatype Panel = Panel(width: int, height: int, textX: int, textY: int)

  /**
   * `process_subtitle_line`: the panel is 20 pixels wider and taller than the
   * measured text, so the text box has 10 pixels of margin left and right, 10
   * above, and 30 below (the measured height already carries 20).
   */
  function LinePanel(font: Font, text: string): (p: Panel)
    ensures p.textX == 10 && p.width - p.textX - TextWidth(font, text) == 10
    ensures p.textY == 10 && p.height - p.textY - (font.bbox(text).bottom - font.bbox(text).top) == 30
  {
    Panel(TextWidth(font, text) + 20, TextHeight(font, text) + 20, 10, 10)
  }

  /** The x that centres a box of width `w` on a video of width `videoW`: `(video.w - w) / 2`. */
  function CentredX(videoW: int, w: int): real {
    (videoW - w) as real / 2.0
  }

  // ----- the character loop of one English line -----

  /** The number of characters of `s` that are not the space `' '`. */
  function NonSpaceCount(s: string): nat {
    |s| - multiset(s)[' ']
  }

  /** The indices below `n` of the characters of `line` that are not the space `' '`, in order. */
  function NonSpaceIndices(line: string, n: nat): (ps: seq<nat>)
    requires n <= |line|
    ensures forall k :: 0 <= k < |ps| ==> ps[k] < n
  {
    if n == 0 then []
    else if line[n - 1] == ' ' then NonSpaceIndices(line, n - 1)
    else NonSpaceIndices(line, n - 1) + [n - 1]
  }

  /** Indices of characters of `line` that are not spaces. */
  predicate AtNonSpaces(line: string, ps: seq<nat>) {
    forall k :: 0 <= k < |ps| ==> ps[k] < |line| && line[ps[k]] != ' '
  }

  /** Indices that strictly increase. */
  predicate Increasing(ps: seq<nat>) {
    forall j, k :: 0 <= j < k < |ps| ==> ps[j] < ps[k]
  }

  /** Every non-space index is the index of a character that is not a space. */
  lemma {:induction false} NonSpaceIndicesSound(line: string, n: nat)
    requires n <= |line|
    ensures AtNonSpaces(line, NonSpaceIndices(line, n))
  {
    if n > 0 {
      NonSpaceIndicesSound(line, n - 1);
    }
  }

  /** The non-space indices strictly increase, so none is listed twice. */
  lemma {:induction false} NonSpaceIndicesIncreasing(line: string, n: nat)
    requires n <= |line|
    ensures Increasing(NonSpaceIndices(line, n))
  {
    if n > 0 {
      NonSpaceIndicesIncreasing(line, n - 1);
    }
  }

  /** Every character below `n` that is not a space has its index listed. */
  lemma {:induction false} NonSpaceIndicesComplete(line: string, n: nat)
    requires n <= |line|
    ensures forall i :: 0 <= i < n && line[i] != ' ' ==> i in NonSpaceIndices(line, n)
  {
    if n > 0 {
      NonSpaceIndicesComplete(line, n - 1);
    }
  }

  /** There are as many non-space indices as characters that are not spaces. */
  lemma {:induction false} NonSpaceIndicesCount(line: string, n: nat)
    requires n <= |line|
    ensures |NonSpaceIndices(line, n)| == NonSpaceCount(line[..n])
  {
    if n > 0 {
      NonSpaceIndicesCount(line, n - 1);
      assert line[..n] == line[..n - 1] + [line[n - 1]];
      assert multiset(line[..n]) == multiset(line[..n - 1]) + multiset{line[n - 1]};
    }
  }

  /**
   * The clip of the character at index `i`: drawn at
   * `baseX + font.getlength(line[:i])` from `start + i * CHAR_ANIMATION_DELAY`
   * to `end`.
   */
  function CharClip(line: string, i: nat, lineIdx: nat, font: Font, baseX: real, y: int, start: real, end: real): Clip
    requires i < |line|
  {
    Clip(Char(line[i], i), lineIdx, baseX + font.length(line[..i]), y, start + i as real * CHAR_ANIMATION_DELAY, end)
  }

  /** The character clips of `line[..n]`: one per character that is not a space. */
  function CharClipsUpTo(line: string, n: nat, lineIdx: nat, font: Font, baseX: real, y: int, start: real, end: real): seq<Clip>
    requires n <= |line|
  {
    var ps := NonSpaceIndices(line, n);
    seq(|ps|, k requires 0 <= k < |ps| => CharClip(line, ps[k], lineIdx, font, baseX, y, start, end))
  }

  /** Going one character further adds that character's clip, unless it is a space. */
  lemma CharClipsSnoc(line: string, n: nat, lineIdx: nat, font: Font, baseX: real, y: int, start: real, end: real)
    requires n < |line|
    ensures CharClipsUpTo(line, n + 1, lineIdx, font, baseX, y, start, end)
      == CharClipsUpTo(line, n, lineIdx, font, baseX, y, start, end)
        + (if line[n] == ' ' then [] else [CharClip(line, n, lineIdx, font, baseX, y, start, end)])
  {
    var prev := CharClipsUpTo(line, n, lineIdx, font, baseX, y, start, end);
    var ps := NonSpaceIndices(line, n);
    if line[n] != ' ' {
      var ps' := NonSpaceIndices(line, n + 1);
      assert ps' == ps + [n];
      assert forall k :: 0 <= k < |ps| ==> ps'[k] == ps[k];
    }
  }

  /** What each character clip carries. */
  predicate IsCharClip(c: Clip, line: string, lineIdx: nat, font: Font, baseX: real, y: int, start: real, end: real) {
    && c.kind.Char?
    && c.kind.charIdx < |line|
    && c.kind.c == line[c.kind.charIdx] && c.kind.c != ' '
    && c.lineIdx == lineIdx && c.y == y
    && c.x == baseX + font.length(line[..c.kind.charIdx])
    && c.start == start + c.kind.charIdx as real * CHAR_ANIMATION_DELAY
    && c.end == end
  }

  /**
   * Each character clip shows a non-space character of the line at the pen
   * position after the text before it, and the clips come in strictly
   * increasing character order, so their start times strictly increase.
   */
  lemma CharClipsSchedule(line: string, n: nat, lineIdx: nat, font: Font, baseX: real, y: int, start: real, end: real)
    requires n <= |line|
    ensures var cs := CharClipsUpTo(line, n, lineIdx, font, baseX, y, start, end);
      && (forall k :: 0 <= k < |cs| ==> IsCharClip(cs[k], line, lineIdx, font, baseX, y, start, end) && cs[k].kind.charIdx < n)
      && (forall j, k :: 0 <= j < k < |cs| ==> cs[j].kind.charIdx < cs[k].kind.charIdx && cs[j].start < cs[k].start)
  {
    NonSpaceIndicesSound(line, n);
    NonSpaceIndicesIncreasing(line, n);
    var ps := NonSpaceIndices(line, n);
    var cs := CharClipsUpTo(line, n, lineIdx, font, baseX, y, start, end);
    forall k | 0 <= k < |cs|
      ensures IsCharClip(cs[k], line, lineIdx, font, baseX, y, start, end) && cs[k].kind.charIdx < n
    {
      assert cs[k] == CharClip(line, ps[k], lineIdx, font, baseX, y, start, end);
      assert AtNonSpaces(line, ps);
    }
    forall j, k | 0 <= j < k < |cs|
      ensures cs[j].kind.charIdx < cs[k].kind.charIdx && cs[j].start < cs[k].start
    {
      assert Increasing(ps);
      assert cs[j] == CharClip(line, ps[j], lineIdx, font, baseX, y, start, end);
      assert cs[k] == CharClip(line, ps[k], lineIdx, font, baseX, y, start, end);
    }
  }

  /** The `for char_idx, char in enumerate(line)` loop. */
  method LineCharClips(line: string, lineIdx: nat, font: Font, baseX: real, y: int, start: real, end: real) returns (cs: seq<Clip>)
    ensures cs == CharClipsUpTo(line, |line|, lineIdx, font, baseX, y, start, end)
  {
    cs := [];
    for charIdx := 0 to |line|
      invariant cs == CharClipsUpTo(line, charIdx, lineIdx, font, baseX, y, start, end)
    {
      CharClipsSnoc(line, charIdx, lineIdx, font, baseX, y, start, end);
      var c := line[charIdx];
      if c == ' ' {
        continue;
      }
      var x := baseX + font.length(line[..charIdx]);
      cs := cs + [Clip(Char(c, charIdx), lineIdx, x, y, start + charIdx as real * CHAR_ANIMATION_DELAY, end)];
    }
  }

  // ----- one line -----

  /** The row of line `lineIdx`: `H - SUBTITLE_HEIGHT - line_idx * LINE_SPACING`, each line above the one before. */
  function RowY(videoH: int, lineIdx: nat): (y: int)
    ensures y == videoH - SUBTITLE_HEIGHT - lineIdx * LINE_SPACING
  {
    EnglishY(false, videoH, lineIdx)
  }

  /**
   * The clips of the non-blank line at index `lineIdx`: an Arabic line is one
   * image centred on its shaped width; an English line is a background centred
   * on its width, then its character clips starting from the background's x.
   */
  function LineClips(line: string, lineIdx: nat, isArabic: bool, fontEn: Font, fontAr: Font, shape: string -> string, videoW: int, videoH: int, start: real, end: real): seq<Clip> {
    var y := RowY(videoH, lineIdx);
    if isArabic then
      [Clip(LineImage, lineIdx, CentredX(videoW, TextWidth(fontAr, shape(line))), y, start, end)]
    else
      var x := CentredX(videoW, TextWidth(fontEn, line));
      [Clip(Background, lineIdx, x, y, start, end)] + CharClipsUpTo(line, |line|, lineIdx, fontEn, x, y, start, end)
  }

  /**
   * An Arabic line gives exactly one clip, an English line one background plus
   * one clip per non-space character. The first clip spans the whole cue and
   * is centred on the line's measured width; every clip of the line is on the
   * line's row.
   */
  lemma LineClipsShape(line: string, lineIdx: nat, isArabic: bool, fontEn: Font, fontAr: Font, shape: string -> string, videoW: int, videoH: int, start: real, end: real)
    ensures var cs := LineClips(line, lineIdx, isArabic, fontEn, fontAr, shape, videoW, videoH, start, end);
      var w := if isArabic then TextWidth(fontAr, shape(line)) else TextWidth(fontEn, line);
      && |cs| == (if isArabic then 1 else 1 + NonSpaceCount(line))
      && cs[0].kind == (if isArabic then LineImage else Background)
      && cs[0].start == start && cs[0].end == end
      && 2.0 * cs[0].x + w as real == videoW as real
      && (forall k :: 0 <= k < |cs| ==> cs[k].lineIdx == lineIdx && cs[k].y == RowY(videoH, lineIdx))
      && (forall k :: 1 <= k < |cs| ==> IsCharClip(cs[k], line, lineIdx, fontEn, cs[0].x, cs[0].y, start, end))
  {
    if !isArabic {
      var x := CentredX(videoW, TextWidth(fontEn, line));
      var y := RowY(videoH, lineIdx);
      var chars := CharClipsUpTo(line, |line|, lineIdx, fontEn, x, y, start, end);
      NonSpaceIndicesCount(line, |line|);
      CharClipsSchedule(line, |line|, lineIdx, fontEn, x, y, start, end);
      assert line[..|line|] == line;
      var cs := LineClips(line, lineIdx, isArabic, fontEn, fontAr, shape, videoW, videoH, start, end);
      assert cs == [Clip(Background, lineIdx, x, y, start, end)] + chars;
      forall k | 1 <= k < |cs|
        ensures IsCharClip(cs[k], line, lineIdx, fontEn, cs[0].x, cs[0].y, start, end)
      {
        assert cs[k] == chars[k - 1];
      }
    }
  }

  // ----- one cue -----

  /** The clips of each line of a cue, in order: none for a blank line. */
  function LineGroups(lines: seq<string>, detect: string -> Option<string>, fontEn: Font, fontAr: Font, shape: string -> string, videoW: int, videoH: int, start: real, end: real): (gs: seq<seq<Clip>>)
    ensures |gs| == |lines|
  {
    seq(|lines|, i requires 0 <= i < |lines| =>
      if IsBlank(lines[i]) then [] else LineClips(lines[i], i, IsArabicLine(detect, lines[i]), fontEn, fontAr, shape, videoW, videoH, start, end))
  }

  /** The groups joined in order. */
  function Flatten(gs: seq<seq<Clip>>): seq<Clip> {
    if gs == [] then [] else Flatten(gs[..|gs| - 1]) + gs[|gs| - 1]
  }

  /** The clips of lines `lines[..n]`, a line keeping its index even when earlier lines are blank. */
  function CueClipsUpTo(lines: seq<string>, n: nat, detect: string -> Option<string>, fontEn: Font, fontAr: Font, shape: string -> string, videoW: int, videoH: int, start: real, end: real): seq<Clip>
    requires n <= |lines|
  {
    Flatten(LineGroups(lines, detect, fontEn, fontAr, shape, videoW, videoH, start, end)[..n])
  }

  /** Clips all of line `lineIdx`, on its row, and within the time span from `start` to `end`. */
  predicate OnRow(cs: seq<Clip>, lineIdx: nat, videoH: int, start: real, end: real) {
    forall k :: 0 <= k < |cs| ==>
      && cs[k].lineIdx == lineIdx && cs[k].y == RowY(videoH, lineIdx)
      && start <= cs[k].start && cs[k].end == end
  }

  /** Every clip of a line is on that line's row and lies within the cue's time span. */
  lemma LineClipsInCue(line: string, lineIdx: nat, isArabic: bool, fontEn: Font, fontAr: Font, shape: string -> string, videoW: int, videoH: int, start: real, end: real)
    ensures OnRow(LineClips(line, lineIdx, isArabic, fontEn, fontAr, shape, videoW, videoH, start, end), lineIdx, videoH, start, end)
  {
    LineClipsShape(line, lineIdx, isArabic, fontEn, fontAr, shape, videoW, videoH, start, end);
    var cs := LineClips(line, lineIdx, isArabic, fontEn, fontAr, shape, videoW, videoH, start, end);
    forall k | 1 <= k < |cs|
      ensures start <= cs[k].start
    {
      assert IsCharClip(cs[k], line, lineIdx, fontEn, cs[0].x, cs[0].y, start, end);
    }
  }

  /** What every clip of a cue's lines `lines[..n]` satisfies. */
  predicate InCueRow(c: Clip, lines: seq<string>, n: nat, videoH: int, start: real, end: real) {
    && c.lineIdx < n && c.lineIdx < |lines| && !IsBlank(lines[c.lineIdx])
    && c.y == RowY(videoH, c.lineIdx)
    && start <= c.start && c.end == end
  }

  /** Every clip of `cs` satisfies `InCueRow`. */
  predicate AllInCueRow(cs: seq<Clip>, lines: seq<string>, n: nat, videoH: int, start: real, end: real) {
    forall k :: 0 <= k < |cs| ==> InCueRow(cs[k], lines, n, videoH, start, end)
  }

  /** Clips that satisfy `InCueRow` for `n` lines satisfy it for more lines. */
  lemma AllInCueRowWider(cs: seq<Clip>, lines: seq<string>, n: nat, videoH: int, start: real, end: real)
    requires n < |lines|
    requires AllInCueRow(cs, lines, n, videoH, start, end)
    ensures AllInCueRow(cs, lines, n + 1, videoH, start, end)
  {
    forall k | 0 <= k < |cs|
      ensures InCueRow(cs[k], lines, n + 1, videoH, start, end)
    {
      assert InCueRow(cs[k], lines, n, videoH, start, end);
    }
  }

  /** Appending the clips of line `n`, which has some only when it is not blank, keeps every clip in its row. */
  lemma AllInCueRowAppend(prev: seq<Clip>, ls: seq<Clip>, lines: seq<string>, n: nat, videoH: int, start: real, end: real)
    requires n < |lines| && (ls != [] ==> !IsBlank(lines[n]))
    requires AllInCueRow(prev, lines, n, videoH, start, end)
    requires OnRow(ls, n, videoH, start, end)
    ensures AllInCueRow(prev + ls, lines, n + 1, videoH, start, end)
  {
    AllInCueRowWider(prev, lines, n, videoH, start, end);
    var cs := prev + ls;
    forall k | 0 <= k < |cs|
      ensures InCueRow(cs[k], lines, n + 1, videoH, start, end)
    {
      if k < |prev| {
        assert cs[k] == prev[k];
      } else {
        assert cs[k] == ls[k - |prev|];
      }
    }
  }

  /** Groups of clips, group `i` on the row of line `i` and empty when that line is blank. */
  predicate GroupsOnRows(gs: seq<seq<Clip>>, lines: seq<string>, videoH: int, start: real, end: real) {
    && |gs| <= |lines|
    && forall i :: 0 <= i < |gs| ==> OnRow(gs[i], i, videoH, start, end) && (gs[i] != [] ==> !IsBlank(lines[i]))
  }

  /** A cue's line groups are each on their line's row, and a blank line's group is empty. */
  lemma LineGroupsOnRows(lines: seq<string>, n: nat, detect: string -> Option<string>, fontEn: Font, fontAr: Font, shape: string -> string, videoW: int, videoH: int, start: real, end: real)
    requires n <= |lines|
    ensures GroupsOnRows(LineGroups(lines, detect, fontEn, fontAr, shape, videoW, videoH, start, end)[..n], lines, videoH, start, end)
  {
    var gs := LineGroups(lines, detect, fontEn, fontAr, shape, videoW, videoH, start, end);
    forall i | 0 <= i < n
      ensures OnRow(gs[..n][i], i, videoH, start, end) && (gs[..n][i] != [] ==> !IsBlank(lines[i]))
    {
      if !IsBlank(lines[i]) {
        LineClipsInCue(lines[i], i, IsArabicLine(detect, lines[i]), fontEn, fontAr, shape, videoW, videoH, start, end);
      }
    }
  }

  /** Dropping the last group keeps the groups on their rows. */
  lemma GroupsOnRowsInit(gs: seq<seq<Clip>>, lines: seq<string>, videoH: int, start: real, end: real)
    requires gs != [] && GroupsOnRows(gs, lines, videoH, start, end)
    ensures GroupsOnRows(gs[..|gs| - 1], lines, videoH, start, end)
  {
    forall i | 0 <= i < |gs| - 1
      ensures gs[..|gs| - 1][i] == gs[i]
    {
    }
  }

  /** Joined groups that are on their rows have every clip in its row. */
  lemma {:induction false} FlattenRows(gs: seq<seq<Clip>>, lines: seq<string>, videoH: int, start: real, end: real)
    requires GroupsOnRows(gs, lines, videoH, start, end)
    ensures AllInCueRow(Flatten(gs), lines, |gs|, videoH, start, end)
  {
    if gs != [] {
      var init := gs[..|gs| - 1];
      GroupsOnRowsInit(gs, lines, videoH, start, end);
      FlattenRows(init, lines, videoH, start, end);
      AllInCueRowAppend(Flatten(init), gs[|gs| - 1], lines, |gs| - 1, videoH, start, end);
    }
  }

  /**
   * Every clip of a cue comes from a non-blank line, sits on the row of that
   * line's index (blank lines still use up a row), ends with the cue and starts
   * no earlier than the cue.
   */
  lemma CueClipsRows(lines: seq<string>, n: nat, detect: string -> Option<string>, fontEn: Font, fontAr: Font, shape: string -> string, videoW: int, videoH: int, start: real, end: real)
    requires n <= |lines|
    ensures AllInCueRow(CueClipsUpTo(lines, n, detect, fontEn, fontAr, shape, videoW, videoH, start, end), lines, n, videoH, start, end)
  {
    LineGroupsOnRows(lines, n, detect, fontEn, fontAr, shape, videoW, videoH, start, end);
    FlattenRows(LineGroups(lines, detect, fontEn, fontAr, shape, videoW, videoH, start, end)[..n], lines, videoH, start, end);
  }

  /** Clips that all come from lines before `n`. */
  predicate Before(cs: seq<Clip>, n: nat) {
    forall k :: 0 <= k < |cs| ==> cs[k].lineIdx < n
  }

  /** Clips whose line indices never decrease. */
  predicate LineOrdered(cs: seq<Clip>) {
    forall j, k :: 0 <= j < k < |cs| ==> cs[j].lineIdx <= cs[k].lineIdx
  }

  /** Appending clips of line `m` to ordered clips of lines up to `m` keeps them ordered. */
  lemma LineOrderedAppend(prev: seq<Clip>, ls: seq<Clip>, m: nat, videoH: int, start: real, end: real)
    requires LineOrdered(prev)
    requires Before(prev, m + 1)
    requires OnRow(ls, m, videoH, start, end)
    ensures LineOrdered(prev + ls)
  {
    var cs := prev + ls;
    forall j, k | 0 <= j < k < |cs|
      ensures cs[j].lineIdx <= cs[k].lineIdx
    {
      if k < |prev| {
        assert cs[j] == prev[j] && cs[k] == prev[k];
      } else if j < |prev| {
        assert cs[j] == prev[j] && cs[k] == ls[k - |prev|];
      } else {
        assert cs[j] == ls[j - |prev|] && cs[k] == ls[k - |prev|];
      }
    }
  }

  /** Joined groups that are on their rows come line by line, in line order. */
  lemma {:induction false} FlattenOrdered(gs: seq<seq<Clip>>, lines: seq<string>, videoH: int, start: real, end: real)
    requires GroupsOnRows(gs, lines, videoH, start, end)
    ensures LineOrdered(Flatten(gs))
  {
    if gs != [] {
      var init := gs[..|gs| - 1];
      GroupsOnRowsInit(gs, lines, videoH, start, end);
      FlattenOrdered(init, lines, videoH, start, end);
      FlattenRows(init, lines, videoH, start, end);
      assert Before(Flatten(init), |gs|);
      LineOrderedAppend(Flatten(init), gs[|gs| - 1], |gs| - 1, videoH, start, end);
    }
  }

  /** A cue's clips come line by line, in the order of the lines. */
  lemma CueClipsLineOrder(lines: seq<string>, n: nat, detect: string -> Option<string>, fontEn: Font, fontAr: Font, shape: string -> string, videoW: int, videoH: int, start: real, end: real)
    requires n <= |lines|
    ensures LineOrdered(CueClipsUpTo(lines, n, detect, fontEn, fontAr, shape, videoW, videoH, start, end))
  {
    LineGroupsOnRows(lines, n, detect, fontEn, fontAr, shape, videoW, videoH, start, end);
    FlattenOrdered(LineGroups(lines, detect, fontEn, fontAr, shape, videoW, videoH, start, end)[..n], lines, videoH, start, end);
  }

  /** The body of `for sub in subs`: the inner loops over lines and characters. */
  method CueClips(cue: Cue, detect: string -> Option<string>, fontEn: Font, fontAr: Font, shape: string -> string, videoW: int, videoH: int)
    returns (cs: seq<Clip>)
    ensures var lines := SplitOn(cue.text, '\n');
      cs == CueClipsUpTo(lines, |lines|, detect, fontEn, fontAr, shape, videoW, videoH, CueStart(cue), CueEnd(cue))
  {
    var lines := SplitOn(cue.text, '\n');
    var start, end := CueStart(cue), CueEnd(cue);
    cs := [];
    ghost var gs := LineGroups(lines, detect, fontEn, fontAr, shape, videoW, videoH, start, end);
    for lineIdx := 0 to |lines|
      invariant cs == Flatten(gs[..lineIdx])
    {
      assert gs[..lineIdx + 1][..lineIdx] == gs[..lineIdx];
      var line := lines[lineIdx];
      if IsBlank(line) {
        continue;
      }
      var y := RowY(videoH, lineIdx);
      if IsArabicLine(detect, line) {
        var x := CentredX(videoW, TextWidth(fontAr, shape(line)));
        cs := cs + [Clip(LineImage, lineIdx, x, y, start, end)];
      } else {
        var x := CentredX(videoW, TextWidth(fontEn, line));
        cs := cs + [Clip(Background, lineIdx, x, y, start, end)];
        var chars := LineCharClips(line, lineIdx, fontEn, x, y, start, end);
        cs := cs + chars;
      }
    }
  }

  // ----- all cues -----

  /** The clips of all cues, in cue order. */
  function AllClips(subs: seq<Cue>, detect: string -> Option<string>, fontEn: Font, fontAr: Font, shape: string -> string, videoW: int, videoH: int): seq<Clip> {
    if subs == [] then []
    else
      var cue := subs[|subs| - 1];
      var lines := SplitOn(cue.text, '\n');
      AllClips(subs[..|subs| - 1], detect, fontEn, fontAr, shape, videoW, videoH)
        + CueClipsUpTo(lines, |lines|, detect, fontEn, fontAr, shape, videoW, videoH, CueStart(cue), CueEnd(cue))
  }

  /** `create_subtitle_clips(video, subs, font_english, font_arabic)`. */
  method CreateSubtitleClips(subs: seq<Cue>, detect: string -> Option<string>, fontEn: Font, fontAr: Font, shape: string -> string, videoW: int, videoH: int)
    returns (clips: seq<Clip>)
    ensures clips == AllClips(subs, detect, fontEn, fontAr, shape, videoW, videoH)
  {
    clips := [];
    for i := 0 to |subs|
      invariant clips == AllClips(subs[..i], detect, fontEn, fontAr, shape, videoW, videoH)
    {
      assert subs[..i + 1][..i] == subs[..i];
      var cs := CueClips(subs[i], detect, fontEn, fontAr, shape, videoW, videoH);
      clips := clips + cs;
    }
    assert subs[..|subs|] == subs;
  }
}
