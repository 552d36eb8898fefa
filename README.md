# Quran subtitle video scripts, modelled in Dafny

The `projects/audio_to_text` scripts turn a surah's verse timings and verse
texts into SRT subtitles. They then render those subtitles onto a recitation
video as animated clips: character-by-character reveals, sliding reveals,
stacked Arabic and English lines, per-character clips, and a cv2 overlay loop
with a typing effect and a fade. They also write a YouTube title and
description for each surah.

Most of the code is glue around moviepy, PIL, cv2 and web APIs. This project
models the rules the scripts compute themselves. Several scripts repeat the
same rule with different constants, so each rule is modelled once, and the
per-script constants are parameters or named `const`s.

| module | file | what it models |
|---|---|---|
| `Text` | text.dfy | the Python string built-ins the scripts rely on: `strip`, `split()`, `split('\n')`, `join`, `str(n)`, `f"{n:0w}"`, `[::-1]` |
| `Wrappers` | wrappers.dfy | `Option`, used for the failure paths (a `KeyError`, a division by zero, a detector exception) |
| `RealMath` | real_math.dfy | `min`, `max` and `int()` on floats (truncation), with order facts about ratios and floors |
| `SrtTime` | srt_time.dfy | the three `ms_to_srt_time` chains (hours last, hours first, and the faulty one in video_generator.py), the timestamp format, and a reader for it |
| `HtmlClean` | html_clean.dfy | the three `clean_html_tags` variants, as functions implementing the regular expressions they use |
| `SrtGen` | srt_gen.dfy | `generate_srt`: the verse index, the skipped timings, the numbered five-line blocks, the joined text |
| `WordWrap` | word_wrap.dfy | `wrap_text`'s greedy loop over an abstract width measure |
| `Reveal` | reveal.dfy | the character-paced reveals (`create_arabic_animation`, `create_english_animation`, `animate_arabic_text.get_frame`) |
| `Slide` | slide.dfy | `create_slide_animation` and `create_rtl_arabic_animation`: the canvas geometry and the frames, as sequences of pixel columns |
| `MultiLinePanel` | panel.dfy | the multi-line branch of `process_subtitle_line` in quran_video_generator_updated.py: metrics and the drawing loop |
| `Layout` | layout.dfy | the Arabic/English split and slot positions of `create_subtitle_clips` in the three grouped versions, and header stacking |
| `CharClips` | char_clips.dfy | the per-line, per-character clip schedule of `create_subtitle_clips` in video_generator.py and animation_moviepy.py |
| `Overlay` | overlay.dfy | `process_video` of animated_video_generator.py: active cues, language test, typing progress, fade, line stacking, and the frame loop |
| `BengaliNames` | bengali_names.dfy | the `BENGALI_NAMES` table |
| `SurahDesc` | surah_desc.dfy | `generate_markdown` and the output file name and content of `main` in surah_desc_generator.py |

Foreign calls are parameters of the model, so every statement holds whatever
they return:
- Arabic shaping and bidi (`arabic_reshaper.reshape`, `get_display`): `shape`/`display: string -> string`.
- Font metrics (`getbbox`, `getlength`): a `Font` record of functions.
- `langdetect.detect`: `string -> Option<string>`, where `None` is the exception.
- `process_subtitle_line`'s rendering: `(string, bool) -> Option<int>`, the width the script centres the clip on, or a failure. That is the canvas width returned by `process_subtitle_line` in quran_video_generator.py and quran_video_generator_updated.py, and the text width from `preprocess_subtitle` in video_generator_new.py, whose canvas is 20 pixels wider.
- `cv2.getTextSize`: a function of the text.

Times are exact reals; Python's `int()` on a non-negative float is `Floor`.

## Model

| member | source | states |
|---|---|---|
| SrtTime.Decompose | projects/audio_to_text/quran_video_generator_updated.py:82-87 | the divmod chain gives minutes and seconds below 60 and milliseconds below 1000, and the fields add back up to the input |
| SrtTime.DecomposeUnique | projects/audio_to_text/video_generator_new.py:83-88 | in-range fields that add up to `ms` are exactly the decomposition, so any correct chain agrees with it |
| SrtTime.DecomposeHoursFirst | projects/audio_to_text/json_to_srt_generator.py:5-10 | the hours-first chain gives hours = ms // 3600000 |
| SrtTime.HoursFirstAgrees | projects/audio_to_text/json_to_srt_generator.py:5-10 | the hours-first chain of json_to_srt_generator.py and the hours-last chain of the video generators compute the same fields for every input |
| SrtTime.AsWrittenFields | projects/audio_to_text/video_generator.py:69-74 | the faulty chain always gives hours 0, minutes = ms // 60000 (not reduced mod 60), seconds = (ms // 1000) % 60, millis = ms % 1000 |
| SrtTime.AsWrittenCorrectIffUnderAnHour | projects/audio_to_text/video_generator.py:69-74 | the faulty chain agrees with the correct one exactly when ms is below one hour |
| SrtTime.FormatShape | projects/audio_to_text/quran_video_generator.py:77-82 | `HH:MM:SS,mmm`: hours padded to at least two digits, then exactly `:` two digits `:` two digits `,` three digits |
| SrtTime.FormatChars | projects/audio_to_text/quran_video_generator.py:82 | a timestamp holds only digits, `:` and `,` |
| SrtTime.ParseMsToSrtTime | projects/audio_to_text/quran_video_generator_updated.py:82-87 | every timestamp the video generators write reads back as the millisecond count it came from |
| SrtTime.ParseMsToSrtTimeHoursFirst | projects/audio_to_text/json_to_srt_generator.py:5-10 | the same round trip for json_to_srt_generator.py |
| SrtTime.MsToSrtTimeWidth | projects/audio_to_text/quran_video_generator.py:77-82 | below 100 hours a timestamp is exactly 12 characters |
| SrtTime.AsWrittenOneHour | projects/audio_to_text/video_generator.py:71-74 | at 3600000 ms the faulty chain writes `00:60:00,000`, which the reader rejects; the correct chain writes `01:00:00,000` |
| SrtTime.MinuteSixtyRejected | projects/audio_to_text/video_generator.py:74 | a timestamp with minute 60 does not read back |
| HtmlClean.StripTags | projects/audio_to_text/json_to_srt_generator.py:14 | after `<[^>]*>` is removed, no `<` has a `>` after it, and only characters of the input remain |
| HtmlClean.StripNonEmptyTags | projects/audio_to_text/quran_video_generator_updated.py:95 | after `<[^>]+>` is removed, the only `<` with a later `>` is an empty `<>`, and only characters of the input remain |
| HtmlClean.FindClose | projects/audio_to_text/quran_video_generator_updated.py:93 | the lazy `.*?` ends at the first `</sup>`, or there is none |
| HtmlClean.SupMatchLength | projects/audio_to_text/quran_video_generator_updated.py:93 | a match of `<sup[^>]*>.*?</sup>` starts with `<sup`, ends with `</sup>` and lies within the text |
| HtmlClean.SupMatchLengthAt | projects/audio_to_text/quran_video_generator_updated.py:93 | the match runs from `<sup` through its first `>` to the first `</sup>` after it |
| HtmlClean.StripSupBlocks | projects/audio_to_text/quran_video_generator_updated.py:93 | removing footnote blocks keeps only characters of the input |
| HtmlClean.RemoveBrackets | projects/audio_to_text/quran_video_generator_updated.py:97 | no `˹` or `˺` is left, and every other character keeps its count |
| HtmlClean.RemoveBracketsKeepsNoClosedTag | projects/audio_to_text/json_to_srt_generator.py:14-15 | removing the brackets after the tags cannot create a new tag |
| HtmlClean.RemoveBracketsKeepsOnlyEmptyTags | projects/audio_to_text/quran_video_generator_updated.py:95-97 | the same for the `<[^>]+>` variant |
| HtmlClean.RemoveBracketsIdentity | projects/audio_to_text/quran_video_generator_updated.py:97 | text without brackets is left unchanged |
| HtmlClean.StripTagsIdentity | projects/audio_to_text/json_to_srt_generator.py:14 | text in which no tag can start is left unchanged |
| HtmlClean.StripTagsIdempotent | projects/audio_to_text/video_generator.py:78-80 | removing tags a second time changes nothing |
| HtmlClean.StripTagsPrefix | projects/audio_to_text/json_to_srt_generator.py:14 | text before the first `<` is copied through unchanged |
| HtmlClean.StripTagsRemovesTag | projects/audio_to_text/json_to_srt_generator.py:14 | a whole tag `<t>` is removed and the text around it is kept |
| HtmlClean.StripTagsAtTag | projects/audio_to_text/json_to_srt_generator.py:14 | a text starting with a tag loses exactly that tag |
| HtmlClean.StripNonEmptyTagsPrefix | projects/audio_to_text/quran_video_generator_updated.py:95 | text before the first `<` is copied through unchanged |
| HtmlClean.StripNonEmptyTagsRemovesTag | projects/audio_to_text/quran_video_generator_updated.py:95 | a tag with a non-empty body is removed; `<>` is kept |
| HtmlClean.StripNonEmptyTagsAtTag | projects/audio_to_text/quran_video_generator_updated.py:95 | a text starting with a tag loses it when its body is non-empty and keeps `<>` otherwise |
| HtmlClean.StripSupBlocksPrefix | projects/audio_to_text/quran_video_generator_updated.py:93 | text before the first `<` is copied through unchanged |
| HtmlClean.StripSupBlocksRemovesFootnote | projects/audio_to_text/quran_video_generator_updated.py:92-93 | a footnote `<sup a>b</sup>` is removed together with its number, and the text around it is kept |
| HtmlClean.StripSupBlocksAtFootnote | projects/audio_to_text/quran_video_generator_updated.py:93 | a text starting with a footnote block loses exactly that block |
| HtmlClean.FindCloseAfterText | projects/audio_to_text/quran_video_generator_updated.py:93 | in `b</sup>y` with no `<` in `b`, the lazy match ends at the `</sup>` after `b` |
| HtmlClean.CleanSimpleClean | projects/audio_to_text/json_to_srt_generator.py:12-15 | the cleaned text has no `<` followed later by `>`, no bracket, and no whitespace at either end |
| HtmlClean.CleanSupClean | projects/audio_to_text/quran_video_generator_updated.py:90-97 | the cleaned text has no tag left except `<>`, no bracket, and no whitespace at either end |
| HtmlClean.CleanDoublePassIsSimple | projects/audio_to_text/video_generator.py:76-81 | the second pass of video_generator.py finds nothing left to remove, so its result is json_to_srt_generator.py's |
| HtmlClean.CleanPlainText | projects/audio_to_text/quran_video_generator_updated.py:90-97 | text with no `<` and no bracket is only stripped, by each of the three variants |
| SrtGen.BuildIndex | projects/audio_to_text/json_to_srt_generator.py:19 | every verse record is indexed under its own `verse_key` |
| SrtGen.BuildIndexKeys | projects/audio_to_text/json_to_srt_generator.py:19 | the index has exactly the keys that occur in the records |
| SrtGen.BuildIndexLastWins | projects/audio_to_text/json_to_srt_generator.py:19 | for a repeated key, the last record with that key is the one kept |
| SrtGen.BuildIndexMember | projects/audio_to_text/json_to_srt_generator.py:19 | every indexed record is one of the input records |
| SrtGen.Matched | projects/audio_to_text/json_to_srt_generator.py:24-28 | the timings that are not skipped all have their key in the index, and there are no more of them than timings |
| SrtGen.MatchedCounts | projects/audio_to_text/json_to_srt_generator.py:24-28 | a timing whose key exists is kept once per occurrence; one whose key is missing is dropped |
| SrtGen.MatchedAppend | projects/audio_to_text/json_to_srt_generator.py:24-28 | skipping distributes over concatenation, so the kept timings (and the block numbers 1..n) follow `verse_timings` order |
| SrtGen.MatchedAll | projects/audio_to_text/quran_video_generator.py:95-121 | when every key exists, no timing is skipped |
| SrtGen.GenerateSrt | projects/audio_to_text/json_to_srt_generator.py:17-44 | the loop with its counter returns exactly the joined blocks of the matched timings, numbered from 1, in each script's variant |
| SrtGen.SrtLinesLength | projects/audio_to_text/video_generator.py:101-105 | five lines per matched timing |
| SrtGen.SrtLinesBlock | projects/audio_to_text/quran_video_generator_updated.py:100-126 | lines 5k to 5k+4 are block number k+1: the number, `start --> end`, the Arabic text, the cleaned English text and `""`, built from the k-th matched timing in timing order |
| SrtGen.JoinedLinesEnding | projects/audio_to_text/json_to_srt_generator.py:40-44 | the last line is the blank one, so the joined text ends with its line break |
| SrtGen.SrtEnding | projects/audio_to_text/json_to_srt_generator.py:40-44 | with no matched timing the output is `""`; otherwise it is the other lines joined, followed by one `\n` |
| SrtGen.TimingLineNoBreak | projects/audio_to_text/video_generator_new.py:116-120 | a timing line holds no line break |
| SrtGen.LinesWithoutBreaks | projects/audio_to_text/quran_video_generator.py:95-121 | lines built from pieces without breaks hold no break |
| SrtGen.SrtSplitsIntoLines | projects/audio_to_text/video_generator_new.py:101-127 | when no verse text holds a line break, splitting the output on `\n` gives back exactly the lines of the blocks |
| SrtGen.ParseJoinedTimestamps | projects/audio_to_text/json_to_srt_generator.py:37 | `a --> b` reads back as the two timestamps' values |
| SrtGen.TimeParses | projects/audio_to_text/video_generator.py:69-74 | each script's timestamp reads back as its millisecond count; in video_generator.py only below one hour |
| SrtGen.TimingLineRoundTrip | projects/audio_to_text/json_to_srt_generator.py:33-37 | the `start --> end` line reads back as the timing's two millisecond counts |
| WordWrap.WrapText | projects/audio_to_text/quran_video_generator_updated.py:129-162 | the loop over words returns the greedy grouping of the prepared text's words, each group joined by spaces |
| WordWrap.JoinEach | projects/audio_to_text/quran_video_generator_updated.py:156-160 | each returned line is its word group joined with single spaces |
| WordWrap.RunGood | projects/audio_to_text/quran_video_generator_updated.py:147-157 | the loop's invariant: the closed lines plus the current one spell the words read so far, no closed line is empty, lines of two or more words fit, and each closing was forced |
| WordWrap.StepGood | projects/audio_to_text/quran_video_generator_updated.py:149-157 | one turn of the loop keeps that invariant |
| WordWrap.GroupsPreserveWords | projects/audio_to_text/quran_video_generator_updated.py:143-162 | the lines, as word lists, hold exactly the input words, in order |
| WordWrap.GroupsNonEmpty | projects/audio_to_text/quran_video_generator_updated.py:155-160 | no line is empty, and there are no lines exactly when there are no words |
| WordWrap.GroupsFit | projects/audio_to_text/quran_video_generator_updated.py:149-153 | every line of two or more words measures at most `max_width` |
| WordWrap.GroupsBreaksForced | projects/audio_to_text/quran_video_generator_updated.py:152-157 | greedy: each line was closed only because the next line's first word would not fit on it |
| WordWrap.WideWordAlone | projects/audio_to_text/quran_video_generator_updated.py:147-157 | under a measure where no piece is wider than the whole, a word wider than `max_width` sits alone on its line |
| WordWrap.WordNarrowerThanLine | projects/audio_to_text/quran_video_generator_updated.py:149-150 | under such a measure, no word of a line is wider than the line |
| WordWrap.WordsOfJoinEach | projects/audio_to_text/quran_video_generator_updated.py:156-160 | splitting the joined lines gives back the words of the groups |
| WordWrap.FlattenMember | projects/audio_to_text/quran_video_generator_updated.py:143-160 | every word of a line is one of the words |
| WordWrap.WrapLinesPreserveWords | projects/audio_to_text/quran_video_generator_updated.py:129-162 | the output lines, split and concatenated, equal `text.split()` of the (reshaped and reversed when Arabic) text; no line is empty; blank text gives `[]` |
| WordWrap.WrapLinesFit | projects/audio_to_text/quran_video_generator_updated.py:147-157 | every output line of two or more words measures at most `max_width` |
| Reveal.CharsToShow | projects/audio_to_text/quran_video_generator.py:190 | the count lies in [0, len]; an empty line divides by zero |
| Reveal.CharsToShowValue | projects/audio_to_text/video_generator_new.py:209 | for a non-empty line the count is `floor(len * min(1, t / (len * speed)))` |
| Reveal.CharsToShowPaced | projects/audio_to_text/quran_video_generator.py:190 | the count is min(len, floor(t / speed)): one character every `speed` seconds |
| Reveal.CharsToShowStart | projects/audio_to_text/quran_video_generator.py:190 | nothing is shown at t = 0 |
| Reveal.CharsToShowFull | projects/audio_to_text/video_generator_new.py:209 | from `len * speed` seconds on, the whole line is shown |
| Reveal.CharsToShowMonotone | projects/audio_to_text/video_generator_new.py:209 | the count never decreases as t grows |
| Reveal.ArabicFrame | projects/audio_to_text/quran_video_generator.py:182-201 | the drawn text is `display[:chars_to_show]` with the count from `CharsToShow` at ARABIC_ANIMATION_SPEED, right-aligned so that x + its width = total_width + 10, at y = 10 |
| Reveal.ArabicFrameInOrder | projects/audio_to_text/quran_video_generator.py:174-196 | with the line itself as display text, the drawn text is `line[:chars_to_show]` with the `CharsToShow` count, right-aligned, at y = 10 |
| Reveal.ArabicFrameReversed | projects/audio_to_text/video_generator_new.py:190-214 | with `line[::-1]` as display text, the drawn text is the reversal of the line's last k characters, where k is the `CharsToShow` count; right-aligned, at y = 10 |
| Reveal.EnglishFrame | projects/audio_to_text/video_generator_new.py:240-250 | the drawn text is `line[:chars_to_show]` with the `CharsToShow` count at CHAR_ANIMATION_DELAY, at (10, 10) |
| Reveal.ArabicFrameGrows | projects/audio_to_text/quran_video_generator.py:190-191 | the drawn Arabic text only grows, each frame's text extending every earlier frame's, and from len * ARABIC_ANIMATION_SPEED seconds on it is the whole display text |
| Reveal.EnglishFrameGrows | projects/audio_to_text/quran_video_generator.py:227-228 | the English text only grows, and is the whole line from `len * CHAR_ANIMATION_DELAY` seconds on |
| Reveal.ClampedProgress | projects/audio_to_text/arabic_new_anim.py:47 | progress lies in [0, 1] for every t; a zero duration divides by zero |
| Reveal.ClampedChars | projects/audio_to_text/arabic_new_anim.py:50 | the count lies in [0, len(display_text)] |
| Reveal.ClampedCharsEnds | projects/audio_to_text/arabic_new_anim.py:47-50 | 0 for t ≤ 0, and the whole text for t ≥ duration |
| Reveal.ClampedCharsMonotone | projects/audio_to_text/arabic_new_anim.py:47-50 | the count never decreases as t grows |
| Reveal.ClampedFrame | projects/audio_to_text/arabic_new_anim.py:29-64 | the drawn text is `display_text[:chars_to_show]` of the reversed shaped text, with the `ClampedChars` count; right-aligned 20 pixels from the frame's right edge, at y = 35 |
| Slide.ZeroColumn | projects/audio_to_text/quran_video_generator.py:324 | a padding column is `height` transparent pixels |
| Slide.Zeros | projects/audio_to_text/rtl_animation.py:36 | `np.zeros((h, w, 4))` is a w by h image of transparent pixels |
| Slide.Window | projects/audio_to_text/quran_video_generator.py:322-329 | keeping the columns in [lo, hi) of the image and making every other column transparent leaves the width unchanged |
| Slide.SlideCanvas | projects/audio_to_text/quran_video_generator.py:297-314 | canvas = text box + 40 wide and + h_pad tall; RTL text starts at x = 30 (10 from the right edge), LTR text at (10, 10) |
| Slide.SlideCanvasHoldsText | projects/audio_to_text/quran_video_generator_updated.py:765-782 | the text box, taken at its origin, lies inside the canvas when the padding covers its vertical offset |
| Slide.SlideCanvasHoldsInk | projects/audio_to_text/quran_video_generator_updated.py:765-782 | with PIL's ink offsets (x + left .. x + right, y + top .. y + bottom), the ink lies inside the canvas when the left offset is at most 10 and the padding covers the top offset plus the text's y |
| Slide.RtlCanvas | projects/audio_to_text/rtl_animation.py:15-23 | canvas = text box + 100 wide and + 40 tall; text at x = canvas_width - text_width - 20 = 80, y = 20 |
| Slide.SlideWidth | projects/audio_to_text/quran_video_generator_updated.py:786-788 | during the reveal `visible_width` lies in [0, canvas_width), strictly below the width for a non-empty canvas |
| Slide.SlideWidthMonotone | projects/audio_to_text/quran_video_generator.py:318-320 | the revealed width never shrinks during the reveal |
| Slide.SlideWidthStart | projects/audio_to_text/video_generator_new.py:636-638 | nothing is revealed at t = 0 |
| Slide.SlideFrame | projects/audio_to_text/quran_video_generator_updated.py:785-801 | every frame is canvas_width by canvas_height, and from `min(cap, duration)` on it is the full image (cap 2.0, 3.0 or 5.0 by script) |
| Slide.SlideFrameWindow | projects/audio_to_text/quran_video_generator_updated.py:790-797 | during the reveal RTL keeps the rightmost `visible_width` columns behind left padding, LTR the leftmost ones before right padding |
| Slide.SlideFrameKeepsColumns | projects/audio_to_text/video_generator_new.py:635-651 | a column once shown stays shown, unchanged, in every later frame |
| Slide.SlideFrameStartBlank | projects/audio_to_text/quran_video_generator.py:317-329 | the first frame is fully transparent |
| Slide.WindowWidth | projects/audio_to_text/rtl_animation.py:28-29 | `visible_width` lies in [0, canvas_width]; a zero duration divides by zero |
| Slide.WindowWidthValue | projects/audio_to_text/rtl_animation.py:28-29 | `visible_width = floor(canvas_width * min(1, t / duration))` |
| Slide.WindowWidthMonotone | projects/audio_to_text/rtl_animation.py:28-29 | `visible_width` never decreases as t grows |
| Slide.WindowWidthFull | projects/audio_to_text/video_generator_new.py:578-579 | from `duration` on the whole canvas is visible |
| Slide.WindowFrame | projects/audio_to_text/rtl_animation.py:27-41 | every frame has the canvas's size; a zero duration divides by zero |
| Slide.WindowFrameReveals | projects/audio_to_text/rtl_animation.py:32-39 | the frame is left padding of width canvas_width - visible_width followed by the rightmost `visible_width` columns |
| Slide.WindowFrameEnds | projects/audio_to_text/video_generator_new.py:577-591 | the frame at t = 0 is fully transparent; from `duration` on it is the full pre-rendered image |
| MultiLinePanel.MaxWidth | projects/audio_to_text/quran_video_generator_updated.py:314-335 | `max_line_width` is non-negative, at least every line's width, and is 0 or one of the widths |
| MultiLinePanel.Measure | projects/audio_to_text/quran_video_generator_updated.py:313-339 | the measuring loop gives the line heights (bbox height + 10), `total_width = max_line_width + 60` and `total_height = sum(line_heights) + 40` |
| MultiLinePanel.Draw | projects/audio_to_text/quran_video_generator_updated.py:353-377 | the drawing loop places each line where the placement function says |
| MultiLinePanel.PanelLinesStacked | projects/audio_to_text/quran_video_generator_updated.py:353-377 | `y_offset` starts at 25 and each next line starts where the previous line's height ends |
| MultiLinePanel.PanelLinesInside | projects/audio_to_text/quran_video_generator_updated.py:366-374 | Arabic lines at x = total_width - w - 30, English at x = 30, all within the 30-pixel margins; with sound bounding boxes, lines lie between y = 25 and 15 pixels above the bottom |
| Layout.SplitByLanguage | projects/audio_to_text/quran_video_generator_updated.py:822-832 | the loop fills the two groups with the Arabic and the English non-blank lines |
| Layout.SplitIsPartition | projects/audio_to_text/quran_video_generator.py:353-363 | every non-blank line lands in exactly one group; Arabic are those the detector calls `ar`, and English all others, including lines whose detection fails |
| Layout.ArabicAboveEnglish | projects/audio_to_text/video_generator_new.py:327-351 | every Arabic y is above every English y by at least the spacing plus 80, and slots in one group are one spacing apart |
| Layout.Placed | projects/audio_to_text/quran_video_generator_updated.py:836-871 | a group gives at most one slot per line |
| Layout.PlacedEveryLine | projects/audio_to_text/quran_video_generator.py:365-411 | when rendering never fails, line i gets slot i at x = (W - canvas_width)/2, with the cue's start and duration |
| Layout.PlacedCountedPacked | projects/audio_to_text/quran_video_generator_updated.py:835-851 | with `arabic_line_count`, the k-th placed Arabic line takes slot k whichever lines failed, and only lines that rendered are placed |
| Layout.GroupYOrder | projects/audio_to_text/quran_video_generator.py:373-397 | a later slot of a group lies at least one spacing above an earlier one |
| Layout.PlacedIndexed | projects/audio_to_text/video_generator_new.py:319-367 | with slots indexed by position, the slots of a group lie between its first and last slot, each later one at least a spacing above every earlier one |
| Layout.PlacedCentred | projects/audio_to_text/quran_video_generator_updated.py:841-847 | every slot has x = (W - w)/2 for the width w rendering reported for its line (its canvas width here, so it is centred), and carries the cue's start and duration |
| Layout.PlaceCue | projects/audio_to_text/quran_video_generator.py:343-411 | the body of `for sub in subs` places the Arabic group and then the English group |
| Layout.PlaceArabic | projects/audio_to_text/quran_video_generator_updated.py:835-853 | the Arabic loop places the group, counting placed lines in the updated script |
| Layout.PlaceEnglish | projects/audio_to_text/quran_video_generator_updated.py:856-871 | the English loop places the group by index |
| Layout.CueArabicAboveEnglish | projects/audio_to_text/quran_video_generator_updated.py:822-862 | in every version, each Arabic clip of a cue is above each English clip by at least the spacing plus 80 |
| Layout.CreateSubtitleClips | projects/audio_to_text/quran_video_generator_updated.py:806-873 | the clips of all cues, in cue order |
| Layout.HeaderPositions | projects/audio_to_text/quran_video_generator.py:440-458 | the three headers are centred; the first is at y = 136, and each next one at the previous y + the previous canvas height + the gap (20 and 20, or 40 and 10 in the updated script); with either script's gaps each header canvas ends above the next header's top, so headers never overlap |
| CharClips.LinePanel | projects/audio_to_text/animation_moviepy.py:73-95 | the panel is the text box + 20 in each dimension, with the text at (10, 10) |
| CharClips.NonSpaceIndices | projects/audio_to_text/video_generator.py:255-257 | the characters the loop does not skip lie before the loop bound |
| CharClips.NonSpaceIndicesSound | projects/audio_to_text/animation_moviepy.py:174-176 | the indices kept are indices of non-space characters |
| CharClips.NonSpaceIndicesIncreasing | projects/audio_to_text/video_generator.py:255 | the kept indices strictly increase |
| CharClips.NonSpaceIndicesComplete | projects/audio_to_text/video_generator.py:255-257 | every non-space character is kept |
| CharClips.NonSpaceIndicesCount | projects/audio_to_text/video_generator.py:255-257 | there is one kept index per non-space character of the line |
| CharClips.CharClipsSnoc | projects/audio_to_text/animation_moviepy.py:174-204 | one turn of the character loop adds a clip for a non-space character and nothing for a space |
| CharClips.CharClipsSchedule | projects/audio_to_text/video_generator.py:263-268 | each clip shows a non-space character at x = base_x + width(line[:i]), starting at start + i * CHAR_ANIMATION_DELAY and ending at `end_time`; indices and start times strictly increase |
| CharClips.LineCharClips | projects/audio_to_text/video_generator.py:255-271 | the character loop returns exactly those clips |
| CharClips.RowY | projects/audio_to_text/video_generator.py:186 | a line's row is `H - SUBTITLE_HEIGHT - line_idx * LINE_SPACING` |
| CharClips.LineClipsShape | projects/audio_to_text/video_generator.py:182-271 | an Arabic line gives one clip, an English line a background plus one clip per non-space character; the first clip spans [start, end] centred on the line's width, and all are on the line's row |
| CharClips.LineGroups | projects/audio_to_text/animation_moviepy.py:107-110 | one group of clips per line of the cue, blank lines included |
| CharClips.LineClipsInCue | projects/audio_to_text/animation_moviepy.py:157-201 | every clip of a line is on that line's row, starts no earlier than the cue and ends with it |
| CharClips.LineGroupsOnRows | projects/audio_to_text/video_generator.py:171-173 | group i is on the row of line i and is empty when that line is blank |
| CharClips.FlattenRows | projects/audio_to_text/video_generator.py:171-271 | the joined groups keep every clip on the row of its own line |
| CharClips.CueClipsRows | projects/audio_to_text/animation_moviepy.py:107-110 | every clip of a cue comes from a non-blank line and sits on the row of that line's index, blank lines still using up a row; it ends with the cue and starts no earlier |
| CharClips.FlattenOrdered | projects/audio_to_text/animation_moviepy.py:107-204 | the joined groups come line by line |
| CharClips.CueClipsLineOrder | projects/audio_to_text/video_generator.py:171-271 | a cue's clips come in the order of its lines |
| CharClips.CueClips | projects/audio_to_text/animation_moviepy.py:102-204 | the loops over lines and characters return exactly the clips of the cue's lines in order |
| CharClips.CreateSubtitleClips | projects/audio_to_text/video_generator.py:161-272 | the clips of all cues, in cue order |
| Overlay.HasArabicIff | projects/audio_to_text/animated_video_generator.py:77 | a cue is `ar` exactly when one of its characters is in U+0600..U+06FF |
| Overlay.AnimProgress | projects/audio_to_text/animated_video_generator.py:81 | typing progress lies in [0, 1] |
| Overlay.VisibleChars | projects/audio_to_text/animated_video_generator.py:95-96 | the visible count lies in [0, len(line)] |
| Overlay.TypingEnds | projects/audio_to_text/animated_video_generator.py:81-96 | nothing is typed at the cue's start, and the whole line from 0.5 s on |
| Overlay.FadeBounds | projects/audio_to_text/animated_video_generator.py:82-86 | for an active cue the fade lies in [0, 1]; it is 0 at start and at end, and 1 when both elapsed and remaining time are at least 0.6 s |
| Overlay.DrawLine | projects/audio_to_text/animated_video_generator.py:89-111 | the drawn text is `display_text[:int(len * anim_progress)]` of the (shaped, when Arabic) line, at the current `y_pos` |
| Overlay.DrawLineBox | projects/audio_to_text/animated_video_generator.py:99-111 | the text is centred to within a pixel (`int()` truncates); the box is 20 pixels wider each side, 10 above the top and 10 below the baseline |
| Overlay.CueDrawing | projects/audio_to_text/animated_video_generator.py:89-145 | one drawn line per line of the cue |
| Overlay.CueDrawingTexts | projects/audio_to_text/animated_video_generator.py:89-96 | the k-th drawn line is the first `int(len * anim_progress)` characters of the k-th line visited, as displayed |
| Overlay.CueDrawingReversed | projects/audio_to_text/animated_video_generator.py:89 | lines are taken last first: the k-th drawn is the first `int(len * anim_progress)` characters of the k-th line from the bottom |
| Overlay.CueDrawingRows | projects/audio_to_text/animated_video_generator.py:132-145 | each drawn line is `LINE_SPACING` above the one before |
| Overlay.FrameRows | projects/audio_to_text/animated_video_generator.py:70-145 | `y_pos` restarts at height - BOTTOM_MARGIN each frame, and the k-th line drawn is at height - BOTTOM_MARGIN - k * LINE_SPACING, so no two drawn lines share a row |
| Overlay.FrameFade | projects/audio_to_text/animated_video_generator.py:71-86 | with some active cue the frame's fade is set and lies in [0, 1]; with no active cue it is the value left from earlier frames |
| Overlay.FrameFadeLast | projects/audio_to_text/animated_video_generator.py:71-86 | the frame's fade is the `fade_progress` of the last active cue visited: cue j's, when j is active and no later cue is |
| Overlay.DrawFrame | projects/audio_to_text/animated_video_generator.py:69-145 | the loop over cues gives exactly the frame's drawn lines and fade |
| Overlay.DrawCue | projects/audio_to_text/animated_video_generator.py:89-145 | the loop over a cue's lines gives exactly its drawn lines |
| Overlay.ProcessVideo | projects/audio_to_text/animated_video_generator.py:56-154 | the frame loop writes exactly the frames of the run and reports the exception that ends it |
| Overlay.RunStaysFailed | projects/audio_to_text/animated_video_generator.py:57-154 | once the loop has failed, later frames change nothing |
| Overlay.RunFrames | projects/audio_to_text/animated_video_generator.py:56-63 | the k-th written frame is at t = k / fps, every frame is written when nothing fails, and each blend weight lies in [0, 1] |
| Overlay.AsWrittenFailsWithoutCueAtStart | projects/audio_to_text/animated_video_generator.py:148-152 | as written, when no cue is active on the first frame, the fade is unbound and the loop fails before writing anything |
| Overlay.FixedWritesEveryFrame | projects/audio_to_text/animated_video_generator.py:56-154 | with the fade starting at 0, the loop never fails for a positive fps and writes every frame |
| BengaliNames.BengaliNamesCount | projects/audio_to_text/surah_desc_generator.py:5-120 | there is a name for each of the 114 surahs |
| SurahDesc.BengaliName | projects/audio_to_text/surah_desc_generator.py:141 | the lookup gives the n-th name for 1..114 and `""` otherwise |
| SurahDesc.RemoveChar | projects/audio_to_text/surah_desc_generator.py:158 | `replace('-', '')` leaves no `-` and only characters of the input |
| SurahDesc.RemoveCharCounts | projects/audio_to_text/surah_desc_generator.py:158 | every `-` is removed and every other character kept |
| SurahDesc.RemoveCharAbsent | projects/audio_to_text/surah_desc_generator.py:158 | a slug without `-` is unchanged |
| SurahDesc.HashtagLine | projects/audio_to_text/surah_desc_generator.py:157-178 | 18 hashtags joined by single spaces that split back into themselves; the first is `#surah` + the slug without hyphens, the sixth `#surah{n}`, the last `#islamicvideos` |
| SurahDesc.TagsAfterSlug | projects/audio_to_text/surah_desc_generator.py:159-162 | each of these tags is `#` plus non-space characters |
| SurahDesc.TagsAfterNumber | projects/audio_to_text/surah_desc_generator.py:164-175 | each of these tags is `#` plus non-space characters |
| SurahDesc.GenerateMarkdown | projects/audio_to_text/surah_desc_generator.py:135-188 | a `KeyError` exactly when the English or Arabic record is missing; otherwise the title and the description |
| SurahDesc.TitleParts | projects/audio_to_text/surah_desc_generator.py:144 | the title starts with `{n}. Surah {en} | ` and ends with the Bengali name |
| SurahDesc.DescriptionEnding | projects/audio_to_text/surah_desc_generator.py:178-186 | without surah info the description ends with `#islamicvideos`; with it, it ends with the About block, where a missing field reads `N/A` |
| SurahDesc.FileNameParts | projects/audio_to_text/surah_desc_generator.py:212 | the file name is the directory, three digits that read back as n, `_`, the slug and `.md` |
| SurahDesc.FileContent | projects/audio_to_text/surah_desc_generator.py:213-215 | the file is `# `, the title, a blank line and the description; a title without a line break is the whole first line |
| Text.Strip | projects/audio_to_text/json_to_srt_generator.py:15 | `strip()` is a slice with only whitespace outside it and none at either end |
| Text.BlankIffStripEmpty | projects/audio_to_text/quran_video_generator_updated.py:823 | a line is skipped (`not line.strip()`) exactly when it is all whitespace |
| Text.Words | projects/audio_to_text/quran_video_generator_updated.py:143 | `split()` gives non-empty words without whitespace |
| Text.WordsEmptyIffBlank | projects/audio_to_text/quran_video_generator_updated.py:143 | `split()` is empty exactly when the text is blank |
| Text.WordsOfJoin | projects/audio_to_text/quran_video_generator_updated.py:156 | splitting words joined by single spaces gives the words back |
| Text.SplitOn | projects/audio_to_text/video_generator.py:166 | `split('\n')` gives at least one piece and no piece holds a line break |
| Text.JoinSplitOn | projects/audio_to_text/video_generator.py:166 | joining the pieces back restores the text |
| Text.SplitOnJoin | projects/audio_to_text/json_to_srt_generator.py:44 | splitting a join of pieces without the separator gives the pieces back |
| Text.NatToString | projects/audio_to_text/json_to_srt_generator.py:36 | `str(n)` is non-empty decimal digits without a leading zero |
| Text.NatToStringValue | projects/audio_to_text/json_to_srt_generator.py:36 | the digits read back as n |
| Text.ZeroPad | projects/audio_to_text/json_to_srt_generator.py:10 | `f"{n:0w}"` is digits, of width w or the width of `str(n)` if longer |
| Text.ZeroPadValue | projects/audio_to_text/json_to_srt_generator.py:10 | a zero-padded number reads back as the number |
| Text.ZeroPadExactWidth | projects/audio_to_text/surah_desc_generator.py:212 | below 10^w it has exactly w digits |
| Text.Reverse | projects/audio_to_text/quran_video_generator_updated.py:141 | `s[::-1]` holds the same elements in reverse order |
| Text.ReversePrefix | projects/audio_to_text/video_generator_new.py:190-210 | `s[::-1][:k]` is the reversal of the last k elements |
| RealMath.Trunc | projects/audio_to_text/animated_video_generator.py:105 | `int()` truncates toward zero |
| RealMath.Min | projects/audio_to_text/animated_video_generator.py:82-86 | `min` is at most each argument and equals one of them |

## Left out

- Every `main`, `download_audio`, `json_to_srt`, `setup_environment`, all file and JSON reading and writing, ffmpeg merging and the moviepy calls (`VideoClip`, `ImageClip`, `CompositeVideoClip`, `write_videofile`, `vfx.FadeIn`/`FadeOut`): I/O and library plumbing. A clip is modelled by the position, start, duration or end and line it is given.
- Arabic shaping and bidi, PIL font metrics, `langdetect.detect` and `cv2.getTextSize`: foreign calls, taken as function parameters.
- PIL drawing (`rounded_rectangle`, `draw.text`) and cv2 drawing and `addWeighted`: a drawn frame is modelled as the list of texts, positions and boxes drawn, and the blend as its weight.
- Floating point: times, progress values and positions are exact reals, so rounding at the `int()` boundaries is not modelled.
- The `is_draw_bg` panel background and the RGB-to-RGBA fix-up in the char-reveal frames: drawing only.
- The surah title and description use the chapter records as data (`transliteratedName`, `translatedName`, `slug`). The JSON `surah_info` values are taken as already rendered strings.
- `BENGALI_NAMES` is stored as the list of its 114 values in key order, so that the lookup of `str(n)` is the n-th element for 1..114.
- Layout.Placed: in quran_video_generator.py and video_generator_new.py, `process_subtitle_line` is called outside the `try`, so a rendering failure there ends the whole call. The model skips that line, as in quran_video_generator_updated.py.
- Layout.PlacedCentred: in video_generator_new.py, x is centred on the text width from `preprocess_subtitle` while the clip's canvas is `total_width + 20` wide, so each clip there sits 10 pixels right of centre. The model states the x the script computes, not that the clip is centred.
- Layout.HeaderPositions: the header text comes from the chapter JSON, and `create_slide_animation`'s own exceptions (a missing font file) are not modelled.
- WordWrap.WideWordAlone: holds only for a width measure under which no piece of a text is wider than the whole. For an arbitrary measure, a wide word can share a line with an earlier word.
- SrtGen.SrtEnding: the output ends with one `\n` after the other lines, but when the last cleaned English text is empty, it ends with two line breaks in a row. The stronger "exactly one trailing newline" does not hold then.
- MultiLinePanel.PanelLinesInside: the vertical bound needs bounding boxes whose top is not below their bottom; the font metric is a parameter, so this is an assumption on it.
- CharClips.LineCharClips, Layout.PlaceArabic, Layout.PlaceEnglish and Overlay.DrawCue: these are separate methods where the source has inner loops inline.
- The `make_frame` closures are modelled only for the times MoviePy asks for, t ≥ 0.

## Findings

| source | as written | input that shows it | evidently intended | confidence | as-written member | corrected member |
|---|---|---|---|---|---|---|
| projects/audio_to_text/video_generator.py:73 | the third `divmod` splits hours off the seconds, which are already below 60, so hours is always 0 and minutes is never reduced mod 60 | ms = 3600000 gives `00:60:00,000`, which an SRT reader rejects | `hours, minutes = divmod(minutes, 60)`, which gives `01:00:00,000` | not executed | SrtTime.AsWrittenOneHour | SrtTime.ParseMsToSrtTime |
| projects/audio_to_text/animated_video_generator.py:148-152 | `fade_progress` is bound only inside the branch for an active cue, but the blend after the loop uses it on every frame | a video whose first frame (t = 0) has no active cue: the first blend raises `UnboundLocalError` and nothing is written | start with `fade_progress = 0`, so that frames without a cue are written unchanged | not executed | Overlay.AsWrittenFailsWithoutCueAtStart | Overlay.FixedWritesEveryFrame |
