/**
 * The multi-line branch of `process_subtitle_line` in
 * quran_video_generator_updated.py: when wrapping gives more than one line,
 * all lines are drawn on one rounded panel.
 *
 * The first loop measures each line (bounding-box height plus 10) and the widest
 * line; the panel is 60 pixels wider than the widest line and 40 pixels taller
 * than the lines together. The second loop draws the lines top to bottom from
 * `y_offset = 25`, Arabic lines right-aligned 30 pixels from the right edge and
 * English lines 30 pixels from the left edge.
 */
module MultiLinePanel {
  import opened Text
  import opened Reveal

  /** What is measured and drawn for a wrapped line: for Arabic, the shaped line reversed once more. */
  function DisplayText(line: string, isArabic: bool, shape: string -> string): string {
    if isArabic then Reverse(shape(line)) else line
  }

  /** `text_bbox[3] - text_bbox[1] + 10`. */
  function LineHeight(font: Font, text: string): int {
    font.bbox(text).bottom - font.bbox(text).top + 10
  }

  function Sum(xs: seq<int>): int {
    if xs == [] then 0 else Sum(xs[..|xs| - 1]) + xs[|xs| - 1]
  }

  /** `max(max_line_width, line_width)` folded from 0. */
  function MaxWidth(ws: seq<int>): (m: int)
    ensures m >= 0
    ensures forall i :: 0 <= i < |ws| ==> ws[i] <= m
    ensures m == 0 || exists i :: 0 <= i < |ws| && ws[i] == m
  {
    if ws == [] then 0
    else
      var m0 := MaxWidth(ws[..|ws| - 1]);
      assert forall i :: 0 <= i < |ws| - 1 ==> ws[..|ws| - 1][i] == ws[i];
      if ws[|ws| - 1] > m0 then ws[|ws| - 1] else m0
  }

  function Widths(lines: seq<string>, font: Font, isArabic: bool, shape: string -> string): seq<int> {
    seq(|lines|, i requires 0 <= i < |lines| => TextWidth(font, DisplayText(lines[i], isArabic, shape)))
  }

  function Heights(lines: seq<string>, font: Font, isArabic: bool, shape: string -> string): seq<int> {
    seq(|lines|, i requires 0 <= i < |lines| => LineHeight(font, DisplayText(lines[i], isArabic, shape)))
  }

  datatype Metrics = Metrics(heights: seq<int>, totalWidth: int, totalHeight: int)

  /** `line_heights`, `total_width = max_line_width + 60` and `total_height = sum(line_heights) + 40`. */
  function PanelMetrics(lines: seq<string>, font: Font, isArabic: bool, shape: string -> string): Metrics {
    var hs := Heights(lines, font, isArabic, shape);
    Metrics(hs, MaxWidth(Widths(lines, font, isArabic, shape)) + 60, Sum(hs) + 40)
  }

  /** The measuring loop. */
  method Measure(lines: seq<string>, font: Font, isArabic: bool, shape: string -> string) returns (m: Metrics)
    ensures m == PanelMetrics(lines, font, isArabic, shape)
  {
    var lineHeights: seq<int> := [];
    var maxLineWidth := 0;
    ghost var widths: seq<int> := [];
    for i := 0 to |lines|
      invariant |lineHeights| == |widths| == i
      invariant forall k :: 0 <= k < i ==> lineHeights[k] == LineHeight(font, DisplayText(lines[k], isArabic, shape))
      invariant forall k :: 0 <= k < i ==> widths[k] == TextWidth(font, DisplayText(lines[k], isArabic, shape))
      invariant maxLineWidth == MaxWidth(widths)
    {
      var displayText := DisplayText(lines[i], isArabic, shape);
      var lineWidth := TextWidth(font, displayText);
      var lineHeight := LineHeight(font, displayText);
      lineHeights := lineHeights + [lineHeight];
      assert (widths + [lineWidth])[..|widths|] == widths;
      widths := widths + [lineWidth];
      maxLineWidth := if lineWidth > maxLineWidth then lineWidth else maxLineWidth;
    }
    assert lineHeights == Heights(lines, font, isArabic, shape);
    assert widths == Widths(lines, font, isArabic, shape);
    m := Metrics(lineHeights, maxLineWidth + 60, Sum(lineHeights) + 40);
  }

  /** Where one wrapped line is drawn. */
  datatype Placement = Placement(text: string, x: int, y: int)

  /** The placements the drawing loop makes, line `i` at `25 + sum(line_heights[:i])`. */
  function Placements(lines: seq<string>, font: Font, isArabic: bool, shape: string -> string, m: Metrics): seq<Placement>
    requires |m.heights| == |lines|
  {
    seq(|lines|, i requires 0 <= i < |lines| =>
      var text := DisplayText(lines[i], isArabic, shape);
      Placement(text, if isArabic then m.totalWidth - TextWidth(font, text) - 30 else 30, 25 + Sum(m.heights[..i])))
  }

  /** The drawing loop of `make_frame`, keeping where each line is drawn. */
  method Draw(lines: seq<string>, font: Font, isArabic: bool, shape: string -> string, m: Metrics) returns (ps: seq<Placement>)
    requires |m.heights| == |lines|
    ensures ps == Placements(lines, font, isArabic, shape, m)
  {
    ps := [];
    var yOffset := 25;
    for i := 0 to |lines|
      invariant |ps| == i
      invariant forall k :: 0 <= k < i ==> ps[k] == Placements(lines, font, isArabic, shape, m)[k]
      invariant yOffset == 25 + Sum(m.heights[..i])
    {
      var displayText := DisplayText(lines[i], isArabic, shape);
      var xPos;
      if isArabic {
        xPos := m.totalWidth - TextWidth(font, displayText) - 30;
      } else {
        xPos := 30;
      }
      ps := ps + [Placement(displayText, xPos, yOffset)];
      assert m.heights[..i + 1][..i] == m.heights[..i];
      yOffset := yOffset + m.heights[i];
    }
  }

  lemma SumSnoc(xs: seq<int>, i: nat)
    requires i < |xs|
    ensures Sum(xs[..i + 1]) == Sum(xs[..i]) + xs[i]
  {
    assert xs[..i + 1][..i] == xs[..i];
  }

  lemma {:induction false} SumPrefixMono(xs: seq<int>, i: nat, j: nat)
    requires i <= j <= |xs|
    requires forall k :: 0 <= k < |xs| ==> xs[k] >= 0
    ensures Sum(xs[..i]) <= Sum(xs[..j])
  {
    if i < j {
      SumPrefixMono(xs, i, j - 1);
      SumSnoc(xs, j - 1);
    }
  }

  /**
   * The lines are stacked without gaps or overlap: the first starts at 25 and
   * each next line starts where the previous line's height ends.
   */
  lemma PanelLinesStacked(lines: seq<string>, font: Font, isArabic: bool, shape: string -> string)
    ensures var m := PanelMetrics(lines, font, isArabic, shape);
      var ps := Placements(lines, font, isArabic, shape, m);
      && (|ps| > 0 ==> ps[0].y == 25)
      && forall i :: 0 <= i < |ps| - 1 ==> ps[i].y + m.heights[i] == ps[i + 1].y
  {
    var m := PanelMetrics(lines, font, isArabic, shape);
    forall i | 0 <= i < |lines| - 1
      ensures Sum(m.heights[..i]) + m.heights[i] == Sum(m.heights[..i + 1])
    {
      SumSnoc(m.heights, i);
    }
  }

  /**
   * Every line lies inside the panel: horizontally between the 30-pixel margins
   * (Arabic lines touching the right one), and, when no bounding box is upside
   * down, vertically between y = 25 and 15 pixels above the bottom edge.
   */
  lemma PanelLinesInside(lines: seq<string>, font: Font, isArabic: bool, shape: string -> string, i: nat)
    requires i < |lines|
    ensures var m := PanelMetrics(lines, font, isArabic, shape);
      var p := Placements(lines, font, isArabic, shape, m)[i];
      var w := TextWidth(font, p.text);
      && 30 <= p.x && p.x + w <= m.totalWidth - 30
      && (isArabic ==> p.x + w == m.totalWidth - 30)
    ensures var m := PanelMetrics(lines, font, isArabic, shape);
      var p := Placements(lines, font, isArabic, shape, m)[i];
      (forall k :: 0 <= k < |lines| ==> font.bbox(DisplayText(lines[k], isArabic, shape)).top <= font.bbox(DisplayText(lines[k], isArabic, shape)).bottom)
        ==> 25 <= p.y && p.y + m.heights[i] <= m.totalHeight - 15
  {
    var m := PanelMetrics(lines, font, isArabic, shape);
    var ws := Widths(lines, font, isArabic, shape);
    assert ws[i] <= MaxWidth(ws);
    if forall k :: 0 <= k < |lines| ==> font.bbox(DisplayText(lines[k], isArabic, shape)).top <= font.bbox(DisplayText(lines[k], isArabic, shape)).bottom {
      assert forall k :: 0 <= k < |m.heights| ==> m.heights[k] >= 0;
      SumPrefixMono(m.heights, 0, i);
      SumPrefixMono(m.heights, i + 1, |lines|);
      SumSnoc(m.heights, i);
      assert m.heights[..|lines|] == m.heights;
    }
  }
}
