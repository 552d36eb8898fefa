/**
 * `wrap_text` (quran_video_generator_updated.py): greedy word wrap. Words are
 * added to the current line while the font measures the joined line within
 * `max_width`; otherwise the current line is closed and the word starts a new
 * one. Arabic text is first shaped for display and reversed. The shaping and
 * the font measure are foreign calls and appear as function parameters.
 */
module WordWrap {
  import opened Text

  /** The loop state after some words: the closed lines, as word lists, and the line being built. */
  datatype WrapState = WrapState(done: seq<seq<string>>, current: seq<string>)

  /** One turn of the `for word in words` loop. */
  function Step(st: WrapState, word: string, width: string -> real, maxWidth: real): WrapState {
    if width(Join(st.current + [word], " ")) <= maxWidth then WrapState(st.done, st.current + [word])
    else if st.current != [] then WrapState(st.done + [st.current], [word])
    else WrapState(st.done, [word])
  }

  /** The loop state after all of `words`. */
  function Run(words: seq<string>, width: string -> real, maxWidth: real): WrapState
    decreases |words|
  {
    if words == [] then WrapState([], [])
    else Step(Run(words[..|words| - 1], width, maxWidth), words[|words| - 1], width, maxWidth)
  }

  /** The lines as word lists: the closed ones and, when non-empty, the last one being built. */
  function Groups(words: seq<string>, width: string -> real, maxWidth: real): seq<seq<string>> {
    var st := Run(words, width, maxWidth);
    if st.current != [] then st.done + [st.current] else st.done
  }

  /** All the words of a list of word lists, in order. */
  function Flatten(gs: seq<seq<string>>): seq<string> {
    if gs == [] then [] else gs[0] + Flatten(gs[1..])
  }

  /** `' '.join(g)` for every word list `g`. */
  function JoinEach(gs: seq<seq<string>>): (lines: seq<string>)
    ensures |lines| == |gs| && forall i :: 0 <= i < |gs| ==> lines[i] == Join(gs[i], " ")
  {
    if gs == [] then [] else [Join(gs[0], " ")] + JoinEach(gs[1..])
  }

  /** The text that is split into words: reshaped, reordered for display and reversed when Arabic. */
  function Prepare(text: string, isArabic: bool, display: string -> string): string {
    if isArabic then Reverse(display(text)) else text
  }

  /** The lines `wrap_text` returns. */
  function WrapLines(text: string, isArabic: bool, display: string -> string, width: string -> real, maxWidth: real): seq<string> {
    JoinEach(Groups(Words(Prepare(text, isArabic, display)), width, maxWidth))
  }

  /** `wrap_text(text, font, max_width, is_arabic)`. */
  method WrapText(text: string, isArabic: bool, display: string -> string, width: string -> real, maxWidth: real)
    returns (lines: seq<string>)
    ensures lines == WrapLines(text, isArabic, display, width, maxWidth)
  {
    var t := text;
    if isArabic {
      t := Reverse(display(t));
    }
    var words := Words(t);
    lines := [];
    var currentLine: seq<string> := [];
    for i := 0 to |words|
      invariant lines == JoinEach(Run(words[..i], width, maxWidth).done)
      invariant currentLine == Run(words[..i], width, maxWidth).current
    {
      var word := words[i];
      assert words[..i + 1][..i] == words[..i];
      var testLine := Join(currentLine + [word], " ");
      var testWidth := width(testLine);
      if testWidth <= maxWidth {
        currentLine := currentLine + [word];
      } else {
        if currentLine != [] {
          JoinEachSnoc(Run(words[..i], width, maxWidth).done, currentLine);
          lines := lines + [Join(currentLine, " ")];
        }
        currentLine := [word];
      }
    }
    assert words[..|words|] == words;
    if currentLine != [] {
      JoinEachSnoc(Run(words, width, maxWidth).done, currentLine);
      lines := lines + [Join(currentLine, " ")];
    }
  }

  lemma JoinEachSnoc(gs: seq<seq<string>>, g: seq<string>)
    ensures JoinEach(gs + [g]) == JoinEach(gs) + [Join(g, " ")]
  {
  }

  lemma {:induction false} FlattenSnoc(gs: seq<seq<string>>, g: seq<string>)
    ensures Flatten(gs + [g]) == Flatten(gs) + g
  {
    if gs != [] {
      assert (gs + [g])[1..] == gs[1..] + [g];
      FlattenSnoc(gs[1..], g);
    } else {
      assert [g][1..] == [];
    }
  }

  /** A line of two or more words measures within `maxWidth`. */
  predicate Fits(g: seq<string>, width: string -> real, maxWidth: real) {
    |g| >= 2 ==> width(Join(g, " ")) <= maxWidth
  }

  /**
   * What holds of the loop state after `words`: the closed lines and the current one
   * spell out the words, no closed line is empty, the current one is empty only
   * before the first word, every line of two or more words fits, and every closed
   * line was closed because its successor's first word did not fit on it.
   */
  predicate Good(st: WrapState, words: seq<string>, width: string -> real, maxWidth: real) {
    Flatten(st.done) + st.current == words
    && (forall i :: 0 <= i < |st.done| ==> st.done[i] != [])
    && (st.current == [] <==> words == [])
    && (forall i :: 0 <= i < |st.done| ==> Fits(st.done[i], width, maxWidth))
    && Fits(st.current, width, maxWidth)
    && (forall i :: 0 <= i < |st.done| - 1 ==> width(Join(st.done[i] + [st.done[i + 1][0]], " ")) > maxWidth)
    && (st.done != [] ==> width(Join(st.done[|st.done| - 1] + [st.current[0]], " ")) > maxWidth)
  }

  lemma {:induction false} RunGood(words: seq<string>, width: string -> real, maxWidth: real)
    ensures Good(Run(words, width, maxWidth), words, width, maxWidth)
    decreases |words|
  {
    if words != [] {
      var init, word := words[..|words| - 1], words[|words| - 1];
      assert words == init + [word];
      RunGood(init, width, maxWidth);
      StepGood(Run(init, width, maxWidth), init, word, width, maxWidth);
    }
  }

  /** One turn of the loop keeps `Good`. */
  lemma StepGood(st: WrapState, words: seq<string>, word: string, width: string -> real, maxWidth: real)
    requires Good(st, words, width, maxWidth)
    ensures Good(Step(st, word, width, maxWidth), words + [word], width, maxWidth)
  {
    if width(Join(st.current + [word], " ")) <= maxWidth {
      StepGoodExtend(st, words, word, width, maxWidth);
    } else if st.current != [] {
      StepGoodClose(st, words, word, width, maxWidth);
    } else {
      assert words == [];
    }
  }

  /** The word fits on the current line. */
  lemma StepGoodExtend(st: WrapState, words: seq<string>, word: string, width: string -> real, maxWidth: real)
    requires Good(st, words, width, maxWidth)
    requires width(Join(st.current + [word], " ")) <= maxWidth
    ensures Good(WrapState(st.done, st.current + [word]), words + [word], width, maxWidth)
  {
    if st.done != [] {
      assert (st.current + [word])[0] == st.current[0];
    }
  }

  /** The word does not fit, and the current line is closed. */
  lemma StepGoodClose(st: WrapState, words: seq<string>, word: string, width: string -> real, maxWidth: real)
    requires Good(st, words, width, maxWidth)
    requires st.current != [] && width(Join(st.current + [word], " ")) > maxWidth
    ensures Good(WrapState(st.done + [st.current], [word]), words + [word], width, maxWidth)
  {
    FlattenSnoc(st.done, st.current);
    var d' := st.done + [st.current];
    forall i | 0 <= i < |d'| - 1
      ensures width(Join(d'[i] + [d'[i + 1][0]], " ")) > maxWidth
    {
      if i < |st.done| - 1 {
        assert d'[i] == st.done[i] && d'[i + 1] == st.done[i + 1];
      } else {
        assert d'[i] == st.done[|st.done| - 1] && d'[i + 1] == st.current;
      }
    }
  }

  /** The lines, as word lists, hold exactly the input words, in order. */
  lemma GroupsPreserveWords(words: seq<string>, width: string -> real, maxWidth: real)
    ensures Flatten(Groups(words, width, maxWidth)) == words
  {
    RunGood(words, width, maxWidth);
    var st := Run(words, width, maxWidth);
    if st.current != [] {
      FlattenSnoc(st.done, st.current);
    } else {
      assert Flatten(st.done) + [] == Flatten(st.done);
    }
  }

  /** No line is empty; there are no lines exactly when there are no words. */
  lemma GroupsNonEmpty(words: seq<string>, width: string -> real, maxWidth: real)
    ensures forall i :: 0 <= i < |Groups(words, width, maxWidth)| ==> Groups(words, width, maxWidth)[i] != []
    ensures Groups(words, width, maxWidth) == [] <==> words == []
  {
    RunGood(words, width, maxWidth);
  }

  /** Every line of two or more words measures within `maxWidth`. */
  lemma GroupsFit(words: seq<string>, width: string -> real, maxWidth: real)
    ensures forall i :: 0 <= i < |Groups(words, width, maxWidth)| ==> Fits(Groups(words, width, maxWidth)[i], width, maxWidth)
  {
    RunGood(words, width, maxWidth);
  }

  /** The line `g` had to be closed: `next` starts with a word that would not have fitted on it. */
  predicate BreakForced(g: seq<string>, next: seq<string>, width: string -> real, maxWidth: real) {
    next != [] && width(Join(g + [next[0]], " ")) > maxWidth
  }

  /** Greedy: each break was needed, since the next line's first word would not have fitted. */
  lemma GroupsBreaksForced(words: seq<string>, width: string -> real, maxWidth: real)
    ensures forall i :: 0 <= i < |Groups(words, width, maxWidth)| - 1 ==>
      BreakForced(Groups(words, width, maxWidth)[i], Groups(words, width, maxWidth)[i + 1], width, maxWidth)
  {
    RunGood(words, width, maxWidth);
    var st := Run(words, width, maxWidth);
    var gs := Groups(words, width, maxWidth);
    if st.current != [] {
      forall i | 0 <= i < |gs| - 1 ensures BreakForced(gs[i], gs[i + 1], width, maxWidth) {
        assert gs[i] == st.done[i];
        if i < |st.done| - 1 {
          assert gs[i + 1] == st.done[i + 1];
        } else {
          assert gs[i + 1] == st.current;
        }
      }
    }
  }

  /** A measure under which no piece of a text is wider than the whole text. */
  ghost predicate Monotone(width: string -> real) {
    forall s: string, i, j :: 0 <= i <= j <= |s| ==> width(s[i..j]) <= width(s)
  }

  /** With a monotone measure, a word wider than `maxWidth` sits alone on its line. */
  lemma WideWordAlone(words: seq<string>, width: string -> real, maxWidth: real, i: nat, j: nat)
    requires Monotone(width)
    requires i < |Groups(words, width, maxWidth)| && j < |Groups(words, width, maxWidth)[i]|
    requires width(Groups(words, width, maxWidth)[i][j]) > maxWidth
    ensures |Groups(words, width, maxWidth)[i]| == 1
  {
    var g := Groups(words, width, maxWidth)[i];
    GroupsFit(words, width, maxWidth);
    GroupsNonEmpty(words, width, maxWidth);
    if |g| >= 2 {
      WordNarrowerThanLine(g, j, width);
    }
  }

  /** With a monotone measure, no word of a line is wider than the whole line. */
  lemma WordNarrowerThanLine(g: seq<string>, j: nat, width: string -> real)
    requires Monotone(width) && j < |g|
    ensures width(g[j]) <= width(Join(g, " "))
  {
    JoinContains(g, j, " ");
    var a, b :| Join(g, " ") == a + g[j] + b;
    var line := Join(g, " ");
    assert line[|a|..|a| + |g[j]|] == g[j];
  }

  /** The words of a list of lines, in order: `[w for line in lines for w in line.split()]`. */
  function WordsOfLines(lines: seq<string>): seq<string> {
    if lines == [] then [] else Words(lines[0]) + WordsOfLines(lines[1..])
  }

  lemma {:induction false} WordsOfJoinEach(gs: seq<seq<string>>)
    requires forall i, j :: 0 <= i < |gs| && 0 <= j < |gs[i]| ==> IsWord(gs[i][j])
    ensures WordsOfLines(JoinEach(gs)) == Flatten(gs)
  {
    if gs != [] {
      WordsOfJoin(gs[0]);
      assert JoinEach(gs)[1..] == JoinEach(gs[1..]);
      WordsOfJoinEach(gs[1..]);
    }
  }

  lemma {:induction false} FlattenMember(gs: seq<seq<string>>, i: nat, j: nat)
    requires i < |gs| && j < |gs[i]|
    ensures exists k :: 0 <= k < |Flatten(gs)| && Flatten(gs)[k] == gs[i][j]
  {
    if i == 0 {
      assert Flatten(gs)[j] == gs[0][j];
    } else {
      FlattenMember(gs[1..], i - 1, j);
      var k :| 0 <= k < |Flatten(gs[1..])| && Flatten(gs[1..])[k] == gs[1..][i - 1][j];
      assert Flatten(gs)[|gs[0]| + k] == gs[i][j];
    }
  }

  /**
   * `wrap_text` preserves the words: splitting the lines and concatenating gives
   * `text.split()` of the prepared text; no line is empty, and blank text gives no lines.
   */
  lemma WrapLinesPreserveWords(text: string, isArabic: bool, display: string -> string, width: string -> real, maxWidth: real)
    ensures var t := Prepare(text, isArabic, display); var lines := WrapLines(text, isArabic, display, width, maxWidth);
      WordsOfLines(lines) == Words(t)
      && (forall i :: 0 <= i < |lines| ==> lines[i] != "")
      && (lines == [] <==> IsBlank(t))
  {
    var t := Prepare(text, isArabic, display);
    var words := Words(t);
    var gs := Groups(words, width, maxWidth);
    GroupsPreserveWords(words, width, maxWidth);
    GroupsNonEmpty(words, width, maxWidth);
    forall i, j | 0 <= i < |gs| && 0 <= j < |gs[i]| ensures IsWord(gs[i][j]) {
      FlattenMember(gs, i, j);
    }
    WordsOfJoinEach(gs);
    forall i | 0 <= i < |gs| ensures JoinEach(gs)[i] != "" {
      JoinWordsNonEmpty(gs[i]);
    }
    WordsEmptyIffBlank(t);
  }

  /** Every line of two or more words measures within `maxWidth`. */
  lemma WrapLinesFit(text: string, isArabic: bool, display: string -> string, width: string -> real, maxWidth: real)
    ensures var lines := WrapLines(text, isArabic, display, width, maxWidth);
      forall i :: 0 <= i < |lines| && |Words(lines[i])| >= 2 ==> width(lines[i]) <= maxWidth
  {
    var words := Words(Prepare(text, isArabic, display));
    var gs := Groups(words, width, maxWidth);
    GroupsFit(words, width, maxWidth);
    GroupsPreserveWords(words, width, maxWidth);
    forall i | 0 <= i < |gs| ensures Words(JoinEach(gs)[i]) == gs[i] {
      forall j | 0 <= j < |gs[i]| ensures IsWord(gs[i][j]) {
        FlattenMember(gs, i, j);
      }
      WordsOfJoin(gs[i]);
    }
  }
}
