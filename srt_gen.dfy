/**
 * `generate_srt`: turns the verse timings of a recitation and the verse records
 * of a surah into numbered five-line SRT blocks (index, `start --> end`, Arabic,
 * cleaned English, blank line) joined by line breaks. The scripts share the loop
 * and differ only in which `clean_html_tags` and `ms_to_srt_time` they call.
 */
module SrtGen {
  import opened Text
  import opened Wrappers
  import SrtTime
  import HtmlClean

  /** One entry of `verse_timings`. */
  datatype Timing = Timing(verseKey: string, timestampFrom: nat, timestampTo: nat)

  /** One entry of `surah_verses`. */
  datatype Verse = Verse(verseKey: string, arabicText: string, enText: string)

  /** The script whose helpers `generate_srt` calls. */
  datatype Variant =
    | JsonToSrt        // json_to_srt_generator.py
    | VideoGenerator   // video_generator.py
    | QuranGenerators  // quran_video_generator.py, quran_video_generator_updated.py, video_generator_new.py

  function Clean(v: Variant, s: string): string {
    match v
    case JsonToSrt => HtmlClean.CleanSimple(s)
    case VideoGenerator => HtmlClean.CleanDoublePass(s)
    case QuranGenerators => HtmlClean.CleanSup(s)
  }

  function Time(v: Variant, ms: nat): string {
    match v
    case JsonToSrt => SrtTime.MsToSrtTimeHoursFirst(ms)
    case VideoGenerator => SrtTime.MsToSrtTimeAsWritten(ms)
    case QuranGenerators => SrtTime.MsToSrtTime(ms)
  }

  /** `{v["verse_key"]: v for v in surah_verses}`. */
  function BuildIndex(vs: seq<Verse>): (index: map<string, Verse>)
    ensures forall k :: k in index ==> index[k].verseKey == k
  {
    if vs == [] then map[]
    else
      var last := vs[|vs| - 1];
      BuildIndex(vs[..|vs| - 1])[last.verseKey := last]
  }

  /** The index has exactly the keys of the records. */
  lemma {:induction false} BuildIndexKeys(vs: seq<Verse>, key: string)
    ensures key in BuildIndex(vs) <==> exists i :: 0 <= i < |vs| && vs[i].verseKey == key
  {
    if vs != [] {
      var init := vs[..|vs| - 1];
      BuildIndexKeys(init, key);
      if key in BuildIndex(init) {
        var i :| 0 <= i < |init| && init[i].verseKey == key;
        assert vs[i].verseKey == key;
      }
      if exists i :: 0 <= i < |vs| && vs[i].verseKey == key {
        var i :| 0 <= i < |vs| && vs[i].verseKey == key;
        if i < |vs| - 1 { assert init[i].verseKey == key; }
      }
    }
  }

  /** A record whose key does not occur again later is the one the index keeps: the last one wins. */
  lemma {:induction false} BuildIndexLastWins(vs: seq<Verse>, i: nat)
    requires i < |vs|
    requires forall l :: i < l < |vs| ==> vs[l].verseKey != vs[i].verseKey
    ensures vs[i].verseKey in BuildIndex(vs) && BuildIndex(vs)[vs[i].verseKey] == vs[i]
  {
    if i < |vs| - 1 {
      var init := vs[..|vs| - 1];
      assert init[i] == vs[i];
      forall l | i < l < |init| ensures init[l].verseKey != init[i].verseKey {
        assert init[l] == vs[l];
      }
      BuildIndexLastWins(init, i);
    }
  }

  /** The timings whose verse key is in the index, in their order: the ones the loop does not skip. */
  function Matched(ts: seq<Timing>, index: map<string, Verse>): (ms: seq<Timing>)
    ensures |ms| <= |ts|
    ensures forall k :: 0 <= k < |ms| ==> ms[k].verseKey in index
  {
    if ts == [] then []
    else
      var prev := Matched(ts[..|ts| - 1], index);
      if ts[|ts| - 1].verseKey in index then prev + [ts[|ts| - 1]] else prev
  }

  lemma MatchedPrefixStep(ts: seq<Timing>, i: nat, index: map<string, Verse>)
    requires i < |ts|
    ensures Matched(ts[..i + 1], index)
      == if ts[i].verseKey in index then Matched(ts[..i], index) + [ts[i]] else Matched(ts[..i], index)
  {
    assert ts[..i + 1][..i] == ts[..i];
  }

  /** Each timing is kept once per occurrence when its key exists, and dropped otherwise. */
  lemma {:induction false} MatchedCounts(ts: seq<Timing>, index: map<string, Verse>, t: Timing)
    ensures multiset(Matched(ts, index))[t] == if t.verseKey in index then multiset(ts)[t] else 0
  {
    if ts != [] {
      var init := ts[..|ts| - 1];
      MatchedCounts(init, index, t);
      assert ts == init + [ts[|ts| - 1]];
    }
  }

  /**
   * Skipping distributes over concatenation, so the kept timings keep their
   * relative order from `verse_timings`.
   */
  lemma {:induction false} MatchedAppend(a: seq<Timing>, b: seq<Timing>, index: map<string, Verse>)
    ensures Matched(a + b, index) == Matched(a, index) + Matched(b, index)
  {
    if b == [] {
      assert a + b == a;
    } else {
      var init := b[..|b| - 1];
      MatchedAppend(a, init, index);
      assert (a + b)[..|a + b| - 1] == a + init;
      assert (a + b)[|a + b| - 1] == b[|b| - 1];
    }
  }

  /** When every key exists, no timing is skipped. */
  lemma {:induction false} MatchedAll(ts: seq<Timing>, index: map<string, Verse>)
    requires forall k :: 0 <= k < |ts| ==> ts[k].verseKey in index
    ensures Matched(ts, index) == ts
  {
    if ts != [] {
      var init := ts[..|ts| - 1];
      assert forall k :: 0 <= k < |init| ==> init[k] == ts[k];
      MatchedAll(init, index);
      assert ts == init + [ts[|ts| - 1]];
    }
  }

  /** The two helpers `generate_srt` calls, as values: the loop does not depend on what they do. */
  datatype Helpers = Helpers(clean: string -> string, time: nat -> string)

  function HelpersOf(v: Variant): Helpers {
    Helpers(s => Clean(v, s), (ms: nat) => Time(v, ms))
  }

  /** `f"{start_time} --> {end_time}"`. */
  function TimingLine(h: Helpers, t: Timing): string {
    h.time(t.timestampFrom) + " --> " + h.time(t.timestampTo)
  }

  /** The five lines appended for block number `n`. */
  function Block(h: Helpers, n: nat, t: Timing, verse: Verse): seq<string> {
    [NatToString(n), TimingLine(h, t), verse.arabicText, h.clean(verse.enText), ""]
  }

  /** The lines of the blocks for the matched timings `ms`, numbered from 1. */
  function SrtLines(h: Helpers, ms: seq<Timing>, index: map<string, Verse>): seq<string>
    requires forall k :: 0 <= k < |ms| ==> ms[k].verseKey in index
  {
    if ms == [] then []
    else
      var last := ms[|ms| - 1];
      SrtLines(h, ms[..|ms| - 1], index) + Block(h, |ms|, last, index[last.verseKey])
  }

  lemma SrtLinesSnoc(h: Helpers, ms: seq<Timing>, t: Timing, index: map<string, Verse>)
    requires forall k :: 0 <= k < |ms| ==> ms[k].verseKey in index
    requires t.verseKey in index
    ensures SrtLines(h, ms + [t], index) == SrtLines(h, ms, index) + Block(h, |ms| + 1, t, index[t.verseKey])
  {
    assert (ms + [t])[..|ms|] == ms;
  }

  /** The text the loop of `generate_srt` returns for the given helpers. */
  function SrtText(h: Helpers, ts: seq<Timing>, vs: seq<Verse>): string {
    var index := BuildIndex(vs);
    Join(SrtLines(h, Matched(ts, index), index), "\n")
  }

  /** The text `generate_srt` returns in the script `v`. */
  function Srt(v: Variant, ts: seq<Timing>, vs: seq<Verse>): string {
    SrtText(HelpersOf(v), ts, vs)
  }

  /** `generate_srt(data)`: the loop with its `counter`, appending five lines per matched timing. */
  method GenerateSrt(v: Variant, timings: seq<Timing>, verses: seq<Verse>) returns (out: string)
    ensures out == Srt(v, timings, verses)
  {
    ghost var h := HelpersOf(v);
    var index := BuildIndex(verses);
    var srtLines: seq<string> := [];
    var counter := 1;
    for i := 0 to |timings|
      invariant srtLines == SrtLines(h, Matched(timings[..i], index), index)
      invariant counter == |Matched(timings[..i], index)| + 1
    {
      MatchedPrefixStep(timings, i, index);
      var timing := timings[i];
      var verseKey := timing.verseKey;
      if verseKey !in index {
        continue;
      }
      SrtLinesSnoc(h, Matched(timings[..i], index), timing, index);
      var arabic := index[verseKey].arabicText;
      var english := Clean(v, index[verseKey].enText);
      var startTime := Time(v, timing.timestampFrom);
      var endTime := Time(v, timing.timestampTo);
      srtLines := srtLines + [NatToString(counter), startTime + " --> " + endTime, arabic, english, ""];
      assert Block(h, counter, timing, index[verseKey]) == [NatToString(counter), startTime + " --> " + endTime, arabic, english, ""];
      counter := counter + 1;
    }
    assert timings[..|timings|] == timings;
    out := Join(srtLines, "\n");
  }

  /** Five lines per matched timing. */
  lemma {:induction false} SrtLinesLength(h: Helpers, ms: seq<Timing>, index: map<string, Verse>)
    requires forall k :: 0 <= k < |ms| ==> ms[k].verseKey in index
    ensures |SrtLines(h, ms, index)| == 5 * |ms|
  {
    if ms != [] {
      SrtLinesLength(h, ms[..|ms| - 1], index);
    }
  }

  /** Lines `5k .. 5k+4` are block number `k + 1`, built from the `k`-th matched timing. */
  lemma {:induction false} SrtLinesBlock(h: Helpers, ms: seq<Timing>, index: map<string, Verse>, k: nat)
    requires forall j :: 0 <= j < |ms| ==> ms[j].verseKey in index
    requires k < |ms|
    ensures 5 * k + 5 <= |SrtLines(h, ms, index)|
    ensures SrtLines(h, ms, index)[5 * k..5 * k + 5] == Block(h, k + 1, ms[k], index[ms[k].verseKey])
  {
    var init, last := ms[..|ms| - 1], ms[|ms| - 1];
    SrtLinesLength(h, init, index);
    var prev := SrtLines(h, init, index);
    var all := SrtLines(h, ms, index);
    assert all == prev + Block(h, |ms|, last, index[last.verseKey]);
    if k == |ms| - 1 {
      assert all[5 * k..5 * k + 5] == all[|prev|..];
    } else {
      assert init[k] == ms[k];
      SrtLinesBlock(h, init, index, k);
      assert all[5 * k..5 * k + 5] == prev[5 * k..5 * k + 5];
    }
  }

  /** The last of the lines is the blank one, so the joined text ends in its line break. */
  lemma JoinedLinesEnding(h: Helpers, ms: seq<Timing>, index: map<string, Verse>)
    requires forall k :: 0 <= k < |ms| ==> ms[k].verseKey in index
    requires ms != []
    ensures var lines := SrtLines(h, ms, index);
      |lines| >= 5 && Join(lines, "\n") == Join(lines[..|lines| - 1], "\n") + "\n"
  {
    var lines := SrtLines(h, ms, index);
    SrtLinesLength(h, ms, index);
    SrtLinesBlock(h, ms, index, |ms| - 1);
    assert lines[|lines| - 1] == lines[5 * (|ms| - 1)..5 * (|ms| - 1) + 5][4];
    assert lines == lines[..|lines| - 1] + [""];
    JoinSnoc(lines[..|lines| - 1], "", "\n");
  }

  /** With no matched timing the output is empty; otherwise it ends with the final blank line's break. */
  lemma SrtEnding(h: Helpers, ts: seq<Timing>, vs: seq<Verse>)
    ensures var index := BuildIndex(vs); var ms := Matched(ts, index);
      (ms == [] ==> SrtText(h, ts, vs) == "")
      && (ms != [] ==>
            var lines := SrtLines(h, ms, index);
            |lines| >= 5 && SrtText(h, ts, vs) == Join(lines[..|lines| - 1], "\n") + "\n")
  {
    var index := BuildIndex(vs);
    var ms := Matched(ts, index);
    if ms != [] {
      JoinedLinesEnding(h, ms, index);
    }
  }

  /** Two timestamps joined by ` --> ` hold no line break. */
  lemma JoinedTimestampsNoBreak(a: string, b: string)
    requires forall i :: 0 <= i < |a| ==> SrtTime.TimestampChar(a[i])
    requires forall i :: 0 <= i < |b| ==> SrtTime.TimestampChar(b[i])
    ensures '\n' !in a + " --> " + b
  {
    var s := a + " --> " + b;
    forall i | 0 <= i < |s| ensures s[i] != '\n' {
      if i < |a| { assert s[i] == a[i]; }
      else if i >= |a| + 5 { assert s[i] == b[i - |a| - 5]; }
    }
  }

  /** A timing line holds no line break. */
  lemma TimingLineNoBreak(v: Variant, t: Timing)
    ensures '\n' !in TimingLine(HelpersOf(v), t)
  {
    TimeChars(v, t.timestampFrom);
    TimeChars(v, t.timestampTo);
    JoinedTimestampsNoBreak(Time(v, t.timestampFrom), Time(v, t.timestampTo));
  }

  lemma TimeChars(v: Variant, ms: nat)
    ensures forall i :: 0 <= i < |Time(v, ms)| ==> SrtTime.TimestampChar(Time(v, ms)[i])
  {
    match v {
      case JsonToSrt => SrtTime.FormatChars(SrtTime.DecomposeHoursFirst(ms));
      case VideoGenerator => SrtTime.FormatChars(SrtTime.DecomposeAsWritten(ms));
      case QuranGenerators => SrtTime.FormatChars(SrtTime.Decompose(ms));
    }
  }

  /** Lines built from break-free pieces hold no line break. */
  lemma LinesWithoutBreaks(h: Helpers, ms: seq<Timing>, index: map<string, Verse>)
    requires forall k :: 0 <= k < |ms| ==> ms[k].verseKey in index
    requires forall k :: 0 <= k < |ms| ==>
      '\n' !in TimingLine(h, ms[k]) && '\n' !in index[ms[k].verseKey].arabicText
      && '\n' !in h.clean(index[ms[k].verseKey].enText)
    ensures forall j :: 0 <= j < |SrtLines(h, ms, index)| ==> '\n' !in SrtLines(h, ms, index)[j]
  {
    var lines := SrtLines(h, ms, index);
    SrtLinesLength(h, ms, index);
    forall j | 0 <= j < |lines| ensures '\n' !in lines[j] {
      var k := j / 5;
      SrtLinesBlock(h, ms, index, k);
      assert lines[j] == Block(h, k + 1, ms[k], index[ms[k].verseKey])[j - 5 * k];
      NatToStringNoBreak(k + 1);
    }
  }

  /** When no verse text holds a line break, splitting the output on `\n` gives the lines back. */
  lemma SrtSplitsIntoLines(v: Variant, ts: seq<Timing>, vs: seq<Verse>)
    requires forall i :: 0 <= i < |vs| ==> '\n' !in vs[i].arabicText && '\n' !in Clean(v, vs[i].enText)
    ensures var index := BuildIndex(vs); var ms := Matched(ts, index);
      ms != [] ==> SplitOn(Srt(v, ts, vs), '\n') == SrtLines(HelpersOf(v), ms, index)
  {
    var index := BuildIndex(vs);
    var ms := Matched(ts, index);
    var h := HelpersOf(v);
    if ms != [] {
      forall k | 0 <= k < |ms|
        ensures '\n' !in TimingLine(h, ms[k]) && '\n' !in index[ms[k].verseKey].arabicText
          && '\n' !in h.clean(index[ms[k].verseKey].enText)
      {
        BuildIndexMember(vs, ms[k].verseKey);
        TimingLineNoBreak(v, ms[k]);
      }
      LinesWithoutBreaks(h, ms, index);
      SrtLinesLength(h, ms, index);
      SplitOnJoin(SrtLines(h, ms, index), '\n');
    }
  }

  lemma NatToStringNoBreak(n: nat)
    ensures '\n' !in NatToString(n)
  {
    var s := NatToString(n);
    forall i | 0 <= i < |s| ensures s[i] != '\n' {
      assert IsDigit(s[i]);
    }
  }

  /** Every record the index holds is one of the input records. */
  lemma {:induction false} BuildIndexMember(vs: seq<Verse>, key: string)
    requires key in BuildIndex(vs)
    ensures exists i :: 0 <= i < |vs| && BuildIndex(vs)[key] == vs[i]
  {
    var init := vs[..|vs| - 1];
    if key != vs[|vs| - 1].verseKey {
      BuildIndexMember(init, key);
      var i :| 0 <= i < |init| && BuildIndex(init)[key] == init[i];
      assert init[i] == vs[i];
    }
  }

  /** `start --> end` read back as its two millisecond counts. */
  function ParseTimingLine(s: string): Option<(nat, nat)> {
    if ' ' !in s then None
    else
      var i := IndexOf(s, ' ');
      if i + 5 <= |s| && s[i..i + 5] == " --> " then
        match (SrtTime.ParseSrtTime(s[..i]), SrtTime.ParseSrtTime(s[i + 5..]))
        case (Some(a), Some(b)) => Some((a, b))
        case _ => None
      else None
  }

  /** Two timestamps joined by ` --> ` read back as their values. */
  lemma ParseJoinedTimestamps(a: string, b: string, x: nat, y: nat)
    requires forall i :: 0 <= i < |a| ==> SrtTime.TimestampChar(a[i])
    requires SrtTime.ParseSrtTime(a) == Some(x) && SrtTime.ParseSrtTime(b) == Some(y)
    ensures ParseTimingLine(a + " --> " + b) == Some((x, y))
  {
    var s := a + " --> " + b;
    assert s[|a|] == ' ';
    assert s[..|a|] == a;
    assert ' ' !in a by {
      forall i | 0 <= i < |a| ensures a[i] != ' ' { assert SrtTime.TimestampChar(a[i]); }
    }
    IndexOfAt(s, ' ', |a|);
    assert s[|a|..|a| + 5] == " --> ";
    assert s[|a| + 5..] == b;
  }

  /** Each variant's timestamp reads back, in video_generator.py only below one hour. */
  lemma TimeParses(v: Variant, ms: nat)
    requires v == VideoGenerator ==> ms < SrtTime.MS_PER_HOUR
    ensures SrtTime.ParseSrtTime(Time(v, ms)) == Some(ms)
  {
    match v {
      case JsonToSrt =>
        SrtTime.ParseMsToSrtTimeHoursFirst(ms);
      case VideoGenerator =>
        SrtTime.AsWrittenCorrectIffUnderAnHour(ms);
        SrtTime.ParseMsToSrtTime(ms);
      case QuranGenerators =>
        SrtTime.ParseMsToSrtTime(ms);
    }
  }

  /**
   * The timing line of a block reads back as the timing's two offsets, for every
   * timing in the quran generators and json_to_srt_generator.py, and in
   * video_generator.py when both offsets are under one hour.
   */
  lemma TimingLineRoundTrip(v: Variant, t: Timing)
    requires v == VideoGenerator ==> t.timestampFrom < SrtTime.MS_PER_HOUR && t.timestampTo < SrtTime.MS_PER_HOUR
    ensures ParseTimingLine(TimingLine(HelpersOf(v), t)) == Some((t.timestampFrom, t.timestampTo))
  {
    TimeParses(v, t.timestampFrom);
    TimeParses(v, t.timestampTo);
    TimeChars(v, t.timestampFrom);
    ParseJoinedTimestamps(Time(v, t.timestampFrom), Time(v, t.timestampTo), t.timestampFrom, t.timestampTo);
  }
}
