/**
 * `ms_to_srt_time`: a millisecond offset rendered as an SRT timestamp
 * `HH:MM:SS,mmm`. Three divmod chains occur in the scripts:
 * seconds -> minutes -> hours (the video generators), seconds -> hours ->
 * minutes (json_to_srt_generator.py), and the chain of video_generator.py,
 * whose last step divides the seconds remainder instead of the minutes.
 */
module SrtTime {
  import opened Text
  import opened Wrappers

  const MS_PER_SECOND: nat := 1000
  const MS_PER_MINUTE: nat := 60000
  const MS_PER_HOUR: nat := 3600000

  /** The four numbers an SRT timestamp shows. */
  datatype Fields = Fields(hours: nat, minutes: nat, seconds: nat, millis: nat)

  /** The millisecond count a set of fields stands for. */
  function Total(f: Fields): nat {
    f.hours * MS_PER_HOUR + f.minutes * MS_PER_MINUTE + f.seconds * MS_PER_SECOND + f.millis
  }

  /** Minutes and seconds below 60, milliseconds below 1000. */
  predicate InRange(f: Fields) {
    f.minutes < 60 && f.seconds < 60 && f.millis < 1000
  }

  /**
   * The chain `seconds, millis = divmod(ms, 1000)`, `minutes, seconds = divmod(seconds, 60)`,
   * `hours, minutes = divmod(minutes, 60)`.
   */
  function Decompose(ms: nat): (f: Fields)
    ensures InRange(f) && Total(f) == ms
  {
    var seconds := ms / 1000;
    var minutes := seconds / 60;
    var f := Fields(minutes / 60, minutes % 60, seconds % 60, ms % 1000);
    assert seconds * 1000 + ms % 1000 == ms;
    assert minutes * 60 + seconds % 60 == seconds;
    assert (minutes / 60) * 60 + minutes % 60 == minutes;
    assert Total(f) == ((minutes / 60) * 60 + minutes % 60) * 60000 + (seconds % 60) * 1000 + ms % 1000;
    f
  }

  /** Fields in range that add up to `ms` are exactly the ones `Decompose` produces. */
  lemma DecomposeUnique(ms: nat, f: Fields)
    requires InRange(f) && Total(f) == ms
    ensures f == Decompose(ms)
  {
    var totalSeconds := f.hours * 3600 + f.minutes * 60 + f.seconds;
    assert ms == totalSeconds * 1000 + f.millis;
    assert ms / 1000 == totalSeconds && ms % 1000 == f.millis;
    var totalMinutes := f.hours * 60 + f.minutes;
    assert totalSeconds == totalMinutes * 60 + f.seconds;
    assert totalSeconds / 60 == totalMinutes && totalSeconds % 60 == f.seconds;
    assert totalMinutes / 60 == f.hours && totalMinutes % 60 == f.minutes;
  }

  /**
   * The chain of json_to_srt_generator.py: `seconds, millis = divmod(ms, 1000)`,
   * `hours, seconds = divmod(seconds, 3600)`, `minutes, seconds = divmod(seconds, 60)`.
   */
  function DecomposeHoursFirst(ms: nat): (f: Fields)
    ensures f.hours == ms / MS_PER_HOUR
  {
    var seconds := ms / 1000;
    var rest := seconds % 3600;
    assert seconds / 3600 == ms / 3600000;
    Fields(seconds / 3600, rest / 60, rest % 60, ms % 1000)
  }

  /** The two correct chains agree on every input. */
  lemma HoursFirstAgrees(ms: nat)
    ensures DecomposeHoursFirst(ms) == Decompose(ms)
  {
    var f := DecomposeHoursFirst(ms);
    var seconds := ms / 1000;
    var rest := seconds % 3600;
    assert seconds * 1000 + ms % 1000 == ms;
    assert (seconds / 3600) * 3600 + rest == seconds;
    assert (rest / 60) * 60 + rest % 60 == rest;
    assert rest / 60 < 60;
    assert Total(f) == (((seconds / 3600) * 3600 + (rest / 60) * 60 + rest % 60) * 1000) + ms % 1000;
    DecomposeUnique(ms, f);
  }

  /**
   * The chain of video_generator.py as written: `seconds, millis = divmod(ms, 1000)`,
   * `minutes, seconds = divmod(seconds, 60)`, `hours, seconds = divmod(seconds, 3600)`.
   * The last step divides a value below 60, so hours is always 0 and minutes is never reduced.
   */
  function DecomposeAsWritten(ms: nat): (f: Fields)
  {
    var seconds := ms / 1000;
    var minutes := seconds / 60;
    var secondsLeft := seconds % 60;
    Fields(secondsLeft / 3600, minutes, secondsLeft % 3600, ms % 1000)
  }

  /** What the as-written chain computes: no hours, whole minutes, and still the right total. */
  lemma AsWrittenFields(ms: nat)
    ensures DecomposeAsWritten(ms).hours == 0
    ensures DecomposeAsWritten(ms).minutes == ms / MS_PER_MINUTE
    ensures DecomposeAsWritten(ms).seconds == (ms / 1000) % 60
    ensures DecomposeAsWritten(ms).millis == ms % 1000
    ensures Total(DecomposeAsWritten(ms)) == ms
  {
    var seconds := ms / 1000;
    assert seconds / 60 == ms / 60000;
    assert seconds * 1000 + ms % 1000 == ms;
    assert (seconds / 60) * 60 + seconds % 60 == seconds;
  }

  /** The as-written chain gives the correct fields exactly below one hour. */
  lemma AsWrittenCorrectIffUnderAnHour(ms: nat)
    ensures DecomposeAsWritten(ms) == Decompose(ms) <==> ms < MS_PER_HOUR
  {
    AsWrittenFields(ms);
    var f := DecomposeAsWritten(ms);
    if ms < MS_PER_HOUR {
      assert f.minutes < 60;
      DecomposeUnique(ms, f);
    } else {
      assert f.minutes >= 60;
    }
  }

  /** `f"{hours:02}:{minutes:02}:{seconds:02},{millis:03}"`. */
  function Format(f: Fields): string {
    ZeroPad(f.hours, 2) + ":" + ZeroPad(f.minutes, 2) + ":" + ZeroPad(f.seconds, 2) + "," + ZeroPad(f.millis, 3)
  }

  /** `ms_to_srt_time` of the video generators. */
  function MsToSrtTime(ms: nat): string {
    Format(Decompose(ms))
  }

  /** `ms_to_srt_time` of json_to_srt_generator.py. */
  function MsToSrtTimeHoursFirst(ms: nat): string {
    Format(DecomposeHoursFirst(ms))
  }

  /** `ms_to_srt_time` of video_generator.py, as written. */
  function MsToSrtTimeAsWritten(ms: nat): string {
    Format(DecomposeAsWritten(ms))
  }

  /**
   * Reads an SRT timestamp back: an hours field of at least two digits, then
   * `:MM:SS,mmm` with minutes and seconds below 60.
   */
  function ParseSrtTime(s: string): Option<nat> {
    var n := |s|;
    if n < 12 then None
    else
      var hh, mm, ss, mmm := s[..n - 10], s[n - 9..n - 7], s[n - 6..n - 4], s[n - 3..];
      if s[n - 10] == ':' && s[n - 7] == ':' && s[n - 4] == ','
         && IsDigits(hh) && IsDigits(mm) && IsDigits(ss) && IsDigits(mmm)
         && DigitsValue(mm) < 60 && DigitsValue(ss) < 60
      then Some(Total(Fields(DigitsValue(hh), DigitsValue(mm), DigitsValue(ss), DigitsValue(mmm))))
      else None
  }

  /** The rendering of in-range fields: hours padded to at least 2 digits, then exactly `:MM:SS,mmm`. */
  lemma FormatShape(f: Fields)
    requires InRange(f)
    ensures var s := Format(f); var n := |s|;
            n == |ZeroPad(f.hours, 2)| + 10 && n >= 12
            && s[..n - 10] == ZeroPad(f.hours, 2) && s[n - 10] == ':'
            && s[n - 9..n - 7] == ZeroPad(f.minutes, 2) && s[n - 7] == ':'
            && s[n - 6..n - 4] == ZeroPad(f.seconds, 2) && s[n - 4] == ','
            && s[n - 3..] == ZeroPad(f.millis, 3)
  {
    ZeroPadExactWidth(f.minutes, 2);
    ZeroPadExactWidth(f.seconds, 2);
    ZeroPadExactWidth(f.millis, 3);
    var h, m, sec, ml := ZeroPad(f.hours, 2), ZeroPad(f.minutes, 2), ZeroPad(f.seconds, 2), ZeroPad(f.millis, 3);
    var s := Format(f);
    var k := |h|;
    assert s == h + (":" + m + ":" + sec + "," + ml);
    assert s[..k] == h;
    assert s[k..] == ":" + m + ":" + sec + "," + ml;
  }

  /** A character a timestamp can hold. */
  predicate TimestampChar(c: char) {
    IsDigit(c) || c == ':' || c == ','
  }

  /** A timestamp holds only digits, `:` and `,`; in particular no space and no line break. */
  lemma FormatChars(f: Fields)
    ensures forall i :: 0 <= i < |Format(f)| ==> TimestampChar(Format(f)[i])
  {
    var h, m, sec, ml := ZeroPad(f.hours, 2), ZeroPad(f.minutes, 2), ZeroPad(f.seconds, 2), ZeroPad(f.millis, 3);
    var s := Format(f);
    assert s == h + ":" + m + ":" + sec + "," + ml;
    forall i | 0 <= i < |s| ensures TimestampChar(s[i]) {
      if i < |h| {
        assert s[i] == h[i];
      } else if i < |h| + 1 + |m| + 1 + |sec| + 1 {
        var a := |h| + 1;
        var b := a + |m| + 1;
        if i == a - 1 || i == b - 1 || i == b + |sec| {
        } else if i < a + |m| {
          assert s[i] == m[i - a];
        } else {
          assert s[i] == sec[i - b];
        }
      } else {
        assert s[i] == ml[i - (|h| + 1 + |m| + 1 + |sec| + 1)];
      }
    }
  }

  /** Every timestamp the video generators write reads back as the millisecond count it came from. */
  lemma ParseMsToSrtTime(ms: nat)
    ensures ParseSrtTime(MsToSrtTime(ms)) == Some(ms)
  {
    var f := Decompose(ms);
    FormatShape(f);
    ZeroPadValue(f.hours, 2);
    ZeroPadValue(f.minutes, 2);
    ZeroPadValue(f.seconds, 2);
    ZeroPadValue(f.millis, 3);
  }

  /** The same holds for json_to_srt_generator.py's chain. */
  lemma ParseMsToSrtTimeHoursFirst(ms: nat)
    ensures ParseSrtTime(MsToSrtTimeHoursFirst(ms)) == Some(ms)
  {
    HoursFirstAgrees(ms);
    ParseMsToSrtTime(ms);
  }

  /** Below 100 hours every field has its nominal width: the timestamp is exactly 12 characters. */
  lemma MsToSrtTimeWidth(ms: nat)
    requires ms < 100 * MS_PER_HOUR
    ensures |MsToSrtTime(ms)| == 12
  {
    var f := Decompose(ms);
    FormatShape(f);
    assert f.hours < 100;
    ZeroPadExactWidth(f.hours, 2);
  }

  /**
   * One hour in video_generator.py: the as-written chain prints minute 60 with hour 0, a
   * timestamp an SRT reader rejects, where the corrected chain prints `01:00:00,000`.
   */
  lemma AsWrittenOneHour()
    ensures MsToSrtTimeAsWritten(MS_PER_HOUR) == "00:60:00,000"
    ensures MsToSrtTime(MS_PER_HOUR) == "01:00:00,000"
    ensures ParseSrtTime(MsToSrtTimeAsWritten(MS_PER_HOUR)) == None
  {
    PaddedDigits();
    assert DecomposeAsWritten(MS_PER_HOUR) == Fields(0, 60, 0, 0);
    assert Decompose(MS_PER_HOUR) == Fields(1, 0, 0, 0);
    MinuteSixtyRejected();
  }

  /** The padded renderings the one-hour timestamps are made of. */
  lemma PaddedDigits()
    ensures ZeroPad(0, 2) == "00" && ZeroPad(1, 2) == "01" && ZeroPad(60, 2) == "60" && ZeroPad(0, 3) == "000"
  {
    assert NatToString(0) == "0";
    assert NatToString(1) == "1";
    assert NatToString(6) == "6";
    assert NatToString(60) == "60";
  }

  /** A reader refuses minute 60. */
  lemma MinuteSixtyRejected()
    ensures ParseSrtTime("00:60:00,000") == None
  {
    var s := "00:60:00,000";
    assert s[3..5] == "60";
    assert DigitsValue("60") == 60 by {
      assert "60"[..1] == "6";
      assert ""[..0] == "";
    }
  }
}
