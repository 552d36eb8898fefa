/**
 * `generate_markdown` and the output file name of surah_desc_generator.py: the
 * title, description, hashtags and optional "About this Surah" block of a
 * surah's video description, and the file it is written to.
 *
 * The surah data and the optional surah info come from JSON files; here they
 * are values. Info values are taken as already rendered to text.
 */
module SurahDesc {
  import opened Text
  import opened Wrappers
  import opened BengaliNames

  /**
   * `BENGALI_NAMES.get(str(surah_number), "")`: the table's keys are exactly
   * "1".."114", so this is the `n`-th name for those numbers and "" otherwise.
   */
  function BengaliName(n: nat): (name: string)
    ensures 1 <= n <= 114 ==> name == BENGALI_NAMES[n - 1]
    ensures !(1 <= n <= 114) ==> name == ""
  {
    BengaliNamesCount();
    if 1 <= n <= 114 then BENGALI_NAMES[n - 1] else ""
  }

  /** A surah's English record in the data file. */
  datatype EnName = EnName(transliteratedName: string, translatedName: string, slug: string)

  /** `surah_data["en"]` and the transliterated names of `surah_data["ar"]`, keyed by surah number. */
  datatype SurahData = SurahData(en: map<string, EnName>, ar: map<string, string>)

  /** `s.replace(c, "")`. */
  function RemoveChar(s: string, c: char): (r: string)
    ensures c !in r && |r| <= |s|
    ensures forall i :: 0 <= i < |r| ==> r[i] in s
  {
    if s == [] then []
    else
      var rest := RemoveChar(s[1..], c);
      assert forall i :: 0 <= i < |rest| ==> rest[i] in s;
      if s[0] == c then rest else [s[0]] + rest
  }

  /** Removing `c` removes every occurrence of it and keeps every other character. */
  lemma {:induction false} RemoveCharCounts(s: string, c: char)
    ensures multiset(RemoveChar(s, c)) == multiset(s)[c := 0]
  {
    if s != [] {
      RemoveCharCounts(s[1..], c);
      assert s == [s[0]] + s[1..];
      assert multiset(s) == multiset{s[0]} + multiset(s[1..]);
      if s[0] != c {
        assert RemoveChar(s, c) == [s[0]] + RemoveChar(s[1..], c);
        assert multiset(RemoveChar(s, c)) == multiset{s[0]} + multiset(RemoveChar(s[1..], c));
      }
    }
  }

  /** A string without `c` comes back unchanged. */
  lemma {:induction false} RemoveCharAbsent(s: string, c: char)
    requires c !in s
    ensures RemoveChar(s, c) == s
  {
    if s != [] {
      RemoveCharAbsent(s[1..], c);
    }
  }

  /** A hashtag: `#` followed by at least one character, with no whitespace. */
  predicate IsTag(t: string) {
    |t| > 1 && t[0] == '#' && NoSpace(t)
  }

  /** The four fixed hashtags between the slug's and the number's. */
  const TAGS_AFTER_SLUG: seq<string> := ["#holyquran", "#quranrecitation", "#tilawat", "#beautifulrecitation"]

  /** The twelve fixed hashtags after the number's, in three groups of four. */
  const TAGS_SOOTHING: seq<string> := ["#soothingquran", "#quranhealing", "#quranwithtajweed", "#heartsoothingquran"]
  const TAGS_REMINDERS: seq<string> := ["#islamicreminders", "#listenquran", "#dailyquran", "#peacefulrecitation"]
  const TAGS_SHORTS: seq<string> := ["#quranshorts", "#healingquran", "#islamicvideo", "#islamicvideos"]
  const TAGS_AFTER_NUMBER: seq<string> := TAGS_SOOTHING + TAGS_REMINDERS + TAGS_SHORTS

  lemma TagsAfterSlug()
    ensures forall i :: 0 <= i < |TAGS_AFTER_SLUG| ==> IsTag(TAGS_AFTER_SLUG[i])
  {
    assert IsTag("#holyquran");
    assert IsTag("#quranrecitation");
    assert IsTag("#tilawat");
    assert IsTag("#beautifulrecitation");
  }

  lemma TagsSoothing()
    ensures forall i :: 0 <= i < |TAGS_SOOTHING| ==> IsTag(TAGS_SOOTHING[i])
  {
    assert IsTag("#soothingquran");
    assert IsTag("#quranhealing");
    assert IsTag("#quranwithtajweed");
    assert IsTag("#heartsoothingquran");
  }

  lemma TagsReminders()
    ensures forall i :: 0 <= i < |TAGS_REMINDERS| ==> IsTag(TAGS_REMINDERS[i])
  {
    assert IsTag("#islamicreminders");
    assert IsTag("#listenquran");
    assert IsTag("#dailyquran");
    assert IsTag("#peacefulrecitation");
  }

  lemma TagsShorts()
    ensures forall i :: 0 <= i < |TAGS_SHORTS| ==> IsTag(TAGS_SHORTS[i])
  {
    assert IsTag("#quranshorts");
    assert IsTag("#healingquran");
    assert IsTag("#islamicvideo");
    assert IsTag("#islamicvideos");
  }

  lemma TagsAfterNumber()
    ensures forall i :: 0 <= i < |TAGS_AFTER_NUMBER| ==> IsTag(TAGS_AFTER_NUMBER[i])
  {
    TagsSoothing();
    TagsReminders();
    TagsShorts();
    forall i | 0 <= i < |TAGS_AFTER_NUMBER| ensures IsTag(TAGS_AFTER_NUMBER[i]) {
      if i < 4 {
        assert TAGS_AFTER_NUMBER[i] == TAGS_SOOTHING[i];
      } else if i < 8 {
        assert TAGS_AFTER_NUMBER[i] == TAGS_REMINDERS[i - 4];
      } else {
        assert TAGS_AFTER_NUMBER[i] == TAGS_SHORTS[i - 8];
      }
    }
  }

  /** The 18 hashtags, the first from the slug without hyphens and the sixth from the number. */
  function Hashtags(n: nat, slug: string): seq<string> {
    ["#surah" + RemoveChar(slug, '-')] + TAGS_AFTER_SLUG + ["#surah" + NatToString(n)] + TAGS_AFTER_NUMBER
  }

  lemma NoSpaceConcat(a: string, b: string)
    requires NoSpace(a) && NoSpace(b)
    ensures NoSpace(a + b)
  {
    forall i | 0 <= i < |a + b| ensures !IsSpace((a + b)[i]) {
      if i >= |a| {
        assert (a + b)[i] == b[i - |a|];
      }
    }
  }

  /**
   * When the slug has no whitespace, the hashtag line `" ".join(hashtags)` splits
   * back into exactly the 18 hashtags, each a `#` tag without whitespace, the
   * first naming the surah by its slug without hyphens, the sixth naming it by
   * number, and the last `#islamicvideos`.
   */
  lemma HashtagLine(n: nat, slug: string)
    requires NoSpace(slug)
    ensures var hs := Hashtags(n, slug);
      && |hs| == 18
      && Words(Join(hs, " ")) == hs
      && (forall i :: 0 <= i < |hs| ==> IsTag(hs[i]))
      && hs[0] == "#surah" + RemoveChar(slug, '-') && '-' !in hs[0]
      && hs[5] == "#surah" + NatToString(n)
      && hs[17] == "#islamicvideos"
  {
    var hs := Hashtags(n, slug);
    var bare := RemoveChar(slug, '-');
    assert NoSpace(bare) by {
      forall i | 0 <= i < |bare| ensures !IsSpace(bare[i]) {
        var j :| 0 <= j < |slug| && slug[j] == bare[i];
      }
    }
    var num := NatToString(n);
    assert NoSpace(num) by {
      forall i | 0 <= i < |num| ensures !IsSpace(num[i]) {
        assert IsDigit(num[i]);
      }
    }
    assert NoSpace("#surah") && '-' !in "#surah";
    NoSpaceConcat("#surah", bare);
    NoSpaceConcat("#surah", num);
    TagsAfterSlug();
    TagsAfterNumber();
    forall i | 0 <= i < |hs| ensures IsTag(hs[i]) {
      if 1 <= i < 5 {
        assert hs[i] == TAGS_AFTER_SLUG[i - 1];
      } else if 6 <= i {
        assert hs[i] == TAGS_AFTER_NUMBER[i - 6];
      }
    }
    WordsOfJoin(hs);
  }

  /** `if surah_info:` is false for a missing or empty dictionary. */
  predicate Truthy(info: Option<map<string, string>>) {
    info.Some? && info.value != map[]
  }

  /** `surah_info.get(key, "N/A")`. */
  function Field(info: map<string, string>, key: string): string {
    if key in info then info[key] else "N/A"
  }

  /** The "About this Surah" block. */
  function About(info: map<string, string>): string {
    "\n\n## About this Surah\n\n"
      + "**Name**: " + Field(info, "surah_name") + "\n\n"
      + "**Number of Verses**: " + Field(info, "ayah_count") + "\n\n"
      + "**Revelation Place**: " + Field(info, "revelation_place") + "\n\n"
      + "**Description**: " + Field(info, "description") + "\n\n"
  }

  const DESCRIPTION_BODY: string := "Listen, learn, and reflect on each word.\n\nUnderstand Allah's guidance, mercy, and blessings through this short word-by-word recitation.\n\n🎵 Recitation: Mishari Rashid al-`Afasy - https://quran.com/reciters/7\nSource: https://quran.com/\nAll rights to the recitation belong to the respective copyright holders.\n\n🌙 Du'a: May Allah guide us to His light. Ameen.\n\n🔔 Subscribe for more Qur'an recitations and Islamic reminders!\n\n"

  /** The description up to the hashtags. */
  function DescriptionHead(en: EnName): string {
    "✨ Surah " + en.transliteratedName + " - " + en.translatedName + "\n\n"
      + DESCRIPTION_BODY
  }

  /** `f"{n}. Surah {en} | {ar} | {bn}"`, with the Bengali name `bn` given. */
  function TitleWith(n: nat, en: EnName, ar: string, bn: string): string {
    NatToString(n) + ". Surah " + en.transliteratedName + " | " + ar + " | " + bn
  }

  /** The title line, with the Bengali name from the table. */
  function Title(n: nat, en: EnName, ar: string): string {
    TitleWith(n, en, ar, BengaliName(n))
  }

  /** A description with the given opening text: the hashtag line, then the "About this Surah" block when there is surah info. */
  function DescriptionWith(head: string, n: nat, slug: string, info: Option<map<string, string>>): string {
    head + Join(Hashtags(n, slug), " ") + (if Truthy(info) then About(info.value) else "")
  }

  /** The whole description of surah `n`. */
  function Description(n: nat, en: EnName, info: Option<map<string, string>>): string {
    DescriptionWith(DescriptionHead(en), n, en.slug, info)
  }

  /**
   * `generate_markdown(surah_data, n, surah_info)`: the title and description, or
   * `None` when the data has no English or no Arabic record for `n` (a
   * `KeyError`).
   */
  function GenerateMarkdown(data: SurahData, n: nat, info: Option<map<string, string>>): (r: Option<(string, string)>)
    ensures r.None? <==> NatToString(n) !in data.en || NatToString(n) !in data.ar
    ensures r.Some? ==> r.value.0 == Title(n, data.en[NatToString(n)], data.ar[NatToString(n)])
    ensures r.Some? ==> r.value.1 == Description(n, data.en[NatToString(n)], info)
  {
    var key := NatToString(n);
    if key !in data.en || key !in data.ar then None
    else
      var en := data.en[key];
      Some((Title(n, en, data.ar[key]), Description(n, en, info)))
  }

  /**
   * The title starts with the number and the English transliteration and ends
   * with the Bengali name, whatever that name is.
   */
  lemma TitleParts(n: nat, en: EnName, ar: string, bn: string)
    ensures var title := TitleWith(n, en, ar, bn);
      var prefix := NatToString(n) + ". Surah " + en.transliteratedName + " | ";
      && prefix <= title
      && |title| >= |bn| && title[|title| - |bn|..] == bn
  {
    var prefix := NatToString(n) + ". Surah " + en.transliteratedName + " | ";
    var title := TitleWith(n, en, ar, bn);
    assert title == prefix + (ar + " | " + bn);
    var front := prefix + ar + " | ";
    assert title == front + bn;
    assert title[|front|..] == bn;
  }

  /**
   * Without surah info the description ends with the hashtag `#islamicvideos`;
   * with it, it ends with the "About" block, where a missing field reads `N/A`.
   * Stated for any opening text, so for `Description` in particular.
   */
  lemma DescriptionEnding(head: string, n: nat, slug: string, info: Option<map<string, string>>)
    ensures var d := DescriptionWith(head, n, slug, info);
      && (!Truthy(info) ==> |d| >= 14 && d[|d| - 14..] == "#islamicvideos")
      && (Truthy(info) ==> |d| >= |About(info.value)| && d[|d| - |About(info.value)|..] == About(info.value))
  {
    var hs := Hashtags(n, slug);
    var front := head + Join(hs, " ");
    if Truthy(info) {
      var tail := About(info.value);
      assert DescriptionWith(head, n, slug, info) == front + tail;
      assert (front + tail)[|front|..] == tail;
    } else {
      assert DescriptionWith(head, n, slug, info) == front + "";
      JoinEndsWithLast(hs, " ");
      assert hs[17] == "#islamicvideos";
      EndsWithConcat(head, Join(hs, " "), "#islamicvideos");
      assert front + "" == front;
    }
  }

  lemma EndsWithConcat(a: string, b: string, suffix: string)
    requires |b| >= |suffix| && b[|b| - |suffix|..] == suffix
    ensures var s := a + b; |s| >= |suffix| && s[|s| - |suffix|..] == suffix
  {
    assert (a + b)[|a + b| - |suffix|..] == b[|b| - |suffix|..];
  }

  /** `f"surah_descriptions/{n:03d}_{slug}.md"`. */
  function FileName(n: nat, slug: string): string {
    "surah_descriptions/" + ZeroPad(n, 3) + "_" + slug + ".md"
  }

  /**
   * For numbers below 1000, the name is the directory, exactly three digits that
   * read back as the number, an underscore, the slug and `.md`.
   */
  lemma FileNameParts(n: nat, slug: string)
    requires n < 1000
    ensures var f := FileName(n, slug);
      var dir := "surah_descriptions/";
      && |f| == |dir| + 3 + 1 + |slug| + 3
      && f[..|dir|] == dir
      && IsDigits(f[|dir|..|dir| + 3]) && DigitsValue(f[|dir|..|dir| + 3]) == n
      && f[|dir| + 3] == '_'
      && f[|dir| + 4..|f| - 3] == slug
      && f[|f| - 3..] == ".md"
  {
    assert Pow10(3) == 1000;
    ZeroPadExactWidth(n, 3);
    ZeroPadValue(n, 3);
    var f := FileName(n, slug);
    var dir := "surah_descriptions/";
    assert f[|dir|..|dir| + 3] == ZeroPad(n, 3);
  }

  /**
   * What `main` writes into the file: the title as a heading, a blank line, the
   * description. A title without a line break is the whole first line.
   */
  function FileContent(title: string, description: string): (c: string)
    ensures |c| == |title| + 4 + |description|
    ensures c[|c| - |description|..] == description
    ensures c[|title| + 2..|title| + 4] == "\n\n"
    ensures '\n' !in title ==> forall k :: 0 <= k < |title| + 2 ==> c[k] != '\n'
    ensures c[..2] == "# " && c[2..|title| + 2] == title
  {
    "# " + title + "\n\n" + description
  }
}
