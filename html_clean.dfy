/**
 * `clean_html_tags`: scrubs the English translation text of a verse before it
 * goes into an SRT block. Three regular expressions occur in the scripts:
 * `<[^>]*>` (json_to_srt_generator.py, video_generator.py), `<[^>]+>` and the
 * footnote pattern `<sup[^>]*>.*?</sup>` (the three quran/video generators).
 * Each `re.sub` is a left-to-right scan that, at every position, either removes
 * the leftmost match starting there or keeps one character and moves on.
 */
module HtmlClean {
  import opened Text
  import opened Wrappers

  /** The bracket characters `˹` and `˺` that the translations use around interpolated words. */
  const OPEN_BRACKET: char := '\U{2F9}'
  const CLOSE_BRACKET: char := '\U{2FA}'
  const SUP_OPEN: string := "<sup"
  const SUP_CLOSE: string := "</sup>"

  predicate IsBracket(c: char) {
    c == OPEN_BRACKET || c == CLOSE_BRACKET
  }

  predicate NoBracket(s: string) {
    forall i :: 0 <= i < |s| ==> !IsBracket(s[i])
  }

  /** No `<` has a `>` anywhere after it: nothing `<[^>]*>` could still match. */
  predicate NoClosedTag(s: string) {
    forall i, j :: 0 <= i < j < |s| && s[i] == '<' ==> s[j] != '>'
  }

  /** Every `<` that has a `>` after it is `<>`: nothing `<[^>]+>` could still match. */
  predicate OnlyEmptyTags(s: string) {
    forall i, j :: 0 <= i < j < |s| && s[i] == '<' && s[j] == '>' ==> s[i + 1] == '>'
  }

  /** `re.sub(r'<[^>]*>', '', s)`: a `<` with a `>` after it starts a tag that ends at the first such `>`. */
  function StripTags(s: string): (r: string)
    ensures NoClosedTag(r)
    ensures multiset(r) <= multiset(s)
    decreases |s|
  {
    if s == [] then []
    else if s[0] == '<' && '>' in s[1..] then
      var rest := s[1..][IndexOf(s[1..], '>') + 1..];
      assert s == s[..|s| - |rest|] + rest;
      StripTags(rest)
    else
      var r' := StripTags(s[1..]);
      assert s == [s[0]] + s[1..];
      if s[0] == '<' then
        assert multiset(s[1..])['>'] == 0;
        assert '>' !in r' by { assert multiset(r')['>'] == 0; }
        NoClosedTagCons(s[0], r');
        [s[0]] + r'
      else
        NoClosedTagCons(s[0], r');
        [s[0]] + r'
  }

  /** `re.sub(r'<[^>]+>', '', s)`: as `StripTags`, except that `<>` is not a tag. */
  function StripNonEmptyTags(s: string): (r: string)
    ensures OnlyEmptyTags(r)
    ensures multiset(r) <= multiset(s)
    decreases |s|
  {
    if s == [] then []
    else if s[0] == '<' && '>' in s[1..] && IndexOf(s[1..], '>') > 0 then
      var rest := s[1..][IndexOf(s[1..], '>') + 1..];
      assert s == s[..|s| - |rest|] + rest;
      StripNonEmptyTags(rest)
    else
      var r' := StripNonEmptyTags(s[1..]);
      assert s == [s[0]] + s[1..];
      if s[0] == '<' && '>' in s[1..] then
        assert s[1] == '>';
        assert r'[0] == '>';
        OnlyEmptyTagsCons(s[0], r');
        [s[0]] + r'
      else if s[0] == '<' then
        assert multiset(s[1..])['>'] == 0;
        assert '>' !in r' by { assert multiset(r')['>'] == 0; }
        OnlyEmptyTagsCons(s[0], r');
        [s[0]] + r'
      else
        OnlyEmptyTagsCons(s[0], r');
        [s[0]] + r'
  }

  /** `</sup>` starts at position `m` of `s`. */
  predicate CloseAt(s: string, m: int) {
    0 <= m && m + |SUP_CLOSE| <= |s| && s[m..m + |SUP_CLOSE|] == SUP_CLOSE
  }

  /** A `</sup>` found in a suffix of `s` is one of `s`, shifted by where the suffix starts. */
  lemma CloseAtShift(s: string, off: nat, k: nat)
    requires off <= |s| && CloseAt(s[off..], k)
    ensures CloseAt(s, off + k)
  {
    assert s[off..][k..k + |SUP_CLOSE|] == s[off + k..off + k + |SUP_CLOSE|];
  }

  /** The first position where `</sup>` starts, if any: the end of the lazy `.*?`. */
  function FindClose(s: string): (k: Option<nat>)
    ensures k.Some? ==> CloseAt(s, k.value) && forall m :: 0 <= m < k.value ==> !CloseAt(s, m)
    ensures k.None? ==> forall m :: !CloseAt(s, m)
    decreases |s|
  {
    if |s| < |SUP_CLOSE| then None
    else if s[..|SUP_CLOSE|] == SUP_CLOSE then Some(0)
    else
      match FindClose(s[1..])
      case None =>
        assert forall m :: 1 <= m ==> CloseAt(s, m) == CloseAt(s[1..], m - 1);
        None
      case Some(k) =>
        assert forall m :: 1 <= m ==> CloseAt(s, m) == CloseAt(s[1..], m - 1);
        Some(k + 1)
  }

  /**
   * Length of the match of `<sup[^>]*>.*?</sup>` at the start of `s`: `<sup`, up to
   * the first `>`, then up to and including the first `</sup>` after it.
   */
  function SupMatchLength(s: string): (n: Option<nat>)
    ensures n.Some? ==> |SUP_OPEN| + 1 + |SUP_CLOSE| <= n.value <= |s|
    ensures n.Some? ==> s[..|SUP_OPEN|] == SUP_OPEN && CloseAt(s, n.value - |SUP_CLOSE|)
  {
    if |s| >= |SUP_OPEN| && s[..|SUP_OPEN|] == SUP_OPEN && '>' in s[|SUP_OPEN|..] then
      var gt := |SUP_OPEN| + IndexOf(s[|SUP_OPEN|..], '>');
      match FindClose(s[gt + 1..])
      case None => None
      case Some(k) =>
        CloseAtShift(s, gt + 1, k);
        Some(gt + 1 + k + |SUP_CLOSE|)
    else None
  }

  /** `re.sub(r'<sup[^>]*>.*?</sup>', '', s, flags=re.DOTALL)`. */
  function StripSupBlocks(s: string): (r: string)
    ensures multiset(r) <= multiset(s)
    decreases |s|
  {
    if s == [] then []
    else
      match SupMatchLength(s)
      case Some(n) =>
        assert s == s[..n] + s[n..];
        StripSupBlocks(s[n..])
      case None =>
        assert s == [s[0]] + s[1..];
        [s[0]] + StripSupBlocks(s[1..])
  }

  /** `re.sub(r'˹|˺', '', s)`. */
  function RemoveBrackets(s: string): (r: string)
    ensures NoBracket(r)
    ensures forall c :: !IsBracket(c) ==> multiset(r)[c] == multiset(s)[c]
    ensures multiset(r) <= multiset(s)
  {
    if s == [] then []
    else
      assert s == [s[0]] + s[1..];
      if IsBracket(s[0]) then RemoveBrackets(s[1..]) else [s[0]] + RemoveBrackets(s[1..])
  }

  /** `clean_html_tags` of json_to_srt_generator.py. */
  function CleanSimple(s: string): string {
    Strip(RemoveBrackets(StripTags(s)))
  }

  /** `clean_html_tags` of video_generator.py: both substitutions run twice. */
  function CleanDoublePass(s: string): string {
    Strip(RemoveBrackets(StripTags(RemoveBrackets(StripTags(s)))))
  }

  /** `clean_html_tags` of the quran generators and video_generator_new.py. */
  function CleanSup(s: string): string {
    Strip(RemoveBrackets(StripNonEmptyTags(StripSupBlocks(s))))
  }

  lemma NoClosedTagCons(c: char, r: string)
    requires NoClosedTag(r) && (c == '<' ==> '>' !in r)
    ensures NoClosedTag([c] + r)
  {
    var s := [c] + r;
    forall i, j | 0 <= i < j < |s| && s[i] == '<' ensures s[j] != '>' {
      assert s[j] == r[j - 1];
      if i > 0 { assert s[i] == r[i - 1]; }
    }
  }

  lemma OnlyEmptyTagsCons(c: char, r: string)
    requires OnlyEmptyTags(r) && (c == '<' && '>' in r ==> r[0] == '>')
    ensures OnlyEmptyTags([c] + r)
  {
    var s := [c] + r;
    forall i, j | 0 <= i < j < |s| && s[i] == '<' && s[j] == '>' ensures s[i + 1] == '>' {
      assert s[j] == r[j - 1];
      if i > 0 { assert s[i] == r[i - 1] && s[i + 1] == r[i]; }
    }
  }

  lemma NoClosedTagSlice(s: string, i: nat, j: nat)
    requires NoClosedTag(s) && i <= j <= |s|
    ensures NoClosedTag(s[i..j])
  {
    forall a, b | 0 <= a < b < j - i && s[i..j][a] == '<' ensures s[i..j][b] != '>' {
      assert s[i..j][a] == s[i + a] && s[i..j][b] == s[i + b];
    }
  }

  lemma OnlyEmptyTagsSlice(s: string, i: nat, j: nat)
    requires OnlyEmptyTags(s) && i <= j <= |s|
    ensures OnlyEmptyTags(s[i..j])
  {
    forall a, b | 0 <= a < b < j - i && s[i..j][a] == '<' && s[i..j][b] == '>'
      ensures s[i..j][a + 1] == '>'
    {
      assert s[i + a] == '<' && s[i + b] == '>';
    }
  }

  lemma NoBracketSlice(s: string, i: nat, j: nat)
    requires NoBracket(s) && i <= j <= |s|
    ensures NoBracket(s[i..j])
  {
    forall a | 0 <= a < j - i ensures !IsBracket(s[i..j][a]) {
      assert s[i..j][a] == s[i + a];
    }
  }

  /** Removing characters other than `<` and `>` cannot create a tag. */
  lemma {:induction false} RemoveBracketsKeepsNoClosedTag(s: string)
    requires NoClosedTag(s)
    ensures NoClosedTag(RemoveBrackets(s))
    decreases |s|
  {
    if s != [] {
      NoClosedTagSlice(s, 1, |s|);
      RemoveBracketsKeepsNoClosedTag(s[1..]);
      var r' := RemoveBrackets(s[1..]);
      if !IsBracket(s[0]) {
        if s[0] == '<' {
          assert '>' !in s[1..];
          assert multiset(s[1..])['>'] == 0;
          assert '>' !in r' by { assert multiset(r')['>'] == 0; }
        }
        NoClosedTagCons(s[0], r');
      }
    }
  }

  lemma {:induction false} RemoveBracketsKeepsOnlyEmptyTags(s: string)
    requires OnlyEmptyTags(s)
    ensures OnlyEmptyTags(RemoveBrackets(s))
    decreases |s|
  {
    if s != [] {
      OnlyEmptyTagsSlice(s, 1, |s|);
      RemoveBracketsKeepsOnlyEmptyTags(s[1..]);
      var r' := RemoveBrackets(s[1..]);
      if !IsBracket(s[0]) {
        if s[0] == '<' {
          if '>' in s[1..] {
            var j :| 0 <= j < |s[1..]| && s[1..][j] == '>';
            assert s[1 + j] == '>';
            assert s[1] == '>';
            assert s[1..][0] == '>';
            assert r' == [s[1..][0]] + RemoveBrackets(s[1..][1..]);
          } else {
            assert multiset(s[1..])['>'] == 0;
            assert '>' !in r' by { assert multiset(r')['>'] == 0; }
          }
        }
        OnlyEmptyTagsCons(s[0], r');
      }
    }
  }

  /** Text without brackets comes out of `RemoveBrackets` unchanged. */
  lemma {:induction false} RemoveBracketsIdentity(s: string)
    requires NoBracket(s)
    ensures RemoveBrackets(s) == s
    decreases |s|
  {
    if s != [] {
      NoBracketSlice(s, 1, |s|);
      RemoveBracketsIdentity(s[1..]);
    }
  }

  /** Text in which no tag can start comes out of `StripTags` unchanged. */
  lemma {:induction false} StripTagsIdentity(s: string)
    requires NoClosedTag(s)
    ensures StripTags(s) == s
    decreases |s|
  {
    if s != [] {
      NoClosedTagSlice(s, 1, |s|);
      StripTagsIdentity(s[1..]);
    }
  }

  /** `StripTags` is idempotent. */
  lemma StripTagsIdempotent(s: string)
    ensures StripTags(StripTags(s)) == StripTags(s)
  {
    StripTagsIdentity(StripTags(s));
  }

  /** A prefix without `<` is copied through, whatever follows it. */
  lemma {:induction false} StripTagsPrefix(x: string, y: string)
    requires '<' !in x
    ensures StripTags(x + y) == x + StripTags(y)
    decreases |x|
  {
    if x != [] {
      var s := x + y;
      assert s[0] == x[0] && s[0] != '<';
      assert s[1..] == x[1..] + y;
      assert StripTags(s) == [s[0]] + StripTags(s[1..]);
      StripTagsPrefix(x[1..], y);
      assert x == [x[0]] + x[1..];
    } else {
      assert x + y == y;
    }
  }

  /** A whole tag `<t>` is removed and nothing else is. */
  lemma StripTagsRemovesTag(x: string, t: string, y: string)
    requires '<' !in x && '>' !in t
    ensures StripTags(x + "<" + t + ">" + y) == x + StripTags(y)
  {
    var z := "<" + t + ">" + y;
    assert x + "<" + t + ">" + y == x + z;
    StripTagsPrefix(x, z);
    StripTagsAtTag(t, y);
  }

  lemma StripTagsAtTag(t: string, y: string)
    requires '>' !in t
    ensures StripTags("<" + t + ">" + y) == StripTags(y)
  {
    var z := "<" + t + ">" + y;
    assert z[0] == '<';
    assert z[1..] == t + ">" + y;
    assert z[1..][..|t|] == t;
    IndexOfAt(z[1..], '>', |t|);
    assert z[1..][|t| + 1..] == y;
    assert StripTags(z) == StripTags(z[1..][IndexOf(z[1..], '>') + 1..]);
  }

  lemma {:induction false} StripNonEmptyTagsPrefix(x: string, y: string)
    requires '<' !in x
    ensures StripNonEmptyTags(x + y) == x + StripNonEmptyTags(y)
    decreases |x|
  {
    if x != [] {
      var s := x + y;
      assert s[0] == x[0] && s[0] != '<';
      assert s[1..] == x[1..] + y;
      assert StripNonEmptyTags(s) == [s[0]] + StripNonEmptyTags(s[1..]);
      StripNonEmptyTagsPrefix(x[1..], y);
      assert x == [x[0]] + x[1..];
    } else {
      assert x + y == y;
    }
  }

  /** A tag with a non-empty body is removed; `<>` is kept. */
  lemma StripNonEmptyTagsRemovesTag(x: string, t: string, y: string)
    requires '<' !in x && '>' !in t
    ensures t != [] ==> StripNonEmptyTags(x + "<" + t + ">" + y) == x + StripNonEmptyTags(y)
    ensures t == [] ==> StripNonEmptyTags(x + "<" + t + ">" + y) == x + "<>" + StripNonEmptyTags(y)
  {
    var z := "<" + t + ">" + y;
    assert x + "<" + t + ">" + y == x + z;
    StripNonEmptyTagsPrefix(x, z);
    StripNonEmptyTagsAtTag(t, y);
    if t == [] {
      assert x + ("<>" + StripNonEmptyTags(y)) == x + "<>" + StripNonEmptyTags(y);
    }
  }

  lemma StripNonEmptyTagsAtTag(t: string, y: string)
    requires '>' !in t
    ensures t != [] ==> StripNonEmptyTags("<" + t + ">" + y) == StripNonEmptyTags(y)
    ensures t == [] ==> StripNonEmptyTags("<" + t + ">" + y) == "<>" + StripNonEmptyTags(y)
  {
    var z := "<" + t + ">" + y;
    assert z[0] == '<';
    assert z[1..] == t + ">" + y;
    assert z[1..][..|t|] == t;
    IndexOfAt(z[1..], '>', |t|);
    if t == [] {
      assert z[1..] == ">" + y;
      assert z[1..][1..] == y;
      assert StripNonEmptyTags(z) == "<" + StripNonEmptyTags(z[1..]);
      assert StripNonEmptyTags(z[1..]) == ">" + StripNonEmptyTags(y);
    } else {
      assert z[1..][|t| + 1..] == y;
      assert StripNonEmptyTags(z) == StripNonEmptyTags(z[1..][IndexOf(z[1..], '>') + 1..]);
    }
  }

  lemma {:induction false} StripSupBlocksPrefix(x: string, y: string)
    requires '<' !in x
    ensures StripSupBlocks(x + y) == x + StripSupBlocks(y)
    decreases |x|
  {
    if x != [] {
      var s := x + y;
      assert s[0] == x[0] && s[0] != '<';
      assert s[1..] == x[1..] + y;
      assert SupMatchLength(s).None? by {
        if |s| >= |SUP_OPEN| { assert s[..|SUP_OPEN|][0] == s[0]; }
      }
      assert StripSupBlocks(s) == [s[0]] + StripSupBlocks(s[1..]);
      StripSupBlocksPrefix(x[1..], y);
      assert x == [x[0]] + x[1..];
    } else {
      assert x + y == y;
    }
  }

  /** A footnote block `<sup a>b</sup>` is removed together with its contents. */
  lemma StripSupBlocksRemovesFootnote(x: string, a: string, b: string, y: string)
    requires '<' !in x && '>' !in a && '<' !in b
    ensures StripSupBlocks(x + SUP_OPEN + a + ">" + b + SUP_CLOSE + y) == x + StripSupBlocks(y)
  {
    var z := SUP_OPEN + a + ">" + b + SUP_CLOSE + y;
    assert x + SUP_OPEN + a + ">" + b + SUP_CLOSE + y == x + z;
    StripSupBlocksPrefix(x, z);
    StripSupBlocksAtFootnote(a, b, y);
  }

  lemma StripSupBlocksAtFootnote(a: string, b: string, y: string)
    requires '>' !in a && '<' !in b
    ensures StripSupBlocks(SUP_OPEN + a + ">" + b + SUP_CLOSE + y) == StripSupBlocks(y)
  {
    var z := SUP_OPEN + a + ">" + b + SUP_CLOSE + y;
    var gt := |SUP_OPEN| + |a|;
    assert z[..|SUP_OPEN|] == SUP_OPEN;
    assert z[|SUP_OPEN|..] == a + ">" + b + SUP_CLOSE + y;
    assert z[|SUP_OPEN|..][..|a|] == a;
    IndexOfAt(z[|SUP_OPEN|..], '>', |a|);
    var w := z[gt + 1..];
    assert w == b + SUP_CLOSE + y;
    FindCloseAfterText(b, y);
    SupMatchLengthAt(z, gt, |b|);
    var n := gt + 1 + |b| + |SUP_CLOSE|;
    assert z[n..] == y;
  }

  /** In `b + "</sup>" + y` with no `<` in `b`, the first `</sup>` is the one after `b`. */
  lemma FindCloseAfterText(b: string, y: string)
    requires '<' !in b
    ensures FindClose(b + SUP_CLOSE + y) == Some(|b|)
  {
    var w := b + SUP_CLOSE + y;
    assert CloseAt(w, |b|) by { assert w[|b|..|b| + |SUP_CLOSE|] == SUP_CLOSE; }
    forall m | 0 <= m < |b| ensures !CloseAt(w, m) {
      assert w[m] == b[m];
      if m + |SUP_CLOSE| <= |w| {
        assert w[m..m + |SUP_CLOSE|][0] == w[m];
      }
    }
  }

  /** The match at the start of `s` when its first `>` after `<sup` is at `gt`. */
  lemma SupMatchLengthAt(s: string, gt: nat, k: nat)
    requires |SUP_OPEN| <= gt < |s| && s[..|SUP_OPEN|] == SUP_OPEN
    requires '>' in s[|SUP_OPEN|..] && IndexOf(s[|SUP_OPEN|..], '>') == gt - |SUP_OPEN|
    requires FindClose(s[gt + 1..]) == Some(k)
    ensures SupMatchLength(s) == Some(gt + 1 + k + |SUP_CLOSE|)
  {
  }

  /** `CleanSimple`: no tag left, no bracket, no outer whitespace. */
  lemma CleanSimpleClean(s: string)
    ensures var r := CleanSimple(s);
      NoClosedTag(r) && NoBracket(r) && (r == [] || (!IsSpace(r[0]) && !IsSpace(r[|r| - 1])))
  {
    var t := RemoveBrackets(StripTags(s));
    RemoveBracketsKeepsNoClosedTag(StripTags(s));
    var i, j :| 0 <= i <= j <= |t| && Strip(t) == t[i..j];
    NoClosedTagSlice(t, i, j);
    NoBracketSlice(t, i, j);
  }

  /** `CleanSup`: only empty tags `<>` left, no bracket, no outer whitespace. */
  lemma CleanSupClean(s: string)
    ensures var r := CleanSup(s);
      OnlyEmptyTags(r) && NoBracket(r) && (r == [] || (!IsSpace(r[0]) && !IsSpace(r[|r| - 1])))
  {
    var u := StripNonEmptyTags(StripSupBlocks(s));
    var t := RemoveBrackets(u);
    RemoveBracketsKeepsOnlyEmptyTags(u);
    var i, j :| 0 <= i <= j <= |t| && Strip(t) == t[i..j];
    OnlyEmptyTagsSlice(t, i, j);
    NoBracketSlice(t, i, j);
  }

  /** The second pass of video_generator.py finds nothing left to remove. */
  lemma CleanDoublePassIsSimple(s: string)
    ensures CleanDoublePass(s) == CleanSimple(s)
  {
    var t := RemoveBrackets(StripTags(s));
    RemoveBracketsKeepsNoClosedTag(StripTags(s));
    StripTagsIdentity(t);
    RemoveBracketsIdentity(t);
  }

  /** Plain text, with no `<` and no bracket, is merely stripped by all three variants. */
  lemma CleanPlainText(s: string)
    requires '<' !in s && NoBracket(s)
    ensures CleanSimple(s) == Strip(s)
    ensures CleanDoublePass(s) == Strip(s)
    ensures CleanSup(s) == Strip(s)
  {
    StripTagsPrefix(s, []);
    assert s + [] == s;
    RemoveBracketsIdentity(s);
    CleanDoublePassIsSimple(s);
    StripSupBlocksPrefix(s, []);
    StripNonEmptyTagsPrefix(s, []);
  }
}
