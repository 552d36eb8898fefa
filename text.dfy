/**
 * The string operations of Python that the subtitle scripts lean on:
 * `str.isspace`, `strip`, `split()`, `split(sep)`, `sep.join`, `str(n)`,
 * `f"{n:0w}"` and `s[::-1]`, each with the contract that pins down what
 * Python returns.
 */
module Text {

  /** Python's `str.isspace()` for one code point (Unicode White_Space, as CPython defines it). */
  predicate IsSpace(c: char) {
    c == ' ' || c == '\t' || c == '\n' || c == '\r' || c == '\U{B}' || c == '\U{C}'
    || ('\U{1C}' <= c <= '\U{1F}') || c == '\U{85}' || c == '\U{A0}' || c == '\U{1680}'
    || ('\U{2000}' <= c <= '\U{200A}') || c == '\U{2028}' || c == '\U{2029}'
    || c == '\U{202F}' || c == '\U{205F}' || c == '\U{3000}'
  }

  predicate NoSpace(s: string) {
    forall i :: 0 <= i < |s| ==> !IsSpace(s[i])
  }

  /** A word as `str.split()` yields it: non-empty, no whitespace inside. */
  predicate IsWord(w: string) {
    |w| > 0 && NoSpace(w)
  }

  /** True when `text.strip()` is empty, i.e. `not text.strip()`. */
  predicate IsBlank(s: string) {
    forall i :: 0 <= i < |s| ==> IsSpace(s[i])
  }

  // ---------------------------------------------------------------- strip

  /** How many whitespace characters `s` starts with: `len(s) - len(s.lstrip())`. */
  function LeadingSpaces(s: string): (k: nat)
    ensures k <= |s|
    ensures forall i :: 0 <= i < k ==> IsSpace(s[i])
    ensures k == |s| || !IsSpace(s[k])
  {
    if s == [] || !IsSpace(s[0]) then 0 else 1 + LeadingSpaces(s[1..])
  }

  /** How many whitespace characters `s` ends with: `len(s) - len(s.rstrip())`. */
  function TrailingSpaces(s: string): (k: nat)
    ensures k <= |s|
    ensures forall i :: |s| - k <= i < |s| ==> IsSpace(s[i])
    ensures k == |s| || !IsSpace(s[|s| - 1 - k])
  {
    if s == [] || !IsSpace(s[|s| - 1]) then 0 else 1 + TrailingSpaces(s[..|s| - 1])
  }

  /** `s.strip()`: the slice `s[i..j]` with only whitespace outside it and none at its ends. */
  function Strip(s: string): (r: string)
    ensures exists i, j :: 0 <= i <= j <= |s| && r == s[i..j] && IsBlank(s[..i]) && IsBlank(s[j..])
    ensures r == [] || (!IsSpace(r[0]) && !IsSpace(r[|r| - 1]))
  {
    var i := LeadingSpaces(s);
    if i == |s| then
      assert IsBlank(s[..i]) && s[i..] == [];
      []
    else
      var j := |s| - TrailingSpaces(s);
      assert i < j;
      assert IsBlank(s[..i]) && IsBlank(s[j..]);
      s[i..j]
  }

  /** Stripping a string that has no whitespace at either end gives it back. */
  lemma StripTrimmed(s: string)
    requires s == [] || (!IsSpace(s[0]) && !IsSpace(s[|s| - 1]))
    ensures Strip(s) == s
  {
  }

  /** A string is blank exactly when stripping it leaves nothing. */
  lemma BlankIffStripEmpty(s: string)
    ensures IsBlank(s) <==> Strip(s) == []
  {
    var r := Strip(s);
    var i, j :| 0 <= i <= j <= |s| && r == s[i..j] && IsBlank(s[..i]) && IsBlank(s[j..]);
    if r != [] {
      assert s[i] == r[0];
    } else {
      assert s == s[..i] + s[j..];
    }
  }

  // ---------------------------------------------------------------- split() on whitespace

  /** Length of the leading run of non-whitespace characters. */
  function WordLen(s: string): (k: nat)
    ensures k <= |s|
    ensures forall i :: 0 <= i < k ==> !IsSpace(s[i])
    ensures k == |s| || IsSpace(s[k])
  {
    if s == [] || IsSpace(s[0]) then 0 else 1 + WordLen(s[1..])
  }

  /** `s.split()`: the maximal runs of non-whitespace characters, in order. */
  function Words(s: string): (ws: seq<string>)
    ensures forall j :: 0 <= j < |ws| ==> IsWord(ws[j])
    decreases |s|
  {
    if s == [] then []
    else if IsSpace(s[0]) then Words(s[1..])
    else
      var k := WordLen(s);
      [s[..k]] + Words(s[k..])
  }

  /** `text.split()` is empty exactly when the text is blank. */
  lemma {:induction false} WordsEmptyIffBlank(s: string)
    ensures Words(s) == [] <==> IsBlank(s)
    decreases |s|
  {
    if s != [] && IsSpace(s[0]) {
      WordsEmptyIffBlank(s[1..]);
      assert IsBlank(s) <==> IsBlank(s[1..]) by {
        if IsBlank(s[1..]) {
          forall i | 0 <= i < |s| ensures IsSpace(s[i]) {
            if i > 0 { assert s[i] == s[1..][i - 1]; }
          }
        }
      }
    }
  }

  /** `sep.join(ws)`. */
  function Join(ws: seq<string>, sep: string): string {
    if |ws| == 0 then ""
    else if |ws| == 1 then ws[0]
    else ws[0] + sep + Join(ws[1..], sep)
  }

  /** Appending one element to a non-empty list appends the separator and that element. */
  lemma {:induction false} JoinSnoc(ws: seq<string>, x: string, sep: string)
    requires |ws| > 0
    ensures Join(ws + [x], sep) == Join(ws, sep) + sep + x
  {
    if |ws| == 1 {
      assert ws + [x] == [ws[0], x];
    } else {
      assert (ws + [x])[1..] == ws[1..] + [x];
      JoinSnoc(ws[1..], x, sep);
    }
  }

  /** A joined list ends with its last element. */
  lemma JoinEndsWithLast(ws: seq<string>, sep: string)
    requires |ws| > 0
    ensures var j := Join(ws, sep); var last := ws[|ws| - 1];
      |j| >= |last| && j[|j| - |last|..] == last
  {
    var last := ws[|ws| - 1];
    if |ws| > 1 {
      assert ws == ws[..|ws| - 1] + [last];
      JoinSnoc(ws[..|ws| - 1], last, sep);
      var front := Join(ws[..|ws| - 1], sep) + sep;
      assert Join(ws, sep) == front + last;
      assert (front + last)[|front|..] == last;
    }
  }

  /** A whitespace-free word followed by a space and more text splits off as the first word. */
  lemma {:induction false} WordsWordThenRest(w: string, rest: string)
    requires IsWord(w)
    ensures Words(w + " " + rest) == [w] + Words(rest)
  {
    var s := w + " " + rest;
    WordLenOfWord(w, " " + rest);
    assert s[..|w|] == w;
    assert s[|w|..] == " " + rest;
    assert (" " + rest)[1..] == rest;
  }

  lemma {:induction false} WordLenOfWord(w: string, rest: string)
    requires IsWord(w)
    requires rest == [] || IsSpace(rest[0])
    ensures WordLen(w + rest) == |w|
    decreases |w|
  {
    if |w| > 1 {
      assert (w + rest)[1..] == w[1..] + rest;
      WordLenOfWord(w[1..], rest);
    } else {
      assert (w + rest)[1..] == rest;
    }
  }

  /** `" ".join(ws).split() == ws` for words: splitting undoes joining. */
  lemma {:induction false} WordsOfJoin(ws: seq<string>)
    requires forall j :: 0 <= j < |ws| ==> IsWord(ws[j])
    ensures Words(Join(ws, " ")) == ws
  {
    if |ws| == 0 {
    } else if |ws| == 1 {
      WordLenOfWord(ws[0], "");
      assert ws[0] + "" == ws[0];
      assert ws[0][|ws[0]|..] == [];
    } else {
      WordsWordThenRest(ws[0], Join(ws[1..], " "));
      WordsOfJoin(ws[1..]);
    }
  }

  /** Joining words with single spaces never yields the empty string. */
  lemma {:induction false} JoinWordsNonEmpty(ws: seq<string>)
    requires |ws| > 0 && forall j :: 0 <= j < |ws| ==> IsWord(ws[j])
    ensures |Join(ws, " ")| >= |ws[0]| > 0
  {
  }

  /** A word of the list occurs inside the joined string. */
  lemma {:induction false} JoinContains(ws: seq<string>, j: nat, sep: string)
    requires j < |ws|
    ensures exists a, b :: Join(ws, sep) == a + ws[j] + b
  {
    if |ws| == 1 {
      assert Join(ws, sep) == "" + ws[0] + "";
    } else if j == 0 {
      assert Join(ws, sep) == "" + ws[0] + (sep + Join(ws[1..], sep));
    } else {
      JoinContains(ws[1..], j - 1, sep);
      var a, b :| Join(ws[1..], sep) == a + ws[1..][j - 1] + b;
      assert Join(ws, sep) == (ws[0] + sep + a) + ws[j] + b;
    }
  }

  // ---------------------------------------------------------------- split(sep) on one character

  /** Index of the first occurrence of `c` in `s`. */
  function IndexOf(s: string, c: char): (k: nat)
    requires c in s
    ensures k < |s| && s[k] == c && c !in s[..k]
  {
    if s[0] == c then 0 else
      assert s[1..][..IndexOf(s[1..], c)] == s[1..1 + IndexOf(s[1..], c)];
      1 + IndexOf(s[1..], c)
  }

  /** `IndexOf` is the first position holding `c`. */
  lemma {:induction false} IndexOfAt(s: string, c: char, k: nat)
    requires k < |s| && s[k] == c && c !in s[..k]
    ensures IndexOf(s, c) == k
    decreases k
  {
    if k > 0 {
      assert s[..k][0] == s[0];
      assert s[1..][..k - 1] == s[..k][1..];
      IndexOfAt(s[1..], c, k - 1);
    }
  }

  /** `s.split(c)` for a one-character separator: never empty, and no piece contains `c`. */
  function SplitOn(s: string, c: char): (parts: seq<string>)
    ensures |parts| > 0
    ensures forall j :: 0 <= j < |parts| ==> c !in parts[j]
    decreases |s|
  {
    if c !in s then [s]
    else
      var k := IndexOf(s, c);
      [s[..k]] + SplitOn(s[k + 1..], c)
  }

  /** Joining the pieces back with the separator restores the string. */
  lemma {:induction false} JoinSplitOn(s: string, c: char)
    ensures Join(SplitOn(s, c), [c]) == s
    decreases |s|
  {
    if c in s {
      var k := IndexOf(s, c);
      JoinSplitOn(s[k + 1..], c);
      assert s == s[..k] + [c] + s[k + 1..];
    }
  }

  /** Splitting a join of separator-free pieces gives the pieces back. */
  lemma {:induction false} SplitOnJoin(ls: seq<string>, c: char)
    requires |ls| > 0
    requires forall j :: 0 <= j < |ls| ==> c !in ls[j]
    ensures SplitOn(Join(ls, [c]), c) == ls
  {
    if |ls| > 1 {
      var s := Join(ls, [c]);
      assert s == ls[0] + [c] + Join(ls[1..], [c]);
      assert s[|ls[0]|] == c;
      assert s[..|ls[0]|] == ls[0];
      assert IndexOf(s, c) == |ls[0]|;
      assert s[|ls[0]| + 1..] == Join(ls[1..], [c]);
      SplitOnJoin(ls[1..], c);
    }
  }

  // ---------------------------------------------------------------- decimal numbers

  predicate IsDigit(c: char) { '0' <= c <= '9' }

  predicate IsDigits(s: string) {
    forall i :: 0 <= i < |s| ==> IsDigit(s[i])
  }

  function DigitChar(d: nat): (c: char)
    requires d < 10
    ensures IsDigit(c) && c as int - '0' as int == d
  {
    "0123456789"[d]
  }

  /** `str(n)` for a non-negative integer: its decimal digits, most significant first. */
  function NatToString(n: nat): (s: string)
    ensures |s| > 0 && IsDigits(s)
    ensures n > 0 ==> s[0] != '0'
  {
    if n < 10 then [DigitChar(n)] else NatToString(n / 10) + [DigitChar(n % 10)]
  }

  /** The number a string of decimal digits denotes (`int(s)` on digit strings). */
  function DigitsValue(s: string): nat
    requires IsDigits(s)
  {
    if s == [] then 0 else DigitsValue(s[..|s| - 1]) * 10 + (s[|s| - 1] as int - '0' as int)
  }

  /** Reading back the decimal rendering of `n` gives `n`. */
  lemma {:induction false} NatToStringValue(n: nat)
    ensures DigitsValue(NatToString(n)) == n
  {
    if n >= 10 {
      NatToStringValue(n / 10);
      var s := NatToString(n);
      assert s[..|s| - 1] == NatToString(n / 10);
    }
  }

  function Pow10(k: nat): (p: nat)
    ensures p >= 1
  {
    if k == 0 then 1 else 10 * Pow10(k - 1)
  }

  /** A number below 10^k has at most k digits. */
  lemma {:induction false} NatToStringLength(n: nat, k: nat)
    requires k >= 1 && n < Pow10(k)
    ensures |NatToString(n)| <= k
  {
    if n >= 10 {
      NatToStringLength(n / 10, k - 1);
    }
  }

  /** A number of at least 10^k has more than k digits. */
  lemma {:induction false} NatToStringLengthLower(n: nat, k: nat)
    requires n >= Pow10(k)
    ensures |NatToString(n)| > k
  {
    if k > 0 {
      NatToStringLengthLower(n / 10, k - 1);
    }
  }

  function Repeat(c: char, k: nat): (s: string)
    ensures |s| == k && forall i :: 0 <= i < k ==> s[i] == c
  {
    if k == 0 then [] else [c] + Repeat(c, k - 1)
  }

  /** Python's `f"{n:0w}"`: `str(n)` left-padded with zeros to at least `w` characters. */
  function ZeroPad(n: nat, w: nat): (s: string)
    ensures IsDigits(s)
    ensures |s| == if |NatToString(n)| < w then w else |NatToString(n)|
  {
    var d := NatToString(n);
    if |d| < w then Repeat('0', w - |d|) + d else d
  }

  /** Leading zeros do not change the value of a digit string. */
  lemma {:induction false} LeadingZerosValue(k: nat, d: string)
    requires IsDigits(d)
    ensures IsDigits(Repeat('0', k) + d) && DigitsValue(Repeat('0', k) + d) == DigitsValue(d)
    decreases |d|
  {
    var z := Repeat('0', k);
    if d == [] {
      assert z + d == z;
      ZerosValue(k);
    } else {
      var s := z + d;
      assert s[..|s| - 1] == z + d[..|d| - 1];
      LeadingZerosValue(k, d[..|d| - 1]);
    }
  }

  lemma {:induction false} ZerosValue(k: nat)
    ensures DigitsValue(Repeat('0', k)) == 0
  {
    if k > 0 {
      var z := Repeat('0', k);
      assert z[..k - 1] == Repeat('0', k - 1);
      ZerosValue(k - 1);
    }
  }

  /** Reading back a zero-padded number gives the number. */
  lemma ZeroPadValue(n: nat, w: nat)
    ensures DigitsValue(ZeroPad(n, w)) == n
  {
    var d := NatToString(n);
    NatToStringValue(n);
    if |d| < w {
      LeadingZerosValue(w - |d|, d);
      assert ZeroPad(n, w) == Repeat('0', w - |d|) + d;
    } else {
      assert ZeroPad(n, w) == d;
    }
  }

  /** `f"{n:0w}"` has exactly `w` characters when `n < 10^w`. */
  lemma ZeroPadExactWidth(n: nat, w: nat)
    requires w >= 1 && n < Pow10(w)
    ensures |ZeroPad(n, w)| == w
  {
    NatToStringLength(n, w);
  }

  // ---------------------------------------------------------------- reversal

  /** `s[::-1]`. */
  function Reverse<T>(s: seq<T>): (r: seq<T>)
    ensures |r| == |s| && forall i :: 0 <= i < |s| ==> r[i] == s[|s| - 1 - i]
  {
    if s == [] then [] else Reverse(s[1..]) + [s[0]]
  }

  /** `s[::-1][:k]` is the reversal of the last `k` elements of `s`. */
  lemma {:induction false} ReversePrefix<T>(s: seq<T>, k: nat)
    requires k <= |s|
    ensures Reverse(s)[..k] == Reverse(s[|s| - k..])
  {
    if k == |s| {
      assert s[|s| - k..] == s;
    } else {
      ReversePrefix(s[1..], k);
      assert s[1..][|s[1..]| - k..] == s[|s| - k..];
      var front := Reverse(s[1..]);
      assert Reverse(s) == front + [s[0]];
      assert (front + [s[0]])[..k] == front[..k];
    }
  }
}
