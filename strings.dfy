/**
 * The Python string operations the extractor relies on, written out:
 * `str.isspace` (the set `strip()` and the regex class `\s` use),
 * `str.strip()`, `''.join(parts)`, `'\n'.join(lines)` and `str(n)` for a
 * natural number.
 */
module Strings {

  /**
   * The ASCII characters `str.isspace` accepts (tab, line feed, vertical
   * tab, form feed, carriage return, the four information separators and
   * space); `\s` in a `str` regex matches the same ones.
   */
  predicate IsWhitespace(c: char) {
    (9 <= c as int <= 13) || (28 <= c as int <= 32)
  }

  /** The whitespace characters, listed one by one. */
  lemma WhitespaceChars(c: char)
    ensures IsWhitespace(c) <==> c in "\t\n\U{0B}\U{0C}\r\U{1C}\U{1D}\U{1E}\U{1F} "
  {
  }

  predicate AllWhitespace(s: string) {
    forall i :: 0 <= i < |s| ==> IsWhitespace(s[i])
  }

  /** Neither the first nor the last character is whitespace (vacuous for ""). */
  predicate NoEdgeWhitespace(s: string) {
    s != [] ==> !IsWhitespace(s[0]) && !IsWhitespace(s[|s| - 1])
  }

  /** The non-whitespace characters of `s`, in order. */
  function Visible(s: string): string {
    if s == [] then []
    else if IsWhitespace(s[0]) then Visible(s[1..])
    else [s[0]] + Visible(s[1..])
  }

  lemma {:induction false} VisibleAppend(a: string, b: string)
    ensures Visible(a + b) == Visible(a) + Visible(b)
    decreases |a|
  {
    if a == [] {
      assert a + b == b;
    } else {
      assert (a + b)[1..] == a[1..] + b;
      VisibleAppend(a[1..], b);
    }
  }

  // ---------------------------------------------------------------------
  // ''.join(parts)

  /** `''.join(parts)`: the fragments concatenated with no separator. */
  function Concat(parts: seq<string>): string {
    if parts == [] then "" else parts[0] + Concat(parts[1..])
  }

  lemma {:induction false} ConcatAppend(a: seq<string>, b: seq<string>)
    ensures Concat(a + b) == Concat(a) + Concat(b)
    decreases |a|
  {
    if a == [] {
      assert a + b == b;
    } else {
      assert (a + b)[1..] == a[1..] + b;
      ConcatAppend(a[1..], b);
    }
  }

  /** Joining an empty list, or a list of empty fragments, gives "". */
  lemma {:induction false} ConcatEmpty(parts: seq<string>)
    ensures Concat(parts) == "" <==> forall k :: 0 <= k < |parts| ==> parts[k] == ""
    decreases |parts|
  {
    if parts != [] {
      ConcatEmpty(parts[1..]);
      assert forall k :: 1 <= k < |parts| ==> parts[k] == parts[1..][k - 1];
    }
  }

  // ---------------------------------------------------------------------
  // str.strip()

  /** The first index at or after `i` that does not hold whitespace (or `|s|`). */
  function SkipWhitespace(s: string, i: nat): (k: nat)
    requires i <= |s|
    ensures i <= k <= |s|
    ensures forall j :: i <= j < k ==> IsWhitespace(s[j])
    ensures k < |s| ==> !IsWhitespace(s[k])
    decreases |s| - i
  {
    if i < |s| && IsWhitespace(s[i]) then SkipWhitespace(s, i + 1) else i
  }

  /** The end of `s[lo..hi]` once its trailing whitespace is dropped. */
  function TrailingStart(s: string, lo: nat, hi: nat): (k: nat)
    requires lo <= hi <= |s|
    ensures lo <= k <= hi
    ensures forall j :: k <= j < hi ==> IsWhitespace(s[j])
    ensures k > lo ==> !IsWhitespace(s[k - 1])
    decreases hi - lo
  {
    if lo < hi && IsWhitespace(s[hi - 1]) then TrailingStart(s, lo, hi - 1) else hi
  }

  /**
   * `s.strip()`: the result has no whitespace at either end, and it is
   * empty exactly when `s` is all whitespace; `StripDecomposes` and
   * `StripPadded` say that it is `s` without its whitespace margins.
   */
  function Strip(s: string): (r: string)
    ensures |r| <= |s|
    ensures NoEdgeWhitespace(r)
    ensures r == "" <==> AllWhitespace(s)
  {
    var lo := SkipWhitespace(s, 0);
    var hi := TrailingStart(s, lo, |s|);
    assert AllWhitespace(s) ==> lo == |s|;
    assert lo == hi ==> s == s[..lo] + s[hi..];
    s[lo..hi]
  }

  /** `s` is its stripped text with a whitespace margin on either side. */
  lemma StripDecomposes(s: string)
    ensures exists w1, w2 :: s == w1 + Strip(s) + w2 && AllWhitespace(w1) && AllWhitespace(w2)
  {
    var lo := SkipWhitespace(s, 0);
    var hi := TrailingStart(s, lo, |s|);
    var w1, w2 := s[..lo], s[hi..];
    assert AllWhitespace(w1);
    assert AllWhitespace(w2);
    assert s == w1 + s[lo..hi] + w2;
    Margins(s, Strip(s), w1, w2);
  }

  lemma Margins(s: string, t: string, w1: string, w2: string)
    requires s == w1 + t + w2 && AllWhitespace(w1) && AllWhitespace(w2)
    ensures exists a, b :: s == a + t + b && AllWhitespace(a) && AllWhitespace(b)
  {
  }

  /** Stripping drops whitespace only: the visible characters are unchanged. */
  lemma StripKeepsVisible(s: string)
    ensures Visible(Strip(s)) == Visible(s)
  {
    var lo := SkipWhitespace(s, 0);
    var hi := TrailingStart(s, lo, |s|);
    VisibleOfRun(s, 0, lo);
    VisibleOfRun(s, hi, |s|);
    assert s == s[0..lo] + s[lo..hi] + s[hi..|s|];
    VisibleAppend(s[0..lo] + s[lo..hi], s[hi..|s|]);
    VisibleAppend(s[0..lo], s[lo..hi]);
  }

  lemma {:induction false} VisibleOfRun(s: string, i: nat, k: nat)
    requires i <= k <= |s|
    requires forall j :: i <= j < k ==> IsWhitespace(s[j])
    ensures Visible(s[i..k]) == []
    decreases k - i
  {
    if i < k {
      assert s[i..k][1..] == s[i + 1..k];
      VisibleOfRun(s, i + 1, k);
    }
  }

  /** Skipping from the start of a whitespace run lands on the first character after it. */
  lemma {:induction false} SkipWhitespaceRun(s: string, i: nat, j: nat)
    requires i <= j <= |s|
    requires forall m :: i <= m < j ==> IsWhitespace(s[m])
    requires j < |s| ==> !IsWhitespace(s[j])
    ensures SkipWhitespace(s, i) == j
    decreases j - i
  {
    if i < j {
      SkipWhitespaceRun(s, i + 1, j);
    }
  }

  lemma {:induction false} TrailingStartRun(s: string, lo: nat, k: nat, hi: nat)
    requires lo <= k <= hi <= |s|
    requires forall m :: k <= m < hi ==> IsWhitespace(s[m])
    requires k > lo ==> !IsWhitespace(s[k - 1])
    ensures TrailingStart(s, lo, hi) == k
    decreases hi - k
  {
    if k < hi {
      TrailingStartRun(s, lo, k, hi - 1);
    }
  }

  /** The partner of `Strip`: padding a text without edge whitespace on both sides and stripping gives the text back. */
  lemma StripPadded(w1: string, t: string, w2: string)
    requires AllWhitespace(w1) && AllWhitespace(w2)
    requires NoEdgeWhitespace(t)
    ensures Strip(w1 + t + w2) == t
  {
    var s := w1 + t + w2;
    if t == [] {
      SkipWhitespaceRun(s, 0, |s|);
    } else {
      SkipWhitespaceRun(s, 0, |w1|);
      TrailingStartRun(s, |w1|, |w1| + |t|, |s|);
      assert s[|w1|..|w1| + |t|] == t;
    }
  }

  // ---------------------------------------------------------------------
  // '\n'.join(lines)

  /** `'\n'.join(lines)`. */
  function JoinLines(lines: seq<string>): string {
    if |lines| == 0 then ""
    else if |lines| == 1 then lines[0]
    else lines[0] + "\n" + JoinLines(lines[1..])
  }

  /** Joining two non-empty line lists puts exactly one separator between their joins. */
  lemma {:induction false} JoinLinesAppend(a: seq<string>, b: seq<string>)
    requires a != [] && b != []
    ensures JoinLines(a + b) == JoinLines(a) + "\n" + JoinLines(b)
    decreases |a|
  {
    if |a| == 1 {
      assert (a + b)[1..] == b;
    } else {
      assert (a + b)[1..] == a[1..] + b;
      JoinLinesAppend(a[1..], b);
    }
  }

  /** A list of several lines whose last line is "" joins to text ending in a newline. */
  lemma {:induction false} JoinLinesEndsWithNewline(lines: seq<string>)
    requires |lines| >= 2 && lines[|lines| - 1] == ""
    ensures var s := JoinLines(lines); |s| > 0 && s[|s| - 1] == '\n'
    decreases |lines|
  {
    if |lines| > 2 {
      JoinLinesEndsWithNewline(lines[1..]);
    }
  }

  /**
   * When the first list ends with an empty line, the join shows it as a
   * blank line: the first list's other lines, two newlines, then the second.
   */
  lemma JoinLinesAfterBlank(a: seq<string>, b: seq<string>)
    requires |a| >= 2 && a[|a| - 1] == "" && b != []
    ensures JoinLines(a + b) == JoinLines(a[..|a| - 1]) + "\n\n" + JoinLines(b)
  {
    var init := a[..|a| - 1];
    assert a == init + [""];
    JoinLinesAppend(init, [""]);
    JoinLinesAppend(a, b);
  }

  /** Only the empty list and the list holding one empty line join to "". */
  lemma {:induction false} JoinLinesEmpty(lines: seq<string>)
    ensures JoinLines(lines) == "" <==> lines == [] || lines == [""]
  {
  }

  // ---------------------------------------------------------------------
  // str(n)

  predicate IsDigit(c: char) { '0' <= c <= '9' }

  function DigitChar(d: nat): (c: char)
    requires d < 10
    ensures IsDigit(c) && (c as int) - ('0' as int) == d
  {
    (('0' as int) + d) as char
  }

  /** `str(n)` for a natural number: decimal digits, no leading zero. */
  function NatToString(n: nat): (r: string)
    ensures |r| > 0
    ensures forall k :: 0 <= k < |r| ==> IsDigit(r[k])
    ensures r[0] == '0' ==> n == 0 && r == "0"
    decreases n
  {
    if n < 10 then [DigitChar(n)] else NatToString(n / 10) + [DigitChar(n % 10)]
  }

  function DigitValue(c: char): nat
    requires IsDigit(c)
  {
    (c as int) - ('0' as int)
  }

  /** The value of a string of decimal digits. */
  function DecimalValue(s: string): nat
    requires forall k :: 0 <= k < |s| ==> IsDigit(s[k])
  {
    if s == [] then 0
    else 10 * DecimalValue(s[..|s| - 1]) + DigitValue(s[|s| - 1])
  }

  /** Reading back the decimal rendering gives the number, so distinct numbers render differently. */
  lemma {:induction false} DecimalRoundTrip(n: nat)
    ensures DecimalValue(NatToString(n)) == n
    decreases n
  {
    var r := NatToString(n);
    if n >= 10 {
      DecimalRoundTrip(n / 10);
      assert r[..|r| - 1] == NatToString(n / 10);
    }
  }
}
