/**
 * The three regular-expression substitutions of the extractor, each written
 * as a left-to-right scanner with Python `re.sub` semantics: at each
 * position the pattern is tried; a match is deleted (or replaced) and the
 * scan resumes after it, otherwise one character is kept and the scan moves
 * on by one. Matches therefore never overlap and the text is scanned once.
 */
module Scrubbers {
  import opened Strings

  // ---------------------------------------------------------------------
  // re.sub(r'<[^>]+>', '', s)

  /**
   * The pattern `<[^>]+>` matches at `i`: a `<`, then at least one
   * character that is not `>`, then a `>`. A `>` somewhere after a non-`>`
   * successor is enough, because the first `>` after `i` then closes the match.
   */
  predicate TagAt(s: string, i: int) {
    0 <= i && i + 1 < |s| && s[i] == '<' && s[i + 1] != '>' && '>' in s[i + 1..]
  }

  predicate NoTag(s: string) {
    forall i :: 0 <= i < |s| ==> !TagAt(s, i)
  }

  /** The first index at or after `i` holding `c`, or `|s|`. */
  function IndexOf(s: string, c: char, i: nat): (k: nat)
    requires i <= |s|
    ensures i <= k <= |s|
    ensures forall j :: i <= j < k ==> s[j] != c
    ensures k < |s| ==> s[k] == c
    ensures k == |s| <==> c !in s[i..]
    decreases |s| - i
  {
    if i == |s| then i
    else if s[i] == c then i
    else
      assert s[i..] == [s[i]] + s[i + 1..];
      IndexOf(s, c, i + 1)
  }

  /**
   * `re.sub(r'<[^>]+>', '', s)`: deletes every tag, scanning left to right.
   * The result holds no tag, is no longer than `s`, holds a `>` only if `s`
   * does, and starts with `>` when `s` does.
   */
  function StripTags(s: string): (r: string)
    ensures NoTag(r)
    ensures |r| <= |s|
    ensures '>' in r ==> '>' in s
    ensures s != [] && s[0] == '>' ==> r != [] && r[0] == '>'
    decreases |s|
  {
    if s == [] then []
    else if TagAt(s, 0) then
      var close := IndexOf(s, '>', 1);
      assert s[close + 1..] == s[1..][close..];
      StripTags(s[close + 1..])
    else
      var rest := StripTags(s[1..]);
      TagAtCons(s[0], rest);
      var r := [s[0]] + rest;
      assert r[1..] == rest;
      assert !TagAt(r, 0) by {
        if s[0] == '<' && |s| > 1 {
          if s[1] == '>' {
            assert r[1] == '>';
          } else {
            assert '>' !in s[1..];
            assert '>' !in r[1..];
          }
        }
      }
      assert NoTag(r) by {
        forall i | 1 <= i < |r| ensures !TagAt(r, i) {
          assert TagAt(r, (i - 1) + 1) <==> TagAt(rest, i - 1);
        }
      }
      r
  }

  /** Putting one character in front shifts every tag position by one. */
  lemma TagAtCons(c: char, t: string)
    ensures forall i :: 0 <= i < |t| ==> (TagAt([c] + t, i + 1) <==> TagAt(t, i))
    ensures '>' in [c] + t <==> c == '>' || '>' in t
  {
    forall i | 0 <= i < |t| ensures TagAt([c] + t, i + 1) <==> TagAt(t, i) {
      assert ([c] + t)[i + 2..] == t[i + 1..];
    }
  }

  /** Text without tags passes through unchanged. */
  lemma {:induction false} StripTagsIdentity(s: string)
    requires NoTag(s)
    ensures StripTags(s) == s
    decreases |s|
  {
    if s != [] {
      assert !TagAt(s, 0);
      assert s == [s[0]] + s[1..];
      TagAtCons(s[0], s[1..]);
      StripTagsIdentity(s[1..]);
    }
  }

  /** Removing tags a second time changes nothing. */
  lemma StripTagsIdempotent(s: string)
    ensures StripTags(StripTags(s)) == StripTags(s)
  {
    StripTagsIdentity(StripTags(s));
  }

  /** A complete tag at the front is deleted with everything up to its first `>`. */
  lemma StripTagsDropsTag(name: string, rest: string)
    requires name != [] && '>' !in name
    ensures StripTags(['<'] + name + ['>'] + rest) == StripTags(rest)
  {
    var s := ['<'] + name + ['>'] + rest;
    assert s[1..] == name + ['>'] + rest;
    assert s[1] == name[0];
    assert s[|name| + 1] == '>';
    assert TagAt(s, 0);
    forall j | 1 <= j < |name| + 1 ensures s[j] != '>' {
      assert s[j] == name[j - 1];
    }
    assert IndexOf(s, '>', 1) == |name| + 1;
    assert s[|name| + 2..] == rest;
  }

  /** A character that cannot open a tag is kept. */
  lemma StripTagsKeeps(c: char, rest: string)
    requires c != '<'
    ensures StripTags([c] + rest) == [c] + StripTags(rest)
  {
    assert ([c] + rest)[1..] == rest;
  }

  /** Text without `<` in front of the rest is kept as it is, whatever follows. */
  lemma {:induction false} StripTagsKeepsPlain(a: string, rest: string)
    requires '<' !in a
    ensures StripTags(a + rest) == a + StripTags(rest)
    decreases |a|
  {
    if a == [] {
      assert a + rest == rest;
    } else {
      assert a + rest == [a[0]] + (a[1..] + rest);
      StripTagsKeeps(a[0], a[1..] + rest);
      StripTagsKeepsPlain(a[1..], rest);
      assert a == [a[0]] + a[1..];
    }
  }

  /** A `<` that does not open a complete tag is kept, so `"<>"` survives. */
  lemma StripTagsKeepsBareOpen(rest: string)
    requires !TagAt(['<'] + rest, 0)
    ensures StripTags(['<'] + rest) == ['<'] + StripTags(rest)
  {
    assert (['<'] + rest)[1..] == rest;
  }

  // ---------------------------------------------------------------------
  // re.sub(r'\s+', ' ', s)

  /** Every whitespace character is a plain space and no two whitespace characters are adjacent. */
  predicate Collapsed(s: string) {
    (forall i :: 0 <= i < |s| && IsWhitespace(s[i]) ==> s[i] == ' ') &&
    (forall i, j :: 0 <= i < |s| && 0 <= j < |s| && j == i + 1 && IsWhitespace(s[i]) ==> !IsWhitespace(s[j]))
  }

  /**
   * `re.sub(r'\s+', ' ', s)`: every maximal whitespace run becomes one space.
   * The result is collapsed, empty exactly when `s` is, starts with
   * whitespace exactly when `s` does, and is no longer than `s`.
   */
  function CollapseWhitespace(s: string): (r: string)
    ensures Collapsed(r)
    ensures |r| <= |s|
    ensures r == [] <==> s == []
    ensures r != [] ==> (IsWhitespace(r[0]) <==> IsWhitespace(s[0]))
    decreases |s|
  {
    if s == [] then []
    else if IsWhitespace(s[0]) then
      var rest := CollapseWhitespace(s[SkipWhitespace(s, 1)..]);
      assert rest != [] ==> !IsWhitespace(rest[0]);
      [' '] + rest
    else
      [s[0]] + CollapseWhitespace(s[1..])
  }

  /** Collapsing keeps every non-whitespace character and their order. */
  lemma {:induction false} CollapseKeepsVisible(s: string)
    ensures Visible(CollapseWhitespace(s)) == Visible(s)
    decreases |s|
  {
    if s != [] {
      if IsWhitespace(s[0]) {
        var k := SkipWhitespace(s, 1);
        CollapseKeepsVisible(s[k..]);
        VisibleOfRun(s, 0, k);
        assert s == s[..k] + s[k..];
        VisibleAppend(s[..k], s[k..]);
        var rest := CollapseWhitespace(s[k..]);
        assert ([' '] + rest)[1..] == rest;
      } else {
        CollapseKeepsVisible(s[1..]);
        var rest := CollapseWhitespace(s[1..]);
        assert ([s[0]] + rest)[1..] == rest;
      }
    }
  }

  /**
   * A maximal whitespace run at the front becomes exactly one space, and
   * collapsing goes on with what follows the run. With `CollapseKeepsChar`
   * and `CollapseWhitespace([]) == []` this fixes the result on every input.
   */
  lemma CollapseRun(w: string, b: string)
    requires w != [] && AllWhitespace(w)
    requires b == [] || !IsWhitespace(b[0])
    ensures CollapseWhitespace(w + b) == [' '] + CollapseWhitespace(b)
  {
    var s := w + b;
    assert s[0] == w[0];
    forall m | 1 <= m < |w| ensures IsWhitespace(s[m]) {
      assert s[m] == w[m];
    }
    if b != [] {
      assert s[|w|] == b[0];
    }
    SkipWhitespaceRun(s, 1, |w|);
    assert s[|w|..] == b;
  }

  /** A character that is not whitespace is kept, and collapsing goes on after it. */
  lemma CollapseKeepsChar(c: char, b: string)
    requires !IsWhitespace(c)
    ensures CollapseWhitespace([c] + b) == [c] + CollapseWhitespace(b)
  {
    assert ([c] + b)[1..] == b;
  }

  /** A word without whitespace is kept as it is, whatever follows it. */
  lemma {:induction false} CollapseKeepsWord(a: string, rest: string)
    requires forall i :: 0 <= i < |a| ==> !IsWhitespace(a[i])
    ensures CollapseWhitespace(a + rest) == a + CollapseWhitespace(rest)
    decreases |a|
  {
    if a == [] {
      assert a + rest == rest;
    } else {
      assert a + rest == [a[0]] + (a[1..] + rest);
      CollapseKeepsChar(a[0], a[1..] + rest);
      CollapseKeepsWord(a[1..], rest);
      assert a == [a[0]] + a[1..];
    }
  }

  /** Text that is already collapsed passes through unchanged. */
  lemma {:induction false} CollapseIdentity(s: string)
    requires Collapsed(s)
    ensures CollapseWhitespace(s) == s
    decreases |s|
  {
    if s != [] {
      if IsWhitespace(s[0]) {
        SkipWhitespaceRun(s, 1, 1);
      }
      CollapsedTail(s);
      CollapseIdentity(s[1..]);
      assert s == [s[0]] + s[1..];
    }
  }

  lemma CollapsedTail(s: string)
    requires Collapsed(s) && s != []
    ensures Collapsed(s[1..])
  {
    forall i | 0 <= i < |s| - 2 && IsWhitespace(s[1..][i]) ensures !IsWhitespace(s[1..][i + 1]) {
      assert s[1..][i] == s[i + 1] && s[1..][i + 1] == s[i + 2];
    }
  }

  /** Collapsing twice is collapsing once. */
  lemma CollapseIdempotent(s: string)
    ensures CollapseWhitespace(CollapseWhitespace(s)) == CollapseWhitespace(s)
  {
    CollapseIdentity(CollapseWhitespace(s));
  }

  /** A slice of a collapsed text is collapsed, so stripping keeps it collapsed. */
  lemma CollapsedSlice(s: string, lo: nat, hi: nat)
    requires Collapsed(s) && lo <= hi <= |s|
    ensures Collapsed(s[lo..hi])
  {
    var t := s[lo..hi];
    forall i | 0 <= i < |t| - 1 && IsWhitespace(t[i]) ensures !IsWhitespace(t[i + 1]) {
      assert t[i] == s[lo + i] && t[i + 1] == s[lo + i + 1];
    }
  }

  /** Stripping a collapsed text keeps it collapsed. */
  lemma StripKeepsCollapsed(s: string)
    requires Collapsed(s)
    ensures Collapsed(Strip(s))
  {
    CollapsedSlice(s, SkipWhitespace(s, 0), TrailingStart(s, SkipWhitespace(s, 0), |s|));
  }

  // ---------------------------------------------------------------------
  // re.sub(r'\x1b\[[0-9;]*m', '', s)

  const Esc: char := 27 as char

  /** The parameter characters of the pattern: digits and `;`. */
  predicate IsSgrParameter(c: char) {
    IsDigit(c) || c == ';'
  }

  /** The first index at or after `i` that is not a parameter character (or `|s|`). */
  function ParameterEnd(s: string, i: nat): (k: nat)
    requires i <= |s|
    ensures i <= k <= |s|
    ensures forall j :: i <= j < k ==> IsSgrParameter(s[j])
    ensures k < |s| ==> !IsSgrParameter(s[k])
    decreases |s| - i
  {
    if i < |s| && IsSgrParameter(s[i]) then ParameterEnd(s, i + 1) else i
  }

  /**
   * The pattern `\x1b\[[0-9;]*m` matches at the start of `s`: ESC, `[`, a
   * (possibly empty) run of parameters and then `m`. The run is greedy, and
   * giving characters back cannot help since none of them is `m`.
   */
  predicate SgrAtStart(s: string) {
    |s| >= 3 && s[0] == Esc && s[1] == '[' &&
    ParameterEnd(s, 2) < |s| && s[ParameterEnd(s, 2)] == 'm'
  }

  /** The control sequence ESC `[` params `m` (Select Graphic Rendition). */
  function Sgr(params: string): (r: string)
    requires forall k :: 0 <= k < |params| ==> IsSgrParameter(params[k])
    ensures |r| == |params| + 3 && r[0] == Esc && r[|r| - 1] == 'm'
  {
    [Esc, '['] + params + ['m']
  }

  /** `re.sub(r'\x1b\[[0-9;]*m', '', s)`: deletes every SGR sequence in one left-to-right pass. */
  function StripAnsi(s: string): (r: string)
    ensures |r| <= |s|
    ensures Esc !in s ==> r == s
    decreases |s|
  {
    if s == [] then []
    else if SgrAtStart(s) then StripAnsi(s[ParameterEnd(s, 2) + 1..])
    else
      assert s == [s[0]] + s[1..];
      [s[0]] + StripAnsi(s[1..])
  }

  /** A complete SGR sequence at the front is deleted. */
  lemma StripAnsiDropsSgr(params: string, rest: string)
    requires forall k :: 0 <= k < |params| ==> IsSgrParameter(params[k])
    ensures StripAnsi(Sgr(params) + rest) == StripAnsi(rest)
  {
    var s := Sgr(params) + rest;
    forall j | 2 <= j < |params| + 2 ensures IsSgrParameter(s[j]) {
      assert s[j] == params[j - 2];
    }
    assert s[|params| + 2] == 'm';
    ParameterEndRun(s, 2, |params| + 2);
    assert s[|params| + 3..] == rest;
  }

  lemma {:induction false} ParameterEndRun(s: string, i: nat, k: nat)
    requires i <= k <= |s|
    requires forall j :: i <= j < k ==> IsSgrParameter(s[j])
    requires k < |s| ==> !IsSgrParameter(s[k])
    ensures ParameterEnd(s, i) == k
    decreases k - i
  {
    if i < k {
      ParameterEndRun(s, i + 1, k);
    }
  }

  /** Text with no ESC in front of the rest passes through unchanged, whatever follows. */
  lemma {:induction false} StripAnsiKeeps(a: string, rest: string)
    requires Esc !in a
    ensures StripAnsi(a + rest) == a + StripAnsi(rest)
    decreases |a|
  {
    if a != [] {
      var s := a + rest;
      assert s[0] == a[0] && !SgrAtStart(s);
      assert s[1..] == a[1..] + rest;
      StripAnsiKeeps(a[1..], rest);
      assert StripAnsi(s) == [a[0]] + (a[1..] + StripAnsi(rest));
      assert a == [a[0]] + a[1..];
    } else {
      assert a + rest == rest;
    }
  }

  /** An ESC that does not begin a complete sequence is kept. */
  lemma StripAnsiKeepsLoneEsc(rest: string)
    requires !SgrAtStart([Esc] + rest)
    ensures StripAnsi([Esc] + rest) == [Esc] + StripAnsi(rest)
  {
    assert ([Esc] + rest)[1..] == rest;
  }
}
