/**
 * What the extractor promises about its output, proved of `Notebook.Transcribe`
 * and the functions it is built from.
 */
module Properties {
  import opened Strings
  import opened Scrubbers
  import opened Notebook

  // ---------------------------------------------------------------------
  // Record dispatch

  /** A record with `text` contributes its text only, whatever `data` and `output_type` hold. */
  lemma TextWins(t: Text, data: Option<map<string, Text>>, outputType: Option<string>)
    ensures Contribution(Output(Some(t), data, outputType)) == Ok(Pieces(t))
  {
  }

  /** Within `data`, `text/plain` is used verbatim and `text/html` is then ignored. */
  lemma PlainWins(data: map<string, Text>, html: Text)
    requires "text/plain" in data
    ensures DataPieces(data) == DataPieces(data["text/html" := html]) == Pieces(data["text/plain"])
  {
  }

  /** A `data` map with neither key contributes nothing. */
  lemma DataWithoutTextKeys(data: map<string, Text>)
    requires "text/plain" !in data && "text/html" !in data
    ensures DataPieces(data) == []
  {
  }

  /** A record with neither `text`, `data`, nor type `stream` contributes nothing. */
  lemma UnrecognisedRecord(o: Output)
    requires o.text.None? && o.data.None? && o.outputType != Some("stream")
    ensures Contribution(o) == Ok([])
  {
  }

  // ---------------------------------------------------------------------
  // Errors

  /** Collecting the records raises exactly when one of them is a broken stream record. */
  lemma {:induction false} OutputTextFails(outputs: seq<Output>)
    ensures OutputText(outputs).Err? <==> exists k :: 0 <= k < |outputs| && BrokenStream(outputs[k])
    ensures OutputText(outputs).Err? ==> OutputText(outputs).error == KeyError("text")
    decreases |outputs|
  {
    if outputs != [] {
      var init := outputs[..|outputs| - 1];
      OutputTextFails(init);
      assert forall k :: 0 <= k < |init| ==> init[k] == outputs[k];
      if exists k :: 0 <= k < |outputs| && BrokenStream(outputs[k]) {
        var k :| 0 <= k < |outputs| && BrokenStream(outputs[k]);
        if k < |init| {
          assert BrokenStream(init[k]);
        }
      }
    }
  }

  /** A cell whose transcription raises: non-blank source and a broken stream record among its outputs. */
  predicate Raises(c: Cell) {
    Content(c) != "" && exists k :: 0 <= k < |c.outputs| && BrokenStream(c.outputs[k])
  }

  /** A cell raises exactly when its source is not blank and one of its records is a broken stream record. */
  lemma CellLinesFail(n: nat, c: Cell)
    ensures CellLines(n, c).Err? <==> Raises(c)
    ensures CellLines(n, c).Err? ==> CellLines(n, c).error == KeyError("text")
  {
    OutputTextFails(c.outputs);
  }

  /** The transcription raises exactly when some cell raises. */
  lemma LinesFromFail(cells: seq<Cell>, offset: nat)
    ensures LinesFrom(cells, offset).Err? <==> exists k :: 0 <= k < |cells| && Raises(cells[k])
    ensures LinesFrom(cells, offset).Err? ==> LinesFrom(cells, offset).error == KeyError("text")
  {
    forall n: nat, c: Cell ensures CellLines(n, c).Err? <==> Raises(c) {
      CellLinesFail(n, c);
    }
    CellLinesFailures();
    EachCellFailsWhen(CellLines, Raises, cells, offset, KeyError("text"));
  }

  /** When a rule fails exactly on the cells satisfying `p`, a run fails exactly when some cell satisfies `p`. */
  lemma EachCellFailsWhen(f: (nat, Cell) -> Result<seq<string>>, p: Cell -> bool, cells: seq<Cell>, offset: nat, e: Error)
    requires FailsOnlyWith(f, e)
    requires forall n: nat, c: Cell :: f(n, c).Err? <==> p(c)
    ensures EachCell(f, cells, offset).Err? <==> exists k :: 0 <= k < |cells| && p(cells[k])
  {
    EachCellFails(f, cells, offset, e);
    if exists k :: 0 <= k < |cells| && p(cells[k]) {
      var k :| 0 <= k < |cells| && p(cells[k]);
      assert f(offset + k + 1, cells[k]).Err?;
    }
  }

  // ---------------------------------------------------------------------
  // The outer loop, for any per-cell rule

  /** `Then` is associative, so blocks of lines can be regrouped freely. */
  lemma ThenAssociative<T>(a: Result<seq<T>>, b: Result<seq<T>>, c: Result<seq<T>>)
    ensures Then(Then(a, b), c) == Then(a, Then(b, c))
  {
    if a.Ok? && b.Ok? && c.Ok? {
      assert (a.value + b.value) + c.value == a.value + (b.value + c.value);
    }
  }

  /** One more cell appends that cell's block, numbered by its position. */
  lemma EachCellStep(f: (nat, Cell) -> Result<seq<string>>, cells: seq<Cell>, i: nat, offset: nat, n: nat)
    requires i < |cells| && n == offset + i + 1
    ensures EachCell(f, cells[..i + 1], offset) == Then(EachCell(f, cells[..i], offset), f(n, cells[i]))
  {
    assert cells[..i + 1][..i] == cells[..i];
  }

  /** A successful result of `Then` after a successful prefix: the second part succeeded and was appended. */
  lemma ThenOk<T>(prefix: seq<T>, b: Result<seq<T>>, all: seq<T>)
    requires Then(Ok(prefix), b) == Ok(all)
    ensures b.Ok? && all == prefix + b.value
  {
  }

  /** `EachCellStep` for a successful prefix and a successful cell. */
  lemma EachCellStepOk(f: (nat, Cell) -> Result<seq<string>>, cells: seq<Cell>, i: nat, offset: nat, n: nat, prev: seq<string>, block: seq<string>)
    requires i < |cells| && n == offset + i + 1
    requires EachCell(f, cells[..i], offset) == Ok(prev) && f(n, cells[i]) == Ok(block)
    ensures EachCell(f, cells[..i + 1], offset) == Ok(prev + block)
  {
    EachCellStep(f, cells, i, offset, n);
  }

  /** Splitting the list at `k`: the cells from `k` on are numbered after the first `k`. */
  lemma {:induction false} EachCellSplit(f: (nat, Cell) -> Result<seq<string>>, cells: seq<Cell>, k: nat, offset: nat)
    requires k <= |cells|
    ensures EachCell(f, cells, offset) == Then(EachCell(f, cells[..k], offset), EachCell(f, cells[k..], offset + k))
    decreases |cells|
  {
    if k == |cells| {
      assert cells[..k] == cells;
      assert cells[k..] == [];
      var x := EachCell(f, cells, offset);
      if x.Ok? {
        assert x.value + [] == x.value;
      }
    } else {
      var init := cells[..|cells| - 1];
      var tail := cells[k..];
      EachCellSplit(f, init, k, offset);
      assert init[..k] == cells[..k];
      assert tail[..|tail| - 1] == init[k..];
      assert tail[|tail| - 1] == cells[|cells| - 1];
      ThenAssociative(EachCell(f, cells[..k], offset), EachCell(f, init[k..], offset + k), f(offset + |cells|, cells[|cells| - 1]));
    }
  }

  /** Running over a concatenation: the second part is numbered after the first. */
  lemma EachCellAppend(f: (nat, Cell) -> Result<seq<string>>, a: seq<Cell>, b: seq<Cell>, offset: nat)
    ensures EachCell(f, a + b, offset) == Then(EachCell(f, a, offset), EachCell(f, b, offset + |a|))
  {
    EachCellSplit(f, a + b, |a|, offset);
    assert (a + b)[..|a|] == a && (a + b)[|a|..] == b;
  }

  /** `EachCellAppend` for two successful parts. */
  lemma EachCellAppendOk(f: (nat, Cell) -> Result<seq<string>>, a: seq<Cell>, b: seq<Cell>, offset: nat, mid: nat, la: seq<string>, lb: seq<string>)
    requires mid == offset + |a|
    requires EachCell(f, a, offset) == Ok(la) && EachCell(f, b, mid) == Ok(lb)
    ensures EachCell(f, a + b, offset) == Ok(la + lb)
  {
    EachCellAppend(f, a, b, offset);
  }

  /** Cell `k` is numbered `offset + k + 1`, between the cells before it and those after it. */
  lemma EachCellAt(f: (nat, Cell) -> Result<seq<string>>, cells: seq<Cell>, k: nat, offset: nat)
    requires k < |cells|
    ensures EachCell(f, cells, offset) ==
      Then(EachCell(f, cells[..k], offset), Then(f(offset + k + 1, cells[k]), EachCell(f, cells[k + 1..], offset + k + 1)))
  {
    var rest := cells[k..];
    EachCellSplit(f, cells, k, offset);
    EachCellSplit(f, rest, 1, offset + k);
    assert rest[..1] == [cells[k]];
    assert rest[1..] == cells[k + 1..];
    EachCellSingle(f, cells[k], offset + k, offset + k + 1);
  }

  /** `EachCellAt` with the cell's number `n` given. */
  lemma EachCellAtNumber(f: (nat, Cell) -> Result<seq<string>>, cells: seq<Cell>, k: nat, offset: nat, n: nat)
    requires k < |cells| && n == offset + k + 1
    ensures EachCell(f, cells, offset) ==
      Then(EachCell(f, cells[..k], offset), Then(f(n, cells[k]), EachCell(f, cells[k + 1..], n)))
  {
    EachCellAt(f, cells, k, offset);
  }

  /** A single cell after `offset` others is numbered `offset + 1`. */
  lemma EachCellSingle(f: (nat, Cell) -> Result<seq<string>>, c: Cell, offset: nat, n: nat)
    requires n == offset + 1
    ensures EachCell(f, [c], offset) == f(n, c)
  {
    assert [c][..0] == [];
    var x := f(n, c);
    if x.Ok? {
      assert [] + x.value == x.value;
    }
  }

  /** A list of lines that is empty, or has at least two entries and ends with "". */
  predicate IsBlock(lines: seq<string>) {
    lines == [] || (|lines| >= 2 && lines[|lines| - 1] == "")
  }

  /** Every block the rule produces is empty or ends with "". */
  ghost predicate BlockRule(f: (nat, Cell) -> Result<seq<string>>) {
    forall n: nat, c: Cell :: f(n, c).Ok? ==> IsBlock(f(n, c).value)
  }

  /** If every cell's block is empty or ends with "", so does the whole run; it is empty exactly when every block is. */
  lemma {:induction false} EachCellShape(f: (nat, Cell) -> Result<seq<string>>, cells: seq<Cell>, offset: nat)
    requires BlockRule(f)
    requires EachCell(f, cells, offset).Ok?
    ensures IsBlock(EachCell(f, cells, offset).value)
    ensures EachCell(f, cells, offset).value == [] <==> forall k :: 0 <= k < |cells| ==> f(offset + k + 1, cells[k]) == Ok([])
    decreases |cells|
  {
    if cells != [] {
      var init := cells[..|cells| - 1];
      var n := offset + |cells|;
      EachCellShape(f, init, offset);
      assert forall k :: 0 <= k < |init| ==> init[k] == cells[k];
      var a, b := EachCell(f, init, offset).value, f(n, cells[|cells| - 1]).value;
      assert EachCell(f, cells, offset).value == a + b;
      if b != [] {
        assert (a + b)[|a + b| - 1] == b[|b| - 1];
      }
    }
  }

  // ---------------------------------------------------------------------
  // Layout

  /**
   * The labels of lines 38 and 86 can be read back: equal header lines have
   * the same number and content, equal output lines the same number and
   * text, and no header line is an output line.
   */
  lemma LineLabels(n: nat, m: nat, a: string, b: string)
    ensures HeaderLine(n, a) == HeaderLine(m, b) ==> n == m && a == b
    ensures OutputLine(n, a) == OutputLine(m, b) ==> n == m && a == b
    ensures HeaderLine(n, a) != OutputLine(m, b)
  {
    LineForms(n, a);
    LineForms(m, b);
    LabelParts(n, m, ": " + a, ": " + b);
    LabelParts(n, m, " Output: " + a, " Output: " + b);
    LabelParts(n, m, ": " + a, " Output: " + b);
    PrefixCancel(": ", a, b);
    PrefixCancel(" Output: ", a, b);
    assert (": " + a)[0] != (" Output: " + b)[0];
  }

  /** Two labels `Cell <n><x>` and `Cell <m><y>`, with x and y not starting with a digit, agree only when n == m and x == y. */
  lemma LabelParts(n: nat, m: nat, x: string, y: string)
    requires x != [] && !IsDigit(x[0]) && y != [] && !IsDigit(y[0])
    ensures "Cell " + NatToString(n) + x == "Cell " + NatToString(m) + y ==> n == m && x == y
  {
    var p, q := NatToString(n), NatToString(m);
    assert "Cell " + p + x == "Cell " + (p + x);
    assert "Cell " + q + y == "Cell " + (q + y);
    PrefixCancel("Cell ", p + x, q + y);
    DigitsPrefix(p, x, q, y);
    DecimalRoundTrip(n);
    DecimalRoundTrip(m);
  }

  /** Both labelled lines are `Cell <n>` followed by a tail that starts with a non-digit. */
  lemma LineForms(n: nat, t: string)
    ensures HeaderLine(n, t) == "Cell " + NatToString(n) + (": " + t)
    ensures OutputLine(n, t) == "Cell " + NatToString(n) + (" Output: " + t)
  {
  }

  /** A common prefix can be cancelled. */
  lemma PrefixCancel(c: string, u: string, v: string)
    ensures c + u == c + v ==> u == v
  {
    assert (c + u)[|c|..] == u && (c + v)[|c|..] == v;
  }

  /** A run of digits followed by something that does not start with a digit is determined by the text. */
  lemma DigitsPrefix(p: string, x: string, q: string, y: string)
    requires forall i :: 0 <= i < |p| ==> IsDigit(p[i])
    requires forall i :: 0 <= i < |q| ==> IsDigit(q[i])
    requires x != [] && !IsDigit(x[0]) && y != [] && !IsDigit(y[0])
    ensures p + x == q + y ==> p == q && x == y
  {
    if p + x == q + y {
      var s := p + x;
      var k := if |p| <= |q| then |p| else |q|;
      assert IsDigit(s[k]) <==> k < |p|;
      assert IsDigit((q + y)[k]) <==> k < |q|;
      assert p == s[..|p|] && x == s[|p|..];
      assert q == (q + y)[..|q|] && y == (q + y)[|q|..];
    }
  }

  /** A cell emits no lines exactly when its joined source is all whitespace. */
  lemma BlankCellSkipped(n: nat, c: Cell)
    ensures CellLines(n, c) == Ok([]) <==> AllWhitespace(Joined(c.source))
  {
  }

  /**
   * The gate of the `Cell n Output:` line: it is emitted exactly when the
   * cleaned fragments are non-empty, and then the record list and the
   * fragment list are non-empty too (the two earlier guards never decide).
   */
  lemma OutputGate(n: nat, outputs: seq<Output>)
    requires OutputText(outputs).Ok?
    ensures var frags := OutputText(outputs).value;
      OutputLines(n, outputs) ==
        if CleanOutput(frags) != "" then Ok([OutputLine(n, CleanOutput(frags))]) else Ok([])
    ensures CleanOutput(OutputText(outputs).value) != "" ==> |outputs| > 0 && |OutputText(outputs).value| > 0
  {
    assert Strip(Concat([])) == "";
  }

  /**
   * An emitted cell: its header, then the output line if the gate opens,
   * then one empty line; two or three entries in all.
   */
  lemma CellShape(n: nat, c: Cell)
    requires Content(c) != "" && OutputText(c.outputs).Ok?
    ensures var clean := CleanOutput(OutputText(c.outputs).value);
      CellLines(n, c) ==
        if clean != "" then Ok([HeaderLine(n, Content(c)), OutputLine(n, clean), ""])
        else Ok([HeaderLine(n, Content(c)), ""])
  {
    var header := HeaderLine(n, Content(c));
    var clean := CleanOutput(OutputText(c.outputs).value);
    assert CellLines(n, c) == Then(Then(Ok([header]), OutputLines(n, c.outputs)), Ok([""]));
    OutputGate(n, c.outputs);
    if clean != "" {
      assert [header] + [OutputLine(n, clean)] + [""] == [header, OutputLine(n, clean), ""];
    } else {
      assert [header] + [] + [""] == [header, ""];
    }
  }

  /** Every cell's lines are empty (blank source) or at least two lines ending with "". */
  lemma CellLinesBlock(n: nat, c: Cell)
    requires CellLines(n, c).Ok?
    ensures IsBlock(CellLines(n, c).value)
    ensures CellLines(n, c) == Ok([]) <==> Content(c) == ""
  {
    if Content(c) != "" {
      CellLinesFail(n, c);
      OutputTextFails(c.outputs);
      CellShape(n, c);
    }
  }

  lemma CellLinesAreBlocks()
    ensures BlockRule(CellLines)
  {
    forall n: nat, c: Cell | CellLines(n, c).Ok? ensures IsBlock(CellLines(n, c).value) {
      CellLinesBlock(n, c);
    }
  }

  /**
   * Cell `k` of the list is numbered `k + 1` wherever it sits: its lines
   * come after those of the cells before it and before those after it,
   * however many of them were skipped.
   */
  lemma CellNumbering(cells: seq<Cell>, k: nat)
    requires k < |cells|
    ensures LinesFrom(cells, 0) ==
      Then(LinesFrom(cells[..k], 0), Then(CellLines(k + 1, cells[k]), LinesFrom(cells[k + 1..], k + 1)))
  {
    EachCellAtNumber(CellLines, cells, k, 0, k + 1);
  }

  /** A skipped cell still uses up its number. */
  lemma SkippedCellNumbered(a: seq<Cell>, c: Cell, b: seq<Cell>)
    requires Content(c) == ""
    ensures LinesFrom(a + [c] + b, 0) == Then(LinesFrom(a, 0), LinesFrom(b, |a| + 1))
  {
    var cells := a + [c] + b;
    CellNumbering(cells, |a|);
    assert cells[..|a|] == a && cells[|a|] == c && cells[|a| + 1..] == b;
    assert CellLines(|a| + 1, c) == Ok([]);
    ThenSkip(LinesFrom(a, 0), LinesFrom(b, |a| + 1));
  }

  /** An empty block in the middle changes nothing. */
  lemma ThenSkip<T>(x: Result<seq<T>>, y: Result<seq<T>>)
    ensures Then(x, Then(Ok([]), y)) == Then(x, y)
  {
    if y.Ok? {
      assert [] + y.value == y.value;
    }
  }

  /**
   * The line list of a run of cells that does not raise: empty exactly when
   * every cell is blank, and otherwise at least two lines ending with "".
   */
  lemma LinesFromShape(cells: seq<Cell>, offset: nat)
    requires LinesFrom(cells, offset).Ok?
    ensures IsBlock(LinesFrom(cells, offset).value)
    ensures LinesFrom(cells, offset).value == [] <==> forall k :: 0 <= k < |cells| ==> Content(cells[k]) == ""
  {
    CellLinesAreBlocks();
    EachCellShape(CellLines, cells, offset);
    LinesFromFail(cells, offset);
    forall k | 0 <= k < |cells| ensures CellLines(offset + k + 1, cells[k]) == Ok([]) <==> Content(cells[k]) == "" {
      assert !Raises(cells[k]);
      CellLinesEmptyIff(offset + k + 1, cells[k]);
    }
  }

  /** A cell that does not raise gives no lines exactly when its content is blank. */
  lemma CellLinesEmptyIff(n: nat, c: Cell)
    requires !Raises(c)
    ensures CellLines(n, c) == Ok([]) <==> Content(c) == ""
  {
    CellLinesFail(n, c);
  }

  /** The result is "" exactly when no cell is emitted; otherwise it ends with a newline. */
  lemma TranscribeEmpty(cells: seq<Cell>)
    requires Transcribe(cells).Ok?
    ensures Transcribe(cells).value == "" <==> forall k :: 0 <= k < |cells| ==> Content(cells[k]) == ""
    ensures var s := Transcribe(cells).value; s != "" ==> s[|s| - 1] == '\n'
  {
    var lines := LinesFrom(cells, 0).value;
    LinesFromShape(cells, 0);
    JoinLinesEmpty(lines);
    if lines != [] {
      JoinLinesEndsWithNewline(lines);
    }
  }

  /**
   * Two runs of cells that each emit something are separated by one blank
   * line: the first run's lines up to its final "", then "\n\n", then the
   * second run's lines.
   */
  lemma BlocksSeparated(a: seq<Cell>, b: seq<Cell>, la: seq<string>, lb: seq<string>)
    requires LinesFrom(a, 0) == Ok(la) && LinesFrom(b, |a|) == Ok(lb)
    requires la != [] && lb != []
    ensures Transcribe(a + b) == Ok(JoinLines(la[..|la| - 1]) + "\n\n" + JoinLines(lb))
  {
    LinesFromConcat(a, b, la, lb);
    LinesFromShape(a, 0);
    JoinLinesAfterBlank(la, lb);
  }

  /** The lines of a concatenation are the lines of its parts, the second part numbered after the first. */
  lemma LinesFromConcat(a: seq<Cell>, b: seq<Cell>, la: seq<string>, lb: seq<string>)
    requires LinesFrom(a, 0) == Ok(la) && LinesFrom(b, |a|) == Ok(lb)
    ensures LinesFrom(a + b, 0) == Ok(la + lb)
  {
    EachCellAppendOk(CellLines, a, b, 0, |a|, la, lb);
  }
}
