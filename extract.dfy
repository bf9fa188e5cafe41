/**
 * `extract_notebook_content` from the parsed cell list on: the outer loop
 * over numbered cells, the inner loop over a cell's output records, and the
 * final newline join. The method is proved to compute `Notebook.Transcribe`.
 */
module Extract {
  import opened Strings
  import opened Scrubbers
  import opened Notebook
  import opened Properties

  /**
   * The outer loop: numbers the cells from 1 and lets `EmitCell` append each
   * cell's lines; the first error met ends the whole call.
   */
  method ExtractNotebookContent(cells: seq<Cell>) returns (result: Result<string>)
    ensures result == Transcribe(cells)
  {
    var outputLines: seq<string> := [];
    var i := 0;
    while i < |cells|
      invariant 0 <= i <= |cells|
      invariant LinesFrom(cells[..i], 0) == Ok(outputLines)
    {
      var emitted := EmitCell(outputLines, i + 1, cells[i]);
      if emitted.Err? {
        EmittingFails(cells, i, outputLines);
        return Err(emitted.error);
      }
      ThenOk(outputLines, CellLines(i + 1, cells[i]), emitted.value);
      LinesFromStep(cells, i, outputLines, CellLines(i + 1, cells[i]).value);
      outputLines := emitted.value;
      i := i + 1;
    }
    assert cells[..i] == cells;
    result := Ok(JoinLines(outputLines));
  }

  /**
   * One pass of the outer loop: skips a blank cell, otherwise appends its
   * header, its output line when the cleaned output is not empty, and a
   * blank line to `outputLines`.
   */
  method EmitCell(outputLines: seq<string>, number: nat, cell: Cell) returns (result: Result<seq<string>>)
    ensures result == Then(Ok(outputLines), CellLines(number, cell))
  {
    var lines := outputLines;
    var cellContent := Strip(Joined(cell.source));
    assert Content(cell) == cellContent;
    if cellContent == "" {
      assert lines + [] == lines;
      return Ok(lines);
    }
    lines := lines + [HeaderLine(number, cellContent)];
    ghost var extra: seq<string> := [];
    var outputs := cell.outputs;
    if |outputs| > 0 {
      var collected := CollectOutputText(outputs);
      if collected.Err? {
        return Err(collected.error);
      }
      var outputText := collected.value;
      if |outputText| > 0 {
        var cleanOutput := StripAnsi(Strip(Concat(outputText)));
        if cleanOutput != "" {
          lines := lines + [OutputLine(number, cleanOutput)];
          extra := [OutputLine(number, cleanOutput)];
        }
      }
    }
    assert OutputLines(number, outputs) == Ok(extra);
    lines := lines + [""];
    CellLinesOk(number, cell, extra);
    assert lines == outputLines + ([HeaderLine(number, cellContent)] + extra + [""]);
    result := Ok(lines);
  }

  /**
   * The inner loop over one cell's output records: each record extends the
   * fragment list by what its first matching field gives; a `stream`
   * record without `text` raises `KeyError('text')`.
   */
  method CollectOutputText(outputs: seq<Output>) returns (result: Result<seq<string>>)
    ensures result == OutputText(outputs)
  {
    var outputText: seq<string> := [];
    var j := 0;
    while j < |outputs|
      invariant 0 <= j <= |outputs|
      invariant OutputText(outputs[..j]) == Ok(outputText)
    {
      var output := outputs[j];
      ghost var prev := outputText;
      ghost var added: seq<string> := [];
      if output.text.Some? {
        added := Pieces(output.text.value);
        outputText := outputText + Pieces(output.text.value);
      } else if output.data.Some? {
        var data := output.data.value;
        if "text/plain" in data {
          added := Pieces(data["text/plain"]);
          outputText := outputText + Pieces(data["text/plain"]);
        } else if "text/html" in data {
          var cleanText := Strip(CollapseWhitespace(StripTags(Joined(data["text/html"]))));
          assert cleanText == HtmlText(Joined(data["text/html"]));
          if cleanText != "" {
            added := [cleanText];
            outputText := outputText + [cleanText];
          }
        }
        assert added == DataPieces(data);
      } else if output.outputType == Some("stream") {
        OutputTextFails(outputs);
        return Err(KeyError("text"));
      }
      assert Contribution(output) == Ok(added);
      assert outputText == prev + added;
      OutputTextStep(outputs, j, prev, added);
      j := j + 1;
    }
    assert outputs[..j] == outputs;
    result := Ok(outputText);
  }

  lemma OutputTextStep(outputs: seq<Output>, j: nat, prev: seq<string>, added: seq<string>)
    requires j < |outputs|
    requires OutputText(outputs[..j]) == Ok(prev) && Contribution(outputs[j]) == Ok(added)
    ensures OutputText(outputs[..j + 1]) == Ok(prev + added)
  {
    assert outputs[..j + 1][..j] == outputs[..j];
  }

  lemma LinesFromStep(cells: seq<Cell>, i: nat, prev: seq<string>, block: seq<string>)
    requires i < |cells|
    requires LinesFrom(cells[..i], 0) == Ok(prev) && CellLines(i + 1, cells[i]) == Ok(block)
    ensures LinesFrom(cells[..i + 1], 0) == Ok(prev + block)
  {
    EachCellStepOk(CellLines, cells, i, 0, i + 1, prev, block);
  }

  lemma EmittingFails(cells: seq<Cell>, i: nat, prev: seq<string>)
    requires i < |cells|
    requires LinesFrom(cells[..i], 0) == Ok(prev)
    requires Then(Ok(prev), CellLines(i + 1, cells[i])).Err?
    ensures Transcribe(cells) == Err(Then(Ok(prev), CellLines(i + 1, cells[i])).error)
  {
    CellLinesFail(i + 1, cells[i]);
    LinesFromFail(cells, 0);
  }

  lemma CellLinesOk(n: nat, c: Cell, extra: seq<string>)
    requires Content(c) != "" && OutputLines(n, c.outputs) == Ok(extra)
    ensures CellLines(n, c) == Ok([HeaderLine(n, Content(c))] + extra + [""])
  {
  }
}
