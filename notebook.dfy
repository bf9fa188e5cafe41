/**
 * A parsed Jupyter notebook as the extractor sees it, and the text it
 * produces from it, stated as functions. `Extract.ExtractNotebookContent` is
 * the loop-by-loop version and is proved equal to `Transcribe`.
 */
module Notebook {
  import opened Strings
  import opened Scrubbers

  datatype Option<T> = None | Some(value: T)

  /** A notebook text field: one string, or a list of strings to be joined. */
  datatype Text = Blob(s: string) | Fragments(parts: seq<string>)

  /**
   * One output record. Each field is `None` when its key is absent; `data`
   * maps MIME types to their content.
   */
  datatype Output = Output(text: Option<Text>, data: Option<map<string, Text>>, outputType: Option<string>)

  /** A cell; an absent `source` is `Fragments([])` and absent `outputs` is `[]`. */
  datatype Cell = Cell(source: Text, outputs: seq<Output>)

  /** The one exception the transcription can raise: a lookup of a missing key. */
  datatype Error = KeyError(key: string)

  datatype Result<T> = Ok(value: T) | Err(error: Error)

  /** `''.join(t)` for a list, the string itself otherwise. */
  function Joined(t: Text): string {
    match t
    case Blob(s) => s
    case Fragments(parts) => Concat(parts)
  }

  /** What one record field adds to the fragment list: `extend` for a list, `append` for a string. */
  function Pieces(t: Text): (r: seq<string>)
    ensures Concat(r) == Joined(t)
  {
    match t
    case Blob(s) =>
      assert Concat([s]) == s + Concat([]);
      [s]
    case Fragments(parts) => parts
  }

  /**
   * The `text/html` path: tags removed, whitespace runs collapsed to one
   * space, then stripped. The result has no whitespace at either end, every
   * whitespace character in it is a single space between two visible ones,
   * and it keeps every visible character of the tag-free text, in order.
   */
  function HtmlText(html: string): (r: string)
    ensures NoEdgeWhitespace(r)
    ensures Collapsed(r)
    ensures Visible(r) == Visible(StripTags(html))
  {
    var collapsed := CollapseWhitespace(StripTags(html));
    CollapseKeepsVisible(StripTags(html));
    StripKeepsCollapsed(collapsed);
    StripKeepsVisible(collapsed);
    Strip(collapsed)
  }

  /**
   * What a `data` record contributes: `text/plain` verbatim, else cleaned
   * `text/html` if non-empty, else nothing. Without `text/plain` it is at
   * most one fragment, non-empty, with no edge or repeated whitespace.
   */
  function DataPieces(data: map<string, Text>): (r: seq<string>)
    ensures "text/plain" in data ==> Concat(r) == Joined(data["text/plain"])
    ensures "text/plain" !in data ==> |r| <= 1
    ensures "text/plain" !in data ==> forall k :: 0 <= k < |r| ==> r[k] != "" && NoEdgeWhitespace(r[k]) && Collapsed(r[k])
  {
    if "text/plain" in data then Pieces(data["text/plain"])
    else if "text/html" in data then
      var clean := HtmlText(Joined(data["text/html"]));
      if clean != "" then [clean] else []
    else []
  }

  /**
   * A record with neither `text` nor `data` but type `stream`: the code
   * then reads `output['text']`, which is absent.
   */
  predicate BrokenStream(o: Output) {
    o.text.None? && o.data.None? && o.outputType == Some("stream")
  }

  /**
   * The fragments one record adds, first match wins: `text`, then `data`,
   * then `stream`. It raises exactly for a broken stream record, and then
   * with `KeyError('text')`.
   */
  function Contribution(o: Output): (r: Result<seq<string>>)
    ensures r.Err? <==> BrokenStream(o)
    ensures r.Err? ==> r.error == KeyError("text")
  {
    if o.text.Some? then Ok(Pieces(o.text.value))
    else if o.data.Some? then Ok(DataPieces(o.data.value))
    else if o.outputType == Some("stream") then Err(KeyError("text"))
    else Ok([])
  }

  /** Sequencing: the first error wins, otherwise the two lists are concatenated. */
  function Then<T>(a: Result<seq<T>>, b: Result<seq<T>>): Result<seq<T>> {
    if a.Err? then Err(a.error)
    else if b.Err? then Err(b.error)
    else Ok(a.value + b.value)
  }

  /** The list `output_text` after the records of `outputs`, in order (or the error raised on the way). */
  function OutputText(outputs: seq<Output>): (r: Result<seq<string>>)
    ensures r.Err? ==> r.error == KeyError("text")
  {
    if outputs == [] then Ok([])
    else Then(OutputText(outputs[..|outputs| - 1]), Contribution(outputs[|outputs| - 1]))
  }

  /**
   * The cleaned output: joined, stripped, then SGR sequences removed. It is
   * no longer than the joined text, and it is empty when that is all whitespace.
   */
  function CleanOutput(fragments: seq<string>): (r: string)
    ensures |r| <= |Concat(fragments)|
    ensures r != "" ==> !AllWhitespace(Concat(fragments))
  {
    StripAnsi(Strip(Concat(fragments)))
  }

  function HeaderLine(n: nat, content: string): string {
    "Cell " + NatToString(n) + ": " + content
  }

  function OutputLine(n: nat, clean: string): string {
    "Cell " + NatToString(n) + " Output: " + clean
  }

  /** The optional `Cell n Output:` line of a cell with non-empty source: at most one line. */
  function OutputLines(n: nat, outputs: seq<Output>): (r: Result<seq<string>>)
    ensures r.Ok? ==> |r.value| <= 1
    ensures r.Err? ==> r.error == KeyError("text")
  {
    if |outputs| == 0 then Ok([])
    else match OutputText(outputs)
      case Err(e) => Err(e)
      case Ok(fragments) =>
        if |fragments| == 0 then Ok([])
        else
          var clean := CleanOutput(fragments);
          if clean != "" then Ok([OutputLine(n, clean)]) else Ok([])
  }

  /** The stripped source of a cell: no edge whitespace, and empty exactly when the source is blank. */
  function Content(c: Cell): (r: string)
    ensures NoEdgeWhitespace(r)
    ensures r == "" <==> AllWhitespace(Joined(c.source))
  {
    Strip(Joined(c.source))
  }

  /**
   * The lines cell number `n` adds: nothing for a blank source, else the
   * header, the optional output line and a blank line. The only error is
   * `KeyError('text')`.
   */
  function CellLines(n: nat, c: Cell): (r: Result<seq<string>>)
    ensures Content(c) == "" ==> r == Ok([])
    ensures r.Ok? && Content(c) != "" ==>
      |r.value| >= 2 && r.value[0] == HeaderLine(n, Content(c)) && r.value[|r.value| - 1] == ""
    ensures r.Err? ==> r.error == KeyError("text")
  {
    var content := Content(c);
    if content == "" then Ok([])
    else Then(Then(Ok([HeaderLine(n, content)]), OutputLines(n, c.outputs)), Ok([""]))
  }

  /**
   * The outer loop for any per-cell rule `lines`: the cell at index `k` is
   * numbered `offset + k + 1`, the blocks are concatenated in order and the
   * first error ends the run.
   */
  function EachCell(lines: (nat, Cell) -> Result<seq<string>>, cells: seq<Cell>, offset: nat): Result<seq<string>>
    decreases |cells|
  {
    if cells == [] then Ok([])
    else Then(EachCell(lines, cells[..|cells| - 1], offset), lines(offset + |cells|, cells[|cells| - 1]))
  }

  /** Every failure of the rule raises the same error `e`. */
  ghost predicate FailsOnlyWith(f: (nat, Cell) -> Result<seq<string>>, e: Error) {
    forall n: nat, c: Cell :: f(n, c).Err? ==> f(n, c).error == e
  }

  /** The run fails exactly when some cell's rule fails; the error is that of the first such cell. */
  lemma {:induction false} EachCellFails(f: (nat, Cell) -> Result<seq<string>>, cells: seq<Cell>, offset: nat, e: Error)
    requires FailsOnlyWith(f, e)
    ensures EachCell(f, cells, offset).Err? <==> exists k :: 0 <= k < |cells| && f(offset + k + 1, cells[k]).Err?
    ensures EachCell(f, cells, offset).Err? ==> EachCell(f, cells, offset).error == e
    decreases |cells|
  {
    if cells != [] {
      var init := cells[..|cells| - 1];
      var n := offset + |cells|;
      EachCellFails(f, init, offset, e);
      assert forall k :: 0 <= k < |init| ==> init[k] == cells[k];
      if exists k :: 0 <= k < |cells| && f(offset + k + 1, cells[k]).Err? {
        var k :| 0 <= k < |cells| && f(offset + k + 1, cells[k]).Err?;
        if k < |init| {
          assert f(offset + k + 1, init[k]).Err?;
        }
      }
    }
  }

  /** Every cell that raises raises `KeyError('text')`. */
  lemma CellLinesFailures()
    ensures FailsOnlyWith(CellLines, KeyError("text"))
  {
  }

  /** The lines of `cells`, the cell at index `k` numbered `offset + k + 1`; the only error is `KeyError('text')`. */
  function LinesFrom(cells: seq<Cell>, offset: nat): (r: Result<seq<string>>)
    ensures r.Err? ==> r.error == KeyError("text")
  {
    CellLinesFailures();
    EachCellFails(CellLines, cells, offset, KeyError("text"));
    EachCell(CellLines, cells, offset)
  }

  /** The extractor's result: every line, numbered from 1, joined with newlines; the only error is `KeyError('text')`. */
  function Transcribe(cells: seq<Cell>): (r: Result<string>)
    ensures r.Err? ==> r.error == KeyError("text")
  {
    match LinesFrom(cells, 0)
    case Err(e) => Err(e)
    case Ok(lines) => Ok(JoinLines(lines))
  }
}
