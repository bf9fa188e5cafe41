# Notebook content extraction, modelled in Dafny

`extract_notebook_content` turns a parsed Jupyter notebook into a flat text
digest. The cells are numbered from 1, and a cell whose joined and stripped
source is blank is skipped but keeps its number. Every other cell gives three
kinds of line:

- `Cell i: <source>`;
- optionally `Cell i Output: <clean output>`;
- an empty line.

A cell's output records are dispatched by which fields they have. The first
match wins, in this order:

1. `text`;
2. `data`, where `text/plain` wins over `text/html`;
3. an `output_type` of `stream`.

HTML goes through three steps: tags are removed, whitespace runs are collapsed
to one space, and the result is stripped. The joined output is stripped and
then loses its SGR colour sequences (ESC `[` digits-and-semicolons `m`, the
Select Graphic Rendition control function of ECMA-48, section 8.3.117).
Finally the lines are joined with `'\n'`.

Modules:

- `Strings`: the Python string operations the code uses.
  - `str.isspace` is limited to ASCII.
  - `strip()`, `''.join`, `'\n'.join` and `str(n)`.
- `Scrubbers`: the three `re.sub` calls, each written as a left-to-right
  scanner. A match is deleted (or, for the whitespace pattern, replaced by one
  space) and scanning goes on after it; otherwise one character is kept.
- `Notebook`: the parsed input as datatypes, and what the code computes as
  functions.
  - `Transcribe(cells)` is the function the rest is measured against.
  - `EachCell` is the outer loop written for any per-cell rule, so its
    structural lemmas do not depend on what a cell produces.
- `Properties`: what the output format promises, proved of `Transcribe`.
- `Extract`: the two nested loops as methods that append to `output_lines`
  and `output_text`. `ExtractNotebookContent` is proved to return
  `Transcribe(cells)`.
- `Scenarios`: worked inputs, including the two-cell notebook and the
  HTML and SGR examples.

Raising an exception is modelled as `Err(KeyError(key))`, and it ends the
whole call. There is one way to reach it: a `stream` record with neither
`text` nor `data` makes line 76 read `output['text']`, and that key is
missing. The design description of the extractor says that such a record's
text "defaults to empty"; the model follows the code. The same description
says that the `text/html` value `<b>Hi</b>&nbsp;<i>there</i>` becomes
`Hi there`. The code gives `Hi&nbsp;there` instead (`Scenarios.HtmlExample`),
because `&nbsp;` is neither decoded nor whitespace. The model follows the code
here too.

## Model

| member | source | states |
|---|---|---|
| Extract.ExtractNotebookContent | nbextract.py:27-91 | the outer loop over numbered cells, followed by the newline join, returns exactly `Transcribe(cells)`, including the `KeyError` outcome |
| Extract.EmitCell | nbextract.py:31-88 | one pass of the outer loop extends `output_lines` by exactly that cell's block, or fails with the cell's error |
| Extract.CollectOutputText | nbextract.py:43-78 | the inner loop over records builds exactly the fragment list `OutputText(outputs)`, or raises `KeyError('text')` at a broken stream record |
| Properties.TextWins | nbextract.py:47-51 | a record with `text` contributes that text only, whatever `data` and `output_type` hold |
| Properties.PlainWins | nbextract.py:53-60 | when `text/plain` is present it is used verbatim, and any `text/html` entry makes no difference |
| Properties.DataWithoutTextKeys | nbextract.py:53-71 | a `data` map with neither `text/plain` nor `text/html` contributes nothing |
| Notebook.DataPieces | nbextract.py:53-71 | with `text/plain` the fragments join to its text; otherwise at most one fragment is added, and it is non-empty, has no edge whitespace and is collapsed |
| Notebook.Contribution | nbextract.py:45-78 | a record fails exactly when it has neither `text` nor `data` and its type is `stream`; the error is `KeyError('text')` |
| Properties.UnrecognisedRecord | nbextract.py:45-78 | a record with no `text`, no `data` and a type other than `stream` contributes nothing |
| Properties.OutputTextFails | nbextract.py:45-78 | collecting a cell's records raises exactly when some record is a broken stream record, and always with `KeyError('text')` |
| Properties.CellLinesFail | nbextract.py:37-78 | a cell raises exactly when its source is not blank and one of its records is a broken stream record |
| Properties.LinesFromFail | nbextract.py:29-88 | the whole run raises exactly when some cell raises, and the error is `KeyError('text')` |
| Properties.BlankCellSkipped | nbextract.py:31-37 | a cell emits no lines exactly when its joined source is all whitespace |
| Properties.OutputGate | nbextract.py:41-86 | the output line is emitted exactly when the cleaned fragments are non-empty; then the record list and the fragment list are both non-empty |
| Properties.CellShape | nbextract.py:37-88 | an emitted cell gives exactly `Cell n: content`, then `Cell n Output: clean` when `clean` is non-empty, then `""` |
| Properties.CellLinesBlock | nbextract.py:37-88 | a cell's lines are empty exactly when its content is blank; otherwise there are at least two and the last is `""` |
| Properties.CellNumbering | nbextract.py:29 | the cell at index `k` is numbered `k + 1` and its lines sit between those of the cells before it and those after it |
| Properties.SkippedCellNumbered | nbextract.py:29-37 | a skipped cell adds no lines but still uses up its number, so later cells keep their positions |
| Properties.LinesFromShape | nbextract.py:29-88 | the line list is empty exactly when every cell is blank; otherwise it ends with `""` |
| Properties.CellLinesEmptyIff | nbextract.py:37-88 | a cell that does not raise gives no lines exactly when its content is blank |
| Properties.TranscribeEmpty | nbextract.py:88-91 | the result is `""` exactly when no cell is emitted; otherwise it ends with `'\n'` |
| Properties.BlocksSeparated | nbextract.py:88-91 | two runs of cells that each emit something are joined as the first run's lines, a blank line, then the second run's lines |
| Properties.LinesFromConcat | nbextract.py:29 | the lines of a concatenation are the lines of its parts, with the second part numbered after the first |
| Properties.ThenAssociative | nbextract.py:38-88 | appending blocks can be regrouped freely, and the first error still wins |
| Properties.EachCellSplit | nbextract.py:29 | splitting the cell list at `k` numbers the cells from `k` on after the first `k` |
| Notebook.EachCellFails | nbextract.py:29-88 | for any per-cell rule that fails with a single error, the run fails exactly when some cell's rule fails, with that error |
| Properties.EachCellFailsWhen | nbextract.py:29-88 | when a per-cell rule fails exactly on the cells with some property, the run fails exactly when some cell has it |
| Properties.LineLabels | nbextract.py:38-86 | equal `Cell n: ...` lines have the same number and content, equal `Cell n Output: ...` lines the same number and text, and no header line is an output line |
| Properties.EachCellShape | nbextract.py:29-88 | when every cell's block is empty or ends with `""`, so does the run; it is empty exactly when every block is |
| Strings.Strip | nbextract.py:33 | `strip()` leaves no whitespace at either end, is no longer than its input, and is empty exactly when the input is all whitespace |
| Strings.WhitespaceChars | nbextract.py:33 | the characters treated as whitespace are exactly tab, line feed, vertical tab, form feed, carriage return, the four information separators and space |
| Strings.NatToString | nbextract.py:38 | `str(i)` is a non-empty run of decimal digits that starts with `0` only for the number 0 |
| Strings.StripDecomposes | nbextract.py:33 | the input is its stripped text with a whitespace margin on either side |
| Strings.StripPadded | nbextract.py:33 | stripping a text with no edge whitespace, padded with whitespace on both sides, gives that text back |
| Strings.StripKeepsVisible | nbextract.py:69 | stripping removes whitespace only, so the visible characters stay the same |
| Strings.ConcatAppend | nbextract.py:33 | `''.join` of a concatenation is the concatenation of the joins |
| Strings.ConcatEmpty | nbextract.py:82 | `''.join` gives `""` exactly when every fragment is empty |
| Strings.JoinLinesAppend | nbextract.py:91 | joining two non-empty line lists puts exactly one newline between their joins |
| Strings.JoinLinesEndsWithNewline | nbextract.py:88-91 | a list of at least two lines whose last line is `""` joins to text ending in `'\n'` |
| Strings.JoinLinesAfterBlank | nbextract.py:88-91 | a final `""` line followed by more lines appears in the join as two newlines |
| Strings.DecimalRoundTrip | nbextract.py:38 | reading back the decimal rendering of the cell number gives the number, so different cells get different labels |
| Scrubbers.StripTags | nbextract.py:68 | the result holds no tag, is no longer than the input, and keeps a leading `>` |
| Scrubbers.StripTagsIdentity | nbextract.py:68 | text without tags passes through unchanged |
| Scrubbers.StripTagsIdempotent | nbextract.py:68 | removing tags twice is the same as removing them once |
| Scrubbers.StripTagsDropsTag | nbextract.py:68 | a complete tag at the front is deleted, up to and including its first `>` |
| Scrubbers.StripTagsKeeps | nbextract.py:68 | a character other than `<` is kept and scanning goes on after it |
| Scrubbers.StripTagsKeepsPlain | nbextract.py:68 | text without `<` is kept as it is, whatever follows it |
| Scrubbers.StripTagsKeepsBareOpen | nbextract.py:68 | a `<` that does not open a complete tag is kept |
| Scrubbers.CollapseWhitespace | nbextract.py:69 | the result has single spaces only, and those never adjacent; it is empty exactly when the input is, and starts with whitespace exactly when the input does |
| Scrubbers.CollapseRun | nbextract.py:69 | a whitespace run at the front, followed by a non-whitespace character or by nothing, becomes exactly one space |
| Scrubbers.CollapseKeepsChar | nbextract.py:69 | a non-whitespace character at the front is kept and scanning goes on after it |
| Scrubbers.CollapseKeepsWord | nbextract.py:69 | a run of non-whitespace characters at the front is kept as it is |
| Scrubbers.CollapseKeepsVisible | nbextract.py:69 | collapsing keeps every non-whitespace character, in order |
| Scrubbers.CollapseIdentity | nbextract.py:69 | text that is already collapsed passes through unchanged |
| Scrubbers.CollapseIdempotent | nbextract.py:69 | collapsing twice is the same as collapsing once |
| Scrubbers.StripKeepsCollapsed | nbextract.py:69 | stripping a collapsed text keeps it collapsed |
| Scrubbers.StripAnsi | nbextract.py:84 | the result is no longer than the input, and text without ESC is unchanged |
| Scrubbers.StripAnsiDropsSgr | nbextract.py:84 | a complete SGR sequence at the front is deleted |
| Scrubbers.StripAnsiKeeps | nbextract.py:84 | text without ESC is kept as it is, whatever follows it |
| Scrubbers.StripAnsiKeepsLoneEsc | nbextract.py:84 | an ESC that does not start a complete sequence is kept |
| Notebook.Pieces | nbextract.py:48-51 | the fragments a field adds join to the field's text, whether it is a list or one string |
| Notebook.HtmlText | nbextract.py:64-69 | the cleaned HTML has no edge whitespace, is collapsed, and keeps every visible character of the tag-free text |
| Notebook.OutputText | nbextract.py:43-78 | collecting a cell's records fails only with `KeyError('text')` |
| Notebook.CleanOutput | nbextract.py:82-84 | the cleaned output is no longer than the joined fragments, and is non-empty only when the joined fragments are not all whitespace |
| Notebook.OutputLines | nbextract.py:40-86 | a cell gives at most one `Cell n Output:` line, and fails only with `KeyError('text')` |
| Notebook.Content | nbextract.py:31-35 | the cell content has no edge whitespace and is empty exactly when the joined source is all whitespace |
| Notebook.CellLines | nbextract.py:31-88 | a blank cell gives no lines; an emitted cell gives at least two, the first its `Cell n:` header and the last `""`; the only error is `KeyError('text')` |
| Notebook.LinesFrom | nbextract.py:29-88 | the outer loop over numbered cells fails only with `KeyError('text')` |
| Notebook.Transcribe | nbextract.py:27-91 | the extractor's result fails only with `KeyError('text')` |
| Scenarios.TwoCellNotebook | nbextract.py:29-91 | the two-cell notebook with an empty second cell gives `Cell 1: print(1)`, `Cell 1 Output: 1` and one blank line, and nothing for cell 2 |
| Scenarios.SingleCell | nbextract.py:29-91 | a notebook of one emitted cell with output is its header line, its output line and a final newline |
| Scenarios.HtmlExample | nbextract.py:64-71 | `<b>Hi</b>&nbsp;<i>there</i>` cleans to `Hi&nbsp;there` |
| Scenarios.HtmlWordsInTags | nbextract.py:64-71 | two words separated by any whitespace run, inside an opening and a closing tag, clean to the two words with one space between |
| Scenarios.HtmlGapExample | nbextract.py:64-71 | `<p>Hi\n  there</p>` cleans to `Hi there` |
| Scenarios.EmptyBracketsSurvive | nbextract.py:68 | a bare `<>` is not a tag and survives |
| Scenarios.SgrWrapped | nbextract.py:82-84 | text without ESC, wrapped in two SGR sequences, comes out bare |
| Scenarios.ColouredOutput | nbextract.py:82-84 | `ESC[31m`, then `error`, then `ESC[0m` cleans to `error` |
| Scenarios.ExposedWhitespace | nbextract.py:82-84 | removal runs after strip, so the clean output can start with whitespace |
| Scenarios.RemovalNotIdempotent | nbextract.py:84 | deleting an inner sequence can leave a new one behind, so one pass is not always enough |
| Scenarios.TrailingNewlineKept | nbextract.py:82-91 | a one-cell notebook whose clean output ends with a newline gives text ending with two newlines |
| Scenarios.DoubleNewlineAtEnd | nbextract.py:82-91 | such cells exist: output ending in a newline followed by a closing SGR sequence keeps that newline, and a one-cell notebook of such a cell gives text ending with two newlines |

## Left out

- Reading and parsing the JSON file (nbextract.py:19-25). The model starts from the parsed cell list, so the `JSONDecodeError` exit is not modelled.
- Writing the result to a file or printing it (nbextract.py:93-99), and the command-line entry point (nbextract.py:103-139). These are I/O only.
- Absent keys: an absent `cells`, `source` or `outputs` is the empty list, `Fragments([])`, which is what the `get` defaults give.
- Dynamic typing: a source that is neither a string nor a list is rendered by `str()` (line 35; `null` gives `None`), which is not modelled. `''.join` over non-string fragments (lines 33, 66, 82) raises `TypeError`, which is not modelled either. Text fields are a string or a list of strings, so neither case arises.
- Strings.IsWhitespace: only the ASCII characters `str.isspace` accepts; Python's non-ASCII whitespace is not modelled.
- Python's regex engine in general: only the three patterns used are modelled, as scanners.
- The loop bodies of `extract_notebook_content` are split into `EmitCell` (one outer iteration) and `CollectOutputText` (the inner loop). Control flow and appends are unchanged.
- Properties.TranscribeEmpty: says the text ends with a newline, not with exactly one. `Scenarios.DoubleNewlineAtEnd` shows that two can occur.
- Scenarios.HtmlExample: the markup is built from `Tag(name)` pieces rather than written out as one literal string; so is that of `Scenarios.HtmlGapExample`.
