/**
 * Concrete inputs worked through the model: the two-cell notebook, the
 * `text/html` and SGR examples, and the inputs that show where the output
 * format is looser than it looks.
 */
module Scenarios {
  import opened Strings
  import opened Scrubbers
  import opened Notebook
  import opened Properties

  /** A record carrying `text`, as a `stream` record from `print` does. */
  function StreamText(s: string): Output {
    Output(Some(Blob(s)), None, Some("stream"))
  }

  /** `<name>`. */
  function Tag(name: string): string {
    ['<'] + name + ['>']
  }

  predicate NoWhitespace(s: string) {
    forall i :: 0 <= i < |s| ==> !IsWhitespace(s[i])
  }

  lemma NoWhitespaceAppend(a: string, b: string)
    requires NoWhitespace(a) && NoWhitespace(b)
    ensures NoWhitespace(a + b)
  {
    forall i | 0 <= i < |a + b| ensures !IsWhitespace((a + b)[i]) {
      if i < |a| {
        assert (a + b)[i] == a[i];
      } else {
        assert (a + b)[i] == b[i - |a|];
      }
    }
  }

  /** Text with no whitespace at all is collapsed and has no edge whitespace. */
  lemma NoWhitespaceUnchanged(t: string)
    requires NoWhitespace(t)
    ensures CollapseWhitespace(t) == t && Strip(t) == t
  {
    assert Collapsed(t);
    CollapseIdentity(t);
    if t != [] {
      NoEdge(t);
    }
  }

  lemma NoEdge(t: string)
    requires t != [] && !IsWhitespace(t[0]) && !IsWhitespace(t[|t| - 1])
    ensures Strip(t) == t
  {
    StripPadded("", t, "");
    assert "" + t + "" == t;
  }

  /** A record with `text` alone is its one fragment. */
  lemma OneRecord(s: string)
    ensures OutputText([StreamText(s)]) == Ok([s])
  {
    assert [StreamText(s)][..0] == [];
    assert [] + [s] == [s];
  }

  /** Cleaning one fragment without edge whitespace only removes SGR sequences. */
  lemma CleanOne(s: string)
    requires s != [] && !IsWhitespace(s[0]) && !IsWhitespace(s[|s| - 1])
    ensures CleanOutput([s]) == StripAnsi(s)
  {
    assert Concat([s]) == s + Concat([]);
    assert s + [] == s;
    NoEdge(s);
  }

  /** A single emitted cell is its header, its output line and the blank line. */
  lemma SingleCell(c: Cell, clean: string)
    requires Content(c) != "" && OutputText(c.outputs).Ok?
    requires CleanOutput(OutputText(c.outputs).value) == clean && clean != ""
    ensures Transcribe([c]) == Ok(HeaderLine(1, Content(c)) + "\n" + OutputLine(1, clean) + "\n")
  {
    CellShape(1, c);
    EachCellSingle(CellLines, c, 0, 1);
    JoinThree(HeaderLine(1, Content(c)), OutputLine(1, clean));
  }

  lemma JoinThree(a: string, b: string)
    ensures JoinLines([a, b, ""]) == a + "\n" + b + "\n"
  {
    assert [a, b, ""][1..] == [b, ""];
    assert [b, ""][1..] == [""];
    assert JoinLines([""]) == "";
    assert JoinLines([b, ""]) == b + "\n" + "";
    assert a + "\n" + (b + "\n" + "") == a + "\n" + b + "\n";
  }

  lemma FirstLines(content: string, clean: string)
    ensures HeaderLine(1, content) == "Cell 1: " + content
    ensures OutputLine(1, clean) == "Cell 1 Output: " + clean
  {
    assert NatToString(1) == "1";
  }

  lemma FirstCellClean()
    ensures OutputText([StreamText("1\n")]) == Ok(["1\n"])
    ensures CleanOutput(["1\n"]) == "1"
  {
    OneRecord("1\n");
    assert Concat(["1\n"]) == "1\n" + Concat([]);
    StripPadded("", "1", "\n");
    assert "" + "1" + "\n" == "1\n";
  }

  lemma TwoCells(first: Cell, second: Cell)
    requires Content(second) == ""
    ensures LinesFrom([first, second], 0) == CellLines(1, first)
  {
    EachCellStep(CellLines, [first, second], 1, 0, 2);
    assert [first, second][..1] == [first] && [first, second][1] == second;
    EachCellSingle(CellLines, first, 0, 1);
    var x := CellLines(1, first);
    if x.Ok? {
      assert x.value + [] == x.value;
    }
  }

  /**
   * A notebook whose first cell prints `1` and whose second cell is empty:
   * the empty cell leaves no trace, and the text ends with the one blank line.
   */
  lemma TwoCellNotebook()
    ensures Transcribe([Cell(Blob("print(1)"), [StreamText("1\n")]), Cell(Blob(""), [StreamText("2\n")])])
      == Ok(("Cell 1: " + "print(1)") + "\n" + ("Cell 1 Output: " + "1") + "\n")
  {
    var first := Cell(Blob("print(1)"), [StreamText("1\n")]);
    var second := Cell(Blob(""), [StreamText("2\n")]);
    assert Strip("") == "";
    TwoCells(first, second);
    NoEdge("print(1)");
    assert Content(first) == "print(1)";
    FirstCellClean();
    CellShape(1, first);
    JoinThree(HeaderLine(1, "print(1)"), OutputLine(1, "1"));
    FirstLines("print(1)", "1");
  }

  /** A tag followed by a word without `<`: the tag goes and the word stays. */
  lemma DropTagKeepWord(name: string, word: string, rest: string)
    requires name != [] && '>' !in name && '<' !in word
    ensures StripTags(Tag(name) + (word + rest)) == word + StripTags(rest)
  {
    StripTagsDropsTag(name, word + rest);
    StripTagsKeepsPlain(word, rest);
  }

  /** The markup of the `text/html` example, `<b>Hi</b>&nbsp;<i>there</i>`. */
  function ExampleHtml(): string {
    Tag("b") + ("Hi" + (Tag("/b") + ("&nbsp;" + (Tag("i") + ("there" + Tag("/i"))))))
  }

  lemma LastWord()
    ensures StripTags(Tag("i") + ("there" + Tag("/i"))) == "there"
  {
    StripTagsDropsTag("/i", "");
    assert Tag("/i") + "" == Tag("/i");
    DropTagKeepWord("i", "there", Tag("/i"));
    assert "there" + "" == "there";
  }

  /** The tags of the `text/html` example go; the text between them stays. */
  lemma ExampleTags()
    ensures StripTags(ExampleHtml()) == "Hi" + ("&nbsp;" + "there")
  {
    LastWord();
    DropTagKeepWord("/b", "&nbsp;", Tag("i") + ("there" + Tag("/i")));
    DropTagKeepWord("b", "Hi", Tag("/b") + ("&nbsp;" + (Tag("i") + ("there" + Tag("/i")))));
  }

  /**
   * The `text/html` example: tags go, but `&nbsp;` is neither decoded nor
   * whitespace, so the words stay joined by it.
   */
  lemma HtmlExample()
    ensures HtmlText(ExampleHtml()) == "Hi" + ("&nbsp;" + "there")
  {
    ExampleTags();
    ExampleWordsPlain();
    HtmlTextOfPlain(ExampleHtml(), "Hi" + ("&nbsp;" + "there"));
  }

  lemma ExampleWordsPlain()
    ensures NoWhitespace("Hi" + ("&nbsp;" + "there"))
  {
    assert NoWhitespace("Hi");
    assert NoWhitespace("&nbsp;");
    assert NoWhitespace("there");
    NoWhitespaceAppend("&nbsp;", "there");
    NoWhitespaceAppend("Hi", "&nbsp;" + "there");
  }

  /** Markup whose tag-free text holds no whitespace comes out as that text. */
  lemma HtmlTextOfPlain(html: string, t: string)
    requires StripTags(html) == t && NoWhitespace(t)
    ensures HtmlText(html) == t
  {
    NoWhitespaceUnchanged(t);
  }

  /**
   * Two words separated by a whitespace run, between an opening and a
   * closing tag: the tags go and the run becomes one space, so the word
   * boundary is kept.
   */
  lemma HtmlWordsInTags(open: string, w1: string, gap: string, w2: string, close: string)
    requires open != [] && '>' !in open && close != [] && '>' !in close
    requires w1 != [] && w2 != [] && gap != []
    requires NoWhitespace(w1) && NoWhitespace(w2) && AllWhitespace(gap)
    requires '<' !in w1 && '<' !in gap && '<' !in w2
    ensures HtmlText(Tag(open) + ((w1 + (gap + w2)) + Tag(close))) == w1 + (" " + w2)
  {
    var text := w1 + (gap + w2);
    assert '<' !in gap + w2;
    assert '<' !in text;
    DropTagKeepWord(open, text, Tag(close));
    StripTagsDropsTag(close, "");
    assert Tag(close) + "" == Tag(close);
    assert text + "" == text;
    CollapseKeepsWord(w1, gap + w2);
    CollapseRun(gap, w2);
    CollapseKeepsWord(w2, "");
    assert w2 + "" == w2;
    var t := w1 + (" " + w2);
    assert t[0] == w1[0] && t[|t| - 1] == w2[|w2| - 1];
    NoEdge(t);
  }

  /** The literal facts about the words of the example below. */
  lemma GapWordsPlain()
    ensures NoWhitespace("Hi") && NoWhitespace("there") && AllWhitespace("\n  ")
    ensures '<' !in "Hi" && '<' !in "\n  " && '<' !in "there" && '>' !in "p" && '>' !in "/p"
  {
    assert NoWhitespace("Hi");
    assert NoWhitespace("there");
  }

  /** `<p>Hi\n  there</p>` cleans to `Hi there`: the line break and indentation become one space. */
  lemma HtmlGapExample()
    ensures HtmlText(Tag("p") + (("Hi" + ("\n  " + "there")) + Tag("/p"))) == "Hi" + (" " + "there")
  {
    GapWordsPlain();
    HtmlWordsInTags("p", "Hi", "\n  ", "there", "/p");
  }

  /** A bare `<>` is not a tag and survives. */
  lemma EmptyBracketsSurvive()
    ensures StripTags("<>") == "<>"
  {
    StripTagsKeepsBareOpen(">");
    StripTagsKeeps('>', "");
  }

  /** Text between two SGR sequences comes out bare. */
  lemma SgrWrapped(before: string, word: string, after: string)
    requires forall k :: 0 <= k < |before| ==> IsSgrParameter(before[k])
    requires forall k :: 0 <= k < |after| ==> IsSgrParameter(after[k])
    requires Esc !in word
    ensures CleanOutput([Sgr(before) + (word + Sgr(after))]) == word
  {
    var s := Sgr(before) + (word + Sgr(after));
    assert s[0] == Esc && s[|s| - 1] == 'm';
    CleanOne(s);
    StripAnsiDropsSgr(before, word + Sgr(after));
    StripAnsiKeeps(word, Sgr(after));
    StripAnsiDropsSgr(after, "");
    assert Sgr(after) + "" == Sgr(after);
  }

  /** Coloured output: both SGR sequences are deleted. */
  lemma ColouredOutput()
    ensures CleanOutput([Sgr("31") + ("error" + Sgr("0"))]) == "error"
  {
    SgrWrapped("31", "error", "0");
  }

  /** Removal runs after stripping, so it can leave whitespace at the front. */
  lemma ExposedWhitespace()
    ensures CleanOutput([Sgr("0") + " x"]) == " x"
  {
    var s := Sgr("0") + " x";
    CleanOne(s);
    StripAnsiDropsSgr("0", " x");
  }

  /** One pass is not enough: deleting an inner sequence can assemble a new one. */
  lemma RemovalNotIdempotent()
    ensures StripAnsi([Esc] + Sgr("") + "[m") == Sgr("")
    ensures StripAnsi(Sgr("")) == ""
  {
    assert [Esc] + Sgr("") + "[m" == [Esc] + (Sgr("") + "[m");
    StripAnsiKeepsLoneEsc(Sgr("") + "[m");
    StripAnsiDropsSgr("", "[m");
    assert StripAnsi("[m") == "[m";
    StripAnsiDropsSgr("", "");
    assert Sgr("") + "" == Sgr("");
  }

  /** A successful result whose text ends with two newlines. */
  predicate EndsWithBlankLine(r: Result<string>) {
    r.Ok? && |r.value| >= 2 && r.value[|r.value| - 2] == '\n' && r.value[|r.value| - 1] == '\n'
  }

  /**
   * The text does not always end with exactly one newline: when the cleaned
   * output of the cell ends with a newline, the blank line adds a second.
   */
  lemma TrailingNewlineKept(c: Cell, clean: string)
    requires Content(c) != "" && OutputText(c.outputs).Ok?
    requires CleanOutput(OutputText(c.outputs).value) == clean && clean != "" && clean[|clean| - 1] == '\n'
    ensures EndsWithBlankLine(Transcribe([c]))
  {
    SingleCell(c, clean);
    var s := HeaderLine(1, Content(c)) + "\n" + OutputLine(1, clean) + "\n";
    assert s[|s| - 2] == OutputLine(1, clean)[|OutputLine(1, clean)| - 1];
  }

  /**
   * Such cells exist: output ending in a newline followed by a closing SGR
   * sequence keeps that newline through both passes, so the text ends with
   * two newlines.
   */
  lemma DoubleNewlineAtEnd(source: string, text: string, params: string)
    requires Strip(source) != ""
    requires text != [] && !IsWhitespace(text[0]) && Esc !in text
    requires forall k :: 0 <= k < |params| ==> IsSgrParameter(params[k])
    ensures EndsWithBlankLine(Transcribe([Cell(Blob(source), [StreamText(text + "\n" + Sgr(params))])]))
  {
    var line := text + "\n";
    var out := line + Sgr(params);
    var c := Cell(Blob(source), [StreamText(out)]);
    OneRecord(out);
    assert out[0] == text[0];
    CleanOne(out);
    StripAnsiKeeps(line, Sgr(params));
    StripAnsiDropsSgr(params, "");
    assert Sgr(params) + "" == Sgr(params);
    TrailingNewlineKept(c, line);
  }
}
