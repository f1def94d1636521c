/**
 * Concrete inputs of the crate's parser tests, worked through the grammar.
 *
 * The first half builds lines the way the tests write them (a definition
 * line `name: value`, a continuation line ` text`, a comment line `#text`)
 * and says what each line parser makes of them; the second half chains
 * those facts into the paragraph that `parse_streaming` returns for the
 * inputs of src/tests.rs:17-40 and src/tests.rs:42-70.
 */
module TestCases {
  import opened Wrappers
  import opened Fields
  import opened Grammar
  import opened GrammarFacts
  import opened ParagraphFacts
  import opened ControlFile

  // ---------------------------------------------------------------------
  // lines as the tests write them

  /** `not_line_ending` stops at the "\n" after a line of text, and `opt(line_ending)` takes it. */
  lemma LineText(text: string, rest: string, streaming: bool)
    requires AllIn(text, LineChars)
    ensures NotLineEnding(text + "\n" + rest, streaming) == Parsed("\n" + rest, text)
    ensures OptLineEnding("\n" + rest, streaming) == Parsed(rest, ())
  {
    var s := text + "\n" + rest;
    assert s == text + ("\n" + rest);
    SpanOfAll(text, LineChars);
    SpanAppend(text, "\n" + rest, LineChars);
    assert Span("\n" + rest, LineChars) == 0;
    assert s[..|text|] == text && s[|text|..] == "\n" + rest;
    assert ("\n" + rest)[1..] == rest;
  }

  /** `field_value` on a line of text and "\n" returns that text and consumes the "\n". */
  lemma ValueLine(text: string, rest: string, streaming: bool)
    requires AllIn(text, LineChars)
    ensures FieldValue(text + "\n" + rest, streaming) == Parsed(rest, text)
  {
    LineText(text, rest, streaming);
    hide NotLineEnding, OptLineEnding;
  }

  /** A valid name followed by ':' is read whole by `field_name`. */
  lemma NameOf(name: string, after: string, streaming: bool)
    requires name != [] && AllIn(name, NameChars) && StartsWithValidChar(name)
    requires after != [] && after[0] == ':'
    ensures FieldName(name + after, streaming) == Parsed(after, name)
  {
    var s := name + after;
    SpanOfAll(name, NameChars);
    SpanAppend(name, after, NameChars);
    assert Span(after, NameChars) == 0;
    assert s[..|name|] == name && s[|name|..] == after;
  }

  /** ": " before a value that does not start with a space or tab is consumed whole. */
  lemma ColonSpaceOf(afterColon: string, streaming: bool)
    requires afterColon != [] && !InClass(afterColon[0], Spaces)
    ensures ColonAndWhitespace(": " + afterColon, streaming) == Parsed(afterColon, ())
  {
    var afterName := ": " + afterColon;
    assert afterName[1..] == " " + afterColon;
    assert (" " + afterColon)[1..] == afterColon;
    assert Span(" " + afterColon, Spaces) == 1;
  }

  /**
   * `name: value` and "\n" is a definition line with that name and value,
   * whatever follows it.
   */
  lemma DefinitionLineOf(name: string, value: string, rest: string, streaming: bool)
    requires name != [] && AllIn(name, NameChars) && StartsWithValidChar(name)
    requires AllIn(value, LineChars) && (value != [] ==> !InClass(value[0], Spaces))
    ensures FieldDefinitionLine(name + ": " + value + "\n" + rest, streaming)
      == Parsed(rest, FieldDefinition(name, value))
  {
    var afterColon := value + "\n" + rest;
    var afterName := ": " + afterColon;
    assert name + ": " + value + "\n" + rest == name + afterName;
    assert afterColon[0] == if value == [] then '\n' else value[0];
    NameOf(name, afterName, streaming);
    ColonSpaceOf(afterColon, streaming);
    ValueLine(value, rest, streaming);
    hide FieldName, ColonAndWhitespace, FieldValue;
  }

  /** ` text` and "\n" is a continuation line carrying that text. */
  lemma ContinuationOf(text: string, rest: string, streaming: bool)
    requires AllIn(text, LineChars) && (text != [] ==> !InClass(text[0], Spaces))
    ensures ContinuationOrComment(" " + text + "\n" + rest, streaming) == Parsed(rest, Continuation(text))
  {
    var line := text + "\n" + rest;
    var s := " " + line;
    assert " " + text + "\n" + rest == s;
    assert s[1..] == line && s[..1] == " ";
    assert line[0] == if text == [] then '\n' else text[0];
    assert Span(s, Spaces) == 1;
    ValueLine(text, rest, streaming);
  }

  /** `#text` and "\n" is a comment line. */
  lemma CommentOf(text: string, rest: string, streaming: bool)
    requires AllIn(text, LineChars)
    ensures ContinuationOrComment("#" + text + "\n" + rest, streaming) == Parsed(rest, Comment)
  {
    CommentText(text, rest, streaming);
    NotContinuation("#" + text + "\n" + rest, streaming);
    hide CommentLine, ContinuationLine;
  }

  /** `comment_line` takes '#', the text after it and the "\n". */
  lemma CommentText(text: string, rest: string, streaming: bool)
    requires AllIn(text, LineChars)
    ensures CommentLine("#" + text + "\n" + rest, streaming) == Parsed(rest, Comment)
  {
    var line := text + "\n" + rest;
    var s := "#" + line;
    assert "#" + text + "\n" + rest == s;
    assert s[1..] == line;
    LineText(text, rest, streaming);
    hide NotLineEnding, OptLineEnding;
  }

  /** A line that starts neither indented nor with '#' ends the lines that follow a definition. */
  lemma FollowingLinesEnd(s: string, streaming: bool)
    requires s != [] && !InClass(s[0], Spaces) && s[0] != '#'
    ensures FollowingLines(s, streaming) == Parsed(s, [])
  {
    NotContinuation(s, streaming);
  }

  /** A line ending is no field definition, so the repetition of definitions stops there. */
  lemma DefinitionsEndAtNewline(rest: string, streaming: bool)
    ensures MoreFieldDefinitions("\n" + rest, streaming) == Parsed("\n" + rest, [])
  {
    assert Span("\n" + rest, NameChars) == 0;
  }

  /** A lone "\n" terminates a paragraph and leaves nothing. */
  lemma NewlineTerminates(streaming: bool)
    ensures Terminator("\n", streaming) == Parsed([], ())
  {
    assert Span("\n", Spaces) == 0;
    assert "\n"[..0] == [] && "\n"[0..] == "\n" && "\n"[1..] == [];
  }

  /** A "\n" is a blank line to skip. */
  lemma BlankLineOf(rest: string, streaming: bool)
    ensures BlankOrComment("\n" + rest, streaming) == Parsed(rest, Blank)
  {
    var s := "\n" + rest;
    assert Span(s, Spaces) == 0;
    assert s[..0] == [] && s[0..] == s && s[1..] == rest;
  }

  /** `#text` and "\n" is a comment line to skip. */
  lemma CommentLineOf(text: string, rest: string, streaming: bool)
    requires AllIn(text, LineChars)
    ensures BlankOrComment("#" + text + "\n" + rest, streaming) == Parsed(rest, Comment)
  {
    CommentText(text, rest, streaming);
    NotBlank("#" + text + "\n" + rest, streaming);
    hide CommentLine, BlankLine;
  }

  /** A "\n" terminates a paragraph and leaves whatever follows it. */
  lemma BlankTerminates(rest: string, streaming: bool)
    ensures Terminator("\n" + rest, streaming) == Parsed(rest, ())
  {
    var s := "\n" + rest;
    assert Span(s, Spaces) == 0;
    assert s[..0] == [] && s[0..] == s && s[1..] == rest;
  }

  // ---------------------------------------------------------------------
  // src/tests.rs:17-40

  /**
   * The input of src/tests.rs:17-40, one line per constant:
   *
   *   field: value
   *   field2: value2
   *   # comment 1
   *   field3: line1
   *    line2
   *   # comment 2
   *    line3
   *   (blank line)
   */
  const Completed: string := "field: value\n" + AfterField1
  const AfterField1: string := "field2: value2\n" + AfterValue2
  const AfterValue2: string := "# comment 1\n" + AfterField2
  const AfterField2: string := "field3: line1\n" + AfterLine1
  const AfterLine1: string := " line2\n" + AfterLine2
  const AfterLine2: string := "# comment 2\n" + AfterComment2
  const AfterComment2: string := " line3\n" + "\n"

  /** The first field: no line follows it. */
  lemma CompletedField1()
    ensures ParseFieldDefinition(Completed, true) == Parsed(AfterField1, Field("field", "value"))
  {
    hide FieldDefinitionLine, ContinuationOrComment, ContinuationLine, CommentLine, FieldName,
      FieldValue, ColonAndWhitespace, Span, TakeWhile0, TakeWhile1, NotLineEnding, LineEnding, Char,
      Continuations;
    assert "field: value\n" == "field" + ": " + "value" + "\n";
    DefinitionLineOf("field", "value", AfterField1, true);
    assert AfterField1[0] == 'f';
    FollowingLinesEnd(AfterField1, true);
    assert "value" + Appended([]) == "value";
  }

  /** The second field: the comment after it belongs to it and adds nothing. */
  lemma CompletedField2()
    ensures ParseFieldDefinition(AfterField1, true) == Parsed(AfterField2, Field("field2", "value2"))
  {
    hide FieldDefinitionLine, ContinuationOrComment, ContinuationLine, CommentLine, FieldName,
      FieldValue, ColonAndWhitespace, Span, TakeWhile0, TakeWhile1, NotLineEnding, LineEnding, Char,
      Continuations;
    assert "field2: value2\n" == "field2" + ": " + "value2" + "\n";
    DefinitionLineOf("field2", "value2", AfterValue2, true);
    assert "# comment 1\n" == "#" + " comment 1" + "\n";
    CommentOf(" comment 1", AfterField2, true);
    assert AfterField2[0] == 'f';
    FollowingLinesEnd(AfterField2, true);
    assert [Comment] + [] == [Comment];
    assert "value2" + Appended([Comment]) == "value2";
  }

  /** The lines after the third definition: a continuation, a comment and a continuation. */
  lemma CompletedField3Lines()
    ensures FollowingLines(AfterLine1, true)
      == Parsed("\n", [Continuation("line2"), Comment, Continuation("line3")])
  {
    hide FieldDefinitionLine, ContinuationOrComment, ContinuationLine, CommentLine, FieldName,
      FieldValue, ColonAndWhitespace, Span, TakeWhile0, TakeWhile1, NotLineEnding, LineEnding, Char,
      Continuations;
    assert " line2\n" == " " + "line2" + "\n";
    ContinuationOf("line2", AfterLine2, true);
    assert "# comment 2\n" == "#" + " comment 2" + "\n";
    CommentOf(" comment 2", AfterComment2, true);
    assert " line3\n" == " " + "line3" + "\n";
    ContinuationOf("line3", "\n", true);
    FollowingLinesEnd("\n", true);
    assert [Continuation("line3")] + [] == [Continuation("line3")];
    assert [Comment] + [Continuation("line3")] == [Comment, Continuation("line3")];
    assert [Continuation("line2")] + [Comment, Continuation("line3")]
      == [Continuation("line2"), Comment, Continuation("line3")];
    assert FollowingLines(AfterComment2, true) == Parsed("\n", [Continuation("line3")]);
    assert FollowingLines(AfterLine2, true) == Parsed("\n", [Comment, Continuation("line3")]);
  }

  /** Those lines contribute their continuation texts, each after a newline; the comment adds nothing. */
  lemma CompletedField3Value()
    ensures Appended([Continuation("line2"), Comment, Continuation("line3")]) == "\nline2\nline3"
  {
    var last := [Continuation("line3")];
    var tail := [Comment] + last;
    var lines := [Continuation("line2")] + tail;
    assert last[1..] == [] && tail[1..] == last && lines[1..] == tail;
    assert Appended(last) == "\nline3";
    assert Appended(tail) == "\nline3";
    assert lines == [Continuation("line2"), Comment, Continuation("line3")];
  }

  /** The third field: two continuation lines with a comment between them. */
  lemma CompletedField3()
    ensures ParseFieldDefinition(AfterField2, true) == Parsed("\n", Field("field3", "line1\nline2\nline3"))
  {
    hide FieldDefinitionLine, FollowingLines, ContinuationOrComment, FieldValue, Span, NotLineEnding, Continuations;
    assert "field3: line1\n" == "field3" + ": " + "line1" + "\n";
    DefinitionLineOf("field3", "line1", AfterLine1, true);
    CompletedField3Lines();
    CompletedField3Value();
    hide Appended;
    assert "line1" + "\nline2\nline3" == "line1\nline2\nline3";
  }

  /**
   * The completed paragraph of src/tests.rs:17-40: three fields, the
   * comments dropped, the third value joined from its continuation lines,
   * and nothing left over.
   */
  lemma CompletedParagraph()
    ensures ParseStreaming(Completed) == Ok(Item(([], Paragraph([
      Field("field", "value"),
      Field("field2", "value2"),
      Field("field3", "line1\nline2\nline3")]))))
  {
    var f1 := Field("field", "value");
    var f2 := Field("field2", "value2");
    var f3 := Field("field3", "line1\nline2\nline3");
    CompletedField1();
    CompletedField2();
    CompletedField3();
    hide ParseFieldDefinition;
    DefinitionsEndAtNewline([], true);
    assert "\n" + [] == "\n";
    assert [f3] + [] == [f3] && [f2] + [f3] == [f2, f3] && [f1] + [f2, f3] == [f1, f2, f3];
    assert MoreFieldDefinitions(AfterField2, true) == Parsed("\n", [f3]);
    assert MoreFieldDefinitions(AfterField1, true) == Parsed("\n", [f2, f3]);
    assert FieldDefinitions(Completed, true) == Parsed("\n", [f1, f2, f3]);
    NewlineTerminates(true);
    assert ParagraphBody(Completed, true) == Parsed([], Some(Paragraph([f1, f2, f3])));
    NothingToSkip(Completed, true);
    ParagraphSteps(Completed, true);
    StreamingOfParagraph(Completed);
  }

  // ---------------------------------------------------------------------
  // src/tests.rs:42-70

  /**
   * The input of src/tests.rs:42-70, one line per constant:
   *
   *   (blank line)
   *   # comment
   *   field: value
   *    cont
   *   (blank line)
   *   # comment
   *   (blank line)
   *   field2: value2
   *   # comment
   */
  const Partial: string := "\n" + PartialAfterBlank
  const PartialAfterBlank: string := "# comment\n" + PartialField
  const PartialField: string := "field: value\n" + PartialCont
  const PartialCont: string := " cont\n" + PartialEnd
  const PartialEnd: string := "\n" + PartialRest
  const PartialRest: string := "# comment\n" + PartialRest1
  const PartialRest1: string := "\n" + PartialRest2
  const PartialRest2: string := "field2: value2\n" + "# comment\n"

  /** The blank line and the comment before the paragraph are skipped. */
  lemma PartialSkipped()
    ensures SkipBlanksAndComments(Partial, true) == Parsed(PartialField, ())
  {
    hide BlankOrComment;
    BlankLineOf(PartialAfterBlank, true);
    SkipOne(Partial, true);
    assert "# comment\n" == "#" + " comment" + "\n";
    CommentLineOf(" comment", PartialField, true);
    SkipOne(PartialAfterBlank, true);
    assert PartialField[0] == 'f';
    NothingToSkip(PartialField, true);
  }

  /** The one field: its continuation line is joined to its value. */
  lemma PartialFieldFolded()
    ensures ParseFieldDefinition(PartialField, true) == Parsed(PartialEnd, Field("field", "value\ncont"))
  {
    hide FieldDefinitionLine, ContinuationOrComment, ContinuationLine, CommentLine, FieldName,
      FieldValue, ColonAndWhitespace, Span, TakeWhile0, TakeWhile1, NotLineEnding, LineEnding, Char,
      Continuations;
    assert "field: value\n" == "field" + ": " + "value" + "\n";
    DefinitionLineOf("field", "value", PartialCont, true);
    assert " cont\n" == " " + "cont" + "\n";
    ContinuationOf("cont", PartialEnd, true);
    assert PartialEnd[0] == '\n';
    FollowingLinesEnd(PartialEnd, true);
    assert [Continuation("cont")] + [] == [Continuation("cont")];
    assert FollowingLines(PartialCont, true) == Parsed(PartialEnd, [Continuation("cont")]);
    assert Appended([Continuation("cont")]) == "\ncont" + Appended([]);
    assert "value" + ("\ncont" + "") == "value\ncont";
  }

  /**
   * The paragraph of src/tests.rs:42-70: the leading blank and comment
   * lines are skipped, one field is read, the blank line after it ends the
   * paragraph, and everything from the next comment on is left unconsumed.
   */
  lemma PartialParagraph()
    ensures ParseStreaming(Partial) == Ok(Item((PartialRest, Paragraph([Field("field", "value\ncont")]))))
  {
    var f := Field("field", "value\ncont");
    PartialSkipped();
    PartialFieldFolded();
    hide ParseFieldDefinition, SkipBlanksAndComments;
    DefinitionsEndAtNewline(PartialRest, true);
    assert [f] + [] == [f];
    assert FieldDefinitions(PartialField, true) == Parsed(PartialEnd, [f]);
    BlankTerminates(PartialRest, true);
    assert ParagraphBody(PartialField, true) == Parsed(PartialRest, Some(Paragraph([f])));
    ParagraphSteps(Partial, true);
    StreamingOfParagraph(Partial);
  }
}
