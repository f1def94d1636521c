/**
 * What the `paragraph` parser of src/parser.rs accepts, rejects and asks
 * more input for, stated on whole inputs.
 *
 * The first half takes single parsers apart one level at a time; the
 * second half chains those steps into statements about `paragraph`.
 */
module ParagraphFacts {
  import opened Wrappers
  import opened Fields
  import opened Grammar
  import opened GrammarFacts

  /** Every character of `s` is in class `k`. */
  predicate AllIn(s: string, k: CharClass) {
    forall i :: 0 <= i < |s| ==> InClass(s[i], k)
  }

  /** The line endings nom's `line_ending` consumes, or none at the end of the input. */
  predicate IsLineEnd(eol: string) {
    eol == "" || eol == "\n" || eol == "\r\n"
  }

  /** The characters a `take_while` took are all of its class. */
  lemma PrefixAllIn(s: string, k: CharClass)
    ensures AllIn(s[..Span(s, k)], k)
  {
    var n := Span(s, k);
    assert forall i :: 0 <= i < n ==> s[..n][i] == s[i];
  }

  lemma {:induction false} SpanOfAll(s: string, k: CharClass)
    requires AllIn(s, k)
    ensures Span(s, k) == |s|
    decreases |s|
  {
    if s != [] {
      assert AllIn(s[1..], k) by {
        assert forall i :: 0 <= i < |s[1..]| ==> s[1..][i] == s[i + 1];
      }
      SpanOfAll(s[1..], k);
    }
  }

  // ---------------------------------------------------------------------
  // the shape of the lines

  /** After the text of a line, `opt(line_ending)` takes the "\n" or "\r\n" that ends it. */
  lemma OptLineEndingShape(x: string, streaming: bool) returns (eol: string)
    requires OptLineEnding(x, streaming).Parsed?
    requires x != [] ==> x[0] == '\n' || (|x| >= 2 && x[0] == '\r' && x[1] == '\n')
    ensures x == eol + OptLineEnding(x, streaming).rest
    ensures IsLineEnd(eol) && (eol == "" ==> x == [])
  {
    if x == [] {
      eol := "";
    } else if x[0] == '\n' {
      eol := "\n";
    } else {
      eol := "\r\n";
    }
  }

  /**
   * A value is the text up to the line ending, trailing spaces included,
   * then the line ending; only a complete input may end without one.
   */
  lemma ValueShape(s: string, streaming: bool) returns (eol: string)
    requires FieldValue(s, streaming).Parsed?
    ensures var r := FieldValue(s, streaming);
      && s == r.out + eol + r.rest
      && AllIn(r.out, LineChars) && (r.out != [] ==> r.out[0] == s[0])
      && IsLineEnd(eol) && (eol == "" ==> r.rest == [] && !streaming)
  {
    var value := NotLineEnding(s, streaming);
    var ending := OptLineEnding(value.rest, streaming);
    eol := OptLineEndingShape(value.rest, streaming);
    PrefixAllIn(s, LineChars);
    Regroup3(value.out, eol, ending.rest);
  }

  /** A successful `field_name` is the whole run of name characters at the front. */
  lemma FieldNameShape(s: string, streaming: bool)
    requires FieldName(s, streaming).Parsed?
    ensures var r := FieldName(s, streaming);
      && r.out == s[..Span(s, NameChars)] && r.rest == s[Span(s, NameChars)..]
      && r.out != [] && AllIn(r.out, NameChars) && StartsWithValidChar(r.out)
  {
    PrefixAllIn(s, NameChars);
  }

  /** `colon_and_whitespace` takes ':' and every space or tab after it. */
  lemma ColonShape(s: string, streaming: bool) returns (ws: string)
    requires ColonAndWhitespace(s, streaming).Parsed?
    ensures var r := ColonAndWhitespace(s, streaming);
      && s == ":" + ws + r.rest && AllIn(ws, Spaces)
      && (r.rest != [] ==> !InClass(r.rest[0], Spaces))
  {
    var colon := Char(s, ':', streaming);
    var spaces := TakeWhile0(colon.rest, Spaces, streaming);
    PrefixAllIn(colon.rest, Spaces);
    ws := spaces.out;
    assert spaces.rest == colon.rest[Span(colon.rest, Spaces)..];
    assert ":" + (ws + spaces.rest) == ":" + ws + spaces.rest;
  }

  /** A successful `field_definition_line` is its three parts, in order. */
  lemma DefinitionLineParts(s: string, streaming: bool)
    requires FieldDefinitionLine(s, streaming).Parsed?
    ensures var name := FieldName(s, streaming);
      && name.Parsed?
      && ColonAndWhitespace(name.rest, streaming).Parsed?
      && var colon := ColonAndWhitespace(name.rest, streaming);
      && FieldValue(colon.rest, streaming).Parsed?
      && var value := FieldValue(colon.rest, streaming);
      && FieldDefinitionLine(s, streaming).rest == value.rest
      && FieldDefinitionLine(s, streaming).out == FieldDefinition(name.out, value.out)
  {
  }

  /**
   * A field definition line is the name, a colon, spaces or tabs, the value
   * and a line ending.
   */
  lemma DefinitionLineShape(s: string, streaming: bool) returns (ws: string, eol: string)
    requires FieldDefinitionLine(s, streaming).Parsed?
    ensures var r := FieldDefinitionLine(s, streaming);
      && s == r.out.name + ":" + ws + r.out.value + eol + r.rest
      && r.out.name != [] && AllIn(r.out.name, NameChars) && StartsWithValidChar(r.out.name)
      && AllIn(ws, Spaces) && (r.out.value != [] ==> !InClass(r.out.value[0], Spaces))
      && AllIn(r.out.value, LineChars)
      && IsLineEnd(eol) && (eol == "" ==> r.rest == [] && !streaming)
  {
    DefinitionLineParts(s, streaming);
    var name := FieldName(s, streaming);
    FieldNameShape(s, streaming);
    var colon := ColonAndWhitespace(name.rest, streaming);
    ws := ColonShape(name.rest, streaming);
    var value := FieldValue(colon.rest, streaming);
    eol := ValueShape(colon.rest, streaming);
    Assemble(s, name.out, name.rest, ws, colon.rest, value.out, eol, value.rest);
  }

  lemma Assemble(s: string, name: string, afterName: string, ws: string, afterColon: string,
                 value: string, eol: string, rest: string)
    requires s == name + afterName && afterName == ":" + ws + afterColon
    requires afterColon == value + eol + rest
    ensures s == name + ":" + ws + value + eol + rest
  {
    assert name + (":" + (ws + (value + eol + rest))) == name + ":" + ws + value + eol + rest;
  }

  /** A successful `continuation_line` is its indentation, then a value. */
  lemma ContinuationLineParts(s: string, streaming: bool)
    requires ContinuationLine(s, streaming).Parsed?
    ensures var indent := TakeWhile1(s, Spaces, streaming);
      && indent.Parsed?
      && FieldValue(indent.rest, streaming).Parsed?
      && var value := FieldValue(indent.rest, streaming);
      && ContinuationLine(s, streaming) == Parsed(value.rest, Continuation(value.out))
  {
  }

  /**
   * A continuation line is one or more spaces or tabs, which are dropped,
   * then the text to the line ending, which is kept.
   */
  lemma ContinuationLineShape(s: string, streaming: bool) returns (indent: string, eol: string)
    requires ContinuationLine(s, streaming).Parsed?
    ensures var r := ContinuationLine(s, streaming);
      && s == indent + r.out.text + eol + r.rest
      && indent != [] && AllIn(indent, Spaces) && (r.out.text != [] ==> !InClass(r.out.text[0], Spaces))
      && AllIn(r.out.text, LineChars)
      && IsLineEnd(eol) && (eol == "" ==> r.rest == [] && !streaming)
  {
    ContinuationLineParts(s, streaming);
    var spaces := TakeWhile1(s, Spaces, streaming);
    PrefixAllIn(s, Spaces);
    indent := spaces.out;
    assert spaces.rest == s[Span(s, Spaces)..];
    var value := FieldValue(spaces.rest, streaming);
    eol := ValueShape(spaces.rest, streaming);
    Regroup4(indent, value.out, eol, value.rest);
  }

  /**
   * Regrouping a three-part concatenation; stated apart because the same
   * equality asserted inside `ValueShape` or `BlankLineShape` is far more
   * expensive.
   */
  lemma Regroup3(a: string, b: string, c: string)
    ensures a + (b + c) == a + b + c
  {
  }

  /**
   * Regrouping a four-part concatenation; stated apart because the same
   * equality asserted inside `ContinuationLineShape` is far more expensive.
   */
  lemma Regroup4(a: string, b: string, c: string, d: string)
    ensures a + (b + c + d) == a + b + c + d
  {
  }

  /**
   * Inside a field, a line of only spaces or tabs is a continuation line with
   * empty text (`continuation_line` is tried before anything else), so it
   * adds a bare "\n" to the value instead of ending the field.
   */
  lemma WhitespaceLineContinues(s: string, ws: string, rest: string, streaming: bool)
    requires ws != [] && AllIn(ws, Spaces) && s == ws + "\n" + rest
    ensures ContinuationOrComment(s, streaming) == Parsed(rest, Continuation(""))
    ensures FoldedField(FieldDefinition("", ""), [Continuation("")]).value == "\n"
  {
    SpanOfAll(ws, Spaces);
    SpanAppend(ws, "\n" + rest, Spaces);
    assert s[|ws|..] == "\n" + rest;
    assert s[..|ws|] == ws;
    assert TakeWhile1(s, Spaces, streaming) == Parsed("\n" + rest, ws);
    assert Span("\n" + rest, LineChars) == 0;
    assert ("\n" + rest)[1..] == rest;
    assert FieldValue("\n" + rest, streaming) == Parsed(rest, "");
  }

  /** A blank line is spaces or tabs and one line ending. */
  lemma BlankLineShape(s: string, streaming: bool) returns (ws: string, eol: string)
    requires BlankLine(s, streaming).Parsed?
    ensures s == ws + eol + BlankLine(s, streaming).rest
    ensures AllIn(ws, Spaces) && (eol == "\n" || eol == "\r\n")
  {
    var spaces := TakeWhile0(s, Spaces, streaming);
    PrefixAllIn(s, Spaces);
    ws := spaces.out;
    var ending := LineEnding(spaces.rest, streaming);
    eol := if spaces.rest[0] == '\n' then "\n" else "\r\n";
    Regroup3(ws, eol, ending.rest);
  }

  /** The paragraph terminator is exactly one blank line, or the end of a complete input. */
  lemma TerminatorShape(s: string, streaming: bool)
    requires Terminator(s, streaming).Parsed?
    ensures var r := Terminator(s, streaming);
      || (BlankLine(s, streaming).Parsed? && r.rest == BlankLine(s, streaming).rest)
      || (s == [] && r.rest == [] && !streaming)
  {
    if s == [] && streaming {
      BlankLineOnEmpty();
    }
  }

  // ---------------------------------------------------------------------
  // single steps of the lines

  /** A streaming `blank_line` on empty input asks for more. */
  lemma BlankLineOnEmpty()
    ensures BlankLine([], true).Incomplete?
  {
    assert Span([], Spaces) == 0;
  }

  /** A line whose first character is neither a space, a tab nor a line ending is not blank. */
  lemma NotBlank(s: string, streaming: bool)
    requires s != [] && !InClass(s[0], Spaces) && s[0] != '\n' && s[0] != '\r'
    ensures BlankLine(s, streaming).Error?
  {
    assert Span(s, Spaces) == 0;
    assert LineEnding(s, streaming).Error?;
  }

  /** A line of only spaces or tabs followed by text is not blank. */
  lemma IndentedTextNotBlank(s: string, streaming: bool)
    requires Span(s, Spaces) < |s|
    requires s[Span(s, Spaces)] != '\r' && s[Span(s, Spaces)] != '\n'
    ensures BlankLine(s, streaming).Error?
  {
    var k := Span(s, Spaces);
    assert TakeWhile0(s, Spaces, streaming) == Parsed(s[k..], s[..k]);
    assert s[k..][0] == s[k];
    assert LineEnding(s[k..], streaming).Error?;
  }

  /** A comment that runs into the end of the input might still go on. */
  lemma CommentAtEnd(s: string)
    requires s != [] && s[0] == '#' && AllIn(s[1..], LineChars)
    ensures CommentLine(s, true).Incomplete?
  {
    SpanOfAll(s[1..], LineChars);
    assert Char(s, '#', true) == Parsed(s[1..], ());
  }

  /** A line that does not start with a space or a tab is not a continuation line. */
  lemma NotContinuation(s: string, streaming: bool)
    requires s != [] && !InClass(s[0], Spaces)
    ensures ContinuationLine(s, streaming).Error?
  {
    assert Span(s, Spaces) == 0;
  }

  /** A run of name characters that ends before the input, not starting with '#' or '-', is a name. */
  lemma NameSpan(s: string, streaming: bool)
    requires 0 < Span(s, NameChars) < |s| && s[0] != '#' && s[0] != '-'
    ensures var n := Span(s, NameChars);
      FieldName(s, streaming) == Parsed(s[n..], s[..n])
  {
    var n := Span(s, NameChars);
    assert s[..n][0] == s[0];
  }

  /** A complete name that starts with '-' is rejected. */
  lemma HyphenName(s: string, streaming: bool)
    requires 0 < Span(s, NameChars) < |s| && s[0] == '-'
    ensures FieldName(s, streaming).Error?
  {
    var n := Span(s, NameChars);
    assert s[..n][0] == s[0];
  }

  /** After a name, anything but ':' is a failure: `cut` commits to the definition. */
  lemma NameThenNoColon(s: string, streaming: bool)
    requires FieldName(s, streaming).Parsed?
    requires Char(FieldName(s, streaming).rest, ':', streaming).Error?
    ensures FieldDefinitionLine(s, streaming).Failure?
  {
  }

  // ---------------------------------------------------------------------
  // single steps of the assembly

  /** A `field_definition` fails exactly like its definition line. */
  lemma FieldDefinitionFromLine(s: string, streaming: bool)
    requires !FieldDefinitionLine(s, streaming).Parsed?
    ensures ParseFieldDefinition(s, streaming) == FieldDefinitionLine(s, streaming).Propagate()
  {
  }

  /** `many1(field_definition)` fails exactly like its first element. */
  lemma FieldDefinitionsFromFirst(s: string, streaming: bool)
    requires !ParseFieldDefinition(s, streaming).Parsed?
    ensures FieldDefinitions(s, streaming) == ParseFieldDefinition(s, streaming).Propagate()
  {
  }

  /** Without a first field definition there is no field at all. */
  lemma FieldDefinitionsFromLine(s: string, streaming: bool)
    requires !FieldDefinitionLine(s, streaming).Parsed?
    ensures FieldDefinitions(s, streaming) == FieldDefinitionLine(s, streaming).Propagate()
  {
    FieldDefinitionFromLine(s, streaming);
    FieldDefinitionsFromFirst(s, streaming);
  }

  /** A field list that asks for more or fails hard makes the paragraph body do the same. */
  lemma BodyFromFields(s: string, streaming: bool)
    requires !FieldDefinitions(s, streaming).Parsed? && !FieldDefinitions(s, streaming).Error?
    ensures ParagraphBody(s, streaming) == FieldDefinitions(s, streaming).Propagate()
  {
  }

  /** With no field at all, the body is whatever the terminator makes of the same input. */
  lemma BodyWithoutFields(s: string, streaming: bool)
    requires FieldDefinitions(s, streaming).Error?
    ensures var end := Terminator(s, streaming);
      ParagraphBody(s, streaming) == if end.Parsed? then Parsed(end.rest, None) else end.Propagate()
  {
    assert OptFieldDefinitions(s, streaming) == Parsed(s, None);
  }

  /** After the fields, the body is whatever the terminator makes of the rest. */
  lemma BodyAfterFields(s: string, streaming: bool)
    requires FieldDefinitions(s, streaming).Parsed?
    ensures var fields := FieldDefinitions(s, streaming);
      var end := Terminator(fields.rest, streaming);
      ParagraphBody(s, streaming)
        == if end.Parsed? then Parsed(end.rest, Some(Paragraph(fields.out))) else end.Propagate()
  {
  }

  /** A successful body is the optional fields, then a terminator. */
  lemma BodyParts(s: string, streaming: bool)
    requires ParagraphBody(s, streaming).Parsed?
    ensures var fields := OptFieldDefinitions(s, streaming);
      && fields.Parsed? && Terminator(fields.rest, streaming).Parsed?
      && ParagraphBody(s, streaming) == Parsed(Terminator(fields.rest, streaming).rest, fields.out)
  {
  }

  /** "No fields" consumes nothing. */
  lemma NoFieldsConsumeNothing(s: string, streaming: bool)
    requires OptFieldDefinitions(s, streaming).Parsed? && OptFieldDefinitions(s, streaming).out.None?
    ensures OptFieldDefinitions(s, streaming).rest == s
  {
    var r := OptFieldDefinitions(s, streaming);
    assert s[|s| - |r.rest|..] == s;
  }

  /** A terminator that is not a blank line is the end of the input. */
  lemma TerminatorAtEnd(s: string, streaming: bool)
    requires BlankLine(s, streaming).Error? && Terminator(s, streaming).Parsed?
    ensures s == [] && Terminator(s, streaming).rest == []
  {
  }

  /** The streaming terminator is always a blank line: the end of the input so far is not final. */
  lemma StreamingTerminatorIsBlankLine(s: string)
    requires Terminator(s, true).Parsed?
    ensures BlankLine(s, true).Parsed? && Terminator(s, true).rest == BlankLine(s, true).rest
  {
    if s == [] {
      BlankLineOnEmpty();
    }
  }

  /** A line that is neither blank nor a comment ends the skipping at once. */
  lemma SkipNothing(s: string, streaming: bool)
    requires BlankLine(s, streaming).Error? && CommentLine(s, streaming).Error?
    ensures SkipBlanksAndComments(s, streaming) == Parsed(s, ())
  {
    assert BlankOrComment(s, streaming).Error?;
  }

  /** A blank or comment line that asks for more makes the skipping ask for more. */
  lemma SkipIncomplete(s: string, streaming: bool)
    requires BlankOrComment(s, streaming).Incomplete?
    ensures SkipBlanksAndComments(s, streaming).Incomplete?
  {
  }

  /** One blank or comment line is skipped, then skipping goes on after it. */
  lemma SkipOne(s: string, streaming: bool)
    requires BlankOrComment(s, streaming).Parsed?
    ensures SkipBlanksAndComments(s, streaming)
      == SkipBlanksAndComments(BlankOrComment(s, streaming).rest, streaming)
  {
  }

  /** `paragraph` is the skipping, then the body on what is left. */
  lemma ParagraphSteps(s: string, streaming: bool)
    ensures var skipped := SkipBlanksAndComments(s, streaming);
      ParseParagraph(s, streaming)
        == if skipped.Parsed? then ParagraphBody(skipped.rest, streaming) else skipped.Propagate()
  {
  }

  /** A line that starts with a name character other than '#' is neither blank nor a comment. */
  lemma NothingToSkip(s: string, streaming: bool)
    requires s != [] && IsFieldNameChar(s[0]) && s[0] != '#'
    ensures SkipBlanksAndComments(s, streaming) == Parsed(s, ())
  {
    NotBlank(s, streaming);
    SkipNothing(s, streaming);
  }

  /** On the empty input, the streaming body asks for more; the complete one finds no paragraph. */
  lemma BodyOnEmpty()
    ensures ParagraphBody([], true).Incomplete?
    ensures ParagraphBody([], false) == Parsed([], None)
  {
    assert Span([], NameChars) == 0;
    assert FieldName([], true).Incomplete?;
    FieldDefinitionsFromLine([], true);
    BodyFromFields([], true);
    assert FieldName([], false).Error?;
    FieldDefinitionsFromLine([], false);
    assert Span([], Spaces) == 0;
    assert BlankLine([], false).Error?;
    BodyWithoutFields([], false);
  }

  // ---------------------------------------------------------------------
  // results of the paragraph parser

  /** A paragraph found holds at least one field. */
  lemma OptFieldsNonEmpty(s: string, streaming: bool)
    requires OptFieldDefinitions(s, streaming).Parsed? && OptFieldDefinitions(s, streaming).out.Some?
    ensures |OptFieldDefinitions(s, streaming).out.value.fields| >= 1
  {
  }

  /** A paragraph found has at least one field and was read from at least one character. */
  lemma ParagraphFound(s: string, streaming: bool)
    requires ParseParagraph(s, streaming).Parsed? && ParseParagraph(s, streaming).out.Some?
    ensures |ParseParagraph(s, streaming).rest| < |s|
    ensures |ParseParagraph(s, streaming).out.value.fields| >= 1
  {
    ParagraphSteps(s, streaming);
    var skipped := SkipBlanksAndComments(s, streaming);
    BodyParts(skipped.rest, streaming);
    OptFieldsNonEmpty(skipped.rest, streaming);
  }

  /** The streaming instance only ever answers with a paragraph, never with "no paragraph". */
  lemma StreamingNeverNone(s: string)
    ensures var r := ParseParagraph(s, true);
      r.Parsed? ==> r.out.Some? && |r.rest| < |s|
  {
    ParagraphSteps(s, true);
    var skipped := SkipBlanksAndComments(s, true);
    if skipped.Parsed? && ParagraphBody(skipped.rest, true).Parsed? {
      SkipBlanksAndCommentsStops(s, true);
      BodyParts(skipped.rest, true);
      var fields := OptFieldDefinitions(skipped.rest, true);
      StreamingTerminatorIsBlankLine(fields.rest);
      ParagraphFound(s, true);
    }
  }

  /**
   * The complete instance answers "no paragraph" only when the whole input
   * was blank and comment lines.
   */
  lemma CompleteNoneOnlyAtEnd(s: string)
    ensures var r := ParseParagraph(s, false);
      r.Parsed? && r.out.None? ==> r.rest == []
  {
    ParagraphSteps(s, false);
    var skipped := SkipBlanksAndComments(s, false);
    if skipped.Parsed? && ParagraphBody(skipped.rest, false).Parsed? {
      SkipBlanksAndCommentsStops(s, false);
      BodyParts(skipped.rest, false);
      var fields := OptFieldDefinitions(skipped.rest, false);
      if fields.out.None? {
        NoFieldsConsumeNothing(skipped.rest, false);
        TerminatorAtEnd(fields.rest, false);
      }
    }
  }

  /** Where the paragraph ends: right after its terminator, the rest untouched. */
  lemma ParagraphEnd(s: string, streaming: bool) returns (x: string)
    requires ParseParagraph(s, streaming).Parsed?
    ensures IsSuffix(x, s) && Terminator(x, streaming).Parsed?
    ensures ParseParagraph(s, streaming).rest == Terminator(x, streaming).rest
  {
    ParagraphSteps(s, streaming);
    var skipped := SkipBlanksAndComments(s, streaming);
    BodyParts(skipped.rest, streaming);
    x := OptFieldDefinitions(skipped.rest, streaming).rest;
    SuffixTrans(x, skipped.rest, s);
  }

  /**
   * A paragraph the streaming instance returns ends with a blank line, of
   * which exactly one is consumed.
   */
  lemma StreamingEndsAtBlankLine(s: string) returns (x: string)
    requires ParseParagraph(s, true).Parsed?
    ensures IsSuffix(x, s) && BlankLine(x, true).Parsed?
    ensures ParseParagraph(s, true).rest == BlankLine(x, true).rest
  {
    x := ParagraphEnd(s, true);
    StreamingTerminatorIsBlankLine(x);
  }

  /** Empty input: the streaming instance asks for more, the complete one finds no paragraph. */
  lemma EmptyInput()
    ensures ParseParagraph([], true).Incomplete?
    ensures ParseParagraph([], false) == Parsed([], None)
  {
    BlankLineOnEmpty();
    SkipIncomplete([], true);
    ParagraphSteps([], true);
    assert Span([], Spaces) == 0;
    assert BlankLine([], false).Error?;
    SkipNothing([], false);
    ParagraphSteps([], false);
    BodyOnEmpty();
  }

  /** A leading blank or comment line is skipped: parsing starts over after it. */
  lemma SkipsLeadingLine(s: string, streaming: bool)
    requires BlankOrComment(s, streaming).Parsed?
    ensures ParseParagraph(s, streaming) == ParseParagraph(BlankOrComment(s, streaming).rest, streaming)
  {
    SkipOne(s, streaming);
    ParagraphSteps(s, streaming);
    ParagraphSteps(BlankOrComment(s, streaming).rest, streaming);
  }

  /**
   * Input made only of blank and comment lines: the streaming instance asks
   * for more (a field might still follow), the complete one finds no paragraph.
   */
  lemma OnlyBlankAndCommentLines(s: string)
    requires SkipBlanksAndComments(s, false) == Parsed([], ())
    ensures ParseParagraph(s, true).Incomplete?
    ensures ParseParagraph(s, false) == Parsed([], None)
  {
    SkipBlanksAndCommentsAgrees(s);
    ParagraphSteps(s, true);
    ParagraphSteps(s, false);
    BodyOnEmpty();
  }

  /** A comment made of name characters up to the end of the input might still go on. */
  lemma HashNameAtEnd(s: string)
    requires s != [] && s[0] == '#' && Span(s, NameChars) == |s|
    ensures SkipBlanksAndComments(s, true).Incomplete?
  {
    assert AllIn(s[1..], LineChars) by {
      assert forall i :: 0 <= i < |s[1..]| ==> s[1..][i] == s[i + 1];
      assert forall i :: 0 <= i < |s| ==> IsFieldNameChar(s[i]);
    }
    CommentAtEnd(s);
    NotBlank(s, true);
    SkipIncomplete(s, true);
  }

  /** A name made of name characters up to the end of the input might still grow. */
  lemma NameRunsToEnd(s: string)
    requires s != [] && Span(s, NameChars) == |s|
    ensures FieldName(s, true).Incomplete?
  {
  }

  /** A name made of name characters up to the end of the input might still grow. */
  lemma NameAtEndIsIncomplete(s: string)
    requires s != [] && Span(s, NameChars) == |s|
    ensures ParseParagraph(s, true).Incomplete?
  {
    assert IsFieldNameChar(s[0]);
    ParagraphSteps(s, true);
    if s[0] == '#' {
      HashNameAtEnd(s);
    } else {
      NothingToSkip(s, true);
      NameRunsToEnd(s);
      FieldDefinitionsFromLine(s, true);
      BodyFromFields(s, true);
    }
  }

  /**
   * A name that is followed by anything but a colon is a hard syntax error
   * (a `cut` failure), in both instances: a bare name on its line, or a name
   * with a space or a non-ASCII character in it.
   */
  lemma NameWithoutColonFails(s: string, streaming: bool)
    requires 0 < Span(s, NameChars) < |s|
    requires s[0] != '#' && s[0] != '-' && s[Span(s, NameChars)] != ':'
    ensures ParseParagraph(s, streaming).Failure?
  {
    var n := Span(s, NameChars);
    assert IsFieldNameChar(s[0]);
    NothingToSkip(s, streaming);
    ParagraphSteps(s, streaming);
    NameSpan(s, streaming);
    assert s[n..][0] == s[n];
    NameThenNoColon(s, streaming);
    FieldDefinitionsFromLine(s, streaming);
    BodyFromFields(s, streaming);
  }

  /** A name starting with '-' is a (recoverable) syntax error once the name is complete. */
  lemma HyphenNameIsError(s: string, streaming: bool)
    requires 0 < Span(s, NameChars) < |s| && s[0] == '-'
    ensures ParseParagraph(s, streaming).Error?
  {
    assert IsFieldNameChar(s[0]);
    hide Span, TakeWhile0, TakeWhile1, Char, LineEnding, NotLineEnding, OptLineEnding;
    NothingToSkip(s, streaming);
    ParagraphSteps(s, streaming);
    HyphenName(s, streaming);
    FieldDefinitionsFromLine(s, streaming);
    NotBlank(s, streaming);
    BodyWithoutFields(s, streaming);
  }

  /** An indented line before any field definition is a syntax error. */
  lemma ContinuationFirstIsError(s: string, streaming: bool)
    requires 0 < Span(s, Spaces) < |s|
    requires s[Span(s, Spaces)] != '\r' && s[Span(s, Spaces)] != '\n'
    ensures ParseParagraph(s, streaming).Error?
  {
    assert InClass(s[0], Spaces);
    IndentedTextNotBlank(s, streaming);
    assert CommentLine(s, streaming).Error?;
    SkipNothing(s, streaming);
    ParagraphSteps(s, streaming);
    assert Span(s, NameChars) == 0;
    assert FieldName(s, streaming).Error?;
    FieldDefinitionsFromLine(s, streaming);
    BodyWithoutFields(s, streaming);
  }

  /**
   * Fields that run to the end of the input, with no blank line after
   * them, make the streaming instance ask for more.
   */
  lemma NoTerminatingBlankLineIsIncomplete(s: string)
    requires SkipBlanksAndComments(s, false).Parsed?
    requires var fields := FieldDefinitions(SkipBlanksAndComments(s, false).rest, false);
      fields.Parsed? && fields.rest == []
    ensures ParseParagraph(s, true).Incomplete?
  {
    SkipBlanksAndCommentsAgrees(s);
    ParagraphSteps(s, true);
    var skipped := SkipBlanksAndComments(s, true);
    if skipped.Parsed? {
      FieldDefinitionsAgrees(skipped.rest);
      var fields := FieldDefinitions(skipped.rest, true);
      if fields.Parsed? {
        BodyAfterFields(skipped.rest, true);
        BlankLineOnEmpty();
      } else {
        BodyFromFields(skipped.rest, true);
      }
    }
  }

  /**
   * A comment line inside a field's following lines is taken as a comment,
   * and the lines go on after it: comments do not end a field.
   */
  lemma CommentDoesNotEndField(s: string, streaming: bool)
    requires CommentLine(s, streaming).Parsed?
    ensures ContinuationOrComment(s, streaming) == CommentLine(s, streaming)
    ensures var more := FollowingLines(CommentLine(s, streaming).rest, streaming);
      more.Parsed? ==> FollowingLines(s, streaming) == Parsed(more.rest, [Comment] + more.out)
  {
    NotContinuation(s, streaming);
  }

  /**
   * A paragraph the streaming instance returns is final: whatever follows,
   * the complete instance finds the same paragraph at the same place.
   */
  lemma StreamingItemIsFinal(s: string, t: string)
    requires ParseParagraph(s, true).Parsed?
    ensures ParseParagraph(s + t, false) == Parsed(ParseParagraph(s, true).rest + t, ParseParagraph(s, true).out)
  {
    ParseParagraphStable(s, t);
    ParseParagraphAgrees(s + t);
  }
}
