/**
 * Properties of the grammar of src/parser.rs.
 *
 * Stability: a streaming parser that has decided (success, error or
 * failure) on a prefix decides the same way on every extension of it; a
 * success keeps its output and only its unconsumed rest grows. This is what
 * lets a buffering driver hand the parser whatever bytes have arrived so far.
 *
 * Agreement: the two instances of the grammar differ only in what the
 * primitives do at the end of the input, so wherever the streaming instance
 * does not ask for more input the complete instance answers the same.
 */
module GrammarFacts {
  import opened Wrappers
  import opened Fields
  import opened Grammar

  /** What a streaming result on `s` becomes on `s + t`. */
  ghost predicate Extends<T>(r: PResult<T>, r': PResult<T>, t: string) {
    match r
    case Parsed(rest, out) => r' == Parsed(rest + t, out)
    case Error => r'.Error?
    case Failure => r'.Failure?
    case Incomplete => true
  }

  /** The complete instance answers like the streaming one, unless that one asked for more. */
  ghost predicate Agrees<T>(streamingResult: PResult<T>, completeResult: PResult<T>) {
    !streamingResult.Incomplete? ==> completeResult == streamingResult
  }

  // ---------------------------------------------------------------------
  // repetitions stop exactly where their element fails

  lemma {:induction false} FollowingLinesStops(s: string, streaming: bool)
    ensures var r := FollowingLines(s, streaming);
      r.Parsed? ==> ContinuationOrComment(r.rest, streaming).Error?
    decreases |s|
  {
    var line := ContinuationOrComment(s, streaming);
    if line.Parsed? {
      FollowingLinesStops(line.rest, streaming);
    }
  }

  lemma {:induction false} MoreFieldDefinitionsStops(s: string, streaming: bool)
    ensures var r := MoreFieldDefinitions(s, streaming);
      r.Parsed? ==> ParseFieldDefinition(r.rest, streaming).Error?
    decreases |s|
  {
    var field := ParseFieldDefinition(s, streaming);
    if field.Parsed? {
      MoreFieldDefinitionsStops(field.rest, streaming);
    }
  }

  lemma {:induction false} SkipBlanksAndCommentsStops(s: string, streaming: bool)
    ensures var r := SkipBlanksAndComments(s, streaming);
      r.Parsed? ==> BlankOrComment(r.rest, streaming).Error?
    decreases |s|
  {
    var line := BlankOrComment(s, streaming);
    if line.Parsed? {
      SkipBlanksAndCommentsStops(line.rest, streaming);
    }
  }

  // ---------------------------------------------------------------------
  // primitives

  lemma {:induction false} SpanAppend(s: string, t: string, k: CharClass)
    ensures Span(s + t, k) == if Span(s, k) < |s| then Span(s, k) else |s| + Span(t, k)
    decreases |s|
  {
    if s == [] {
      assert s + t == t;
    } else {
      assert (s + t)[1..] == s[1..] + t;
      if InClass(s[0], k) {
        SpanAppend(s[1..], t, k);
      }
    }
  }

  lemma TakeWhile0Stable(s: string, t: string, k: CharClass)
    ensures Extends(TakeWhile0(s, k, true), TakeWhile0(s + t, k, true), t)
  {
    SpanAppend(s, t, k);
    var n := Span(s, k);
    if n < |s| {
      assert (s + t)[n..] == s[n..] + t;
      assert (s + t)[..n] == s[..n];
    }
  }

  lemma TakeWhile1Stable(s: string, t: string, k: CharClass)
    ensures Extends(TakeWhile1(s, k, true), TakeWhile1(s + t, k, true), t)
  {
    SpanAppend(s, t, k);
    var n := Span(s, k);
    if n < |s| {
      assert (s + t)[n..] == s[n..] + t;
      assert (s + t)[..n] == s[..n];
    }
  }

  lemma CharStable(s: string, c: char, t: string)
    ensures Extends(Char(s, c, true), Char(s + t, c, true), t)
  {
    if s != [] {
      assert (s + t)[0] == s[0];
      assert (s + t)[1..] == s[1..] + t;
    }
  }

  lemma LineEndingStable(s: string, t: string)
    ensures Extends(LineEnding(s, true), LineEnding(s + t, true), t)
  {
    if s != [] {
      assert (s + t)[0] == s[0];
      assert (s + t)[1..] == s[1..] + t;
      if |s| > 1 {
        assert (s + t)[1] == s[1];
        assert (s + t)[2..] == s[2..] + t;
      }
    }
  }

  lemma NotLineEndingStable(s: string, t: string)
    ensures Extends(NotLineEnding(s, true), NotLineEnding(s + t, true), t)
  {
    SpanAppend(s, t, LineChars);
    var n := Span(s, LineChars);
    if n < |s| {
      assert (s + t)[n] == s[n];
      assert (s + t)[n..] == s[n..] + t;
      assert (s + t)[..n] == s[..n];
      if n + 1 < |s| {
        assert (s + t)[n + 1] == s[n + 1];
      }
    }
  }

  lemma OptLineEndingStable(s: string, t: string)
    ensures Extends(OptLineEnding(s, true), OptLineEnding(s + t, true), t)
  {
    LineEndingStable(s, t);
  }

  lemma CutStable<T>(r: PResult<T>, r': PResult<T>, t: string)
    requires Extends(r, r', t)
    ensures Extends(Cut(r), Cut(r'), t)
  {
  }

  // ---------------------------------------------------------------------
  // line parsers

  lemma FieldNameStable(s: string, t: string)
    ensures Extends(FieldName(s, true), FieldName(s + t, true), t)
  {
    TakeWhile1Stable(s, t, NameChars);
  }

  lemma ColonAndWhitespaceStable(s: string, t: string)
    ensures Extends(ColonAndWhitespace(s, true), ColonAndWhitespace(s + t, true), t)
  {
    CharStable(s, ':', t);
    var colon := Char(s, ':', true);
    if colon.Parsed? {
      TakeWhile0Stable(colon.rest, t, Spaces);
    }
  }

  lemma FieldValueStable(s: string, t: string)
    ensures Extends(FieldValue(s, true), FieldValue(s + t, true), t)
  {
    NotLineEndingStable(s, t);
    var value := NotLineEnding(s, true);
    if value.Parsed? {
      OptLineEndingStable(value.rest, t);
    }
  }

  lemma FieldDefinitionLineStable(s: string, t: string)
    ensures Extends(FieldDefinitionLine(s, true), FieldDefinitionLine(s + t, true), t)
  {
    FieldNameStable(s, t);
    var name := FieldName(s, true);
    if name.Parsed? {
      ColonAndWhitespaceStable(name.rest, t);
      CutStable(ColonAndWhitespace(name.rest, true), ColonAndWhitespace(name.rest + t, true), t);
      var colon := Cut(ColonAndWhitespace(name.rest, true));
      if colon.Parsed? {
        FieldValueStable(colon.rest, t);
        CutStable(FieldValue(colon.rest, true), FieldValue(colon.rest + t, true), t);
      }
    }
  }

  lemma ContinuationLineStable(s: string, t: string)
    ensures Extends(ContinuationLine(s, true), ContinuationLine(s + t, true), t)
  {
    TakeWhile1Stable(s, t, Spaces);
    var indent := TakeWhile1(s, Spaces, true);
    if indent.Parsed? {
      FieldValueStable(indent.rest, t);
    }
  }

  lemma CommentLineStable(s: string, t: string)
    ensures Extends(CommentLine(s, true), CommentLine(s + t, true), t)
  {
    CharStable(s, '#', t);
    var hash := Char(s, '#', true);
    if hash.Parsed? {
      NotLineEndingStable(hash.rest, t);
      var text := NotLineEnding(hash.rest, true);
      if text.Parsed? {
        OptLineEndingStable(text.rest, t);
      }
    }
  }

  lemma BlankLineStable(s: string, t: string)
    ensures Extends(BlankLine(s, true), BlankLine(s + t, true), t)
  {
    TakeWhile0Stable(s, t, Spaces);
    var spaces := TakeWhile0(s, Spaces, true);
    if spaces.Parsed? {
      LineEndingStable(spaces.rest, t);
    }
  }

  // ---------------------------------------------------------------------
  // assembly

  lemma ContinuationOrCommentStable(s: string, t: string)
    ensures Extends(ContinuationOrComment(s, true), ContinuationOrComment(s + t, true), t)
  {
    ContinuationLineStable(s, t);
    CommentLineStable(s, t);
  }

  lemma {:induction false} FollowingLinesStable(s: string, t: string)
    ensures Extends(FollowingLines(s, true), FollowingLines(s + t, true), t)
    decreases |s|
  {
    ContinuationOrCommentStable(s, t);
    var line := ContinuationOrComment(s, true);
    if line.Parsed? {
      FollowingLinesStable(line.rest, t);
    }
  }

  lemma ParseFieldDefinitionStable(s: string, t: string)
    ensures Extends(ParseFieldDefinition(s, true), ParseFieldDefinition(s + t, true), t)
  {
    FieldDefinitionLineStable(s, t);
    var def := FieldDefinitionLine(s, true);
    if def.Parsed? {
      FollowingLinesStable(def.rest, t);
    }
  }

  lemma {:induction false} MoreFieldDefinitionsStable(s: string, t: string)
    ensures Extends(MoreFieldDefinitions(s, true), MoreFieldDefinitions(s + t, true), t)
    decreases |s|
  {
    ParseFieldDefinitionStable(s, t);
    var field := ParseFieldDefinition(s, true);
    if field.Parsed? {
      MoreFieldDefinitionsStable(field.rest, t);
    }
  }

  lemma FieldDefinitionsStable(s: string, t: string)
    ensures Extends(FieldDefinitions(s, true), FieldDefinitions(s + t, true), t)
  {
    ParseFieldDefinitionStable(s, t);
    var field := ParseFieldDefinition(s, true);
    if field.Parsed? {
      MoreFieldDefinitionsStable(field.rest, t);
    }
  }

  lemma BlankOrCommentStable(s: string, t: string)
    ensures Extends(BlankOrComment(s, true), BlankOrComment(s + t, true), t)
  {
    BlankLineStable(s, t);
    CommentLineStable(s, t);
  }

  lemma {:induction false} SkipBlanksAndCommentsStable(s: string, t: string)
    ensures Extends(SkipBlanksAndComments(s, true), SkipBlanksAndComments(s + t, true), t)
    decreases |s|
  {
    BlankOrCommentStable(s, t);
    var line := BlankOrComment(s, true);
    if line.Parsed? {
      SkipBlanksAndCommentsStable(line.rest, t);
    }
  }

  /**
   * `eof` alone is not stable, but the terminator only reaches it after a
   * streaming `blank_line` failed, which needs at least one character.
   */
  lemma TerminatorStable(s: string, t: string)
    ensures Extends(Terminator(s, true), Terminator(s + t, true), t)
  {
    BlankLineStable(s, t);
    if BlankLine(s, true).Error? {
      assert s != [];
    }
  }

  lemma OptFieldDefinitionsStable(s: string, t: string)
    ensures Extends(OptFieldDefinitions(s, true), OptFieldDefinitions(s + t, true), t)
  {
    FieldDefinitionsStable(s, t);
  }

  lemma ParagraphBodyStable(s: string, t: string)
    ensures Extends(ParagraphBody(s, true), ParagraphBody(s + t, true), t)
  {
    OptFieldDefinitionsStable(s, t);
    var body := OptFieldDefinitions(s, true);
    if body.Parsed? {
      TerminatorStable(body.rest, t);
    }
  }

  /** A streaming paragraph decision survives any amount of further input. */
  lemma ParseParagraphStable(s: string, t: string)
    ensures Extends(ParseParagraph(s, true), ParseParagraph(s + t, true), t)
  {
    SkipBlanksAndCommentsStable(s, t);
    var skipped := SkipBlanksAndComments(s, true);
    if skipped.Parsed? {
      ParagraphBodyStable(skipped.rest, t);
    }
  }

  // ---------------------------------------------------------------------
  // agreement of the two instances

  lemma TakeWhile0Agrees(s: string, k: CharClass)
    ensures Agrees(TakeWhile0(s, k, true), TakeWhile0(s, k, false))
  {
  }

  lemma TakeWhile1Agrees(s: string, k: CharClass)
    ensures Agrees(TakeWhile1(s, k, true), TakeWhile1(s, k, false))
  {
  }

  lemma CharAgrees(s: string, c: char)
    ensures Agrees(Char(s, c, true), Char(s, c, false))
  {
  }

  lemma LineEndingAgrees(s: string)
    ensures Agrees(LineEnding(s, true), LineEnding(s, false))
  {
  }

  lemma NotLineEndingAgrees(s: string)
    ensures Agrees(NotLineEnding(s, true), NotLineEnding(s, false))
  {
  }

  lemma OptLineEndingAgrees(s: string)
    ensures Agrees(OptLineEnding(s, true), OptLineEnding(s, false))
  {
    LineEndingAgrees(s);
  }

  lemma FieldNameAgrees(s: string)
    ensures Agrees(FieldName(s, true), FieldName(s, false))
  {
    TakeWhile1Agrees(s, NameChars);
  }

  lemma ColonAndWhitespaceAgrees(s: string)
    ensures Agrees(ColonAndWhitespace(s, true), ColonAndWhitespace(s, false))
  {
    CharAgrees(s, ':');
    var colon := Char(s, ':', true);
    if colon.Parsed? {
      TakeWhile0Agrees(colon.rest, Spaces);
    }
  }

  lemma FieldValueAgrees(s: string)
    ensures Agrees(FieldValue(s, true), FieldValue(s, false))
  {
    NotLineEndingAgrees(s);
    var value := NotLineEnding(s, true);
    if value.Parsed? {
      OptLineEndingAgrees(value.rest);
    }
  }

  lemma FieldDefinitionLineAgrees(s: string)
    ensures Agrees(FieldDefinitionLine(s, true), FieldDefinitionLine(s, false))
  {
    FieldNameAgrees(s);
    var name := FieldName(s, true);
    if name.Parsed? {
      ColonAndWhitespaceAgrees(name.rest);
      var colon := Cut(ColonAndWhitespace(name.rest, true));
      if colon.Parsed? {
        FieldValueAgrees(colon.rest);
      }
    }
  }

  lemma ContinuationLineAgrees(s: string)
    ensures Agrees(ContinuationLine(s, true), ContinuationLine(s, false))
  {
    TakeWhile1Agrees(s, Spaces);
    var indent := TakeWhile1(s, Spaces, true);
    if indent.Parsed? {
      FieldValueAgrees(indent.rest);
    }
  }

  lemma CommentLineAgrees(s: string)
    ensures Agrees(CommentLine(s, true), CommentLine(s, false))
  {
    CharAgrees(s, '#');
    var hash := Char(s, '#', true);
    if hash.Parsed? {
      NotLineEndingAgrees(hash.rest);
      var text := NotLineEnding(hash.rest, true);
      if text.Parsed? {
        OptLineEndingAgrees(text.rest);
      }
    }
  }

  lemma BlankLineAgrees(s: string)
    ensures Agrees(BlankLine(s, true), BlankLine(s, false))
  {
    TakeWhile0Agrees(s, Spaces);
    var spaces := TakeWhile0(s, Spaces, true);
    if spaces.Parsed? {
      LineEndingAgrees(spaces.rest);
    }
  }

  lemma ContinuationOrCommentAgrees(s: string)
    ensures Agrees(ContinuationOrComment(s, true), ContinuationOrComment(s, false))
  {
    ContinuationLineAgrees(s);
    CommentLineAgrees(s);
  }

  lemma BlankOrCommentAgrees(s: string)
    ensures Agrees(BlankOrComment(s, true), BlankOrComment(s, false))
  {
    BlankLineAgrees(s);
    CommentLineAgrees(s);
  }

  lemma {:induction false} FollowingLinesAgrees(s: string)
    ensures Agrees(FollowingLines(s, true), FollowingLines(s, false))
    decreases |s|
  {
    ContinuationOrCommentAgrees(s);
    var line := ContinuationOrComment(s, true);
    if line.Parsed? {
      FollowingLinesAgrees(line.rest);
    }
  }

  lemma ParseFieldDefinitionAgrees(s: string)
    ensures Agrees(ParseFieldDefinition(s, true), ParseFieldDefinition(s, false))
  {
    FieldDefinitionLineAgrees(s);
    var def := FieldDefinitionLine(s, true);
    if def.Parsed? {
      FollowingLinesAgrees(def.rest);
    }
  }

  lemma {:induction false} MoreFieldDefinitionsAgrees(s: string)
    ensures Agrees(MoreFieldDefinitions(s, true), MoreFieldDefinitions(s, false))
    decreases |s|
  {
    ParseFieldDefinitionAgrees(s);
    var field := ParseFieldDefinition(s, true);
    if field.Parsed? {
      MoreFieldDefinitionsAgrees(field.rest);
    }
  }

  lemma {:induction false} SkipBlanksAndCommentsAgrees(s: string)
    ensures Agrees(SkipBlanksAndComments(s, true), SkipBlanksAndComments(s, false))
    decreases |s|
  {
    BlankOrCommentAgrees(s);
    var line := BlankOrComment(s, true);
    if line.Error? {
      assert BlankOrComment(s, false).Error?;
    } else if line.Parsed? {
      SkipBlanksAndCommentsAgrees(line.rest);
    }
  }

  lemma FieldDefinitionsAgrees(s: string)
    ensures Agrees(FieldDefinitions(s, true), FieldDefinitions(s, false))
  {
    ParseFieldDefinitionAgrees(s);
    var field := ParseFieldDefinition(s, true);
    if field.Parsed? {
      MoreFieldDefinitionsAgrees(field.rest);
    }
  }

  lemma TerminatorAgrees(s: string)
    ensures Agrees(Terminator(s, true), Terminator(s, false))
  {
    BlankLineAgrees(s);
  }

  lemma OptFieldDefinitionsAgrees(s: string)
    ensures Agrees(OptFieldDefinitions(s, true), OptFieldDefinitions(s, false))
  {
    FieldDefinitionsAgrees(s);
  }

  lemma ParagraphBodyAgrees(s: string)
    ensures Agrees(ParagraphBody(s, true), ParagraphBody(s, false))
  {
    OptFieldDefinitionsAgrees(s);
    var body := OptFieldDefinitions(s, true);
    if body.Parsed? {
      TerminatorAgrees(body.rest);
    }
  }

  /** The instances differ only where the streaming one asks for more input. */
  lemma ParseParagraphAgrees(s: string)
    ensures Agrees(ParseParagraph(s, true), ParseParagraph(s, false))
  {
    SkipBlanksAndCommentsAgrees(s);
    var skipped := SkipBlanksAndComments(s, true);
    if skipped.Parsed? {
      ParagraphBodyAgrees(skipped.rest);
    }
  }
}
