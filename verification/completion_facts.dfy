/**
 * What the complete instance of the grammar does where the streaming one
 * asks for more input.
 *
 * Where a streaming parser answers "incomplete", its complete twin either
 * rejects the input or consumes it to the end -- except that a repetition
 * may stop in front of a last line that can never be completed (a line
 * ending in a lone '\r'), or in front of nothing at all. Such a leftover is
 * `Dead`: no field definition and no terminator other than the end of the
 * input starts there. Chained up to `paragraph`, this gives the main fact
 * of this module (`ParagraphIncomplete`): when the streaming `paragraph`
 * asks for more, a successful complete `paragraph` has consumed the whole
 * input.
 */
module CompletionFacts {
  import opened Wrappers
  import opened Fields
  import opened Grammar
  import opened GrammarFacts
  import opened ParagraphFacts

  /** A last line cut off right after a '\r' that is not followed by '\n'. */
  predicate TrailingCr(s: string) {
    |s| > 0 && s[|s| - 1] == '\r' && AllIn(s[..|s| - 1], LineChars)
  }

  /**
   * A leftover that neither a field definition nor a blank line can start
   * with: nothing; only spaces and tabs; a line ending in a lone '\r' that
   * starts indented, as a comment, or with that '\r'; or a run of name
   * characters starting with '#' or '-' that reaches the end.
   */
  predicate Dead(y: string) {
    || y == []
    || AllIn(y, Spaces)
    || (TrailingCr(y) && (InClass(y[0], Spaces) || y[0] == '\r' || y[0] == '#'))
    || (y != [] && AllIn(y, NameChars) && (y[0] == '#' || y[0] == '-'))
  }

  // ---------------------------------------------------------------------
  // dead leftovers

  /** No field name starts a dead leftover. */
  lemma DeadFieldName(y: string)
    requires Dead(y)
    ensures FieldName(y, false).Error?
  {
    var n := Span(y, NameChars);
    if y != [] && AllIn(y, NameChars) && (y[0] == '#' || y[0] == '-') {
      SpanOfAll(y, NameChars);
      assert y[..n][0] == y[0];
    } else if y != [] && y[0] == '#' {
      assert n < |y| by {
        assert !InClass(y[|y| - 1], NameChars);
      }
      assert y[..n][0] == y[0];
    } else if y != [] {
      assert n == 0;
    }
  }

  /** No field definition starts a dead leftover. */
  lemma DeadNoField(y: string)
    requires Dead(y)
    ensures ParseFieldDefinition(y, false).Error?
    ensures FieldDefinitions(y, false).Error?
    ensures MoreFieldDefinitions(y, false) == Parsed(y, [])
    ensures OptFieldDefinitions(y, false) == Parsed(y, None)
  {
    DeadFieldName(y);
    FieldDefinitionsFromLine(y, false);
  }

  /** No blank line starts a dead leftover. */
  lemma DeadNotBlank(y: string)
    requires Dead(y)
    ensures BlankLine(y, false).Error?
  {
    var k := Span(y, Spaces);
    if k == |y| {
      assert y[..k] == y && y[k..] == [];
      assert TakeWhile0(y, Spaces, false) == Parsed([], y);
    } else if y[k] == '\r' {
      if TrailingCr(y) {
        assert forall i | 0 <= i < |y| - 1 :: y[..|y| - 1][i] == y[i];
      }
      assert k == |y| - 1;
      assert TakeWhile0(y, Spaces, false) == Parsed(y[k..], y[..k]);
      assert y[k..] == "\r";
    } else {
      assert y[k] != '\n' by {
        if k < |y| - 1 && TrailingCr(y) {
          assert y[..|y| - 1][k] == y[k];
        }
      }
      IndentedTextNotBlank(y, false);
    }
  }

  /** Only the end of the input terminates a paragraph at a dead leftover. */
  lemma DeadTerminator(y: string)
    requires Dead(y)
    ensures Terminator(y, false).Parsed? ==> y == [] && Terminator(y, false).rest == []
  {
    DeadNotBlank(y);
  }

  /** A complete paragraph body at a dead leftover consumes all of it, if it succeeds. */
  lemma DeadBody(y: string)
    requires Dead(y)
    ensures ParagraphBody(y, false).Parsed? ==> ParagraphBody(y, false).rest == []
  {
    DeadNoField(y);
    DeadTerminator(y);
  }

  // ---------------------------------------------------------------------
  // the line parsers

  lemma NotLineEndingIncomplete(s: string)
    requires NotLineEnding(s, true).Incomplete?
    ensures || NotLineEnding(s, false) == Parsed([], s)
            || (NotLineEnding(s, false).Error? && TrailingCr(s))
  {
    var n := Span(s, LineChars);
    if n < |s| {
      assert s[..|s| - 1] == s[..n];
    }
  }

  lemma FieldValueIncomplete(s: string)
    requires FieldValue(s, true).Incomplete?
    ensures || (FieldValue(s, false).Parsed? && FieldValue(s, false).rest == [])
            || (FieldValue(s, false).Error? && TrailingCr(s))
  {
    NotLineEndingIncomplete(s);
  }

  lemma ColonIncomplete(s: string)
    requires ColonAndWhitespace(s, true).Incomplete?
    ensures ColonAndWhitespace(s, false).Error? || ColonAndWhitespace(s, false) == Parsed([], ())
  {
  }

  lemma FieldNameIncomplete(s: string)
    requires FieldName(s, true).Incomplete?
    ensures || (FieldName(s, false).Parsed? && FieldName(s, false).rest == [])
            || (FieldName(s, false).Error? && Dead(s))
  {
    assert Span(s, NameChars) == |s|;
    assert s[..|s|] == s;
  }

  /** An empty value at the end of a complete input. */
  lemma FieldValueAtEnd()
    ensures FieldValue([], false) == Parsed([], [])
  {
    assert Span([], LineChars) == 0;
  }

  /** A complete input that ends before the colon lacks it. */
  lemma ColonAtEnd()
    ensures ColonAndWhitespace([], false).Error?
  {
  }

  /** No comment line starts anywhere but at a '#'. */
  lemma NotComment(s: string)
    requires s == [] || s[0] != '#'
    ensures CommentLine(s, false).Error?
  {
  }

  lemma DefinitionLineIncomplete(s: string)
    requires FieldDefinitionLine(s, true).Incomplete?
    ensures var r := FieldDefinitionLine(s, false);
      r.Failure? || (r.Error? && Dead(s)) || (r.Parsed? && r.rest == [])
  {
    hide FieldValue, ColonAndWhitespace;
    var name := FieldName(s, true);
    FieldNameAgrees(s);
    if name.Incomplete? {
      FieldNameIncomplete(s);
      if FieldName(s, false).Parsed? {
        ColonAtEnd();
      }
    } else {
      var colon := ColonAndWhitespace(name.rest, true);
      ColonAndWhitespaceAgrees(name.rest);
      if colon.Incomplete? {
        ColonIncomplete(name.rest);
        FieldValueAtEnd();
      } else {
        FieldValueIncomplete(colon.rest);
      }
    }
  }

  lemma ContinuationLineIncomplete(s: string)
    requires ContinuationLine(s, true).Incomplete?
    ensures var r := ContinuationLine(s, false);
      || (r.Parsed? && r.rest == [])
      || (r.Error? && (s == [] || (TrailingCr(s) && InClass(s[0], Spaces))))
  {
    hide FieldValue;
    var n := Span(s, Spaces);
    var indent := TakeWhile1(s, Spaces, true);
    TakeWhile1Agrees(s, Spaces);
    if indent.Incomplete? {
      assert s[..|s|] == s;
      FieldValueAtEnd();
    } else {
      var rest := s[n..];
      FieldValueIncomplete(rest);
      if FieldValue(rest, false).Error? {
        assert s[..|s| - 1] == s[..n] + rest[..|rest| - 1];
        var t := s[..|s| - 1];
        assert AllIn(t, LineChars) by {
          forall i | 0 <= i < |t| ensures InClass(t[i], LineChars) {
            if i < n {
              assert t[i] == s[i];
            } else {
              assert t[i] == rest[..|rest| - 1][i - n];
            }
          }
        }
      }
    }
  }

  lemma CommentLineIncomplete(s: string)
    requires CommentLine(s, true).Incomplete?
    ensures var r := CommentLine(s, false);
      || (r.Parsed? && r.rest == [])
      || (r.Error? && (s == [] || (TrailingCr(s) && s[0] == '#')))
  {
    if s != [] && s[0] == '#' {
      var rest := s[1..];
      NotLineEndingIncomplete(rest);
      if NotLineEnding(rest, false).Error? {
        assert s[..|s| - 1] == [s[0]] + rest[..|rest| - 1];
        var t := s[..|s| - 1];
        assert AllIn(t, LineChars) by {
          forall i | 0 <= i < |t| ensures InClass(t[i], LineChars) {
            if i > 0 {
              assert t[i] == rest[..|rest| - 1][i - 1];
            }
          }
        }
      }
    }
  }

  lemma ContinuationOrCommentIncomplete(s: string)
    requires ContinuationOrComment(s, true).Incomplete?
    ensures var r := ContinuationOrComment(s, false);
      (r.Parsed? && r.rest == []) || (r.Error? && Dead(s))
  {
    hide ContinuationLine, CommentLine;
    ContinuationLineAgrees(s);
    if ContinuationLine(s, true).Incomplete? {
      ContinuationLineIncomplete(s);
      if ContinuationLine(s, false).Error? {
        NotComment(s);
      }
    } else {
      CommentLineIncomplete(s);
    }
  }

  /** Nothing follows a definition line at the end of a complete input. */
  lemma FollowingLinesAtEnd()
    ensures FollowingLines([], false) == Parsed([], [])
  {
    assert ContinuationLine([], false).Error?;
    assert CommentLine([], false).Error?;
  }

  lemma {:induction false} FollowingLinesIncomplete(s: string)
    requires FollowingLines(s, true).Incomplete?
    ensures FollowingLines(s, false).Parsed? && Dead(FollowingLines(s, false).rest)
    decreases |s|
  {
    hide ContinuationOrComment;
    var line := ContinuationOrComment(s, true);
    ContinuationOrCommentAgrees(s);
    if line.Incomplete? {
      ContinuationOrCommentIncomplete(s);
      FollowingLinesAtEnd();
    } else {
      FollowingLinesIncomplete(line.rest);
    }
  }

  // ---------------------------------------------------------------------
  // the assembly

  lemma FieldDefinitionIncomplete(s: string)
    requires ParseFieldDefinition(s, true).Incomplete?
    ensures var r := ParseFieldDefinition(s, false);
      r.Failure? || (r.Error? && Dead(s)) || (r.Parsed? && Dead(r.rest))
  {
    hide FieldDefinitionLine, FollowingLines;
    var def := FieldDefinitionLine(s, true);
    FieldDefinitionLineAgrees(s);
    if def.Incomplete? {
      DefinitionLineIncomplete(s);
      FollowingLinesAtEnd();
    } else {
      FollowingLinesIncomplete(def.rest);
    }
  }

  lemma {:induction false} MoreFieldDefinitionsIncomplete(s: string)
    requires MoreFieldDefinitions(s, true).Incomplete?
    ensures var r := MoreFieldDefinitions(s, false);
      r.Failure? || (r.Parsed? && Dead(r.rest))
    decreases |s|
  {
    hide ParseFieldDefinition;
    var field := ParseFieldDefinition(s, true);
    ParseFieldDefinitionAgrees(s);
    if field.Incomplete? {
      FieldDefinitionIncomplete(s);
      var r := ParseFieldDefinition(s, false);
      if r.Parsed? {
        DeadNoField(r.rest);
      }
    } else {
      MoreFieldDefinitionsIncomplete(field.rest);
    }
  }

  lemma FieldDefinitionsIncomplete(s: string)
    requires FieldDefinitions(s, true).Incomplete?
    ensures var r := FieldDefinitions(s, false);
      r.Failure? || (r.Error? && Dead(s)) || (r.Parsed? && Dead(r.rest))
  {
    hide ParseFieldDefinition, MoreFieldDefinitions;
    var field := ParseFieldDefinition(s, true);
    ParseFieldDefinitionAgrees(s);
    if field.Incomplete? {
      FieldDefinitionIncomplete(s);
      var r := ParseFieldDefinition(s, false);
      if r.Parsed? {
        DeadNoField(r.rest);
      }
    } else {
      MoreFieldDefinitionsIncomplete(field.rest);
    }
  }

  lemma OptFieldDefinitionsIncomplete(s: string)
    requires OptFieldDefinitions(s, true).Incomplete?
    ensures var r := OptFieldDefinitions(s, false);
      r.Failure? || (r.Parsed? && Dead(r.rest))
  {
    hide FieldDefinitions;
    FieldDefinitionsIncomplete(s);
  }

  lemma BlankLineIncomplete(s: string)
    requires BlankLine(s, true).Incomplete?
    ensures BlankLine(s, false).Error? && Dead(s) && (s == [] || s[0] != '#')
  {
    var n := Span(s, Spaces);
    if n == |s| {
      assert s[..n] == s && s[n..] == [];
      assert TakeWhile0(s, Spaces, false) == Parsed([], s);
      assert LineEnding([], false).Error?;
    } else {
      assert TakeWhile0(s, Spaces, true) == Parsed(s[n..], s[..n]);
      assert LineEnding(s[n..], true).Incomplete?;
      assert s[n..] == "\r" by {
        assert |s[n..]| == 1 && s[n..][0] == '\r';
      }
      assert TakeWhile0(s, Spaces, false) == Parsed(s[n..], s[..n]);
      assert LineEnding(s[n..], false).Error?;
      assert s[..|s| - 1] == s[..n];
      assert AllIn(s[..n], LineChars);
    }
  }

  lemma TerminatorIncomplete(x: string)
    requires Terminator(x, true).Incomplete?
    ensures Terminator(x, false).Parsed? ==> x == [] && Terminator(x, false).rest == []
  {
    hide BlankLine;
    BlankLineIncomplete(x);
  }

  lemma ParagraphBodyIncomplete(s: string)
    requires ParagraphBody(s, true).Incomplete?
    ensures ParagraphBody(s, false).Parsed? ==> ParagraphBody(s, false).rest == []
  {
    hide OptFieldDefinitions, Terminator;
    var body := OptFieldDefinitions(s, true);
    OptFieldDefinitionsAgrees(s);
    if body.Incomplete? {
      OptFieldDefinitionsIncomplete(s);
      var r := OptFieldDefinitions(s, false);
      if r.Parsed? {
        DeadTerminator(r.rest);
      }
    } else {
      TerminatorIncomplete(body.rest);
    }
  }

  lemma BlankOrCommentIncomplete(s: string)
    requires BlankOrComment(s, true).Incomplete?
    ensures var r := BlankOrComment(s, false);
      (r.Parsed? && r.rest == []) || (r.Error? && Dead(s))
  {
    hide BlankLine, CommentLine;
    BlankLineAgrees(s);
    if BlankLine(s, true).Incomplete? {
      BlankLineIncomplete(s);
      NotComment(s);
    } else {
      CommentLineIncomplete(s);
    }
  }

  /** Nothing is skipped at the end of a complete input. */
  lemma SkipAtEnd()
    ensures SkipBlanksAndComments([], false) == Parsed([], ())
  {
    assert BlankLine([], false).Error?;
    assert CommentLine([], false).Error?;
  }

  lemma {:induction false} SkipIncompleteLeavesDead(s: string)
    requires SkipBlanksAndComments(s, true).Incomplete?
    ensures SkipBlanksAndComments(s, false).Parsed? && Dead(SkipBlanksAndComments(s, false).rest)
    decreases |s|
  {
    hide BlankOrComment;
    var line := BlankOrComment(s, true);
    BlankOrCommentAgrees(s);
    if line.Incomplete? {
      BlankOrCommentIncomplete(s);
      SkipAtEnd();
    } else {
      SkipIncompleteLeavesDead(line.rest);
    }
  }

  /**
   * Where the streaming `paragraph` asks for more input, the complete one
   * either reports an error or consumes the whole input.
   */
  lemma ParagraphIncomplete(s: string)
    requires ParseParagraph(s, true).Incomplete?
    ensures ParseParagraph(s, false).Parsed? ==> ParseParagraph(s, false).rest == []
  {
    hide SkipBlanksAndComments, ParagraphBody;
    ParagraphSteps(s, true);
    ParagraphSteps(s, false);
    var skipped := SkipBlanksAndComments(s, true);
    SkipBlanksAndCommentsAgrees(s);
    if skipped.Incomplete? {
      SkipIncompleteLeavesDead(s);
      DeadBody(SkipBlanksAndComments(s, false).rest);
    } else {
      ParagraphBodyIncomplete(skipped.rest);
    }
  }
}
