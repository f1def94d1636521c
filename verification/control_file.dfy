/**
 * The crate's entry points over the two instances of `paragraph`:
 * `parse_streaming` (one paragraph, or a request for more input),
 * `parse_finish` (one paragraph of an input known to be complete) and
 * `parse_complete` (every paragraph of a complete input). Their bodies live
 * in the crate root and are not part of this model; they are defined here
 * as the thin wrappers the adapters and the tests use them as.
 */
module ControlFile {
  import opened Wrappers
  import opened Fields
  import opened Grammar
  import opened GrammarFacts
  import opened ParagraphFacts
  import CompletionFacts

  /** The crate's `Streaming`: a parsed item, or a request for more input. */
  datatype Streaming<T> = Item(item: T) | Incomplete

  /** A syntax error, as a tag: the position and nom's error kind are not modelled. */
  datatype SyntaxError = SyntaxError

  /**
   * `parse_streaming`: the next paragraph and the unconsumed rest, or a
   * request for more input, or a syntax error.
   */
  function ParseStreaming(s: string): (r: Result<Streaming<(string, Paragraph)>, SyntaxError>)
    ensures r.Ok? && r.value.Item? ==>
      var (rest, paragraph) := r.value.item;
      IsSuffix(rest, s) && |rest| < |s| && |paragraph.fields| >= 1
  {
    var p := ParseParagraph(s, true);
    if p.Incomplete? then Ok(Streaming.Incomplete)
    else if !p.Parsed? then Err(SyntaxError)
    else
      StreamingNeverNone(s);
      ParagraphFound(s, true);
      Ok(Item((p.rest, p.out.value)))
  }

  /** `parse_finish`: the first paragraph of a complete input, if there is one; the rest is dropped. */
  function ParseFinish(s: string): (r: Result<Option<Paragraph>, SyntaxError>)
    ensures r.Ok? && r.value.Some? ==> s != [] && |r.value.value.fields| >= 1
  {
    var p := ParseParagraph(s, false);
    if p.Parsed? then
      (if p.out.Some? then ParagraphFound(s, false); Ok(p.out) else Ok(None))
    else Err(SyntaxError)
  }

  /** Every paragraph holds at least one field. */
  predicate NoEmptyParagraph(ps: seq<Paragraph>) {
    forall i :: 0 <= i < |ps| ==> |ps[i].fields| >= 1
  }

  /**
   * `parse_complete`: the complete instance of `paragraph`, repeated on the
   * rest until it finds no paragraph; the first syntax error ends it.
   */
  function ParseComplete(s: string): (r: Result<seq<Paragraph>, SyntaxError>)
    ensures r.Ok? ==> NoEmptyParagraph(r.value)
    decreases |s|
  {
    var p := ParseParagraph(s, false);
    if !p.Parsed? then Err(SyntaxError)
    else if p.out.None? then Ok([])
    else
      ParagraphFound(s, false);
      var more := ParseComplete(p.rest);
      if more.Err? then more else
      Ok([p.out.value] + more.value)
  }

  // ---------------------------------------------------------------------

  /**
   * A paragraph `parse_streaming` returns is final: for any continuation of
   * the input, `parse_finish` returns the same paragraph and `parse_complete`
   * starts with it, going on where `parse_streaming` left off.
   */
  lemma ItemIsFinal(s: string, t: string, rest: string, paragraph: Paragraph)
    requires ParseStreaming(s) == Ok(Item((rest, paragraph)))
    ensures ParseFinish(s + t) == Ok(Some(paragraph))
    ensures ParseComplete(s + t) == (match ParseComplete(rest + t)
          case Ok(ps) => Ok([paragraph] + ps)
          case Err(e) => Err(e))
  {
    StreamingItem(s, rest, paragraph);
    StreamingItemIsFinal(s, t);
    AfterParagraph(s + t, rest + t, paragraph);
  }

  /** A syntax error of `parse_streaming` is one of both complete entry points too. */
  lemma ErrorIsFinal(s: string)
    requires ParseStreaming(s).Err?
    ensures ParseFinish(s) == Err(SyntaxError) && ParseComplete(s) == Err(SyntaxError)
  {
    StreamingOfParagraph(s);
    ParseParagraphAgrees(s);
  }

  /**
   * Once `parse_streaming` has decided, more input changes nothing: a
   * paragraph stays the same paragraph (its rest grows by the new input) and
   * a syntax error stays a syntax error.
   */
  lemma StreamingDecided(s: string, t: string)
    requires ParseStreaming(s) != Ok(Streaming.Incomplete)
    ensures ParseStreaming(s + t) == match ParseStreaming(s)
      case Ok(Item((rest, paragraph))) => Ok(Item((rest + t, paragraph)))
      case r => r
  {
    ParseParagraphStable(s, t);
    var p := ParseParagraph(s, true);
    StreamingOfParagraph(s);
    StreamingOfParagraph(s + t);
    if p.Parsed? {
      StreamingNeverNone(s);
    }
  }

  /** `parse_streaming` reports what the streaming instance of `paragraph` found. */
  lemma StreamingOfParagraph(s: string)
    ensures var p := ParseParagraph(s, true);
      && (p.Incomplete? ==> ParseStreaming(s) == Ok(Streaming.Incomplete))
      && (p.Error? || p.Failure? ==> ParseStreaming(s) == Err(SyntaxError))
      && (p.Parsed? ==> p.out.Some? && ParseStreaming(s) == Ok(Item((p.rest, p.out.value))))
  {
    StreamingNeverNone(s);
  }

  /** An item of `parse_streaming` is a paragraph of the streaming instance. */
  lemma StreamingItem(s: string, rest: string, paragraph: Paragraph)
    requires ParseStreaming(s) == Ok(Item((rest, paragraph)))
    ensures ParseParagraph(s, true) == Parsed(rest, Some(paragraph))
  {
    var p := ParseParagraph(s, true);
    assert p.Parsed? && !p.Incomplete?;
    StreamingNeverNone(s);
    assert p.out.Some?;
    assert ParseStreaming(s) == Ok(Item((p.rest, p.out.value)));
  }

  /** Both complete entry points start with the paragraph the complete instance finds. */
  lemma AfterParagraph(s: string, rest: string, paragraph: Paragraph)
    requires ParseParagraph(s, false) == Parsed(rest, Some(paragraph))
    ensures ParseFinish(s) == Ok(Some(paragraph))
    ensures ParseComplete(s) == (match ParseComplete(rest)
          case Ok(ps) => Ok([paragraph] + ps)
          case Err(e) => Err(e))
  {
  }

  /** `parse_finish` finds no paragraph exactly when the input is only blank and comment lines. */
  lemma FinishNoneIffOnlyBlankAndComments(s: string)
    ensures ParseFinish(s) == Ok(None) <==> SkipBlanksAndComments(s, false) == Parsed([], ())
  {
    hide ParseParagraph, SkipBlanksAndComments, ParagraphBody, OptFieldDefinitions, Terminator;
    if SkipBlanksAndComments(s, false) == Parsed([], ()) {
      OnlyBlankAndCommentLines(s);
    }
    if ParseFinish(s) == Ok(None) {
      CompleteNoneOnlyAtEnd(s);
      ParagraphSteps(s, false);
      var skipped := SkipBlanksAndComments(s, false);
      assert skipped.Parsed?;
      BodyParts(skipped.rest, false);
      var fields := OptFieldDefinitions(skipped.rest, false);
      NoFieldsConsumeNothing(skipped.rest, false);
      assert fields.rest == skipped.rest;
      SkipBlanksAndCommentsStops(s, false);
      TerminatorAtEnd(skipped.rest, false);
      assert skipped.rest == [];
      assert skipped.out == ();
    }
  }

  /** `parse_complete` starts with what `parse_finish` returns, and is empty exactly when that is None. */
  lemma CompleteStartsWithFinish(s: string)
    requires ParseComplete(s).Ok?
    ensures var ps := ParseComplete(s).value;
      ParseFinish(s) == Ok(if ps == [] then None else Some(ps[0]))
  {
    var p := ParseParagraph(s, false);
    if p.out.Some? {
      AfterParagraph(s, p.rest, p.out.value);
    }
  }

  /** Input of only blank and comment lines holds no paragraph. */
  lemma OnlyBlankAndCommentsHoldNothing(s: string)
    requires SkipBlanksAndComments(s, false) == Parsed([], ())
    ensures ParseComplete(s) == Ok([])
    ensures ParseStreaming(s) == Ok(Streaming.Incomplete)
  {
    OnlyBlankAndCommentLines(s);
  }

  /**
   * Where `parse_streaming` asks for more input, there is at most one
   * paragraph left: `parse_complete` of that input is what `parse_finish`
   * returns, as a list of at most one paragraph.
   */
  lemma IncompleteLeavesAtMostOne(s: string)
    requires ParseStreaming(s) == Ok(Streaming.Incomplete)
    ensures ParseComplete(s) == match ParseFinish(s)
      case Ok(None) => Ok([])
      case Ok(Some(paragraph)) => Ok([paragraph])
      case Err(e) => Err(e)
  {
    hide ParseParagraph, ParseStreaming;
    StreamingOfParagraph(s);
    assert ParseParagraph(s, true).Incomplete?;
    CompletionFacts.ParagraphIncomplete(s);
    EmptyInput();
    var p := ParseParagraph(s, false);
    if p.Parsed? && p.out.Some? {
      AfterParagraph(s, p.rest, p.out.value);
      assert ParseComplete(p.rest) == Ok([]);
      assert [p.out.value] + [] == [p.out.value];
    }
  }
}
