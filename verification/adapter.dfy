/**
 * What one call of `BufParse::try_next` (src/buf_parse.rs) or of its older
 * twin `Parser::parse` (src/stream_parser.rs) does with the pending bytes
 * `buffer[pos..]`, as a function: the answer it returns and how many bytes
 * it moves `pos` by. Both classes are proved to follow it.
 *
 * `Drain` repeats that step on bytes of which no more will come; it is the
 * reference a whole run of the adapter is compared with, whatever the size
 * of the chunks the input arrived in.
 */
module Adapter {
  import opened Wrappers
  import opened Utf8
  import opened Fields
  import opened Grammar
  import opened ControlFile
  import ParagraphFacts
  import ByteSource

  /**
   * `BufParseError`; `ParserError` of the older adapter has the same two
   * cases and is modelled by the same type.
   */
  datatype BufParseError = InvalidUtf8(utf8: Utf8Error) | InvalidSyntax(syntax: SyntaxError)

  /** What a call answers, and by how many bytes it moves the read cursor. */
  datatype Outcome = Outcome(answer: Result<Option<Streaming<Paragraph>>, BufParseError>, consumed: nat)

  /** The answer carries a paragraph. */
  predicate IsItem(o: Outcome) {
    o.answer.Ok? && o.answer.value.Some? && o.answer.value.value.Item?
  }

  /**
   * One call on the pending bytes. The longest valid UTF-8 prefix goes to
   * `parse_streaming`; a paragraph moves the cursor by its byte length. When
   * that asks for more and the source is exhausted, the pending bytes must
   * be valid UTF-8 as a whole and go to `parse_finish`, and the cursor moves
   * to the end. Errors never move the cursor.
   */
  function Step(pending: seq<byte>, exhausted: bool): (o: Outcome)
    ensures o.consumed <= |pending|
    ensures o.answer.Err? ==> o.consumed == 0
    ensures IsItem(o) ==> 0 < o.consumed && |o.answer.value.value.item.fields| >= 1
    ensures o.answer == Ok(Some(Streaming.Incomplete)) ==> !exhausted && o.consumed == 0
    ensures o.answer == Ok(None) ==> exhausted && o.consumed == |pending|
    ensures o.answer.Err? && o.answer.error.InvalidUtf8? ==> exhausted && !WellFormed(pending)
  {
    hide *;
    var input := FromUtf8Lenient(pending).value;
    match ParseStreaming(input)
    case Err(e) => Outcome(Err(InvalidSyntax(e)), 0)
    case Ok(Item((rest, paragraph))) =>
      SuffixIsTail(rest, input);
      SuffixUtf8Length(input, rest);
      Outcome(Ok(Some(Item(paragraph))), Utf8Length(input) - Utf8Length(rest))
    case Ok(_) =>
      if !exhausted then Outcome(Ok(Some(Streaming.Incomplete)), 0)
      else match FromUtf8(pending)
        case Err(e) => Outcome(Err(InvalidUtf8(e)), 0)
        case Ok(whole) =>
          match ParseFinish(whole)
          case Err(e) => Outcome(Err(InvalidSyntax(e)), 0)
          case Ok(None) => Outcome(Ok(None), Utf8Length(whole))
          case Ok(Some(paragraph)) =>
            Outcome(Ok(Some(Item(paragraph))), Utf8Length(whole))
  }

  /**
   * Once `parse_streaming` has decided on the valid prefix of the pending
   * bytes, neither more bytes nor the end of the source change the step:
   * same answer, same number of bytes consumed.
   */
  lemma StepDecided(pending: seq<byte>, t: seq<byte>, exhausted: bool, exhausted': bool)
    requires ParseStreaming(Decoded(pending)) != Ok(Streaming.Incomplete)
    ensures Step(pending + t, exhausted') == Step(pending, exhausted)
  {
    hide DecodeFirst, Grammar.ParseParagraph;
    var input := Decoded(pending);
    var more := Decoded(pending[ValidLen(pending)..] + t);
    DecodedAppend(pending, t);
    StreamingDecided(input, more);
    if ParseStreaming(input).Ok? {
      var rest := ParseStreaming(input).value.item.0;
      Utf8LengthAppend(input, more);
      Utf8LengthAppend(rest, more);
    }
  }

  /** Before any input has arrived, a call asks for more. */
  lemma FreshBufferIsIncomplete()
    ensures Step([], false) == Outcome(Ok(Some(Streaming.Incomplete)), 0)
  {
    ParagraphFacts.EmptyInput();
    StreamingOfParagraph([]);
  }

  /** With nothing pending and the source exhausted, a call answers None and keeps doing so. */
  lemma ExhaustedEmptyIsNone()
    ensures Step([], true) == Outcome(Ok(None), 0)
  {
    ParagraphFacts.EmptyInput();
    StreamingOfParagraph([]);
    assert FromUtf8([]) == Ok([]);
  }

  /**
   * Once a call has answered None, everything pending is consumed, and every
   * later call answers None again without moving the cursor.
   */
  lemma NoneRepeats(pending: seq<byte>)
    requires Step(pending, true).answer == Ok(None)
    ensures var o := Step(pending, true);
      Step(pending[o.consumed..], true) == Outcome(Ok(None), 0)
  {
    var o := Step(pending, true);
    assert pending[o.consumed..] == [];
    ExhaustedEmptyIsNone();
  }

  /**
   * An error does not move the cursor, so the next call sees the same
   * pending bytes and answers the same error; an invalid UTF-8 error is
   * only ever reported once the source is exhausted.
   */
  lemma ErrorRepeats(pending: seq<byte>, exhausted: bool)
    requires Step(pending, exhausted).answer.Err?
    ensures var o := Step(pending, exhausted);
      o.consumed == 0 && Step(pending[o.consumed..], exhausted) == o
    ensures Step(pending, exhausted).answer.error.InvalidUtf8? ==> exhausted
  {
    var o := Step(pending, exhausted);
    assert pending[o.consumed..] == pending;
  }

  // ---------------------------------------------------------------------
  // the reference run

  /** The paragraphs a run yields, and the error that ended it, if any. */
  datatype Run = Run(paragraphs: seq<Paragraph>, error: Option<BufParseError>)

  /** The paragraphs `ps`, then the run `run`. */
  function Prepend(ps: seq<Paragraph>, run: Run): (r: Run)
    ensures |r.paragraphs| == |ps| + |run.paragraphs|
    ensures r.paragraphs[..|ps|] == ps && r.paragraphs[|ps|..] == run.paragraphs
    ensures r.error == run.error
  {
    Run(ps + run.paragraphs, run.error)
  }

  /**
   * Calls repeated on bytes of which no more will come, until one answers
   * None or an error. Every paragraph takes at least one byte, so there are
   * no more paragraphs than bytes, and none of them is empty.
   */
  function Drain(pending: seq<byte>): (run: Run)
    ensures |run.paragraphs| <= |pending|
    ensures NoEmptyParagraph(run.paragraphs)
    decreases |pending|
  {
    hide Step;
    var o := Step(pending, true);
    match o.answer
    case Err(e) => Run([], Some(e))
    case Ok(None) => Run([], None)
    case Ok(Some(Item(paragraph))) => Prepend([paragraph], Drain(pending[o.consumed..]))
  }

  /** Nothing pending and nothing to come: no paragraph and no error. */
  lemma DrainEmpty()
    ensures Drain([]) == Run([], None)
  {
    ExhaustedEmptyIsNone();
  }

  /**
   * `run` is what `from_utf8` followed by `parse_complete` makes of `input`:
   * on valid UTF-8, the paragraphs of `parse_complete` of the decoded text,
   * or the syntax error it reports; on anything else, some error.
   */
  predicate IsParseComplete(input: seq<byte>, run: Run) {
    match FromUtf8(input)
    case Err(_) => run.error.Some?
    case Ok(s) => match ParseComplete(s)
      case Ok(ps) => run == Run(ps, None)
      case Err(e) => run.error == Some(InvalidSyntax(e))
  }

  /**
   * The first step of the reference run, by what `parse_streaming` makes of
   * the valid prefix of the input: a syntax error ends the run, a paragraph
   * is followed by the run on the bytes after it, and a request for more
   * leaves the whole input to `from_utf8` and `parse_finish`.
   */
  lemma DrainFirst(input: seq<byte>)
    ensures var s := Decoded(input);
      Drain(input) == match ParseStreaming(s)
        case Err(e) => Run([], Some(InvalidSyntax(e)))
        case Ok(Item((rest, paragraph))) =>
          Prepend([paragraph], Drain(input[Utf8Length(s) - Utf8Length(rest)..]))
        case Ok(Incomplete) => match FromUtf8(input)
          case Err(e) => Run([], Some(InvalidUtf8(e)))
          case Ok(_) => match ParseFinish(s)
            case Err(e) => Run([], Some(InvalidSyntax(e)))
            case Ok(None) => Run([], None)
            case Ok(Some(paragraph)) => Run([paragraph], None)
  {
    hide Step, ParseStreaming, FromUtf8, ParseFinish, Decoded, Utf8Length;
    StepOnWhole(input);
    DrainEmpty();
    assert input[|input|..] == [];
  }

  /** The step on bytes of which no more will come, by what `parse_streaming` makes of their valid prefix. */
  lemma StepOnWhole(input: seq<byte>)
    ensures var s := Decoded(input);
      Step(input, true) == match ParseStreaming(s)
        case Err(e) => Outcome(Err(InvalidSyntax(e)), 0)
        case Ok(Item((rest, paragraph))) =>
          Outcome(Ok(Some(Item(paragraph))), Utf8Length(s) - Utf8Length(rest))
        case Ok(Incomplete) => match FromUtf8(input)
          case Err(e) => Outcome(Err(InvalidUtf8(e)), 0)
          case Ok(_) => match ParseFinish(s)
            case Err(e) => Outcome(Err(InvalidSyntax(e)), 0)
            case Ok(None) => Outcome(Ok(None), |input|)
            case Ok(Some(paragraph)) => Outcome(Ok(Some(Item(paragraph))), |input|)
  {
    hide Grammar.ParseParagraph, ParseFinish, ParseComplete, DecodeFirst, Decoded, ValidLen;
    assert FromUtf8(input).Ok? ==> FromUtf8(input).value == Decoded(input);
  }

  /**
   * The reference run is `from_utf8` followed by `parse_complete`, and stops
   * at an error on input that is not valid UTF-8.
   */
  lemma {:induction false} DrainIsParseComplete(input: seq<byte>)
    ensures IsParseComplete(input, Drain(input))
    decreases |input|
  {
    hide Step, Drain, ParseStreaming, ParseComplete, ParseFinish, Grammar.ParseParagraph, DecodeFirst;
    var s := Decoded(input);
    assert FromUtf8(input).Ok? ==> FromUtf8(input).value == s;
    DrainFirst(input);
    match ParseStreaming(s)
    case Err(e) =>
      ErrorIsFinal(s);
      assert e == SyntaxError && ParseStreaming(s) == Err(e);
    case Ok(Item((rest, paragraph))) =>
      DrainAfterItem(input, rest, paragraph);
    case Ok(Incomplete) =>
      if FromUtf8(input).Ok? {
        IncompleteLeavesAtMostOne(s);
      }
  }

  /** The inductive step of `DrainIsParseComplete`: a paragraph, then the run on the bytes after it. */
  lemma {:induction false} DrainAfterItem(input: seq<byte>, rest: string, paragraph: Paragraph)
    requires ParseStreaming(Decoded(input)) == Ok(Item((rest, paragraph)))
    ensures IsParseComplete(input, Drain(input))
    decreases |input|, 0
  {
    hide Step, Drain, ParseStreaming, ParseComplete, ParseFinish, Grammar.ParseParagraph;
    var s := Decoded(input);
    assert s + [] == s && rest + [] == rest;
    ItemIsFinal(s, [], rest, paragraph);
    DrainFirst(input);
    BytesAfterItem(input, rest);
    hide FromUtf8, Decoded, Utf8Length, DecodeFirst, WellFormed, ValidLen, NoEmptyParagraph;
    DrainIsParseComplete(input[Utf8Length(s) - Utf8Length(rest)..]);
  }

  /**
   * The bytes after a paragraph decode to the text after it, and are valid
   * UTF-8 exactly when the whole input is.
   */
  lemma BytesAfterItem(input: seq<byte>, rest: string)
    requires IsSuffix(rest, Decoded(input))
    ensures var s := Decoded(input);
      var n := Utf8Length(s) - Utf8Length(rest);
      && 0 <= n <= |input|
      && (FromUtf8(input).Ok? ==> FromUtf8(input).value == s)
      && (FromUtf8(input[n..]).Ok? <==> FromUtf8(input).Ok?)
      && (FromUtf8(input[n..]).Ok? ==> FromUtf8(input[n..]).value == rest)
  {
    hide *;
    var s := Decoded(input);
    SuffixIsTail(rest, s);
    var u := s[..|s| - |rest|];
    assert s == u + rest;
    Utf8LengthAppend(u, rest);
    DecodedSplit(input, u, rest);
  }

  /**
   * The step a driver takes on the pending bytes, followed by a reference run
   * on everything after them, is the reference run on the pending bytes and
   * everything after them; before the end of the source, more bytes may
   * still follow (`later`), after it none do.
   */
  lemma DrainAfterStep(pending: seq<byte>, later: seq<byte>, exhausted: bool)
    requires exhausted ==> later == []
    requires Step(pending, exhausted).answer != Ok(Some(Streaming.Incomplete))
    ensures var o := Step(pending, exhausted);
      Drain(pending + later) == match o.answer
        case Err(e) => Run([], Some(e))
        case Ok(None) => Run([], None)
        case Ok(Some(Item(paragraph))) => Prepend([paragraph], Drain(pending[o.consumed..] + later))
  {
    assert !exhausted ==> ParseStreaming(Decoded(pending)) != Ok(Streaming.Incomplete);
    hide *;
    var o := Step(pending, exhausted);
    if !exhausted {
      StepDecided(pending, later, false, true);
    } else {
      assert pending + later == pending;
    }
    assert o.consumed <= |pending|;
    DrainOnSteps(pending, later, o);
  }

  lemma DrainOnSteps(pending: seq<byte>, later: seq<byte>, o: Outcome)
    requires Step(pending + later, true) == o && o.consumed <= |pending|
    ensures Drain(pending + later) == match o.answer
        case Err(e) => Run([], Some(e))
        case Ok(None) => Run([], None)
        case Ok(Some(Item(paragraph))) => Prepend([paragraph], Drain(pending[o.consumed..] + later))
  {
    hide Step;
    assert (pending + later)[o.consumed..] == pending[o.consumed..] + later;
  }

  /**
   * One call inside a driving loop that has yielded `ps` so far and whose
   * remaining run is the rest of the reference run on the whole input: the
   * call either ends the run as the reference does, or yields the next
   * paragraph of the reference run and leaves the rest to come.
   */
  lemma DriverStep(input: seq<byte>, ps: seq<Paragraph>, pending: seq<byte>, later: seq<byte>, exhausted: bool)
    requires exhausted ==> later == []
    requires Prepend(ps, Drain(pending + later)) == Drain(input)
    requires Step(pending, exhausted).answer != Ok(Some(Streaming.Incomplete))
    ensures var o := Step(pending, exhausted);
      match o.answer
      case Err(e) => Run(ps, Some(e)) == Drain(input)
      case Ok(None) => Run(ps, None) == Drain(input)
      case Ok(Some(Item(paragraph))) =>
        Prepend(ps + [paragraph], Drain(pending[o.consumed..] + later)) == Drain(input)
  {
    hide Step, Drain;
    var o := Step(pending, exhausted);
    DrainAfterStep(pending, later, exhausted);
    match o.answer
    case Err(e) =>
      assert ps + [] == ps;
    case Ok(None) =>
      assert ps + [] == ps;
    case Ok(Some(Item(paragraph))) =>
      var after := Drain(pending[o.consumed..] + later);
      assert ps + [paragraph] + after.paragraphs == ps + ([paragraph] + after.paragraphs);
  }

  // ---------------------------------------------------------------------
  // the driving loop of both test modules

  /**
   * Where a driving loop over `input` read in chunks of `chunkSize` bytes
   * stands: it has yielded `ps`, holds `pending` bytes and has `later` bytes
   * still to read. While it runs, what it has yielded followed by the
   * reference run on everything it has not parsed yet is the reference run
   * on the whole input; once done, it is that run. Chunks of zero bytes
   * never carry anything, and such a loop never yields anything.
   */
  ghost predicate FollowsDrain(input: seq<byte>, chunkSize: nat, ps: seq<Paragraph>,
    error: Option<BufParseError>, done: bool, pending: seq<byte>, later: seq<byte>, exhausted: bool)
  {
    && (!done ==> error == None)
    && (chunkSize > 0 && exhausted ==> later == [])
    && (chunkSize > 0 && !done ==> Prepend(ps, Drain(pending + later)) == Drain(input))
    && (chunkSize > 0 && done ==> Run(ps, error) == Drain(input))
    && (chunkSize == 0 ==> pending == [] && ps == [] && error == None)
  }

  /** A fresh loop: nothing buffered, nothing yielded, the whole input to read. */
  lemma FollowsDrainAtStart(input: seq<byte>, chunkSize: nat)
    ensures FollowsDrain(input, chunkSize, [], None, false, [], input, false)
  {
    hide Step, Drain;
    assert [] + input == input;
    assert Prepend([], Drain(input)).paragraphs == Drain(input).paragraphs;
  }

  /** A finished loop has produced the reference run, or nothing for chunks of zero bytes. */
  lemma FollowsDrainAtEnd(input: seq<byte>, chunkSize: nat, ps: seq<Paragraph>,
    error: Option<BufParseError>, pending: seq<byte>, later: seq<byte>, exhausted: bool)
    requires FollowsDrain(input, chunkSize, ps, error, true, pending, later, exhausted)
    ensures chunkSize > 0 ==> Run(ps, error) == Drain(input)
    ensures chunkSize == 0 ==> Run(ps, error) == Run([], None)
  {
    hide Step, Drain;
  }

  /**
   * A call of the parser keeps the loop on track: an error or None ends it
   * as the reference run ends, a paragraph is the reference run's next one,
   * and a request for more comes only before the end of the source and
   * consumes nothing.
   */
  lemma FollowsDrainAfterCall(input: seq<byte>, chunkSize: nat, ps: seq<Paragraph>,
    pending: seq<byte>, later: seq<byte>, exhausted: bool, o: Outcome)
    requires FollowsDrain(input, chunkSize, ps, None, false, pending, later, exhausted)
    requires Step(pending, exhausted) == o
    ensures o.consumed <= |pending|
    ensures match o.answer
      case Err(e) => FollowsDrain(input, chunkSize, ps, Some(e), true, pending[o.consumed..], later, exhausted)
      case Ok(None) => FollowsDrain(input, chunkSize, ps, None, true, pending[o.consumed..], later, exhausted)
      case Ok(Some(Item(paragraph))) =>
        0 < o.consumed &&
        FollowsDrain(input, chunkSize, ps + [paragraph], None, false, pending[o.consumed..], later, exhausted)
      case Ok(Some(Incomplete)) => !exhausted && o.consumed == 0
  {
    hide Step, Drain;
    if chunkSize == 0 {
      if exhausted { ExhaustedEmptyIsNone(); } else { FreshBufferIsIncomplete(); }
    } else if o.answer != Ok(Some(Streaming.Incomplete)) {
      DriverStep(input, ps, pending, later, exhausted);
    }
  }

  /**
   * Reading a chunk after a request for more keeps the loop on track: the
   * bytes move from the source to the pending ones in order, and a read of
   * nothing marks the source exhausted.
   */
  lemma FollowsDrainAfterRead(input: seq<byte>, chunkSize: nat, ps: seq<Paragraph>,
    pending: seq<byte>, later: seq<byte>, n: nat)
    requires FollowsDrain(input, chunkSize, ps, None, false, pending, later, false)
    requires n == ByteSource.Min(|later|, chunkSize)
    ensures FollowsDrain(input, chunkSize, ps, None, false, pending + later[..n], later[n..], n == 0)
  {
    hide Step, Drain;
    assert pending + later[..n] + later[n..] == pending + later;
  }
}
