/**
 * The line grammar of src/parser.rs. The crate instantiates one macro twice,
 * as a `streaming` and a `complete` parser set; here every parser is one
 * function whose `streaming` flag selects the instance. The only difference
 * between the instances is what a primitive does when it runs into the end
 * of its input: in streaming mode it answers `Incomplete` (more input might
 * change the answer), in complete mode the end of input is final.
 */
module Grammar {
  import opened Wrappers
  import opened Fields

  /**
   * What a nom parser returns: success with the unconsumed suffix and an
   * output, or one of nom's three failure kinds. `Error` is recoverable
   * (alternatives and repetitions backtrack over it), `Failure` is not
   * (it is what `cut` turns an `Error` into), `Incomplete` asks for more input.
   */
  datatype PResult<T> = Parsed(rest: string, out: T) | Incomplete | Error | Failure
  {
    /** The same failure, re-typed for the enclosing parser. */
    function Propagate<U>(): PResult<U>
      requires !Parsed?
    {
      match this
      case Incomplete => Incomplete
      case Error => Error
      case Failure => Failure
    }
  }

  /** `rest` is a suffix of `s`: what is left after a prefix was consumed. */
  predicate IsSuffix(rest: string, s: string)
    decreases |s|
  {
    if |rest| >= |s| then rest == s else IsSuffix(rest, s[1..])
  }

  /** Dropping the first `n` characters leaves a suffix. */
  lemma {:induction false} DropIsSuffix(s: string, n: nat)
    requires n <= |s|
    ensures IsSuffix(s[n..], s)
    decreases n
  {
    if n > 0 {
      assert s[1..][n - 1..] == s[n..];
      DropIsSuffix(s[1..], n - 1);
    }
  }

  /** A suffix is no longer than the string, and is its tail. */
  lemma {:induction false} SuffixIsTail(rest: string, s: string)
    requires IsSuffix(rest, s)
    ensures |rest| <= |s| && s[|s| - |rest|..] == rest
    decreases |s|
  {
    if |rest| < |s| {
      SuffixIsTail(rest, s[1..]);
      assert s[1..][|s| - 1 - |rest|..] == s[|s| - |rest|..];
    }
  }

  lemma {:induction false} SuffixTrans(a: string, b: string, c: string)
    requires IsSuffix(a, b) && IsSuffix(b, c)
    ensures IsSuffix(a, c)
    decreases |c|
  {
    SuffixIsTail(a, b);
    SuffixIsTail(b, c);
    if |b| < |c| {
      SuffixTrans(a, b, c[1..]);
    }
  }

  /** What every parser promises: it only consumes, and complete mode never says Incomplete. */
  predicate Keeps<T>(s: string, streaming: bool, r: PResult<T>) {
    (r.Parsed? ==> |r.rest| <= |s| && IsSuffix(r.rest, s)) && (!streaming ==> !r.Incomplete?)
  }

  /** On success, at least one character was consumed. */
  predicate Consumes<T>(s: string, r: PResult<T>) {
    r.Parsed? ==> |r.rest| < |s|
  }

  // ---------------------------------------------------------------------
  // nom primitives

  /** The character classes the primitives scan for. */
  datatype CharClass = NameChars | Spaces | LineChars

  predicate InClass(c: char, k: CharClass) {
    match k
    case NameChars => IsFieldNameChar(c)
    case Spaces => c == ' ' || c == '\t'
    case LineChars => c != '\r' && c != '\n'
  }

  /** Length of the longest prefix of `s` whose characters are all in class `k`. */
  function Span(s: string, k: CharClass): (n: nat)
    ensures n <= |s|
    ensures forall i :: 0 <= i < n ==> InClass(s[i], k)
    ensures n < |s| ==> !InClass(s[n], k)
  {
    if s == [] || !InClass(s[0], k) then 0 else 1 + Span(s[1..], k)
  }

  /** `take_while` / `space0`: zero or more characters of class `k`. */
  function TakeWhile0(s: string, k: CharClass, streaming: bool): (r: PResult<string>)
    ensures Keeps(s, streaming, r)
    ensures r.Parsed? ==> s == r.out + r.rest && r.out == s[..Span(s, k)]
  {
    var n := Span(s, k);
    DropIsSuffix(s, n);
    if n == |s| && streaming then Incomplete else Parsed(s[n..], s[..n])
  }

  /** `take_while1` / `space1`: one or more characters of class `k`. */
  function TakeWhile1(s: string, k: CharClass, streaming: bool): (r: PResult<string>)
    ensures Keeps(s, streaming, r) && Consumes(s, r)
    ensures r.Parsed? ==> s == r.out + r.rest && r.out == s[..Span(s, k)]
  {
    var n := Span(s, k);
    DropIsSuffix(s, n);
    if n == |s| && streaming then Incomplete
    else if n == 0 then Error
    else Parsed(s[n..], s[..n])
  }

  /** `char(c)`. */
  function Char(s: string, c: char, streaming: bool): (r: PResult<()>)
    ensures Keeps(s, streaming, r) && Consumes(s, r)
    ensures r.Parsed? ==> s == [c] + r.rest
  {
    if s == [] then (if streaming then Incomplete else Error)
    else if s[0] == c then DropIsSuffix(s, 1); Parsed(s[1..], ())
    else Error
  }

  /** `line_ending`: "\n" or "\r\n". */
  function LineEnding(s: string, streaming: bool): (r: PResult<()>)
    ensures Keeps(s, streaming, r) && Consumes(s, r)
    ensures r.Parsed? ==> s == "\n" + r.rest || s == "\r\n" + r.rest
  {
    if s == [] then (if streaming then Incomplete else Error)
    else if s[0] == '\n' then DropIsSuffix(s, 1); Parsed(s[1..], ())
    else if s[0] != '\r' then Error
    else if |s| == 1 then (if streaming then Incomplete else Error)
    else if s[1] == '\n' then DropIsSuffix(s, 2); Parsed(s[2..], ())
    else Error
  }

  /**
   * `not_line_ending`: everything up to the first "\n" or "\r\n". A '\r'
   * followed by anything else is an error.
   */
  function NotLineEnding(s: string, streaming: bool): (r: PResult<string>)
    ensures Keeps(s, streaming, r)
    ensures r.Parsed? ==> s == r.out + r.rest && r.out == s[..Span(s, LineChars)]
    ensures r.Parsed? && r.rest != [] ==> r.rest[0] == '\n' || (|r.rest| >= 2 && r.rest[0] == '\r' && r.rest[1] == '\n')
    ensures r.Parsed? && r.rest == [] ==> !streaming
  {
    var n := Span(s, LineChars);
    DropIsSuffix(s, n);
    if n == |s| then (if streaming then Incomplete else Parsed([], s))
    else if s[n] == '\n' then Parsed(s[n..], s[..n])
    else if n + 1 == |s| then (if streaming then Incomplete else Error)
    else if s[n + 1] == '\n' then Parsed(s[n..], s[..n])
    else Error
  }

  /** `opt(line_ending)`. */
  function OptLineEnding(s: string, streaming: bool): (r: PResult<()>)
    ensures Keeps(s, streaming, r)
    ensures !r.Error? && !r.Failure?
  {
    match LineEnding(s, streaming)
    case Error => Parsed(s, ())
    case r => r
  }

  /** nom's `cut`: a recoverable error becomes a failure. */
  function Cut<T>(r: PResult<T>): (c: PResult<T>)
    ensures !c.Error?
    ensures r.Parsed? || r.Incomplete? ==> c == r
  {
    if r.Error? then Failure else r
  }

  // ---------------------------------------------------------------------
  // line parsers

  /** `field_name`: a run of name characters that does not start with '#' or '-'. */
  function FieldName(s: string, streaming: bool): (r: PResult<string>)
    ensures Keeps(s, streaming, r) && Consumes(s, r)
    ensures r.Parsed? ==> s == r.out + r.rest && StartsWithValidChar(r.out)
  {
    var name := TakeWhile1(s, NameChars, streaming);
    if name.Parsed? && !StartsWithValidChar(name.out) then Error else name
  }

  /** `colon_and_whitespace`: ':' and any spaces or tabs. */
  function ColonAndWhitespace(s: string, streaming: bool): (r: PResult<()>)
    ensures Keeps(s, streaming, r) && Consumes(s, r)
  {
    var colon := Char(s, ':', streaming);
    if !colon.Parsed? then colon else
    var spaces := TakeWhile0(colon.rest, Spaces, streaming);
    if !spaces.Parsed? then spaces.Propagate() else
    SuffixTrans(spaces.rest, colon.rest, s);
    Parsed(spaces.rest, ())
  }

  /** `field_value`: the rest of the line and its line ending, if any. */
  function FieldValue(s: string, streaming: bool): (r: PResult<string>)
    ensures Keeps(s, streaming, r)
  {
    var value := NotLineEnding(s, streaming);
    if !value.Parsed? then value else
    var ending := OptLineEnding(value.rest, streaming);
    if !ending.Parsed? then ending.Propagate() else
    SuffixTrans(ending.rest, value.rest, s);
    Parsed(ending.rest, value.out)
  }

  /**
   * `field_definition_line`: name, then -- committed by `cut` -- the colon,
   * the whitespace and the value.
   */
  function FieldDefinitionLine(s: string, streaming: bool): (r: PResult<FieldDefinition>)
    ensures Keeps(s, streaming, r) && Consumes(s, r)
  {
    var name := FieldName(s, streaming);
    if !name.Parsed? then name.Propagate() else
    var colon := Cut(ColonAndWhitespace(name.rest, streaming));
    if !colon.Parsed? then colon.Propagate() else
    var value := Cut(FieldValue(colon.rest, streaming));
    if !value.Parsed? then value.Propagate() else
    SuffixTrans(value.rest, colon.rest, name.rest);
    SuffixTrans(value.rest, name.rest, s);
    Parsed(value.rest, FieldDefinition(name.out, value.out))
  }

  /** `continuation_line`: leading spaces or tabs, then a value. */
  function ContinuationLine(s: string, streaming: bool): (r: PResult<Line>)
    ensures Keeps(s, streaming, r) && Consumes(s, r)
    ensures r.Parsed? ==> r.out.Continuation?
  {
    var indent := TakeWhile1(s, Spaces, streaming);
    if !indent.Parsed? then indent.Propagate() else
    var value := FieldValue(indent.rest, streaming);
    if !value.Parsed? then value.Propagate() else
    SuffixTrans(value.rest, indent.rest, s);
    Parsed(value.rest, Continuation(value.out))
  }

  /** `comment_line`: '#', the rest of the line and its line ending, if any. */
  function CommentLine(s: string, streaming: bool): (r: PResult<Line>)
    ensures Keeps(s, streaming, r) && Consumes(s, r)
    ensures r.Parsed? ==> r.out == Comment
  {
    var hash := Char(s, '#', streaming);
    if !hash.Parsed? then hash.Propagate() else
    var text := NotLineEnding(hash.rest, streaming);
    if !text.Parsed? then text.Propagate() else
    var ending := OptLineEnding(text.rest, streaming);
    if !ending.Parsed? then ending.Propagate() else
    SuffixTrans(ending.rest, text.rest, hash.rest);
    SuffixTrans(ending.rest, hash.rest, s);
    Parsed(ending.rest, Comment)
  }

  /** `blank_line`: spaces or tabs, then a line ending. */
  function BlankLine(s: string, streaming: bool): (r: PResult<Line>)
    ensures Keeps(s, streaming, r) && Consumes(s, r)
    ensures r.Parsed? ==> r.out == Blank
  {
    var spaces := TakeWhile0(s, Spaces, streaming);
    if !spaces.Parsed? then spaces.Propagate() else
    var ending := LineEnding(spaces.rest, streaming);
    if !ending.Parsed? then ending.Propagate() else
    SuffixTrans(ending.rest, spaces.rest, s);
    Parsed(ending.rest, Blank)
  }

  // ---------------------------------------------------------------------
  // assembly

  /** `alt((continuation_line, comment_line))`. */
  function ContinuationOrComment(s: string, streaming: bool): (r: PResult<Line>)
    ensures Keeps(s, streaming, r) && Consumes(s, r)
  {
    var continuation := ContinuationLine(s, streaming);
    if continuation.Error? then CommentLine(s, streaming) else continuation
  }

  /** `many0(alt((continuation_line, comment_line)))`: the lines that follow a definition line. */
  function FollowingLines(s: string, streaming: bool): (r: PResult<seq<Line>>)
    ensures Keeps(s, streaming, r)
    ensures !r.Error?
    decreases |s|
  {
    var line := ContinuationOrComment(s, streaming);
    if line.Error? then Parsed(s, []) else
    if !line.Parsed? then line.Propagate() else
    var more := FollowingLines(line.rest, streaming);
    if !more.Parsed? then more else
    SuffixTrans(more.rest, line.rest, s);
    Parsed(more.rest, [line.out] + more.out)
  }

  /** `field_definition`: a definition line and the lines that follow it, folded into a field. */
  function ParseFieldDefinition(s: string, streaming: bool): (r: PResult<Field>)
    ensures Keeps(s, streaming, r) && Consumes(s, r)
  {
    var def := FieldDefinitionLine(s, streaming);
    if !def.Parsed? then def.Propagate() else
    var lines := FollowingLines(def.rest, streaming);
    if !lines.Parsed? then lines.Propagate() else
    SuffixTrans(lines.rest, def.rest, s);
    Parsed(lines.rest, FoldedField(def.out, lines.out))
  }

  /** The repetition part of `many1(field_definition)`. */
  function MoreFieldDefinitions(s: string, streaming: bool): (r: PResult<seq<Field>>)
    ensures Keeps(s, streaming, r)
    ensures !r.Error?
    decreases |s|
  {
    var field := ParseFieldDefinition(s, streaming);
    if field.Error? then Parsed(s, []) else
    if !field.Parsed? then field.Propagate() else
    var more := MoreFieldDefinitions(field.rest, streaming);
    if !more.Parsed? then more else
    SuffixTrans(more.rest, field.rest, s);
    Parsed(more.rest, [field.out] + more.out)
  }

  /** `many1(field_definition)`. */
  function FieldDefinitions(s: string, streaming: bool): (r: PResult<seq<Field>>)
    ensures Keeps(s, streaming, r) && Consumes(s, r)
    ensures r.Parsed? ==> |r.out| >= 1
  {
    var field := ParseFieldDefinition(s, streaming);
    if !field.Parsed? then field.Propagate() else
    var more := MoreFieldDefinitions(field.rest, streaming);
    if !more.Parsed? then more else
    SuffixTrans(more.rest, field.rest, s);
    Parsed(more.rest, [field.out] + more.out)
  }

  /** `alt((blank_line, comment_line))`. */
  function BlankOrComment(s: string, streaming: bool): (r: PResult<Line>)
    ensures Keeps(s, streaming, r) && Consumes(s, r)
  {
    var blank := BlankLine(s, streaming);
    if blank.Error? then CommentLine(s, streaming) else blank
  }

  /**
   * `many0_count(alt((blank_line, comment_line)))`: the lines skipped before
   * a paragraph. `paragraph` discards the count, so none is returned here.
   */
  function SkipBlanksAndComments(s: string, streaming: bool): (r: PResult<()>)
    ensures Keeps(s, streaming, r)
    ensures !r.Error?
    decreases |s|
  {
    var line := BlankOrComment(s, streaming);
    if line.Error? then Parsed(s, ()) else
    if !line.Parsed? then line.Propagate() else
    var more := SkipBlanksAndComments(line.rest, streaming);
    if more.Parsed? then SuffixTrans(more.rest, line.rest, s); more else more
  }

  /** `eof`: succeeds only on empty input. */
  function Eof(s: string): (r: PResult<()>)
    ensures r.Parsed? <==> s == []
    ensures r.Parsed? || r.Error?
  {
    if s == [] then Parsed(s, ()) else Error
  }

  /** `alt((map(blank_line, |_| ()), eof))`: the paragraph terminator. */
  function Terminator(s: string, streaming: bool): (r: PResult<()>)
    ensures Keeps(s, streaming, r)
  {
    var blank := BlankLine(s, streaming);
    if blank.Error? then Eof(s) else
    if !blank.Parsed? then blank.Propagate() else
    Parsed(blank.rest, ())
  }

  /** `opt(map(many1(field_definition), Paragraph::new))`. */
  function OptFieldDefinitions(s: string, streaming: bool): (r: PResult<Option<Paragraph>>)
    ensures Keeps(s, streaming, r)
    ensures r.Parsed? ==> (r.out.Some? <==> |r.rest| < |s|)
  {
    var fields := FieldDefinitions(s, streaming);
    if fields.Error? then Parsed(s, None) else
    if !fields.Parsed? then fields.Propagate() else
    Parsed(fields.rest, Some(Paragraph(fields.out)))
  }

  /** `terminated(opt(...), terminator)`: the fields of a paragraph, then its terminator. */
  function ParagraphBody(s: string, streaming: bool): (r: PResult<Option<Paragraph>>)
    ensures Keeps(s, streaming, r)
  {
    var body := OptFieldDefinitions(s, streaming);
    if !body.Parsed? then body else
    var end := Terminator(body.rest, streaming);
    if !end.Parsed? then end.Propagate() else
    SuffixTrans(end.rest, body.rest, s);
    Parsed(end.rest, body.out)
  }

  /**
   * `paragraph`: skip blank and comment lines, read the field definitions,
   * then demand a terminator (a blank line, or the end of input).
   */
  function ParseParagraph(s: string, streaming: bool): (r: PResult<Option<Paragraph>>)
    ensures Keeps(s, streaming, r)
  {
    var skipped := SkipBlanksAndComments(s, streaming);
    if !skipped.Parsed? then skipped.Propagate() else
    var body := ParagraphBody(skipped.rest, streaming);
    if body.Parsed? then SuffixTrans(body.rest, skipped.rest, s); body else body
  }
}
