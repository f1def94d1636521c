/**
 * `BufParse` (src/buf_parse.rs): a streaming parser that buffers its input.
 * `Buffer` reads one more chunk, `TryNext` parses from the buffered bytes
 * not yet consumed. `ParseInput` is the driving loop of the test module: it
 * alternates the two until the input is used up, and is proved to yield
 * exactly the reference run `Drain` of the whole input, whatever the chunk
 * size, as long as it is not zero, and so what `parse_complete` makes of
 * the decoded input.
 */
module BufParser {
  import opened Wrappers
  import opened Utf8
  import opened Fields
  import opened ControlFile
  import opened Adapter
  import opened ByteSource

  /** `n` zero bytes: what `Vec::resize` fills the new room with. */
  function Zeros(n: nat): (z: seq<byte>)
    ensures |z| == n && forall i :: 0 <= i < n ==> z[i] == 0
  {
    seq(n, _ => 0 as byte)
  }

  class BufParse {
    const chunkSize: nat
    var buffer: seq<byte>
    var pos: nat
    const read: Bytes
    var exhausted: bool

    ghost predicate Valid()
      reads this, read
    {
      pos <= |buffer| && read.Valid()
    }

    /** The buffered bytes not consumed yet. */
    function Pending(): seq<byte>
      reads this
      requires pos <= |buffer|
    {
      buffer[pos..]
    }

    constructor(read: Bytes, chunkSize: nat)
      requires read.Valid()
      ensures Valid() && this.read == read && this.chunkSize == chunkSize
      ensures buffer == [] && pos == 0 && !exhausted
      ensures read.Unread() == old(read.Unread())
    {
      this.chunkSize := chunkSize;
      buffer := [];
      pos := 0;
      this.read := read;
      exhausted := false;
    }

    /**
     * `buffer`: drops the consumed bytes, reads up to one chunk behind the
     * pending ones, and marks the source exhausted when a read returns
     * nothing. No byte is lost or duplicated on the way from the source to
     * the pending bytes.
     */
    method Buffer()
      requires Valid()
      modifies this, read
      ensures Valid() && pos == 0
      ensures var n := Min(|old(read.Unread())|, chunkSize);
        && buffer == old(Pending()) + old(read.Unread())[..n]
        && read.Unread() == old(read.Unread())[n..]
        && exhausted == (old(exhausted) || n == 0)
      ensures Pending() + read.Unread() == old(Pending()) + old(read.Unread())
    {
      buffer := buffer[pos..];
      pos := 0;

      var end := |buffer|;
      buffer := buffer + Zeros(chunkSize);
      var filled, n := read.Read(buffer[end..]);
      buffer := buffer[..end] + filled;
      buffer := buffer[..end + n];

      if n == 0 {
        exhausted := true;
      }
      assert buffer == old(Pending()) + old(read.Unread())[..n];
      assert old(read.Unread()) == old(read.Unread())[..n] + read.Unread();
    }

    /**
     * `try_next`: the step `Step` on the pending bytes; it moves the cursor
     * by the bytes it consumed and changes nothing else.
     */
    method TryNext() returns (r: Result<Option<Streaming<Paragraph>>, BufParseError>)
      requires Valid()
      modifies this
      ensures Valid() && buffer == old(buffer) && exhausted == old(exhausted)
      ensures old(pos) <= pos && Step(old(Pending()), exhausted) == Outcome(r, pos - old(pos))
    {
      hide Grammar.ParseParagraph, FromUtf8, Decoded, WellFormed;
      var input := FromUtf8Lenient(buffer[pos..]).value;

      match ParseStreaming(input)
      case Err(e) =>
        r := Err(InvalidSyntax(e));
      case Ok(Item((rest, paragraph))) =>
        Grammar.SuffixIsTail(rest, input);
        SuffixUtf8Length(input, rest);
        var parsed := Utf8Length(input) - Utf8Length(rest);
        pos := pos + parsed;
        r := Ok(Some(Item(paragraph)));
      case Ok(Incomplete) =>
        if exhausted {
          var whole := FromUtf8(buffer[pos..]);
          if whole.Err? {
            r := Err(InvalidUtf8(whole.error));
            return;
          }
          var result := ParseFinish(whole.value);
          if result.Err? {
            r := Err(InvalidSyntax(result.error));
            return;
          }
          pos := pos + Utf8Length(whole.value);
          r := Ok(match result.value
            case Some(paragraph) => Some(Item(paragraph))
            case None => None);
        } else {
          r := Ok(Some(Streaming.Incomplete));
        }
    }
  }

  /**
   * The test module's `parse_input`: a parser over `input` read in chunks of
   * `chunkSize` bytes, asked for paragraphs and fed whenever it asks for
   * more, until it answers None or an error. The paragraphs it yields and
   * the error it stops at are those of `Drain` on the whole input, however
   * the chunks split it, and so those of `parse_complete` on the decoded
   * input; with chunks of zero bytes the first read finds nothing and the
   * parser ends at once, empty-handed.
   */
  method ParseInput(input: seq<byte>, chunkSize: nat) returns (run: Run)
    ensures chunkSize > 0 ==> run == Drain(input)
    ensures chunkSize == 0 ==> run == Run([], None)
    ensures chunkSize > 0 ==> IsParseComplete(input, run)
  {
    hide Step, Drain, FollowsDrain;
    var source := new Bytes(input);
    var parser := new BufParse(source, chunkSize);
    var paragraphs: seq<Paragraph> := [];
    var error: Option<BufParseError> := None;
    var done := false;
    FollowsDrainAtStart(input, chunkSize);
    while !done
      invariant parser.read == source && parser.chunkSize == chunkSize && parser.Valid()
      invariant !done ==> error == None
      invariant FollowsDrain(input, chunkSize, paragraphs, error, done,
        parser.Pending(), source.Unread(), parser.exhausted)
      decreases if done then 0 else 1, |source.Unread()|, if parser.exhausted then 0 else 1,
        |parser.Pending()|
    {
      ghost var pending := parser.Pending();
      ghost var start := parser.pos;
      var r := parser.TryNext();
      FollowsDrainAfterCall(input, chunkSize, paragraphs, pending, source.Unread(), parser.exhausted,
        Outcome(r, parser.pos - start));
      assert parser.Pending() == pending[parser.pos - start..];
      match r
      case Err(e) =>
        error := Some(e);
        done := true;
      case Ok(None) =>
        done := true;
      case Ok(Some(Item(paragraph))) =>
        paragraphs := paragraphs + [paragraph];
      case Ok(Some(Incomplete)) =>
        ghost var later := source.Unread();
        parser.Buffer();
        FollowsDrainAfterRead(input, chunkSize, paragraphs, pending, later,
          Min(|later|, chunkSize));
    }
    FollowsDrainAtEnd(input, chunkSize, paragraphs, error,
      parser.Pending(), source.Unread(), parser.exhausted);
    run := Run(paragraphs, error);
    DrainIsParseComplete(input);
  }
}
