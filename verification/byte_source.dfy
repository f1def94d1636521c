/**
 * The byte source both adapters read from: the in-memory `Bytes` reader of
 * their test modules (src/buf_parse.rs, src/stream_parser.rs). A read copies
 * as many of the remaining bytes as fit into the buffer it is given and
 * leaves the rest of that buffer as it was.
 */
module ByteSource {
  import opened Utf8

  function Min(a: nat, b: nat): (m: nat)
    ensures m <= a && m <= b && (m == a || m == b)
  {
    if a <= b then a else b
  }

  class Bytes {
    const bytes: seq<byte>
    var pos: nat

    ghost predicate Valid()
      reads this
    {
      pos <= |bytes|
    }

    /** The bytes not read yet. */
    function Unread(): (u: seq<byte>)
      reads this
      requires Valid()
      ensures |u| == |bytes| - pos
    {
      bytes[pos..]
    }

    constructor(bytes: seq<byte>)
      ensures Valid() && this.bytes == bytes && pos == 0
      ensures Unread() == bytes
    {
      this.bytes := bytes;
      pos := 0;
    }

    /**
     * `read`: fills the front of `buf` with the next bytes, as many as are
     * left or as fit, and says how many. Those bytes leave the unread part
     * in order: nothing is skipped and nothing is read twice.
     */
    method Read(buf: seq<byte>) returns (filled: seq<byte>, n: nat)
      requires Valid()
      modifies this
      ensures Valid()
      ensures n == Min(|old(Unread())|, |buf|)
      ensures |filled| == |buf|
      ensures filled[..n] == old(Unread())[..n] && filled[n..] == buf[n..]
      ensures old(Unread()) == filled[..n] + Unread()
      ensures n == 0 <==> buf == [] || old(Unread()) == []
    {
      var toRead := Min(|bytes| - pos, |buf|);
      filled := bytes[pos..pos + toRead] + buf[toRead..];
      assert filled[..toRead] == bytes[pos..pos + toRead];
      pos := pos + toRead;
      n := toRead;
      assert old(Unread()) == bytes[old(pos)..old(pos) + n] + bytes[pos..];
    }
  }
}
