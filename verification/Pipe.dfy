/** The pipe between the serve loop, which writes a request body as it arrives, and
    the handler that reads it. */
module Pipe {
  import opened Common
  import opened Frames
  import opened DataBuffer

  type Error = nat

  datatype ReadResult =
    | Got(n: nat)
    | Failed(error: Error)
    | Blocked

  class Pipe {
    /** Null once nothing more can be read. */
    var b: Buffer?
    var breakErr: Option<Error>
    var err: Option<Error>
    var unread: nat
    /** Code to run in the reader just before it sees the closing error. */
    var readFn: bool
    var ran: nat
    /** Every byte accepted so far, and every byte handed to the reader. */
    ghost var written: seq<byte>
    ghost var delivered: seq<byte>

    /** The reader has seen a prefix of what was written. The rest is buffered, or,
        once broken, only counted. */
    ghost predicate Valid()
      reads this, Buffered()
    {
      if b != null then
        b.Valid() && written == delivered + b.Contents() && breakErr.None? && unread == 0
      else if breakErr.Some? then
        delivered <= written && unread == |written| - |delivered|
      else
        err.Some? && written == delivered && unread == 0
    }

    ghost function Buffered(): set<object>
      reads this`b, b, if b == null then {} else {b.pool}
    {
      if b == null then {} else {b, b.pool} + Elems(b.chunks)
    }

    /** Everything an operation on the pipe may touch. */
    ghost function Footprint(): set<object>
      reads this`b, b, if b == null then {} else {b.pool}
    {
      if b == null then {this} else {this, b, b.pool} + Elems(b.chunks) + b.pool.free
    }

    constructor (b: Buffer)
      requires b.Valid() && b.Contents() == []
      ensures Valid() && this.b == b && written == delivered == [] && breakErr.None? && err.None?
    {
      this.b, breakErr, err, unread, readFn, ran := b, None, None, 0, false, 0;
      written, delivered := [], [];
    }

    /** Counts exactly the accepted bytes that were not delivered, broken or not. */
    function Len(): (n: nat)
      requires Valid()
      reads this, Buffered()
      ensures n == |written| - |delivered|
    {
      if b == null then unread else b.Len()
    }

    method ReadBuffer(d: Chunk) returns (n: nat)
      requires Valid() && b != null && d !in Footprint()
      modifies this`delivered, Buffered(), d
      ensures Valid() && n == Min(d.Length, |written| - |old(delivered)|) && delivered == old(delivered) + d[..n]
              && delivered <= written
    {
      hide Buffer.Valid, Buffer.Contents;
      ghost var q := b.Contents();
      var n', _ := b.Read(d);
      n := n';
      assert delivered + q == delivered + q[..n] + q[n..];
      delivered := delivered + d[..n];
    }

    method WriteBuffer(d: seq<byte>)
      requires Valid() && b != null
      modifies Footprint()
      ensures Valid() && delivered == old(delivered) && breakErr == old(breakErr) && err == old(err)
      ensures written == old(written) + d
    {
      hide Buffer.Valid, Buffer.Contents;
      b.Write(d);
      assert delivered + (old(b.Contents()) + d) == delivered + old(b.Contents()) + d;
      written := written + d;
    }

    /** A broken pipe fails at once. Otherwise the reader gets the next bytes in
        order, as many as fit, and sees the closing error only when it has had them
        all. */
    method Read(d: Chunk) returns (res: ReadResult)
      requires Valid() && d !in Footprint()
      modifies this, Buffered(), d
      ensures Valid() && written == old(written) && breakErr == old(breakErr) && err == old(err)
      ensures breakErr.Some? ==> res == Failed(breakErr.value)
      ensures breakErr.None? && |written| > |old(delivered)| ==> res == Got(Min(d.Length, |written| - |old(delivered)|))
      ensures breakErr.None? && written == old(delivered) ==> res == if err.Some? then Failed(err.value) else Blocked
      ensures res.Got? ==> res.n <= d.Length && delivered == old(delivered) + d[..res.n] && delivered <= written
      ensures !res.Got? ==> delivered == old(delivered) && d[..] == old(d[..])
      ensures ran == old(ran) + if res.Failed? && breakErr.None? && old(readFn) then 1 else 0
      ensures if res.Failed? && breakErr.None? then b == null && !readFn else b == old(b) && readFn == old(readFn)
    {
      hide Buffer.Valid, Buffer.Contents;
      if breakErr.Some? {
        return Failed(breakErr.value);
      }
      if b != null && b.Len() > 0 {
        var n := ReadBuffer(d);
        return Got(n);
      }
      if err.Some? {
        if readFn {
          ran := ran + 1;
          readFn := false;
        }
        b := null;
        return Failed(err.value);
      }
      return Blocked;
    }

    /** A closed pipe refuses data; a broken one accepts and drops it. */
    method Write(d: seq<byte>) returns (n: nat, ok: bool)
      requires Valid()
      modifies Footprint()
      ensures Valid() && delivered == old(delivered) && breakErr == old(breakErr) && err == old(err)
      ensures if err.Some? then n == 0 && !ok && written == old(written)
              else n == |d| && ok && written == old(written) + d
    {
      hide Buffer.Valid, Buffer.Contents;
      if err.Some? {
        return 0, false;
      }
      if breakErr.Some? {
        unread := unread + |d|;
        written := written + d;
        return |d|, true;
      }
      WriteBuffer(d);
      return |d|, true;
    }

    /** Only the first closing error counts. */
    method CloseWithError(e: Error, code: bool)
      requires Valid()
      modifies this`err, this`readFn
      ensures Valid() && err == if old(err).Some? then old(err) else Some(e)
      ensures readFn == if old(err).Some? then old(readFn) else code
    {
      hide Buffer.Valid, Buffer.Contents;
      if err.None? {
        readFn := code;
        err := Some(e);
      }
    }

    /** Only the first break counts. What was buffered is dropped, and stays
        counted. */
    method BreakWithError(e: Error)
      requires Valid()
      modifies this`breakErr, this`readFn, this`unread, this`b
      ensures Valid() && Len() == old(Len())
      ensures breakErr == if old(breakErr).Some? then old(breakErr) else Some(e)
      ensures readFn == (old(breakErr).Some? && old(readFn))
    {
      hide Buffer.Valid, Buffer.Contents;
      if breakErr.None? {
        readFn := false;
        if b != null {
          unread := unread + b.Len();
        }
        b := null;
        breakErr := Some(e);
      }
    }
  }
}
