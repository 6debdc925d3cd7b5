/** The chunked buffer behind every HTTP/2 body. Chunks come from a pool of five
    sizes that all buffers share, and go back to it as soon as they are read. */
module DataBuffer {
  import opened Common
  import opened Frames

  const CHUNK_SIZES: seq<nat> := [1024, 2048, 4096, 8192, 16384]

  type Chunk = array<byte>

  function Min(a: nat, b: nat): nat {
    if a < b then a else b
  }

  // ---------- the byte queue that a list of chunks stands for ----------

  ghost function Flat(cs: seq<seq<byte>>): seq<byte> {
    if cs == [] then [] else cs[0] + Flat(cs[1..])
  }

  lemma {:induction false} FlatSnoc(cs: seq<seq<byte>>, c: seq<byte>)
    ensures Flat(cs + [c]) == Flat(cs) + c
  {
    if cs == [] {
      assert cs + [c] == [c] && Flat([c]) == c + Flat([]);
    } else {
      assert (cs + [c])[1..] == cs[1..] + [c];
      FlatSnoc(cs[1..], c);
    }
  }

  /** All chunks but the last are full, and the last is written up to w. */
  ghost function Bytes(cs: seq<seq<byte>>, w: nat): seq<byte>
    requires cs != [] && w <= |cs[|cs| - 1]|
  {
    Flat(cs[..|cs| - 1]) + cs[|cs| - 1][..w]
  }

  lemma BytesOne(cs: seq<seq<byte>>, w: nat)
    requires |cs| == 1 && w <= |cs[0]|
    ensures Bytes(cs, w) == cs[0][..w]
  {
    assert cs[..0] == [];
  }

  lemma BytesFirst(cs: seq<seq<byte>>, w: nat)
    requires |cs| > 1 && w <= |cs[|cs| - 1]|
    ensures Bytes(cs, w) == cs[0] + Bytes(cs[1..], w)
  {
    var front, rest := cs[..|cs| - 1], cs[1..];
    assert front[0] == cs[0] && front[1..] == rest[..|rest| - 1];
    Grouped(cs[0], Flat(front[1..]), cs[|cs| - 1][..w]);
  }

  lemma Grouped(a: seq<byte>, b: seq<byte>, c: seq<byte>)
    ensures (a + b) + c == a + (b + c)
  {
  }

  /** Reading starts at r in the first chunk. */
  ghost function Queue(cs: seq<seq<byte>>, r: nat, w: nat): seq<byte> {
    if cs == [] || !Shape(cs, r, w) then [] else Bytes(cs, w)[r..]
  }

  ghost predicate Shape(cs: seq<seq<byte>>, r: nat, w: nat) {
    if cs == [] then r == 0
    else
      && r < |cs[0]|
      && w <= |cs[|cs| - 1]|
      && (|cs| == 1 ==> r <= w)
      && r <= |Bytes(cs, w)|
  }

  lemma ShapeBounds(cs: seq<seq<byte>>, r: nat, w: nat)
    requires Shape(cs, r, w) && cs != []
    ensures r < |cs[0]| && w <= |cs[|cs| - 1]| && (|cs| == 1 ==> r <= w)
  {
  }

  /** Where the part of the first chunk that can be read ends. */
  ghost function End(cs: seq<seq<byte>>, w: nat): nat
    requires cs != []
  {
    if |cs| == 1 then w else |cs[0]|
  }

  /** The bytes that can be copied from the first chunk are the front of the queue. */
  lemma QueueFront(cs: seq<seq<byte>>, r: nat, w: nat)
    requires Shape(cs, r, w) && cs != []
    ensures r <= End(cs, w) <= |cs[0]| && |Queue(cs, r, w)| >= End(cs, w) - r
    ensures Queue(cs, r, w)[..End(cs, w) - r] == cs[0][r..End(cs, w)]
  {
    hide Bytes;
    if |cs| == 1 {
      BytesOne(cs, w);
      assert cs[0][..w][r..] == cs[0][r..w];
    } else {
      BytesFirst(cs, w);
      FrontOf(cs[0], Bytes(cs[1..], w), r);
    }
  }

  lemma FrontOf(a: seq<byte>, b: seq<byte>, r: nat)
    requires r <= |a|
    ensures (a + b)[r..][..|a| - r] == a[r..|a|] && (a + b)[r..][|a| - r..] == b
  {
  }

  /** Bytes are only ever in chunks, and then the first has some. */
  lemma QueueSome(cs: seq<seq<byte>>, r: nat, w: nat)
    requires Shape(cs, r, w) && Queue(cs, r, w) != []
    ensures cs != [] && r < End(cs, w)
  {
    if |cs| == 1 {
      BytesOne(cs, w);
    }
  }

  /** Reading n more bytes of the first chunk drops them from the queue. */
  lemma QueueAdvance(cs: seq<seq<byte>>, r: nat, w: nat, n: nat)
    requires Shape(cs, r, w) && cs != [] && r + n <= End(cs, w) && r + n < |cs[0]|
    ensures Shape(cs, r + n, w) && n <= |Queue(cs, r, w)| && Queue(cs, r + n, w) == Queue(cs, r, w)[n..]
  {
    QueueFront(cs, r, w);
    hide Bytes;
    DropTwice(Bytes(cs, w), r, n);
  }

  lemma DropTwice(q: seq<byte>, n: nat, m: nat)
    requires n + m <= |q|
    ensures q[n..][m..] == q[n + m..] && q[..n] + q[n..][..m] == q[..n + m]
  {
  }

  /** A chunk read to its end can be dropped altogether. */
  lemma QueueDrop(cs: seq<seq<byte>>, r: nat, w: nat)
    requires Shape(cs, r, w) && cs != [] && End(cs, w) == |cs[0]|
    requires |cs| > 1 ==> 0 < |cs[1]|
    ensures Shape(cs[1..], 0, w) && |cs[0]| - r <= |Queue(cs, r, w)|
    ensures Queue(cs[1..], 0, w) == Queue(cs, r, w)[|cs[0]| - r..]
  {
    hide Bytes;
    QueueFront(cs, r, w);
    if |cs| > 1 {
      BytesFirst(cs, w);
      FrontOf(cs[0], Bytes(cs[1..], w), r);
    } else {
      BytesOne(cs, w);
    }
  }

  /** s with src written over it from `at` on. */
  ghost function Overlay(s: seq<byte>, at: nat, src: seq<byte>): (t: seq<byte>)
    requires at + |src| <= |s|
    ensures |t| == |s|
  {
    s[..at] + src + s[at + |src|..]
  }

  lemma OverlayTwice(s: seq<byte>, at: nat, a: seq<byte>, b: seq<byte>)
    requires at + |a| + |b| <= |s|
    ensures Overlay(Overlay(s, at, a), at + |a|, b) == Overlay(s, at, a + b)
  {
  }

  lemma OverlayNone(s: seq<byte>)
    ensures Overlay(s, 0, []) == s
  {
  }

  /** Filling the last chunk further appends to the queue. */
  lemma QueueAppend(cs: seq<seq<byte>>, r: nat, w: nat, p: seq<byte>)
    requires Shape(cs, r, w) && cs != [] && w + |p| <= |cs[|cs| - 1]|
    ensures var ds := cs[|cs| - 1 := Overlay(cs[|cs| - 1], w, p)];
            Shape(ds, r, w + |p|) && Queue(ds, r, w + |p|) == Queue(cs, r, w) + p
  {
    var c := Overlay(cs[|cs| - 1], w, p);
    var ds := cs[|cs| - 1 := c];
    assert ds[..|cs| - 1] == cs[..|cs| - 1];
    assert c[..w + |p|] == cs[|cs| - 1][..w] + p;
    Grouped(Flat(cs[..|cs| - 1]), cs[|cs| - 1][..w], p);
    assert Bytes(ds, w + |p|) == Bytes(cs, w) + p;
    hide Bytes;
    assert (Bytes(cs, w) + p)[r..] == Bytes(cs, w)[r..] + p;
  }

  /** A new chunk may be added once the last one is full. */
  lemma QueueGrow(cs: seq<seq<byte>>, r: nat, w: nat, c: seq<byte>)
    requires Shape(cs, r, w) && 0 < |c| && (cs != [] ==> w == |cs[|cs| - 1]|)
    ensures Shape(cs + [c], r, 0) && Queue(cs + [c], r, 0) == Queue(cs, r, w)
  {
    assert (cs + [c])[..|cs|] == cs && c[..0] == [];
    if cs == [] {
      assert Bytes([c], 0) == [];
    } else {
      var last := cs[|cs| - 1];
      assert cs == cs[..|cs| - 1] + [last] && last[..w] == last;
      FlatSnoc(cs[..|cs| - 1], last);
      assert Bytes(cs + [c], 0) == Bytes(cs, w);
    }
  }

  // ---------- chunks ----------

  ghost predicate Sized(cs: set<Chunk>) {
    forall c :: c in cs ==> c.Length in CHUNK_SIZES
  }

  /** Chunks nobody uses. */
  class Pool {
    var free: set<Chunk>

    /** The smallest chunk that holds `size` bytes, or the largest there is. */
    method Get(size: int) returns (c: Chunk)
      requires Sized(free)
      modifies this`free
      ensures c.Length in CHUNK_SIZES && (size <= c.Length || forall k :: k in CHUNK_SIZES ==> k <= c.Length)
      ensures forall k :: k in CHUNK_SIZES && size <= k ==> c.Length <= k
      ensures (c in old(free) || fresh(c)) && free == old(free) - {c}
    {
      var i := 0;
      while i < |CHUNK_SIZES| - 1 && size > CHUNK_SIZES[i]
        invariant 0 <= i <= |CHUNK_SIZES| - 1 && forall j :: 0 <= j < i ==> CHUNK_SIZES[j] < size
      {
        i := i + 1;
      }
      var n := CHUNK_SIZES[i];
      if d: Chunk :| d in free && d.Length == n {
        c := d;
      } else {
        c := new byte[n](_ => 0);
      }
      free := free - {c};
    }

    /** Only chunks of a pooled size may come back. */
    method Put(c: Chunk)
      requires c.Length in CHUNK_SIZES
      modifies this`free
      ensures free == old(free) + {c}
    {
      free := free + {c};
    }
  }

  ghost function Slices(cs: seq<Chunk>): (s: seq<seq<byte>>)
    reads cs
    ensures |s| == |cs| && forall i :: 0 <= i < |cs| ==> s[i] == cs[i][..]
  {
    if cs == [] then [] else [cs[0][..]] + Slices(cs[1..])
  }

  ghost function Elems(cs: seq<Chunk>): set<Chunk> {
    set c | c in cs
  }

  lemma SizedAt(cs: seq<Chunk>, i: nat)
    requires Sized(Elems(cs)) && i < |cs|
    ensures cs[i].Length in CHUNK_SIZES && 0 < cs[i].Length
  {
    assert cs[i] in Elems(cs);
  }

  lemma SizedMove(a: set<Chunk>, b: set<Chunk>, c: Chunk)
    requires Sized(a + {c}) && Sized(b)
    ensures Sized(a) && Sized(b + {c})
  {
    assert c in a + {c};
  }

  lemma ElemsRest(cs: seq<Chunk>)
    requires cs != []
    ensures Elems(cs) == Elems(cs[1..]) + {cs[0]} && (Distinct(cs) ==> cs[0] !in Elems(cs[1..]) && Distinct(cs[1..]))
    ensures Slices(cs[1..]) == Slices(cs)[1..]
  {
  }

  lemma SizedLess(cs: set<Chunk>, c: Chunk)
    requires Sized(cs)
    ensures Sized(cs - {c})
  {
  }

  lemma ElemsHas(cs: seq<Chunk>, c: Chunk)
    ensures c in Elems(cs) <==> c in cs
  {
  }

  lemma ElemsMore(cs: seq<Chunk>, c: Chunk)
    ensures Elems(cs + [c]) == Elems(cs) + {c} && Slices(cs + [c]) == Slices(cs) + [c[..]]
    ensures c in Elems(cs) <==> c in cs
    ensures Distinct(cs) && c !in cs ==> Distinct(cs + [c])
    ensures Sized(Elems(cs)) && c.Length in CHUNK_SIZES ==> Sized(Elems(cs + [c]))
  {
  }

  /** Go's copy of src into dst from `at` on, as far as either goes. */
  method Copy(dst: Chunk, at: nat, src: seq<byte>) returns (m: nat)
    requires at <= dst.Length
    modifies dst
    ensures m == Min(dst.Length - at, |src|)
    ensures dst[..] == Overlay(old(dst[..]), at, src[..m])
  {
    m := Min(dst.Length - at, |src|);
    forall i | 0 <= i < m {
      dst[at + i] := src[i];
    }
  }

  lemma Regroup(q: seq<byte>, done: seq<byte>, rest: seq<byte>, n: nat)
    requires n <= |rest|
    ensures q + done + rest[..n] == q + (done + rest[..n])
    ensures done + rest[..n] + rest[n..] == done + rest
  {
  }

  /** Copying into the last of several chunks changes no other. */
  method CopyLast(cs: seq<Chunk>, w: nat, p: seq<byte>) returns (n: nat)
    requires cs != [] && Distinct(cs) && w <= cs[|cs| - 1].Length
    modifies cs[|cs| - 1]
    ensures n == Min(cs[|cs| - 1].Length - w, |p|)
    ensures var k, s := |cs| - 1, old(Slices(cs)); Slices(cs) == s[k := Overlay(s[k], w, p[..n])]
  {
    hide Overlay;
    n := Copy(cs[|cs| - 1], w, p);
  }

  class Buffer {
    const pool: Pool
    var chunks: seq<Chunk>
    var expected: int
    var r: nat
    var w: nat
    var size: nat

    ghost predicate Valid()
      reads this, pool, chunks
    {
      && Distinct(chunks)
      && Sized(pool.free) && Sized(Elems(chunks)) && Elems(chunks) !! pool.free
      && Shape(Slices(chunks), r, w)
      && size == |Contents()|
    }

    ghost function Contents(): seq<byte>
      reads this, chunks
    {
      Queue(Slices(chunks), r, w)
    }

    constructor (pool: Pool, expected: int)
      requires Sized(pool.free)
      ensures Valid() && this.pool == pool && this.expected == expected && Contents() == [] && chunks == []
    {
      this.pool, this.expected := pool, expected;
      chunks, r, w, size := [], 0, 0, 0;
    }

    function Len(): (n: nat)
      requires Valid()
      reads this, pool, chunks
      ensures n == |Contents()|
    {
      size
    }

    /** How far the first chunk can be read. */
    function FirstEnd(): (n: nat)
      requires chunks != []
      reads this, chunks
      ensures n == End(Slices(chunks), w)
    {
      if |chunks| == 1 then w else chunks[0].Length
    }

    /** Moves past n bytes of the first chunk; a chunk read to its end goes back to
        the pool, where its size is welcome. */
    method Advance(n: nat)
      requires Valid() && chunks != [] && r + n <= FirstEnd()
      modifies this, pool`free
      ensures Valid() && n <= |old(Contents())| && Contents() == old(Contents())[n..] && expected == old(expected)
      ensures Elems(chunks) + pool.free == old(Elems(chunks) + pool.free) && old(pool.free) <= pool.free
      ensures Elems(chunks) <= old(Elems(chunks))
    {
      hide Queue, Shape, Flat, Elems, Distinct, Sized, End;
      ghost var cs := Slices(chunks);
      ShapeBounds(cs, r, w);
      QueueFront(cs, r, w);
      if r + n < chunks[0].Length {
        QueueAdvance(cs, r, w, n);
        r, size := r + n, size - n;
        return;
      }
      Release();
    }

    /** Gives a first chunk that was read to its end back to the pool. */
    method Release()
      requires Valid() && chunks != [] && FirstEnd() == chunks[0].Length
      modifies this`chunks, this`r, this`size, pool`free
      ensures Valid() && old(r <= FirstEnd() && FirstEnd() - r <= |Contents()|)
      ensures Contents() == old(Contents()[FirstEnd() - r..])
      ensures Elems(chunks) + pool.free == old(Elems(chunks) + pool.free) && old(pool.free) <= pool.free
      ensures Elems(chunks) <= old(Elems(chunks))
    {
      hide Queue, Shape, Flat, Elems, Distinct, Sized, Slices, End;
      QueueDropped();
      ghost var rest := Slices(chunks[1..]);
      size := size - (chunks[0].Length - r);
      pool.Put(chunks[0]);
      assert Slices(chunks[1..]) == rest;
      chunks, r := chunks[1..], 0;
    }

    /** Giving up a first chunk that was read to its end. */
    lemma QueueDropped()
      requires Valid() && chunks != [] && FirstEnd() == chunks[0].Length
      ensures var rest := chunks[1..];
              && Shape(Slices(rest), 0, w)
              && r <= chunks[0].Length && chunks[0].Length - r <= size
              && Queue(Slices(rest), 0, w) == Contents()[chunks[0].Length - r..]
              && chunks[0].Length in CHUNK_SIZES
              && Distinct(rest) && Sized(Elems(rest)) && Sized(pool.free + {chunks[0]})
              && Elems(rest) !! pool.free + {chunks[0]}
              && Elems(rest) + (pool.free + {chunks[0]}) == Elems(chunks) + pool.free
              && Elems(rest) <= Elems(chunks)
    {
      hide Queue, Shape, Flat, Elems, Distinct, Sized;
      ShapeBounds(Slices(chunks), r, w);
      ElemsRest(chunks);
      SizedAt(chunks, 0);
      SizedMove(Elems(chunks[1..]), pool.free, chunks[0]);
      if |chunks| > 1 {
        SizedAt(chunks, 1);
      }
      QueueDrop(Slices(chunks), r, w);
    }

    /** Copies into p, from `at` on, what the first chunk still has. */
    method ReadOnce(p: Chunk, at: nat) returns (m: nat)
      requires Valid() && p !in Elems(chunks) && at < p.Length && size > 0
      modifies this, pool`free, p
      ensures Valid() && 0 < m <= p.Length - at && m <= |old(Contents())|
      ensures p[..] == Overlay(old(p[..]), at, old(Contents())[..m])
      ensures Contents() == old(Contents())[m..] && expected == old(expected)
      ensures Elems(chunks) + pool.free == old(Elems(chunks) + pool.free) && old(pool.free) <= pool.free
      ensures Elems(chunks) <= old(Elems(chunks))
    {
      hide Queue, Shape, Flat, Elems, Distinct, Sized, End, Overlay;
      ghost var cs := Slices(chunks);
      QueueSome(cs, r, w);
      ElemsHas(chunks, p);
      ShapeBounds(cs, r, w);
      QueueFront(cs, r, w);
      ghost var q := Contents();
      var src := chunks[0][r..FirstEnd()];
      m := Copy(p, at, src);
      assert src[..m] == q[..m] by {
        assert q[..|src|] == src && q[..|src|][..m] == q[..m];
      }
      assert Slices(chunks) == cs;
      Advance(m);
    }

    /** Fills p from the front of the queue, as far as either goes. */
    method Read(p: Chunk) returns (n: nat, ok: bool)
      requires Valid() && p !in Elems(chunks)
      modifies this, pool`free, p
      ensures Valid() && (ok <==> old(size) != 0)
      ensures n == Min(p.Length, |old(Contents())|)
      ensures p[..] == Overlay(old(p[..]), 0, old(Contents())[..n])
      ensures Contents() == old(Contents())[n..] && expected == old(expected)
      ensures Elems(chunks) + pool.free == old(Elems(chunks) + pool.free) && old(pool.free) <= pool.free
      ensures Elems(chunks) <= old(Elems(chunks))
    {
      hide Queue, Shape, Flat, Elems, Distinct, Sized, Overlay, Slices;
      n := 0;
      ghost var q, s := Contents(), p[..];
      OverlayNone(s);
      if size == 0 {
        return 0, false;
      }
      while n < p.Length && size > 0
        invariant Valid() && p !in Elems(chunks) && n <= p.Length && n <= |q|
        invariant Contents() == q[n..] && expected == old(expected)
        invariant p[..] == Overlay(s, 0, q[..n])
        invariant Elems(chunks) + pool.free == old(Elems(chunks) + pool.free) && old(pool.free) <= pool.free
        invariant Elems(chunks) <= old(Elems(chunks))
      {
        var m := ReadOnce(p, n);
        OverlayTwice(s, 0, q[..n], q[n..][..m]);
        DropTwice(q, n, m);
        n := n + m;
      }
      return n, true;
    }

    /** Makes room at the end: the last chunk if it has any, else a new chunk. */
    method LastChunkOrAlloc(want: int)
      requires Valid()
      modifies this`chunks, this`w, pool`free
      ensures Valid() && Contents() == old(Contents()) && chunks != [] && w < chunks[|chunks| - 1].Length
      ensures forall c :: c in chunks ==> c in old(chunks) || c in old(pool.free) || fresh(c)
      ensures pool.free <= old(pool.free)
    {
      hide Queue, Flat, Elems, Distinct, Sized, Slices, Shape;
      if chunks != [] {
        ShapeBounds(Slices(chunks), r, w);
        if w < chunks[|chunks| - 1].Length {
          return;
        }
      }
      var c := pool.Get(want);
      ElemsHas(chunks, c);
      QueueGrown(old(pool.free), c);
      chunks, w := chunks + [c], 0;
    }

    /** Adding a chunk from the pool, or a new one, behind a full one. */
    lemma QueueGrown(free: set<Chunk>, c: Chunk)
      requires Distinct(chunks) && Sized(free) && Sized(Elems(chunks)) && Elems(chunks) !! free
      requires Shape(Slices(chunks), r, w) && (chunks != [] ==> w == chunks[|chunks| - 1].Length)
      requires c.Length in CHUNK_SIZES && c !in chunks
      ensures Distinct(chunks + [c]) && Sized(free - {c}) && Sized(Elems(chunks + [c]))
              && Elems(chunks + [c]) !! free - {c}
      ensures Shape(Slices(chunks + [c]), r, 0) && Queue(Slices(chunks + [c]), r, 0) == Queue(Slices(chunks), r, w)
    {
      hide Queue, Flat, Elems, Distinct, Sized, Shape;
      SizedLess(free, c);
      ElemsMore(chunks, c);
      QueueGrow(Slices(chunks), r, w, c[..]);
    }

    /** Copies as much of p as the last chunk takes. */
    method Fill(p: seq<byte>) returns (n: nat)
      requires Valid() && chunks != [] && w < chunks[|chunks| - 1].Length && p != []
      modifies this`w, this`size, this`expected, chunks[|chunks| - 1]
      ensures 0 < n <= |p| && Valid() && Contents() == old(Contents()) + p[..n]
      ensures expected == old(expected) - n
    {
      hide Queue, Shape, Flat, Elems, Sized, Distinct, Slices, Overlay;
      ghost var cs := Slices(chunks);
      n := CopyLast(chunks, w, p);
      QueueAppend(cs, r, w, p[..n]);
      w, size, expected := w + n, size + n, expected - n;
    }

    /** Appends all of p. */
    method Write(p: seq<byte>)
      requires Valid()
      modifies this`chunks, this`w, this`size, this`expected, pool`free, chunks, pool.free
      ensures Valid() && Contents() == old(Contents()) + p
      ensures expected == old(expected) - |p|
      ensures pool.free <= old(pool.free)
      ensures forall c :: c in chunks ==> c in old(chunks) || c in old(pool.free) || fresh(c)
    {
      hide Queue, Shape, Flat, Elems, Sized, Distinct;
      var rest := p;
      ghost var done: seq<byte> := [];
      while rest != []
        invariant Valid() && Contents() == old(Contents()) + done && done + rest == p
        invariant expected == old(expected) - |done|
        invariant pool.free <= old(pool.free)
        invariant forall c :: c in chunks ==> c in old(chunks) || c in old(pool.free) || fresh(c)
        decreases |rest|
      {
        LastChunkOrAlloc(if expected > |rest| then expected else |rest|);
        var n := Fill(rest);
        Regroup(old(Contents()), done, rest, n);
        done, rest := done + rest[..n], rest[n..];
      }
    }
  }

  /** Two buffers drawing on one pool never share a chunk. */
  ghost predicate Apart(a: Buffer, b: Buffer)
    reads a, b, a.pool, b.pool, a.chunks, b.chunks
  {
    a != b && a.pool == b.pool && a.Valid() && b.Valid() && Elems(a.chunks) !! Elems(b.chunks)
  }

  /** Writing to one leaves the other as it was. */
  method WriteBeside(a: Buffer, b: Buffer, p: seq<byte>)
    requires Apart(a, b)
    modifies a, a.pool`free, a.chunks, a.pool.free
    ensures Apart(a, b) && a.Contents() == old(a.Contents()) + p && b.Contents() == old(b.Contents())
  {
    hide Queue, Shape, Slices, Flat, Distinct;
    ghost var mine, free, yours := Elems(a.chunks), a.pool.free, Elems(b.chunks);
    assert forall c :: c in b.chunks ==> c in yours && c !in mine && c !in free;
    assert forall c :: c in a.chunks ==> c in mine;
    a.Write(p);
    assert Elems(b.chunks) == yours;
    assert forall c :: c in Elems(a.chunks) ==> c in mine || c in free || fresh(c);
  }

  /** So does reading from one, although its chunks become free for the other. */
  method ReadBeside(a: Buffer, b: Buffer, p: Chunk) returns (n: nat, ok: bool)
    requires Apart(a, b) && p !in Elems(a.chunks) && p !in Elems(b.chunks)
    modifies a, a.pool`free, p
    ensures Apart(a, b) && b.Contents() == old(b.Contents())
    ensures n == Min(p.Length, |old(a.Contents())|) && p[..] == Overlay(old(p[..]), 0, old(a.Contents())[..n])
    ensures a.Contents() == old(a.Contents())[n..]
  {
    hide Queue, Shape, Flat, Distinct, Sized, Overlay;
    n, ok := a.Read(p);
  }
}
