/** HTTP/2 flow-control windows: 32-bit counters, one per stream, each linked to
    the counter that all streams of a connection share. */
module Flow {

  const MAX_INT32: int := 0x7fff_ffff
  const MIN_INT32: int := -0x8000_0000
  /** Stream ids have 31 bits. */
  const ID_LIMIT: int := 0x8000_0000

  type int32 = x: int | MIN_INT32 <= x <= MAX_INT32
  type uint32 = x: int | 0 <= x < 0x1_0000_0000

  predicate FitsInt32(x: int) {
    MIN_INT32 <= x <= MAX_INT32
  }

  /** Two's-complement truncation to 32 bits. */
  function Wrap32(x: int): (r: int32)
    ensures FitsInt32(x) ==> r == x
    ensures (r - x) % 0x1_0000_0000 == 0
  {
    (x + 0x8000_0000) % 0x1_0000_0000 - 0x8000_0000
  }

  /** The overflow test compares signs after a wrapping addition. It accepts
      exactly the additions whose true sum is a 32-bit number, and leaves the
      window alone otherwise. */
  function Added(n: int32, m: int32): (r: (bool, int32))
    ensures r.0 <==> FitsInt32(n + m)
    ensures r.1 == if r.0 then n + m else n
  {
    var sum := Wrap32(n + m);
    if (sum > m) == (n > 0) then (true, sum) else (false, n)
  }

  class Window {
    /** The connection's window, shared by its streams; null on that window itself. */
    const conn: Window?
    var n: int32

    ghost predicate Valid() {
      conn != null ==> conn != this && conn.conn == null
    }

    constructor (n: int32, conn: Window?)
      requires conn != null ==> conn.conn == null
      ensures Valid() && this.n == n && this.conn == conn
    {
      this.n := n;
      this.conn := conn;
    }

    function Available(): (a: int32)
      reads this, conn
      ensures a <= n && (conn != null ==> a <= conn.n)
      ensures a == n || (conn != null && a == conn.n)
    {
      if conn != null && conn.n < n then conn.n else n
    }

    /** The windows that sending on this one draws from. */
    ghost function Debited(): set<Window> {
      if conn == null then {this} else {this, conn}
    }

    /** Taking more than is available is the caller's error. What is taken leaves
        the stream's window and the connection's window alike. */
    method Take(m: int32)
      requires Valid() && m <= Available()
      modifies Debited()`n
      ensures n == Wrap32(old(n) - m)
      ensures conn != null ==> conn.n == Wrap32(old(conn.n) - m)
      ensures 0 <= m ==> 0 <= n == old(n) - m && (conn != null ==> 0 <= conn.n == old(conn.n) - m)
    {
      n := Wrap32(n - m);
      if conn != null {
        conn.n := Wrap32(conn.n - m);
      }
    }

    method Add(m: int32) returns (ok: bool)
      modifies this`n
      ensures ok <==> FitsInt32(old(n) + m)
      ensures n == if ok then old(n) + m else old(n)
    {
      var r := Added(n, m);
      n := r.1;
      return r.0;
    }
  }
}
