/**
 * The numeric side of the HTTP exchanges: byte ranges (section 14.1.2 of
 * RFC 9110), Content-Range values (section 14.4 of RFC 9110) and the status
 * test that `requests.Response.raise_for_status` applies.
 */
module Http {

  /** An inclusive byte range `first-last`, as written in a `Range: bytes=first-last` header. */
  datatype ByteRange = ByteRange(first: nat, last: nat)

  /** A `Content-Range: bytes first-last/complete` value. */
  datatype ContentRange = ContentRange(span: ByteRange, complete: nat)

  /** What a request comes back with: a status code, or an exception (timeout, connection error). */
  datatype Reply = Status(code: nat) | Raised

  function Min(a: int, b: int): int
  {
    if a <= b then a else b
  }

  /** Number of bytes an inclusive range names. */
  function Length(r: ByteRange): nat
    requires r.first <= r.last
  {
    r.last - r.first + 1
  }

  /** `raise_for_status` raises exactly for a 4xx or 5xx status, and `Response.ok` is its negation. */
  predicate IsErrorStatus(status: nat)
  {
    400 <= status < 600
  }

  /**
   * `rs` cuts `[p, size)` into consecutive ranges `chunk` bytes long, the last
   * one cut short at `size - 1`: `[p, p+chunk-1]`, `[p+chunk, p+2*chunk-1]`,
   * ..., with no range left over once `size` is reached.
   */
  ghost predicate Tiles(rs: seq<ByteRange>, p: nat, chunk: nat, size: nat)
    requires 0 < chunk
    decreases |rs|
  {
    if |rs| == 0 then size <= p
    else p < size && rs[0] == ByteRange(p, Min(p + chunk, size) - 1) && Tiles(rs[1..], p + chunk, chunk, size)
  }

  /**
   * Tiling ranges are in bounds, at most `chunk` bytes long, contiguous and
   * non-overlapping (each starts right after the previous one ends), start at
   * `p` and end at `size - 1`.
   */
  lemma {:induction false} TilesAreContiguous(rs: seq<ByteRange>, p: nat, chunk: nat, size: nat)
    requires 0 < chunk && Tiles(rs, p, chunk, size)
    ensures forall i :: 0 <= i < |rs| ==> p <= rs[i].first <= rs[i].last < size && Length(rs[i]) <= chunk
    ensures forall i :: 0 <= i < |rs| - 1 ==> rs[i + 1].first == rs[i].last + 1
    ensures 0 < |rs| ==> rs[0].first == p && rs[|rs| - 1].last == size - 1
    ensures |rs| == 0 <==> size <= p
    decreases |rs|
  {
    if 0 < |rs| {
      TilesAreContiguous(rs[1..], p + chunk, chunk, size);
      assert forall i :: 0 < i < |rs| ==> rs[i] == rs[1..][i - 1];
      if 1 < |rs| {
        assert rs[0].last + 1 == p + chunk;
      }
    }
  }

  /**
   * Range `i` of a tiling from `p` is `[p + i*chunk, min(p + (i+1)*chunk, size) - 1]`.
   */
  lemma {:induction false} TileAt(rs: seq<ByteRange>, p: nat, chunk: nat, size: nat, i: nat)
    requires 0 < chunk && Tiles(rs, p, chunk, size) && i < |rs|
    ensures p + i * chunk < size && rs[i] == ByteRange(p + i * chunk, Min(p + i * chunk + chunk, size) - 1)
    decreases i
  {
    if 0 < i {
      TileAt(rs[1..], p + chunk, chunk, size, i - 1);
      assert p + chunk + (i - 1) * chunk == p + i * chunk;
    }
  }

  /** A tiling from `p` has exactly as many ranges as it takes to reach `size` in steps of `chunk`. */
  lemma {:induction false} TilesCount(rs: seq<ByteRange>, p: nat, chunk: nat, size: nat)
    requires 0 < chunk && Tiles(rs, p, chunk, size)
    ensures size <= p + |rs| * chunk
    ensures 0 < |rs| ==> p + (|rs| - 1) * chunk < size
    decreases |rs|
  {
    if 0 < |rs| {
      TilesCount(rs[1..], p + chunk, chunk, size);
      assert p + chunk + (|rs| - 1) * chunk == p + |rs| * chunk;
      if 1 < |rs| {
        assert p + chunk + (|rs| - 2) * chunk == p + (|rs| - 1) * chunk;
      }
    }
  }

  /**
   * A tiling from 0 is the grid of `chunk`-byte ranges: range `i` is
   * `[i*chunk, min((i+1)*chunk, size) - 1]`, and there are `ceil(size/chunk)`.
   */
  lemma TilesFromZero(rs: seq<ByteRange>, chunk: nat, size: nat)
    requires 0 < chunk && Tiles(rs, 0, chunk, size)
    ensures forall i :: 0 <= i < |rs| ==>
      i * chunk < size && rs[i] == ByteRange(i * chunk, Min(i * chunk + chunk, size) - 1)
    ensures size <= |rs| * chunk && (0 < |rs| ==> (|rs| - 1) * chunk < size)
  {
    TilesCount(rs, 0, chunk, size);
    forall i | 0 <= i < |rs|
      ensures i * chunk < size && rs[i] == ByteRange(i * chunk, Min(i * chunk + chunk, size) - 1)
    {
      TileAt(rs, 0, chunk, size, i);
    }
  }
}
