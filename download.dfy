/**
 * The resumable download loop of `download_from_drive.py`: the object's size
 * comes from a metadata request, the resume point is the length of the
 * `<name>.part` file, every attempt asks for one inclusive byte range, every
 * streamed piece is appended to the partial file, any exception is followed by
 * another attempt from the current offset, and the partial file is renamed to
 * the final name once the offset reaches the size.
 *
 * The store is an oracle (`Server`): given the attempt number and the range
 * asked for, it says which body pieces arrive before the attempt ends and
 * whether it ends with an exception. The source retries without bound; the
 * model gives the process `fuel` attempts, after which it stops (`Halted`),
 * as a process that is killed would.
 */
module Download {
  import opened Http
  import opened LocalFiles

  /** Bytes asked for per ranged GET (`CHUNK`, 128 MiB). */
  const CHUNK: nat := 128 * 1024 * 1024

  /** The two fields read from the metadata response. */
  datatype Metadata = Metadata(name: string, size: nat)

  /**
   * One ranged GET as the loop sees it: the pieces that `iter_content`
   * yields, in order, until the attempt ends, and whether it ends with an
   * exception (raised by the request, by `raise_for_status`, mid-stream, or
   * by `flush`/`fsync`). An error status is an attempt with no pieces that
   * raises.
   */
  datatype Attempt = Attempt(pieces: seq<seq<bv8>>, raised: bool)

  /** The store: the attempt number and the requested range decide the attempt. */
  type Server = (nat, ByteRange) -> Attempt

  /** One pass of the transfer loop: the range it asked for, the bytes it appended, and how it ended. */
  datatype Step = Step(range: ByteRange, got: seq<bv8>, raised: bool)

  datatype Outcome =
    | Crashed                       // the metadata request itself raised; nothing catches it
    | MetadataFailed(status: nat)   // `meta.raise_for_status()` raised
    | Published(attempts: nat)      // the partial file was renamed to the final name
    | Halted                        // the process stopped with the download unfinished

  /** Name of the staging file for the object called `name`. */
  function PartName(name: string): string
  {
    name + ".part"
  }

  /** The bytes of `pieces`, in order. */
  function Flatten(pieces: seq<seq<bv8>>): seq<bv8>
  {
    if |pieces| == 0 then [] else Flatten(pieces[..|pieces| - 1]) + pieces[|pieces| - 1]
  }

  /** The bytes a sequence of passes appended, in order. */
  function Received(trace: seq<Step>): seq<bv8>
  {
    if |trace| == 0 then [] else trace[0].got + Received(trace[1..])
  }

  /** The ranges a sequence of passes asked for, in order. */
  function Ranges(trace: seq<Step>): seq<ByteRange>
  {
    if |trace| == 0 then [] else [trace[0].range] + Ranges(trace[1..])
  }

  /**
   * The range asked for when `pos` bytes are on disk: from `pos` to
   * `min(pos + chunk - 1, size - 1)`. It starts exactly at `pos`, stays below
   * `size`, is at most `chunk` bytes long, and is shorter only when it reaches
   * the last byte.
   */
  function DownloadRange(pos: nat, size: nat, chunk: nat): (r: ByteRange)
    requires pos < size && 0 < chunk
    ensures r.first == pos && pos <= r.last < size
    ensures Length(r) <= chunk
    ensures Length(r) == chunk || r.last == size - 1
  {
    ByteRange(pos, Min(pos + chunk - 1, size - 1))
  }

  /**
   * The passes the loop makes from offset `pos` and attempt number `k` when
   * the process allows `fuel` more attempts: none once `pos` reaches `size`;
   * otherwise one pass over `DownloadRange(pos, ...)`, and the next pass starts
   * from `pos` plus whatever arrived, whether or not the pass raised.
   */
  function Trace(serve: Server, chunk: nat, size: nat, pos: nat, k: nat, fuel: nat): seq<Step>
    requires 0 < chunk
    decreases fuel
  {
    if size <= pos || fuel == 0 then []
    else
      var range := DownloadRange(pos, size, chunk);
      var attempt := serve(k, range);
      var got := Flatten(attempt.pieces);
      [Step(range, got, attempt.raised)] + Trace(serve, chunk, size, pos + |got|, k + 1, fuel - 1)
  }

  /** One pass of `Trace`, taken apart: the first step and the passes after it. */
  lemma TraceStep(serve: Server, chunk: nat, size: nat, pos: nat, k: nat, fuel: nat)
    requires 0 < chunk && pos < size && 0 < fuel
    ensures var range := DownloadRange(pos, size, chunk);
      var got := Flatten(serve(k, range).pieces);
      var rest := Trace(serve, chunk, size, pos + |got|, k + 1, fuel - 1);
      var t := Trace(serve, chunk, size, pos, k, fuel);
      && t == [Step(range, got, serve(k, range).raised)] + rest
      && t[0].range == range && t[0].got == got && t[1..] == rest
      && Received(t) == got + Received(rest)
      && Ranges(t) == [range] + Ranges(rest)
  {
    var range := DownloadRange(pos, size, chunk);
    var got := Flatten(serve(k, range).pieces);
    var rest := Trace(serve, chunk, size, pos + |got|, k + 1, fuel - 1);
    var t := Trace(serve, chunk, size, pos, k, fuel);
    assert t[1..] == rest;
  }

  /**
   * The download after the metadata request came back `metaReply`, with
   * `meta` as its body. A request that raises, or an error status, aborts
   * before any file is opened. Otherwise the partial file ends up holding
   * what it held before followed by every byte the passes of `Trace`
   * received; it is renamed to the final name exactly when its length
   * reached the size, and is left in place (with the final name untouched)
   * when the attempts ran out first. No other name changes.
   */
  method FetchFile(dir: Folder, metaReply: Reply, meta: Metadata, serve: Server, fuel: nat)
    returns (outcome: Outcome)
    requires dir.Valid()
    modifies dir, dir.Frame(PartName(meta.name))
    ensures dir.Valid()
    ensures metaReply.Raised? ==>
      outcome == Crashed && unchanged(dir) && unchanged(old(dir.Frame(PartName(meta.name))))
    ensures metaReply.Status? && IsErrorStatus(metaReply.code) ==>
      outcome == MetadataFailed(metaReply.code) && unchanged(dir) && unchanged(old(dir.Frame(PartName(meta.name))))
    ensures metaReply.Status? && !IsErrorStatus(metaReply.code) ==>
      var part := PartName(meta.name);
      var stored := old(dir.Stored(part));
      var trace := Trace(serve, CHUNK, meta.size, |stored|, 0, fuel);
      var body := stored + Received(trace);
      if meta.size <= |body| then
        && outcome == Published(|trace|)
        && meta.name in dir.files && dir.files[meta.name].data == body
        && dir.files == (old(dir.files) - {part})[meta.name := dir.files[meta.name]]
      else
        && outcome == Halted && |trace| == fuel
        && part in dir.files && dir.files[part].data == body
        && dir.files == old(dir.files)[part := dir.files[part]]
    ensures metaReply.Status? && !IsErrorStatus(metaReply.code) && meta.size <= |old(dir.Stored(PartName(meta.name)))| ==>
      outcome == Published(0)
  {
    if metaReply.Raised? {
      return Crashed;
    }
    if IsErrorStatus(metaReply.code) {
      return MetadataFailed(metaReply.code);
    }
    var name, size := meta.name, meta.size;
    var part := PartName(name);
    assert |part| == |name| + 5;
    var f := dir.OpenAppend(part);
    var pos, attempts := TransferLoop(f, CHUNK, size, serve, fuel);
    if pos < size {
      return Halted;
    }
    dir.Rename(part, name);
    outcome := Published(attempts);
  }

  /**
   * The `while pos < size` loop over the partial file `f` opened for
   * appending, with `pos` starting at the file's length and ranges of at
   * most `chunk` bytes: the file ends up extended by exactly the bytes the
   * passes of `Trace` received, `pos` is its length, and the loop stops
   * early only when the attempts ran out.
   */
  method TransferLoop(f: File, chunk: nat, size: nat, serve: Server, fuel: nat) returns (pos: nat, attempts: nat)
    requires 0 < chunk
    modifies f
    ensures var trace := Trace(serve, chunk, size, |old(f.data)|, 0, fuel);
      && f.data == old(f.data) + Received(trace)
      && pos == |f.data| && attempts == |trace|
      && (pos < size ==> attempts == fuel)
  {
    pos := |f.data|;
    ghost var stored := f.data;
    ghost var trace := Trace(serve, chunk, size, pos, 0, fuel);
    attempts := 0;
    while pos < size && attempts < fuel
      invariant attempts <= fuel
      invariant |f.data| == pos
      invariant attempts + |Trace(serve, chunk, size, pos, attempts, fuel - attempts)| == |trace|
      invariant f.data + Received(Trace(serve, chunk, size, pos, attempts, fuel - attempts)) == stored + Received(trace)
    {
      var written := TryOnceAccounted(f, chunk, size, serve, pos, attempts, fuel, stored, trace);
      // Whether the attempt ended normally or by an exception, the next one
      // starts from the offset reached (the backoff sleep is not modelled).
      pos := pos + written;
      attempts := attempts + 1;
    }
    TraceEnds(serve, chunk, size, pos, attempts, fuel - attempts);
    assert f.data + [] == f.data;
  }

  /**
   * One pass of the loop body, attempt `k`: ask for the range that starts at
   * `pos` and append every non-empty piece the store sends, whether or not
   * the attempt then raises. The file grows by exactly those bytes, and they
   * are counted.
   */
  method TryOnce(f: File, chunk: nat, size: nat, serve: Server, pos: nat, k: nat) returns (written: nat)
    requires 0 < chunk && pos < size
    modifies f
    ensures f.data == old(f.data) + Flatten(serve(k, DownloadRange(pos, size, chunk)).pieces)
    ensures written == |Flatten(serve(k, DownloadRange(pos, size, chunk)).pieces)|
  {
    var range := DownloadRange(pos, size, chunk);
    var attempt := serve(k, range);
    written := AppendPieces(f, attempt.pieces);
  }

  /**
   * `TryOnce` as the loop sees it, attempt `k` of `fuel`: the file and the
   * passes still to come together still account for the whole of `trace`.
   */
  method TryOnceAccounted(f: File, chunk: nat, size: nat, serve: Server, pos: nat, k: nat, fuel: nat,
                          ghost stored: seq<bv8>, ghost trace: seq<Step>) returns (written: nat)
    requires 0 < chunk && pos < size && k < fuel && |f.data| == pos
    requires k + |Trace(serve, chunk, size, pos, k, fuel - k)| == |trace|
    requires f.data + Received(Trace(serve, chunk, size, pos, k, fuel - k)) == stored + Received(trace)
    modifies f
    ensures |f.data| == pos + written
    ensures k + 1 + |Trace(serve, chunk, size, pos + written, k + 1, fuel - (k + 1))| == |trace|
    ensures f.data + Received(Trace(serve, chunk, size, pos + written, k + 1, fuel - (k + 1))) == stored + Received(trace)
  {
    TransferStep(serve, chunk, size, pos, k, fuel, stored, trace, f.data);
    written := TryOnce(f, chunk, size, serve, pos, k);
  }

  /** One pass of the loop (attempt `k` of `fuel`) keeps its account of what is on disk and what is still to come. */
  lemma TransferStep(serve: Server, chunk: nat, size: nat, pos: nat, k: nat, fuel: nat,
                     stored: seq<bv8>, trace: seq<Step>, before: seq<bv8>)
    requires 0 < chunk && pos < size && k < fuel
    requires k + |Trace(serve, chunk, size, pos, k, fuel - k)| == |trace|
    requires before + Received(Trace(serve, chunk, size, pos, k, fuel - k)) == stored + Received(trace)
    ensures var got := Flatten(serve(k, DownloadRange(pos, size, chunk)).pieces);
      var next := Trace(serve, chunk, size, pos + |got|, k + 1, fuel - (k + 1));
      && k + 1 + |next| == |trace|
      && (before + got) + Received(next) == stored + Received(trace)
  {
    var got := Flatten(serve(k, DownloadRange(pos, size, chunk)).pieces);
    var next := Trace(serve, chunk, size, pos + |got|, k + 1, fuel - (k + 1));
    TraceStep(serve, chunk, size, pos, k, fuel - k);
    ConcatAssoc(before, got, Received(next));
  }

  /** No pass is made once the offset reached the size or the attempts ran out. */
  lemma TraceEnds(serve: Server, chunk: nat, size: nat, pos: nat, k: nat, fuel: nat)
    requires 0 < chunk && (size <= pos || fuel == 0)
    ensures Trace(serve, chunk, size, pos, k, fuel) == []
  {
  }

  lemma ConcatAssoc(a: seq<bv8>, b: seq<bv8>, c: seq<bv8>)
    ensures (a + b) + c == a + (b + c)
  {
  }

  /**
   * Streams one response body into the partial file: every non-empty piece is
   * appended and counted, so the file grows by exactly the bytes counted.
   */
  method AppendPieces(f: File, pieces: seq<seq<bv8>>) returns (written: nat)
    modifies f
    ensures f.data == old(f.data) + Flatten(pieces)
    ensures written == |Flatten(pieces)|
  {
    written := 0;
    assert pieces[..0] == [];
    for i := 0 to |pieces|
      invariant f.data == old(f.data) + Flatten(pieces[..i])
      invariant written == |Flatten(pieces[..i])|
    {
      var piece := pieces[i];
      if |piece| > 0 {
        f.Write(piece);
        written := written + |piece|;
      }
      assert pieces[..i + 1][..i] == pieces[..i];
    }
    assert pieces[..|pieces|] == pieces;
  }

  /**
   * Each pass of `t` asks for the range that starts at the number of bytes on
   * disk before it: the first at `pos`, the next at `pos` plus what the first
   * appended, and so on, each one below `size`.
   */
  ghost predicate FollowsDisk(t: seq<Step>, pos: nat, size: nat, chunk: nat)
    requires 0 < chunk
    decreases |t|
  {
    |t| == 0 ||
      (pos < size && t[0].range == DownloadRange(pos, size, chunk) &&
       FollowsDisk(t[1..], pos + |t[0].got|, size, chunk))
  }

  /**
   * Every range asked for starts exactly at the number of bytes already on
   * disk, so no byte already written is asked for again, and (by
   * `DownloadRange`) lies inside `[pos, size - 1]` with at most `chunk`
   * bytes. This holds after a pass that raised as after one that did not.
   * There are at most `fuel` passes, and fewer only once the offset reached
   * the size.
   */
  lemma {:induction false} RangesStartAtDiskLength(serve: Server, chunk: nat, size: nat, pos: nat, k: nat, fuel: nat)
    requires 0 < chunk
    ensures var t := Trace(serve, chunk, size, pos, k, fuel);
      && |t| <= fuel
      && (|t| < fuel ==> size <= pos + |Received(t)|)
      && FollowsDisk(t, pos, size, chunk)
    decreases fuel
  {
    if size <= pos || fuel == 0 {
    } else {
      var got := Flatten(serve(k, DownloadRange(pos, size, chunk)).pieces);
      TraceStep(serve, chunk, size, pos, k, fuel);
      RangesStartAtDiskLength(serve, chunk, size, pos + |got|, k + 1, fuel - 1);
    }
  }

  /** The store answers every in-bounds range with a prefix of that range of `remote`. */
  ghost predicate Honest(serve: Server, remote: seq<bv8>)
  {
    forall k: nat, r: ByteRange :: r.first <= r.last < |remote| ==>
      Flatten(serve(k, r).pieces) <= remote[r.first..r.last + 1]
  }

  /** The store answers every in-bounds range with exactly that range of `remote`. */
  ghost predicate Exact(serve: Server, remote: seq<bv8>)
  {
    forall k: nat, r: ByteRange :: r.first <= r.last < |remote| ==>
      Flatten(serve(k, r).pieces) == remote[r.first..r.last + 1]
  }

  /**
   * Every pass of `t` asked for a range of `remote` and received a prefix of
   * it (or, when `whole`, all of it).
   */
  ghost predicate FromRemote(t: seq<Step>, remote: seq<bv8>, whole: bool)
    decreases |t|
  {
    |t| == 0 || (Fits(t[0].range, t[0].got, remote, whole) && FromRemote(t[1..], remote, whole))
  }

  /**
   * `got` is what the range `r` of `remote` starts with (when `whole`, all
   * of it), and `r` lies inside `remote`.
   */
  ghost predicate Fits(r: ByteRange, got: seq<bv8>, remote: seq<bv8>, whole: bool)
  {
    && r.first <= r.last < |remote|
    && |got| <= Length(r)
    && got == remote[r.first..r.first + |got|]
    && (whole ==> |got| == Length(r))
  }

  /**
   * The store answers every in-bounds range with a prefix of that range of
   * `remote` (when `whole`, with all of it), in the terms `FromRemote` uses.
   */
  ghost predicate Answers(serve: Server, remote: seq<bv8>, whole: bool)
  {
    forall k: nat, r: ByteRange {:trigger serve(k, r)} :: r.first <= r.last < |remote| ==>
      Fits(r, Flatten(serve(k, r).pieces), remote, whole)
  }

  /** An honest store answers with prefixes; an exact one with whole ranges. */
  lemma StoreAnswers(serve: Server, remote: seq<bv8>, whole: bool)
    requires Honest(serve, remote) && (whole ==> Exact(serve, remote))
    ensures Answers(serve, remote, whole)
  {
    forall k: nat, r: ByteRange | r.first <= r.last < |remote|
      ensures Fits(r, Flatten(serve(k, r).pieces), remote, whole)
    {
      assert Flatten(serve(k, r).pieces) <= remote[r.first..r.last + 1];
    }
  }

  /** Against a store that answers so, the passes receive prefixes of (or whole) ranges of the object. */
  lemma {:induction false} TraceFromRemote(serve: Server, remote: seq<bv8>, whole: bool, chunk: nat, pos: nat, k: nat, fuel: nat)
    requires 0 < chunk && Answers(serve, remote, whole)
    ensures FromRemote(Trace(serve, chunk, |remote|, pos, k, fuel), remote, whole)
    decreases fuel
  {
    if pos < |remote| && 0 < fuel {
      var r := DownloadRange(pos, |remote|, chunk);
      TraceFromRemote(serve, remote, whole, chunk, pos + |Flatten(serve(k, r).pieces)|, k + 1, fuel - 1);
      FromRemoteStep(serve, remote, whole, chunk, pos, k, fuel);
    } else {
      assert Trace(serve, chunk, |remote|, pos, k, fuel) == [];
    }
  }

  /** `FromRemote` over `Trace` is built pass by pass. */
  lemma FromRemoteStep(serve: Server, remote: seq<bv8>, whole: bool, chunk: nat, pos: nat, k: nat, fuel: nat)
    requires 0 < chunk && pos < |remote| && 0 < fuel && Answers(serve, remote, whole)
    requires var got := Flatten(serve(k, DownloadRange(pos, |remote|, chunk)).pieces);
      FromRemote(Trace(serve, chunk, |remote|, pos + |got|, k + 1, fuel - 1), remote, whole)
    ensures FromRemote(Trace(serve, chunk, |remote|, pos, k, fuel), remote, whole)
  {
    var r := DownloadRange(pos, |remote|, chunk);
    var attempt := serve(k, r);
    var got := Flatten(attempt.pieces);
    TraceStep(serve, chunk, |remote|, pos, k, fuel);
    FromRemoteCons(Step(r, got, attempt.raised), Trace(serve, chunk, |remote|, pos + |got|, k + 1, fuel - 1), remote, whole);
  }

  /** `FromRemote` is built pass by pass. */
  lemma FromRemoteCons(s: Step, t: seq<Step>, remote: seq<bv8>, whole: bool)
    requires Fits(s.range, s.got, remote, whole) && FromRemote(t, remote, whole)
    ensures FromRemote([s] + t, remote, whole)
  {
    assert ([s] + t)[1..] == t;
  }

  /** An exact store is an honest one. */
  lemma ExactIsHonest(serve: Server, remote: seq<bv8>)
    requires Exact(serve, remote)
    ensures Honest(serve, remote)
  {
    forall k: nat, r: ByteRange | r.first <= r.last < |remote|
      ensures Flatten(serve(k, r).pieces) <= remote[r.first..r.last + 1]
    {
    }
  }

  /** Passes that follow the disk and receive prefixes of their ranges append the stretch of `remote` from `pos`. */
  lemma {:induction false} PassesAppendRemoteBytes(t: seq<Step>, remote: seq<bv8>, chunk: nat, pos: nat)
    requires 0 < chunk && pos <= |remote|
    requires FollowsDisk(t, pos, |remote|, chunk) && FromRemote(t, remote, false)
    ensures pos + |Received(t)| <= |remote| && Received(t) == remote[pos..pos + |Received(t)|]
    decreases |t|
  {
    if 0 < |t| {
      var got := t[0].got;
      var rest := Received(t[1..]);
      PassesAppendRemoteBytes(t[1..], remote, chunk, pos + |got|);
      assert Received(t) == got + rest;
      assert remote[pos..pos + |got|] + remote[pos + |got|..pos + |got| + |rest|] == remote[pos..pos + |got| + |rest|];
    }
  }

  /**
   * Against an honest store, whatever the passes from `pos` append is the
   * stretch of the remote object that starts at `pos`: nothing is duplicated,
   * skipped or written past the end.
   */
  lemma HonestServerAppendsRemoteBytes(serve: Server, remote: seq<bv8>, chunk: nat, pos: nat, k: nat, fuel: nat)
    requires 0 < chunk && Honest(serve, remote) && pos <= |remote|
    ensures var got := Received(Trace(serve, chunk, |remote|, pos, k, fuel));
      pos + |got| <= |remote| && got == remote[pos..pos + |got|]
  {
    RangesStartAtDiskLength(serve, chunk, |remote|, pos, k, fuel);
    StoreAnswers(serve, remote, false);
    TraceFromRemote(serve, remote, false, chunk, pos, k, fuel);
    PassesAppendRemoteBytes(Trace(serve, chunk, |remote|, pos, k, fuel), remote, chunk, pos);
  }

  /**
   * Resume correctness: when the partial file already held a prefix of the
   * remote object and the store is honest, the partial file stays a prefix of
   * the object, and once its length reaches the size it is the object itself,
   * so the file published under the final name is never short or altered.
   */
  lemma PartialFileStaysPrefix(serve: Server, remote: seq<bv8>, stored: seq<bv8>, fuel: nat)
    requires Honest(serve, remote) && stored <= remote
    ensures var body := stored + Received(Trace(serve, CHUNK, |remote|, |stored|, 0, fuel));
      body <= remote && (|remote| <= |body| ==> body == remote)
  {
    var got := Received(Trace(serve, CHUNK, |remote|, |stored|, 0, fuel));
    HonestServerAppendsRemoteBytes(serve, remote, CHUNK, |stored|, 0, fuel);
    assert stored == remote[..|stored|];
    assert stored + got == remote[..|stored| + |got|];
  }

  /** With full delivery, `n` passes from `pos` reach `pos + n*chunk` or the end of the object. */
  lemma {:induction false} WholePassesAdvance(t: seq<Step>, remote: seq<bv8>, chunk: nat, pos: nat)
    requires 0 < chunk && pos <= |remote|
    requires FollowsDisk(t, pos, |remote|, chunk) && FromRemote(t, remote, true)
    ensures Min(|remote|, pos + |t| * chunk) <= pos + |Received(t)|
    decreases |t|
  {
    if 0 < |t| {
      var got := t[0].got;
      WholePassesAdvance(t[1..], remote, chunk, pos + |got|);
      assert Received(t) == got + Received(t[1..]);
      assert pos + chunk + (|t| - 1) * chunk == pos + |t| * chunk;
    }
  }

  /** Passes that follow the disk, receive whole ranges and reach the end tile `[pos, size)` and receive it. */
  lemma {:induction false} WholePassesTile(t: seq<Step>, remote: seq<bv8>, chunk: nat, pos: nat)
    requires 0 < chunk && pos <= |remote|
    requires FollowsDisk(t, pos, |remote|, chunk) && FromRemote(t, remote, true)
    requires |remote| <= pos + |Received(t)|
    ensures Tiles(Ranges(t), pos, chunk, |remote|) && Received(t) == remote[pos..]
    decreases |t|
  {
    if 0 < |t| {
      var r, got := t[0].range, t[0].got;
      assert Received(t) == got + Received(t[1..]);
      assert Ranges(t) == [r] + Ranges(t[1..]);
      WholePassesTile(t[1..], remote, chunk, pos + |got|);
      if pos + chunk < |remote| {
        assert |got| == chunk;
      } else {
        assert t[1..] == [];
      }
      assert remote[pos..pos + |got|] + remote[pos + |got|..] == remote[pos..];
    }
  }

  /**
   * With a store that always delivers the full range and enough attempts,
   * the passes from `pos` ask for `[pos, pos+chunk-1]`, `[pos+chunk,
   * pos+2*chunk-1]`, ..., the last cut short at `size - 1`, and no more, and
   * together they receive the rest of the object.
   */
  lemma FullDeliveryTiles(serve: Server, remote: seq<bv8>, chunk: nat, pos: nat, k: nat, fuel: nat)
    requires 0 < chunk && Exact(serve, remote) && pos <= |remote| <= pos + fuel * chunk
    ensures var t := Trace(serve, chunk, |remote|, pos, k, fuel);
      Tiles(Ranges(t), pos, chunk, |remote|) && Received(t) == remote[pos..]
  {
    var t := Trace(serve, chunk, |remote|, pos, k, fuel);
    ExactIsHonest(serve, remote);
    RangesStartAtDiskLength(serve, chunk, |remote|, pos, k, fuel);
    StoreAnswers(serve, remote, true);
    TraceFromRemote(serve, remote, true, chunk, pos, k, fuel);
    WholePassesAdvance(t, remote, chunk, pos);
    WholePassesTile(t, remote, chunk, pos);
  }

  /**
   * The pointwise form: with full delivery and at least `size / chunk`
   * (rounded up) attempts, a download from an empty partial file asks for
   * range `i` as `[i*chunk, min((i+1)*chunk, size) - 1]`, exactly as many
   * ranges as it takes to reach the size, and the file receives the whole
   * object.
   */
  lemma FullDeliveryFromEmpty(serve: Server, remote: seq<bv8>, chunk: nat, fuel: nat)
    requires 0 < chunk && Exact(serve, remote) && |remote| <= fuel * chunk
    ensures var rs := Ranges(Trace(serve, chunk, |remote|, 0, 0, fuel));
      && (forall i :: 0 <= i < |rs| ==>
            i * chunk < |remote| && rs[i] == ByteRange(i * chunk, Min(i * chunk + chunk, |remote|) - 1))
      && |remote| <= |rs| * chunk && (0 < |rs| ==> (|rs| - 1) * chunk < |remote|)
      && Received(Trace(serve, chunk, |remote|, 0, 0, fuel)) == remote
  {
    FullDeliveryTiles(serve, remote, chunk, 0, 0, fuel);
    TilesFromZero(Ranges(Trace(serve, chunk, |remote|, 0, 0, fuel)), chunk, |remote|);
  }

  /** The three ranges that cover 10,000,000 bytes in pieces of 4,000,000. */
  lemma TilesOfTenMillion(rs: seq<ByteRange>)
    requires Tiles(rs, 0, 4_000_000, 10_000_000)
    ensures rs == [ByteRange(0, 3_999_999), ByteRange(4_000_000, 7_999_999), ByteRange(8_000_000, 9_999_999)]
  {
    assert Tiles(rs[1..], 4_000_000, 4_000_000, 10_000_000);
    assert Tiles(rs[1..][1..], 8_000_000, 4_000_000, 10_000_000);
    assert Tiles(rs[1..][1..][1..], 12_000_000, 4_000_000, 10_000_000);
    assert |rs| == 3;
  }

  /**
   * A 10,000,000-byte object fetched 4,000,000 bytes at a time with no
   * failures is asked for as `[0, 3999999]`, `[4000000, 7999999]`,
   * `[8000000, 9999999]`, in that order, and nothing else.
   */
  lemma TenMillionBytesInFourMillionByteChunks(serve: Server, remote: seq<bv8>, fuel: nat)
    requires Exact(serve, remote) && |remote| == 10_000_000 && 3 <= fuel
    ensures Ranges(Trace(serve, 4_000_000, 10_000_000, 0, 0, fuel))
         == [ByteRange(0, 3_999_999), ByteRange(4_000_000, 7_999_999), ByteRange(8_000_000, 9_999_999)]
  {
    FullDeliveryTiles(serve, remote, 4_000_000, 0, 0, fuel);
    TilesOfTenMillion(Ranges(Trace(serve, 4_000_000, 10_000_000, 0, 0, fuel)));
  }
}
