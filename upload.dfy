/**
 * The resumable upload of `upload_into_drive.py`: a session request whose
 * failure is fatal, then a loop that PUTs the file in consecutive chunks of
 * `min(CHUNK, file_size - uploaded)` bytes, each labelled with its
 * `Content-Range`, and dispatches on the status of every reply: 200 or 201
 * ends the upload successfully, 308 ("resume incomplete") moves on to the
 * next chunk, and anything else ends the process with a failure.
 *
 * The store's replies are an oracle indexed by the number of the PUT. A
 * request that raises is not caught by the source, so it ends the process.
 */
module Upload {
  import opened Http

  /** Bytes per PUT (`CHUNK`, 32 MiB). */
  const CHUNK: nat := 32 * 1024 * 1024

  /** One PUT to the session URL: its `Content-Range` and its body. */
  datatype Put = Put(range: ContentRange, body: seq<bv8>)

  datatype Outcome =
    | InitRejected(status: nat)   // `init_response.raise_for_status()` raised
    | Completed                   // a PUT was answered 200 or 201
    | Rejected(status: nat)       // a PUT was answered with another status: `sys.exit(1)`
    | Crashed                     // a request raised; nothing catches it
    | Drained                     // the loop ran out of data without a 200/201

  /**
   * The length of the next chunk, `min(chunk, size - uploaded)`: never empty,
   * never past the end, and short only for the last chunk.
   */
  function UploadLength(uploaded: nat, size: nat, chunk: nat): (n: nat)
    requires uploaded < size && 0 < chunk
    ensures 0 < n <= chunk && uploaded + n <= size
    ensures n == chunk || uploaded + n == size
  {
    Min(chunk, size - uploaded)
  }

  /**
   * The PUTs the loop sends from offset `uploaded` when every reply is 308:
   * chunk after chunk, each labelled `bytes uploaded-(uploaded+len-1)/size`
   * and carrying those bytes of the file.
   */
  function Plan(data: seq<bv8>, chunk: nat, uploaded: nat): seq<Put>
    requires 0 < chunk && uploaded <= |data|
    decreases |data| - uploaded
  {
    if |data| <= uploaded then []
    else [ChunkPut(data, uploaded, chunk)] + Plan(data, chunk, uploaded + UploadLength(uploaded, |data|, chunk))
  }

  /**
   * One pass of the loop before the PUT: read `min(chunk, size - uploaded)`
   * bytes (the read returns all of them) and label them with
   * `bytes uploaded-(uploaded+n-1)/size`. The PUT starts at `uploaded`,
   * declares the full size, and carries exactly the bytes its range names.
   */
  function ChunkPut(data: seq<bv8>, uploaded: nat, chunk: nat): (p: Put)
    requires 0 < chunk && uploaded < |data|
    ensures Carries(p, data) && p.range.span.first == uploaded
    ensures |p.body| == UploadLength(uploaded, |data|, chunk)
  {
    var n := UploadLength(uploaded, |data|, chunk);
    Put(ContentRange(ByteRange(uploaded, uploaded + n - 1), |data|), data[uploaded..uploaded + n])
  }

  /**
   * The index of the first reply from `i` on that is not a 308, or `n` when
   * replies `i` to `n - 1` are all 308.
   */
  function FirstNon308(answer: nat -> Reply, i: nat, n: nat): (j: nat)
    requires i <= n
    ensures i <= j <= n
    ensures forall m :: i <= m < j ==> answer(m) == Status(308)
    ensures j < n ==> answer(j) != Status(308)
    decreases n - i
  {
    if i == n then n
    else if answer(i) == Status(308) then FirstNon308(answer, i + 1, n)
    else i
  }

  /**
   * The PUTs sent and the outcome when the replies to the PUTs of `plan` are
   * `answer(0)`, `answer(1)`, ...: the PUTs up to and including the first one
   * not answered 308, whose reply decides the outcome, or all of them and no
   * verdict when every reply is 308.
   */
  ghost predicate StopsAtFirstNon308(plan: seq<Put>, answer: nat -> Reply, outcome: Outcome, puts: seq<Put>)
  {
    var j := FirstNon308(answer, 0, |plan|);
    if j < |plan| then puts == plan[..j + 1] && outcome == Verdict(answer(j))
    else puts == plan && outcome == Drained
  }

  /**
   * How the loop ends on a reply that is not 308: 200 or 201 completes the
   * upload, an exception crashes it, and any other status rejects it.
   */
  function Verdict(reply: Reply): (o: Outcome)
    ensures (reply == Status(200) || reply == Status(201)) <==> o == Completed
    ensures reply.Raised? <==> o == Crashed
    ensures o.Rejected? <==> reply.Status? && reply.code != 200 && reply.code != 201
    ensures o.Rejected? ==> reply == Status(o.status)
    ensures !o.InitRejected? && !o.Drained?
  {
    match reply
    case Raised => Crashed
    case Status(code) => if code == 200 || code == 201 then Completed else Rejected(code)
  }

  /**
   * The upload of `data` after the session request came back `init`. A
   * session request that raises or gets a 4xx/5xx status ends everything
   * before any PUT. Otherwise the PUTs sent are the ones `Plan` lists, up to
   * and including the first one answered with something other than 308 (or
   * all of them, when there is no such answer), and that answer decides the
   * outcome.
   */
  method UploadFile(data: seq<bv8>, init: Reply, answer: nat -> Reply) returns (outcome: Outcome, puts: seq<Put>)
    ensures init.Raised? ==> outcome == Crashed && puts == []
    ensures init.Status? && IsErrorStatus(init.code) ==> outcome == InitRejected(init.code) && puts == []
    ensures init.Status? && !IsErrorStatus(init.code) ==>
      StopsAtFirstNon308(Plan(data, CHUNK, 0), answer, outcome, puts)
  {
    if init.Raised? {
      return Crashed, [];
    }
    if IsErrorStatus(init.code) {
      return InitRejected(init.code), [];
    }
    outcome, puts := SendChunks(data, answer);
  }

  /**
   * The `while uploaded < file_size` loop: the PUTs of `Plan` in order, up to
   * and including the first one answered with something other than 308.
   */
  method SendChunks(data: seq<bv8>, answer: nat -> Reply) returns (outcome: Outcome, puts: seq<Put>)
    ensures StopsAtFirstNon308(Plan(data, CHUNK, 0), answer, outcome, puts)
  {
    ghost var plan := Plan(data, CHUNK, 0);
    var uploaded := 0;
    puts := [];
    while uploaded < |data|
      invariant uploaded <= |data|
      invariant plan == puts + Plan(data, CHUNK, uploaded)
      invariant All308(answer, |puts|)
      decreases |data| - uploaded
    {
      var put, reply := PutChunk(data, uploaded, answer, plan, puts);
      if reply != Status(308) {
        // 200/201 return as a success, every other reply ends the process.
        return Verdict(reply), puts + [put];
      }
      puts := puts + [put];
      uploaded := uploaded + |put.body|;
    }
    assert puts == plan;
    StopAtEnd(plan, answer);
    outcome := Drained;
  }

  /**
   * One pass of the loop: read the chunk at `uploaded`, PUT it, and take its
   * reply. The PUT is the next one of the plan; on a 308 the plan goes on from
   * `uploaded` plus its length, on anything else the upload stops there.
   */
  method PutChunk(data: seq<bv8>, uploaded: nat, answer: nat -> Reply, ghost plan: seq<Put>, sent: seq<Put>)
    returns (put: Put, reply: Reply)
    requires uploaded < |data| && plan == sent + Plan(data, CHUNK, uploaded) && All308(answer, |sent|)
    ensures reply == answer(|sent|)
    ensures 0 < |put.body| && uploaded + |put.body| <= |data|
    ensures reply == Status(308) ==>
      plan == (sent + [put]) + Plan(data, CHUNK, uploaded + |put.body|) && All308(answer, |sent + [put]|)
    ensures reply != Status(308) ==> StopsAtFirstNon308(plan, answer, Verdict(reply), sent + [put])
  {
    put := ChunkPut(data, uploaded, CHUNK);
    SendNext(data, CHUNK, uploaded, plan, sent);
    reply := answer(|sent|);
    if reply != Status(308) {
      StopAt(plan, answer, sent, put);
    }
  }

  /** Sending the next planned PUT: the PUTs sent stay a prefix of the plan, followed by the plan from the new offset. */
  lemma SendNext(data: seq<bv8>, chunk: nat, uploaded: nat, plan: seq<Put>, sent: seq<Put>)
    requires 0 < chunk && uploaded < |data| && plan == sent + Plan(data, chunk, uploaded)
    ensures var put := ChunkPut(data, uploaded, chunk);
      && plan == (sent + [put]) + Plan(data, chunk, uploaded + |put.body|)
      && sent + [put] == plan[..|sent| + 1]
  {
    var put := ChunkPut(data, uploaded, chunk);
    assert sent + ([put] + Plan(data, chunk, uploaded + |put.body|)) == (sent + [put]) + Plan(data, chunk, uploaded + |put.body|);
  }

  /** Stopping at the first PUT whose reply is not 308. */
  lemma StopAt(plan: seq<Put>, answer: nat -> Reply, sent: seq<Put>, put: Put)
    requires |sent| < |plan| && sent + [put] == plan[..|sent| + 1]
    requires All308(answer, |sent|) && answer(|sent|) != Status(308)
    ensures StopsAtFirstNon308(plan, answer, Verdict(answer(|sent|)), sent + [put])
  {
    All308Means(answer, |sent|);
    FirstNon308Is(answer, |sent|, |plan|);
  }

  /** Running out of PUTs when every reply was 308. */
  lemma StopAtEnd(plan: seq<Put>, answer: nat -> Reply)
    requires All308(answer, |plan|)
    ensures StopsAtFirstNon308(plan, answer, Drained, plan)
  {
    All308Means(answer, |plan|);
  }

  /** Replies `0` to `n - 1` are all 308. */
  ghost predicate All308(answer: nat -> Reply, n: nat)
    decreases n
  {
    n == 0 || (All308(answer, n - 1) && answer(n - 1) == Status(308))
  }

  lemma {:induction false} All308Means(answer: nat -> Reply, n: nat)
    requires All308(answer, n)
    ensures forall m :: 0 <= m < n ==> answer(m) == Status(308)
    decreases n
  {
    if 0 < n {
      All308Means(answer, n - 1);
    }
  }

  /** A reply that is not 308 after `j` replies that all are is the first such reply. */
  lemma FirstNon308Is(answer: nat -> Reply, j: nat, n: nat)
    requires j < n && answer(j) != Status(308)
    requires forall m :: 0 <= m < j ==> answer(m) == Status(308)
    ensures FirstNon308(answer, 0, n) == j
  {
  }

  /** The byte ranges the PUTs name, in order. */
  function Spans(puts: seq<Put>): seq<ByteRange>
  {
    if |puts| == 0 then [] else [puts[0].range.span] + Spans(puts[1..])
  }

  /** The bodies of the PUTs, concatenated in order. */
  function Bodies(puts: seq<Put>): seq<bv8>
  {
    if |puts| == 0 then [] else puts[0].body + Bodies(puts[1..])
  }

  /**
   * The planned PUTs from `uploaded` name the ranges that tile
   * `[uploaded, size)` in steps of `chunk`.
   */
  lemma {:induction false} PlanTiles(data: seq<bv8>, chunk: nat, uploaded: nat)
    requires 0 < chunk && uploaded <= |data|
    ensures Tiles(Spans(Plan(data, chunk, uploaded)), uploaded, chunk, |data|)
    decreases |data| - uploaded
  {
    if uploaded < |data| {
      var n := UploadLength(uploaded, |data|, chunk);
      var plan := Plan(data, chunk, uploaded);
      PlanTiles(data, chunk, uploaded + n);
      assert plan[1..] == Plan(data, chunk, uploaded + n);
      if uploaded + chunk >= |data| {
        assert Plan(data, chunk, uploaded + n) == [];
      }
    }
  }

  /**
   * Every planned PUT declares the full size of the file and carries exactly
   * the bytes of the file its range names.
   */
  lemma {:induction false} PlanCarriesData(data: seq<bv8>, chunk: nat, uploaded: nat)
    requires 0 < chunk && uploaded <= |data|
    ensures forall i :: 0 <= i < |Plan(data, chunk, uploaded)| ==> Carries(Plan(data, chunk, uploaded)[i], data)
    decreases |data| - uploaded
  {
    if uploaded < |data| {
      var n := UploadLength(uploaded, |data|, chunk);
      var plan := Plan(data, chunk, uploaded);
      var later := Plan(data, chunk, uploaded + n);
      PlanCarriesData(data, chunk, uploaded + n);
      assert plan == [ChunkPut(data, uploaded, chunk)] + later;
      forall i | 0 <= i < |plan|
        ensures Carries(plan[i], data)
      {
        if 0 < i {
          assert plan[i] == later[i - 1];
        } else {
          assert plan[0].range.span == ByteRange(uploaded, uploaded + n - 1);
        }
      }
    }
  }

  /** `put` declares the full size of `data` and carries exactly the bytes of `data` its range names. */
  ghost predicate Carries(put: Put, data: seq<bv8>)
  {
    var r := put.range.span;
    put.range.complete == |data| && r.first <= r.last < |data| && put.body == data[r.first..r.last + 1]
  }

  /** The planned PUTs from `uploaded`, sent in order, carry the rest of the file. */
  lemma {:induction false} PlanReassembles(data: seq<bv8>, chunk: nat, uploaded: nat)
    requires 0 < chunk && uploaded <= |data|
    ensures Bodies(Plan(data, chunk, uploaded)) == data[uploaded..]
    decreases |data| - uploaded
  {
    if uploaded < |data| {
      var n := UploadLength(uploaded, |data|, chunk);
      var later := Plan(data, chunk, uploaded + n);
      PlanReassembles(data, chunk, uploaded + n);
      PlanStep(data, chunk, uploaded);
      assert data[uploaded..uploaded + n] + data[uploaded + n..] == data[uploaded..];
    }
  }

  /** The first planned PUT carries the first chunk; the rest of the plan starts after it. */
  lemma PlanStep(data: seq<bv8>, chunk: nat, uploaded: nat)
    requires 0 < chunk && uploaded < |data|
    ensures var n := UploadLength(uploaded, |data|, chunk);
      Bodies(Plan(data, chunk, uploaded)) == data[uploaded..uploaded + n] + Bodies(Plan(data, chunk, uploaded + n))
  {
    var n := UploadLength(uploaded, |data|, chunk);
    var plan := Plan(data, chunk, uploaded);
    assert plan == [ChunkPut(data, uploaded, chunk)] + Plan(data, chunk, uploaded + n);
    assert plan[1..] == Plan(data, chunk, uploaded + n);
  }

  /**
   * The planned PUTs, and so the PUTs sent whatever the replies (a prefix of
   * them), are contiguous and do not overlap: the first starts at byte 0,
   * each starts right after the previous one ends, each is in bounds and at
   * most `CHUNK` bytes long, each declares the full size, and each carries
   * the bytes of the file its range names.
   */
  lemma SentRangesAreContiguous(data: seq<bv8>)
    ensures var plan := Plan(data, CHUNK, 0);
      && (0 < |plan| ==> plan[0].range.span.first == 0)
      && (forall i :: 0 <= i < |plan| - 1 ==> plan[i + 1].range.span.first == plan[i].range.span.last + 1)
      && (forall i :: 0 <= i < |plan| ==> Carries(plan[i], data) && Length(plan[i].range.span) <= CHUNK)
  {
    PlanTiles(data, CHUNK, 0);
    PlanCarriesData(data, CHUNK, 0);
    TiledSpansAreContiguous(Plan(data, CHUNK, 0), CHUNK, |data|);
  }

  lemma TiledSpansAreContiguous(puts: seq<Put>, chunk: nat, size: nat)
    requires 0 < chunk && Tiles(Spans(puts), 0, chunk, size)
    ensures 0 < |puts| ==> puts[0].range.span.first == 0
    ensures forall i :: 0 <= i < |puts| - 1 ==> puts[i + 1].range.span.first == puts[i].range.span.last + 1
    ensures forall i :: 0 <= i < |puts| ==>
      puts[i].range.span.first <= puts[i].range.span.last < size && Length(puts[i].range.span) <= chunk
  {
    TilesAreContiguous(Spans(puts), 0, chunk, size);
    SpansIndex(puts);
  }

  lemma {:induction false} SpansIndex(puts: seq<Put>)
    ensures |Spans(puts)| == |puts|
    ensures forall i :: 0 <= i < |puts| ==> Spans(puts)[i] == puts[i].range.span
    decreases |puts|
  {
    if 0 < |puts| {
      SpansIndex(puts[1..]);
      assert forall i :: 0 < i < |puts| ==> puts[i] == puts[1..][i - 1];
    }
  }

  /**
   * There are `ceil(size / CHUNK)` planned PUTs, none for an empty file, and
   * when every one is sent the file arrives whole, in order.
   */
  lemma PlanLength(data: seq<bv8>)
    ensures var plan := Plan(data, CHUNK, 0);
      && |data| <= |plan| * CHUNK
      && (0 < |plan| ==> (|plan| - 1) * CHUNK < |data|)
      && (|plan| == 0 <==> |data| == 0)
      && Bodies(plan) == data
  {
    var plan := Plan(data, CHUNK, 0);
    PlanTiles(data, CHUNK, 0);
    PlanReassembles(data, CHUNK, 0);
    TilesCount(Spans(plan), 0, CHUNK, |data|);
    TilesAreContiguous(Spans(plan), 0, CHUNK, |data|);
    SpansIndex(plan);
  }

  /**
   * When the store answers 308 to the first `k` PUTs and 200 or 201 to the
   * next one, the upload completes after exactly `k + 1` PUTs, and that is
   * the only way the loop can end on these replies.
   */
  lemma ExactPutCount(data: seq<bv8>, answer: nat -> Reply, k: nat)
    requires k < |Plan(data, CHUNK, 0)|
    requires forall m :: 0 <= m < k ==> answer(m) == Status(308)
    requires answer(k) == Status(200) || answer(k) == Status(201)
    ensures var plan := Plan(data, CHUNK, 0);
      forall outcome, puts :: StopsAtFirstNon308(plan, answer, outcome, puts) <==>
        outcome == Completed && puts == plan[..k + 1] && |puts| == k + 1
  {
    FirstNon308Is(answer, k, |Plan(data, CHUNK, 0)|);
  }
}
