/** The MPI bzip2 driver's partitioning: the compressor's fixed-size chunks,
    the decompressor's scan for block headers, the round-robin sends to the
    worker ranks with their sequence numbers and terminators, and the
    workers' receive loop. Messages are modelled as a list in sending order;
    the compression library itself is not modelled. */
module Bzip2Chunks {

  newtype byte = x: int | 0 <= x < 256

  /** `BLOCK_SIZE` of the benchmark. */
  const BLOCK_SIZE: nat := 900000

  /** How far past a block start the decompressor looks for the next header
      when the input is large. */
  const SCAN_LIMIT: nat := BLOCK_SIZE + 10000

  /** `BZh91AY&SY`: the stream magic `BZh9` followed by the block magic
      0x314159265359. */
  const HEADER: seq<byte> := [0x42, 0x5A, 0x68, 0x39, 0x31, 0x41, 0x59, 0x26, 0x53, 0x59]

  /** A span `[start, end)` of the input. */
  datatype Span = Span(start: nat, end: nat)

  predicate ValidSpans(spans: seq<Span>, len: nat)
  {
    forall i :: 0 <= i < |spans| ==> spans[i].start <= spans[i].end <= len
  }

  /** The spans, one after the other, cover `[from, to)` without gap. */
  predicate Tiles(spans: seq<Span>, from: nat, to: nat)
  {
    (spans == [] ==> from == to) &&
    (spans != [] ==>
       spans[0].start == from && spans[|spans| - 1].end == to &&
       (forall i :: 0 <= i < |spans| ==> spans[i].start < spans[i].end) &&
       (forall i :: 0 <= i < |spans| - 1 ==> spans[i].end == spans[i + 1].start))
  }

  /** The bytes of the spans, in order. */
  function Gather(input: seq<byte>, spans: seq<Span>): seq<byte>
    requires ValidSpans(spans, |input|)
  {
    if spans == [] then [] else input[spans[0].start..spans[0].end] + Gather(input, spans[1..])
  }

  /** Spans that tile `[from, |input|)` gather back exactly those bytes. */
  lemma {:induction false} GatherTiles(input: seq<byte>, spans: seq<Span>, from: nat)
    requires from <= |input| && ValidSpans(spans, |input|) && Tiles(spans, from, |input|)
    ensures Gather(input, spans) == input[from..]
  {
    if spans != [] {
      var s := spans[0];
      assert Tiles(spans[1..], s.end, |input|);
      GatherTiles(input, spans[1..], s.end);
      assert input[from..] == input[from..s.end] + input[s.end..];
    }
  }

  lemma TilesCons(s: Span, rest: seq<Span>, to: nat)
    requires s.start < s.end && Tiles(rest, s.end, to)
    ensures Tiles([s] + rest, s.start, to)
  {
    var all := [s] + rest;
    assert forall i :: 0 < i < |all| ==> all[i] == rest[i - 1];
  }

  // ---------------------------------------------------------------------
  // Compression: fixed-size chunks.

  /** The chunks from `pos` on: `BLOCK_SIZE` bytes each, the last one the
      remainder. */
  function Chunks(pos: nat, len: nat): (r: seq<Span>)
    ensures ValidSpans(r, len)
    decreases len - pos
  {
    if pos >= len then []
    else
      var end := if len - pos < BLOCK_SIZE then len else pos + BLOCK_SIZE;
      [Span(pos, end)] + Chunks(end, len)
  }

  /** The chunks tile the input; all of them are `BLOCK_SIZE` long but the
      last, which holds the remaining 1 to `BLOCK_SIZE` bytes. */
  lemma {:induction false} ChunksTile(pos: nat, len: nat)
    requires pos <= len
    ensures var c := Chunks(pos, len);
            Tiles(c, pos, len) &&             (forall i :: 0 <= i < |c| - 1 ==> c[i].end - c[i].start == BLOCK_SIZE) &&
            (c != [] ==> 0 < c[|c| - 1].end - c[|c| - 1].start <= BLOCK_SIZE)
    decreases len - pos
  {
    if pos < len {
      var c := Chunks(pos, len);
      var end := c[0].end;
      ChunksTile(end, len);
      TilesCons(c[0], Chunks(end, len), len);
      assert forall i :: 0 < i < |c| ==> c[i] == Chunks(end, len)[i - 1];
    }
  }

  /** The number of chunks is the number of receives the root posts:
      `(len + BLOCK_SIZE - 1) / BLOCK_SIZE`. */
  lemma {:induction false} ChunkCount(pos: nat, len: nat)
    requires pos <= len
    ensures |Chunks(pos, len)| == (len - pos + BLOCK_SIZE - 1) / BLOCK_SIZE
    decreases len - pos
  {
    if pos < len {
      if len - pos < BLOCK_SIZE {
        assert Chunks(pos + (len - pos), len) == [];
      } else {
        ChunkCount(pos + BLOCK_SIZE, len);
        assert (len - pos + BLOCK_SIZE - 1) == (len - (pos + BLOCK_SIZE) + BLOCK_SIZE - 1) + BLOCK_SIZE;
      }
    }
  }

  // ---------------------------------------------------------------------
  // Sends.

  /** What the root sends: a data message (its size is the length of its
      bytes) with its sequence number, or a size-0 terminator. */
  datatype Message = Data(rank: nat, bytes: seq<byte>, sn: nat) | Stop(rank: nat)

  /** `target_rank += 1; if target_rank == threads { target_rank = 1 }`. */
  function NextRank(rank: nat, threads: nat): nat
  {
    if rank + 1 == threads then 1 else rank + 1
  }

  /** The rank the `k`-th piece goes to: rank 1 first, then one step of
      `NextRank` per piece. */
  function Target(k: nat, threads: nat): (r: nat)
    requires threads >= 2
    ensures 1 <= r < threads
  {
    if k == 0 then 1 else NextRank(Target(k - 1, threads), threads)
  }

  lemma {:induction false} MulAtLeast(d: nat, m: nat)
    requires d >= 1
    ensures d * m >= m
    decreases d
  {
    if d > 1 {
      MulAtLeast(d - 1, m);
      assert d * m == (d - 1) * m + m;
    }
  }

  /** Euclidean division leaves a unique remainder. */
  lemma ModUnique(a: int, m: int, q: int, r: int)
    requires m >= 1 && 0 <= r < m && a == q * m + r
    ensures a % m == r
  {
    var q0, r0 := a / m, a % m;
    assert a == q0 * m + r0;
    if q0 < q {
      assert (q - q0) * m == r0 - r;
      MulAtLeast(q - q0, m);
    } else if q0 > q {
      assert (q0 - q) * m == r - r0;
      MulAtLeast(q0 - q, m);
    }
  }

  /** The ranks go round robin: piece `k` goes to rank
      `1 + k % (threads - 1)`. */
  lemma {:induction false} TargetRoundRobin(k: nat, threads: nat)
    requires threads >= 2
    ensures Target(k, threads) == 1 + k % (threads - 1)
  {
    if k > 0 {
      TargetRoundRobin(k - 1, threads);
      var m := threads - 1;
      var q, r := (k - 1) / m, (k - 1) % m;
      assert k - 1 == q * m + r;
      if r + 1 == m {
        ModUnique(k, m, q + 1, 0);
      } else {
        ModUnique(k, m, q, r + 1);
      }
    }
  }

  /** The data messages for the pieces `spans`, numbered from `k`. */
  function DataSends(input: seq<byte>, spans: seq<Span>, threads: nat, k: nat): (r: seq<Message>)
    requires threads >= 2 && ValidSpans(spans, |input|)
    ensures |r| == |spans|
  {
    if spans == [] then []
    else [Data(Target(k, threads), input[spans[0].start..spans[0].end], k)] + DataSends(input, spans[1..], threads, k + 1)
  }

  /** Piece `i` goes, numbered `k + i`, to the rank of piece `k + i`, with
      exactly its bytes. */
  lemma {:induction false} DataSendsAt(input: seq<byte>, spans: seq<Span>, threads: nat, k: nat)
    requires threads >= 2 && ValidSpans(spans, |input|)
    ensures var r := DataSends(input, spans, threads, k);
            forall i :: 0 <= i < |r| ==> r[i] == Data(Target(k + i, threads), input[spans[i].start..spans[i].end], k + i)
  {
    if spans != [] {
      DataSendsAt(input, spans[1..], threads, k + 1);
      var r := DataSends(input, spans, threads, k);
      var rest := DataSends(input, spans[1..], threads, k + 1);
      forall i | 0 < i < |r|
        ensures r[i] == Data(Target(k + i, threads), input[spans[i].start..spans[i].end], k + i)
      {
        assert r[i] == rest[i - 1] && spans[i] == spans[1..][i - 1];
      }
    }
  }

  /** One terminator for each worker rank 1 .. threads - 1, in rank order. */
  function Stops(threads: nat): (r: seq<Message>)
    ensures |r| == if threads <= 1 then 0 else threads - 1
    ensures forall j :: 0 <= j < |r| ==> r[j] == Stop(j + 1)
  {
    if threads <= 1 then [] else Stops(threads - 1) + [Stop(threads - 1)]
  }

  /** Everything the root sends for the pieces `spans`. */
  function Sends(input: seq<byte>, spans: seq<Span>, threads: nat): seq<Message>
    requires threads >= 2 && ValidSpans(spans, |input|)
  {
    DataSends(input, spans, threads, 0) + Stops(threads)
  }

  /** The sends in order: piece `i` with sequence number `i` to rank
      `1 + i % (threads - 1)`, never rank 0 or a rank past the last worker,
      then one terminator per worker. */
  lemma SendsShape(input: seq<byte>, spans: seq<Span>, threads: nat)
    requires threads >= 2 && ValidSpans(spans, |input|)
    ensures var s := Sends(input, spans, threads);
            |s| == |spans| + threads - 1 &&
            (forall i :: 0 <= i < |spans| ==>
               s[i].Data? && s[i].sn == i && s[i].rank == Target(i, threads) && 1 <= s[i].rank < threads &&
               s[i].bytes == input[spans[i].start..spans[i].end]) &&
            (forall j :: |spans| <= j < |s| ==> s[j] == Stop(j - |spans| + 1))
  {
    DataSendsAt(input, spans, threads, 0);
  }

  lemma SnocAssoc(a: seq<Message>, m: Message, b: seq<Message>)
    ensures (a + [m]) + b == a + ([m] + b)
  {
  }

  /** The first data message from `pos` on carries the next chunk. */
  lemma ChunkStep(input: seq<byte>, pos: nat, threads: nat, k: nat)
    requires threads >= 2 && pos < |input|
    ensures var end := if |input| - pos < BLOCK_SIZE then |input| else pos + BLOCK_SIZE;
            DataSends(input, Chunks(pos, |input|), threads, k) ==
            [Data(Target(k, threads), input[pos..end], k)] + DataSends(input, Chunks(end, |input|), threads, k + 1)
  {
    var c := Chunks(pos, |input|);
    assert c[1..] == Chunks(c[0].end, |input|);
  }

  /** The compressing root's sending thread: chunk, send, step the rank;
      then terminate every worker. */
  method CompressSends(input: seq<byte>, threads: nat) returns (sends: seq<Message>)
    requires threads >= 2
    ensures sends == Sends(input, Chunks(0, |input|), threads)
  {
    var targetRank := 1;
    var sequenceNumber := 0;
    var posInit: nat;
    var posEnd: nat := 0;
    var bytesLeft := |input|;
    sends := [];
    while bytesLeft > 0
      invariant posEnd + bytesLeft == |input|
      invariant targetRank == Target(sequenceNumber, threads)
      invariant sends + DataSends(input, Chunks(posEnd, |input|), threads, sequenceNumber) ==
                DataSends(input, Chunks(0, |input|), threads, 0)
      decreases bytesLeft
    {
      posInit := posEnd;
      posEnd := posEnd + if bytesLeft < BLOCK_SIZE then |input| - posEnd else BLOCK_SIZE;
      bytesLeft := bytesLeft - (posEnd - posInit);
      var m := Data(targetRank, input[posInit..posEnd], sequenceNumber);
      ChunkStep(input, posInit, threads, sequenceNumber);
      SnocAssoc(sends, m, DataSends(input, Chunks(posEnd, |input|), threads, sequenceNumber + 1));
      sends := sends + [m];
      sequenceNumber := sequenceNumber + 1;
      targetRank := targetRank + 1;
      if targetRank == threads {
        targetRank := 1;
      }
    }
    assert sends + [] == sends;
    sends := AppendStops(sends, threads);
  }

  /** The bytes the data messages carry, in sending order. */
  function Payload(ms: seq<Message>): seq<byte>
  {
    if ms == [] then [] else (if ms[0].Data? then ms[0].bytes else []) + Payload(ms[1..])
  }

  /** The data messages carry the pieces' bytes, in order. */
  lemma {:induction false} PayloadDataSends(input: seq<byte>, spans: seq<Span>, threads: nat, k: nat)
    requires threads >= 2 && ValidSpans(spans, |input|)
    ensures Payload(DataSends(input, spans, threads, k)) == Gather(input, spans)
  {
    if spans != [] {
      var d := DataSends(input, spans, threads, k);
      var rest := DataSends(input, spans[1..], threads, k + 1);
      var m := Data(Target(k, threads), input[spans[0].start..spans[0].end], k);
      assert d == [m] + rest;
      assert d[0] == m && d[1..] == rest;
      PayloadDataSends(input, spans[1..], threads, k + 1);
    }
  }

  /** The compressor sends every byte of the input exactly once, in order. */
  lemma ChunksCover(input: seq<byte>, threads: nat)
    requires threads >= 2
    ensures Payload(DataSends(input, Chunks(0, |input|), threads, 0)) == input
  {
    ChunksTile(0, |input|);
    GatherTiles(input, Chunks(0, |input|), 0);
    PayloadDataSends(input, Chunks(0, |input|), threads, 0);
  }

  /** `for i in 1..threads { send 0u32 to i }`. */
  method AppendStops(sent: seq<Message>, threads: nat) returns (sends: seq<Message>)
    requires threads >= 2
    ensures sends == sent + Stops(threads)
  {
    sends := sent;
    for i := 1 to threads
      invariant sends == sent + Stops(i)
    {
      sends := sends + [Stop(i)];
    }
  }

  /** The decompressing root's sending thread: the blocks found by the
      scan, numbered in order, round-robin; then the terminators. */
  method BlockSends(input: seq<byte>, blocks: seq<Span>, threads: nat) returns (sends: seq<Message>)
    requires threads >= 2 && ValidSpans(blocks, |input|)
    ensures sends == Sends(input, blocks, threads)
  {
    var targetRank := 1;
    sends := [];
    for sequenceNumber := 0 to |blocks|
      invariant targetRank == Target(sequenceNumber, threads)
      invariant sends + DataSends(input, blocks[sequenceNumber..], threads, sequenceNumber) ==
                DataSends(input, blocks, threads, 0)
    {
      var block := blocks[sequenceNumber];
      var m := Data(targetRank, input[block.start..block.end], sequenceNumber);
      BlockStep(input, blocks, threads, sequenceNumber);
      SnocAssoc(sends, m, DataSends(input, blocks[sequenceNumber + 1..], threads, sequenceNumber + 1));
      sends := sends + [m];
      targetRank := targetRank + 1;
      if targetRank == threads {
        targetRank := 1;
      }
    }
    assert sends + [] == sends;
    sends := AppendStops(sends, threads);
  }

  /** The data message for block `j` comes first among those from `j` on. */
  lemma BlockStep(input: seq<byte>, blocks: seq<Span>, threads: nat, j: nat)
    requires threads >= 2 && ValidSpans(blocks, |input|) && j < |blocks|
    ensures DataSends(input, blocks[j..], threads, j) ==
            [Data(Target(j, threads), input[blocks[j].start..blocks[j].end], j)] + DataSends(input, blocks[j + 1..], threads, j + 1)
  {
    assert blocks[j..][1..] == blocks[j + 1..];
  }

  // ---------------------------------------------------------------------
  // The workers' receive loop.

  /** The messages a rank receives from the root, in sending order. */
  function Inbox(sends: seq<Message>, rank: nat): seq<Message>
  {
    if sends == [] then []
    else (if sends[0].rank == rank then [sends[0]] else []) + Inbox(sends[1..], rank)
  }

  lemma {:induction false} InboxAppend(a: seq<Message>, b: seq<Message>, rank: nat)
    ensures Inbox(a + b, rank) == Inbox(a, rank) + Inbox(b, rank)
  {
    if a == [] {
      assert a + b == b;
    } else {
      assert (a + b)[0] == a[0] && (a + b)[1..] == a[1..] + b;
      InboxAppend(a[1..], b, rank);
    }
  }

  /** A job a worker handles: the bytes and their sequence number. */
  datatype Job = Job(bytes: seq<byte>, sn: nat)

  /** The jobs handled before the first message of size 0. */
  function Jobs(inbox: seq<Message>): seq<Job>
  {
    if inbox == [] then []
    else
      match inbox[0]
      case Stop(_) => []
      case Data(_, b, sn) => if |b| == 0 then [] else [Job(b, sn)] + Jobs(inbox[1..])
  }

  /** The worker loop: receive a size, stop on 0, otherwise receive the
      bytes and the sequence number and handle the job. A receive with
      nothing left to receive never returns; the model then stops. */
  method Worker(inbox: seq<Message>) returns (jobs: seq<Job>)
    ensures jobs == Jobs(inbox)
  {
    jobs := [];
    var k := 0;
    while k < |inbox|
      invariant k <= |inbox|
      invariant jobs + Jobs(inbox[k..]) == Jobs(inbox)
      decreases |inbox| - k
    {
      var m := inbox[k];
      var size := if m.Data? then |m.bytes| else 0;
      if size == 0 {
        assert jobs + [] == jobs;
        return;
      }
      assert inbox[k..][1..] == inbox[k + 1..];
      jobs := jobs + [Job(m.bytes, m.sn)];
      k := k + 1;
    }
    assert jobs + [] == jobs;
  }

  /** The jobs of the data messages addressed to `rank`, in order. */
  function JobsFor(ms: seq<Message>, rank: nat): seq<Job>
  {
    if ms == [] then []
    else (if ms[0].Data? && ms[0].rank == rank then [Job(ms[0].bytes, ms[0].sn)] else []) + JobsFor(ms[1..], rank)
  }

  /** A non-empty data message ahead of the rest is handled, then the rest. */
  lemma JobsCons(m: Message, tail: seq<Message>)
    requires m.Data? && |m.bytes| > 0
    ensures Jobs([m] + tail) == [Job(m.bytes, m.sn)] + Jobs(tail)
  {
    assert ([m] + tail)[1..] == tail;
  }

  /** Ahead of any further messages, a run of non-empty data messages
      yields the jobs of those addressed to `rank`. */
  lemma {:induction false} DataInbox(ms: seq<Message>, rank: nat, rest: seq<Message>)
    requires forall i :: 0 <= i < |ms| ==> ms[i].Data? && |ms[i].bytes| > 0
    ensures Jobs(Inbox(ms, rank) + rest) == JobsFor(ms, rank) + Jobs(rest)
  {
    if ms != [] {
      var m := ms[0];
      var tail := Inbox(ms[1..], rank) + rest;
      var left := JobsFor(ms[1..], rank);
      assert Jobs(tail) == left + Jobs(rest) by {
        DataInbox(ms[1..], rank, rest);
      }
      if m.rank == rank {
        assert Inbox(ms, rank) + rest == [m] + tail;
        JobsCons(m, tail);
        assert JobsFor(ms, rank) == [Job(m.bytes, m.sn)] + left;
      } else {
        assert Inbox(ms, rank) + rest == tail;
      }
    } else {
      assert Inbox(ms, rank) + rest == rest;
    }
  }

  /** A rank no terminator is addressed to receives none of them. */
  lemma {:induction false} StopsInboxNone(threads: nat, rank: nat)
    requires threads <= rank
    ensures Inbox(Stops(threads), rank) == []
  {
    if threads > 1 {
      StopsInboxNone(threads - 1, rank);
      InboxAppend(Stops(threads - 1), [Stop(threads - 1)], rank);
      assert Inbox([Stop(threads - 1)], rank) == [];
    }
  }

  /** Every worker rank receives exactly one terminator. */
  lemma {:induction false} StopsInbox(threads: nat, rank: nat)
    requires 1 <= rank < threads
    ensures Inbox(Stops(threads), rank) == [Stop(rank)]
  {
    InboxAppend(Stops(threads - 1), [Stop(threads - 1)], rank);
    if rank < threads - 1 {
      StopsInbox(threads - 1, rank);
      assert Inbox([Stop(threads - 1)], rank) == [];
    } else {
      StopsInboxNone(threads - 1, rank);
      assert Inbox([Stop(threads - 1)], rank) == [Stop(rank)];
    }
  }

  /** Every worker receives the pieces sent to it followed by exactly one
      terminator, and handles exactly those pieces, in sending order: no
      piece is empty, so none is taken for a terminator. */
  lemma WorkerHandlesItsPieces(input: seq<byte>, spans: seq<Span>, threads: nat, rank: nat)
    requires threads >= 2 && 1 <= rank < threads
    requires ValidSpans(spans, |input|) && forall i :: 0 <= i < |spans| ==> spans[i].start < spans[i].end
    ensures Inbox(Sends(input, spans, threads), rank) == Inbox(DataSends(input, spans, threads, 0), rank) + [Stop(rank)]
    ensures Jobs(Inbox(Sends(input, spans, threads), rank)) == JobsFor(DataSends(input, spans, threads, 0), rank)
  {
    var d := DataSends(input, spans, threads, 0);
    DataSendsAt(input, spans, threads, 0);
    InboxAppend(d, Stops(threads), rank);
    StopsInbox(threads, rank);
    DataInbox(d, rank, [Stop(rank)]);
    assert Jobs([Stop(rank)]) == [];
    assert JobsFor(d, rank) + [] == JobsFor(d, rank);
  }

  // ---------------------------------------------------------------------
  // Decompression: the block scan.

  /** The header starts at offset `j` of `w`. */
  predicate HeaderAt(w: seq<byte>, j: nat)
  {
    j + 10 <= |w| && w[j..j + 10] == HEADER
  }

  lemma HeaderAtShift(w: seq<byte>)
    requires w != []
    ensures forall j: nat :: 1 <= j ==> (HeaderAt(w, j) <==> HeaderAt(w[1..], j - 1))
  {
    forall j: nat | 1 <= j
      ensures HeaderAt(w, j) <==> HeaderAt(w[1..], j - 1)
    {
      if j + 10 <= |w| {
        var u, v := w[1..][j - 1..j - 1 + 10], w[j..j + 10];
        assert forall k :: 0 <= k < 10 ==> u[k] == v[k];
      }
    }
  }

  /** An offset, when one is found. */
  datatype Position = NoMatch | At(at: nat)

  /** `windows(10).position(|w| w == HEADER)`: the first offset where the
      header starts, if any. */
  function FindHeader(w: seq<byte>): (r: Position)
    ensures r.At? ==> HeaderAt(w, r.at) && forall j: nat :: j < r.at ==> !HeaderAt(w, j)
    ensures r.NoMatch? ==> forall j: nat :: !HeaderAt(w, j)
  {
    if |w| < 10 then NoMatch
    else if w[..10] == HEADER then At(0)
    else
      HeaderAtShift(w);
      match FindHeader(w[1..])
      case NoMatch => NoMatch
      case At(i) => At(i + 1)
  }

  /** Where the window the scan searches ends: `SCAN_LIMIT` bytes past the
      block start when the input is larger than `SCAN_LIMIT` and that much
      is left, else the end of the input. */
  function WindowEnd(input: seq<byte>, pos: nat): (e: nat)
    requires pos + 10 <= |input|
    ensures pos + 10 <= e <= |input|
  {
    if |input| > SCAN_LIMIT && pos + SCAN_LIMIT <= |input| then pos + SCAN_LIMIT else |input|
  }

  /** Where the scan looks for the next header: from 10 bytes past the
      block start up to the window end. */
  function Window(input: seq<byte>, pos: nat): seq<byte>
    requires pos + 10 <= |input|
  {
    input[pos + 10..WindowEnd(input, pos)]
  }

  /** A header in the window is a header of the input that fits in the
      window, and the other way round. */
  lemma WindowHeaders(input: seq<byte>, pos: nat)
    requires pos + 10 <= |input|
    ensures forall i: nat :: HeaderAt(Window(input, pos), i) <==>
              pos + 10 + i + 10 <= WindowEnd(input, pos) && HeaderAt(input, pos + 10 + i)
  {
    var w := Window(input, pos);
    forall i: nat
      ensures HeaderAt(w, i) <==> pos + 10 + i + 10 <= WindowEnd(input, pos) && HeaderAt(input, pos + 10 + i)
    {
      if i + 10 <= |w| {
        var u, v := w[i..i + 10], input[pos + 10 + i..pos + 10 + i + 10];
        assert forall k :: 0 <= k < 10 ==> u[k] == v[k];
      }
    }
  }

  /** The end of the block starting at `pos`: where the next header starts,
      or the end of the input. */
  function BlockEnd(input: seq<byte>, pos: nat): (e: nat)
    requires pos + 10 <= |input|
    ensures pos + 10 <= e <= |input|
    ensures e < |input| ==> HeaderAt(input, e)
  {
    WindowHeaders(input, pos);
    match FindHeader(Window(input, pos))
    case At(i) => pos + 10 + i
    case NoMatch => |input|
  }

  /** The block ends at the first header that starts at least 10 bytes past
      its start and fits in its window; with none, at the end of the input. */
  lemma BlockEndFirst(input: seq<byte>, pos: nat)
    requires pos + 10 <= |input|
    ensures var e := BlockEnd(input, pos);
            forall j: nat :: pos + 10 <= j < e && j + 10 <= WindowEnd(input, pos) ==> !HeaderAt(input, j)
  {
    var e := BlockEnd(input, pos);
    var w := Window(input, pos);
    WindowHeaders(input, pos);
    forall j: nat | pos + 10 <= j < e && j + 10 <= WindowEnd(input, pos)
      ensures !HeaderAt(input, j)
    {
      assert !HeaderAt(w, j - pos - 10);
    }
  }

  /** A position the scan can start a block at: the end of the input, or
      one with at least 10 bytes after it. */
  predicate Scannable(input: seq<byte>, pos: nat)
  {
    pos == |input| || pos + 10 <= |input|
  }

  /** The blocks from `pos` on. */
  function Blocks(input: seq<byte>, pos: nat): (r: seq<Span>)
    requires Scannable(input, pos)
    ensures ValidSpans(r, |input|)
    decreases |input| - pos
  {
    if pos == |input| then []
    else
      var e := BlockEnd(input, pos);
      [Span(pos, e)] + Blocks(input, e)
  }

  /** The blocks tile the input from `pos`. */
  lemma {:induction false} BlocksTile(input: seq<byte>, pos: nat)
    requires Scannable(input, pos)
    ensures Tiles(Blocks(input, pos), pos, |input|)
    decreases |input| - pos
  {
    if pos < |input| {
      var b := Blocks(input, pos);
      var e := BlockEnd(input, pos);
      BlocksTile(input, e);
      assert b == [b[0]] + Blocks(input, e);
      TilesCons(b[0], Blocks(input, e), |input|);
    }
  }

  /** Every block after the first starts with the header, and each one ends
      where the scan from its start ends it. */
  lemma {:induction false} BlocksAtHeaders(input: seq<byte>, pos: nat)
    requires Scannable(input, pos)
    ensures var b := Blocks(input, pos);
            (forall i :: 0 < i < |b| ==> HeaderAt(input, b[i].start)) &&
            (forall i :: 0 <= i < |b| ==> b[i].start + 10 <= |input| && b[i].end == BlockEnd(input, b[i].start))
    decreases |input| - pos
  {
    if pos < |input| {
      var b := Blocks(input, pos);
      var e := BlockEnd(input, pos);
      BlocksAtHeaders(input, e);
      assert forall i :: 0 < i < |b| ==> b[i] == Blocks(input, e)[i - 1];
      if e < |input| {
        assert b[1] == Blocks(input, e)[0];
      }
    }
  }

  /** The decompressor sends every byte of the input exactly once, in
      order. */
  lemma BlocksCover(input: seq<byte>, threads: nat)
    requires threads >= 2 && (|input| == 0 || |input| >= 10)
    ensures Payload(DataSends(input, Blocks(input, 0), threads, 0)) == input
  {
    BlocksTile(input, 0);
    GatherTiles(input, Blocks(input, 0), 0);
    PayloadDataSends(input, Blocks(input, 0), threads, 0);
  }

  /** The decompressor's scan building `queue_blocks`. The first block
      starts 10 bytes before its window; a shorter non-empty input makes
      that slice fail, so it is excluded here. */
  method ScanBlocks(input: seq<byte>) returns (queueBlocks: seq<Span>)
    requires |input| == 0 || |input| >= 10
    ensures queueBlocks == Blocks(input, 0)
  {
    var posInit: nat;
    var posEnd: nat := 0;
    var bytesLeft := |input|;
    queueBlocks := [];
    while bytesLeft > 0
      invariant posEnd + bytesLeft == |input| && Scannable(input, posEnd)
      invariant queueBlocks + Blocks(input, posEnd) == Blocks(input, 0)
      decreases bytesLeft
    {
      posInit := posEnd;
      var slice := if |input| > SCAN_LIMIT then
                     (if posInit + SCAN_LIMIT > |input| then input[posInit + 10..]
                      else input[posInit + 10..posInit + SCAN_LIMIT])
                   else input[posInit + 10..];
      assert slice == Window(input, posInit);
      var ret := FindHeader(slice);
      posEnd := posEnd + match ret case At(i) => i + 10 case NoMatch => |input| - posInit;
      bytesLeft := bytesLeft - (posEnd - posInit);
      assert posEnd == BlockEnd(input, posInit);
      queueBlocks := queueBlocks + [Span(posInit, posEnd)];
    }
    assert queueBlocks + [] == queueBlocks;
  }
}
