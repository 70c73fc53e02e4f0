/** The batch splitter and correlator: cutting a list of commands into
    consecutive chunks of at most fifty, sending one batch command per chunk
    in order, and mapping each chunk's `results` list back by position onto
    per-item outcomes. */
module Batch {
  import opened Wire
  import opened Commands

  /** The most sub-requests one batch command carries. */
  const MaxBatchSize: nat := 50

  /** The size of the first chunk of `n` items. */
  function FirstChunkSize(n: nat): (size: nat)
    ensures size <= n && size <= MaxBatchSize
    ensures n > 0 ==> size > 0
    ensures n >= MaxBatchSize ==> size == MaxBatchSize
  {
    if n < MaxBatchSize then n else MaxBatchSize
  }

  /** The number of batch calls `n` items need. */
  function ChunkCount(n: nat): (c: nat)
    ensures c <= n
    ensures c == 0 <==> n == 0
    decreases n
  {
    if n == 0 then 0 else 1 + ChunkCount(n - FirstChunkSize(n))
  }

  /** The size of chunk `k` of `n` items (zero past the last chunk). */
  function ChunkSize(n: nat, k: nat): nat {
    if n <= k * MaxBatchSize then 0 else FirstChunkSize(n - k * MaxBatchSize)
  }

  /** The number of calls is the ceiling of n / 50. */
  lemma {:induction false} ChunkCountIsCeiling(n: nat)
    ensures ChunkCount(n) == (n + MaxBatchSize - 1) / MaxBatchSize
  {
    if n > 0 {
      ChunkCountIsCeiling(n - FirstChunkSize(n));
    }
  }

  /** Chunk `k` starts inside the input, is not empty, ends inside the input,
      and is full unless it is the last. */
  lemma {:induction false} ChunkBounds(n: nat, k: nat)
    requires k < ChunkCount(n)
    ensures k * MaxBatchSize < n
    ensures 0 < ChunkSize(n, k) <= MaxBatchSize
    ensures k * MaxBatchSize + ChunkSize(n, k) <= n
    ensures k + 1 < ChunkCount(n) ==> ChunkSize(n, k) == MaxBatchSize
    ensures k + 1 == ChunkCount(n) ==> k * MaxBatchSize + ChunkSize(n, k) == n
  {
    if k > 0 {
      var rest := n - FirstChunkSize(n);
      ChunkBounds(rest, k - 1);
      assert FirstChunkSize(n) == MaxBatchSize;
      assert n - k * MaxBatchSize == rest - (k - 1) * MaxBatchSize;
    }
  }

  /** The chunks together reach the end of the input. */
  lemma {:induction false} ChunkCountCovers(n: nat)
    ensures n <= ChunkCount(n) * MaxBatchSize
  {
    if n > 0 {
      ChunkCountCovers(n - FirstChunkSize(n));
    }
  }

  /** The input cut into consecutive chunks. */
  function Chunks<T>(s: seq<T>): (cs: seq<seq<T>>)
    ensures |cs| == ChunkCount(|s|)
    decreases |s|
  {
    if s == [] then [] else [s[..FirstChunkSize(|s|)]] + Chunks(s[FirstChunkSize(|s|)..])
  }

  function Flatten<T>(cs: seq<seq<T>>): seq<T> {
    if cs == [] then [] else cs[0] + Flatten(cs[1..])
  }

  /** Chunking loses, adds and reorders nothing, and no chunk is empty or
      over the limit. */
  lemma {:induction false} ChunksPartition<T>(s: seq<T>)
    ensures Flatten(Chunks(s)) == s
    ensures forall k :: 0 <= k < |Chunks(s)| ==> 0 < |Chunks(s)[k]| <= MaxBatchSize
  {
    if s != [] {
      var size := FirstChunkSize(|s|);
      ChunksPartition(s[size..]);
      assert Chunks(s)[1..] == Chunks(s[size..]);
      assert s[..size] + s[size..] == s;
    }
  }

  /** Chunk `k` is the slice of the input starting at 50 k. */
  lemma {:induction false} ChunksAt<T>(s: seq<T>, k: nat)
    requires k < ChunkCount(|s|)
    ensures k * MaxBatchSize + ChunkSize(|s|, k) <= |s|
    ensures Chunks(s)[k] == s[k * MaxBatchSize .. k * MaxBatchSize + ChunkSize(|s|, k)]
  {
    ChunkBounds(|s|, k);
    if k > 0 {
      var rest := s[MaxBatchSize..];
      assert Chunks(s)[k] == Chunks(rest)[k - 1];
      ChunksAt(rest, k - 1);
      var start, size := (k - 1) * MaxBatchSize, ChunkSize(|s|, k);
      assert ChunkSize(|rest|, k - 1) == size;
      assert start + MaxBatchSize == k * MaxBatchSize;
      assert rest[start .. start + size] == s[start + MaxBatchSize .. start + MaxBatchSize + size];
    }
  }

  /** What a result entry says for its one item, before any decoding. */
  type ItemResult = Outcome<Value>

  /** An entry carrying no `success` but an `error` object with a numeric `code`. */
  predicate IsErrorEntry(entry: Value) {
    && entry.Obj? && "success" !in entry.fields && "error" in entry.fields
    && entry.fields["error"].Obj? && "code" in entry.fields["error"].fields
    && entry.fields["error"].fields["code"].Num?
  }

  /** The `error` message of an error payload, empty when it has none. */
  function ErrorMessage(error: Body): string {
    match StringAt(error, "error") case Some(m) => m case None => ""
  }

  /** A `results` entry: a `success` payload, an `error` with its code, or
      neither. */
  function ClassifyEntry(entry: Value): (r: ItemResult)
    ensures r.Done? <==> entry.Obj? && "success" in entry.fields
    ensures r.Done? ==> r.value == entry.fields["success"]
    ensures IsErrorEntry(entry) ==>
              r == Faulted(Remote(entry.fields["error"].fields["code"].n, ErrorMessage(entry.fields["error"].fields)))
    ensures r.Faulted? && !IsErrorEntry(entry) ==> r == Faulted(InvalidBatchEntry)
  {
    if entry.Obj? && "success" in entry.fields then Done(entry.fields["success"])
    else if IsErrorEntry(entry) then
      var e := entry.fields["error"].fields;
      Faulted(Remote(e["code"].n, ErrorMessage(e)))
    else Faulted(InvalidBatchEntry)
  }

  /** The `results` list of a batch response body. */
  function ResultsOf(body: Body): Option<seq<Value>> {
    if "results" in body && body["results"].Arr? then Some(body["results"].items) else None
  }

  /** True when `reply` carries a `results` list of exactly `size` entries. */
  predicate Consistent(size: nat, reply: Response) {
    reply.Answer? && ResultsOf(reply.body).Some? && |ResultsOf(reply.body).value| == size
  }

  /** The outcomes of one chunk of `size` items from its batch response. */
  function Correlate(size: nat, reply: Response): (r: seq<ItemResult>)
    ensures |r| == size
    // positional: entry i decides item i
    ensures Consistent(size, reply) ==>
              forall i :: 0 <= i < size ==> r[i] == ClassifyEntry(ResultsOf(reply.body).value[i])
    // otherwise every item of the chunk fails, and with the same error
    ensures !Consistent(size, reply) ==> forall i :: 0 <= i < size ==> r[i].Faulted? && r[i] == r[0]
    ensures reply.Rejected? ==> forall i :: 0 <= i < size ==> r[i] == Faulted(Remote(reply.code, reply.message))
    ensures reply.Answer? && ResultsOf(reply.body).Some? && !Consistent(size, reply) ==>
              forall i :: 0 <= i < size ==>
                r[i] == Faulted(InconsistentBatch(size, |ResultsOf(reply.body).value|))
  {
    match reply
    case Rejected(code, message) => seq(size, _ => Faulted(Remote(code, message)))
    case Answer(_, body) =>
      match ResultsOf(body)
      case None => seq(size, _ => Faulted(MalformedBatchResponse))
      case Some(results) =>
        if |results| != size then seq(size, _ => Faulted(InconsistentBatch(size, |results|)))
        else seq(size, i requires 0 <= i < size => ClassifyEntry(results[i]))
  }

  /** The outcomes of `n` items sent chunk by chunk, chunk `k` answered by
      `replies[k]`. */
  function Correlated(n: nat, replies: seq<Response>): (r: seq<ItemResult>)
    requires ChunkCount(n) <= |replies|
    ensures |r| == n
    decreases n
  {
    if n == 0 then []
    else Correlate(FirstChunkSize(n), replies[0]) + Correlated(n - FirstChunkSize(n), replies[1..])
  }

  /** Item `j` of chunk `k` is decided by entry `j` of the `k`-th response. */
  lemma {:induction false} CorrelatedAt(n: nat, replies: seq<Response>, k: nat, j: nat)
    requires ChunkCount(n) <= |replies|
    requires k < ChunkCount(n) && j < ChunkSize(n, k)
    ensures k * MaxBatchSize + j < n
    ensures Correlated(n, replies)[k * MaxBatchSize + j] == Correlate(ChunkSize(n, k), replies[k])[j]
  {
    ChunkBounds(n, k);
    var all := Correlated(n, replies);
    var first := Correlate(FirstChunkSize(n), replies[0]);
    if k > 0 {
      var rest, later := n - MaxBatchSize, replies[1..];
      assert all == first + Correlated(rest, later);
      CorrelatedAt(rest, later, k - 1, j);
      assert (k - 1) * MaxBatchSize + MaxBatchSize == k * MaxBatchSize;
      var x, i := k * MaxBatchSize + j, (k - 1) * MaxBatchSize + j;
      assert |first| == MaxBatchSize && x - MaxBatchSize == i;
      assert all[x] == Correlated(rest, later)[i];
      assert ChunkSize(rest, k - 1) == ChunkSize(n, k) && later[k - 1] == replies[k];
      assert all[x] == Correlate(ChunkSize(n, k), replies[k])[j];
    } else {
      assert all == first + Correlated(n - FirstChunkSize(n), replies[1..]);
      assert k * MaxBatchSize + j == j && ChunkSize(n, k) == FirstChunkSize(n);
      assert all[j] == first[j];
      assert all[k * MaxBatchSize + j] == Correlate(ChunkSize(n, k), replies[k])[j];
    }
  }

  /** Item `i` gets entry `i mod 50` of response `i / 50`. */
  lemma ItemFromItsChunk(n: nat, replies: seq<Response>, i: nat)
    requires ChunkCount(n) <= |replies| && i < n
    ensures i / MaxBatchSize < ChunkCount(n) && i % MaxBatchSize < ChunkSize(n, i / MaxBatchSize)
    ensures Correlated(n, replies)[i]
         == Correlate(ChunkSize(n, i / MaxBatchSize), replies[i / MaxBatchSize])[i % MaxBatchSize]
  {
    var k, j := i / MaxBatchSize, i % MaxBatchSize;
    assert i == k * MaxBatchSize + j;
    ChunkCountIsCeiling(n);
    assert k < ChunkCount(n);
    CorrelatedAt(n, replies, k, j);
  }

  /** No cross-chunk interference: an item's outcome depends on its own
      chunk's response only. */
  lemma ChunksIndependent(n: nat, replies: seq<Response>, others: seq<Response>, k: nat, j: nat)
    requires ChunkCount(n) <= |replies| && ChunkCount(n) <= |others|
    requires k < ChunkCount(n) && j < ChunkSize(n, k)
    requires replies[k] == others[k]
    ensures k * MaxBatchSize + j < n
    ensures Correlated(n, replies)[k * MaxBatchSize + j] == Correlated(n, others)[k * MaxBatchSize + j]
  {
    CorrelatedAt(n, replies, k, j);
    CorrelatedAt(n, others, k, j);
  }

  /** In a chunk answered with one result per request, entry `j` of the
      `k`-th response alone decides item 50 k + j. */
  lemma EntryDecides(n: nat, replies: seq<Response>, k: nat, j: nat)
    requires ChunkCount(n) <= |replies|
    requires k < ChunkCount(n) && j < ChunkSize(n, k)
    requires Consistent(ChunkSize(n, k), replies[k])
    ensures k * MaxBatchSize + j < n && j < |ResultsOf(replies[k].body).value|
    ensures Correlated(n, replies)[k * MaxBatchSize + j] == ClassifyEntry(ResultsOf(replies[k].body).value[j])
  {
    CorrelatedAt(n, replies, k, j);
  }

  /** A chunk whose result count differs from its request count fails every
      one of its items with the inconsistent-batch error. */
  lemma InconsistentChunkFailsAll(n: nat, replies: seq<Response>, k: nat, j: nat)
    requires ChunkCount(n) <= |replies|
    requires k < ChunkCount(n) && j < ChunkSize(n, k)
    requires replies[k].Answer? && ResultsOf(replies[k].body).Some?
    requires |ResultsOf(replies[k].body).value| != ChunkSize(n, k)
    ensures k * MaxBatchSize + j < n
    ensures Correlated(n, replies)[k * MaxBatchSize + j]
         == Faulted(InconsistentBatch(ChunkSize(n, k), |ResultsOf(replies[k].body).value|))
  {
    CorrelatedAt(n, replies, k, j);
  }

  /** Chunk `k`'s stretch of the outcomes is that chunk's correlation with
      the `k`-th response. */
  lemma ChunkSlice(n: nat, replies: seq<Response>, k: nat)
    requires ChunkCount(n) <= |replies| && k < ChunkCount(n)
    ensures k * MaxBatchSize + ChunkSize(n, k) <= n
    ensures Correlated(n, replies)[k * MaxBatchSize .. k * MaxBatchSize + ChunkSize(n, k)]
         == Correlate(ChunkSize(n, k), replies[k])
  {
    ChunkBounds(n, k);
    var start, size := k * MaxBatchSize, ChunkSize(n, k);
    forall j | 0 <= j < size
      ensures Correlated(n, replies)[start .. start + size][j] == Correlate(size, replies[k])[j]
    {
      CorrelatedAt(n, replies, k, j);
    }
  }

  /** Resolves the result slots of one chunk, starting at `start`, from the
      chunk's outcomes; every other slot is left alone. */
  method ResolveChunk(slots: array<ItemResult>, start: nat, entries: seq<ItemResult>)
    requires start + |entries| <= slots.Length
    modifies slots
    ensures slots[..start] == old(slots[..start])
    ensures slots[start .. start + |entries|] == entries
    ensures slots[start + |entries| ..] == old(slots[start + |entries| ..])
  {
    var j := 0;
    while j < |entries|
      invariant j <= |entries|
      invariant slots[..start] == old(slots[..start])
      invariant slots[start .. start + j] == entries[..j]
      invariant slots[start + j ..] == old(slots[start + j ..])
    {
      slots[start + j] := entries[j];
      assert slots[start .. start + j + 1] == slots[start .. start + j] + [entries[j]];
      j := j + 1;
    }
  }

  /** How many items the first `k` chunks of `n` items cover. */
  function Covered(n: nat, k: nat): (done: nat)
    ensures done <= n
  {
    if k * MaxBatchSize < n then k * MaxBatchSize else n
  }

  /** Chunk `k` starts where the chunks before it stop, and the last chunk
      stops at the end of the input. */
  lemma NextChunk(n: nat, k: nat)
    requires k < ChunkCount(n)
    ensures Covered(n, k) == k * MaxBatchSize
    ensures Covered(n, k + 1) == k * MaxBatchSize + ChunkSize(n, k)
    ensures Covered(n, k) + ChunkSize(n, k) == Covered(n, k + 1)
    ensures k + 1 == ChunkCount(n) ==> Covered(n, k + 1) == n
  {
    ChunkBounds(n, k);
    if k + 1 < ChunkCount(n) {
      ChunkBounds(n, k + 1);
    }
  }

  /** Writing chunk `k`'s outcomes after a correct prefix of the first `k`
      chunks extends the correct prefix over chunk `k`. */
  lemma SlotsStep(n: nat, replies: seq<Response>, k: nat, before: seq<ItemResult>, after: seq<ItemResult>)
    requires ChunkCount(n) <= |replies| && k < ChunkCount(n)
    requires |before| == n && |after| == n && k * MaxBatchSize + ChunkSize(n, k) <= n
    requires before[..k * MaxBatchSize] == Correlated(n, replies)[..k * MaxBatchSize]
    requires after[..k * MaxBatchSize] == before[..k * MaxBatchSize]
    requires after[k * MaxBatchSize .. k * MaxBatchSize + ChunkSize(n, k)] == Correlate(ChunkSize(n, k), replies[k])
    ensures after[..k * MaxBatchSize + ChunkSize(n, k)] == Correlated(n, replies)[..k * MaxBatchSize + ChunkSize(n, k)]
  {
    ChunkSlice(n, replies, k);
    var done, all := k * MaxBatchSize, Correlated(n, replies);
    var next := done + ChunkSize(n, k);
    assert after[..next] == after[..done] + after[done .. next];
    assert all[..next] == all[..done] + all[done .. next];
  }

  /** Extending a prefix by the next element gives the longer prefix. */
  lemma PrefixSnoc<U>(xs: seq<U>, k: nat)
    requires k < |xs|
    ensures xs[..k] + [xs[k]] == xs[..k + 1]
  {
  }

  /** The prefix as long as the whole sequence is the sequence. */
  lemma PrefixAll<U>(xs: seq<U>)
    ensures xs[..|xs|] == xs
  {
  }

  /** The next chunk is the slice of the input after the chunks already
      taken. */
  lemma ChunkStep<T>(s: seq<T>, k: nat, taken: seq<seq<T>>)
    requires k < ChunkCount(|s|) && taken == Chunks(s)[..k]
    ensures Covered(|s|, k) == k * MaxBatchSize
    ensures Covered(|s|, k) + ChunkSize(|s|, k) == Covered(|s|, k + 1)
    ensures k * MaxBatchSize + ChunkSize(|s|, k) <= |s|
    ensures taken + [s[k * MaxBatchSize .. k * MaxBatchSize + ChunkSize(|s|, k)]] == Chunks(s)[..k + 1]
  {
    NextChunk(|s|, k);
    ChunksAt(s, k);
    PrefixSnoc(Chunks(s), k);
  }

  /** `sent` holds one batch command per chunk of `chunks`, in order. */
  predicate BatchesOf(sent: seq<Command>, chunks: seq<seq<Command>>) {
    |sent| == |chunks| && forall c :: 0 <= c < |sent| ==> sent[c] == BatchCommand(chunks[c])
  }

  /** Sending one more chunk's batch command keeps the correspondence. */
  lemma BatchesOfSnoc(sent: seq<Command>, chunks: seq<seq<Command>>, chunk: seq<Command>)
    requires BatchesOf(sent, chunks)
    ensures BatchesOf(sent + [BatchCommand(chunk)], chunks + [chunk])
  {
    var sent', chunks' := sent + [BatchCommand(chunk)], chunks + [chunk];
    forall c | 0 <= c < |sent'|
      ensures sent'[c] == BatchCommand(chunks'[c])
    {
      if c < |sent| {
        assert sent'[c] == sent[c] && chunks'[c] == chunks[c];
      }
    }
  }

  /** Resolves the handles of chunk `k` from the `k`-th response, once those
      of the chunks before it are resolved. */
  method ResolveNextChunk(slots: array<ItemResult>, replies: seq<Response>, k: nat)
    requires ChunkCount(slots.Length) <= |replies| && k < ChunkCount(slots.Length)
    requires k * MaxBatchSize + ChunkSize(slots.Length, k) <= slots.Length
    requires slots[..k * MaxBatchSize] == Correlated(slots.Length, replies)[..k * MaxBatchSize]
    modifies slots
    ensures slots[..k * MaxBatchSize + ChunkSize(slots.Length, k)]
         == Correlated(slots.Length, replies)[..k * MaxBatchSize + ChunkSize(slots.Length, k)]
    ensures slots[k * MaxBatchSize + ChunkSize(slots.Length, k) ..]
         == old(slots[k * MaxBatchSize + ChunkSize(slots.Length, k) ..])
  {
    ghost var before := slots[..];
    ResolveChunk(slots, k * MaxBatchSize, Correlate(ChunkSize(slots.Length, k), replies[k]));
    SlotsStep(slots.Length, replies, k, before, slots[..]);
  }

  /** Sends `requests` chunk by chunk, consuming one response per batch call,
      and resolves one result slot per request. */
  method ExecuteBatch(requests: seq<Command>, replies: seq<Response>)
    returns (results: seq<ItemResult>, sent: seq<Command>)
    requires ChunkCount(|requests|) <= |replies|
    ensures results == Correlated(|requests|, replies)
    ensures |sent| == ChunkCount(|requests|)
    ensures forall c :: 0 <= c < |sent| ==> sent[c] == BatchCommand(Chunks(requests)[c])
  {
    var n := |requests|;
    var slots := new ItemResult[n](_ => Faulted(InvalidBatchEntry));
    sent := [];
    ghost var chunks: seq<seq<Command>> := [];
    var k, done := 0, 0;
    while k < ChunkCount(n)
      invariant k <= ChunkCount(n) && done == Covered(n, k)
      invariant chunks == Chunks(requests)[..k]
      invariant BatchesOf(sent, chunks)
      invariant slots[..done] == Correlated(n, replies)[..done]
    {
      ChunkStep(requests, k, chunks);
      var size := ChunkSize(n, k);
      var chunk := requests[done .. done + size];
      BatchesOfSnoc(sent, chunks, chunk);
      sent, chunks := sent + [BatchCommand(chunk)], chunks + [chunk];
      ResolveNextChunk(slots, replies, k);
      k, done := k + 1, done + size;
    }
    ChunkCountCovers(n);
    PrefixAll(Chunks(requests));
    PrefixAll(slots[..]);
    results := slots[..];
  }
}
