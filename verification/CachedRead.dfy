/**
 An online read through the block cache: tiling the request into aligned blocks,
 fetching each block from cache or server, assembling the answer, and retrying
 at a newer revision when the server has moved on.
 */
module CachedRead {
  import opened Common
  import opened Ranges
  import opened RangeTiers

  const SMALL_READ_THRESHOLD: u64 := 1024 * 1024
  const SMALL_READ_AHEAD_BLOCK_SIZE: u64 := 1024 * 1024
  const MAX_CLIENT_READ_SIZE: u64 := 16 * 1024 * 1024
  const STALE_REVISION_RETRIES: nat := 3

  datatype ClientError =
    | InvalidRequest
    | UnexpectedResponse
    | StaleRevision
    | Transport
    | Offline
    | OfflineCacheMiss
    | Server(code: nat)

  datatype RangeRead = RangeRead(revision: u64, data: Bytes)

  /** What the cache layer remembers of an open file. */
  datatype Handle = Handle(node: nat, online: bool, revision: u64, size: u64) {
    function File(): RevisionKey { RevisionKey(node, revision) }
  }

  /** `content` gives the bytes of every revision; sizes reported with a revision belong to it. */
  ghost predicate Consistent(content: RevisionKey -> Bytes, h: Handle) { h.size == |content(h.File())| }

  /** What a direct read of a file with these contents returns. */
  function Window(c: Bytes, offset: nat, length: nat): Bytes {
    c[Min(offset, |c|)..Min(offset + length, |c|)]
  }

  // ----- tiling -----

  function DemandBlockSize(policyBlock: u64, length: u64): u64 {
    if length <= SMALL_READ_THRESHOLD then Min(policyBlock, SMALL_READ_AHEAD_BLOCK_SIZE) else policyBlock
  }

  /** The end of the aligned block that holds byte `end - 1`. */
  function RoundUp(end: nat, blockSize: nat): nat
    requires blockSize > 0
  {
    (end + blockSize - 1) / blockSize * blockSize
  }

  lemma DivisionIs(n: nat, d: nat, q: nat)
    requires d > 0 && q * d <= n < q * d + d
    ensures n / d == q
  {
    var e: int := n / d - q;
    assert e * d == n / d * d - q * d;
    assert 0 - d < e * d < d;
    assert e >= 1 ==> e * d >= d;
    assert e <= -1 ==> e * d <= 0 - d;
  }

  /** The multiple of the block size just at or above `end` is `RoundUp(end)`. */
  lemma RoundUpIs(end: nat, blockSize: nat, m: nat)
    requires blockSize > 0 && Multiple(m, blockSize) && end <= m < end + blockSize
    ensures RoundUp(end, blockSize) == m
  {
    DivisionIs(end + blockSize - 1, blockSize, m / blockSize);
  }

  /** Consecutive blocks of one file revision, beginning with the block of `lo`, all starting below `hi`. */
  ghost predicate Chain(blocks: seq<RangeKey>, h: Handle, lo: nat, hi: nat, blockSize: nat) {
    && hi <= h.size
    && blocks != []
    && blocks[0].offset <= lo < blocks[0].offset + blockSize
    && (forall i, j :: 0 <= i < j < |blocks| ==>
          && blocks[i].offset + blockSize <= blocks[j].offset
          && (j == i + 1 ==> blocks[j].offset == blocks[i].offset + blockSize))
    && (forall i :: 0 <= i < |blocks| ==>
          && blocks[i].file == h.File()
          && blocks[i].offset < hi
          && blocks[i].length == Min(blockSize, h.size - blocks[i].offset))
  }

  /** A chain that reaches `hi`. */
  ghost predicate Tiles(blocks: seq<RangeKey>, h: Handle, lo: nat, hi: nat, blockSize: nat) {
    Chain(blocks, h, lo, hi, blockSize) && hi <= blocks[|blocks| - 1].offset + blockSize
  }

  lemma ChainExtends(blocks: seq<RangeKey>, h: Handle, lo: nat, hi: nat, blockSize: nat, next: RangeKey)
    requires hi <= h.size && next.offset < hi && next.file == h.File() && next.length == Min(blockSize, h.size - next.offset)
    requires if blocks == [] then next.offset <= lo < next.offset + blockSize
             else Chain(blocks, h, lo, hi, blockSize) && next.offset == blocks[|blocks| - 1].offset + blockSize
    ensures Chain(blocks + [next], h, lo, hi, blockSize)
  {
  }

  /** Every requested byte lies in a block. */
  lemma {:induction false} TileHas(blocks: seq<RangeKey>, h: Handle, lo: nat, hi: nat, blockSize: nat, p: nat, n: nat)
    requires Tiles(blocks, h, lo, hi, blockSize) && lo <= p < hi <= h.size && n < |blocks|
    requires p < blocks[n].offset + blockSize
    ensures exists i :: 0 <= i < |blocks| && blocks[i].offset <= p < blocks[i].offset + blocks[i].length
  {
    if blocks[n].offset <= p {
      assert p < blocks[n].offset + blocks[n].length;
    } else {
      assert n > 0;
      assert blocks[n].offset == blocks[n - 1].offset + blockSize;
      TileHas(blocks, h, lo, hi, blockSize, p, n - 1);
    }
  }

  /** `blocks_for`. It refuses a request that overflows, and also one whose last block would reach
      past the largest offset. */
  method BlocksFor(h: Handle, offset: u64, length: u64, policyBlock: u64) returns (r: Result<seq<RangeKey>, ClientError>)
    requires 0 < policyBlock
    ensures r == Err(InvalidRequest) <==> offset + length > U64_MAX
    ensures offset + length <= U64_MAX ==>
              var blockSize := DemandBlockSize(policyBlock, length);
              var end := Min(offset + length, h.size);
              if end <= offset then r == Ok([])
              else if RoundUp(end, blockSize) > U64_MAX then r == Err(UnexpectedResponse)
              else r.Ok? && Tiles(r.value, h, offset, end, blockSize)
    ensures r.Ok? ==> forall b :: b in r.value ==> b.length <= policyBlock && (length <= SMALL_READ_THRESHOLD ==> b.length <= SMALL_READ_AHEAD_BLOCK_SIZE)
  {
    if offset + length > U64_MAX {
      return Err(InvalidRequest);
    }
    var requested := Min(length, SaturatingSub(h.size, offset));
    if requested == 0 {
      return Ok([]);
    }
    r := AlignedBlocks(h, offset, offset + requested, DemandBlockSize(policyBlock, length));
  }

  method AlignedBlocks(h: Handle, lo: u64, hi: u64, blockSize: u64) returns (r: Result<seq<RangeKey>, ClientError>)
    requires lo < hi <= h.size && 0 < blockSize
    ensures if RoundUp(hi, blockSize) > U64_MAX then r == Err(UnexpectedResponse) else r.Ok? && Tiles(r.value, h, lo, hi, blockSize)
  {
    AlignedBelow(lo, blockSize);
    ghost var last;
    r, last := BuildBlocks(h, lo, hi, blockSize, lo / blockSize * blockSize, (m: nat) => Multiple(m, blockSize));
    RoundUpIs(hi, blockSize, last);
  }

  predicate Multiple(m: nat, d: nat)
    requires d > 0
  {
    m / d * d == m
  }

  lemma NextMultiple(m: nat, d: nat)
    requires d > 0 && Multiple(m, d)
    ensures Multiple(m + d, d)
  {
    assert (m / d + 1) * d == m + d;
    DivisionIs(m + d, d, m / d + 1);
  }

  lemma AlignedBelow(offset: nat, d: nat)
    requires d > 0
    ensures var first := offset / d * d; Multiple(first, d) && first <= offset < first + d
    ensures forall m: nat :: Multiple(m, d) ==> Multiple(m + d, d)
  {
    DivisionIs(offset / d * d, d, offset / d);
    forall m: nat | Multiple(m, d) ensures Multiple(m + d, d) { NextMultiple(m, d); }
  }

  /** The loop of `blocks_for`; `aligned` stands for "a multiple of the block size". */
  method BuildBlocks(h: Handle, lo: u64, hi: u64, blockSize: u64, first: u64, ghost aligned: nat -> bool)
    returns (r: Result<seq<RangeKey>, ClientError>, ghost last: nat)
    requires lo < hi <= h.size && 0 < blockSize && first <= lo < first + blockSize
    requires aligned(first) && forall m: nat :: aligned(m) ==> aligned(m + blockSize)
    ensures aligned(last) && hi <= last < hi + blockSize
    ensures if last > U64_MAX then r == Err(UnexpectedResponse) else r.Ok? && Tiles(r.value, h, lo, hi, blockSize)
  {
    var blockOffset := first;
    var blocks: seq<RangeKey> := [];
    while blockOffset < hi
      invariant aligned(blockOffset) && blockOffset <= U64_MAX && blockOffset < hi + blockSize
      invariant if blocks == [] then blockOffset <= lo < blockOffset + blockSize
                else Chain(blocks, h, lo, hi, blockSize) && blockOffset == blocks[|blocks| - 1].offset + blockSize
      decreases hi - blockOffset
    {
      var block := RangeKey(h.File(), blockOffset, Min(blockSize, SaturatingSub(h.size, blockOffset)));
      ChainExtends(blocks, h, lo, hi, blockSize, block);
      blocks := blocks + [block];
      if blockOffset + blockSize > U64_MAX {
        return Err(UnexpectedResponse), blockOffset + blockSize;
      }
      blockOffset := blockOffset + blockSize;
    }
    return Ok(blocks), blockOffset;
  }

  // ----- one block -----

  datatype RemoteAnswer = Read(revision: u64, data: Bytes) | Failed(error: ClientError)

  /** Followers of a shared fetch see a transport failure as being offline. */
  function Shared(e: ClientError): ClientError { if e == Transport then Offline else e }

  datatype Fetched = Fetched(result: Result<Bytes, ClientError>, stored: Option<(RangeKey, Bytes)>)

  /** The initialisation of one `fetch_block`: cache first, then the server; a fresh block goes into
      the cache under the length that actually came back. */
  function FetchBlock(cached: Option<Bytes>, remote: RemoteAnswer, expectedRevision: u64, block: RangeKey): Fetched {
    if cached.Some? then Fetched(Ok(cached.value), None)
    else
      match remote
      case Failed(e) => Fetched(Err(Shared(e)), None)
      case Read(revision, data) =>
        if revision != expectedRevision then Fetched(Err(StaleRevision), None)
        else if |data| > block.length then Fetched(Err(UnexpectedResponse), None)
        else if data == [] then Fetched(Ok(data), None)
        else Fetched(Ok(data), Some((block.(length := |data|), data)))
  }

  /** The server is trusted about the revision it reports, not to report the expected one, nor to send
      as much as was asked for. */
  ghost predicate Answer(content: RevisionKey -> Bytes, block: RangeKey, remote: RemoteAnswer) {
    remote.Read? ==> Faithful(content, RevisionKey(block.file.node, remote.revision), block.offset, remote.data)
  }

  /** Whatever mix of hits, short reads and revisions the answers were: a delivered block is a slice
      of the expected revision, and so is what the cache keeps of it. */
  lemma FetchIsTruthful(content: RevisionKey -> Bytes, cached: Option<Bytes>, remote: RemoteAnswer, block: RangeKey)
    requires cached.Some? ==> |cached.value| == block.length && Faithful(content, block.file, block.offset, cached.value)
    requires Answer(content, block, remote) && block.End() <= U64_MAX
    ensures var f := FetchBlock(cached, remote, block.file.revision, block);
            && (f.result.Ok? ==> Faithful(content, block.file, block.offset, f.result.value) && |f.result.value| <= block.length)
            && (f.stored.Some? ==>
                  var (k, d) := f.stored.value;
                  ValidPayload(k, d) && d != [] && IsSlice(content, k.file, k.offset, d))
  {
    assert block.file == RevisionKey(block.file.node, block.file.revision);
  }

  /** A fetch fails exactly if nothing is cached and the server fails, has another revision, or sends too
      much. A lost connection is reported as being offline. */
  lemma FetchFailsExactly(cached: Option<Bytes>, remote: RemoteAnswer, block: RangeKey)
    ensures var r := FetchBlock(cached, remote, block.file.revision, block).result;
            && (r.Ok? <==> cached.Some? || (remote.Read? && remote.revision == block.file.revision && |remote.data| <= block.length))
            && r != Err(Transport) && (cached.None? && remote == Failed(Transport) ==> r == Err(Offline))
            && (cached.None? && remote.Failed? && remote.error != Transport ==> r == Err(remote.error))
            && (cached.None? && remote.Read? && remote.revision != block.file.revision ==> r == Err(StaleRevision))
  {
  }

  /** The fetch answers with the whole block. */
  predicate Complete(remote: RemoteAnswer, block: RangeKey) {
    remote.Read? && remote.revision == block.file.revision && |remote.data| == block.length
  }

  /** One fetch through the tiers: they stay truthful, so every later hit is a slice of its revision too.
      Only the server makes a fetch fail, and a complete answer makes it complete. */
  method FetchThrough(tiers: Tiers, remote: RemoteAnswer, block: RangeKey, ghost content: RevisionKey -> Bytes)
    returns (r: Result<Bytes, ClientError>)
    requires tiers.Valid() && tiers.True(content) && Answer(content, block, remote) && block.End() <= U64_MAX
    modifies tiers, tiers.hot
    ensures tiers.Valid() && tiers.True(content)
    ensures r.Ok? ==> Faithful(content, block.file, block.offset, r.value) && |r.value| <= block.length
    ensures r.Err? ==> r == FetchBlock(None, remote, block.file.revision, block).result
    ensures Complete(remote, block) ==> r.Ok? && |r.value| == block.length
    ensures r.Ok? && |r.value| <= tiers.hot.maximumBytes ==> Covered(tiers.hot.entries, block.file, block.offset, block.offset + |r.value|)
    ensures old(Covered(tiers.hot.entries, block.file, block.offset, block.End())) ==> r.Ok? && |r.value| == block.length
  {
    var cached := tiers.Get(block, content);
    FetchIsTruthful(content, cached, remote, block);
    var fetched := FetchBlock(cached, remote, block.file.revision, block);
    if fetched.stored.Some? {
      tiers.Put(fetched.stored.value.0, fetched.stored.value.1, content);
      StoredIsCovered(tiers.hot.entries, fetched.stored.value.0);
    }
    r := fetched.result;
  }

  lemma StoredIsCovered(entries: Entries, k: RangeKey)
    requires ValidEntries(entries)
    ensures k in entries ==> Covered(entries, k.file, k.offset, k.End())
  {
    if k in entries {
      forall p: nat | k.offset <= p < k.End() ensures Cached(entries, k.file, p) {
        assert Has(entries, k, k.file, p);
      }
    }
  }

  /** A block that was fetched whole and fits in memory is delivered again without the server. */
  method FetchTwice(tiers: Tiers, remote: RemoteAnswer, block: RangeKey, ghost content: RevisionKey -> Bytes)
    returns (first: Result<Bytes, ClientError>, second: Result<Bytes, ClientError>)
    requires tiers.Valid() && tiers.True(content) && Answer(content, block, remote) && block.End() <= U64_MAX
    requires Complete(remote, block) && block.length <= tiers.hot.maximumBytes
    modifies tiers, tiers.hot
    ensures tiers.Valid() && tiers.True(content)
    ensures first.Ok? && second == first && |first.value| == block.length
  {
    first := FetchThrough(tiers, remote, block, content);
    second := FetchThrough(tiers, Failed(Transport), block, content);
    assert first.value == second.value;
  }

  // ----- everyone else -----

  /** What other readers and the cache itself do to the tiers in between. */
  datatype Activity = Fetch(block: RangeKey, remote: RemoteAnswer) | Invalidate(node: nat) | Lose(keys: set<RangeKey>)

  ghost predicate Fair(content: RevisionKey -> Bytes, a: Activity) {
    a.Fetch? ==> Answer(content, a.block, a.remote) && a.block.End() <= U64_MAX
  }

  method Interleave(tiers: Tiers, activities: seq<Activity>, ghost content: RevisionKey -> Bytes)
    requires tiers.Valid() && tiers.True(content) && forall a :: a in activities ==> Fair(content, a)
    modifies tiers, tiers.hot
    ensures tiers.Valid() && tiers.True(content)
  {
    for i := 0 to |activities|
      invariant tiers.Valid() && tiers.True(content)
    {
      assert activities[i] in activities;
      match activities[i]
      case Fetch(block, remote) => var _ := FetchThrough(tiers, remote, block, content);
      case Invalidate(node) => tiers.Invalidate(node, content);
      case Lose(keys) => tiers.Lose(keys, content);
    }
  }

  // ----- one attempt -----

  /** What the server and the metadata service answer during one read, and what goes on in between.
      Attempts and the blocks of an attempt are numbered from 0. */
  datatype World = World(
    remote: (nat, nat, RangeKey) -> RemoteAnswer,
    meanwhile: (nat, nat) -> seq<Activity>,
    metadata: nat -> Result<(u64, u64), ClientError>)

  ghost predicate Honest(w: World, content: RevisionKey -> Bytes, node: nat) {
    && (forall n: nat, i: nat, k: RangeKey :: Answer(content, k, w.remote(n, i, k)))
    && (forall n: nat, i: nat, a: Activity :: a in w.meanwhile(n, i) ==> Fair(content, a))
    && (forall n: nat :: w.metadata(n).Ok? ==>
          w.metadata(n).value.1 == |content(RevisionKey(node, w.metadata(n).value.0))|)
  }

  /** The key under which an answer of `n` bytes for a block is kept. */
  function ActualKey(block: RangeKey, n: nat): RangeKey
    requires n <= block.length
  {
    block.(length := n)
  }

  /** The first `n` blocks, as the local assembly cache holds them. */
  ghost predicate Assembled(entries: Entries, blocks: seq<RangeKey>, n: nat, answers: seq<Result<Bytes, ClientError>>)
    requires n <= |blocks| && n <= |answers|
  {
    forall i :: 0 <= i < n && answers[i].Ok? ==>
      var data := answers[i].value;
      && |data| <= blocks[i].length
      && (data != [] ==> ActualKey(blocks[i], |data|) in entries && entries[ActualKey(blocks[i], |data|)] == data)
  }

  /** The local cache is truthful and holds exactly what the first blocks delivered. */
  ghost predicate Gathered(entries: Entries, blocks: seq<RangeKey>, answers: seq<Result<Bytes, ClientError>>, content: RevisionKey -> Bytes) {
    ValidEntries(entries) && Truthful(entries, content) && |answers| <= |blocks| && Assembled(entries, blocks, |answers|, answers)
  }

  /** Keep what a block delivered. */
  function Gather(entries: Entries, block: RangeKey, answer: Result<Bytes, ClientError>): Entries
    requires answer.Ok? ==> |answer.value| <= block.length
  {
    if answer.Ok? && answer.value != [] then entries[ActualKey(block, |answer.value|) := answer.value] else entries
  }

  lemma GatherNext(entries: Entries, blocks: seq<RangeKey>, answers: seq<Result<Bytes, ClientError>>, answer: Result<Bytes, ClientError>,
                   content: RevisionKey -> Bytes, h: Handle, lo: nat, hi: nat, blockSize: nat)
    requires 0 < blockSize && Tiles(blocks, h, lo, hi, blockSize) && |answers| < |blocks| && Gathered(entries, blocks, answers, content)
    requires var block := blocks[|answers|];
             block.End() <= U64_MAX && (answer.Ok? ==> |answer.value| <= block.length && Faithful(content, block.file, block.offset, answer.value))
    ensures Gathered(Gather(entries, blocks[|answers|], answer), blocks, answers + [answer], content)
  {
    var n := |answers|;
    assert forall i :: 0 <= i < n ==> blocks[i].offset < blocks[n].offset;
    assert forall i :: 0 <= i < n ==> (answers + [answer])[i] == answers[i];
  }

  predicate IsOffline(e: ClientError) { e == Transport || e == Offline }

  /** The server's answer for a block is the error `e`. */
  predicate BlockFails(remote: RemoteAnswer, block: RangeKey, e: ClientError) {
    FetchBlock(None, remote, block.file.revision, block).result == Err(e) && !IsOffline(e)
  }

  /** Block `n` of an attempt, after whatever went on before it. */
  method FetchNext(tiers: Tiers, w: World, attempt: nat, n: nat, block: RangeKey, ghost content: RevisionKey -> Bytes)
    returns (r: Result<Bytes, ClientError>)
    requires Honest(w, content, block.file.node) && tiers.Valid() && tiers.True(content) && block.End() <= U64_MAX
    modifies tiers, tiers.hot
    ensures tiers.Valid() && tiers.True(content)
    ensures r.Ok? ==> Faithful(content, block.file, block.offset, r.value) && |r.value| <= block.length
    ensures r.Err? ==> r == FetchBlock(None, w.remote(attempt, n, block), block.file.revision, block).result
    ensures Complete(w.remote(attempt, n, block), block) ==> r.Ok? && |r.value| == block.length
  {
    Interleave(tiers, w.meanwhile(attempt, n), content);
    r := FetchThrough(tiers, w.remote(attempt, n, block), block, content);
  }

  /** Fetch the blocks through the tiers and collect them in a local cache; the first error that is not
      "offline" ends it. */
  method Collect(blocks: seq<RangeKey>, tiers: Tiers, w: World, attempt: nat, ghost content: RevisionKey -> Bytes, ghost h: Handle,
                 ghost lo: nat, ghost hi: nat, ghost blockSize: nat)
    returns (r: Result<Entries, ClientError>, offline: bool, ghost answers: seq<Result<Bytes, ClientError>>)
    requires Honest(w, content, h.node) && Consistent(content, h) && tiers.Valid() && tiers.True(content)
    requires 0 < blockSize && Tiles(blocks, h, lo, hi, blockSize)
    modifies tiers, tiers.hot
    ensures tiers.Valid() && tiers.True(content)
    ensures r.Ok? ==> |answers| == |blocks| && Gathered(r.value, blocks, answers, content)
    ensures r.Ok? ==> forall i :: 0 <= i < |blocks| && Complete(w.remote(attempt, i, blocks[i]), blocks[i]) ==>
                        answers[i].Ok? && |answers[i].value| == blocks[i].length
    ensures r.Err? ==> exists i :: 0 <= i < |blocks| && BlockFails(w.remote(attempt, i, blocks[i]), blocks[i], r.error)
  {
    var entries: Entries := map[];
    offline := false;
    answers := [];
    for n := 0 to |blocks|
      invariant tiers.Valid() && tiers.True(content)
      invariant |answers| == n && Gathered(entries, blocks, answers, content)
      invariant forall i :: 0 <= i < n && Complete(w.remote(attempt, i, blocks[i]), blocks[i]) ==>
                  answers[i].Ok? && |answers[i].value| == blocks[i].length
    {
      var answer := FetchNext(tiers, w, attempt, n, blocks[n], content);
      if answer.Err? && !IsOffline(answer.error) {
        return Err(answer.error), offline, answers;
      }
      GatherNext(entries, blocks, answers, answer, content, h, lo, hi, blockSize);
      entries := Gather(entries, blocks[n], answer);
      offline := offline || answer.Err?;
      answers := answers + [answer];
    }
    return Ok(entries), offline, answers;
  }

  lemma CompleteBlockIsKept(entries: Entries, blocks: seq<RangeKey>, answers: seq<Result<Bytes, ClientError>>, i: nat)
    requires |answers| == |blocks| && Assembled(entries, blocks, |blocks|, answers) && i < |blocks| && blocks[i].length > 0
    requires answers[i].Ok? && |answers[i].value| == blocks[i].length
    ensures blocks[i] in entries && |entries[blocks[i]]| == blocks[i].length
  {
    assert ActualKey(blocks[i], blocks[i].length) == blocks[i];
  }

  /** If every block came back complete, the collected entries cover the request. */
  lemma CompleteBlocksCover(entries: Entries, blocks: seq<RangeKey>, answers: seq<Result<Bytes, ClientError>>, h: Handle, lo: nat, hi: nat,
                            blockSize: nat)
    requires 0 < blockSize && Tiles(blocks, h, lo, hi, blockSize) && |answers| == |blocks| && Assembled(entries, blocks, |blocks|, answers)
    requires forall i :: 0 <= i < |blocks| ==> answers[i].Ok? && |answers[i].value| == blocks[i].length
    ensures Covered(entries, h.File(), lo, hi)
  {
    forall i | 0 <= i < |blocks| ensures blocks[i] in entries && |entries[blocks[i]]| == blocks[i].length {
      CompleteBlockIsKept(entries, blocks, answers, i);
    }
    KeptBlocksCover(entries, blocks, h, lo, hi, blockSize);
  }

  lemma KeptBlocksCover(entries: Entries, blocks: seq<RangeKey>, h: Handle, lo: nat, hi: nat, blockSize: nat)
    requires 0 < blockSize && Tiles(blocks, h, lo, hi, blockSize)
    requires forall i :: 0 <= i < |blocks| ==> blocks[i] in entries && |entries[blocks[i]]| == blocks[i].length
    ensures Covered(entries, h.File(), lo, hi)
  {
    forall p: nat | lo <= p < hi ensures Cached(entries, h.File(), p) {
      TileHas(blocks, h, lo, hi, blockSize, p, |blocks| - 1);
      var i :| 0 <= i < |blocks| && blocks[i].offset <= p < blocks[i].offset + blocks[i].length;
      assert Has(entries, blocks[i], h.File(), p);
    }
  }

  /** The answer is the right window of the revision recorded in the handle. */
  ghost predicate Refines(content: RevisionKey -> Bytes, node: nat, offset: nat, length: nat, r: RangeRead) {
    r.data == Window(content(RevisionKey(node, r.revision)), offset, length)
  }

  /** The key of what a request can deliver at the revision of the handle. */
  function Wanted(h: Handle, offset: u64, length: u64): RangeKey {
    RangeKey(h.File(), offset, Min(length, SaturatingSub(h.size, offset)))
  }

  lemma WantedIsWindow(content: RevisionKey -> Bytes, h: Handle, offset: u64, length: u64, data: Bytes)
    requires Consistent(content, h) && |data| == Wanted(h, offset, length).length && Faithful(content, h.File(), offset, data)
    ensures data == Window(content(h.File()), offset, length)
  {
  }

  /** The server answers every block of this revision completely on this attempt. */
  ghost predicate AllComplete(w: World, attempt: nat, h: Handle) {
    forall i: nat, k: RangeKey :: k.file == h.File() && k.End() <= h.size ==> Complete(w.remote(attempt, i, k), k)
  }

  /** `read_online`: one attempt at the revision recorded in the handle. */
  method ReadOnline(h: Handle, offset: u64, length: u64, policyBlock: u64, tiers: Tiers, w: World, attempt: nat, ghost content: RevisionKey -> Bytes)
    returns (r: Result<RangeRead, ClientError>)
    requires 0 < policyBlock && Honest(w, content, h.node) && Consistent(content, h) && tiers.Valid() && tiers.True(content)
    modifies tiers, tiers.hot
    ensures tiers.Valid() && tiers.True(content)
    ensures r.Ok? ==> r.value.revision == h.revision && Refines(content, h.node, offset, length, r.value)
    ensures (AllComplete(w, attempt, h) && offset + length <= U64_MAX
             && RoundUp(Min(offset + length, h.size), DemandBlockSize(policyBlock, length)) <= U64_MAX) ==> r.Ok?
    ensures r == Err(StaleRevision) ==> exists i: nat, k: RangeKey :: k.file == h.File() && BlockFails(w.remote(attempt, i, k), k, StaleRevision)
  {
    var tiling := BlocksFor(h, offset, length, policyBlock);
    if tiling.Err? {
      return Err(tiling.error);
    }
    var blocks := tiling.value;
    if blocks == [] {
      return Ok(RangeRead(h.revision, []));
    }
    ghost var hi, blockSize := Min(offset + length, h.size), DemandBlockSize(policyBlock, length);
    var collected, offline;
    ghost var answers;
    collected, offline, answers := Collect(blocks, tiers, w, attempt, content, h, offset, hi, blockSize);
    if collected.Err? {
      return Err(collected.error);
    }
    var requested := Wanted(h, offset, length);
    var assembled := MemoryGet(collected.value, requested);
    if assembled.Some? {
      AnswersAreContent(collected.value, content, requested, assembled);
      WantedIsWindow(content, h, offset, length, assembled.value);
      return Ok(RangeRead(h.revision, assembled.value));
    }
    assert !AllComplete(w, attempt, h) by {
      if AllComplete(w, attempt, h) {
        assert forall i :: 0 <= i < |blocks| ==> Complete(w.remote(attempt, i, blocks[i]), blocks[i]);
        CompleteBlocksCover(collected.value, blocks, answers, h, offset, hi, blockSize);
      }
    }
    var cached := tiers.Get(requested, content);
    if cached.Some? {
      WantedIsWindow(content, h, offset, length, cached.value);
      return Ok(RangeRead(h.revision, cached.value));
    }
    return Err(if offline then OfflineCacheMiss else UnexpectedResponse);
  }

  /** `read_range_versioned`: retry at the revision the metadata service reports, at most three times.
      Every success is exactly what a direct read of one single revision returns, whatever mix of hits,
      short reads, changed revisions and concurrent activity served it. */
  method ReadRangeVersioned(handle: Handle, offset: u64, length: u64, policyBlock: u64, tiers: Tiers, w: World, ghost content: RevisionKey -> Bytes)
    returns (r: Result<RangeRead, ClientError>, h: Handle, refreshes: nat)
    requires 0 < policyBlock && Honest(w, content, handle.node) && Consistent(content, handle) && tiers.Valid() && tiers.True(content)
    modifies tiers, tiers.hot
    ensures tiers.Valid() && tiers.True(content)
    ensures r.Ok? ==> Refines(content, handle.node, offset, length, r.value) && r.value.revision == h.revision
    ensures h.node == handle.node && Consistent(content, h)
    ensures refreshes <= STALE_REVISION_RETRIES
    ensures offset + length > U64_MAX ==> r == Err(InvalidRequest)
    ensures !handle.online ==> refreshes == 0
    ensures r == Err(StaleRevision) ==>
              refreshes == STALE_REVISION_RETRIES || (refreshes > 0 && w.metadata(refreshes - 1) == Err(StaleRevision))
  {
    h := handle;
    refreshes := 0;
    if offset + length > U64_MAX {
      return Err(InvalidRequest), h, 0;
    }
    if !h.online {
      var cached := tiers.Get(Wanted(h, offset, length), content);
      if cached.None? {
        return Err(OfflineCacheMiss), h, 0;
      }
      WantedIsWindow(content, h, offset, length, cached.value);
      return Ok(RangeRead(h.revision, cached.value)), h, 0;
    }
    while true
      invariant h.node == handle.node && Consistent(content, h) && refreshes <= STALE_REVISION_RETRIES
      invariant tiers.Valid() && tiers.True(content)
      decreases STALE_REVISION_RETRIES - refreshes
    {
      r := ReadOnline(h, offset, length, policyBlock, tiers, w, refreshes, content);
      if r != Err(StaleRevision) || refreshes == STALE_REVISION_RETRIES {
        return;
      }
      var metadata := w.metadata(refreshes);
      refreshes := refreshes + 1;
      if metadata.Err? {
        return Err(metadata.error), h, refreshes;
      }
      h := h.(revision := metadata.value.0, size := metadata.value.1);
    }
  }
}
