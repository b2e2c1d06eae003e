/**
 The adaptive sequential read-ahead controller of one open file: matching reads
 to streams, arming and growing a stream's window, laying out speculative blocks,
 and taking back the blocks for which no permit was free.
 */
module Prefetch {
  import opened Common
  import opened Ranges

  const SEQUENTIAL_TRIGGER: u64 := 2
  const PRIME_WINDOW_BLOCKS: u64 := 2
  const INITIAL_ACTIVE_WINDOW_BLOCKS: u64 := 4
  const SEQUENTIAL_SLACK_BLOCKS: u64 := 1
  const MAX_PREFETCH_STREAMS: nat := 4
  const SCHEDULE_BURST_BLOCKS: u64 := 8

  datatype Stream = Stream(
    id: u64,
    lastTouch: u64,
    active: bool,
    nextExpected: u64,
    run: u64,
    cursor: u64,
    windowBlocks: u64,
    inflight: u64,
    bytesSinceGrowth: u64)

  datatype Controller = Controller(revision: u64, nextStreamId: u64, touchCounter: u64, streams: seq<Stream>)

  /** What is fixed while one revision is read at one granularity. */
  datatype Setting = Setting(file: RevisionKey, size: u64, blockSize: u64, capBlocks: u64) {
    /** `cap_blocks` is the read-ahead ceiling divided by the granularity, so the product fits. */
    predicate Sound() { 0 < blockSize && 0 < capBlocks && capBlocks * blockSize <= U64_MAX }
  }

  // ----- scheduling -----

  /** Blocks laid out from `cursor` towards `target`, at most `budget` of them. */
  function Layout(s: Setting, cursor: u64, target: u64, budget: nat): seq<RangeKey>
    requires target <= s.size
    decreases budget
  {
    if cursor >= target || budget == 0 then []
    else [RangeKey(s.file, cursor, Min(s.blockSize, s.size - cursor))]
         + Layout(s, SaturatingAdd(cursor, s.blockSize), target, budget - 1)
  }

  /** The cursor after `n` blocks. */
  function Advance(s: Setting, cursor: u64, n: nat): u64
    decreases n
  {
    if n == 0 then cursor else Advance(s, SaturatingAdd(cursor, s.blockSize), n - 1)
  }

  function CeilDiv(a: nat, d: nat): nat
    requires d > 0
  {
    (a + d - 1) / d
  }

  function DemandEnd(s: Setting, readEnd: u64): u64
    requires s.blockSize > 0
  {
    var blocks := CeilDiv(readEnd, s.blockSize);
    Min(if blocks * s.blockSize <= U64_MAX then blocks * s.blockSize else U64_MAX, s.size)
  }

  function Target(s: Setting, demandEnd: u64, window: u64): u64 {
    Min(SaturatingAdd(demandEnd, SaturatingMul(window, s.blockSize)), s.size)
  }

  /** `schedule`, with an extra bound on the number of blocks. The source's own bound is the burst. */
  function ScheduleUpTo(s: Setting, stream: Stream, readEnd: u64, limit: nat): (Stream, seq<RangeKey>)
    requires s.blockSize > 0
  {
    var window := Min(stream.windowBlocks, s.capBlocks);
    if window == 0 || s.size == 0 then (stream, [])
    else
      var demandEnd := DemandEnd(s, readEnd);
      var cursor := Max(stream.cursor, demandEnd);
      var budget := Min(Min(SaturatingSub(window, stream.inflight), SCHEDULE_BURST_BLOCKS), limit);
      var blocks := Layout(s, cursor, Target(s, demandEnd, window), budget);
      LayoutLength(s, cursor, Target(s, demandEnd, window), budget);
      (stream.(cursor := Advance(s, cursor, |blocks|), inflight := SaturatingAdd(stream.inflight, |blocks|)), blocks)
  }

  lemma {:induction false} LayoutLength(s: Setting, cursor: u64, target: u64, budget: nat)
    requires target <= s.size
    ensures |Layout(s, cursor, target, budget)| <= budget
    decreases budget
  {
    if cursor < target && budget > 0 {
      LayoutLength(s, SaturatingAdd(cursor, s.blockSize), target, budget - 1);
    }
  }

  /** Block `i` starts where the cursor stood after `i` blocks. */
  lemma {:induction false} LayoutOffsets(s: Setting, cursor: u64, target: u64, budget: nat, i: nat)
    requires target <= s.size && i < |Layout(s, cursor, target, budget)|
    ensures var b := Layout(s, cursor, target, budget)[i];
            b.offset == Advance(s, cursor, i) && b.offset < target && b.length == Min(s.blockSize, s.size - b.offset) && b.file == s.file
    decreases budget
  {
    if i > 0 {
      LayoutOffsets(s, SaturatingAdd(cursor, s.blockSize), target, budget - 1, i - 1);
    }
  }

  /** Laying out with a smaller budget gives a prefix. */
  lemma {:induction false} LayoutPrefix(s: Setting, cursor: u64, target: u64, budget: nat, n: nat)
    requires target <= s.size && n <= |Layout(s, cursor, target, budget)|
    ensures Layout(s, cursor, target, Min(budget, n)) == Layout(s, cursor, target, budget)[..n]
    decreases budget
  {
    LayoutLength(s, cursor, target, budget);
    if n > 0 {
      LayoutPrefix(s, SaturatingAdd(cursor, s.blockSize), target, budget - 1, n - 1);
      var all := Layout(s, cursor, target, budget);
      assert all[..n] == [all[0]] + all[1..][..n - 1];
      assert all[1..] == Layout(s, SaturatingAdd(cursor, s.blockSize), target, budget - 1);
    }
  }

  lemma {:induction false} AdvanceIsMonotone(s: Setting, cursor: u64, i: nat, j: nat)
    requires i <= j
    ensures cursor <= Advance(s, cursor, i) <= Advance(s, cursor, j)
    ensures i < j ==> SaturatingAdd(Advance(s, cursor, i), s.blockSize) <= Advance(s, cursor, j)
    decreases j
  {
    if i > 0 {
      AdvanceIsMonotone(s, SaturatingAdd(cursor, s.blockSize), i - 1, j - 1);
    } else if j > 0 {
      AdvanceIsMonotone(s, SaturatingAdd(cursor, s.blockSize), 0, j - 1);
    }
  }

  /** `unschedule`, applied to the stream it names. */
  function TakeBack(stream: Stream, blocks: seq<RangeKey>): Stream {
    if blocks == [] then stream
    else stream.(inflight := SaturatingSub(stream.inflight, Min(|blocks|, U64_MAX)), cursor := Min(stream.cursor, blocks[0].offset))
  }

  /** The cursor after the first `n` blocks is the least of where it stands and where block `n` starts. */
  lemma LayoutTakenBack(s: Setting, cursor: u64, target: u64, budget: nat, n: nat)
    requires target <= s.size && n <= |Layout(s, cursor, target, budget)|
    ensures var blocks := Layout(s, cursor, target, budget);
            && |blocks| <= budget && Layout(s, cursor, target, Min(budget, n)) == blocks[..n]
            && Advance(s, cursor, n) == if n < |blocks| then Min(Advance(s, cursor, |blocks|), blocks[n].offset) else Advance(s, cursor, |blocks|)
  {
    var blocks := Layout(s, cursor, target, budget);
    LayoutLength(s, cursor, target, budget);
    LayoutPrefix(s, cursor, target, budget, n);
    if n < |blocks| {
      LayoutOffsets(s, cursor, target, budget, n);
      AdvanceIsMonotone(s, cursor, n, |blocks|);
    }
  }

  /** Taking back a denied suffix leaves exactly the state of having scheduled only the prefix. */
  lemma UnscheduleIsPrefixSchedule(s: Setting, stream: Stream, readEnd: u64, n: nat)
    requires s.blockSize > 0
    requires n <= |ScheduleUpTo(s, stream, readEnd, SCHEDULE_BURST_BLOCKS).1|
    ensures var (scheduled, blocks) := ScheduleUpTo(s, stream, readEnd, SCHEDULE_BURST_BLOCKS);
            ScheduleUpTo(s, stream, readEnd, n) == (TakeBack(scheduled, blocks[n..]), blocks[..n])
  {
    var window := Min(stream.windowBlocks, s.capBlocks);
    if window != 0 && s.size != 0 {
      var demandEnd := DemandEnd(s, readEnd);
      var cursor := Max(stream.cursor, demandEnd);
      var target := Target(s, demandEnd, window);
      var budget := Min(SaturatingSub(window, stream.inflight), SCHEDULE_BURST_BLOCKS);
      LayoutTakenBack(s, cursor, target, budget, n);
    }
  }

  /** `schedule`. */
  method Schedule(s: Setting, stream: Stream, readEnd: u64) returns (r: Stream, blocks: seq<RangeKey>)
    requires s.blockSize > 0
    ensures (r, blocks) == ScheduleUpTo(s, stream, readEnd, SCHEDULE_BURST_BLOCKS)
  {
    var window := Min(stream.windowBlocks, s.capBlocks);
    if window == 0 || s.size == 0 {
      return stream, [];
    }
    var demandEnd := DemandEnd(s, readEnd);
    var budget := Min(SaturatingSub(window, stream.inflight), SCHEDULE_BURST_BLOCKS);
    var cursor;
    blocks, cursor := LayOut(s, Max(stream.cursor, demandEnd), Target(s, demandEnd, window), budget);
    r := stream.(cursor := cursor, inflight := SaturatingAdd(stream.inflight, |blocks|));
  }

  /** The scheduling loop itself. */
  method LayOut(s: Setting, start: u64, target: u64, limit: nat) returns (blocks: seq<RangeKey>, cursor: u64)
    requires target <= s.size
    ensures blocks == Layout(s, start, target, limit) && cursor == Advance(s, start, |blocks|) && |blocks| <= limit
  {
    blocks := [];
    cursor := start;
    var budget: nat := limit;
    while cursor < target && budget > 0
      invariant budget <= limit && |blocks| == limit - budget
      invariant Layout(s, start, target, limit) == blocks + Layout(s, cursor, target, budget)
      invariant cursor == Advance(s, start, |blocks|)
      decreases budget
    {
      AdvanceOnce(s, start, |blocks|);
      var block := RangeKey(s.file, cursor, Min(s.blockSize, s.size - cursor));
      assert Layout(s, cursor, target, budget) == [block] + Layout(s, SaturatingAdd(cursor, s.blockSize), target, budget - 1);
      blocks := blocks + [block];
      cursor := SaturatingAdd(cursor, s.blockSize);
      budget := budget - 1;
    }
    assert Layout(s, cursor, target, budget) == [];
  }

  lemma {:induction false} AdvanceOnce(s: Setting, cursor: u64, n: nat)
    ensures Advance(s, cursor, n + 1) == SaturatingAdd(Advance(s, cursor, n), s.blockSize)
    decreases n
  {
    if n > 0 {
      AdvanceOnce(s, SaturatingAdd(cursor, s.blockSize), n - 1);
    }
  }

  // ----- observing a read -----

  predicate Continues(stream: Stream, offset: u64, slack: u64) {
    offset <= SaturatingAdd(stream.nextExpected, slack) && SaturatingAdd(offset, slack) >= stream.nextExpected
  }

  function Distance(a: nat, b: nat): nat { if a <= b then b - a else a - b }

  /** A read continues a stream exactly if it starts no further than the slack from where the stream
      expects it, on either side. */
  lemma ContinuesIsNear(stream: Stream, offset: u64, slack: u64)
    ensures Continues(stream, offset, slack) <==> Distance(stream.nextExpected, offset) <= slack
  {
  }

  /** The stream this read continues: the nearest one within the slack, the first on a tie. */
  function Match(streams: seq<Stream>, offset: u64, slack: u64): (r: Option<nat>)
    ensures r.None? <==> forall i :: 0 <= i < |streams| ==> !Continues(streams[i], offset, slack)
    ensures r.Some? ==> r.value < |streams| && Continues(streams[r.value], offset, slack)
    ensures r.Some? ==> forall i :: 0 <= i < |streams| && Continues(streams[i], offset, slack) ==>
                          Distance(streams[r.value].nextExpected, offset) <= Distance(streams[i].nextExpected, offset)
    ensures r.Some? ==> forall i :: 0 <= i < r.value && Continues(streams[i], offset, slack) ==>
                          Distance(streams[r.value].nextExpected, offset) < Distance(streams[i].nextExpected, offset)
  {
    if streams == [] then None
    else
      var n := |streams| - 1;
      var best := Match(streams[..n], offset, slack);
      if !Continues(streams[n], offset, slack) then best
      else if best.None? || Distance(streams[n].nextExpected, offset) < Distance(streams[best.value].nextExpected, offset) then Some(n)
      else best
  }

  function Oldest(streams: seq<Stream>): (r: nat)
    requires streams != []
    ensures r < |streams| && forall i :: 0 <= i < |streams| ==> streams[r].lastTouch <= streams[i].lastTouch
    ensures forall i :: 0 <= i < r ==> streams[r].lastTouch < streams[i].lastTouch
  {
    if |streams| == 1 then 0
    else
      var n := |streams| - 1;
      var best := Oldest(streams[..n]);
      if streams[n].lastTouch < streams[best].lastTouch then n else best
  }

  /** `Vec::swap_remove`. */
  function SwapRemove(streams: seq<Stream>, i: nat): seq<Stream>
    requires i < |streams|
  {
    streams[i := streams[|streams| - 1]][..|streams| - 1]
  }

  /** Bytes a stream must have delivered before its window may double. */
  function GrowthThreshold(s: Setting, stream: Stream): u64 {
    SaturatingMul(Max(stream.windowBlocks, 1), s.blockSize) / 2
  }

  /** A matched stream before it schedules: touched, armed once the run is long enough, and grown by
      one doubling when this read stalled and enough bytes were delivered. */
  function ArmAndGrow(s: Setting, stream: Stream, touch: u64, readEnd: u64, returned: u64, stalled: bool): Stream {
    var touched := stream.(lastTouch := touch, run := SaturatingAdd(stream.run, 1), nextExpected := Max(stream.nextExpected, readEnd));
    if touched.run < SEQUENTIAL_TRIGGER then touched
    else
      var armed := if touched.active then touched
                   else touched.(active := true, windowBlocks := Min(INITIAL_ACTIVE_WINDOW_BLOCKS, s.capBlocks),
                                 cursor := Max(touched.cursor, readEnd), bytesSinceGrowth := 0);
      var fed := armed.(bytesSinceGrowth := SaturatingAdd(armed.bytesSinceGrowth, returned));
      if stalled && fed.windowBlocks < s.capBlocks && fed.bytesSinceGrowth >= GrowthThreshold(s, fed)
      then fed.(windowBlocks := Min(SaturatingMul(fed.windowBlocks, 2), s.capBlocks), bytesSinceGrowth := 0)
      else fed
  }

  function NewStream(id: u64, touch: u64, readEnd: u64): Stream {
    Stream(id, touch, false, readEnd, 1, readEnd, 0, 0, 0)
  }

  function WrappingIncrement(a: u64): u64 { if a == U64_MAX then 0 else a + 1 }

  /** A read that continues no stream: recycle the oldest slot, and prime a shallow read-ahead when it
      is the very first stream. */
  function StartStream(s: Setting, c: Controller, touch: u64, readEnd: u64): (Controller, u64, seq<RangeKey>)
    requires s.blockSize > 0
  {
    var kept := if |c.streams| >= MAX_PREFETCH_STREAMS then SwapRemove(c.streams, Oldest(c.streams)) else c.streams;
    var id := WrappingIncrement(c.nextStreamId);
    var cold := NewStream(id, touch, readEnd);
    var (stream, blocks) :=
      if c.streams != [] then (cold, [])
      else
        var (primed, ahead) := ScheduleUpTo(s, cold.(windowBlocks := Min(PRIME_WINDOW_BLOCKS, s.capBlocks)), readEnd, SCHEDULE_BURST_BLOCKS);
        (primed.(windowBlocks := 0), ahead);
    (c.(nextStreamId := id, touchCounter := touch, streams := kept + [stream]), id, blocks)
  }

  function ContinueStream(s: Setting, c: Controller, i: nat, touch: u64, readEnd: u64, returned: u64, stalled: bool)
    : (Controller, u64, seq<RangeKey>)
    requires s.blockSize > 0 && i < |c.streams|
  {
    var grown := ArmAndGrow(s, c.streams[i], touch, readEnd, returned, stalled);
    var (stream, blocks) :=
      if grown.run < SEQUENTIAL_TRIGGER then (grown, []) else ScheduleUpTo(s, grown, readEnd, SCHEDULE_BURST_BLOCKS);
    (c.(touchCounter := touch, streams := c.streams[i := stream]), stream.id, blocks)
  }

  /** `observe`. */
  function Observed(s: Setting, c0: Controller, offset: u64, returned: u64, stalled: bool): (Controller, u64, seq<RangeKey>) {
    if s.blockSize == 0 || s.capBlocks == 0 then (c0, 0, [])
    else
      var c := if s.file.revision != c0.revision then Controller(s.file.revision, 0, 0, []) else c0;
      var readEnd := SaturatingAdd(offset, returned);
      var touch := WrappingIncrement(c.touchCounter);
      match Match(c.streams, offset, SaturatingMul(s.blockSize, SEQUENTIAL_SLACK_BLOCKS))
      case None => StartStream(s, c, touch, readEnd)
      case Some(i) => ContinueStream(s, c, i, touch, readEnd, returned, stalled)
  }

  /** The position of the stream with this identifier. */
  function Find(streams: seq<Stream>, id: u64): (r: Option<nat>)
    ensures r.Some? ==> r.value < |streams| && streams[r.value].id == id
    ensures r.None? ==> forall i :: 0 <= i < |streams| ==> streams[i].id != id
  {
    if streams == [] then None
    else
      var n := |streams| - 1;
      match Find(streams[..n], id)
      case Some(i) => Some(i)
      case None => if streams[n].id == id then Some(n) else None
  }

  function Unscheduled(c: Controller, id: u64, blocks: seq<RangeKey>): Controller {
    match Find(c.streams, id)
    case None => c
    case Some(i) => c.(streams := c.streams[i := TakeBack(c.streams[i], blocks)])
  }

  function Finished(stream: Stream, ok: bool): Stream {
    var done := stream.(inflight := SaturatingSub(stream.inflight, 1));
    if ok then done else done.(active := false, windowBlocks := 0, bytesSinceGrowth := 0)
  }

  function Completed(c: Controller, id: u64, ok: bool): Controller {
    match Find(c.streams, id)
    case None => c
    case Some(i) => c.(streams := c.streams[i := Finished(c.streams[i], ok)])
  }

  /** The controller as the mutable object the handle owns. */
  class SequentialPrefetcher {
    var revision: u64
    var nextStreamId: u64
    var touchCounter: u64
    var streams: seq<Stream>

    function View(): Controller
      reads this
    {
      Controller(revision, nextStreamId, touchCounter, streams)
    }

    constructor ()
      ensures View() == Controller(0, 0, 0, [])
    {
      revision, nextStreamId, touchCounter, streams := 0, 0, 0, [];
    }

    method Observe(s: Setting, offset: u64, returned: u64, stalled: bool) returns (id: u64, blocks: seq<RangeKey>)
      modifies this
      ensures (View(), id, blocks) == Observed(s, old(View()), offset, returned, stalled)
    {
      if s.blockSize == 0 || s.capBlocks == 0 {
        return 0, [];
      }
      if s.file.revision != revision {
        revision, nextStreamId, touchCounter, streams := s.file.revision, 0, 0, [];
      }
      var readEnd := SaturatingAdd(offset, returned);
      touchCounter := WrappingIncrement(touchCounter);
      var matched := Match(streams, offset, SaturatingMul(s.blockSize, SEQUENTIAL_SLACK_BLOCKS));
      if matched.None? {
        var first := streams == [];
        if |streams| >= MAX_PREFETCH_STREAMS {
          streams := SwapRemove(streams, Oldest(streams));
        }
        nextStreamId := WrappingIncrement(nextStreamId);
        id := nextStreamId;
        var stream := NewStream(id, touchCounter, readEnd);
        blocks := [];
        if first {
          stream, blocks := Schedule(s, stream.(windowBlocks := Min(PRIME_WINDOW_BLOCKS, s.capBlocks)), readEnd);
          stream := stream.(windowBlocks := 0);
        }
        streams := streams + [stream];
      } else {
        var i := matched.value;
        var stream := ArmAndGrow(s, streams[i], touchCounter, readEnd, returned, stalled);
        blocks := [];
        if stream.run >= SEQUENTIAL_TRIGGER {
          stream, blocks := Schedule(s, stream, readEnd);
        }
        streams := streams[i := stream];
        id := stream.id;
      }
    }

    method Unschedule(id: u64, blocks: seq<RangeKey>)
      modifies this`streams
      ensures View() == Unscheduled(old(View()), id, blocks)
    {
      var found := Find(streams, id);
      if blocks != [] && found.Some? {
        streams := streams[found.value := TakeBack(streams[found.value], blocks)];
      }
    }

    method Complete(id: u64, ok: bool)
      modifies this`streams
      ensures View() == Completed(old(View()), id, ok)
    {
      var found := Find(streams, id);
      if found.Some? {
        streams := streams[found.value := Finished(streams[found.value], ok)];
      }
    }
  }
}
