/**
 Whole runs of the read-ahead controller within one file revision and one
 granularity: demand reads, of whose scheduled blocks the permit pool grants a
 prefix, interleaved with completions of the granted fetches.
 */
module PrefetchRun {
  import opened Common
  import opened Ranges
  import opened Prefetch

  /** Book-keeping per stream identifier: the blocks granted so far, how many fetches have completed,
      and the bytes delivered and doublings made since the stream was last armed. */
  datatype Account = Account(kept: seq<RangeKey>, done: nat, delivered: nat, growths: nat)

  datatype System = System(c: Controller, accounts: map<u64, Account>)

  const INITIAL := System(Controller(0, 0, 0, []), map[])

  datatype Step =
    | Read(offset: u64, returned: u64, stalled: bool, granted: nat)
    | Complete(id: u64, ok: bool)

  /** Only reads that returned something are observed. They stay inside the file, and stream identifiers do
      not wrap around. */
  predicate Enabled(s: Setting, y: System, step: Step) {
    match step
    case Read(offset, returned, stalled, granted) =>
      && 0 < returned && offset + returned <= s.size
      && y.c.nextStreamId < U64_MAX
      && granted <= |Observed(s, y.c, offset, returned, stalled).2|
    case Complete(id, _) => id in y.accounts && y.accounts[id].done < |y.accounts[id].kept|
  }

  /** The window a stream is armed with. */
  function ArmedWindow(s: Setting): u64 { Min(INITIAL_ACTIVE_WINDOW_BLOCKS, s.capBlocks) }

  function StreamOf(c: Controller, id: u64): Option<Stream> {
    match Find(c.streams, id)
    case None => None
    case Some(i) => Some(c.streams[i])
  }

  /** The account after a read, from the stream before (if there was one) and after. */
  function Book(s: Setting, a: Account, before: Option<Stream>, after: Stream, returned: nat, granted: seq<RangeKey>): Account {
    var armedBefore := before.Some? && before.value.active;
    var windowBefore := if armedBefore then before.value.windowBlocks else ArmedWindow(s);
    Account(a.kept + granted, a.done,
            (if armedBefore then a.delivered else 0) + returned,
            (if armedBefore then a.growths else 0) + if after.windowBlocks > windowBefore then 1 else 0)
  }

  function Apply(s: Setting, y: System, step: Step): System
    requires Enabled(s, y, step)
  {
    match step
    case Read(offset, returned, stalled, granted) =>
      var (c, id, blocks) := Observed(s, y.c, offset, returned, stalled);
      var a := if id in y.accounts then y.accounts[id] else Account([], 0, 0, 0);
      (match StreamOf(c, id)
       case None => System(c, y.accounts)
       case Some(after) =>
         System(Unscheduled(c, id, blocks[granted..]),
                y.accounts[id := Book(s, a, StreamOf(y.c, id), after, returned, blocks[..granted])]))
    case Complete(id, ok) =>
      System(Completed(y.c, id, ok), y.accounts[id := y.accounts[id].(done := y.accounts[id].done + 1)])
  }

  ghost predicate IsRun(s: Setting, states: seq<System>, steps: seq<Step>) {
    && |states| == |steps| + 1 && states[0] == INITIAL
    && forall i {:trigger steps[i]} :: 0 <= i < |steps| ==> Enabled(s, states[i], steps[i]) && states[i + 1] == Apply(s, states[i], steps[i])
  }

  // ----- blocks -----

  /** Disjoint, increasing, inside the file, and all below `limit`. */
  ghost predicate Orderly(s: Setting, kept: seq<RangeKey>, limit: nat) {
    && (forall i, j :: 0 <= i < j < |kept| ==> kept[i].End() <= kept[j].offset)
    && (forall i :: 0 <= i < |kept| ==>
          kept[i].file == s.file && 0 < kept[i].length <= s.blockSize && kept[i].End() <= s.size && kept[i].End() <= limit)
  }

  /** A schedule pass appends to an orderly sequence and stays within the window. */
  lemma ScheduleIsOrderly(s: Setting, stream: Stream, readEnd: u64, limit: nat, kept: seq<RangeKey>)
    requires s.Sound() && Orderly(s, kept, stream.cursor)
    ensures var (after, blocks) := ScheduleUpTo(s, stream, readEnd, limit);
            && Orderly(s, kept + blocks, after.cursor)
            && after.inflight == stream.inflight + |blocks|
            && (after.inflight <= stream.inflight || after.inflight <= s.capBlocks)
  {
    var window := Min(stream.windowBlocks, s.capBlocks);
    if window != 0 && s.size != 0 {
      var demandEnd := DemandEnd(s, readEnd);
      var cursor, target := Max(stream.cursor, demandEnd), Target(s, demandEnd, window);
      var budget := Min(Min(SaturatingSub(window, stream.inflight), SCHEDULE_BURST_BLOCKS), limit);
      LayoutLength(s, cursor, target, budget);
      LayoutIsOrderly(s, cursor, target, budget, kept);
    }
  }

  lemma LayoutIsOrderly(s: Setting, cursor: u64, target: u64, budget: nat, kept: seq<RangeKey>)
    requires s.Sound() && target <= s.size && Orderly(s, kept, cursor)
    ensures var blocks := Layout(s, cursor, target, budget);
            Orderly(s, kept + blocks, Advance(s, cursor, |blocks|))
  {
    var blocks := Layout(s, cursor, target, budget);
    var all, limit := kept + blocks, Advance(s, cursor, |blocks|);
    AdvanceIsMonotone(s, cursor, 0, |blocks|);
    forall i | 0 <= i < |blocks|
      ensures blocks[i].offset >= cursor && blocks[i].offset < s.size && blocks[i].file == s.file
      ensures blocks[i].length == Min(s.blockSize, s.size - blocks[i].offset) && blocks[i].End() <= limit
    {
      LayoutOffsets(s, cursor, target, budget, i);
      AdvanceIsMonotone(s, cursor, i, |blocks|);
    }
    forall i, j | 0 <= i < j < |blocks| ensures blocks[i].End() <= blocks[j].offset {
      LayoutOffsets(s, cursor, target, budget, i);
      LayoutOffsets(s, cursor, target, budget, j);
      AdvanceIsMonotone(s, cursor, i, j);
    }
    JoinOrderly(s, kept, blocks, cursor, limit);
  }

  lemma JoinOrderly(s: Setting, kept: seq<RangeKey>, blocks: seq<RangeKey>, cursor: nat, limit: nat)
    requires Orderly(s, kept, cursor) && Orderly(s, blocks, limit) && cursor <= limit
    requires forall i :: 0 <= i < |blocks| ==> blocks[i].offset >= cursor
    ensures Orderly(s, kept + blocks, limit)
  {
    var all := kept + blocks;
    forall i, j | 0 <= i < j < |all| ensures all[i].End() <= all[j].offset {
      if i < |kept| && j >= |kept| {
        assert all[j] == blocks[j - |kept|];
      } else if i >= |kept| {
        assert all[i] == blocks[i - |kept|] && all[j] == blocks[j - |kept|];
      }
    }
  }

  // ----- pacing -----

  /** What rounding of the threshold can cost: nothing at an even block size. */
  function Rounding(s: Setting, growths: nat): nat { if s.blockSize % 2 == 0 then 0 else growths }

  /** The window lies between its armed size and the cap, and everything it gained was paid for by
      delivered bytes, two for one. */
  ghost predicate Paced(s: Setting, stream: Stream, delivered: nat, growths: nat) {
    && 1 <= ArmedWindow(s) <= stream.windowBlocks <= s.capBlocks
    && (stream.windowBlocks - ArmedWindow(s)) * s.blockSize + 2 * stream.bytesSinceGrowth <= 2 * delivered + Rounding(s, growths)
  }

  lemma DoublingIsPaid(s: Setting, window: nat, wider: nat, bytes: nat)
    requires s.Sound() && 1 <= window < s.capBlocks && window <= wider <= 2 * window
    requires bytes >= SaturatingMul(window, s.blockSize) / 2
    ensures wider * s.blockSize <= window * s.blockSize + 2 * bytes + if s.blockSize % 2 == 0 then 0 else 1
  {
    ProductIsMonotone(window, s.capBlocks, s.blockSize);
    ProductIsMonotone(wider, 2 * window, s.blockSize);
    assert window * s.blockSize <= U64_MAX;
    assert 2 * window * s.blockSize == window * s.blockSize + window * s.blockSize;
    if s.blockSize % 2 == 0 {
      var half := s.blockSize / 2;
      assert window * s.blockSize == 2 * (window * half);
    }
  }

  lemma ProductIsMonotone(a: nat, b: nat, d: nat)
    requires a <= b
    ensures a * d <= b * d
  {
  }

  /** A doubling that was allowed keeps the balance. */
  lemma GrowthKeepsBalance(s: Setting, armed: nat, window: nat, wider: nat, bytes: nat, delivered: nat, growths: nat)
    requires s.Sound() && armed <= window && 1 <= window < s.capBlocks && window <= wider <= 2 * window
    requires bytes >= SaturatingMul(window, s.blockSize) / 2
    requires (window - armed) * s.blockSize + 2 * bytes <= 2 * delivered + Rounding(s, growths)
    ensures (wider - armed) * s.blockSize <= 2 * delivered + Rounding(s, growths + 1)
  {
    DoublingIsPaid(s, window, wider, bytes);
    assert (wider - armed) * s.blockSize == wider * s.blockSize - window * s.blockSize + (window - armed) * s.blockSize;
  }

  /** The armed stream with this read's bytes added, before any growth. */
  lemma FeedKeepsPace(s: Setting, stream: Stream, returned: u64, delivered: nat, growths: nat)
    requires Paced(s, stream, delivered, growths)
    ensures Paced(s, stream.(bytesSinceGrowth := SaturatingAdd(stream.bytesSinceGrowth, returned)), delivered + returned, growths)
  {
  }

  lemma GrowKeepsPace(s: Setting, fed: Stream, delivered: nat, growths: nat)
    requires s.Sound() && Paced(s, fed, delivered, growths)
    requires fed.windowBlocks < s.capBlocks && fed.bytesSinceGrowth >= GrowthThreshold(s, fed)
    ensures var wider := Min(SaturatingMul(fed.windowBlocks, 2), s.capBlocks);
            wider > fed.windowBlocks && Paced(s, fed.(windowBlocks := wider, bytesSinceGrowth := 0), delivered, growths + 1)
  {
    var wider := Min(SaturatingMul(fed.windowBlocks, 2), s.capBlocks);
    GrowthKeepsBalance(s, ArmedWindow(s), fed.windowBlocks, wider, fed.bytesSinceGrowth, delivered, growths);
  }

  /** One observed read keeps an armed stream paced, or arms it paced; its window never shrinks. */
  lemma ReadKeepsPace(s: Setting, stream: Stream, touch: u64, readEnd: u64, returned: u64, stalled: bool, delivered: nat, growths: nat)
    requires s.Sound() && 1 <= stream.run && (stream.active ==> Paced(s, stream, delivered, growths))
    ensures var after := ArmAndGrow(s, stream, touch, readEnd, returned, stalled);
            var windowBefore := if stream.active then stream.windowBlocks else ArmedWindow(s);
            && after.active && after.windowBlocks >= windowBefore && after.run >= SEQUENTIAL_TRIGGER
            && Paced(s, after, (if stream.active then delivered else 0) + returned,
                     (if stream.active then growths else 0) + if after.windowBlocks > windowBefore then 1 else 0)
  {
    var touched := stream.(lastTouch := touch, run := SaturatingAdd(stream.run, 1), nextExpected := Max(stream.nextExpected, readEnd));
    var armed := if touched.active then touched
                 else touched.(active := true, windowBlocks := Min(INITIAL_ACTIVE_WINDOW_BLOCKS, s.capBlocks),
                               cursor := Max(touched.cursor, readEnd), bytesSinceGrowth := 0);
    var delivered', growths' := if stream.active then delivered else 0, if stream.active then growths else 0;
    assert Paced(s, armed, delivered', growths') by {
      assert (ArmedWindow(s) - ArmedWindow(s)) * s.blockSize == 0;
    }
    FeedKeepsPace(s, armed, returned, delivered', growths');
    var fed := armed.(bytesSinceGrowth := SaturatingAdd(armed.bytesSinceGrowth, returned));
    if stalled && fed.windowBlocks < s.capBlocks && fed.bytesSinceGrowth >= GrowthThreshold(s, fed) {
      GrowKeepsPace(s, fed, delivered' + returned, growths');
    }
  }

  // ----- what every run keeps -----

  /** One tracked stream and its account: the granted blocks are orderly and behind the cursor, the
      in-flight counter is exactly granted minus completed and within the cap, and an armed window is paced. */
  ghost predicate StreamInv(s: Setting, stream: Stream, a: Account) {
    && Orderly(s, a.kept, stream.cursor)
    && stream.inflight + a.done == |a.kept| && stream.inflight <= s.capBlocks
    && 1 <= stream.run
    && (stream.active ==> Paced(s, stream, a.delivered, a.growths))
  }

  ghost predicate DistinctIds(streams: seq<Stream>) {
    forall i, j :: 0 <= i < j < |streams| ==> streams[i].id != streams[j].id
  }

  ghost predicate AccountInv(s: Setting, a: Account) { Orderly(s, a.kept, s.size) && a.done <= |a.kept| }

  ghost predicate Tracked(s: Setting, c: Controller, accounts: map<u64, Account>) {
    && DistinctIds(c.streams)
    && (forall i :: 0 <= i < |c.streams| ==> c.streams[i].id in accounts && StreamInv(s, c.streams[i], accounts[c.streams[i].id]))
    && (forall id :: id in accounts ==> id <= c.nextStreamId && AccountInv(s, accounts[id]))
  }

  ghost predicate Inv(s: Setting, y: System) {
    Tracked(s, y.c, y.accounts) && (y.c.revision == s.file.revision || y == INITIAL)
  }

  lemma FindIs(streams: seq<Stream>, i: nat)
    requires DistinctIds(streams) && i < |streams|
    ensures Find(streams, streams[i].id) == Some(i)
  {
    var r := Find(streams, streams[i].id);
    assert r.Some?;
    assert streams[r.value].id == streams[i].id;
  }

  lemma LooserOrderly(s: Setting, kept: seq<RangeKey>, limit: nat)
    requires Orderly(s, kept, limit)
    ensures Orderly(s, kept, s.size)
  {
  }

  /** Replacing one tracked stream and its account. */
  lemma ReplaceKeepsTracked(s: Setting, c: Controller, accounts: map<u64, Account>, i: nat, stream: Stream, a: Account, touch: u64)
    requires Tracked(s, c, accounts) && i < |c.streams| && stream.id == c.streams[i].id
    requires StreamInv(s, stream, a)
    ensures Tracked(s, c.(touchCounter := touch, streams := c.streams[i := stream]), accounts[stream.id := a])
  {
    LooserOrderly(s, a.kept, stream.cursor);
  }

  /** Adding a stream under an identifier never used before. */
  lemma AddKeepsTracked(s: Setting, c: Controller, accounts: map<u64, Account>, stream: Stream, a: Account, touch: u64)
    requires Tracked(s, c, accounts) && c.nextStreamId < U64_MAX && stream.id == c.nextStreamId + 1
    requires StreamInv(s, stream, a)
    ensures Tracked(s, c.(nextStreamId := stream.id, touchCounter := touch, streams := c.streams + [stream]), accounts[stream.id := a])
  {
    LooserOrderly(s, a.kept, stream.cursor);
  }

  /** The slots left when a new stream arrives. */
  function Recycled(c: Controller): Controller {
    if |c.streams| >= MAX_PREFETCH_STREAMS then c.(streams := SwapRemove(c.streams, Oldest(c.streams))) else c
  }

  lemma RecycleKeepsTracked(s: Setting, c: Controller, accounts: map<u64, Account>)
    requires Tracked(s, c, accounts)
    ensures Tracked(s, Recycled(c), accounts)
  {
    var kept := Recycled(c).streams;
    if |c.streams| >= MAX_PREFETCH_STREAMS {
      var i := Oldest(c.streams);
      forall j, k | 0 <= j < k < |kept| ensures kept[j].id != kept[k].id {
        var j', k' := if j == i then |kept| else j, if k == i then |kept| else k;
        assert kept[j] == c.streams[j'] && kept[k] == c.streams[k'];
        assert j' != k';
      }
    }
  }

  lemma TakeBackCommutes(stream: Stream, blocks: seq<RangeKey>, window: u64)
    ensures TakeBack(stream, blocks).(windowBlocks := window) == TakeBack(stream.(windowBlocks := window), blocks)
  {
  }

  /** The new stream of an unmatched read, after the permit pool granted a prefix of its blocks. */
  lemma NewStreamInv(s: Setting, id: u64, touch: u64, readEnd: u64, granted: nat, delivered: nat, growths: nat)
    requires s.Sound() && readEnd <= s.size
    ensures var cold := NewStream(id, touch, readEnd);
            var (primed, ahead) := ScheduleUpTo(s, cold.(windowBlocks := Min(PRIME_WINDOW_BLOCKS, s.capBlocks)), readEnd, SCHEDULE_BURST_BLOCKS);
            && StreamInv(s, cold, Account([], 0, delivered, growths))
            && (granted <= |ahead| ==>
                  StreamInv(s, TakeBack(primed.(windowBlocks := 0), ahead[granted..]), Account(ahead[..granted], 0, delivered, growths)))
  {
    var cold := NewStream(id, touch, readEnd);
    var wide := cold.(windowBlocks := Min(PRIME_WINDOW_BLOCKS, s.capBlocks));
    var (primed, ahead) := ScheduleUpTo(s, wide, readEnd, SCHEDULE_BURST_BLOCKS);
    if granted <= |ahead| {
      UnscheduleIsPrefixSchedule(s, wide, readEnd, granted);
      TakeBackCommutes(primed, ahead[granted..], 0);
      ScheduleIsOrderly(s, wide, readEnd, granted, []);
      assert [] + ahead[..granted] == ahead[..granted];
    }
  }

  /** A matched stream, after the permit pool granted a prefix of its blocks. */
  lemma ContinuedStreamInv(s: Setting, stream: Stream, a: Account, touch: u64, readEnd: u64, returned: u64, stalled: bool, granted: nat)
    requires s.Sound() && readEnd <= s.size && StreamInv(s, stream, a)
    requires granted <= |ScheduleUpTo(s, ArmAndGrow(s, stream, touch, readEnd, returned, stalled), readEnd, SCHEDULE_BURST_BLOCKS).1|
    ensures var grown := ArmAndGrow(s, stream, touch, readEnd, returned, stalled);
            var (after, blocks) := ScheduleUpTo(s, grown, readEnd, SCHEDULE_BURST_BLOCKS);
            && grown.run >= SEQUENTIAL_TRIGGER
            && StreamInv(s, TakeBack(after, blocks[granted..]), Book(s, a, Some(stream), after, returned, blocks[..granted]))
  {
    var grown := ArmAndGrow(s, stream, touch, readEnd, returned, stalled);
    ReadKeepsPace(s, stream, touch, readEnd, returned, stalled, a.delivered, a.growths);
    assert Orderly(s, a.kept, grown.cursor);
    UnscheduleIsPrefixSchedule(s, grown, readEnd, granted);
    ScheduleIsOrderly(s, grown, readEnd, granted, a.kept);
  }

  /** What `StartStream` adds: one stream under the next identifier, in an account of its own. */
  lemma StartedStream(s: Setting, c: Controller, touch: u64, readEnd: u64, returned: nat, granted: nat)
    requires s.Sound() && readEnd <= s.size && c.nextStreamId < U64_MAX
    requires granted <= |StartStream(s, c, touch, readEnd).2|
    ensures var (after, id, blocks) := StartStream(s, c, touch, readEnd);
            var n := |Recycled(c).streams|;
            && id == c.nextStreamId + 1 && |after.streams| == n + 1 && after.streams[n].id == id
            && after == Recycled(c).(nextStreamId := id, touchCounter := touch, streams := Recycled(c).streams + [after.streams[n]])
            && StreamInv(s, TakeBack(after.streams[n], blocks[granted..]),
                         Book(s, Account([], 0, 0, 0), None, after.streams[n], returned, blocks[..granted]))
  {
    var (after, id, blocks) := StartStream(s, c, touch, readEnd);
    var booked := Book(s, Account([], 0, 0, 0), None, after.streams[|Recycled(c).streams|], returned, blocks[..granted]);
    NewStreamInv(s, id, touch, readEnd, granted, booked.delivered, booked.growths);
    assert [] + blocks[..granted] == blocks[..granted];
  }

  lemma NewIdIsFree(s: Setting, c: Controller, accounts: map<u64, Account>, id: u64)
    requires Tracked(s, c, accounts) && id > c.nextStreamId
    ensures Find(c.streams, id) == None && id !in accounts
  {
  }

  /** A read that starts a stream. */
  lemma StartKeepsTracked(s: Setting, c: Controller, accounts: map<u64, Account>, touch: u64, readEnd: u64, returned: nat, granted: nat)
    requires s.Sound() && readEnd <= s.size && Tracked(s, c, accounts) && c.nextStreamId < U64_MAX
    requires granted <= |StartStream(s, c, touch, readEnd).2|
    ensures var (after, id, blocks) := StartStream(s, c, touch, readEnd);
            && StreamOf(c, id) == None && id !in accounts && StreamOf(after, id).Some?
            && Tracked(s, Unscheduled(after, id, blocks[granted..]),
                       accounts[id := Book(s, Account([], 0, 0, 0), None, StreamOf(after, id).value, returned, blocks[..granted])])
  {
    var (after, id, blocks) := StartStream(s, c, touch, readEnd);
    var base := Recycled(c);
    var n := |base.streams|;
    StartedStream(s, c, touch, readEnd, returned, granted);
    NewIdIsFree(s, c, accounts, id);
    RecycleKeepsTracked(s, c, accounts);
    LastIsFound(s, base, accounts, after.streams[n]);
    var stream := TakeBack(after.streams[n], blocks[granted..]);
    assert after.streams[n := stream] == base.streams + [stream];
    AddKeepsTracked(s, base, accounts, stream,
                    Book(s, Account([], 0, 0, 0), None, after.streams[n], returned, blocks[..granted]), touch);
  }

  lemma LastIsFound(s: Setting, c: Controller, accounts: map<u64, Account>, stream: Stream)
    requires Tracked(s, c, accounts) && c.nextStreamId < stream.id
    ensures Find(c.streams + [stream], stream.id) == Some(|c.streams|)
  {
    assert DistinctIds(c.streams + [stream]);
    FindIs(c.streams + [stream], |c.streams|);
  }

  /** A read that continues stream `i`. */
  lemma ContinueKeepsTracked(s: Setting, c: Controller, accounts: map<u64, Account>, i: nat, touch: u64, readEnd: u64, returned: u64, stalled: bool,
                             granted: nat)
    requires s.Sound() && readEnd <= s.size && Tracked(s, c, accounts) && i < |c.streams|
    requires granted <= |ContinueStream(s, c, i, touch, readEnd, returned, stalled).2|
    ensures var (after, id, blocks) := ContinueStream(s, c, i, touch, readEnd, returned, stalled);
            && StreamOf(c, id) == Some(c.streams[i]) && id in accounts && StreamOf(after, id).Some?
            && Tracked(s, Unscheduled(after, id, blocks[granted..]),
                       accounts[id := Book(s, accounts[id], StreamOf(c, id), StreamOf(after, id).value, returned, blocks[..granted])])
  {
    var (after, id, blocks) := ContinueStream(s, c, i, touch, readEnd, returned, stalled);
    FindIs(c.streams, i);
    assert DistinctIds(after.streams);
    FindIs(after.streams, i);
    var a := accounts[c.streams[i].id];
    var grown := ArmAndGrow(s, c.streams[i], touch, readEnd, returned, stalled);
    assert grown.run >= SEQUENTIAL_TRIGGER;
    ContinuedStreamInv(s, c.streams[i], a, touch, readEnd, returned, stalled, granted);
    var booked := Book(s, a, Some(c.streams[i]), after.streams[i], returned, blocks[..granted]);
    ReplaceKeepsTracked(s, c, accounts, i, TakeBack(after.streams[i], blocks[granted..]), booked, touch);
    assert after.streams[i := TakeBack(after.streams[i], blocks[granted..])]
        == c.streams[i := TakeBack(after.streams[i], blocks[granted..])];
  }

  /** A completion, of a tracked or of a recycled stream. */
  lemma CompleteKeepsTracked(s: Setting, y: System, id: u64, ok: bool)
    requires s.Sound() && Inv(s, y) && Enabled(s, y, Complete(id, ok))
    ensures Inv(s, Apply(s, y, Complete(id, ok)))
  {
    var a := y.accounts[id].(done := y.accounts[id].done + 1);
    match Find(y.c.streams, id) {
      case None =>
      case Some(i) =>
        ReplaceKeepsTracked(s, y.c, y.accounts, i, Finished(y.c.streams[i], ok), a, y.c.touchCounter);
    }
  }

  lemma StepKeepsInv(s: Setting, y: System, step: Step)
    requires s.Sound() && Inv(s, y) && Enabled(s, y, step)
    ensures Inv(s, Apply(s, y, step))
  {
    match step {
      case Complete(id, ok) => CompleteKeepsTracked(s, y, id, ok);
      case Read(offset, returned, stalled, granted) =>
        var c := if s.file.revision != y.c.revision then Controller(s.file.revision, 0, 0, []) else y.c;
        var touch, readEnd := WrappingIncrement(c.touchCounter), SaturatingAdd(offset, returned);
        match Match(c.streams, offset, SaturatingMul(s.blockSize, SEQUENTIAL_SLACK_BLOCKS)) {
          case None => StartKeepsTracked(s, c, y.accounts, touch, readEnd, returned, granted);
          case Some(i) => ContinueKeepsTracked(s, c, y.accounts, i, touch, readEnd, returned, stalled, granted);
        }
    }
  }

  lemma {:induction false} RunKeepsInv(s: Setting, states: seq<System>, steps: seq<Step>, i: nat)
    requires s.Sound() && IsRun(s, states, steps) && i < |states|
    ensures Inv(s, states[i])
  {
    if i > 0 {
      RunKeepsInv(s, states, steps, i - 1);
      StepKeepsInv(s, states[i - 1], steps[i - 1]);
    }
  }

  // ----- theorems over whole runs -----

  /** Blocks granted to one stream never overlap, move forward and lie inside the file; the in-flight
      counter of a tracked stream is granted minus completed and never exceeds the cap. */
  lemma StreamsAreAccounted(s: Setting, states: seq<System>, steps: seq<Step>, n: nat)
    requires s.Sound() && IsRun(s, states, steps) && n < |states|
    ensures forall id :: id in states[n].accounts ==>
              var kept := states[n].accounts[id].kept;
              && (forall i, j :: 0 <= i < j < |kept| ==> kept[i].End() <= kept[j].offset)
              && (forall i :: 0 <= i < |kept| ==> kept[i].file == s.file && 0 < kept[i].length <= s.blockSize && kept[i].End() <= s.size)
    ensures forall i :: 0 <= i < |states[n].c.streams| ==>
              var stream := states[n].c.streams[i];
              && stream.id in states[n].accounts
              && stream.inflight == |states[n].accounts[stream.id].kept| - states[n].accounts[stream.id].done
              && stream.inflight <= s.capBlocks
  {
    RunKeepsInv(s, states, steps, n);
  }

  /** An armed stream's window stays between its armed size and the cap, and at an even block size it
      gained at most twice the bytes delivered since arming. */
  lemma WindowGrowthIsPaced(s: Setting, states: seq<System>, steps: seq<Step>, n: nat, i: nat)
    requires s.Sound() && IsRun(s, states, steps) && n < |states| && i < |states[n].c.streams|
    requires states[n].c.streams[i].active
    ensures var stream := states[n].c.streams[i];
            && stream.id in states[n].accounts
            && ArmedWindow(s) <= stream.windowBlocks <= s.capBlocks
            && (stream.windowBlocks - ArmedWindow(s)) * s.blockSize
               <= 2 * states[n].accounts[stream.id].delivered + Rounding(s, states[n].accounts[stream.id].growths)
  {
    RunKeepsInv(s, states, steps, n);
  }

  // ----- windows never shrink -----

  /** `step` reports a failed fetch of stream `id`. */
  predicate Fails(step: Step, id: u64) { step == Complete(id, false) }

  /** What becomes of a stream in one step: it keeps its identifier and, unless a fetch of it failed,
      stays armed with a window at least as wide. */
  predicate Becomes(before: Stream, after: Stream, failed: bool) {
    before.id == after.id && (before.active && !failed ==> after.active && before.windowBlocks <= after.windowBlocks)
  }

  ghost predicate Descends(c: Controller, after: Stream, failed: bool) {
    after.id <= c.nextStreamId ==> exists i :: 0 <= i < |c.streams| && Becomes(c.streams[i], after, failed)
  }

  lemma StartDescends(s: Setting, c: Controller, touch: u64, readEnd: u64, back: seq<RangeKey>, j: nat)
    requires s.Sound() && c.nextStreamId < U64_MAX
    requires j < |StartStream(s, c, touch, readEnd).0.streams|
    ensures var (after, id, _) := StartStream(s, c, touch, readEnd);
            Descends(c, Unscheduled(after, id, back).streams[j], false)
  {
    var (after, id, _) := StartStream(s, c, touch, readEnd);
    var n := |after.streams| - 1;
    assert after.streams[n].id == id;
    if after.streams[j].id != id {
      var k := if |c.streams| >= MAX_PREFETCH_STREAMS && j == Oldest(c.streams) then |c.streams| - 1 else j;
      assert Becomes(c.streams[k], after.streams[j], false);
    }
  }

  lemma ContinueDescends(s: Setting, c: Controller, accounts: map<u64, Account>, i: nat, touch: u64, readEnd: u64, returned: u64, stalled: bool,
                         back: seq<RangeKey>, j: nat)
    requires s.Sound() && Tracked(s, c, accounts) && i < |c.streams| && j < |c.streams|
    ensures var (after, id, _) := ContinueStream(s, c, i, touch, readEnd, returned, stalled);
            Descends(c, Unscheduled(after, id, back).streams[j], false)
  {
    var (after, id, _) := ContinueStream(s, c, i, touch, readEnd, returned, stalled);
    var a := accounts[c.streams[i].id];
    ReadKeepsPace(s, c.streams[i], touch, readEnd, returned, stalled, a.delivered, a.growths);
    assert Becomes(c.streams[i], after.streams[i], false);
    assert Becomes(c.streams[j], Unscheduled(after, id, back).streams[j], false);
  }

  lemma StepDescends(s: Setting, y: System, step: Step, j: nat)
    requires s.Sound() && Inv(s, y) && Enabled(s, y, step) && j < |Apply(s, y, step).c.streams|
    ensures var after := Apply(s, y, step).c.streams[j]; Descends(y.c, after, Fails(step, after.id))
  {
    match step {
      case Complete(id, ok) =>
        var after := Apply(s, y, step).c.streams[j];
        assert Becomes(y.c.streams[j], after, Fails(step, after.id));
      case Read(offset, returned, stalled, granted) =>
        var c := if s.file.revision != y.c.revision then Controller(s.file.revision, 0, 0, []) else y.c;
        var touch, readEnd := WrappingIncrement(c.touchCounter), SaturatingAdd(offset, returned);
        var back := Observed(s, y.c, offset, returned, stalled).2[granted..];
        match Match(c.streams, offset, SaturatingMul(s.blockSize, SEQUENTIAL_SLACK_BLOCKS)) {
          case None =>
            StartKeepsTracked(s, c, y.accounts, touch, readEnd, returned, granted);
            StartDescends(s, c, touch, readEnd, back, j);
          case Some(i) =>
            ContinueKeepsTracked(s, c, y.accounts, i, touch, readEnd, returned, stalled, granted);
            ContinueDescends(s, c, y.accounts, i, touch, readEnd, returned, stalled, back, j);
        }
    }
  }

  /** From the moment a stream is armed and as long as it is tracked and none of its fetches fails, it
      stays armed and its window never shrinks. */
  lemma {:induction false} WindowNeverShrinks(s: Setting, states: seq<System>, steps: seq<Step>, m: nat, n: nat, i: nat, j: nat)
    requires s.Sound() && IsRun(s, states, steps) && m <= n < |states|
    requires i < |states[m].c.streams| && states[m].c.streams[i].active
    requires j < |states[n].c.streams| && states[n].c.streams[j].id == states[m].c.streams[i].id
    requires forall k :: m <= k < n ==> !Fails(steps[k], states[m].c.streams[i].id)
    ensures states[n].c.streams[j].active && states[n].c.streams[j].windowBlocks >= states[m].c.streams[i].windowBlocks
  {
    if m < n {
      IdsOnlyGrow(s, states, steps, m, n - 1, i);
      var k := Ancestor(s, states, steps, n, j);
      WindowNeverShrinks(s, states, steps, m, n - 1, i, k);
    } else {
      IdsAreDistinct(s, states, steps, n, i, j);
    }
  }

  /** Where a stream of state `n` that is not new was in state `n - 1`. */
  lemma Ancestor(s: Setting, states: seq<System>, steps: seq<Step>, n: nat, j: nat) returns (k: nat)
    requires s.Sound() && IsRun(s, states, steps) && 0 < n < |states|
    requires j < |states[n].c.streams| && states[n].c.streams[j].id <= states[n - 1].c.nextStreamId
    ensures k < |states[n - 1].c.streams|
    ensures Becomes(states[n - 1].c.streams[k], states[n].c.streams[j], Fails(steps[n - 1], states[n].c.streams[j].id))
  {
    RunKeepsInv(s, states, steps, n - 1);
    var y, step, after := states[n - 1], steps[n - 1], states[n].c.streams[j];
    StepDescends(s, y, step, j);
    k :| 0 <= k < |y.c.streams| && Becomes(y.c.streams[k], after, Fails(step, after.id));
  }

  lemma IdsAreDistinct(s: Setting, states: seq<System>, steps: seq<Step>, n: nat, i: nat, j: nat)
    requires s.Sound() && IsRun(s, states, steps) && n < |states|
    requires i < |states[n].c.streams| && j < |states[n].c.streams| && states[n].c.streams[i].id == states[n].c.streams[j].id
    ensures i == j
  {
    RunKeepsInv(s, states, steps, n);
  }

  lemma {:induction false} IdsOnlyGrow(s: Setting, states: seq<System>, steps: seq<Step>, m: nat, n: nat, i: nat)
    requires s.Sound() && IsRun(s, states, steps) && m <= n < |states| && i < |states[m].c.streams|
    ensures states[m].c.streams[i].id <= states[n].c.nextStreamId
  {
    if m < n {
      IdsOnlyGrow(s, states, steps, m, n - 1, i);
      RunKeepsInv(s, states, steps, n - 1);
      StepKeepsIds(s, states[n - 1], steps[n - 1]);
    } else {
      RunKeepsInv(s, states, steps, n);
    }
  }

  lemma StepKeepsIds(s: Setting, y: System, step: Step)
    requires s.Sound() && Inv(s, y) && Enabled(s, y, step)
    ensures y.c.nextStreamId <= Apply(s, y, step).c.nextStreamId
  {
  }
}
