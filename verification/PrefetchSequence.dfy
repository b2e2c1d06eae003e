/**
 What the read-ahead controller makes of a sequential reader, and what every read
 does to the stream it is taken to continue.
 */
module PrefetchSequence {
  import opened Common
  import opened Ranges
  import opened Prefetch
  import opened PrefetchRun

  // ----- what a read does to its stream -----

  /** The controller a read finds: a new revision starts from nothing. */
  function Found(s: Setting, c: Controller): Controller {
    if s.file.revision != c.revision then Controller(s.file.revision, 0, 0, []) else c
  }

  /** Scheduling and taking back move only the cursor and the in-flight counter. */
  lemma ScheduleMovesTheCursor(s: Setting, stream: Stream, readEnd: u64, limit: nat)
    requires s.blockSize > 0
    ensures var after := ScheduleUpTo(s, stream, readEnd, limit).0;
            after == stream.(cursor := after.cursor, inflight := after.inflight)
  {
  }

  /** The window of a continued stream after a read: it keeps its window, or gets the initial one when the
      read arms it, and that doubles, up to the cap, exactly if the read stalled and the bytes delivered
      since the last doubling, this read included, are half a window. */
  function Widened(s: Setting, stream: Stream, returned: nat, stalled: bool): nat {
    var window := if stream.active then stream.windowBlocks else Min(INITIAL_ACTIVE_WINDOW_BLOCKS, s.capBlocks);
    var delivered := (if stream.active then stream.bytesSinceGrowth else 0) + returned;
    if stalled && window < s.capBlocks && 2 * delivered + 1 >= window * s.blockSize then Min(2 * window, s.capBlocks) else window
  }

  lemma GrowsExactly(s: Setting, stream: Stream, touch: u64, readEnd: u64, returned: u64, stalled: bool)
    requires s.Sound() && stream.run >= 1 && (stream.active ==> stream.windowBlocks >= 1)
    ensures ArmAndGrow(s, stream, touch, readEnd, returned, stalled).windowBlocks == Widened(s, stream, returned, stalled)
  {
    var window := if stream.active then stream.windowBlocks else Min(INITIAL_ACTIVE_WINDOW_BLOCKS, s.capBlocks);
    if window < s.capBlocks {
      ProductIsMonotone(window, s.capBlocks, s.blockSize);
      assert SaturatingMul(Max(window, 1), s.blockSize) == window * s.blockSize <= U64_MAX;
    }
  }

  /** The stream a read named, once it was touched and some of its blocks may have been taken back. */
  predicate Touches(s: Setting, c: Controller, offset: nat, returned: nat, stalled: bool, touch: u64, named: Stream) {
    && named.lastTouch == touch && named.nextExpected >= offset + returned
    && match Match(c.streams, offset, SaturatingMul(s.blockSize, SEQUENTIAL_SLACK_BLOCKS)) {
         case None => named.nextExpected == offset + returned && named.run == 1 && !named.active
         case Some(i) =>
           && named.id == c.streams[i].id && named.nextExpected == Max(c.streams[i].nextExpected, offset + returned)
           && named.run == SaturatingAdd(c.streams[i].run, 1) && (named.run >= SEQUENTIAL_TRIGGER ==> named.active)
           && (c.streams[i].run >= 1 && (c.streams[i].active ==> c.streams[i].windowBlocks >= 1) ==>
                 named.windowBlocks == Widened(s, c.streams[i], returned, stalled))
       }
  }

  /** All streams but the one at `i` are streams of before. */
  ghost predicate OthersStay(streams: seq<Stream>, after: seq<Stream>, i: nat) {
    forall j :: 0 <= j < |after| && j != i ==> after[j] in streams
  }

  lemma StartTouches(s: Setting, c: Controller, touch: u64, offset: u64, returned: u64, stalled: bool) returns (i: nat)
    requires s.Sound() && offset + returned <= U64_MAX
    requires Match(c.streams, offset, SaturatingMul(s.blockSize, SEQUENTIAL_SLACK_BLOCKS)) == None
    ensures var (after, id, _) := StartStream(s, c, touch, offset + returned);
            && i == |after.streams| - 1 && after.streams[i].id == id && OthersStay(c.streams, after.streams, i)
            && Touches(s, c, offset, returned, stalled, touch, after.streams[i]) && after.touchCounter == touch
            && (c.streams == [] ==> |after.streams| == 1)
  {
    var (after, id, _) := StartStream(s, c, touch, offset + returned);
    i := |after.streams| - 1;
    ScheduleMovesTheCursor(s, NewStream(id, touch, offset + returned).(windowBlocks := Min(PRIME_WINDOW_BLOCKS, s.capBlocks)),
                           offset + returned, SCHEDULE_BURST_BLOCKS);
  }

  lemma ContinueTouches(s: Setting, c: Controller, i: nat, touch: u64, offset: u64, returned: u64, stalled: bool)
    requires s.Sound() && offset + returned <= U64_MAX
    requires Match(c.streams, offset, SaturatingMul(s.blockSize, SEQUENTIAL_SLACK_BLOCKS)) == Some(i)
    ensures var (after, id, _) := ContinueStream(s, c, i, touch, offset + returned, returned, stalled);
            && |after.streams| == |c.streams| && after.streams[i].id == id && OthersStay(c.streams, after.streams, i)
            && Touches(s, c, offset, returned, stalled, touch, after.streams[i]) && after.touchCounter == touch
  {
    if c.streams[i].run >= 1 && (c.streams[i].active ==> c.streams[i].windowBlocks >= 1) {
      GrowsExactly(s, c.streams[i], touch, offset + returned, returned, stalled);
    }
    var grown := ArmAndGrow(s, c.streams[i], touch, offset + returned, returned, stalled);
    ScheduleMovesTheCursor(s, grown, offset + returned, SCHEDULE_BURST_BLOCKS);
  }

  /** The read leaves one stream touched, under the identifier it returned, and the others alone. */
  ghost predicate Leaves(s: Setting, c: Controller, after: Controller, id: u64, offset: nat, returned: nat, stalled: bool, touch: u64, i: nat) {
    && i < |after.streams| && OthersStay(c.streams, after.streams, i) && after.streams[i].id == id
    && Touches(s, c, offset, returned, stalled, touch, after.streams[i]) && after.touchCounter == touch
  }

  lemma TakingBackLeaves(s: Setting, c: Controller, after: Controller, id: u64, offset: nat, returned: nat, stalled: bool, touch: u64, i: nat, back: seq<RangeKey>)
    requires Leaves(s, c, after, id, offset, returned, stalled, touch, i)
    ensures Leaves(s, c, after.(streams := after.streams[i := TakeBack(after.streams[i], back)]), id, offset, returned, stalled, touch, i)
  {
    var streams := after.streams[i := TakeBack(after.streams[i], back)];
    assert forall j :: 0 <= j < |streams| && j != i ==> streams[j] == after.streams[j];
  }

  /** What a read leaves of the controller, once the ungranted blocks are taken back. */
  lemma AppliedRead(s: Setting, y: System, step: Step, i: nat)
    requires Enabled(s, y, step) && step.Read?
    requires var (after, id, _) := Observed(s, y.c, step.offset, step.returned, step.stalled); Find(after.streams, id) == Some(i)
    ensures var (after, id, blocks) := Observed(s, y.c, step.offset, step.returned, step.stalled);
            Apply(s, y, step).c == after.(streams := after.streams[i := TakeBack(after.streams[i], blocks[step.granted..])])
  {
  }

  /** One stream is tracked still if the read continues the only one or finds none. */
  predicate StaysAlone(s: Setting, c: Controller, offset: u64) {
    c.streams == [] || (|c.streams| == 1 && Match(c.streams, offset, SaturatingMul(s.blockSize, SEQUENTIAL_SLACK_BLOCKS)).Some?)
  }

  /** The outcome `r` of a read, which left its stream at `i`. */
  ghost predicate At(s: Setting, c: Controller, r: (Controller, u64, seq<RangeKey>), offset: u64, returned: u64, stalled: bool, touch: u64, i: nat) {
    && Leaves(s, c, r.0, r.1, offset, returned, stalled, touch, i) && Find(r.0.streams, r.1) == Some(i)
    && (StaysAlone(s, c, offset) ==> |r.0.streams| == 1)
  }

  /** Where a read that starts a stream puts it. */
  lemma StartedAt(s: Setting, c: Controller, accounts: map<u64, Account>, touch: u64, offset: u64, returned: u64, stalled: bool) returns (i: nat)
    requires s.Sound() && Tracked(s, c, accounts) && c.nextStreamId < U64_MAX && offset + returned <= s.size
    requires Match(c.streams, offset, SaturatingMul(s.blockSize, SEQUENTIAL_SLACK_BLOCKS)) == None
    ensures At(s, c, StartStream(s, c, touch, offset + returned), offset, returned, stalled, touch, i)
  {
    i := StartTouches(s, c, touch, offset, returned, stalled);
    RecycleKeepsTracked(s, c, accounts);
    var (after, id, _) := StartStream(s, c, touch, offset + returned);
    LastIsFound(s, Recycled(c), accounts, after.streams[i]);
    assert after.streams == Recycled(c).streams + [after.streams[i]];
  }

  lemma ContinuedAt(s: Setting, c: Controller, accounts: map<u64, Account>, i: nat, touch: u64, offset: u64, returned: u64, stalled: bool)
    requires s.Sound() && Tracked(s, c, accounts) && offset + returned <= s.size
    requires Match(c.streams, offset, SaturatingMul(s.blockSize, SEQUENTIAL_SLACK_BLOCKS)) == Some(i)
    ensures At(s, c, ContinueStream(s, c, i, touch, offset + returned, returned, stalled), offset, returned, stalled, touch, i)
  {
    ContinueTouches(s, c, i, touch, offset, returned, stalled);
    var (after, id, _) := ContinueStream(s, c, i, touch, offset + returned, returned, stalled);
    assert DistinctIds(after.streams);
    FindIs(after.streams, i);
  }

  lemma ObservedAt(s: Setting, c0: Controller, accounts: map<u64, Account>, offset: u64, returned: u64, stalled: bool) returns (i: nat)
    requires s.Sound() && Tracked(s, Found(s, c0), accounts) && Found(s, c0).nextStreamId < U64_MAX && offset + returned <= s.size
    ensures var c := Found(s, c0); At(s, c, Observed(s, c0, offset, returned, stalled), offset, returned, stalled, WrappingIncrement(c.touchCounter), i)
  {
    var c := Found(s, c0);
    var touch := WrappingIncrement(c.touchCounter);
    var r := Observed(s, c0, offset, returned, stalled);
    match Match(c.streams, offset, SaturatingMul(s.blockSize, SEQUENTIAL_SLACK_BLOCKS)) {
      case None =>
        i := StartedAt(s, c, accounts, touch, offset, returned, stalled);
        assert r == StartStream(s, c, touch, offset + returned);
      case Some(k) =>
        i := k;
        ContinuedAt(s, c, accounts, i, touch, offset, returned, stalled);
        assert r == ContinueStream(s, c, i, touch, offset + returned, returned, stalled);
    }
  }

  lemma EveryReadTouches(s: Setting, y: System, step: Step) returns (i: nat)
    requires s.Sound() && Inv(s, y) && Enabled(s, y, step) && step.Read?
    ensures var (c, y') := (Found(s, y.c), Apply(s, y, step));
            && Leaves(s, c, y'.c, Observed(s, y.c, step.offset, step.returned, step.stalled).1, step.offset, step.returned, step.stalled,
                      WrappingIncrement(c.touchCounter), i)
            && (StaysAlone(s, c, step.offset) ==> |y'.c.streams| == 1)
  {
    i := ObservedAt(s, y.c, y.accounts, step.offset, step.returned, step.stalled);
    AppliedRead(s, y, step, i);
    var (c, (after, id, blocks)) := (Found(s, y.c), Observed(s, y.c, step.offset, step.returned, step.stalled));
    TakingBackLeaves(s, c, after, id, step.offset, step.returned, step.stalled, WrappingIncrement(c.touchCounter), i, blocks[step.granted..]);
  }

  // ----- touches over whole runs -----

  ghost predicate TouchesCount(c: Controller, n: nat) {
    c.touchCounter <= n && forall i :: 0 <= i < |c.streams| ==> c.streams[i].lastTouch <= c.touchCounter
  }

  lemma CompletionTouchesNothing(c: Controller, id: u64, ok: bool)
    ensures var c' := Completed(c, id, ok);
            && c' == c.(streams := c'.streams) && |c'.streams| == |c.streams|
            && forall i :: 0 <= i < |c.streams| ==> c'.streams[i] == c.streams[i] || (c.streams[i].id == id && c'.streams[i] == Finished(c.streams[i], ok))
  {
  }

  lemma {:induction false} TouchesAreCounted(s: Setting, states: seq<System>, steps: seq<Step>, n: nat)
    requires s.Sound() && IsRun(s, states, steps) && n < |states| && n <= U64_MAX
    ensures TouchesCount(states[n].c, n)
  {
    if n > 0 {
      TouchesAreCounted(s, states, steps, n - 1);
      RunKeepsInv(s, states, steps, n - 1);
      StepTouches(s, states[n - 1], steps[n - 1], n - 1);
    }
  }

  lemma StepTouches(s: Setting, y: System, step: Step, n: nat)
    requires s.Sound() && Inv(s, y) && Enabled(s, y, step) && TouchesCount(y.c, n) && n < U64_MAX
    ensures TouchesCount(Apply(s, y, step).c, n + 1)
  {
    match step {
      case Complete(id, ok) => CompletionTouchesNothing(y.c, id, ok);
      case Read(_, _, _, _) =>
        var i := EveryReadTouches(s, y, step);
        NewestIsTouched(s, Found(s, y.c), Apply(s, y, step).c, n, i);
    }
  }

  lemma NewestIsTouched(s: Setting, c: Controller, after: Controller, n: nat, i: nat)
    requires TouchesCount(c, n) && n < U64_MAX && i < |after.streams| && OthersStay(c.streams, after.streams, i)
    requires after.streams[i].lastTouch == after.touchCounter == WrappingIncrement(c.touchCounter)
    ensures TouchesCount(after, n + 1)
    ensures forall j :: 0 <= j < |after.streams| && j != i ==> after.streams[j].lastTouch < after.streams[i].lastTouch
  {
  }

  /** After every read of every run, the stream it named expects no less than the read's end, is the only
      one touched by this read, and, before the touch counter wraps around, the most recently touched. */
  lemma ReadsMoveTheirStream(s: Setting, states: seq<System>, steps: seq<Step>, n: nat) returns (i: nat)
    requires s.Sound() && IsRun(s, states, steps) && n < |steps| && steps[n].Read?
    ensures var (y, Read(offset, returned, stalled, _)) := (states[n + 1], steps[n]);
            && i < |y.c.streams| && y.c.streams[i].id == Observed(s, states[n].c, offset, returned, stalled).1
            && y.c.streams[i].nextExpected >= offset + returned && y.c.streams[i].lastTouch == y.c.touchCounter
            && OthersStay(states[n].c.streams, y.c.streams, i)
            && (n < U64_MAX ==> forall j :: 0 <= j < |y.c.streams| && j != i ==> y.c.streams[j].lastTouch < y.c.streams[i].lastTouch)
  {
    RunKeepsInv(s, states, steps, n);
    i := EveryReadTouches(s, states[n], steps[n]);
    if n < U64_MAX {
      TouchesAreCounted(s, states, steps, n);
      NewestIsTouched(s, Found(s, states[n].c), states[n + 1].c, n, i);
    }
  }

  // ----- a sequential reader -----

  /** How many of the first `n` steps are reads, where the last of them ended, and whether a fetch of
      stream 1 has failed since. */
  ghost function Reads(steps: seq<Step>, n: nat): nat
    requires n <= |steps|
  {
    if n == 0 then 0 else Reads(steps, n - 1) + if steps[n - 1].Read? then 1 else 0
  }

  ghost function LastEnd(steps: seq<Step>, n: nat): nat
    requires n <= |steps|
  {
    if n == 0 then 0
    else if steps[n - 1].Read? then steps[n - 1].offset + steps[n - 1].returned
    else LastEnd(steps, n - 1)
  }

  ghost predicate FailedSince(steps: seq<Step>, n: nat)
    requires n <= |steps|
  {
    n > 0 && !steps[n - 1].Read? && (Fails(steps[n - 1], 1) || FailedSince(steps, n - 1))
  }

  /** Every read but the first starts where the previous one ended; completions come in anywhere. */
  ghost predicate Sequential(steps: seq<Step>) {
    forall i {:trigger steps[i]} :: 0 <= i < |steps| && steps[i].Read? && Reads(steps, i) > 0 ==> steps[i].offset == LastEnd(steps, i)
  }

  /** One stream, numbered 1, which expects the next read, has counted all reads, and is armed from the
      second read on unless a fetch of it has failed since. */
  ghost predicate Follows(s: Setting, y: System, count: nat, end: nat, failed: bool) {
    if count == 0 then y == INITIAL
    else
      && y.c.revision == s.file.revision && |y.c.streams| == 1 && y.c.nextStreamId == 1
      && var stream := y.c.streams[0];
      && stream.id == 1 && stream.nextExpected == end && stream.run == Min(count, U64_MAX)
      && (stream.active <==> count >= SEQUENTIAL_TRIGGER && !failed)
  }

  lemma CompletionFollows(s: Setting, y: System, step: Step, count: nat, end: nat, failed: bool)
    requires Inv(s, y) && Follows(s, y, count, end, failed) && Enabled(s, y, step) && step.Complete?
    ensures Follows(s, Apply(s, y, step), count, end, Fails(step, 1) || failed)
  {
    CompletionTouchesNothing(y.c, step.id, step.ok);
    if step.id == 1 {
      FindIs(y.c.streams, 0);
    }
  }

  /** The identifier a read hands out: the next one if it starts a stream. */
  lemma ReadNumbers(s: Setting, y: System, step: Step)
    requires s.Sound() && Enabled(s, y, step) && step.Read?
    ensures var c := Found(s, y.c);
            var (after, id, _) := Observed(s, y.c, step.offset, step.returned, step.stalled);
            && after.revision == s.file.revision
            && match Match(c.streams, step.offset, SaturatingMul(s.blockSize, SEQUENTIAL_SLACK_BLOCKS)) {
                 case None => id == c.nextStreamId + 1 && after.nextStreamId == id
                 case Some(_) => after.nextStreamId == c.nextStreamId
               }
  {
  }

  lemma ReadKeepsNumbers(s: Setting, y: System, step: Step)
    requires Enabled(s, y, step) && step.Read?
    ensures var after := Observed(s, y.c, step.offset, step.returned, step.stalled).0;
            Apply(s, y, step).c.revision == after.revision && Apply(s, y, step).c.nextStreamId == after.nextStreamId
  {
  }

  lemma ReadFollows(s: Setting, y: System, step: Step, count: nat, end: nat, failed: bool)
    requires s.Sound() && Inv(s, y) && Enabled(s, y, step) && step.Read?
    requires Follows(s, y, count, end, failed) && (count > 0 ==> step.offset == end)
    ensures Follows(s, Apply(s, y, step), count + 1, step.offset + step.returned, false)
  {
    var c := Found(s, y.c);
    var slack := SaturatingMul(s.blockSize, SEQUENTIAL_SLACK_BLOCKS);
    if count > 0 {
      assert Continues(c.streams[0], step.offset, slack);
    }
    var i := EveryReadTouches(s, y, step);
    ReadNumbers(s, y, step);
    ReadKeepsNumbers(s, y, step);
  }

  ghost predicate FollowsAt(s: Setting, states: seq<System>, steps: seq<Step>, n: nat)
    requires n < |states| && n <= |steps|
  {
    Follows(s, states[n], Reads(steps, n), LastEnd(steps, n), FailedSince(steps, n))
  }

  lemma ReadFollowsAt(s: Setting, states: seq<System>, steps: seq<Step>, n: nat)
    requires s.Sound() && n < |steps| == |states| - 1 && steps[n].Read? && FollowsAt(s, states, steps, n)
    requires Inv(s, states[n]) && Enabled(s, states[n], steps[n]) && states[n + 1] == Apply(s, states[n], steps[n])
    requires Reads(steps, n) > 0 ==> steps[n].offset == LastEnd(steps, n)
    ensures FollowsAt(s, states, steps, n + 1)
  {
    ReadFollows(s, states[n], steps[n], Reads(steps, n), LastEnd(steps, n), FailedSince(steps, n));
  }

  lemma CompletionFollowsAt(s: Setting, states: seq<System>, steps: seq<Step>, n: nat)
    requires s.Sound() && n < |steps| == |states| - 1 && steps[n].Complete? && FollowsAt(s, states, steps, n)
    requires Inv(s, states[n]) && Enabled(s, states[n], steps[n]) && states[n + 1] == Apply(s, states[n], steps[n])
    ensures FollowsAt(s, states, steps, n + 1)
  {
    CompletionFollows(s, states[n], steps[n], Reads(steps, n), LastEnd(steps, n), FailedSince(steps, n));
  }

  ghost predicate KeepsFollowing(s: Setting, states: seq<System>, steps: seq<Step>, n: nat)
    requires n < |steps| == |states| - 1
  {
    FollowsAt(s, states, steps, n) ==> FollowsAt(s, states, steps, n + 1)
  }

  lemma StepFollows(s: Setting, states: seq<System>, steps: seq<Step>, n: nat)
    requires s.Sound() && IsRun(s, states, steps) && Sequential(steps) && n < |steps|
    ensures KeepsFollowing(s, states, steps, n)
  {
    if FollowsAt(s, states, steps, n) {
      RunKeepsInv(s, states, steps, n);
      if steps[n].Read? {
        ReadFollowsAt(s, states, steps, n);
      } else {
        CompletionFollowsAt(s, states, steps, n);
      }
    }
  }

  lemma {:induction false} FollowingPropagates(s: Setting, states: seq<System>, steps: seq<Step>, n: nat)
    requires |states| == |steps| + 1 && states[0] == INITIAL && n < |states|
    requires forall k :: 0 <= k < |steps| ==> KeepsFollowing(s, states, steps, k)
    ensures FollowsAt(s, states, steps, n)
  {
    if n > 0 {
      FollowingPropagates(s, states, steps, n - 1);
      assert KeepsFollowing(s, states, steps, n - 1);
    }
  }

  /** However completions fall in between, a sequential reader is followed by one stream. */
  lemma SequentialReaderIsFollowed(s: Setting, states: seq<System>, steps: seq<Step>, n: nat)
    requires s.Sound() && IsRun(s, states, steps) && Sequential(steps) && n < |states|
    ensures Follows(s, states[n], Reads(steps, n), LastEnd(steps, n), FailedSince(steps, n))
  {
    forall k | 0 <= k < |steps| ensures KeepsFollowing(s, states, steps, k) {
      StepFollows(s, states, steps, k);
    }
    FollowingPropagates(s, states, steps, n);
  }

  // ----- how far ahead -----

  lemma {:induction false} LayoutIsMaximal(s: Setting, cursor: u64, target: u64, budget: nat)
    requires target <= s.size
    ensures var n := |Layout(s, cursor, target, budget)|; n == budget || Advance(s, cursor, n) >= target
    decreases budget
  {
    if cursor < target && budget > 0 {
      LayoutIsMaximal(s, SaturatingAdd(cursor, s.blockSize), target, budget - 1);
    }
  }

  lemma DemandIsBeyondTheRead(s: Setting, readEnd: u64)
    requires s.blockSize > 0 && readEnd <= s.size
    ensures readEnd <= DemandEnd(s, readEnd) <= s.size
  {
    var blocks := CeilDiv(readEnd, s.blockSize);
    assert blocks * s.blockSize >= readEnd;
  }

  /** Read-ahead starts at the cursor or past the blocks of the read, whichever is further, stays within the
      window behind them, and goes on until the window, the burst or the file is used up. */
  lemma ScheduleFillsTheWindow(s: Setting, stream: Stream, readEnd: u64, limit: nat)
    requires s.blockSize > 0 && readEnd <= s.size
    ensures var (after, blocks) := ScheduleUpTo(s, stream, readEnd, limit);
            var (window, demandEnd) := (Min(stream.windowBlocks, s.capBlocks), DemandEnd(s, readEnd));
            && (forall b :: b in blocks ==> readEnd <= b.offset < demandEnd + window * s.blockSize && b.offset >= stream.cursor)
            && (blocks != [] ==> blocks[0].offset == Max(stream.cursor, demandEnd))
            && (window > 0 && s.size > 0 ==>
                  || |blocks| == Min(Min(SaturatingSub(window, stream.inflight), SCHEDULE_BURST_BLOCKS), limit)
                  || after.cursor >= Target(s, demandEnd, window))
  {
    var (window, demandEnd) := (Min(stream.windowBlocks, s.capBlocks), DemandEnd(s, readEnd));
    DemandIsBeyondTheRead(s, readEnd);
    if window != 0 && s.size != 0 {
      var cursor, target := Max(stream.cursor, demandEnd), Target(s, demandEnd, window);
      var budget := Min(Min(SaturatingSub(window, stream.inflight), SCHEDULE_BURST_BLOCKS), limit);
      LayoutIsMaximal(s, cursor, target, budget);
      LaidWithin(s, cursor, target, budget);
      assert target <= demandEnd + window * s.blockSize;
    }
  }

  lemma LaidWithin(s: Setting, cursor: u64, target: u64, budget: nat)
    requires target <= s.size
    ensures forall b :: b in Layout(s, cursor, target, budget) ==> cursor <= b.offset < target
  {
    var blocks := Layout(s, cursor, target, budget);
    forall b | b in blocks ensures cursor <= b.offset < target {
      var i :| 0 <= i < |blocks| && blocks[i] == b;
      LayoutOffsets(s, cursor, target, budget, i);
      AdvanceIsMonotone(s, cursor, 0, i);
    }
  }

  // ----- a reader that outruns its window -----

  /** The read stalls and delivers at least half the largest window. */
  predicate Outruns(s: Setting, step: Step) { step.Read? && step.stalled && 2 * step.returned >= s.capBlocks * s.blockSize }

  ghost predicate AllOutrun(s: Setting, steps: seq<Step>) {
    forall i :: 0 <= i < |steps| ==> if steps[i].Read? then Outruns(s, steps[i]) else !Fails(steps[i], 1)
  }

  /** From the second read on, the window has at least as many blocks as there were reads, up to the cap. */
  ghost predicate Wide(s: Setting, y: System, count: nat) {
    && (count > 0 ==> |y.c.streams| == 1 && y.c.streams[0].id == 1 && y.c.streams[0].run >= 1
                      && (y.c.streams[0].active ==> y.c.streams[0].windowBlocks >= 1))
    && (count >= SEQUENTIAL_TRIGGER ==> y.c.streams[0].active && y.c.streams[0].windowBlocks >= Min(count, s.capBlocks))
  }

  lemma WidenedIsWider(s: Setting, stream: Stream, returned: nat, count: nat)
    requires s.Sound() && 2 * returned >= s.capBlocks * s.blockSize && count >= 1
    requires count >= SEQUENTIAL_TRIGGER ==> stream.active && stream.windowBlocks >= Min(count, s.capBlocks)
    requires stream.active ==> stream.windowBlocks >= 1
    ensures Widened(s, stream, returned, true) >= Min(count + 1, s.capBlocks) && Widened(s, stream, returned, true) >= 1
  {
    var window := if stream.active then stream.windowBlocks else Min(INITIAL_ACTIVE_WINDOW_BLOCKS, s.capBlocks);
    if window < s.capBlocks {
      ProductIsMonotone(window, s.capBlocks, s.blockSize);
    }
  }

  lemma CompletionKeepsWide(s: Setting, y: System, step: Step, count: nat)
    requires Enabled(s, y, step) && step.Complete? && !Fails(step, 1) && Wide(s, y, count)
    ensures Wide(s, Apply(s, y, step), count)
  {
    CompletionTouchesNothing(y.c, step.id, step.ok);
  }

  lemma ReadWidens(s: Setting, y: System, step: Step, count: nat, end: nat, failed: bool)
    requires s.Sound() && Inv(s, y) && Enabled(s, y, step) && Outruns(s, step) && Wide(s, y, count)
    requires Follows(s, y, count, end, failed) && (count > 0 ==> step.offset == end)
    ensures Wide(s, Apply(s, y, step), count + 1)
  {
    var c := Found(s, y.c);
    ReadFollows(s, y, step, count, end, failed);
    var i := EveryReadTouches(s, y, step);
    if count > 0 {
      assert Continues(c.streams[0], step.offset, SaturatingMul(s.blockSize, SEQUENTIAL_SLACK_BLOCKS));
      WidenedIsWider(s, c.streams[0], step.returned, count);
    }
  }

  ghost predicate WideAt(s: Setting, states: seq<System>, steps: seq<Step>, n: nat)
    requires n < |states| && n <= |steps|
  {
    Wide(s, states[n], Reads(steps, n))
  }

  ghost predicate StaysWide(s: Setting, states: seq<System>, steps: seq<Step>, n: nat)
    requires n < |steps| == |states| - 1
  {
    WideAt(s, states, steps, n) ==> WideAt(s, states, steps, n + 1)
  }

  lemma StepStaysWide(s: Setting, states: seq<System>, steps: seq<Step>, n: nat)
    requires s.Sound() && IsRun(s, states, steps) && Sequential(steps) && AllOutrun(s, steps) && n < |steps|
    ensures StaysWide(s, states, steps, n)
  {
    if WideAt(s, states, steps, n) {
      if steps[n].Read? {
        SequentialReaderIsFollowed(s, states, steps, n);
        RunKeepsInv(s, states, steps, n);
        ReadWidens(s, states[n], steps[n], Reads(steps, n), LastEnd(steps, n), FailedSince(steps, n));
      } else {
        CompletionKeepsWide(s, states[n], steps[n], Reads(steps, n));
      }
    }
  }

  lemma {:induction false} WidePropagates(s: Setting, states: seq<System>, steps: seq<Step>, n: nat)
    requires |states| == |steps| + 1 && n < |states|
    requires forall k :: 0 <= k < |steps| ==> StaysWide(s, states, steps, k)
    ensures WideAt(s, states, steps, n)
  {
    if n > 0 {
      WidePropagates(s, states, steps, n - 1);
      assert StaysWide(s, states, steps, n - 1);
    }
  }

  /** A sequential reader that keeps stalling on reads of at least half the largest window gets a window of
      at least as many blocks as it has made reads, so it reaches the cap. */
  lemma WindowReachesTheCap(s: Setting, states: seq<System>, steps: seq<Step>, n: nat)
    requires s.Sound() && IsRun(s, states, steps) && Sequential(steps) && AllOutrun(s, steps) && n < |states|
    ensures Reads(steps, n) >= SEQUENTIAL_TRIGGER ==>
              |states[n].c.streams| == 1 && states[n].c.streams[0].active && states[n].c.streams[0].windowBlocks >= Min(Reads(steps, n), s.capBlocks)
  {
    forall k | 0 <= k < |steps| ensures StaysWide(s, states, steps, k) {
      StepStaysWide(s, states, steps, k);
    }
    WidePropagates(s, states, steps, n);
  }
}
