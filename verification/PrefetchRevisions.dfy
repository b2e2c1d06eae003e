/**
 Runs of the read-ahead controller across revision changes. A read at another
 revision resets the controller and starts numbering streams anew, while fetches
 granted before still complete under their old numbers.
 */
module PrefetchRevisions {
  import opened Common
  import opened Ranges
  import opened Prefetch
  import opened PrefetchRun

  /** `era` counts the resets; `past` keeps the accounts of earlier eras. */
  datatype Eras = Eras(era: nat, setting: Setting, c: Controller, accounts: map<u64, Account>, past: map<nat, map<u64, Account>>)

  /** A completion belongs to the era in which its block was granted. */
  datatype Event =
    | Observe(s: Setting, offset: u64, returned: u64, stalled: bool, granted: nat)
    | Finish(era: nat, id: u64, ok: bool)

  /** A new controller is at revision 0. */
  function Initial(s: Setting): Eras { Eras(0, s, INITIAL.c, map[], map[]) }

  predicate Resets(m: Eras, e: Event) { e.Observe? && e.s.file.revision != m.c.revision }

  /** What a read at setting `s` finds. */
  function Base(m: Eras, s: Setting): System {
    if s.file.revision != m.c.revision then System(Controller(s.file.revision, 0, 0, []), map[]) else System(m.c, m.accounts)
  }

  function Outstanding(m: Eras, era: nat): map<u64, Account> {
    if era == m.era then m.accounts else if era in m.past then m.past[era] else map[]
  }

  /** Within an era the size and the granularity stay the same. */
  predicate Allowed(m: Eras, e: Event) {
    match e
    case Observe(s, offset, returned, stalled, granted) =>
      && s.Sound() && (s.file.revision == m.c.revision ==> s == m.setting)
      && Enabled(s, Base(m, s), Read(offset, returned, stalled, granted))
    case Finish(era, id, _) =>
      era <= m.era && id in Outstanding(m, era) && Outstanding(m, era)[id].done < |Outstanding(m, era)[id].kept|
  }

  function After(m: Eras, e: Event): Eras
    requires Allowed(m, e)
  {
    match e
    case Observe(s, offset, returned, stalled, granted) =>
      var y := Apply(s, Base(m, s), Read(offset, returned, stalled, granted));
      if Resets(m, e) then Eras(m.era + 1, s, y.c, y.accounts, m.past[m.era := m.accounts])
      else m.(c := y.c, accounts := y.accounts)
    case Finish(era, id, ok) =>
      var a := Outstanding(m, era)[id];
      var accounts := Outstanding(m, era)[id := a.(done := a.done + 1)];
      if era == m.era then m.(c := Completed(m.c, id, ok), accounts := accounts)
      else m.(c := Completed(m.c, id, ok), past := m.past[era := accounts])
  }

  /** The controller itself resets to that base. */
  lemma ReadStartsFromBase(m: Eras, s: Setting, offset: u64, returned: u64, stalled: bool)
    requires s.Sound()
    ensures Observed(s, m.c, offset, returned, stalled) == Observed(s, Base(m, s).c, offset, returned, stalled)
  {
  }

  ghost predicate IsHistory(states: seq<Eras>, events: seq<Event>) {
    && |states| == |events| + 1 && states[0] == Initial(states[0].setting)
    && states[0].setting.Sound() && states[0].setting.file.revision == 0
    && forall i {:trigger events[i]} :: 0 <= i < |events| ==> Allowed(states[i], events[i]) && states[i + 1] == After(states[i], events[i])
  }

  /** The completion of a block of an earlier era finds a stream with its number and blocks in flight. */
  predicate Miscounts(m: Eras, e: Event) {
    e.Finish? && e.era != m.era && StreamOf(m.c, e.id).Some? && StreamOf(m.c, e.id).value.inflight > 0
  }

  /** Every tracked stream counts its blocks in flight: granted minus completed. */
  ghost predicate Counted(m: Eras) {
    forall i :: 0 <= i < |m.c.streams| ==>
      var id := m.c.streams[i].id;
      id in m.accounts && m.c.streams[i].inflight + m.accounts[id].done == |m.accounts[id].kept|
  }

  ghost predicate InOrder(m: Eras) {
    m.setting.Sound() && m.c.revision == m.setting.file.revision && Tracked(m.setting, m.c, m.accounts)
  }

  lemma ReadKeepsOrder(m: Eras, e: Event)
    requires Allowed(m, e) && e.Observe? && (Resets(m, e) || InOrder(m))
    ensures InOrder(After(m, e))
  {
    var Observe(s, offset, returned, stalled, granted) := e;
    StepKeepsInv(s, Base(m, s), Read(offset, returned, stalled, granted));
  }

  lemma FreshFinishKeepsOrder(m: Eras, id: u64, ok: bool)
    requires InOrder(m) && Allowed(m, Finish(m.era, id, ok))
    ensures InOrder(After(m, Finish(m.era, id, ok)))
  {
    var y := System(m.c, m.accounts);
    CompleteKeepsTracked(m.setting, y, id, ok);
    assert Apply(m.setting, y, Complete(id, ok)) == System(Completed(m.c, id, ok), After(m, Finish(m.era, id, ok)).accounts);
  }

  lemma FinishKeepsOrder(m: Eras, e: Event)
    requires Allowed(m, e) && e.Finish? && InOrder(m) && !Miscounts(m, e)
    ensures InOrder(After(m, e))
  {
    if e.era == m.era {
      FreshFinishKeepsOrder(m, e.id, e.ok);
    } else {
      StaleFinishKeepsTracked(m.setting, m.c, m.accounts, e.id, e.ok);
    }
  }

  lemma EventKeepsOrder(m: Eras, e: Event)
    requires Allowed(m, e) && (Resets(m, e) || (InOrder(m) && !Miscounts(m, e)))
    ensures InOrder(After(m, e))
  {
    if e.Observe? {
      ReadKeepsOrder(m, e);
    } else {
      FinishKeepsOrder(m, e);
    }
  }

  /** A stale completion that finds no stream, or one with nothing in flight, leaves the accounts right. */
  lemma StaleFinishKeepsTracked(s: Setting, c: Controller, accounts: map<u64, Account>, id: u64, ok: bool)
    requires Tracked(s, c, accounts) && (StreamOf(c, id).Some? ==> StreamOf(c, id).value.inflight == 0)
    ensures Tracked(s, Completed(c, id, ok), accounts)
  {
    if i :| Find(c.streams, id) == Some(i) {
      ReplaceKeepsTracked(s, c, accounts, i, Finished(c.streams[i], ok), accounts[id], c.touchCounter);
      assert accounts[id := accounts[id]] == accounts;
    }
  }

  /** From a state in order, the count stays right exactly if the event is no completion of an earlier
      era that finds a stream with its number and blocks in flight; otherwise that stream counts one
      block less than are in flight. */
  lemma MiscountsExactly(m: Eras, e: Event)
    requires InOrder(m) && Allowed(m, e)
    ensures Counted(After(m, e)) <==> !Miscounts(m, e)
    ensures Miscounts(m, e) ==>
              var after := StreamOf(After(m, e).c, e.id);
              && after.Some? && e.id in m.accounts && After(m, e).accounts == m.accounts
              && after.value.inflight + 1 == |m.accounts[e.id].kept| - m.accounts[e.id].done
  {
    if !Miscounts(m, e) {
      EventKeepsOrder(m, e);
    } else {
      var i := Find(m.c.streams, e.id).value;
      var streams := After(m, e).c.streams;
      assert streams == m.c.streams[i := Finished(m.c.streams[i], e.ok)];
      assert DistinctIds(streams);
      FindIs(streams, i);
      assert StreamInv(m.setting, m.c.streams[i], m.accounts[e.id]);
    }
  }

  /** Since the last reset no completion of an earlier era found a stream with its number and blocks in
      flight. */
  predicate Undisturbed(states: seq<Eras>, events: seq<Event>, n: nat)
    requires n <= |events| < |states|
  {
    n == 0 || Resets(states[n - 1], events[n - 1])
    || (Undisturbed(states, events, n - 1) && !Miscounts(states[n - 1], events[n - 1]))
  }

  /** Event `k` keeps the order unless it disturbs it. */
  ghost predicate KeepsOrder(states: seq<Eras>, events: seq<Event>, k: nat)
    requires k < |events| < |states|
  {
    Resets(states[k], events[k]) || (InOrder(states[k]) && !Miscounts(states[k], events[k])) ==> InOrder(states[k + 1])
  }

  lemma HistoryKeepsOrder(states: seq<Eras>, events: seq<Event>, k: nat)
    requires IsHistory(states, events) && k < |events|
    ensures KeepsOrder(states, events, k)
  {
    var m, e := states[k], events[k];
    if Resets(m, e) || (InOrder(m) && !Miscounts(m, e)) {
      EventKeepsOrder(m, e);
    }
  }

  lemma {:induction false} OrderPropagates(states: seq<Eras>, events: seq<Event>, n: nat)
    requires n <= |events| < |states| && InOrder(states[0]) && Undisturbed(states, events, n)
    requires forall k :: 0 <= k < n ==> KeepsOrder(states, events, k)
    ensures InOrder(states[n])
  {
    if n > 0 {
      assert KeepsOrder(states, events, n - 1);
      if !Resets(states[n - 1], events[n - 1]) {
        OrderPropagates(states, events, n - 1);
      }
    }
  }

  /** The accounts survive revision changes as long as nothing disturbs them. */
  lemma OrderSurvivesRevisions(states: seq<Eras>, events: seq<Event>, n: nat)
    requires IsHistory(states, events) && n < |states| && Undisturbed(states, events, n)
    ensures InOrder(states[n])
  {
    forall k | 0 <= k < n ensures KeepsOrder(states, events, k) {
      HistoryKeepsOrder(states, events, k);
    }
    OrderPropagates(states, events, n);
  }

  /** Then every stream's granted blocks are disjoint, increasing and inside the file of the current
      revision, and its counter is granted minus completed and within the cap. */
  lemma StreamsAreAccountedAcrossRevisions(states: seq<Eras>, events: seq<Event>, n: nat)
    requires IsHistory(states, events) && n < |states| && Undisturbed(states, events, n)
    ensures Counted(states[n])
    ensures forall i :: 0 <= i < |states[n].c.streams| ==>
              var stream := states[n].c.streams[i];
              stream.id in states[n].accounts && stream.inflight <= states[n].setting.capBlocks
              && Orderly(states[n].setting, states[n].accounts[stream.id].kept, states[n].setting.size)
  {
    OrderSurvivesRevisions(states, events, n);
  }

  // ----- the condition is needed -----

  /** A first read of one byte of a file that is longer than a block lays out at least one block. */
  lemma FirstReadLaysOut(s: Setting)
    requires s.Sound() && s.size > s.blockSize
    ensures |Observed(s, Controller(s.file.revision, 0, 0, []), 0, 1, false).2| > 0
  {
    assert DemandEnd(s, 1) == s.blockSize by {
      assert CeilDiv(1, s.blockSize) == 1;
    }
    var window := Min(PRIME_WINDOW_BLOCKS, s.capBlocks);
    assert Target(s, s.blockSize, window) > s.blockSize;
    assert Layout(s, s.blockSize, Target(s, s.blockSize, window), Min(Min(SaturatingSub(window, 0), SCHEDULE_BURST_BLOCKS), SCHEDULE_BURST_BLOCKS)) != [];
  }

  /** In a file of one block nothing is ever laid out. */
  lemma OneBlockLaysOutNothing(s: Setting, stream: Stream, readEnd: u64, limit: nat)
    requires s.Sound() && s.size <= s.blockSize && 0 < readEnd <= s.size
    ensures ScheduleUpTo(s, stream, readEnd, limit).1 == []
  {
    OneQuotient(readEnd + s.blockSize - 1, s.blockSize);
    assert DemandEnd(s, readEnd) == s.size;
    assert Target(s, s.size, Min(stream.windowBlocks, s.capBlocks)) == s.size;
  }

  lemma OneQuotient(n: nat, d: nat)
    requires 0 < d <= n < 2 * d
    ensures n / d == 1
  {
  }

  /** A read that resets and is granted one block: stream 1 has it in flight. */
  lemma ResetAndGrant(m: Eras, s: Setting) returns (r: Eras)
    requires s.Sound() && s.size > s.blockSize && s.file.revision != m.c.revision
    ensures var e := Observe(s, 0, 1, false, 1);
            && Allowed(m, e) && r == After(m, e) && r.era == m.era + 1 && InOrder(r) && r.c.revision == s.file.revision
            && StreamOf(r.c, 1).Some? && 1 in r.accounts && |r.accounts[1].kept| == 1 && r.accounts[1].done == 0
            && StreamOf(r.c, 1).value.inflight == 1
            && m.era in r.past && r.past[m.era] == m.accounts
  {
    var c := Controller(s.file.revision, 0, 0, []);
    FirstReadLaysOut(s);
    r := After(m, Observe(s, 0, 1, false, 1));
    ReadKeepsOrder(m, Observe(s, 0, 1, false, 1));
    StartedStream(s, c, 1, 1, 1, 1);
    StartKeepsTracked(s, c, map[], 1, 1, 1, 1);
    var i := Find(r.c.streams, 1).value;
    assert StreamInv(s, r.c.streams[i], r.accounts[1]);
  }

  /** Two revisions of any file that is longer than a block, a byte read and one block granted at each: the
      first block's completion leaves the second one in flight and uncounted. */
  lemma StaleCompletionMiscounts(s0: Setting, s: Setting, s': Setting) returns (states: seq<Eras>, events: seq<Event>)
    requires s0.Sound() && s0.file.revision == 0 && s.Sound() && s'.Sound() && s.size > s.blockSize && s'.size > s'.blockSize
    requires s.file.revision != 0 && s'.file.revision != s.file.revision
    ensures IsHistory(states, events) && |events| == 3
    ensures var m := states[3];
            && StreamOf(m.c, 1).Some? && 1 in m.accounts
            && StreamOf(m.c, 1).value.inflight == 0 && |m.accounts[1].kept| - m.accounts[1].done == 1
  {
    var m0 := Initial(s0);
    var m1 := ResetAndGrant(m0, s);
    var m2 := ResetAndGrant(m1, s');
    var e := Finish(m1.era, 1, true);
    MiscountsExactly(m2, e);
    assert IsHistory([m0], []);
    states, events := Extend([m0], [], Observe(s, 0, 1, false, 1));
    states, events := Extend(states, events, Observe(s', 0, 1, false, 1));
    states, events := Extend(states, events, e);
  }

  lemma Extend(states: seq<Eras>, events: seq<Event>, e: Event) returns (states': seq<Eras>, events': seq<Event>)
    requires IsHistory(states, events) && Allowed(states[|events|], e)
    ensures states' == states + [After(states[|events|], e)] && events' == events + [e] && IsHistory(states', events')
  {
    states', events' := states + [After(states[|events|], e)], events + [e];
    assert forall i :: 0 <= i < |events'| ==> events'[i] == if i < |events| then events[i] else e;
  }

  // ----- windows across revisions -----

  /** What the windows need: distinct numbers that were given out, and armed windows between one block and
      the cap. It takes no account of what is in flight. */
  ghost predicate Windowed(s: Setting, c: Controller) {
    && DistinctIds(c.streams)
    && forall i :: 0 <= i < |c.streams| ==>
         c.streams[i].id <= c.nextStreamId && 1 <= c.streams[i].run && (c.streams[i].active ==> 1 <= c.streams[i].windowBlocks <= s.capBlocks)
  }

  ghost predicate WindowsInOrder(m: Eras) {
    m.setting.Sound() && m.c.revision == m.setting.file.revision && Windowed(m.setting, m.c)
  }

  /** A completion, of whatever era, reports that a fetch for this number failed. */
  predicate FailsOn(e: Event, id: u64) { e.Finish? && e.id == id && !e.ok }

  lemma ArmedWindowGrows(s: Setting, stream: Stream, touch: u64, readEnd: u64, returned: u64, stalled: bool)
    requires s.Sound() && 1 <= stream.run && (stream.active ==> 1 <= stream.windowBlocks <= s.capBlocks)
    ensures var after := ArmAndGrow(s, stream, touch, readEnd, returned, stalled);
            && after.id == stream.id && after.active && 1 <= after.run && 1 <= after.windowBlocks <= s.capBlocks
            && (stream.active ==> stream.windowBlocks <= after.windowBlocks)
  {
  }

  /** Every stream with an old number descends from one with that number, at least as wide. */
  ghost predicate AllDescend(c: Controller, c': Controller) {
    c.nextStreamId <= c'.nextStreamId && forall j :: 0 <= j < |c'.streams| ==> Descends(c, c'.streams[j], false)
  }

  lemma ContinueKeepsWindows(s: Setting, c: Controller, i: nat, touch: u64, readEnd: u64, returned: u64, stalled: bool, back: seq<RangeKey>)
    requires s.Sound() && Windowed(s, c) && i < |c.streams|
    ensures var (after, id, _) := ContinueStream(s, c, i, touch, readEnd, returned, stalled);
            Windowed(s, Unscheduled(after, id, back)) && AllDescend(c, Unscheduled(after, id, back))
  {
    var (after, id, _) := ContinueStream(s, c, i, touch, readEnd, returned, stalled);
    var r := Unscheduled(after, id, back);
    ArmedWindowGrows(s, c.streams[i], touch, readEnd, returned, stalled);
    assert DistinctIds(after.streams);
    FindIs(after.streams, i);
    forall j | 0 <= j < |r.streams| ensures Descends(c, r.streams[j], false) {
      assert Becomes(c.streams[j], r.streams[j], false);
    }
  }

  lemma StartKeepsWindows(s: Setting, c: Controller, touch: u64, readEnd: u64, back: seq<RangeKey>)
    requires s.Sound() && Windowed(s, c) && c.nextStreamId < U64_MAX
    ensures var (after, id, _) := StartStream(s, c, touch, readEnd);
            Windowed(s, Unscheduled(after, id, back)) && AllDescend(c, Unscheduled(after, id, back))
  {
    var (after, id, _) := StartStream(s, c, touch, readEnd);
    var r := Unscheduled(after, id, back);
    var n := |after.streams| - 1;
    RecycleKeepsWindows(s, c);
    assert after.streams[..n] == Recycled(c).streams;
    assert DistinctIds(after.streams);
    FindIs(after.streams, n);
    forall j | 0 <= j < |r.streams| ensures Descends(c, r.streams[j], false) {
      StartDescends(s, c, touch, readEnd, back, j);
    }
  }

  lemma RecycleKeepsWindows(s: Setting, c: Controller)
    requires Windowed(s, c)
    ensures Windowed(s, Recycled(c))
  {
    var kept := Recycled(c).streams;
    if |c.streams| >= MAX_PREFETCH_STREAMS {
      var i := Oldest(c.streams);
      forall j, k | 0 <= j < k < |kept| ensures kept[j].id != kept[k].id {
        var j', k' := if j == i then |kept| else j, if k == i then |kept| else k;
        assert kept[j] == c.streams[j'] && kept[k] == c.streams[k'];
        assert j' != k';
      }
    }
  }

  lemma FinishKeepsWindows(s: Setting, c: Controller, id: u64, ok: bool)
    requires Windowed(s, c)
    ensures Windowed(s, Completed(c, id, ok)) && |Completed(c, id, ok).streams| == |c.streams|
    ensures forall k :: 0 <= k < |c.streams| ==> Becomes(c.streams[k], Completed(c, id, ok).streams[k], c.streams[k].id == id && !ok)
    ensures forall k :: 0 <= k < |c.streams| && c.streams[k].id == id && !ok ==> !Completed(c, id, ok).streams[k].active
  {
    if i :| 0 <= i < |c.streams| && c.streams[i].id == id {
      FindIs(c.streams, i);
    }
  }

  lemma ObservedKeepsWindows(s: Setting, c: Controller, offset: u64, returned: u64, stalled: bool, back: seq<RangeKey>)
    requires s.Sound() && Windowed(s, c) && c.nextStreamId < U64_MAX && c.revision == s.file.revision
    ensures var (after, id, _) := Observed(s, c, offset, returned, stalled);
            Windowed(s, Unscheduled(after, id, back)) && AllDescend(c, Unscheduled(after, id, back))
  {
    var touch, readEnd := WrappingIncrement(c.touchCounter), SaturatingAdd(offset, returned);
    match Match(c.streams, offset, SaturatingMul(s.blockSize, SEQUENTIAL_SLACK_BLOCKS)) {
      case None => StartKeepsWindows(s, c, touch, readEnd, back);
      case Some(i) => ContinueKeepsWindows(s, c, i, touch, readEnd, returned, stalled, back);
    }
  }

  /** The controller a read leaves, taken-back blocks included. */
  lemma ControllerAfterRead(m: Eras, e: Event)
    requires Allowed(m, e) && e.Observe?
    ensures var (after, id, blocks) := Observed(e.s, Base(m, e.s).c, e.offset, e.returned, e.stalled);
            After(m, e).c == Unscheduled(after, id, blocks[e.granted..])
  {
  }

  lemma ReadKeepsWindows(m: Eras, e: Event)
    requires Allowed(m, e) && e.Observe? && (Resets(m, e) || WindowsInOrder(m))
    ensures WindowsInOrder(After(m, e)) && AllDescend(Base(m, e.s).c, After(m, e).c)
  {
    var c := Base(m, e.s).c;
    ControllerAfterRead(m, e);
    ReadStartsFromBase(m, e.s, e.offset, e.returned, e.stalled);
    ObservedKeepsWindows(e.s, c, e.offset, e.returned, e.stalled, Observed(e.s, c, e.offset, e.returned, e.stalled).2[e.granted..]);
    RevisionAfterRead(m, e);
  }

  lemma RevisionAfterRead(m: Eras, e: Event)
    requires Allowed(m, e) && e.Observe?
    ensures After(m, e).c.revision == e.s.file.revision && After(m, e).setting == if Resets(m, e) then e.s else m.setting
  {
  }

  lemma EventKeepsWindows(m: Eras, e: Event)
    requires Allowed(m, e) && (Resets(m, e) || WindowsInOrder(m))
    ensures WindowsInOrder(After(m, e))
  {
    if e.Observe? {
      ReadKeepsWindows(m, e);
    } else {
      FinishKeepsWindows(m.setting, m.c, e.id, e.ok);
    }
  }

  /** Exactly when an event pauses an armed stream that stays tracked: it reports a failed fetch under the
      stream's number, whatever era the fetch belongs to. Otherwise the window does not shrink. */
  lemma PausesExactly(m: Eras, e: Event, i: nat, j: nat)
    requires WindowsInOrder(m) && Allowed(m, e) && !Resets(m, e)
    requires i < |m.c.streams| && m.c.streams[i].active
    requires j < |After(m, e).c.streams| && After(m, e).c.streams[j].id == m.c.streams[i].id
    ensures var after := After(m, e).c.streams[j];
            && (after.active <==> !FailsOn(e, after.id))
            && (after.active ==> after.windowBlocks >= m.c.streams[i].windowBlocks)
  {
    if e.Observe? {
      ReadKeepsWindows(m, e);
      assert Descends(m.c, After(m, e).c.streams[j], false);
      var k :| 0 <= k < |m.c.streams| && Becomes(m.c.streams[k], After(m, e).c.streams[j], false);
      SameIdSameStream(m.c.streams, i, k);
    } else {
      FinishKeepsWindows(m.setting, m.c, e.id, e.ok);
      SameIdSameStream(m.c.streams, i, j);
    }
  }

  lemma SameIdSameStream(streams: seq<Stream>, i: nat, k: nat)
    requires DistinctIds(streams) && i < |streams| && k < |streams| && streams[i].id == streams[k].id
    ensures i == k
  {
  }

  /** What an event makes of the streams, within an era. */
  ghost predicate Follows(c: Controller, e: Event, c': Controller) {
    && c.nextStreamId <= c'.nextStreamId
    && forall j :: 0 <= j < |c'.streams| ==> Descends(c, c'.streams[j], FailsOn(e, c'.streams[j].id))
  }

  lemma EventFollows(m: Eras, e: Event)
    requires WindowsInOrder(m) && Allowed(m, e) && !Resets(m, e)
    ensures Follows(m.c, e, After(m, e).c)
  {
    var c' := After(m, e).c;
    if e.Observe? {
      ReadKeepsWindows(m, e);
      forall j | 0 <= j < |c'.streams| ensures Descends(m.c, c'.streams[j], FailsOn(e, c'.streams[j].id)) {
        assert Descends(m.c, c'.streams[j], false);
      }
    } else {
      FinishKeepsWindows(m.setting, m.c, e.id, e.ok);
      forall j | 0 <= j < |c'.streams| ensures Descends(m.c, c'.streams[j], FailsOn(e, c'.streams[j].id)) {
        assert Becomes(m.c.streams[j], c'.streams[j], m.c.streams[j].id == e.id && !e.ok);
      }
    }
  }

  lemma {:induction false} HistoryKeepsWindows(states: seq<Eras>, events: seq<Event>, n: nat)
    requires IsHistory(states, events) && n < |states|
    ensures WindowsInOrder(states[n])
  {
    if n > 0 {
      HistoryKeepsWindows(states, events, n - 1);
      EventKeepsWindows(states[n - 1], events[n - 1]);
    }
  }

  lemma HistoryFollows(states: seq<Eras>, events: seq<Event>, k: nat)
    requires IsHistory(states, events) && k < |events| && !Resets(states[k], events[k])
    ensures Follows(states[k].c, events[k], states[k + 1].c)
  {
    HistoryKeepsWindows(states, events, k);
    EventFollows(states[k], events[k]);
  }

  /** Steps `m` to `n` follow one another, and none reports a failed fetch under this number. */
  ghost predicate Unfailing(states: seq<Eras>, events: seq<Event>, m: nat, n: nat, id: u64)
    requires n <= |events| < |states|
  {
    forall k :: m <= k < n ==> Follows(states[k].c, events[k], states[k + 1].c) && !FailsOn(events[k], id)
  }

  lemma {:induction false} NumbersOnlyGrow(states: seq<Eras>, events: seq<Event>, m: nat, n: nat, id: u64)
    requires m <= n <= |events| < |states| && Unfailing(states, events, m, n, id)
    ensures states[m].c.nextStreamId <= states[n].c.nextStreamId
  {
    if m < n {
      NumbersOnlyGrow(states, events, m, n - 1, id);
      assert Follows(states[n - 1].c, events[n - 1], states[n - 1 + 1].c);
    }
  }

  lemma {:induction false} WindowPropagates(states: seq<Eras>, events: seq<Event>, m: nat, n: nat, i: nat, j: nat)
    requires m <= n <= |events| < |states| && DistinctIds(states[m].c.streams)
    requires i < |states[m].c.streams| && states[m].c.streams[i].active && states[m].c.streams[i].id <= states[m].c.nextStreamId
    requires j < |states[n].c.streams| && states[n].c.streams[j].id == states[m].c.streams[i].id
    requires Unfailing(states, events, m, n, states[m].c.streams[i].id)
    ensures states[n].c.streams[j].active && states[n].c.streams[j].windowBlocks >= states[m].c.streams[i].windowBlocks
  {
    var id := states[m].c.streams[i].id;
    if m < n {
      NumbersOnlyGrow(states, events, m, n - 1, id);
      var c, after := states[n - 1].c, states[n].c.streams[j];
      assert Follows(states[n - 1].c, events[n - 1], states[n - 1 + 1].c);
      assert Descends(c, after, FailsOn(events[n - 1], after.id));
      var k :| 0 <= k < |c.streams| && Becomes(c.streams[k], after, false);
      WindowPropagates(states, events, m, n - 1, i, k);
    } else {
      SameIdSameStream(states[m].c.streams, i, j);
    }
  }

  /** From the moment a stream is armed and until the next reset, as long as it is tracked and no completion
      of any era reports a failed fetch under its number, it stays armed and its window never shrinks,
      also where stale completions have spoilt the counts. */
  lemma WindowNeverShrinksAcrossRevisions(states: seq<Eras>, events: seq<Event>, m: nat, n: nat, i: nat, j: nat)
    requires IsHistory(states, events) && m <= n < |states|
    requires i < |states[m].c.streams| && states[m].c.streams[i].active
    requires j < |states[n].c.streams| && states[n].c.streams[j].id == states[m].c.streams[i].id
    requires forall k :: m <= k < n ==> !Resets(states[k], events[k]) && !FailsOn(events[k], states[m].c.streams[i].id)
    ensures states[n].c.streams[j].active && states[n].c.streams[j].windowBlocks >= states[m].c.streams[i].windowBlocks
  {
    HistoryKeepsWindows(states, events, m);
    forall k | m <= k < n ensures Follows(states[k].c, events[k], states[k + 1].c) {
      HistoryFollows(states, events, k);
    }
    WindowPropagates(states, events, m, n, i, j);
  }
}
