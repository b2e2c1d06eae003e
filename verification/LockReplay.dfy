/**
 A reconnecting client replays the locks it was granted into a fresh session.
 The live side is any run of the lock protocol; the replay side is the loop of
 `remote_handle`, which sets each remembered lock again without waiting. The client
 remembers requests only: it sees neither a flush nor a close, and an unlock may
 empty an over-long history.
 */
module LockReplay {
  import opened Common
  import opened LockTable
  import opened LockProtocol

  const HISTORY_LIMIT: nat := 4_096

  predicate Touches(lock: FileLock, owner: u64, b: u64) { lock.owner == owner && lock.start <= b <= lock.end }

  function GrantOf(lock: FileLock): Option<Grant> { if lock.kind == Unlock then None else Some(Grant(lock.kind, lock.pid)) }

  /** What a history of granted requests leaves an owner with on byte `b`: the last request
      that covers the byte decides. */
  function Effect(history: seq<FileLock>, owner: u64, b: u64): Option<Grant> {
    if history == [] then None
    else
      var last := history[|history| - 1];
      if Touches(last, owner, b) then GrantOf(last) else Effect(history[..|history| - 1], owner, b)
  }

  predicate Touched(history: seq<FileLock>, owner: u64, b: u64) {
    exists i :: 0 <= i < |history| && Touches(history[i], owner, b)
  }

  /** The later part of a history decides wherever it says anything. */
  lemma {:induction false} EffectOfParts(first: seq<FileLock>, second: seq<FileLock>, owner: u64, b: u64)
    ensures Effect(first + second, owner, b) == if Touched(second, owner, b) then Effect(second, owner, b) else Effect(first, owner, b)
    decreases |second|
  {
    if second == [] {
      assert first + second == first;
    } else {
      var n := |second| - 1;
      assert (first + second)[..|first + second| - 1] == first + second[..n];
      EffectOfParts(first, second[..n], owner, b);
      assert Touched(second, owner, b) <==> Touches(second[n], owner, b) || Touched(second[..n], owner, b) by {
        if i :| 0 <= i < |second| && Touches(second[i], owner, b) {
          assert i == n || Touches(second[..n][i], owner, b);
        }
        if i :| 0 <= i < n && Touches(second[..n][i], owner, b) {
          assert Touches(second[i], owner, b);
        }
      }
    }
  }

  lemma {:induction false} UntouchedHasNoEffect(history: seq<FileLock>, owner: u64, b: u64)
    requires !Touched(history, owner, b)
    ensures Effect(history, owner, b).None?
  {
    EffectOfParts([], history, owner, b);
    assert [] + history == history;
  }

  // ----- the live side -----

  /** What happens to the locks of a session on a file: a request is granted, or all locks of one owner
      (a flush) or of every owner (a close, a clean-up, a disconnect) are released. */
  datatype Event = Got(lock: FileLock) | Gave(owner: Option<u64>)

  predicate Covers(owner: Option<u64>, o: u64) { owner.None? || owner.value == o }

  /** The step grants a request of this session on this file. */
  predicate Grants(s: State, step: Step, session: nat, identity: FileIdentity) {
    && step.Attempt? && Enabled(s, step)
    && var c := s.calls[step.call];
    && c.session == session && c.identity == identity
    && (c.requested.kind == Unlock || !Blocked(s, c))
    && ReplaceOwnerRange(s.table, identity, session, c.requested, c.requested.kind != Unlock).Ok?
  }

  function EventOf(s: State, step: Step, session: nat, identity: FileIdentity): seq<Event>
    requires Enabled(s, step)
  {
    match step
    case Attempt(call) => if Grants(s, step, session, identity) then [Got(s.calls[call].requested)] else []
    case Flush(id, handle, owner) =>
      if id == session && owner.Some? && s.sessions[id].handles[handle].identity == identity then [Gave(owner)] else []
    case Close(id, handle) => if id == session && s.sessions[id].handles[handle].identity == identity then [Gave(None)] else []
    case CleanupLocks(id) => if id == session then [Gave(None)] else []
    case Disconnect(id) => if id == session then [Gave(None)] else []
    case _ => []
  }

  /** The events of a session on a file during the first `n` steps, in order. */
  ghost function Events(states: seq<State>, steps: seq<Step>, n: nat, session: nat, identity: FileIdentity): seq<Event>
    requires IsRun(states, steps) && n <= |steps|
  {
    if n == 0 then []
    else Events(states, steps, n - 1, session, identity) + EventOf(states[n - 1], steps[n - 1], session, identity)
  }

  /** What the owner really has on byte `b` after these events. */
  function Live(events: seq<Event>, o: u64, b: u64): Option<Grant> {
    if events == [] then None
    else
      match events[|events| - 1]
      case Got(lock) => if Touches(lock, o, b) then GrantOf(lock) else Live(events[..|events| - 1], o, b)
      case Gave(owner) => if Covers(owner, o) then None else Live(events[..|events| - 1], o, b)
  }

  /** The table's own view of one session on one file is exactly what the events leave. */
  ghost predicate Shows(t: seq<LockRecord>, identity: FileIdentity, session: nat, events: seq<Event>) {
    forall o: u64, b: u64, g: Grant :: HeldAt(t, Holder(identity, session, o), b, g) <==> Live(events, o, b) == Some(g)
  }

  lemma GrantExtendsLive(t: seq<LockRecord>, t': seq<LockRecord>, identity: FileIdentity, session: nat, events: seq<Event>, lock: FileLock)
    requires Shows(t, identity, session, events)
    requires forall h: Holder, b: u64, g: Grant ::
               HeldAt(t', h, b, g) <==> HeldAfter(t, Holder(identity, session, lock.owner), lock, lock.kind != Unlock, h, b, g)
    ensures Shows(t', identity, session, events + [Got(lock)])
  {
    assert (events + [Got(lock)])[..|events|] == events;
    forall o: u64, b: u64, g: Grant
      ensures HeldAt(t', Holder(identity, session, o), b, g) <==> Live(events + [Got(lock)], o, b) == Some(g)
    {
      assert HeldAt(t, Holder(identity, session, o), b, g) <==> Live(events, o, b) == Some(g);
    }
  }

  /** A release that takes exactly the covered owners' records of this session on this file. */
  lemma ReleaseExtendsLive(t: seq<LockRecord>, t': seq<LockRecord>, identity: FileIdentity, session: nat, events: seq<Event>, owner: Option<u64>)
    requires Shows(t, identity, session, events)
    requires forall o: u64, b: u64, g: Grant ::
               HeldAt(t', Holder(identity, session, o), b, g) <==> !Covers(owner, o) && HeldAt(t, Holder(identity, session, o), b, g)
    ensures Shows(t', identity, session, events + [Gave(owner)])
  {
    assert (events + [Gave(owner)])[..|events|] == events;
    forall o: u64, b: u64, g: Grant
      ensures HeldAt(t', Holder(identity, session, o), b, g) <==> Live(events + [Gave(owner)], o, b) == Some(g)
    {
      assert HeldAt(t, Holder(identity, session, o), b, g) <==> Live(events, o, b) == Some(g);
    }
  }

  /** An attempt that is no event of this session and file leaves their grants alone. */
  lemma OtherAttemptKeepsGrants(s: State, id: nat, v: Verdict, h: Holder, b: u64, g: Grant)
    requires id in s.calls && s.calls[id].phase.Listening? && v == Decide(s.table, s.calls[id])
    requires v.Lock? ==> !(s.calls[id].session == h.session && s.calls[id].identity == h.identity)
    requires WellFormed(s.table) && s.calls[id].requested.start <= s.calls[id].requested.end
    ensures HeldAt(Conclude(s, id, v).table, h, b, g) <==> HeldAt(s.table, h, b, g)
  {
    var c := s.calls[id];
    ConcludeShape(s, id, v);
    if v.Lock? {
      ReplaceIsExact(s.table, c.identity, c.session, c.requested, c.requested.kind != Unlock);
    }
  }

  /** A step that is no event for this session and file leaves its grants alone. */
  lemma OtherStepKeepsGrants(s: State, step: Step, session: nat, identity: FileIdentity, o: u64, b: u64, g: Grant)
    requires Inv(s) && Enabled(s, step) && EventOf(s, step, session, identity) == []
    ensures HeldAt(Apply(s, step).table, Holder(identity, session, o), b, g) <==> HeldAt(s.table, Holder(identity, session, o), b, g)
  {
    if step.Attempt? {
      OtherAttemptKeepsGrants(s, step.call, Decide(s.table, s.calls[step.call]), Holder(identity, session, o), b, g);
    }
  }

  lemma ReleaseStepTakes(s: State, step: Step, session: nat, identity: FileIdentity, owner: Option<u64>, o: u64, b: u64, g: Grant)
    requires Enabled(s, step) && EventOf(s, step, session, identity) == [Gave(owner)]
    ensures HeldAt(Apply(s, step).table, Holder(identity, session, o), b, g)
            <==> !Covers(owner, o) && HeldAt(s.table, Holder(identity, session, o), b, g)
  {
  }

  /** In every run the table shows for a session and a file exactly what its events leave, whatever the
      other sessions do. */
  lemma {:induction false} LiveStateIsEvents(states: seq<State>, steps: seq<Step>, n: nat, session: nat, identity: FileIdentity)
    requires IsRun(states, steps) && n <= |steps|
    ensures Shows(states[n].table, identity, session, Events(states, steps, n, session, identity))
  {
    if n > 0 {
      LiveStateIsEvents(states, steps, n - 1, session, identity);
      RunKeepsInv(states, steps, n - 1);
      StepShows(states[n - 1], steps[n - 1], session, identity, Events(states, steps, n - 1, session, identity));
    }
  }

  lemma StepShows(s: State, step: Step, session: nat, identity: FileIdentity, events: seq<Event>)
    requires Inv(s) && Enabled(s, step) && Shows(s.table, identity, session, events)
    ensures Shows(Apply(s, step).table, identity, session, events + EventOf(s, step, session, identity))
  {
    var event, t' := EventOf(s, step, session, identity), Apply(s, step).table;
    if event == [] {
      assert events + event == events;
      forall o: u64, b: u64, g: Grant
        ensures HeldAt(t', Holder(identity, session, o), b, g) <==> HeldAt(s.table, Holder(identity, session, o), b, g)
      {
        OtherStepKeepsGrants(s, step, session, identity, o, b, g);
      }
    } else if event[0].Got? {
      var lock := event[0].lock;
      ReplaceIsExact(s.table, identity, session, lock, lock.kind != Unlock);
      GrantExtendsLive(s.table, t', identity, session, events, lock);
    } else {
      var owner := event[0].owner;
      forall o: u64, b: u64, g: Grant
        ensures HeldAt(t', Holder(identity, session, o), b, g) <==> !Covers(owner, o) && HeldAt(s.table, Holder(identity, session, o), b, g)
      {
        ReleaseStepTakes(s, step, session, identity, owner, o, b, g);
      }
      ReleaseExtendsLive(s.table, t', identity, session, events, owner);
    }
  }

  // ----- what the client remembers -----

  /** The granted requests, which are all the client sees. */
  function Requests(events: seq<Event>): seq<FileLock> {
    if events == [] then []
    else
      var init, last := Requests(events[..|events| - 1]), events[|events| - 1];
      if last.Got? then init + [last.lock] else init
  }

  /** `set_lock` of the resilient client after the server said yes. */
  function Remember(history: seq<FileLock>, lock: FileLock): seq<FileLock> {
    if lock.kind == Unlock && |history| + 1 > HISTORY_LIMIT then [] else history + [lock]
  }

  function RememberAll(granted: seq<FileLock>): seq<FileLock> {
    if granted == [] then [] else Remember(RememberAll(granted[..|granted| - 1]), granted[|granted| - 1])
  }

  /** How many requests are forgotten: all up to and including the last unlock that emptied the history. */
  function Forgotten(granted: seq<FileLock>): (k: nat)
    ensures k <= |granted|
  {
    if granted == [] then 0
    else
      var n := |granted| - 1;
      var k := Forgotten(granted[..n]);
      if granted[n].kind == Unlock && n - k + 1 > HISTORY_LIMIT then n + 1 else k
  }

  /** The remembered history is what was granted since it was last emptied. */
  lemma {:induction false} RememberedIsSuffix(granted: seq<FileLock>)
    ensures RememberAll(granted) == granted[Forgotten(granted)..]
  {
    if granted != [] {
      var n := |granted| - 1;
      RememberedIsSuffix(granted[..n]);
      var k := Forgotten(granted[..n]);
      assert granted[..n][k..] == granted[k..n];
      assert granted[k..] == granted[k..n] + [granted[n]];
    }
  }

  /** Nothing is forgotten up to the limit, nor beyond it as long as no unlock comes. */
  lemma {:induction false} NothingForgotten(granted: seq<FileLock>)
    requires forall i :: HISTORY_LIMIT <= i < |granted| ==> granted[i].kind != Unlock
    ensures Forgotten(granted) == 0
  {
    if granted != [] {
      NothingForgotten(granted[..|granted| - 1]);
    }
  }

  // ----- when the remembered history is right -----

  /** Since the last request of the owner that covers the byte, the owner's locks were released. */
  predicate ReleasedSince(events: seq<Event>, o: u64, b: u64) {
    events != [] &&
    match events[|events| - 1]
    case Got(lock) => !Touches(lock, o, b) && ReleasedSince(events[..|events| - 1], o, b)
    case Gave(owner) => Covers(owner, o) || ReleasedSince(events[..|events| - 1], o, b)
  }

  lemma {:induction false} LiveIsEffect(events: seq<Event>, o: u64, b: u64)
    ensures Live(events, o, b) == if ReleasedSince(events, o, b) then None else Effect(Requests(events), o, b)
  {
    if events != [] {
      var n := |events| - 1;
      LiveIsEffect(events[..n], o, b);
      if events[n].Got? {
        var all := Requests(events);
        assert all[..|all| - 1] == Requests(events[..n]);
      }
    }
  }

  /** Replaying these requests would leave every owner with what it really has. */
  ghost predicate Right(history: seq<FileLock>, events: seq<Event>) {
    forall o: u64, b: u64 :: Effect(history, o, b) == Live(events, o, b)
  }

  /** Nothing released since is still remembered as held, and everything held by a forgotten request, and
      not released since, is covered by a remembered one. */
  ghost predicate NothingStale(events: seq<Event>) {
    var granted := Requests(events);
    var k := Forgotten(granted);
    forall o: u64, b: u64 ::
      if ReleasedSince(events, o, b) then Effect(granted[k..], o, b).None?
      else Effect(granted[..k], o, b).Some? ==> Touched(granted[k..], o, b)
  }

  lemma RightAt(events: seq<Event>, o: u64, b: u64)
    ensures var granted := Requests(events);
            var k := Forgotten(granted);
            && RememberAll(granted) == granted[k..]
            && (Effect(granted[k..], o, b) == Live(events, o, b) <==>
                  if ReleasedSince(events, o, b) then Effect(granted[k..], o, b).None?
                  else Effect(granted[..k], o, b).Some? ==> Touched(granted[k..], o, b))
  {
    var granted := Requests(events);
    var k := Forgotten(granted);
    RememberedIsSuffix(granted);
    LiveIsEffect(events, o, b);
    EffectOfParts(granted[..k], granted[k..], o, b);
    assert granted[..k] + granted[k..] == granted;
    if !Touched(granted[k..], o, b) {
      UntouchedHasNoEffect(granted[k..], o, b);
    }
  }

  /** Exactly when the remembered history is right, for every sequence of grants and releases. */
  lemma RememberedIsRight(events: seq<Event>)
    ensures Right(RememberAll(Requests(events)), events) <==> NothingStale(events)
  {
    var granted := Requests(events);
    var k := Forgotten(granted);
    forall o: u64, b: u64
      ensures RememberAll(granted) == granted[k..]
      ensures Effect(granted[k..], o, b) == Live(events, o, b) <==>
              if ReleasedSince(events, o, b) then Effect(granted[k..], o, b).None?
              else Effect(granted[..k], o, b).Some? ==> Touched(granted[k..], o, b)
    {
      RightAt(events, o, b);
    }
    assert RememberAll(granted) == granted[k..] by { RightAt(events, 0, 0); }
  }

  ghost predicate NoRelease(events: seq<Event>) { forall i :: 0 <= i < |events| ==> events[i].Got? }

  lemma {:induction false} NothingReleased(events: seq<Event>, o: u64, b: u64)
    requires NoRelease(events)
    ensures !ReleasedSince(events, o, b)
  {
    if events != [] {
      NothingReleased(events[..|events| - 1], o, b);
    }
  }

  /** Every byte an owner held through the first `k` requests is covered by one of its later requests. */
  ghost predicate HeldIsCovered(granted: seq<FileLock>, k: nat)
    requires k <= |granted|
  {
    forall o: u64, b: u64 :: Effect(granted[..k], o, b).Some? ==> Touched(granted[k..], o, b)
  }

  /** Without releases the remembered history is right if and only if every byte an owner held through a
      forgotten request is covered by a remembered request of that owner. */
  lemma ForgettingLosesHeldLocks(events: seq<Event>)
    requires NoRelease(events)
    ensures var granted := Requests(events);
            Right(RememberAll(granted), events) <==> HeldIsCovered(granted, Forgotten(granted))
  {
    RememberedIsRight(events);
    var granted := Requests(events);
    var k := Forgotten(granted);
    forall o: u64, b: u64 ensures !ReleasedSince(events, o, b) { NothingReleased(events, o, b); }
    if NothingStale(events) {
      forall o: u64, b: u64 | Effect(granted[..k], o, b).Some? ensures Touched(granted[k..], o, b) {
        assert !ReleasedSince(events, o, b);
      }
    } else if HeldIsCovered(granted, k) {
      assert NothingStale(events);
    }
  }

  /** No covered owner has anything. */
  ghost predicate HoldsNothing(events: seq<Event>, owner: Option<u64>) {
    forall o: u64, b: u64 :: Covers(owner, o) ==> Live(events, o, b).None?
  }

  lemma LiveAfterRelease(events: seq<Event>, owner: Option<u64>, o: u64, b: u64)
    ensures Live(events + [Gave(owner)], o, b) == if Covers(owner, o) then None else Live(events, o, b)
    ensures Requests(events + [Gave(owner)]) == Requests(events)
  {
    assert (events + [Gave(owner)])[..|events|] == events;
  }

  /** A release is not remembered: a history that was right stays right if and only if no covered owner
      held anything. This is so for a flush and for the close of any handle on the file. */
  lemma ReleaseIsNotRemembered(events: seq<Event>, owner: Option<u64>)
    requires Right(RememberAll(Requests(events)), events)
    ensures Right(RememberAll(Requests(events + [Gave(owner)])), events + [Gave(owner)]) <==> HoldsNothing(events, owner)
  {
    var after, remembered := events + [Gave(owner)], RememberAll(Requests(events));
    LiveAfterRelease(events, owner, 0, 0);
    if HoldsNothing(events, owner) {
      forall o: u64, b: u64 ensures Effect(remembered, o, b) == Live(after, o, b) {
        LiveAfterRelease(events, owner, o, b);
      }
      assert Right(remembered, after);
    } else {
      var o: u64, b: u64 :| Covers(owner, o) && Live(events, o, b).Some?;
      LiveAfterRelease(events, owner, o, b);
      assert Effect(remembered, o, b) != Live(after, o, b);
      assert !Right(remembered, after);
    }
  }

  // ----- histories that can be replayed -----

  /** Two owners never have incompatible grants on a byte. */
  ghost predicate Harmonious(history: seq<FileLock>) {
    forall o: u64, o': u64, b: u64 ::
      o != o' && Effect(history, o, b).Some? && Effect(history, o', b).Some? ==>
        Effect(history, o, b).value.kind != Write && Effect(history, o', b).value.kind != Write
  }

  ghost predicate Replayable(history: seq<FileLock>) {
    history == [] ||
    (var last := history[|history| - 1];
     Replayable(history[..|history| - 1]) && last.start <= last.end && Harmonious(history))
  }

  /** Dropping the beginning of a harmonious history leaves a harmonious one. */
  lemma SuffixIsHarmonious(history: seq<FileLock>, k: nat)
    requires k <= |history| && Harmonious(history)
    ensures Harmonious(history[k..])
  {
    var rest := history[k..];
    forall o: u64, b: u64 | Effect(rest, o, b).Some? ensures Effect(history, o, b) == Effect(rest, o, b) {
      EffectOfParts(history[..k], rest, o, b);
      assert history[..k] + rest == history;
      if !Touched(rest, o, b) {
        UntouchedHasNoEffect(rest, o, b);
      }
    }
  }

  lemma {:induction false} SuffixIsReplayable(history: seq<FileLock>, k: nat)
    requires k <= |history| && Replayable(history)
    ensures Replayable(history[k..])
  {
    if k < |history| {
      var n := |history| - 1;
      SuffixIsReplayable(history[..n], k);
      assert history[k..][..n - k] == history[..n][k..];
      SuffixIsHarmonious(history, k);
    }
  }

  /** The table's own view of one session on one file is exactly the effect of a history. */
  ghost predicate Reproduces(t: seq<LockRecord>, identity: FileIdentity, session: nat, history: seq<FileLock>) {
    forall o: u64, b: u64, g: Grant ::
      HeldAt(t, Holder(identity, session, o), b, g) <==> Effect(history, o, b) == Some(g)
  }

  lemma HarmonyFromTable(t: seq<LockRecord>, identity: FileIdentity, session: nat, history: seq<FileLock>)
    requires Exclusive(t) && Reproduces(t, identity, session, history)
    ensures Harmonious(history)
  {
    forall o: u64, o': u64, b: u64
      | o != o' && Effect(history, o, b).Some? && Effect(history, o', b).Some?
      ensures Effect(history, o, b).value.kind != Write && Effect(history, o', b).value.kind != Write
    {
      assert HeldAt(t, Holder(identity, session, o), b, Effect(history, o, b).value);
      assert HeldAt(t, Holder(identity, session, o'), b, Effect(history, o', b).value);
    }
  }

  lemma GrantedRequestIsOrdered(states: seq<State>, steps: seq<Step>, i: nat, session: nat, identity: FileIdentity)
    requires IsRun(states, steps) && i < |steps|
    ensures var event := EventOf(states[i], steps[i], session, identity);
            event != [] && event[0].Got? ==> event == [Got(event[0].lock)] && event[0].lock.start <= event[0].lock.end
  {
    RunKeepsInv(states, steps, i);
  }

  /** Without releases the granted requests of one session are mutually compatible at each point. */
  lemma {:induction false} LiveHistoryIsReplayable(states: seq<State>, steps: seq<Step>, n: nat, session: nat, identity: FileIdentity)
    requires IsRun(states, steps) && n <= |steps| && NoRelease(Events(states, steps, n, session, identity))
    ensures Replayable(Requests(Events(states, steps, n, session, identity)))
  {
    if n > 0 {
      var before, event := Events(states, steps, n - 1, session, identity), EventOf(states[n - 1], steps[n - 1], session, identity);
      var events := before + event;
      assert forall i :: 0 <= i < |before| ==> events[i] == before[i];
      assert event != [] ==> events[|before|] == event[0];
      LiveHistoryIsReplayable(states, steps, n - 1, session, identity);
      GrantedRequestIsOrdered(states, steps, n - 1, session, identity);
      if event == [] {
        assert events == before;
      } else {
        LiveStateIsEvents(states, steps, n, session, identity);
        RunKeepsInv(states, steps, n);
        OneMoreRequest(states[n].table, identity, session, before, event[0].lock);
      }
    }
  }

  lemma OneMoreRequest(t: seq<LockRecord>, identity: FileIdentity, session: nat, before: seq<Event>, lock: FileLock)
    requires NoRelease(before) && Replayable(Requests(before)) && lock.start <= lock.end
    requires Exclusive(t) && Shows(t, identity, session, before + [Got(lock)])
    ensures Replayable(Requests(before + [Got(lock)]))
  {
    var events := before + [Got(lock)];
    assert events[..|before|] == before;
    var granted := Requests(events);
    assert granted == Requests(before) + [lock] && granted[..|granted| - 1] == Requests(before);
    forall o: u64, b: u64 ensures Live(events, o, b) == Effect(granted, o, b) {
      LiveIsEffect(events, o, b);
      NothingReleased(events, o, b);
    }
    HarmonyFromTable(t, identity, session, granted);
  }

  // ----- the replay side -----

  datatype ReplayError = WouldBlock | Full

  /** One `set_lock` with `wait` off. */
  function SetLockNow(t: seq<LockRecord>, identity: FileIdentity, session: nat, lock: FileLock): Result<seq<LockRecord>, ReplayError> {
    if lock.kind != Unlock && FirstConflict(t, identity, session, lock).Some? then Err(ReplayError.WouldBlock)
    else
      match ReplaceOwnerRange(t, identity, session, lock, lock.kind != Unlock)
      case Ok(next) => Ok(next)
      case Err(_) => Err(Full)
  }

  /** The replay loop: stops at the first error. */
  function Replay(t: seq<LockRecord>, identity: FileIdentity, session: nat, history: seq<FileLock>): Result<seq<LockRecord>, ReplayError> {
    if history == [] then Ok(t)
    else
      match Replay(t, identity, session, history[..|history| - 1])
      case Err(e) => Err(e)
      case Ok(so_far) => SetLockNow(so_far, identity, session, history[|history| - 1])
  }

  ghost predicate OnlySession(t: seq<LockRecord>, identity: FileIdentity, session: nat) {
    forall r :: r in t && r.identity == identity ==> r.session == session
  }

  ghost predicate Ordered(history: seq<FileLock>) { forall i :: 0 <= i < |history| ==> history[i].start <= history[i].end }

  lemma GrantExtendsEffect(t: seq<LockRecord>, t': seq<LockRecord>, identity: FileIdentity, session: nat, history: seq<FileLock>, lock: FileLock)
    requires Reproduces(t, identity, session, history)
    requires forall h: Holder, b: u64, g: Grant ::
               HeldAt(t', h, b, g) <==> HeldAfter(t, Holder(identity, session, lock.owner), lock, lock.kind != Unlock, h, b, g)
    ensures Reproduces(t', identity, session, history + [lock])
  {
    assert (history + [lock])[..|history|] == history;
    forall o: u64, b: u64, g: Grant
      ensures HeldAt(t', Holder(identity, session, o), b, g) <==> Effect(history + [lock], o, b) == Some(g)
    {
      assert HeldAt(t, Holder(identity, session, o), b, g) <==> Effect(history, o, b) == Some(g);
    }
  }

  lemma ReplaceKeepsOnlySession(t: seq<LockRecord>, identity: FileIdentity, session: nat, lock: FileLock)
    requires WellFormed(t) && OnlySession(t, identity, session) && lock.start <= lock.end
    ensures var r := ReplaceOwnerRange(t, identity, session, lock, lock.kind != Unlock);
            r.Ok? ==> OnlySession(r.value, identity, session)
  {
    ReplaceIsExact(t, identity, session, lock, lock.kind != Unlock);
    var r := ReplaceOwnerRange(t, identity, session, lock, lock.kind != Unlock);
    if r.Ok? {
      forall x | x in r.value && x.identity == identity ensures x.session == session {
        assert x.Covers(x.Who(), x.lock.start);
        assert HeldAt(r.value, x.Who(), x.lock.start, x.What());
      }
    }
  }

  /** What a replay of `history` that got through leaves behind. */
  ghost predicate Replayed(t: seq<LockRecord>, r: seq<LockRecord>, identity: FileIdentity, session: nat, history: seq<FileLock>) {
    && WellFormed(r) && |r| <= |t| + 2 * |history| && OnlySession(r, identity, session)
    && Reproduces(r, identity, session, history) && (Exclusive(t) ==> Exclusive(r))
  }

  lemma SetLockReplays(t: seq<LockRecord>, so_far: seq<LockRecord>, identity: FileIdentity, session: nat, history: seq<FileLock>, lock: FileLock)
    requires Replayed(t, so_far, identity, session, history) && lock.start <= lock.end
    ensures var r := SetLockNow(so_far, identity, session, lock);
            && (r.Ok? ==> Replayed(t, r.value, identity, session, history + [lock]))
            && (|t| + 2 * |history| + 2 <= MAX_LOCK_RECORDS ==> r != Err(Full))
  {
    ReplaceIsExact(so_far, identity, session, lock, lock.kind != Unlock);
    var r := SetLockNow(so_far, identity, session, lock);
    if r.Ok? {
      GrantExtendsEffect(so_far, r.value, identity, session, history, lock);
      ReplaceKeepsOnlySession(so_far, identity, session, lock);
      if Exclusive(t) {
        GrantKeepsExclusive(so_far, r.value, Holder(identity, session, lock.owner), lock, lock.kind != Unlock);
      }
    }
  }

  /** A replay that gets through reproduces the effect of the history, and room is never short when two
      records per request are free. */
  lemma {:induction false} ReplayIsExact(t: seq<LockRecord>, identity: FileIdentity, session: nat, history: seq<FileLock>)
    requires WellFormed(t) && (forall r :: r in t ==> r.identity != identity) && Ordered(history)
    ensures var r := Replay(t, identity, session, history);
            && (r.Ok? ==> Replayed(t, r.value, identity, session, history))
            && (|t| + 2 * |history| <= MAX_LOCK_RECORDS ==> r != Err(Full))
  {
    if history != [] {
      var init, last := history[..|history| - 1], history[|history| - 1];
      ReplayIsExact(t, identity, session, init);
      var so_far := Replay(t, identity, session, init);
      assert init + [last] == history;
      if so_far.Ok? {
        assert Replay(t, identity, session, history) == SetLockNow(so_far.value, identity, session, last);
        SetLockReplays(t, so_far.value, identity, session, init, last);
      }
    }
  }

  /** In a table where only this session has locks on the file, a harmonious next request is granted. */
  lemma HarmoniousStepIsGranted(t: seq<LockRecord>, identity: FileIdentity, session: nat, history: seq<FileLock>, lock: FileLock)
    requires WellFormed(t) && OnlySession(t, identity, session) && Reproduces(t, identity, session, history)
    requires lock.start <= lock.end && lock.kind != Unlock && Harmonious(history + [lock])
    ensures FirstConflict(t, identity, session, lock).None?
  {
    assert (history + [lock])[..|history|] == history;
    forall h: Holder, b: u64, g: Grant
      | h.identity == identity && h != Holder(identity, session, lock.owner)
        && lock.start <= b <= lock.end && HeldAt(t, h, b, g)
      ensures g.kind != Write && lock.kind != Write
    {
      assert h == Holder(identity, session, h.owner);
      assert Effect(history + [lock], h.owner, b) == Some(g);
      assert Effect(history + [lock], lock.owner, b) == Some(Grant(lock.kind, lock.pid));
    }
    ConflictIsPointwise(t, identity, session, lock);
  }

  /** Given room, the next request is granted if and only if it leaves a harmonious history. */
  lemma NextIsGrantedExactly(t: seq<LockRecord>, so_far: seq<LockRecord>, identity: FileIdentity, session: nat, history: seq<FileLock>, lock: FileLock)
    requires Replayed(t, so_far, identity, session, history) && Exclusive(t) && lock.start <= lock.end
    requires |t| + 2 * |history| + 2 <= MAX_LOCK_RECORDS
    ensures SetLockNow(so_far, identity, session, lock) != Err(Full)
    ensures SetLockNow(so_far, identity, session, lock).Ok? <==> Harmonious(history + [lock])
  {
    SetLockReplays(t, so_far, identity, session, history, lock);
    var r := SetLockNow(so_far, identity, session, lock);
    if r.Ok? {
      HarmonyFromTable(r.value, identity, session, history + [lock]);
    } else if Harmonious(history + [lock]) {
      HarmoniousStepIsGranted(so_far, identity, session, history, lock);
    }
  }

  /** Given room, the replay gets through if and only if every prefix of the history is harmonious;
      otherwise it stops at a conflict. */
  lemma {:induction false} ReplaySucceedsExactly(t: seq<LockRecord>, identity: FileIdentity, session: nat, history: seq<FileLock>)
    requires WellFormed(t) && Exclusive(t) && (forall r :: r in t ==> r.identity != identity) && Ordered(history)
    requires |t| + 2 * |history| <= MAX_LOCK_RECORDS
    ensures Replay(t, identity, session, history).Ok? <==> Replayable(history)
    ensures Replay(t, identity, session, history) != Err(Full)
  {
    if history != [] {
      var init, last := history[..|history| - 1], history[|history| - 1];
      ReplaySucceedsExactly(t, identity, session, init);
      ReplayIsExact(t, identity, session, init);
      var so_far := Replay(t, identity, session, init);
      assert init + [last] == history;
      if so_far.Ok? {
        assert Replay(t, identity, session, history) == SetLockNow(so_far.value, identity, session, last);
        NextIsGrantedExactly(t, so_far.value, identity, session, init, last);
      }
    }
  }

  // ----- the round trip -----

  lemma {:induction false} RequestsAreOrdered(states: seq<State>, steps: seq<Step>, n: nat, session: nat, identity: FileIdentity)
    requires IsRun(states, steps) && n <= |steps|
    ensures Ordered(Requests(Events(states, steps, n, session, identity)))
  {
    if n > 0 {
      RequestsAreOrdered(states, steps, n - 1, session, identity);
      GrantedRequestIsOrdered(states, steps, n - 1, session, identity);
      var before, event := Events(states, steps, n - 1, session, identity), EventOf(states[n - 1], steps[n - 1], session, identity);
      if event == [] {
        assert before + event == before;
      } else {
        assert (before + event)[..|before|] == before && (before + event)[|before|] == event[0];
      }
    }
  }

  /** Lock replay round trip, for every run: a replay of the remembered locks into a table without locks on
      the file that gets through recreates the live lock state if and only if nothing stale is
      remembered and nothing held is forgotten. */
  lemma ReplayRoundTrip(states: seq<State>, steps: seq<Step>, n: nat, session: nat, identity: FileIdentity, t: seq<LockRecord>, session': nat)
    requires IsRun(states, steps) && n <= |steps|
    requires WellFormed(t) && (forall r :: r in t ==> r.identity != identity)
    ensures var events := Events(states, steps, n, session, identity);
            var r := Replay(t, identity, session', RememberAll(Requests(events)));
            r.Ok? ==> ((forall o: u64, b: u64, g: Grant ::
                          HeldAt(r.value, Holder(identity, session', o), b, g) <==> HeldAt(states[n].table, Holder(identity, session, o), b, g))
                       <==> NothingStale(events))
  {
    var events := Events(states, steps, n, session, identity);
    var granted := Requests(events);
    var remembered := RememberAll(granted);
    RequestsAreOrdered(states, steps, n, session, identity);
    RememberedIsSuffix(granted);
    ReplayIsExact(t, identity, session', remembered);
    LiveStateIsEvents(states, steps, n, session, identity);
    RememberedIsRight(events);
    var r := Replay(t, identity, session', remembered);
    if r.Ok? {
      SameGrants(r.value, states[n].table, identity, session', session, remembered, events);
    }
  }

  lemma SameGrants(t: seq<LockRecord>, t': seq<LockRecord>, identity: FileIdentity, session: nat, session': nat, history: seq<FileLock>,
                   events: seq<Event>)
    requires Reproduces(t, identity, session, history) && Shows(t', identity, session', events)
    ensures (forall o: u64, b: u64, g: Grant :: HeldAt(t, Holder(identity, session, o), b, g) <==> HeldAt(t', Holder(identity, session', o), b, g))
            <==> Right(history, events)
  {
    if forall o: u64, b: u64, g: Grant :: HeldAt(t, Holder(identity, session, o), b, g) <==> HeldAt(t', Holder(identity, session', o), b, g) {
      forall o: u64, b: u64 ensures Effect(history, o, b) == Live(events, o, b) {
        if Effect(history, o, b).Some? {
          assert HeldAt(t, Holder(identity, session, o), b, Effect(history, o, b).value);
        } else if Live(events, o, b).Some? {
          assert HeldAt(t', Holder(identity, session', o), b, Live(events, o, b).value);
        }
      }
    }
  }

  /** Without releases the replay never meets a conflict, however long the history and however often it was
      emptied; as long as nothing was forgotten it recreates exactly the live lock state. */
  lemma ReplayWithoutReleases(states: seq<State>, steps: seq<Step>, n: nat, session: nat, identity: FileIdentity, t: seq<LockRecord>, session': nat)
    requires IsRun(states, steps) && n <= |steps| && NoRelease(Events(states, steps, n, session, identity))
    requires WellFormed(t) && Exclusive(t) && (forall r :: r in t ==> r.identity != identity)
    requires |t| + 2 * |RememberAll(Requests(Events(states, steps, n, session, identity)))| <= MAX_LOCK_RECORDS
    ensures var granted := Requests(Events(states, steps, n, session, identity));
            var r := Replay(t, identity, session', RememberAll(granted));
            && r.Ok?
            && (Forgotten(granted) == 0 ==>
                  forall o: u64, b: u64, g: Grant ::
                    HeldAt(r.value, Holder(identity, session', o), b, g) <==> HeldAt(states[n].table, Holder(identity, session, o), b, g))
  {
    var events := Events(states, steps, n, session, identity);
    var granted := Requests(events);
    LiveHistoryIsReplayable(states, steps, n, session, identity);
    RememberedIsSuffix(granted);
    SuffixIsReplayable(granted, Forgotten(granted));
    RequestsAreOrdered(states, steps, n, session, identity);
    ReplaySucceedsExactly(t, identity, session', RememberAll(granted));
    ReplayRoundTrip(states, steps, n, session, identity, t, session');
    if Forgotten(granted) == 0 {
      assert granted[..0] == [];
      forall o: u64, b: u64 ensures !ReleasedSince(events, o, b) { NothingReleased(events, o, b); }
      assert NothingStale(events);
    }
  }

  // ----- histories on which it goes wrong -----

  function Repeat(lock: FileLock, n: nat): seq<FileLock> { seq(n, _ => lock) }

  lemma {:induction false} RepeatEffect(lock: FileLock, n: nat, o: u64, b: u64)
    ensures Effect(Repeat(lock, n), o, b) == if n > 0 && Touches(lock, o, b) then GrantOf(lock) else None
  {
    if n > 0 {
      assert Repeat(lock, n)[..n - 1] == Repeat(lock, n - 1);
      RepeatEffect(lock, n - 1, o, b);
    }
  }

  lemma RepeatIsRemembered(lock: FileLock, n: nat)
    requires lock.kind != Unlock
    ensures Forgotten(Repeat(lock, n)) == 0
  {
    NothingForgotten(Repeat(lock, n));
  }

  /** One byte locked over and over, then another byte unlocked: the lock is held and nothing is remembered. */
  lemma ClearedHistoryExample()
    ensures var granted := Repeat(FileLock(1, 0, 0, Write, 7), HISTORY_LIMIT) + [FileLock(1, 5, 5, Unlock, 7)];
            RememberAll(granted) == [] && Effect(granted, 1, 0) == Some(Grant(Write, 7))
  {
    var held, unlock := FileLock(1, 0, 0, Write, 7), FileLock(1, 5, 5, Unlock, 7);
    var granted := Repeat(held, HISTORY_LIMIT) + [unlock];
    assert granted[..HISTORY_LIMIT] == Repeat(held, HISTORY_LIMIT);
    RepeatIsRemembered(held, HISTORY_LIMIT);
    RepeatEffect(held, HISTORY_LIMIT, 1, 0);
    RememberedIsSuffix(granted);
  }

  /** After a flush the lock is gone and the history still has it. */
  lemma FlushedHistoryExample()
    ensures var events := [Got(FileLock(1, 0, 0, Write, 7)), Gave(Some(1))];
            Live(events, 1, 0) == None && Effect(RememberAll(Requests(events)), 1, 0) == Some(Grant(Write, 7))
  {
    var lock := FileLock(1, 0, 0, Write, 7);
    var events := [Got(lock), Gave(Some(1))];
    assert events[..1] == [Got(lock)] && [Got(lock)][..0] == [];
    assert Requests([Got(lock)]) == [lock];
    RememberedIsSuffix([lock]);
    assert Forgotten([lock]) == 0 && [lock][0..] == [lock];
  }

  /** A flush may even leave a history that cannot be replayed: another owner then takes the byte. */
  lemma FlushedHistoryConflicts()
    ensures var events := [Got(FileLock(1, 0, 0, Write, 7)), Gave(Some(1)), Got(FileLock(2, 0, 0, Write, 8))];
            !Replayable(Requests(events))
  {
    var a, b := FileLock(1, 0, 0, Write, 7), FileLock(2, 0, 0, Write, 8);
    var events := [Got(a), Gave(Some(1)), Got(b)];
    var flushed := [Got(a), Gave(Some(1))];
    assert events[..2] == flushed && flushed[..1] == [Got(a)] && [Got(a)][..0] == [];
    assert Requests([Got(a)]) == [] + [a];
    assert Requests(flushed) == Requests([Got(a)]);
    assert Requests(events) == [a, b] && [a, b][..1] == [a];
    assert Effect([a, b], 1, 0) == Effect([a], 1, 0) == Some(Grant(Write, 7));
    assert Effect([a, b], 2, 0) == Some(Grant(Write, 8));
  }
}
