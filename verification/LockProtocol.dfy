/**
 Any number of sessions setting, releasing and waiting for locks on one shared
 table. Every step is one critical section of the server or one delivery of
 `notify_waiters`, so a run is an arbitrary interleaving of all calls.
 */
module LockProtocol {
  import opened Common
  import opened LockTable

  datatype OpenFile = OpenFile(identity: FileIdentity, canRead: bool, canWrite: bool)

  datatype Session = Session(writable: bool, handles: map<nat, OpenFile>)

  /** Where a `set_lock` call stands in its loop. A ticket is the number of notifications sent
      before the call began to listen. */
  datatype Phase = Looping | Listening(ticket: nat) | Parked(ticket: nat)

  datatype Call = Call(session: nat, identity: FileIdentity, requested: FileLock, wait: bool, phase: Phase)

  /** What a `set_lock` call returns once it has reached its loop. */
  datatype Answer = Granted | WouldBlock | TooMany

  /** `owed` counts the table changes whose `notify_waiters` has not run yet; `answers` are the calls that
      have returned. */
  datatype State = State(
    table: seq<LockRecord>,
    sessions: map<nat, Session>,
    calls: map<nat, Call>,
    notifications: nat,
    owed: nat,
    answers: map<nat, Answer>)

  datatype ServerError = InvalidRequest | ReadOnly | InvalidHandle | PermissionDenied

  datatype Step =
    | Connect(session: nat, writable: bool)
    | Authorize(session: nat, writable: bool)
    | OpenHandle(session: nat, handle: nat, file: OpenFile)
    | Begin(call: nat, session: nat, handle: nat, requested: FileLock, wait: bool)
    | Listen(call: nat)
    | Attempt(call: nat)
    | Wake(call: nat)
    | Cancel(call: nat)
    | Notify
    | Flush(session: nat, handle: nat, lockOwner: Option<u64>)
    | Close(session: nat, handle: nat)
    | CleanupLocks(session: nat)
    | Disconnect(session: nat)

  const INITIAL := State([], map[], map[], 0, 0, map[])

  /** The checks `set_lock` makes before it enters its loop, in their order. */
  function Admit(session: Session, handle: nat, requested: FileLock): Result<OpenFile, ServerError> {
    if requested.start > requested.end then Err(InvalidRequest)
    else if requested.kind == Write && !session.writable then Err(ReadOnly)
    else if handle !in session.handles then Err(InvalidHandle)
    else if requested.kind == Read && !session.handles[handle].canRead then Err(PermissionDenied)
    else if requested.kind == Write && !session.handles[handle].canWrite then Err(PermissionDenied)
    else Ok(session.handles[handle])
  }

  predicate Enabled(s: State, step: Step) {
    match step
    case Connect(session, _) => session !in s.sessions
    case Authorize(session, _) => session in s.sessions
    case OpenHandle(session, handle, _) => session in s.sessions && handle !in s.sessions[session].handles
    case Begin(call, session, handle, requested, _) =>
      call !in s.calls && call !in s.answers && session in s.sessions && Admit(s.sessions[session], handle, requested).Ok?
    case Listen(call) => call in s.calls && s.calls[call].phase.Looping?
    case Attempt(call) => call in s.calls && s.calls[call].phase.Listening?
    case Wake(call) => call in s.calls && s.calls[call].phase.Parked? && s.calls[call].phase.ticket < s.notifications
    case Cancel(call) => call in s.calls && s.calls[call].phase.Parked?
    case Notify => s.owed > 0
    case Flush(session, handle, _) => session in s.sessions && handle in s.sessions[session].handles
    case Close(session, handle) => session in s.sessions && handle in s.sessions[session].handles
    case CleanupLocks(session) => session in s.sessions
    // A session is dropped only once no call borrows it any more.
    case Disconnect(session) => session in s.sessions && forall c :: c in s.calls ==> s.calls[c].session != session
  }

  /** What an attempt comes to: the table with the request applied, no room for it, a refusal, or waiting. */
  datatype Verdict = Lock(table: seq<LockRecord>) | NoRoom | Refuse | Park

  function Decide(t: seq<LockRecord>, c: Call): Verdict {
    if c.requested.kind != Unlock && FirstConflict(t, c.identity, c.session, c.requested).Some? then
      if c.wait then Park else Refuse
    else
      match ReplaceOwnerRange(t, c.identity, c.session, c.requested, c.requested.kind != Unlock)
      case Ok(next) => Lock(next)
      case Err(_) => NoRoom
  }

  function Conclude(s: State, id: nat, verdict: Verdict): State
    requires id in s.calls && s.calls[id].phase.Listening?
  {
    match verdict
    case Lock(next) => Ended(s, id, Granted).(table := next, owed := s.owed + 1)
    case NoRoom => Ended(s, id, TooMany)
    case Refuse => Ended(s, id, WouldBlock)
    case Park => s.(calls := s.calls[id := s.calls[id].(phase := Parked(s.calls[id].phase.ticket))])
  }

  /** The critical section of the loop in `set_lock`. */
  function AttemptLock(s: State, id: nat): State
    requires id in s.calls && s.calls[id].phase.Listening?
  {
    Conclude(s, id, Decide(s.table, s.calls[id]))
  }

  /** The call returns. */
  function Ended(s: State, id: nat, answer: Answer): State { s.(calls := s.calls - {id}, answers := s.answers[id := answer]) }

  /** The shape of one attempt: the call returns or parks. */
  lemma ConcludeShape(s: State, id: nat, v: Verdict)
    requires id in s.calls && s.calls[id].phase.Listening?
    ensures var (c, s') := (s.calls[id], Conclude(s, id, v));
            && s'.table == (if v.Lock? then v.table else s.table)
            && (if v.Park? then s'.calls == s.calls[id := c.(phase := Parked(c.phase.ticket))] && s'.answers == s.answers
                else s'.calls == s.calls - {id} && id in s'.answers && s'.answers == s.answers[id := s'.answers[id]])
  {
  }

  /** `remove_locks`: a notification is owed only when the length changed. */
  function RemoveLocks(s: State, remove: LockRecord -> bool): State {
    var kept := Retain(s.table, remove);
    if |kept| != |s.table| then s.(table := kept, owed := s.owed + 1) else s.(table := kept)
  }

  function Apply(s: State, step: Step): State
    requires Enabled(s, step)
  {
    match step
    case Connect(session, writable) => s.(sessions := s.sessions[session := Session(writable, map[])])
    case Authorize(session, writable) => s.(sessions := s.sessions[session := s.sessions[session].(writable := writable)])
    case OpenHandle(session, handle, file) =>
      s.(sessions := s.sessions[session := s.sessions[session].(handles := s.sessions[session].handles[handle := file])])
    case Begin(call, session, handle, requested, wait) =>
      var file := Admit(s.sessions[session], handle, requested).value;
      s.(calls := s.calls[call := Call(session, file.identity, requested, wait, Looping)])
    case Listen(call) => s.(calls := s.calls[call := s.calls[call].(phase := Listening(s.notifications))])
    case Attempt(call) => AttemptLock(s, call)
    case Wake(call) => s.(calls := s.calls[call := s.calls[call].(phase := Looping)])
    case Cancel(call) => s.(calls := s.calls - {call})
    case Notify => s.(notifications := s.notifications + 1, owed := s.owed - 1)
    case Flush(session, handle, lockOwner) =>
      var identity := s.sessions[session].handles[handle].identity;
      if lockOwner.None? then s
      else RemoveLocks(s, (r: LockRecord) => r.session == session && r.identity == identity && r.lock.owner == lockOwner.value)
    case Close(session, handle) =>
      var identity := s.sessions[session].handles[handle].identity;
      RemoveLocks(s.(sessions := s.sessions[session := s.sessions[session].(handles := s.sessions[session].handles - {handle})]),
                  (r: LockRecord) => r.session == session && r.identity == identity)
    case CleanupLocks(session) => RemoveLocks(s, (r: LockRecord) => r.session == session)
    case Disconnect(session) =>
      RemoveLocks(s.(sessions := s.sessions - {session}), (r: LockRecord) => r.session == session)
  }

  ghost predicate IsRun(states: seq<State>, steps: seq<Step>) {
    && |states| == |steps| + 1
    && states[0] == INITIAL
    && forall i :: 0 <= i < |steps| ==> Enabled(states[i], steps[i]) && states[i + 1] == Apply(states[i], steps[i])
  }

  // ----- what every run keeps -----

  ghost predicate TableInv(s: State) {
    && WellFormed(s.table) && |s.table| <= MAX_LOCK_RECORDS && Exclusive(s.table)
    && forall r :: r in s.table ==> r.session in s.sessions
  }

  predicate Blocked(s: State, c: Call) {
    FirstConflict(s.table, c.identity, c.session, c.requested).Some?
  }

  /** A call that is parked, whose wake-up has not been sent and is not owed, is really blocked. */
  ghost predicate NoLostWakeup(s: State) {
    forall c :: c in s.calls && s.calls[c].phase.Parked? && s.calls[c].phase.ticket == s.notifications && s.owed == 0
                ==> Blocked(s, s.calls[c])
  }

  ghost predicate CallsInv(s: State) {
    forall c :: c in s.calls ==>
      && s.calls[c].session in s.sessions
      && s.calls[c].requested.start <= s.calls[c].requested.end
      && (s.calls[c].phase.Looping? || s.calls[c].phase.ticket <= s.notifications)
  }

  ghost predicate Inv(s: State) { TableInv(s) && CallsInv(s) && NoLostWakeup(s) }

  /** Every record of the new table stems from a record of the old one or from the request. */
  lemma ReplaceKeepsSessions(t: seq<LockRecord>, identity: FileIdentity, session: nat, requested: FileLock, insert: bool, r: LockRecord)
    requires WellFormed(t) && requested.start <= requested.end && (insert ==> requested.kind != Unlock)
    requires ReplaceOwnerRange(t, identity, session, requested, insert).Ok?
    requires r in ReplaceOwnerRange(t, identity, session, requested, insert).value
    ensures r.session == session || exists r' :: r' in t && r'.session == r.session
  {
    ReplaceIsExact(t, identity, session, requested, insert);
    var t' := ReplaceOwnerRange(t, identity, session, requested, insert).value;
    assert r.Covers(r.Who(), r.lock.start);
    assert HeldAt(t', r.Who(), r.lock.start, r.What());
  }

  /** A successful request in a state where it does not conflict keeps the table's invariant. */
  lemma ReplaceKeepsTableInv(s: State, c: Call, insert: bool)
    requires TableInv(s) && c.session in s.sessions && c.requested.start <= c.requested.end
    requires insert ==> c.requested.kind != Unlock && !Blocked(s, c)
    ensures var r := ReplaceOwnerRange(s.table, c.identity, c.session, c.requested, insert);
            r.Ok? ==> TableInv(s.(table := r.value))
  {
    var r := ReplaceOwnerRange(s.table, c.identity, c.session, c.requested, insert);
    if r.Ok? {
      ReplaceIsExact(s.table, c.identity, c.session, c.requested, insert);
      GrantKeepsExclusive(s.table, r.value, Holder(c.identity, c.session, c.requested.owner), c.requested, insert);
      forall x | x in r.value ensures x.session in s.sessions {
        ReplaceKeepsSessions(s.table, c.identity, c.session, c.requested, insert, x);
      }
    }
  }

  lemma AttemptKeepsInv(s: State, id: nat)
    requires Inv(s) && Enabled(s, Attempt(id))
    ensures Inv(AttemptLock(s, id))
  {
    var c, s' := s.calls[id], AttemptLock(s, id);
    if c.requested.kind == Unlock {
      ReplaceKeepsTableInv(s, c, false);
    } else if !Blocked(s, c) {
      ReplaceKeepsTableInv(s, c, true);
    }
    assert TableInv(s');
    assert CallsInv(s');
  }

  lemma RemoveKeepsInv(s: State, remove: LockRecord -> bool, gone: set<nat>)
    requires WellFormed(s.table) && |s.table| <= MAX_LOCK_RECORDS && Exclusive(s.table)
    requires forall r :: r in s.table ==> r.session in s.sessions || (r.session in gone && remove(r))
    requires CallsInv(s) && NoLostWakeup(s)
    ensures Inv(RemoveLocks(s, remove))
  {
    RetainKeepsWellFormed(s.table, remove);
    RetainKeepsExclusive(s.table, remove);
  }

  lemma StepKeepsInv(s: State, step: Step)
    requires Inv(s) && Enabled(s, step)
    ensures Inv(Apply(s, step))
  {
    match step
    case Attempt(call) => AttemptKeepsInv(s, call);
    case Flush(session, handle, lockOwner) =>
      if lockOwner.Some? {
        var identity := s.sessions[session].handles[handle].identity;
        RemoveKeepsInv(s, (r: LockRecord) => r.session == session && r.identity == identity && r.lock.owner == lockOwner.value, {});
      }
    case Close(session, handle) =>
      var identity := s.sessions[session].handles[handle].identity;
      var s1 := s.(sessions := s.sessions[session := s.sessions[session].(handles := s.sessions[session].handles - {handle})]);
      RemoveKeepsInv(s1, (r: LockRecord) => r.session == session && r.identity == identity, {});
    case CleanupLocks(session) => RemoveKeepsInv(s, (r: LockRecord) => r.session == session, {});
    case Disconnect(session) =>
      RemoveKeepsInv(s.(sessions := s.sessions - {session}), (r: LockRecord) => r.session == session, {session});
    case _ =>
  }

  lemma {:induction false} RunKeepsInv(states: seq<State>, steps: seq<Step>, i: nat)
    requires IsRun(states, steps) && i < |states|
    ensures Inv(states[i])
  {
    if i > 0 {
      RunKeepsInv(states, steps, i - 1);
      StepKeepsInv(states[i - 1], steps[i - 1]);
    }
  }

  /** Lock exclusion over whole runs, whatever sessions, waits, releases and drops are interleaved. */
  lemma LockExclusion(states: seq<State>, steps: seq<Step>, i: nat, h: Holder, h': Holder, b: u64, g: Grant, g': Grant)
    requires IsRun(states, steps) && i < |states|
    requires h != h' && h.identity == h'.identity
    requires HeldAt(states[i].table, h, b, g) && HeldAt(states[i].table, h', b, g')
    ensures g.kind == Read && g'.kind == Read
  {
    RunKeepsInv(states, steps, i);
  }

  /** No lost wake-up: a parked call that nothing blocks can be woken, now or after a notification
      that is still owed. */
  lemma WaitersAreNeverStranded(states: seq<State>, steps: seq<Step>, i: nat, c: nat)
    requires IsRun(states, steps) && i < |states|
    requires c in states[i].calls && states[i].calls[c].phase.Parked?
    ensures || Blocked(states[i], states[i].calls[c])
            || Enabled(states[i], Wake(c))
            || (Enabled(states[i], Notify) && Enabled(Apply(states[i], Notify), Wake(c)))
  {
    RunKeepsInv(states, steps, i);
  }

  /** A lock never outlives the session that took it. */
  lemma NoOrphanLocks(states: seq<State>, steps: seq<Step>, i: nat, r: LockRecord)
    requires IsRun(states, steps) && i < |states| && r in states[i].table
    ensures r.session in states[i].sessions
  {
    RunKeepsInv(states, steps, i);
  }
}
