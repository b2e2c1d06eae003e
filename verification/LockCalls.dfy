/**
 Where the calls of a run come from: what each asked for, with which rights, and
 what woke it.
 */
module LockCalls {
  import opened Common
  import opened LockTable
  import opened LockProtocol
  import opened LockAnswers

  // ----- rights -----

  /** What `set_lock` asks of a session before it enters its loop. */
  predicate MayLock(session: Session, handle: nat, requested: FileLock) {
    && requested.start <= requested.end && handle in session.handles
    && (requested.kind == Read ==> session.handles[handle].canRead)
    && (requested.kind == Write ==> session.writable && session.handles[handle].canWrite)
  }

  lemma AdmitsExactly(session: Session, handle: nat, requested: FileLock)
    ensures Admit(session, handle, requested).Ok? <==> MayLock(session, handle, requested)
    ensures MayLock(session, handle, requested) ==> Admit(session, handle, requested) == Ok(session.handles[handle])
  {
  }

  /** The access last given to a session, as long as it is connected. */
  ghost function Access(steps: seq<Step>, n: nat, session: nat): Option<bool>
    requires n <= |steps|
  {
    if n == 0 then None
    else
      match steps[n - 1]
      case Connect(id, writable) => if id == session then Some(writable) else Access(steps, n - 1, session)
      case Authorize(id, writable) => if id == session then Some(writable) else Access(steps, n - 1, session)
      case Disconnect(id) => if id == session then None else Access(steps, n - 1, session)
      case _ => Access(steps, n - 1, session)
  }

  /** The file last opened under a handle of a session, as long as it is open. */
  ghost function Opened(steps: seq<Step>, n: nat, session: nat, handle: nat): Option<OpenFile>
    requires n <= |steps|
  {
    if n == 0 then None
    else
      match steps[n - 1]
      case Connect(id, _) => if id == session then None else Opened(steps, n - 1, session, handle)
      case OpenHandle(id, h, file) => if id == session && h == handle then Some(file) else Opened(steps, n - 1, session, handle)
      case Close(id, h) => if id == session && h == handle then None else Opened(steps, n - 1, session, handle)
      case Disconnect(id) => if id == session then None else Opened(steps, n - 1, session, handle)
      case _ => Opened(steps, n - 1, session, handle)
  }

  function AccessIn(s: State, session: nat): Option<bool> { if session in s.sessions then Some(s.sessions[session].writable) else None }

  function FileIn(s: State, session: nat, handle: nat): Option<OpenFile> {
    if session in s.sessions && handle in s.sessions[session].handles then Some(s.sessions[session].handles[handle]) else None
  }

  lemma ConcludeKeepsSessions(s: State, id: nat, v: Verdict)
    requires id in s.calls && s.calls[id].phase.Listening?
    ensures Conclude(s, id, v).sessions == s.sessions
  {
  }

  /** Locking moves no session. */
  lemma LockStepsKeepSessions(s: State, step: Step)
    requires Enabled(s, step)
    requires !step.Connect? && !step.Authorize? && !step.OpenHandle? && !step.Close? && !step.Disconnect?
    ensures Apply(s, step).sessions == s.sessions
  {
    if step.Attempt? {
      ConcludeKeepsSessions(s, step.call, Decide(s.table, s.calls[step.call]));
    }
  }

  lemma StepAccess(s: State, step: Step, session: nat)
    requires Enabled(s, step)
    ensures AccessIn(Apply(s, step), session) ==
            match step {
              case Connect(id, writable) => if id == session then Some(writable) else AccessIn(s, session)
              case Authorize(id, writable) => if id == session then Some(writable) else AccessIn(s, session)
              case Disconnect(id) => if id == session then None else AccessIn(s, session)
              case _ => AccessIn(s, session)
            }
  {
    if !step.Connect? && !step.Authorize? && !step.OpenHandle? && !step.Close? && !step.Disconnect? {
      LockStepsKeepSessions(s, step);
    }
  }

  lemma StepOpens(s: State, step: Step, session: nat, handle: nat)
    requires Enabled(s, step)
    ensures FileIn(Apply(s, step), session, handle) ==
            match step {
              case Connect(id, _) => if id == session then None else FileIn(s, session, handle)
              case OpenHandle(id, h, file) => if id == session && h == handle then Some(file) else FileIn(s, session, handle)
              case Close(id, h) => if id == session && h == handle then None else FileIn(s, session, handle)
              case Disconnect(id) => if id == session then None else FileIn(s, session, handle)
              case _ => FileIn(s, session, handle)
            }
  {
    if !step.Connect? && !step.Authorize? && !step.OpenHandle? && !step.Close? && !step.Disconnect? {
      LockStepsKeepSessions(s, step);
    }
  }

  /** A session may write exactly if it was last told so, and its handles are those it opened and has not
      closed. */
  lemma {:induction false} SessionsAreAsLastSet(states: seq<State>, steps: seq<Step>, n: nat, session: nat, handle: nat)
    requires IsRun(states, steps) && n < |states|
    ensures AccessIn(states[n], session) == Access(steps, n, session)
    ensures FileIn(states[n], session, handle) == Opened(steps, n, session, handle)
  {
    if n > 0 {
      SessionsAreAsLastSet(states, steps, n - 1, session, handle);
      StepAccess(states[n - 1], steps[n - 1], session);
      StepOpens(states[n - 1], steps[n - 1], session, handle);
    }
  }

  // ----- requests -----

  predicate SameRequest(a: Call, b: Call) { a.(phase := Looping) == b.(phase := Looping) }

  /** The step begins this call, with the right to it. */
  predicate Begins(s: State, step: Step, id: nat, c: Call) {
    && step.Begin? && step.call == id && step.session in s.sessions && MayLock(s.sessions[step.session], step.handle, step.requested)
    && SameRequest(c, Call(step.session, s.sessions[step.session].handles[step.handle].identity, step.requested, step.wait, Looping))
  }

  lemma ConcludeKeepsRequests(s: State, id: nat, v: Verdict, other: nat)
    requires id in s.calls && s.calls[id].phase.Listening? && other in Conclude(s, id, v).calls
    ensures other in s.calls && SameRequest(Conclude(s, id, v).calls[other], s.calls[other])
  {
  }

  lemma StepKeepsRequests(s: State, step: Step, id: nat)
    requires Enabled(s, step) && id in Apply(s, step).calls
    ensures var c := Apply(s, step).calls[id];
            (id in s.calls && SameRequest(c, s.calls[id])) || Begins(s, step, id, c)
  {
    if step.Attempt? {
      ConcludeKeepsRequests(s, step.call, Decide(s.table, s.calls[step.call]), id);
    }
  }

  /** In step `k` the call goes on as it was, or begins. */
  predicate GoesOn(states: seq<State>, steps: seq<Step>, k: nat, id: nat)
    requires k < |steps| == |states| - 1
  {
    id in states[k + 1].calls ==>
      (id in states[k].calls && SameRequest(states[k + 1].calls[id], states[k].calls[id])) || Begins(states[k], steps[k], id, states[k + 1].calls[id])
  }

  lemma {:induction false} Beginning(states: seq<State>, steps: seq<Step>, n: nat, id: nat) returns (j: nat)
    requires n < |states| == |steps| + 1 && id in states[n].calls && id !in states[0].calls
    requires forall k :: 0 <= k < |steps| ==> GoesOn(states, steps, k, id)
    ensures j < n && Begins(states[j], steps[j], id, states[n].calls[id])
  {
    assert GoesOn(states, steps, n - 1, id);
    if Begins(states[n - 1], steps[n - 1], id, states[n].calls[id]) {
      j := n - 1;
    } else {
      j := Beginning(states, steps, n - 1, id);
    }
  }

  /** Every call is for what it asked, and had the right to ask for it when it began. */
  lemma CallsAreAsBegun(states: seq<State>, steps: seq<Step>, n: nat, id: nat) returns (j: nat)
    requires IsRun(states, steps) && n < |states| && id in states[n].calls
    ensures j < n && Begins(states[j], steps[j], id, states[n].calls[id])
  {
    forall k | 0 <= k < |steps| ensures GoesOn(states, steps, k, id) {
      if id in states[k + 1].calls {
        StepKeepsRequests(states[k], steps[k], id);
      }
    }
    j := Beginning(states, steps, n, id);
  }

  /** So a lock is granted only to a session that had opened the file, with the access the kind needs. */
  lemma GrantsHadTheRight(states: seq<State>, steps: seq<Step>, n: nat, id: nat) returns (j: nat, i: nat)
    requires IsRun(states, steps) && n < |states| && id in states[n].answers && states[n].answers[id] == Granted
    ensures j < i < n && steps[i] == Attempt(id) && id in states[i].calls && Begins(states[j], steps[j], id, states[i].calls[id])
    ensures var Begin(_, session, handle, requested, _) := steps[j];
            && Opened(steps, j, session, handle).Some? && Opened(steps, j, session, handle).value.identity == states[i].calls[id].identity
            && (requested.kind == Write ==> Access(steps, j, session) == Some(true) && Opened(steps, j, session, handle).value.canWrite)
            && (requested.kind == Read ==> Opened(steps, j, session, handle).value.canRead)
    ensures Shows(states[i].table, states[i + 1].table, states[i].calls[id])
  {
    i := EveryAnswerWasRight(states, steps, n, id);
    j := CallsAreAsBegun(states, steps, i, id);
    SessionsAreAsLastSet(states, steps, j, steps[j].session, steps[j].handle);
  }

  // ----- waking -----

  /** The call began to listen after `ticket` notifications. */
  predicate Listens(s: State, step: Step, id: nat, ticket: nat) { step == Listen(id) && s.notifications == ticket }

  lemma ConcludeKeepsTickets(s: State, id: nat, v: Verdict, other: nat)
    requires id in s.calls && s.calls[id].phase.Listening? && other in Conclude(s, id, v).calls
    ensures var c := Conclude(s, id, v).calls[other];
            other in s.calls && (!c.phase.Looping? ==> !s.calls[other].phase.Looping? && c.phase.ticket == s.calls[other].phase.ticket)
  {
  }

  lemma StepKeepsTickets(s: State, step: Step, id: nat)
    requires Enabled(s, step) && id in Apply(s, step).calls && !Apply(s, step).calls[id].phase.Looping?
    ensures var ticket := Apply(s, step).calls[id].phase.ticket;
            (id in s.calls && !s.calls[id].phase.Looping? && s.calls[id].phase.ticket == ticket) || Listens(s, step, id, ticket)
  {
    if step.Attempt? {
      ConcludeKeepsTickets(s, step.call, Decide(s.table, s.calls[step.call]), id);
    }
  }

  /** In step `k` the call keeps its ticket, or begins to listen. */
  predicate KeepsTicket(states: seq<State>, steps: seq<Step>, k: nat, id: nat)
    requires k < |steps| == |states| - 1
  {
    id in states[k + 1].calls && !states[k + 1].calls[id].phase.Looping? ==>
      var ticket := states[k + 1].calls[id].phase.ticket;
      || (id in states[k].calls && !states[k].calls[id].phase.Looping? && states[k].calls[id].phase.ticket == ticket)
      || Listens(states[k], steps[k], id, ticket)
  }

  lemma {:induction false} ListenedAt(states: seq<State>, steps: seq<Step>, n: nat, id: nat) returns (j: nat)
    requires n < |states| == |steps| + 1 && id in states[n].calls && !states[n].calls[id].phase.Looping? && id !in states[0].calls
    requires forall k :: 0 <= k < |steps| ==> KeepsTicket(states, steps, k, id)
    ensures j < n && Listens(states[j], steps[j], id, states[n].calls[id].phase.ticket)
  {
    assert KeepsTicket(states, steps, n - 1, id);
    if Listens(states[n - 1], steps[n - 1], id, states[n].calls[id].phase.ticket) {
      j := n - 1;
    } else {
      j := ListenedAt(states, steps, n - 1, id);
    }
  }

  lemma TicketsAreListened(states: seq<State>, steps: seq<Step>, n: nat, id: nat) returns (j: nat)
    requires IsRun(states, steps) && n < |states| && id in states[n].calls && !states[n].calls[id].phase.Looping?
    ensures j < n && Listens(states[j], steps[j], id, states[n].calls[id].phase.ticket)
  {
    forall k | 0 <= k < |steps| ensures KeepsTicket(states, steps, k, id) {
      if id in states[k + 1].calls && !states[k + 1].calls[id].phase.Looping? {
        StepKeepsTickets(states[k], steps[k], id);
      }
    }
    j := ListenedAt(states, steps, n, id);
  }

  lemma ConcludeNotifiesNobody(s: State, id: nat, v: Verdict)
    requires id in s.calls && s.calls[id].phase.Listening?
    ensures Conclude(s, id, v).notifications == s.notifications
  {
  }

  lemma OnlyNotifyNotifies(s: State, step: Step)
    requires Enabled(s, step) && step != Notify
    ensures Apply(s, step).notifications == s.notifications
  {
    if step.Attempt? {
      ConcludeNotifiesNobody(s, step.call, Decide(s.table, s.calls[step.call]));
    }
  }

  lemma {:induction false} NotifiedBetween(states: seq<State>, steps: seq<Step>, j: nat, n: nat) returns (k: nat)
    requires IsRun(states, steps) && j <= n < |states| && states[j].notifications < states[n].notifications
    ensures j <= k < n && steps[k] == Notify
  {
    if steps[n - 1] == Notify {
      k := n - 1;
    } else {
      OnlyNotifyNotifies(states[n - 1], steps[n - 1]);
      k := NotifiedBetween(states, steps, j, n - 1);
    }
  }

  /** A parked call wakes only because of a notification sent since it began to listen. */
  lemma WokenSinceListening(states: seq<State>, steps: seq<Step>, n: nat) returns (j: nat, k: nat)
    requires IsRun(states, steps) && n < |steps| && steps[n].Wake?
    ensures j < k < n && steps[j] == Listen(steps[n].call) && steps[k] == Notify
  {
    j := TicketsAreListened(states, steps, n, steps[n].call);
    k := NotifiedBetween(states, steps, j, n);
  }
}
