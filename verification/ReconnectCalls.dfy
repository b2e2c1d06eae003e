/**
 What one call of the reconnecting client goes through: how often it sends, over
 which connections, how it is retried, and which remote handle a logical one has.
 */
module ReconnectCalls {
  import opened Common
  import opened Reconnect

  // ----- how often -----

  predicate Retried(goal: Goal) { (goal.Use? && goal.retry) || (goal.Open? && goal.retry) }

  /** The most requests a call can have sent by the time it is there. */
  function Quota(pc: Pc): nat {
    if pc.Awaiting? || pc.Marking? then if Retried(pc.goal) || pc.goal.Write? then 2 else 1
    else if HasGoal(pc) then if Retried(pc.goal) then 1 else 0
    else if pc.WantsWrite? then 0
    else if pc.Pair? then 1
    else 2
  }

  predicate WithinQuota(s: State, id: nat) { id in s.calls ==> |s.calls[id].log| <= Quota(s.calls[id].pc) }

  lemma OwnStepKeepsQuota(epoch: Option<nat>, s: State, step: Step)
    requires Enabled(epoch, s, step) && !step.Close? && WithinQuota(s, step.call)
    requires step.call in s.calls ==> GoalFits(s.calls[step.call].pc)
    ensures WithinQuota(Apply(epoch, s, step), step.call)
  {
  }

  lemma StepKeepsQuota(epoch: Option<nat>, s: State, step: Step, id: nat)
    requires Inv(epoch, s) && Enabled(epoch, s, step) && WithinQuota(s, id)
    ensures WithinQuota(Apply(epoch, s, step), id)
  {
    if step.Close? || step.call != id {
      if id in Apply(epoch, s, step).calls {
        StepMovesOneCall(epoch, s, step, id);
      }
    } else {
      OwnStepKeepsQuota(epoch, s, step);
    }
  }

  /** A call sends at most two requests: one and its retry, or a reopening and a write. */
  lemma {:induction false} CallsSendAtMostTwice(epoch: Option<nat>, states: seq<State>, steps: seq<Step>, n: nat, id: nat)
    requires IsRun(epoch, states, steps) && n < |states|
    ensures WithinQuota(states[n], id)
    ensures id in states[n].calls ==> |states[n].calls[id].log| <= 2
  {
    if n > 0 {
      CallsSendAtMostTwice(epoch, states, steps, n - 1, id);
      RunKeepsInv(epoch, states, steps, n - 1);
      StepKeepsQuota(epoch, states[n - 1], steps[n - 1], id);
    }
  }

  // ----- over which connections -----

  predicate WaitsToReconnect(pc: Pc) { pc.Queued? || pc.Checking? || pc.Connecting? || pc.Clearing? }

  /** The call goes on over this generation. */
  predicate GoesOver(pc: Pc, g: u64) { HasSlot(pc) && !pc.Loading? && !pc.Clearing? && pc.slot.generation == g }

  predicate Pending(s: State, id: nat) { id in s.calls && WaitsToReconnect(s.calls[id].pc) }

  /** The call has read the current slot, of generation `g`, and finds it not marked failed. */
  predicate LoadsUnmarked(s: State, id: nat, g: u64) {
    id in s.calls && s.calls[id].pc.Loading? && s.calls[id].pc.slot.generation == g && s.failed != g
  }

  /** A call comes to use a generation by loading it unmarked or by waiting to reconnect. */
  lemma StepGoesOver(epoch: Option<nat>, s: State, step: Step, id: nat, g: u64)
    requires Enabled(epoch, s, step) && id in Apply(epoch, s, step).calls && GoesOver(Apply(epoch, s, step).calls[id].pc, g)
    ensures (id in s.calls && GoesOver(s.calls[id].pc, g)) || LoadsUnmarked(s, id, g) || Pending(s, id)
  {
    if step.Close? || step.call != id {
      StepMovesOneCall(epoch, s, step, id);
    }
  }

  /** In step `k` the call goes on over `g`, or only then comes to. */
  predicate KeepsOver(states: seq<State>, k: nat, id: nat, g: u64)
    requires k + 1 < |states|
  {
    id in states[k + 1].calls && GoesOver(states[k + 1].calls[id].pc, g) ==>
      (id in states[k].calls && GoesOver(states[k].calls[id].pc, g)) || LoadsUnmarked(states[k], id, g) || Pending(states[k], id)
  }

  lemma {:induction false} CameTo(states: seq<State>, n: nat, id: nat, g: u64) returns (k: nat)
    requires n < |states| && id !in states[0].calls && id in states[n].calls && GoesOver(states[n].calls[id].pc, g)
    requires forall k :: 0 <= k < |states| - 1 ==> KeepsOver(states, k, id, g)
    ensures k < n && (LoadsUnmarked(states[k], id, g) || Pending(states[k], id))
  {
    assert KeepsOver(states, n - 1, id, g);
    if LoadsUnmarked(states[n - 1], id, g) || Pending(states[n - 1], id) {
      k := n - 1;
    } else {
      k := CameTo(states, n - 1, id, g);
    }
  }

  lemma SendsFrom(epoch: Option<nat>, s: State, step: Step, id: nat, g: u64)
    requires Enabled(epoch, s, step) && SendsOver(s, Apply(epoch, s, step), id, g)
    ensures GoesOver(s.calls[id].pc, g)
  {
    if step.Close? || step.call != id {
      StepMovesOneCall(epoch, s, step, id);
    }
  }

  /** A call that never had to wait for a reconnect sends only over generations that it found not marked
      failed. */
  lemma SendsOverUnmarked(epoch: Option<nat>, states: seq<State>, steps: seq<Step>, n: nat, id: nat, g: u64) returns (k: nat)
    requires IsRun(epoch, states, steps) && n < |steps| && SendsOver(states[n], states[n + 1], id, g)
    ensures k < n && id in states[k].calls
    ensures LoadsUnmarked(states[k], id, g) || WaitsToReconnect(states[k].calls[id].pc)
  {
    SendsFrom(epoch, states[n], steps[n], id, g);
    forall i | 0 <= i < |states| - 1 ensures KeepsOver(states, i, id, g) {
      if id in states[i + 1].calls && GoesOver(states[i + 1].calls[id].pc, g) {
        StepGoesOver(epoch, states[i], steps[i], id, g);
      }
    }
    k := CameTo(states, n, id, g);
  }

  // ----- retries -----

  /** A query, or an opening that does not truncate, on its first attempt. */
  predicate MayRetry(goal: Goal) { goal == Use(false) || goal == Open(false, false) }

  function Again(goal: Goal): Goal
    requires MayRetry(goal)
  {
    if goal.Use? then Use(true) else Open(false, true)
  }

  /** Losing the connection leads to a second attempt: the generation is marked failed and the call queues. */
  lemma BrokenCallQueues(epoch: Option<nat>, s: State, id: nat)
    requires id in s.calls && s.calls[id].pc.Awaiting? && MayRetry(s.calls[id].pc.goal)
    ensures Enabled(epoch, s, Receive(id, Broken))
    ensures Enabled(epoch, Apply(epoch, s, Receive(id, Broken)), Mark(id))
    ensures var (Awaiting(goal, slot), s2) := (s.calls[id].pc, Apply(epoch, Apply(epoch, s, Receive(id, Broken)), Mark(id)));
            && s2.failed == slot.generation && s2.slot == s.slot && s2.mutex == s.mutex && s2.epochs == s.epochs
            && id in s2.calls && s2.calls[id] == Call(Queued(Again(goal), slot.generation), s.calls[id].log)
  {
  }

  /** A call that has its connection sends over it. */
  lemma HavingSends(epoch: Option<nat>, s: State, id: nat)
    requires id in s.calls && s.calls[id].pc.Have? && !s.calls[id].pc.goal.Resolve? && !s.calls[id].pc.goal.Write?
    ensures Enabled(epoch, s, Send(id))
    ensures var (Have(goal, slot), s') := (s.calls[id].pc, Apply(epoch, s, Send(id)));
            id in s'.calls && s'.calls[id] == Call(Awaiting(goal, slot), s.calls[id].log + [Request(KindOf(goal), slot)])
  {
  }

  /** Reconnecting sends nothing. */
  lemma ReconnectKeepsLog(epoch: Option<nat>, s: State, step: Step)
    requires Enabled(epoch, s, step) && (step.Lock? || step.Check? || step.Install? || step.Clear?)
    ensures step.call in Apply(epoch, s, step).calls && Apply(epoch, s, step).calls[step.call].log == s.calls[step.call].log
  {
  }

  /** The states a queued call passes on its way to sending, with nobody in its way. */
  ghost predicate Resends(epoch: Option<nat>, s: State, id: nat, path: seq<State>) {
    && |path| == 6 && path[0] == s
    && Enabled(epoch, path[0], Lock(id)) && path[1] == Apply(epoch, path[0], Lock(id))
    && Enabled(epoch, path[1], Check(id)) && path[2] == Apply(epoch, path[1], Check(id))
    && Enabled(epoch, path[2], Install(id, epoch)) && path[3] == Apply(epoch, path[2], Install(id, epoch))
    && Enabled(epoch, path[3], Clear(id)) && path[4] == Apply(epoch, path[3], Clear(id))
    && Enabled(epoch, path[4], Send(id)) && path[5] == Apply(epoch, path[4], Send(id))
  }

  /** Where that leads: the generation is replaced, the mark lifted, the mutex free, the request sent again. */
  predicate Resent(s: State, s': State, id: nat)
    requires id in s.calls && s.calls[id].pc.Queued?
  {
    var Queued(goal, g) := s.calls[id].pc;
    && s'.failed == 0 && s'.mutex.None? && s'.slot == Slot(SaturatingAdd(g, 1), |s.epochs|)
    && id in s'.calls && s'.calls[id] == Call(Awaiting(goal, s'.slot), s.calls[id].log + [Request(KindOf(goal), s'.slot)])
  }

  lemma QueuedCallResends(epoch: Option<nat>, s: State, id: nat) returns (path: seq<State>)
    requires id in s.calls && s.calls[id].pc.Queued? && s.mutex.None? && s.slot.generation == s.failed == s.calls[id].pc.failed
    requires !s.calls[id].pc.goal.Resolve? && !s.calls[id].pc.goal.Write?
    ensures Resends(epoch, s, id, path) && Resent(s, path[5], id)
  {
    QueuedCallReconnects(epoch, s, id);
    var s1 := Apply(epoch, s, Lock(id));
    ReconnectKeepsLog(epoch, s, Lock(id));
    var s2 := Apply(epoch, s1, Check(id));
    ReconnectKeepsLog(epoch, s1, Check(id));
    var s3 := Apply(epoch, s2, Install(id, epoch));
    ReconnectKeepsLog(epoch, s2, Install(id, epoch));
    var s4 := Apply(epoch, s3, Clear(id));
    ReconnectKeepsLog(epoch, s3, Clear(id));
    HavingSends(epoch, s4, id);
    path := [s, s1, s2, s3, s4, Apply(epoch, s4, Send(id))];
  }

  /** A retryable call that loses the current connection can, by steps of its own, send its request again
      over a new connection of the next generation. */
  lemma BrokenCallIsRetried(epoch: Option<nat>, s: State, id: nat) returns (queued: State, path: seq<State>)
    requires id in s.calls && s.calls[id].pc.Awaiting? && MayRetry(s.calls[id].pc.goal) && s.calls[id].pc.slot == s.slot && s.mutex.None?
    ensures Enabled(epoch, s, Receive(id, Broken)) && Enabled(epoch, Apply(epoch, s, Receive(id, Broken)), Mark(id))
    ensures queued == Apply(epoch, Apply(epoch, s, Receive(id, Broken)), Mark(id))
    ensures id in queued.calls && queued.calls[id] == Call(Queued(Again(s.calls[id].pc.goal), s.slot.generation), s.calls[id].log)
    ensures Resends(epoch, queued, id, path) && Resent(queued, path[5], id)
  {
    BrokenCallQueues(epoch, s, id);
    queued := Apply(epoch, Apply(epoch, s, Receive(id, Broken)), Mark(id));
    path := QueuedCallResends(epoch, queued, id);
  }

  // ----- handles -----

  /** The remote handle last got for a logical one and not closed since. */
  ghost function LastHandle(epoch: Option<nat>, states: seq<State>, steps: seq<Step>, n: nat, logical: nat): Option<Handle>
    requires IsRun(epoch, states, steps) && n < |states|
  {
    if n == 0 then None
    else StepHandle(epoch, states[n - 1], steps[n - 1], logical, LastHandle(epoch, states, steps, n - 1, logical))
  }

  function StepHandle(epoch: Option<nat>, s: State, step: Step, logical: nat, before: Option<Handle>): Option<Handle>
    requires Enabled(epoch, s, step)
  {
    match step
    case Remember(call, l, remote) =>
      if l == logical then Some(Handle(remote, s.calls[call].pc.slot.generation, s.calls[call].pc.slot.connection)) else before
    case Reopened(call, remote) =>
      if s.calls[call].pc.goal.logical == logical
      then Some(Handle(remote, s.calls[call].pc.slot.generation, s.calls[call].pc.slot.connection)) else before
    case Close(l) => if l == logical then None else before
    case _ => before
  }

  function HandleIn(s: State, logical: nat): Option<Handle> { if logical in s.handles then Some(s.handles[logical]) else None }

  lemma AnswerKeepsHandles(s: State, call: nat, answer: Answer)
    requires call in s.calls && s.calls[call].pc.Awaiting?
    ensures Received(s, call, answer).handles == s.handles
  {
  }

  lemma OtherStepKeepsHandles(epoch: Option<nat>, s: State, step: Step)
    requires Enabled(epoch, s, step) && !step.Remember? && !step.Reopened? && !step.Close?
    ensures Apply(epoch, s, step).handles == s.handles
  {
    if step.Receive? {
      AnswerKeepsHandles(s, step.call, step.answer);
    }
  }

  lemma StepHandles(epoch: Option<nat>, s: State, step: Step, logical: nat)
    requires Enabled(epoch, s, step)
    ensures HandleIn(Apply(epoch, s, step), logical) == StepHandle(epoch, s, step, logical, HandleIn(s, logical))
  {
    if !step.Remember? && !step.Reopened? && !step.Close? {
      OtherStepKeepsHandles(epoch, s, step);
    }
  }

  /** A logical handle stands for the remote handle last opened or reopened for it, over the connection
      that answered, until it is closed. */
  lemma {:induction false} HandlesAreTheLastOpened(epoch: Option<nat>, states: seq<State>, steps: seq<Step>, n: nat, logical: nat)
    requires IsRun(epoch, states, steps) && n < |states|
    ensures HandleIn(states[n], logical) == LastHandle(epoch, states, steps, n, logical)
  {
    if n > 0 {
      HandlesAreTheLastOpened(epoch, states, steps, n - 1, logical);
      StepHandles(epoch, states[n - 1], steps[n - 1], logical);
    }
  }

  /** An opening that succeeds ends with its handle remembered under an unused logical number. */
  lemma OpeningIsRemembered(epoch: Option<nat>, s: State, id: nat, logical: nat, remote: nat)
    requires id in s.calls && s.calls[id].pc.Awaiting? && s.calls[id].pc.goal.Open? && s.writer.None? && logical !in s.handles
    ensures Enabled(epoch, s, Receive(id, Fine))
    ensures Enabled(epoch, Apply(epoch, s, Receive(id, Fine)), Remember(id, logical, remote))
    ensures var (slot, s') := (s.calls[id].pc.slot, Apply(epoch, Apply(epoch, s, Receive(id, Fine)), Remember(id, logical, remote)));
            s'.calls[id].pc.Done? && HandleIn(s', logical) == Some(Handle(remote, slot.generation, slot.connection))
  {
  }
}
