/**
 The reconnecting client: connection generations, the failed-generation mark, the
 reconnect mutex and the logical-to-remote handle map, over every interleaving of
 calls, transport failures and dropped calls. Each step is one atomic action on the
 shared state or one answer of the transport.
 */
module Reconnect {
  import opened Common

  /** `connection` numbers the installed connections from 0. */
  datatype Slot = Slot(generation: u64, connection: nat)

  /** A remote handle and the connection whose server issued it. */
  datatype Handle = Handle(remote: nat, generation: u64, issuer: nat)

  /** What a call is after. `Use` and `Open` are retried once, an opening only if it does not truncate;
      `Resolve` is `remote_handle`, first without and then with the write lock on the handle map. */
  datatype Goal =
    | Use(retry: bool)
    | Mutate
    | Open(truncate: bool, retry: bool)
    | Resolve(logical: nat, locked: bool)
    | Write

  datatype Kind = Query | Mutation | Opening(truncate: bool) | Reopening | Writing(issuer: nat)

  /** A request as it was sent. */
  datatype Request = Request(kind: Kind, slot: Slot)

  datatype Pc =
    | Reading(goal: Goal)
    | Loading(goal: Goal, slot: Slot)
    | Queued(goal: Goal, failed: u64)
    | Checking(goal: Goal, failed: u64)
    | Connecting(goal: Goal, failed: u64)
    | Clearing(goal: Goal, slot: Slot)
    | Have(goal: Goal, slot: Slot)
    | Awaiting(goal: Goal, slot: Slot)
    | Marking(goal: Goal, slot: Slot)
    | WantsWrite(logical: nat)
    | Opened(slot: Slot)
    | Pair(slot: Slot, handle: Handle)
    | Done

  datatype Call = Call(pc: Pc, log: seq<Request>)

  /** `marked` and `broken` remember which generations were ever marked failed and which ever failed in
      transport; `epochs` has the epoch of every installed connection. */
  datatype State = State(
    slot: Slot,
    failed: u64,
    mutex: Option<nat>,
    writer: Option<nat>,
    handles: map<nat, Handle>,
    calls: map<nat, Call>,
    epochs: seq<Option<nat>>,
    marked: set<u64>,
    broken: set<u64>)

  function Initial(epoch: Option<nat>): State { State(Slot(1, 0), 0, None, None, map[], map[], [epoch], {}, {}) }

  datatype Answer = Fine | Refused | Broken

  datatype Step =
    | Begin(call: nat, goal: Goal)
    | Read(call: nat)
    | Load(call: nat)
    | Lock(call: nat)
    | Check(call: nat)
    | Install(call: nat, epoch: Option<nat>)
    | Clear(call: nat)
    | Send(call: nat)
    | Receive(call: nat, answer: Answer)
    | Mark(call: nat)
    | Look(call: nat)
    | LockHandles(call: nat)
    | LookLocked(call: nat)
    | Reopened(call: nat, remote: nat)
    | Remember(call: nat, logical: nat, remote: nat)
    | SendWrite(call: nat)
    | Close(logical: nat)
    | Abandon(call: nat)

  predicate At(s: State, call: nat) { call in s.calls && !s.calls[call].pc.Done? }

  predicate Enabled(epoch: Option<nat>, s: State, step: Step) {
    match step
    case Begin(call, goal) =>
      call !in s.calls && goal != Write && goal != Use(true) && !(goal.Open? && goal.retry) && !(goal.Resolve? && goal.locked)
    case Read(call) => At(s, call) && s.calls[call].pc.Reading?
    case Load(call) => At(s, call) && s.calls[call].pc.Loading?
    case Lock(call) => At(s, call) && s.calls[call].pc.Queued? && s.mutex.None?
    case Check(call) => At(s, call) && s.calls[call].pc.Checking?
    // Once an epoch was reported, a connection with another one is refused.
    case Install(call, e) => At(s, call) && s.calls[call].pc.Connecting? && (epoch.Some? ==> e == epoch)
    case Clear(call) => At(s, call) && s.calls[call].pc.Clearing?
    case Send(call) => At(s, call) && s.calls[call].pc.Have? && !s.calls[call].pc.goal.Resolve? && !s.calls[call].pc.goal.Write?
    case Receive(call, answer) =>
      At(s, call) && s.calls[call].pc.Awaiting? && (answer.Fine? ==> !s.calls[call].pc.goal.Resolve?)
    case Mark(call) => At(s, call) && s.calls[call].pc.Marking?
    case Look(call) => At(s, call) && s.calls[call].pc.Have? && s.calls[call].pc.goal.Resolve? && !s.calls[call].pc.goal.locked && s.writer.None?
    case LockHandles(call) => At(s, call) && s.calls[call].pc.WantsWrite? && s.writer.None?
    case LookLocked(call) =>
      && At(s, call) && s.calls[call].pc.Have? && s.calls[call].pc.goal.Resolve? && s.calls[call].pc.goal.locked
      && s.calls[call].pc.goal.logical in s.handles
    case Reopened(call, _) => At(s, call) && s.calls[call].pc.Awaiting? && s.calls[call].pc.goal.Resolve?
    case Remember(call, logical, _) => At(s, call) && s.calls[call].pc.Opened? && s.writer.None? && logical !in s.handles
    case SendWrite(call) => At(s, call) && s.calls[call].pc.Pair?
    case Close(logical) => s.writer.None?
    case Abandon(call) => At(s, call)
  }

  // ----- steps -----

  /** The call moves on. */
  function Move(s: State, call: nat, pc: Pc): State
    requires call in s.calls
  {
    s.(calls := s.calls[call := s.calls[call].(pc := pc)])
  }

  /** The call sends a request and waits for its answer. */
  function Sent(s: State, call: nat, kind: Kind, goal: Goal, slot: Slot): State
    requires call in s.calls
  {
    s.(calls := s.calls[call := Call(Awaiting(goal, slot), s.calls[call].log + [Request(kind, slot)])])
  }

  function Unlock(s: State, call: nat): State { if s.mutex == Some(call) then s.(mutex := None) else s }

  /** The call ends and gives back whatever it holds. */
  function End(s: State, call: nat): State
    requires call in s.calls
  {
    var freed := Unlock(s, call);
    Move(if freed.writer == Some(call) then freed.(writer := None) else freed, call, Done)
  }

  function KindOf(goal: Goal): Kind {
    match goal
    case Use(_) => Query
    case Open(truncate, _) => Opening(truncate)
    case _ => Mutation
  }

  /** Where a call goes once it has marked its generation failed. */
  function Retry(goal: Goal, generation: u64): Pc {
    match goal
    case Use(false) => Queued(Use(true), generation)
    case Open(false, false) => Queued(Open(false, true), generation)
    case _ => Done
  }

  /** An answer from the transport. A retried opening and a reopening do not mark the generation. */
  function Received(s: State, call: nat, answer: Answer): State
    requires call in s.calls && s.calls[call].pc.Awaiting?
  {
    var Awaiting(goal, slot) := s.calls[call].pc;
    match answer
    case Fine => if goal.Open? then Move(s, call, Opened(slot)) else End(s, call)
    case Refused => End(s, call)
    case Broken =>
      var noted := s.(broken := s.broken + {slot.generation});
      if goal.Resolve? || (goal.Open? && goal.retry) then End(noted, call) else Move(noted, call, Marking(goal, slot))
  }

  function Apply(epoch: Option<nat>, s: State, step: Step): State
    requires Enabled(epoch, s, step)
  {
    match step
    case Begin(call, goal) => s.(calls := s.calls[call := Call(Reading(goal), [])])
    case Read(call) => Move(s, call, Loading(s.calls[call].pc.goal, s.slot))
    case Load(call) =>
      var Loading(goal, slot) := s.calls[call].pc;
      Move(s, call, if s.failed == slot.generation then Queued(goal, slot.generation) else Have(goal, slot))
    case Lock(call) => Move(s, call, Checking(s.calls[call].pc.goal, s.calls[call].pc.failed)).(mutex := Some(call))
    case Check(call) =>
      var Checking(goal, failed) := s.calls[call].pc;
      if s.slot.generation != failed || s.failed != failed then Move(Unlock(s, call), call, Have(goal, s.slot))
      else Move(s, call, Connecting(goal, failed))
    case Install(call, e) =>
      var Connecting(goal, failed) := s.calls[call].pc;
      var slot := Slot(SaturatingAdd(failed, 1), |s.epochs|);
      Move(s, call, Clearing(goal, slot)).(slot := slot, epochs := s.epochs + [e])
    case Clear(call) => Move(Unlock(s, call), call, Have(s.calls[call].pc.goal, s.calls[call].pc.slot)).(failed := 0)
    case Send(call) => Sent(s, call, KindOf(s.calls[call].pc.goal), s.calls[call].pc.goal, s.calls[call].pc.slot)
    case Receive(call, answer) => Received(s, call, answer)
    case Mark(call) =>
      var Marking(goal, slot) := s.calls[call].pc;
      Move(s, call, Retry(goal, slot.generation)).(failed := slot.generation, marked := s.marked + {slot.generation})
    case Look(call) =>
      var Have(goal, slot) := s.calls[call].pc;
      if goal.logical !in s.handles then End(s, call)
      else if s.handles[goal.logical].generation == slot.generation then Move(s, call, Pair(slot, s.handles[goal.logical]))
      else Move(s, call, WantsWrite(goal.logical))
    case LockHandles(call) =>
      var logical := s.calls[call].pc.logical;
      if logical !in s.handles then End(s, call)
      else Move(s, call, Reading(Resolve(logical, true))).(writer := Some(call))
    case LookLocked(call) =>
      var Have(goal, slot) := s.calls[call].pc;
      if s.handles[goal.logical].generation == slot.generation
      then Move(s, call, Pair(slot, s.handles[goal.logical])).(writer := None)
      else Sent(s, call, Reopening, goal, slot)
    case Reopened(call, remote) =>
      var Awaiting(goal, slot) := s.calls[call].pc;
      var handle := Handle(remote, slot.generation, slot.connection);
      Move(s, call, Pair(slot, handle)).(handles := s.handles[goal.logical := handle], writer := None)
    case Remember(call, logical, remote) =>
      var slot := s.calls[call].pc.slot;
      End(s, call).(handles := s.handles[logical := Handle(remote, slot.generation, slot.connection)])
    case SendWrite(call) => Sent(s, call, Writing(s.calls[call].pc.handle.issuer), Write, s.calls[call].pc.slot)
    case Close(logical) => s.(handles := s.handles - {logical})
    case Abandon(call) => End(s, call)
  }

  ghost predicate IsRun(epoch: Option<nat>, states: seq<State>, steps: seq<Step>) {
    && |states| == |steps| + 1 && states[0] == Initial(epoch)
    && forall i {:trigger steps[i]} :: 0 <= i < |steps| ==> Enabled(epoch, states[i], steps[i]) && states[i + 1] == Apply(epoch, states[i], steps[i])
  }

  // ----- what every step keeps -----

  function GenerationOf(connection: nat): u64 { if connection < U64_MAX then connection + 1 else U64_MAX }

  predicate SlotOk(s: State, slot: Slot) { slot.connection < |s.epochs| && slot.generation == GenerationOf(slot.connection) }

  predicate HandleOk(s: State, h: Handle) { h.issuer < |s.epochs| && h.generation == GenerationOf(h.issuer) }

  /** Requests that must not be sent twice. */
  predicate Once(k: Kind) { k.Mutation? || k.Writing? || (k.Opening? && k.truncate) }

  predicate SendsOnce(goal: Goal) { goal.Mutate? || goal.Write? || (goal.Open? && goal.truncate) }

  ghost predicate NoneYet(log: seq<Request>) { forall i :: 0 <= i < |log| ==> !Once(log[i].kind) }

  ghost predicate AtMostOne(log: seq<Request>) { forall i, j :: 0 <= i < j < |log| ==> !(Once(log[i].kind) && Once(log[j].kind)) }

  /** A write goes over the connection that issued its handle; below the largest generation. */
  ghost predicate ToIssuer(log: seq<Request>) {
    forall i :: 0 <= i < |log| && log[i].kind.Writing? && log[i].slot.generation < U64_MAX ==> log[i].kind.issuer == log[i].slot.connection
  }

  /** The call may have sent its one mutation. */
  predicate Spent(pc: Pc) { pc.Done? || pc.Opened? || ((pc.Awaiting? || pc.Marking?) && SendsOnce(pc.goal)) }

  predicate HasGoal(pc: Pc) { !pc.WantsWrite? && !pc.Opened? && !pc.Pair? && !pc.Done? }

  predicate HasSlot(pc: Pc) { pc.Loading? || pc.Clearing? || pc.Have? || pc.Awaiting? || pc.Marking? || pc.Opened? || pc.Pair? }

  predicate HoldsMutex(pc: Pc) { pc.Checking? || pc.Connecting? || pc.Clearing? }

  predicate HoldsWriter(pc: Pc) { HasGoal(pc) && pc.goal.Resolve? && pc.goal.locked }

  /** A write is only ever awaited or marked; a truncating opening is never retried. */
  predicate GoalFits(pc: Pc) {
    HasGoal(pc) ==>
      && (pc.goal.Write? ==> pc.Awaiting? || pc.Marking?)
      && (pc.goal.Open? && pc.goal.truncate ==> !pc.goal.retry)
      && (pc.goal.Resolve? ==> !pc.Marking? && (pc.Awaiting? ==> pc.goal.locked))
  }

  ghost predicate LogOk(call: Call) {
    AtMostOne(call.log) && ToIssuer(call.log) && (!Spent(call.pc) ==> NoneYet(call.log))
  }

  ghost predicate CallOk(s: State, id: nat, call: Call) {
    && LogOk(call) && GoalFits(call.pc)
    && (HasSlot(call.pc) ==> SlotOk(s, call.pc.slot))
    && (HoldsMutex(call.pc) ==> s.mutex == Some(id))
    && (HoldsWriter(call.pc) ==> s.writer == Some(id) && call.pc.goal.logical in s.handles)
    && (call.pc.Connecting? ==> s.slot.generation == call.pc.failed && call.pc.failed in s.marked)
    && (call.pc.Marking? ==> call.pc.slot.generation in s.broken)
    && (call.pc.Pair? ==> HandleOk(s, call.pc.handle) && call.pc.handle.generation == call.pc.slot.generation)
  }

  ghost predicate SharedOk(epoch: Option<nat>, s: State) {
    && s.epochs != [] && s.slot == Slot(GenerationOf(|s.epochs| - 1), |s.epochs| - 1)
    && (s.failed == 0 || s.failed in s.marked) && s.marked <= s.broken
    && (forall c :: 0 <= c < |s.epochs| - 1 ==> GenerationOf(c) in s.marked)
    && (forall c :: 0 <= c < |s.epochs| && epoch.Some? ==> s.epochs[c] == epoch)
    && (forall l :: l in s.handles ==> HandleOk(s, s.handles[l]))
  }

  ghost predicate Inv(epoch: Option<nat>, s: State) {
    SharedOk(epoch, s) && forall id :: id in s.calls ==> CallOk(s, id, s.calls[id])
  }

  /** What a step of one call leaves the others: shared history only grows, and what another call has
      locked does not change. */
  ghost predicate Leaves(s: State, s': State, id: nat) {
    && |s.epochs| <= |s'.epochs| && s.marked <= s'.marked && s.broken <= s'.broken
    && (s.mutex.Some? && s.mutex != Some(id) ==> s'.mutex == s.mutex && s'.slot == s.slot)
    && (s.writer.Some? && s.writer != Some(id) ==> s'.writer == s.writer && s.handles.Keys <= s'.handles.Keys)
  }

  lemma OthersKeep(s: State, s': State, id: nat, other: nat, call: Call)
    requires CallOk(s, other, call) && Leaves(s, s', id) && other != id
    ensures CallOk(s', other, call)
  {
  }

  lemma StepLeaves(epoch: Option<nat>, s: State, step: Step)
    requires Enabled(epoch, s, step) && OwnOk(s, step)
    ensures Leaves(s, Apply(epoch, s, step), if step.Close? then 0 else step.call)
  {
  }

  lemma AnswerMovesOneCall(s: State, call: nat, answer: Answer, id: nat)
    requires call in s.calls && s.calls[call].pc.Awaiting? && id in Received(s, call, answer).calls && id != call
    ensures id in s.calls && Received(s, call, answer).calls[id] == s.calls[id]
  {
  }

  lemma StepMovesOneCall(epoch: Option<nat>, s: State, step: Step, id: nat)
    requires Enabled(epoch, s, step) && id in Apply(epoch, s, step).calls && (step.Close? || id != step.call)
    ensures id in s.calls && Apply(epoch, s, step).calls[id] == s.calls[id]
  {
    if step.Receive? {
      AnswerMovesOneCall(s, step.call, step.answer, id);
    }
  }

  // ----- logs -----

  lemma Append(log: seq<Request>, r: Request)
    requires AtMostOne(log) && ToIssuer(log)
    requires NoneYet(log) || !Once(r.kind)
    requires r.kind.Writing? && r.slot.generation < U64_MAX ==> r.kind.issuer == r.slot.connection
    ensures AtMostOne(log + [r]) && ToIssuer(log + [r])
    ensures NoneYet(log) && !Once(r.kind) ==> NoneYet(log + [r])
  {
  }

  /** A pair of equal generations below the largest belongs to one connection. */
  lemma PairIsOneConnection(s: State, slot: Slot, h: Handle)
    requires SlotOk(s, slot) && HandleOk(s, h) && h.generation == slot.generation < U64_MAX
    ensures h.issuer == slot.connection
  {
  }

  lemma SentIsOk(s: State, id: nat, kind: Kind, goal: Goal, slot: Slot)
    requires id in s.calls && CallOk(s, id, s.calls[id]) && SlotOk(s, slot) && !Spent(s.calls[id].pc)
    requires Once(kind) ==> SendsOnce(goal)
    requires kind.Writing? && slot.generation < U64_MAX ==> kind.issuer == slot.connection
    requires GoalFits(Awaiting(goal, slot)) && (HoldsWriter(Awaiting(goal, slot)) ==> HoldsWriter(s.calls[id].pc) && s.calls[id].pc.goal == goal)
    ensures var s' := Sent(s, id, kind, goal, slot); CallOk(s', id, s'.calls[id])
  {
    Append(s.calls[id].log, Request(kind, slot));
  }

  // ----- the step's own call -----

  /** The call a step belongs to is in order before the step. */
  ghost predicate OwnOk(s: State, step: Step) { !step.Close? && step.call in s.calls ==> CallOk(s, step.call, s.calls[step.call]) }

  lemma EndIsOk(s: State, id: nat)
    requires id in s.calls && LogOk(s.calls[id])
    ensures var s' := End(s, id); CallOk(s', id, s'.calls[id])
  {
  }

  predicate IsConnectionStep(step: Step) { step.Read? || step.Load? || step.Lock? || step.Check? || step.Install? || step.Clear? }

  predicate IsRequestStep(step: Step) { step.Send? || step.Receive? || step.Mark? || step.SendWrite? }

  lemma SlotStepOk(epoch: Option<nat>, s: State, step: Step)
    requires SharedOk(epoch, s) && Enabled(epoch, s, step) && OwnOk(s, step) && (step.Read? || step.Load? || step.Install?)
    ensures var s' := Apply(epoch, s, step); CallOk(s', step.call, s'.calls[step.call])
  {
  }

  lemma MutexStepOk(epoch: Option<nat>, s: State, step: Step)
    requires SharedOk(epoch, s) && Enabled(epoch, s, step) && OwnOk(s, step) && (step.Lock? || step.Check? || step.Clear?)
    ensures var s' := Apply(epoch, s, step); CallOk(s', step.call, s'.calls[step.call])
  {
  }

  lemma ConnectionStepOk(epoch: Option<nat>, s: State, step: Step)
    requires SharedOk(epoch, s) && Enabled(epoch, s, step) && OwnOk(s, step) && IsConnectionStep(step)
    ensures var s' := Apply(epoch, s, step); CallOk(s', step.call, s'.calls[step.call])
  {
    if step.Read? || step.Load? || step.Install? {
      SlotStepOk(epoch, s, step);
    } else {
      MutexStepOk(epoch, s, step);
    }
  }

  lemma RequestStepOk(epoch: Option<nat>, s: State, step: Step)
    requires Enabled(epoch, s, step) && OwnOk(s, step) && IsRequestStep(step)
    ensures var s' := Apply(epoch, s, step); CallOk(s', step.call, s'.calls[step.call])
  {
    var pc := s.calls[step.call].pc;
    match step {
      case Send(call) => SentIsOk(s, call, KindOf(pc.goal), pc.goal, pc.slot);
      case SendWrite(call) =>
        if pc.slot.generation < U64_MAX {
          PairIsOneConnection(s, pc.slot, pc.handle);
        }
        SentIsOk(s, call, Writing(pc.handle.issuer), Write, pc.slot);
      case Receive(call, _) =>
        EndIsOk(s, call);
        EndIsOk(s.(broken := s.broken + {pc.slot.generation}), call);
      case Mark(_) =>
    }
  }

  lemma LookOk(epoch: Option<nat>, s: State, step: Step)
    requires SharedOk(epoch, s) && Enabled(epoch, s, step) && OwnOk(s, step) && (step.Look? || step.LookLocked?)
    ensures var s' := Apply(epoch, s, step); CallOk(s', step.call, s'.calls[step.call])
  {
    var pc := s.calls[step.call].pc;
    if step.Look? {
      EndIsOk(s, step.call);
    } else if s.handles[pc.goal.logical].generation != pc.slot.generation {
      SentIsOk(s, step.call, Reopening, pc.goal, pc.slot);
    }
  }

  lemma HandleStepOk(epoch: Option<nat>, s: State, step: Step)
    requires Enabled(epoch, s, step) && OwnOk(s, step) && (step.LockHandles? || step.Reopened? || step.Remember?)
    ensures var s' := Apply(epoch, s, step); CallOk(s', step.call, s'.calls[step.call])
  {
    EndIsOk(s, step.call);
  }

  lemma BeginOrEndOk(epoch: Option<nat>, s: State, step: Step)
    requires Enabled(epoch, s, step) && OwnOk(s, step) && (step.Begin? || step.Abandon?)
    ensures var s' := Apply(epoch, s, step); CallOk(s', step.call, s'.calls[step.call])
  {
    if step.Abandon? {
      EndIsOk(s, step.call);
    }
  }

  lemma StepKeepsOwn(epoch: Option<nat>, s: State, step: Step)
    requires SharedOk(epoch, s) && Enabled(epoch, s, step) && OwnOk(s, step) && !step.Close?
    ensures var s' := Apply(epoch, s, step); CallOk(s', step.call, s'.calls[step.call])
  {
    if IsConnectionStep(step) {
      ConnectionStepOk(epoch, s, step);
    } else if IsRequestStep(step) {
      RequestStepOk(epoch, s, step);
    } else if step.Look? || step.LookLocked? {
      LookOk(epoch, s, step);
    } else if step.Begin? || step.Abandon? {
      BeginOrEndOk(epoch, s, step);
    } else {
      HandleStepOk(epoch, s, step);
    }
  }

  // ----- the shared state -----

  lemma InstallKeepsShared(epoch: Option<nat>, s: State, call: nat, e: Option<nat>)
    requires SharedOk(epoch, s) && Enabled(epoch, s, Install(call, e)) && CallOk(s, call, s.calls[call])
    ensures SharedOk(epoch, Apply(epoch, s, Install(call, e)))
  {
  }

  /** With the connection as it was, the rest of the shared state is kept by keeping its parts. */
  lemma SameConnection(epoch: Option<nat>, s: State, s': State)
    requires SharedOk(epoch, s) && s'.slot == s.slot && s'.epochs == s.epochs
    requires s.marked <= s'.marked <= s'.broken && (s'.failed == 0 || s'.failed in s'.marked)
    requires forall l :: l in s'.handles ==> HandleOk(s, s'.handles[l])
    ensures SharedOk(epoch, s')
  {
  }

  lemma HandleStepKeepsShared(epoch: Option<nat>, s: State, step: Step)
    requires SharedOk(epoch, s) && Enabled(epoch, s, step) && OwnOk(s, step) && (step.Reopened? || step.Remember? || step.Close?)
    ensures SharedOk(epoch, Apply(epoch, s, step))
  {
    SameConnection(epoch, s, Apply(epoch, s, step));
  }

  lemma StepKeepsShared(epoch: Option<nat>, s: State, step: Step)
    requires SharedOk(epoch, s) && Enabled(epoch, s, step) && OwnOk(s, step)
    ensures SharedOk(epoch, Apply(epoch, s, step))
  {
    if step.Install? {
      InstallKeepsShared(epoch, s, step.call, step.epoch);
    } else if step.Reopened? || step.Remember? || step.Close? {
      HandleStepKeepsShared(epoch, s, step);
    } else {
      SameConnection(epoch, s, Apply(epoch, s, step));
    }
  }

  // ----- whole runs -----

  lemma StepKeepsInv(epoch: Option<nat>, s: State, step: Step)
    requires Inv(epoch, s) && Enabled(epoch, s, step)
    ensures Inv(epoch, Apply(epoch, s, step))
  {
    var s' := Apply(epoch, s, step);
    StepKeepsShared(epoch, s, step);
    StepLeaves(epoch, s, step);
    forall id | id in s'.calls ensures CallOk(s', id, s'.calls[id]) {
      if step.Close? {
        CloseKeeps(s, s', id, s.calls[id]);
      } else if id == step.call {
        StepKeepsOwn(epoch, s, step);
      } else {
        StepMovesOneCall(epoch, s, step, id);
        OthersKeep(s, s', step.call, id, s.calls[id]);
      }
    }
  }

  /** Closing needs the handle map unlocked, so no call counts on the handle. */
  lemma CloseKeeps(s: State, s': State, id: nat, call: Call)
    requires CallOk(s, id, call) && s.writer.None? && s' == s.(handles := s'.handles)
    ensures CallOk(s', id, call)
  {
  }

  lemma {:induction false} RunKeepsInv(epoch: Option<nat>, states: seq<State>, steps: seq<Step>, i: nat)
    requires IsRun(epoch, states, steps) && i < |states|
    ensures Inv(epoch, states[i])
  {
    if i > 0 {
      RunKeepsInv(epoch, states, steps, i - 1);
      StepKeepsInv(epoch, states[i - 1], steps[i - 1]);
    }
  }

  // ----- theorems -----

  /** The current generation counts the installed connections, so it rises by one with each of them and
      never otherwise, until it saturates. */
  lemma GenerationsCountConnections(epoch: Option<nat>, states: seq<State>, steps: seq<Step>, i: nat)
    requires IsRun(epoch, states, steps) && i < |steps|
    ensures states[i].slot.generation == Min(|states[i].epochs|, U64_MAX)
    ensures states[i + 1].slot.generation == if steps[i].Install? then SaturatingAdd(states[i].slot.generation, 1) else states[i].slot.generation
    ensures |states[i + 1].epochs| == |states[i].epochs| + if steps[i].Install? then 1 else 0
  {
    RunKeepsInv(epoch, states, steps, i);
    RunKeepsInv(epoch, states, steps, i + 1);
    OnlyInstallsReplace(epoch, states[i], steps[i]);
  }

  lemma OnlyInstallsReplace(epoch: Option<nat>, s: State, step: Step)
    requires Enabled(epoch, s, step)
    ensures var s' := Apply(epoch, s, step);
            if step.Install? then |s'.epochs| == |s.epochs| + 1 else s'.slot == s.slot && s'.epochs == s.epochs
  {
  }

  /** A connection is replaced only after its generation was marked failed, and that only after a request
      over it failed in transport. Every connection ever installed has the epoch first reported. */
  lemma ReplacedOnlyAfterFailure(epoch: Option<nat>, states: seq<State>, steps: seq<Step>, i: nat)
    requires IsRun(epoch, states, steps) && i < |states|
    ensures forall c :: 0 <= c < |states[i].epochs| - 1 ==> GenerationOf(c) in states[i].marked
    ensures states[i].marked <= states[i].broken
    ensures epoch.Some? ==> forall c :: 0 <= c < |states[i].epochs| ==> states[i].epochs[c] == epoch
  {
    RunKeepsInv(epoch, states, steps, i);
  }

  /** `remote_handle` pairs a handle with the connection that issued it. */
  lemma ResolvedHandleMatches(epoch: Option<nat>, states: seq<State>, steps: seq<Step>, i: nat, id: nat)
    requires IsRun(epoch, states, steps) && i < |states| && id in states[i].calls && states[i].calls[id].pc.Pair?
    ensures var Pair(slot, handle) := states[i].calls[id].pc;
            handle.generation == slot.generation && (slot.generation < U64_MAX ==> handle.issuer == slot.connection)
  {
    RunKeepsInv(epoch, states, steps, i);
    var Pair(slot, handle) := states[i].calls[id].pc;
    if slot.generation < U64_MAX {
      PairIsOneConnection(states[i], slot, handle);
    }
  }

  /** A call sends at most one mutation, write or truncating opening, and a write only over the
      connection that issued its handle. */
  lemma MutationsAreSentOnce(epoch: Option<nat>, states: seq<State>, steps: seq<Step>, i: nat, id: nat)
    requires IsRun(epoch, states, steps) && i < |states| && id in states[i].calls
    ensures AtMostOne(states[i].calls[id].log) && ToIssuer(states[i].calls[id].log)
  {
    RunKeepsInv(epoch, states, steps, i);
  }

  /** At most one call at a time is reconnecting. */
  lemma OneReconnects(epoch: Option<nat>, states: seq<State>, steps: seq<Step>, i: nat, a: nat, b: nat)
    requires IsRun(epoch, states, steps) && i < |states| && a in states[i].calls && b in states[i].calls
    requires HoldsMutex(states[i].calls[a].pc) && HoldsMutex(states[i].calls[b].pc)
    ensures a == b
  {
    RunKeepsInv(epoch, states, steps, i);
  }

  // ----- a failed generation is not used again -----

  /** The call gave generation `g` up: it waits to replace it, or goes on over another one, or has ended. */
  predicate GaveUp(s: State, id: nat, g: u64) {
    && id in s.calls
    && match s.calls[id].pc {
         case Queued(goal, failed) => (goal.Use? || goal.Open?) && failed == g
         case Checking(goal, failed) => (goal.Use? || goal.Open?) && failed == g
         case Connecting(goal, failed) => (goal.Use? || goal.Open?) && failed == g
         case Clearing(goal, slot) => (goal.Use? || goal.Open?) && slot.generation != g
         case Have(goal, slot) => (goal.Use? || goal.Open?) && slot.generation != g
         case Awaiting(goal, slot) => (goal.Use? || goal.Open?) && slot.generation != g
         case Marking(goal, slot) => (goal.Use? || goal.Open?) && slot.generation != g
         case Opened(_) => true
         case Done => true
         case _ => false
       }
  }

  /** The step makes the call send a request over generation `g`. */
  predicate SendsOver(s: State, s': State, id: nat, g: u64) {
    && id in s.calls && id in s'.calls && |s'.calls[id].log| > |s.calls[id].log|
    && s'.calls[id].log[|s'.calls[id].log| - 1].slot.generation == g
  }

  lemma CallsStay(epoch: Option<nat>, s: State, step: Step, id: nat)
    requires Enabled(epoch, s, step) && id in s.calls
    ensures id in Apply(epoch, s, step).calls
  {
  }

  lemma MarkGivesUp(epoch: Option<nat>, s: State, id: nat)
    requires Enabled(epoch, s, Mark(id))
    ensures GaveUp(Apply(epoch, s, Mark(id)), id, s.calls[id].pc.slot.generation)
  {
  }

  lemma StillGaveUp(epoch: Option<nat>, s: State, step: Step, id: nat, g: u64)
    requires Enabled(epoch, s, step) && GaveUp(s, id, g) && g < U64_MAX && s.failed == g && Apply(epoch, s, step).failed == g
    ensures GaveUp(Apply(epoch, s, step), id, g)
  {
    if step.Close? || step.call != id {
      CallsStay(epoch, s, step, id);
      StepMovesOneCall(epoch, s, step, id);
    }
  }

  lemma SendsOverAnother(epoch: Option<nat>, s: State, step: Step, id: nat, g: u64)
    requires Enabled(epoch, s, step) && GaveUp(s, id, g)
    ensures !SendsOver(s, Apply(epoch, s, step), id, g)
  {
    if step.Close? || step.call != id {
      CallsStay(epoch, s, step, id);
      StepMovesOneCall(epoch, s, step, id);
    }
  }

  lemma {:induction false} StaysGivenUp(epoch: Option<nat>, states: seq<State>, steps: seq<Step>, m: nat, n: nat, id: nat, g: u64)
    requires IsRun(epoch, states, steps) && m < n < |states| && steps[m] == Mark(id) && states[m].calls[id].pc.slot.generation == g < U64_MAX
    requires forall k :: m < k <= n ==> states[k].failed == g
    ensures GaveUp(states[n], id, g)
  {
    if n == m + 1 {
      MarkGivesUp(epoch, states[m], id);
    } else {
      StaysGivenUp(epoch, states, steps, m, n - 1, id, g);
      StillGaveUp(epoch, states[n - 1], steps[n - 1], id, g);
    }
  }

  /** A call that marked a generation failed sends over it again only if the mark was lifted or moved to
      another generation in the meantime. */
  lemma NoRetryOverMarkedGeneration(epoch: Option<nat>, states: seq<State>, steps: seq<Step>, m: nat, n: nat, id: nat, g: u64) returns (k: nat)
    requires IsRun(epoch, states, steps) && m < n < |steps| && steps[m] == Mark(id) && states[m].calls[id].pc.slot.generation == g < U64_MAX
    requires SendsOver(states[n], states[n + 1], id, g)
    ensures m < k <= n && states[k].failed != g
  {
    if forall i :: m < i <= n ==> states[i].failed == g {
      StaysGivenUp(epoch, states, steps, m, n, id, g);
      SendsOverAnother(epoch, states[n], steps[n], id, g);
      assert false;
    } else {
      k :| m < k <= n && states[k].failed != g;
    }
  }

  /** A queued call for the current generation, marked failed, with nobody reconnecting, replaces it in
      steps of its own, lifts the mark, frees the mutex and then goes on over the new connection. If the
      generation is no longer current or no longer marked it goes on over the current one instead. */
  lemma QueuedCallReconnects(epoch: Option<nat>, s: State, id: nat)
    requires id in s.calls && s.calls[id].pc.Queued? && s.mutex.None?
    ensures Enabled(epoch, s, Lock(id))
    ensures Enabled(epoch, Apply(epoch, s, Lock(id)), Check(id))
    ensures var (Queued(goal, g), s2) := (s.calls[id].pc, Apply(epoch, Apply(epoch, s, Lock(id)), Check(id)));
            if s.slot.generation == g && s.failed == g then
              && Enabled(epoch, s2, Install(id, epoch)) && s2.mutex == Some(id)
              && var s3 := Apply(epoch, s2, Install(id, epoch));
              && s3.slot == Slot(SaturatingAdd(g, 1), |s.epochs|) && Enabled(epoch, s3, Clear(id))
              && var s4 := Apply(epoch, s3, Clear(id));
              && s4.failed == 0 && s4.mutex.None? && s4.slot == s3.slot && s4.calls[id].pc == Have(goal, s3.slot)
            else
              s2.calls[id].pc == Have(goal, s.slot) && s2.mutex.None? && s2.slot == s.slot && s2.failed == s.failed
  {
  }

  // ----- locks are given back -----

  /** Whoever holds the mutex or the handle map is a call that is still at it. */
  ghost predicate Held(s: State) {
    && (s.mutex.Some? ==> s.mutex.value in s.calls && HoldsMutex(s.calls[s.mutex.value].pc))
    && (s.writer.Some? ==> s.writer.value in s.calls && HoldsWriter(s.calls[s.writer.value].pc))
  }

  lemma ConnectionStepKeepsHeld(epoch: Option<nat>, s: State, step: Step)
    requires OwnOk(s, step) && Held(s) && Enabled(epoch, s, step) && IsConnectionStep(step)
    ensures Held(Apply(epoch, s, step))
  {
  }

  lemma RequestStepKeepsHeld(epoch: Option<nat>, s: State, step: Step)
    requires OwnOk(s, step) && Held(s) && Enabled(epoch, s, step) && IsRequestStep(step)
    ensures Held(Apply(epoch, s, step))
  {
  }

  lemma HandleStepKeepsHeld(epoch: Option<nat>, s: State, step: Step)
    requires OwnOk(s, step) && Held(s) && Enabled(epoch, s, step) && !IsConnectionStep(step) && !IsRequestStep(step)
    ensures Held(Apply(epoch, s, step))
  {
  }

  lemma StepKeepsHeld(epoch: Option<nat>, s: State, step: Step)
    requires OwnOk(s, step) && Held(s) && Enabled(epoch, s, step)
    ensures Held(Apply(epoch, s, step))
  {
    if IsConnectionStep(step) {
      ConnectionStepKeepsHeld(epoch, s, step);
    } else if IsRequestStep(step) {
      RequestStepKeepsHeld(epoch, s, step);
    } else {
      HandleStepKeepsHeld(epoch, s, step);
    }
  }

  lemma {:induction false} RunKeepsHeld(epoch: Option<nat>, states: seq<State>, steps: seq<Step>, i: nat)
    requires IsRun(epoch, states, steps) && i < |states|
    ensures Held(states[i])
  {
    if i > 0 {
      RunKeepsHeld(epoch, states, steps, i - 1);
      RunKeepsInv(epoch, states, steps, i - 1);
      StepKeepsHeld(epoch, states[i - 1], steps[i - 1]);
    }
  }

  /** The reconnect mutex is never left behind: while it is taken, the call that took it has a step. */
  lemma MutexHolderCanStep(epoch: Option<nat>, states: seq<State>, steps: seq<Step>, i: nat)
    requires IsRun(epoch, states, steps) && i < |states| && states[i].mutex.Some?
    ensures var (s, id) := (states[i], states[i].mutex.value);
            Enabled(epoch, s, Check(id)) || Enabled(epoch, s, Install(id, epoch)) || Enabled(epoch, s, Clear(id))
  {
    RunKeepsHeld(epoch, states, steps, i);
  }
}
