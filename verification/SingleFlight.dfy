/**
 The single-flight gate in front of every block fetch, over all interleavings of
 callers. A fetch cell is initialised by one caller at a time; a caller may be
 dropped at any point, in which case another one takes the initialisation over.
 */
module SingleFlight {
  import opened Common
  import opened Ranges

  datatype FetchResult = Success(data: Bytes) | Failure(error: nat)

  datatype Progress = Empty | Running(initialiser: nat) | Full(result: FetchResult)

  datatype Cell = Cell(key: RangeKey, progress: Progress)

  /** `Joined`: holds the cell and waits for it. `Reading`: runs the initialisation, with at most one
      remote read. `Leaving`: has the result, not yet removed the registration. */
  datatype Caller = Joined(cell: nat) | Reading(cell: nat) | Leaving(cell: nat)

  datatype State = State(
    registered: map<RangeKey, nat>,
    cells: map<nat, Cell>,
    callers: map<nat, Caller>,
    returned: map<nat, (nat, FetchResult)>)

  const INITIAL := State(map[], map[], map[], map[])

  datatype Step =
    | Enter(caller: nat, key: RangeKey, unused: nat)
    | Start(caller: nat)
    | Finish(caller: nat, result: FetchResult)
    | Observe(caller: nat)
    | Leave(caller: nat)
    | Drop(caller: nat)

  predicate Enabled(s: State, step: Step) {
    match step
    case Enter(caller, key, unused) => caller !in s.callers && caller !in s.returned && unused !in s.cells
    case Start(caller) =>
      caller in s.callers && s.callers[caller].Joined? && s.callers[caller].cell in s.cells
      && s.cells[s.callers[caller].cell].progress.Empty?
    case Finish(caller, _) => caller in s.callers && s.callers[caller].Reading? && s.callers[caller].cell in s.cells
    case Observe(caller) =>
      caller in s.callers && s.callers[caller].Joined? && s.callers[caller].cell in s.cells
      && s.cells[s.callers[caller].cell].progress.Full?
    case Leave(caller) =>
      caller in s.callers && s.callers[caller].Leaving? && s.callers[caller].cell in s.cells
      && s.cells[s.callers[caller].cell].progress.Full?
    case Drop(caller) => caller in s.callers && s.callers[caller].cell in s.cells
  }

  function SetProgress(s: State, cell: nat, progress: Progress): map<nat, Cell>
    requires cell in s.cells
  {
    s.cells[cell := s.cells[cell].(progress := progress)]
  }

  function Apply(s: State, step: Step): State
    requires Enabled(s, step)
  {
    match step
    case Enter(caller, key, unused) =>
      if key in s.registered then s.(callers := s.callers[caller := Joined(s.registered[key])])
      else s.(registered := s.registered[key := unused], cells := s.cells[unused := Cell(key, Empty)],
              callers := s.callers[caller := Joined(unused)])
    case Start(caller) =>
      var cell := s.callers[caller].cell;
      s.(cells := SetProgress(s, cell, Running(caller)), callers := s.callers[caller := Reading(cell)])
    case Finish(caller, result) =>
      var cell := s.callers[caller].cell;
      s.(cells := SetProgress(s, cell, Full(result)), callers := s.callers[caller := Leaving(cell)])
    case Observe(caller) => s.(callers := s.callers[caller := Leaving(s.callers[caller].cell)])
    case Leave(caller) =>
      var cell := s.callers[caller].cell;
      var key := s.cells[cell].key;
      s.(registered := if key in s.registered && s.registered[key] == cell then s.registered - {key} else s.registered,
         callers := s.callers - {caller},
         returned := s.returned[caller := (cell, s.cells[cell].progress.result)])
    case Drop(caller) =>
      var cell := s.callers[caller].cell;
      s.(cells := if s.callers[caller].Reading? then SetProgress(s, cell, Empty) else s.cells,
         callers := s.callers - {caller})
  }

  ghost predicate IsRun(states: seq<State>, steps: seq<Step>) {
    && |states| == |steps| + 1 && states[0] == INITIAL
    && forall i {:trigger steps[i]} :: 0 <= i < |steps| ==> Enabled(states[i], steps[i]) && states[i + 1] == Apply(states[i], steps[i])
  }

  // ----- what every interleaving keeps -----

  /** A registration points at a cell for its key, and a cell stays registered until it is full. */
  ghost predicate CellsInv(s: State) {
    && (forall k :: k in s.registered ==> s.registered[k] in s.cells && s.cells[s.registered[k]].key == k)
    && (forall c :: c in s.cells && !s.cells[c].progress.Full? ==>
          s.cells[c].key in s.registered && s.registered[s.cells[c].key] == c)
    && (forall c :: c in s.cells && s.cells[c].progress.Running? ==>
          s.cells[c].progress.initialiser in s.callers && s.callers[s.cells[c].progress.initialiser] == Reading(c))
  }

  ghost predicate CallersInv(s: State) {
    forall a :: a in s.callers ==>
      && s.callers[a].cell in s.cells
      && (s.callers[a].Reading? ==> s.cells[s.callers[a].cell].progress == Running(a))
      && (s.callers[a].Leaving? ==> s.cells[s.callers[a].cell].progress.Full?)
  }

  ghost predicate ReturnedInv(s: State) {
    forall a :: a in s.returned ==>
      s.returned[a].0 in s.cells && s.cells[s.returned[a].0].progress == Full(s.returned[a].1)
  }

  /** No registration points at a cell from which some caller has returned, and nobody returns twice. */
  ghost predicate GoneInv(s: State) {
    && (forall k, a :: k in s.registered && a in s.returned ==> s.registered[k] != s.returned[a].0)
    && (forall a :: a in s.callers ==> a !in s.returned)
  }

  ghost predicate Inv(s: State) { CellsInv(s) && CallersInv(s) && ReturnedInv(s) && GoneInv(s) }

  lemma StepKeepsCells(s: State, step: Step)
    requires Inv(s) && Enabled(s, step)
    ensures CellsInv(Apply(s, step))
  {
    match step
    case Enter(caller, key, _) =>
    case Start(caller) =>
    case Finish(caller, _) =>
    case Observe(caller) =>
    case Leave(caller) =>
    case Drop(caller) =>
  }

  lemma StepKeepsCallers(s: State, step: Step)
    requires Inv(s) && Enabled(s, step)
    ensures CallersInv(Apply(s, step)) && ReturnedInv(Apply(s, step))
  {
    match step
    case Enter(caller, key, _) =>
    case Start(caller) =>
    case Finish(caller, _) =>
    case Observe(caller) =>
    case Leave(caller) =>
    case Drop(caller) =>
  }

  lemma StepKeepsGone(s: State, step: Step)
    requires Inv(s) && Enabled(s, step)
    ensures GoneInv(Apply(s, step))
  {
    match step
    case Enter(caller, key, _) =>
    case Start(caller) =>
    case Finish(caller, _) =>
    case Observe(caller) =>
    case Leave(caller) =>
    case Drop(caller) =>
  }

  lemma {:induction false} RunKeepsInv(states: seq<State>, steps: seq<Step>, i: nat)
    requires IsRun(states, steps) && i < |states|
    ensures Inv(states[i])
  {
    if i > 0 {
      RunKeepsInv(states, steps, i - 1);
      StepKeepsCells(states[i - 1], steps[i - 1]);
      StepKeepsCallers(states[i - 1], steps[i - 1]);
      StepKeepsGone(states[i - 1], steps[i - 1]);
    }
  }

  /** At most one unfinished fetch per block exists, so at most one caller is reading it remotely. */
  lemma OneFlightPerBlock(states: seq<State>, steps: seq<Step>, i: nat, a: nat, b: nat)
    requires IsRun(states, steps) && i < |states|
    ensures var s := states[i];
            (a in s.cells && b in s.cells && s.cells[a].key == s.cells[b].key
             && !s.cells[a].progress.Full? && !s.cells[b].progress.Full?) ==> a == b
    ensures var s := states[i];
            (a in s.callers && b in s.callers && s.callers[a].Reading? && s.callers[b].Reading?
             && s.callers[a].cell in s.cells && s.callers[b].cell in s.cells
             && s.cells[s.callers[a].cell].key == s.cells[s.callers[b].cell].key) ==> a == b
  {
    RunKeepsInv(states, steps, i);
  }

  /** Every two callers that shared a fetch got the same success or the same failure. */
  lemma SharersAgree(states: seq<State>, steps: seq<Step>, i: nat, a: nat, b: nat)
    requires IsRun(states, steps) && i < |states|
    requires a in states[i].returned && b in states[i].returned && states[i].returned[a].0 == states[i].returned[b].0
    ensures states[i].returned[a].1 == states[i].returned[b].1
  {
    RunKeepsInv(states, steps, i);
  }

  // ----- who shares -----

  /** The registration of a key never points at a cell from which some caller has returned. */
  lemma RegistrationsAreOpen(states: seq<State>, steps: seq<Step>, i: nat, k: RangeKey, a: nat)
    requires IsRun(states, steps) && i < |states| && k in states[i].registered && a in states[i].returned
    ensures states[i].registered[k] != states[i].returned[a].0
  {
    RunKeepsInv(states, steps, i);
  }

  /** `b` has nothing to do with the cell `a` returned from. */
  predicate Apart(s: State, a: nat, b: nat) {
    && a in s.returned
    && (b in s.callers ==> s.callers[b].cell != s.returned[a].0)
    && (b in s.returned ==> s.returned[b].0 != s.returned[a].0)
  }

  lemma EnteringIsApart(s: State, step: Step, a: nat)
    requires Inv(s) && Enabled(s, step) && a in s.returned && step.Enter?
    ensures Apart(Apply(s, step), a, step.caller)
  {
  }

  lemma StepKeepsApart(s: State, step: Step, a: nat, b: nat)
    requires Inv(s) && Enabled(s, step) && Apart(s, a, b)
    ensures Apart(Apply(s, step), a, b)
  {
    match step
    case Enter(caller, key, _) =>
    case Start(caller) =>
    case Finish(caller, _) =>
    case Observe(caller) =>
    case Leave(caller) =>
    case Drop(caller) =>
  }

  lemma StepKeepsReturned(s: State, step: Step, a: nat)
    requires GoneInv(s) && Enabled(s, step) && a in s.returned
    ensures a in Apply(s, step).returned && Apply(s, step).returned[a] == s.returned[a]
  {
  }

  lemma {:induction false} ReturnsAreFinal(states: seq<State>, steps: seq<Step>, i: nat, j: nat, a: nat)
    requires IsRun(states, steps) && i <= j < |states| && a in states[i].returned
    ensures a in states[j].returned && states[j].returned[a] == states[i].returned[a]
  {
    if i < j {
      ReturnsAreFinal(states, steps, i, j - 1, a);
      RunKeepsInv(states, steps, j - 1);
      StepKeepsReturned(states[j - 1], steps[j - 1], a);
    }
  }

  lemma {:induction false} ApartForGood(states: seq<State>, steps: seq<Step>, j: nat, n: nat, a: nat)
    requires IsRun(states, steps) && j < n < |states| && steps[j].Enter? && a in states[j].returned
    ensures Apart(states[n], a, steps[j].caller)
  {
    RunKeepsInv(states, steps, n - 1);
    if n - 1 == j {
      EnteringIsApart(states[j], steps[j], a);
    } else {
      ApartForGood(states, steps, j, n - 1, a);
      StepKeepsApart(states[n - 1], steps[n - 1], a, steps[j].caller);
    }
  }

  /** A caller that enters after another one returned never shares that one's cell. */
  lemma LateCallersFetchAnew(states: seq<State>, steps: seq<Step>, i: nat, j: nat, n: nat, a: nat)
    requires IsRun(states, steps) && i <= j < n < |states| && a in states[i].returned && steps[j].Enter?
    ensures var (s, b) := (states[n], steps[j].caller);
            && a in s.returned && s.returned[a] == states[i].returned[a]
            && (b in s.callers ==> s.callers[b].cell != s.returned[a].0)
            && (b in s.returned ==> s.returned[b].0 != s.returned[a].0)
  {
    ReturnsAreFinal(states, steps, i, j, a);
    ReturnsAreFinal(states, steps, i, n, a);
    ApartForGood(states, steps, j, n, a);
  }

  /** So the two callers of a shared fetch overlapped: neither had returned when the other entered. */
  lemma SharersOverlapped(states: seq<State>, steps: seq<Step>, n: nat, a: nat, b: nat, j: nat)
    requires IsRun(states, steps) && j < n < |states| && a != b
    requires a in states[n].returned && b in states[n].returned && states[n].returned[a].0 == states[n].returned[b].0
    requires steps[j].Enter? && steps[j].caller in {a, b}
    ensures a !in states[j].returned && b !in states[j].returned
  {
    var other := if steps[j].caller == a then b else a;
    if other in states[j].returned {
      ApartForGood(states, steps, j, n, other);
    }
  }

  // ----- what they share -----

  /** A reader of the cell reported this result before step `n`. */
  ghost predicate Reported(states: seq<State>, steps: seq<Step>, n: nat, cell: nat, result: FetchResult)
    requires n <= |steps| < |states|
  {
    exists j :: 0 <= j < n && Reports(states[j], steps[j], cell, result)
  }

  predicate Reports(s: State, step: Step, cell: nat, result: FetchResult) {
    step.Finish? && step.result == result && step.caller in s.callers && s.callers[step.caller] == Reading(cell)
  }

  /** A cell keeps its key, and is filled by the report of its reader only. */
  lemma StepKeepsCell(s: State, step: Step, cell: nat)
    requires Inv(s) && Enabled(s, step) && cell in Apply(s, step).cells
    ensures var after := Apply(s, step).cells[cell];
            && (cell in s.cells ==> after.key == s.cells[cell].key)
            && (after.progress.Full? ==> (cell in s.cells && s.cells[cell] == after) || Reports(s, step, cell, after.progress.result))
  {
  }

  lemma {:induction false} FullCellsWereFetched(states: seq<State>, steps: seq<Step>, n: nat, cell: nat)
    requires IsRun(states, steps) && n < |states| && cell in states[n].cells && states[n].cells[cell].progress.Full?
    ensures Reported(states, steps, n, cell, states[n].cells[cell].progress.result)
  {
    RunKeepsInv(states, steps, n - 1);
    StepKeepsCell(states[n - 1], steps[n - 1], cell);
    var result := states[n].cells[cell].progress.result;
    if Reports(states[n - 1], steps[n - 1], cell, result) {
    } else {
      FullCellsWereFetched(states, steps, n - 1, cell);
      var j :| 0 <= j < n - 1 && Reports(states[j], steps[j], cell, result);
      assert Reports(states[j], steps[j], cell, result);
    }
  }

  /** The block a caller last asked for. */
  ghost function AskedFor(steps: seq<Step>, n: nat, a: nat): Option<RangeKey>
    requires n <= |steps|
  {
    if n == 0 then None
    else if steps[n - 1].Enter? && steps[n - 1].caller == a then Some(steps[n - 1].key)
    else AskedFor(steps, n - 1, a)
  }

  /** Every caller, still there or gone, has to do with a cell for the block it asked for. */
  ghost predicate Fits(s: State, a: nat, asked: Option<RangeKey>) {
    && (a in s.callers ==> s.callers[a].cell in s.cells && asked == Some(s.cells[s.callers[a].cell].key))
    && (a in s.returned ==> s.returned[a].0 in s.cells && asked == Some(s.cells[s.returned[a].0].key))
  }

  lemma StepFits(s: State, step: Step, a: nat, asked: Option<RangeKey>)
    requires Inv(s) && Enabled(s, step) && Fits(s, a, asked)
    ensures Fits(Apply(s, step), a, if step.Enter? && step.caller == a then Some(step.key) else asked)
  {
    match step
    case Enter(caller, key, _) =>
    case Start(caller) =>
    case Finish(caller, _) =>
    case Observe(caller) =>
    case Leave(caller) =>
    case Drop(caller) =>
  }

  lemma {:induction false} CallersFit(states: seq<State>, steps: seq<Step>, n: nat, a: nat)
    requires IsRun(states, steps) && n < |states|
    ensures Fits(states[n], a, AskedFor(steps, n, a))
  {
    if n > 0 {
      CallersFit(states, steps, n - 1, a);
      RunKeepsInv(states, steps, n - 1);
      StepFits(states[n - 1], steps[n - 1], a, AskedFor(steps, n - 1, a));
    }
  }

  /** Whatever a caller got, a reader of the block it asked for reported exactly that. */
  lemma ResultsComeFromTheFetch(states: seq<State>, steps: seq<Step>, n: nat, a: nat)
    requires IsRun(states, steps) && n < |states| && a in states[n].returned
    ensures var (cell, result) := states[n].returned[a];
            && cell in states[n].cells && AskedFor(steps, n, a) == Some(states[n].cells[cell].key)
            && Reported(states, steps, n, cell, result)
  {
    RunKeepsInv(states, steps, n);
    CallersFit(states, steps, n, a);
    FullCellsWereFetched(states, steps, n, states[n].returned[a].0);
  }

  /** A dropped initialiser never strands the others: whoever has joined a cell can start it, take its
      result, or is waiting for a caller that is still there. */
  lemma JoinedCallersAreNeverStranded(states: seq<State>, steps: seq<Step>, i: nat, a: nat)
    requires IsRun(states, steps) && i < |states|
    requires a in states[i].callers && states[i].callers[a].Joined?
    ensures || Enabled(states[i], Start(a))
            || Enabled(states[i], Observe(a))
            || exists b :: b in states[i].callers && states[i].callers[b] == Reading(states[i].callers[a].cell)
  {
    RunKeepsInv(states, steps, i);
    var s := states[i];
    if s.cells[s.callers[a].cell].progress.Running? {
      assert s.callers[s.cells[s.callers[a].cell].progress.initialiser] == Reading(s.callers[a].cell);
    }
  }
}
