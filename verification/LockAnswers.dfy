/**
 What `set_lock` answers, over every run of the lock protocol: who waits, who is
 turned away, who is told that the table is full, and what the table shows when a
 request is granted.
 */
module LockAnswers {
  import opened Common
  import opened StableSort
  import opened LockTable
  import opened LockProtocol

  // ----- a merged table is determined by its meaning -----

  /** The record of a merged table that has a byte ends where the grant ends. */
  lemma EndsWithGrant(t: seq<LockRecord>, r: LockRecord, b: u64)
    requires WellFormed(t) && FullyMerged(t) && r in t && b == r.lock.end + 1 && b <= U64_MAX
    ensures !HeldAt(t, r.Who(), b, r.What())
  {
    if HeldAt(t, r.Who(), b, r.What()) {
      var x :| x in t && x.Covers(r.Who(), b) && x.What() == r.What();
      InOrder(t, r, x);
      assert Mergeable(r, x);
      assert false;
    }
  }

  lemma BeginsWithGrant(t: seq<LockRecord>, r: LockRecord, b: u64)
    requires WellFormed(t) && FullyMerged(t) && r in t && b + 1 == r.lock.start
    ensures !HeldAt(t, r.Who(), b, r.What())
  {
    if HeldAt(t, r.Who(), b, r.What()) {
      var x :| x in t && x.Covers(r.Who(), b) && x.What() == r.What();
      InOrder(t, x, r);
      assert Mergeable(x, r);
      assert false;
    }
  }

  /** Two different records of one holder are apart. */
  lemma InOrder(t: seq<LockRecord>, a: LockRecord, b: LockRecord)
    requires WellFormed(t) && a in t && b in t && a != b
    ensures Apart(a, b) && Apart(b, a)
  {
    var i :| 0 <= i < |t| && t[i] == a;
    var j :| 0 <= j < |t| && t[j] == b;
    assert i < j ==> Apart(t[i], t[j]);
    assert j < i ==> Apart(t[j], t[i]);
  }

  lemma RecordHolds(t: seq<LockRecord>, r: LockRecord, b: u64)
    requires r in t && r.lock.start <= b <= r.lock.end
    ensures HeldAt(t, r.Who(), b, r.What())
  {
    assert r.Covers(r.Who(), b);
  }

  /** Two merged tables that mean the same have the same records. */
  lemma SameRecords(t: seq<LockRecord>, t': seq<LockRecord>, r: LockRecord)
    requires WellFormed(t) && FullyMerged(t) && WellFormed(t') && FullyMerged(t') && Agree(t, t') && r in t
    ensures r in t'
  {
    RecordHolds(t, r, r.lock.start);
    var x :| x in t' && x.Covers(r.Who(), r.lock.start) && x.What() == r.What();
    if x.lock.start < r.lock.start {
      RecordHolds(t', x, r.lock.start - 1);
      BeginsWithGrant(t, r, r.lock.start - 1);
      assert false;
    }
    if r.lock.end < x.lock.end {
      RecordHolds(t', x, r.lock.end + 1);
      EndsWithGrant(t, r, r.lock.end + 1);
      assert false;
    }
    if x.lock.end < r.lock.end {
      RecordHolds(t, r, x.lock.end + 1);
      EndsWithGrant(t', x, x.lock.end + 1);
      assert false;
    }
    assert x == r;
  }

  function Records(t: seq<LockRecord>): set<LockRecord> { set r | r in t }

  lemma {:induction false} LengthIsSize(t: seq<LockRecord>)
    requires WellFormed(t)
    ensures |t| == |Records(t)|
  {
    if t != [] {
      var init, last := t[..|t| - 1], t[|t| - 1];
      assert t == init + [last];
      assert WellFormed(init) by {
        assert forall i, j :: 0 <= i < j < |init| ==> Apart(init[i], init[j]) by {
          assert forall i, j :: 0 <= i < j < |init| ==> init[i] == t[i] && init[j] == t[j];
        }
      }
      LengthIsSize(init);
      assert last !in init;
      assert Records(t) == Records(init) + {last};
    }
  }

  /** So they have equally many. */
  lemma SameLength(t: seq<LockRecord>, t': seq<LockRecord>)
    requires WellFormed(t) && FullyMerged(t) && WellFormed(t') && FullyMerged(t') && Agree(t, t')
    ensures |t| == |t'|
  {
    assert Agree(t', t);
    forall r | r in t ensures r in t' { SameRecords(t, t', r); }
    forall r | r in t' ensures r in t { SameRecords(t', t, r); }
    assert Records(t) == Records(t');
    LengthIsSize(t);
    LengthIsSize(t');
  }

  // ----- one attempt -----

  /** Another holder has an incompatible grant on a requested byte. */
  ghost predicate Obstructed(t: seq<LockRecord>, c: Call) {
    exists h: Holder, b: u64, g: Grant ::
      && h.identity == c.identity && h != Holder(c.identity, c.session, c.requested.owner)
      && c.requested.start <= b <= c.requested.end && HeldAt(t, h, b, g) && (g.kind == Write || c.requested.kind == Write)
  }

  /** The new table is the old one with exactly the request applied. */
  ghost predicate Shows(t: seq<LockRecord>, t': seq<LockRecord>, c: Call) {
    forall h: Holder, b: u64, g: Grant ::
      HeldAt(t', h, b, g) <==> HeldAfter(t, Holder(c.identity, c.session, c.requested.owner), c.requested, c.requested.kind != Unlock, h, b, g)
  }

  lemma BlockedIsObstructed(s: State, c: Call)
    requires WellFormed(s.table) && c.requested.start <= c.requested.end
    ensures Blocked(s, c) <==> Obstructed(s.table, c)
  {
    ConflictIsPointwise(s.table, c.identity, c.session, c.requested);
  }

  /** A table that obstructs a request does not already show it. */
  lemma ObstructedIsNotShown(t: seq<LockRecord>, c: Call)
    requires Exclusive(t) && Obstructed(t, c) && c.requested.kind != Unlock
    ensures !Shows(t, t, c)
  {
    var who := Holder(c.identity, c.session, c.requested.owner);
    var h: Holder, b: u64, g: Grant :|
      h.identity == c.identity && h != who && c.requested.start <= b <= c.requested.end && HeldAt(t, h, b, g)
      && (g.kind == Write || c.requested.kind == Write);
    var mine := Grant(c.requested.kind, c.requested.pid);
    assert HeldAfter(t, who, c.requested, true, who, b, mine);
    assert !HeldAt(t, who, b, mine);
  }

  /** A table with no room for a request does not already show it. */
  lemma FullIsNotShown(t: seq<LockRecord>, c: Call)
    requires WellFormed(t) && FullyMerged(t) && |t| <= MAX_LOCK_RECORDS && c.requested.start <= c.requested.end
    requires ReplaceOwnerRange(t, c.identity, c.session, c.requested, c.requested.kind != Unlock).Err?
    ensures !Shows(t, t, c)
  {
    var who, insert := Holder(c.identity, c.session, c.requested.owner), c.requested.kind != Unlock;
    var unmerged := Unmerged(t, who, c.requested, insert);
    UnmergedIsWellFormed(t, who, c.requested, insert);
    MergeIsExact(unmerged);
    forall h: Holder, b: u64, g: Grant ensures HeldAt(Merge(unmerged), h, b, g) <==> HeldAfter(t, who, c.requested, insert, h, b, g) {
      UnmergedIsPointwise(t, who, c.requested, insert, h, b, g);
    }
    if Shows(t, t, c) {
      assert Agree(Merge(unmerged), t);
      SameLength(Merge(unmerged), t);
      assert false;
    }
  }

  /** What one attempt of call `id` comes to: it parks exactly if it waits and is obstructed; it is turned
      away exactly if it does not wait and is obstructed; and it is granted exactly if the table then
      shows its request. An unlock is never obstructed. */
  ghost predicate Right(s: State, s': State, id: nat)
    requires id in s.calls
  {
    var c := s.calls[id];
    var obstructed := c.requested.kind != Unlock && Obstructed(s.table, c);
    && (id in s'.calls <==> obstructed && c.wait)
    && (id in s'.calls ==> s'.calls[id].phase.Parked? && s'.calls[id].wait && s'.table == s.table && id !in s'.answers)
    && (id !in s'.calls ==>
          && id in s'.answers
          && (s'.answers[id] == WouldBlock <==> obstructed && !c.wait)
          && (s'.answers[id] == Granted <==> Shows(s.table, s'.table, c))
          && (s'.answers[id] != Granted ==> s'.table == s.table))
  }

  /** The verdict is right about the request. */
  ghost predicate Just(t: seq<LockRecord>, c: Call, v: Verdict) {
    var obstructed := c.requested.kind != Unlock && Obstructed(t, c);
    && (v.Park? <==> obstructed && c.wait)
    && (v.Refuse? <==> obstructed && !c.wait)
    && (if v.Lock? then Shows(t, v.table, c) else !v.Park? ==> !Shows(t, t, c))
  }

  lemma VerdictIsJust(s: State, c: Call)
    requires TableInv(s) && FullyMerged(s.table) && c.requested.start <= c.requested.end
    ensures Just(s.table, c, Decide(s.table, c))
  {
    var insert := c.requested.kind != Unlock;
    BlockedIsObstructed(s, c);
    var r := ReplaceOwnerRange(s.table, c.identity, c.session, c.requested, insert);
    if insert && Blocked(s, c) {
      ObstructedIsNotShown(s.table, c);
    } else if r.Ok? {
      ReplaceIsExact(s.table, c.identity, c.session, c.requested, insert);
    } else {
      FullIsNotShown(s.table, c);
    }
  }

  /** A just verdict makes the attempt come to what it should. */
  lemma JustIsRight(s: State, id: nat, v: Verdict)
    requires id in s.calls && s.calls[id].phase.Listening? && id !in s.answers && Just(s.table, s.calls[id], v)
    ensures Right(s, Conclude(s, id, v), id)
  {
  }

  lemma AttemptIsRight(s: State, id: nat)
    requires Inv(s) && FullyMerged(s.table) && Enabled(s, Attempt(id)) && id !in s.answers
    ensures Right(s, Apply(s, Attempt(id)), id)
  {
    VerdictIsJust(s, s.calls[id]);
    JustIsRight(s, id, Decide(s.table, s.calls[id]));
  }

  // ----- whole runs -----

  /** Tables stay merged, an answered call is gone, and only calls that wait are parked. */
  ghost predicate Settled(s: State) {
    && FullyMerged(s.table)
    && (forall c :: c in s.calls ==> c !in s.answers)
    && (forall c :: c in s.calls && s.calls[c].phase.Parked? ==> s.calls[c].wait)
  }

  lemma ConcludeKeepsSettled(s: State, id: nat, v: Verdict)
    requires Settled(s) && id in s.calls && s.calls[id].phase.Listening?
    requires (v.Park? ==> s.calls[id].wait) && (v.Lock? ==> FullyMerged(v.table))
    ensures Settled(Conclude(s, id, v))
  {
    ConcludeShape(s, id, v);
  }

  lemma AttemptKeepsSettled(s: State, id: nat)
    requires Inv(s) && Settled(s) && Enabled(s, Attempt(id))
    ensures Settled(AttemptLock(s, id))
  {
    var c := s.calls[id];
    ReplaceIsExact(s.table, c.identity, c.session, c.requested, c.requested.kind != Unlock);
    ConcludeKeepsSettled(s, id, Decide(s.table, c));
  }

  /** Every other step leaves the answers alone, removes records at most, and parks nobody. */
  lemma OtherStepShape(s: State, step: Step)
    requires Enabled(s, step) && !step.Attempt?
    ensures var s' := Apply(s, step);
            && s'.answers == s.answers && (forall r :: r in s'.table ==> r in s.table)
            && (forall c :: c in s'.calls ==>
                  || (c in s.calls && (s'.calls[c] == s.calls[c] || (s'.calls[c].wait == s.calls[c].wait && !s'.calls[c].phase.Parked?)))
                  || (c !in s.answers && !s'.calls[c].phase.Parked?))
  {
  }

  lemma StepKeepsSettled(s: State, step: Step)
    requires Inv(s) && Settled(s) && Enabled(s, step)
    ensures Settled(Apply(s, step))
  {
    if step.Attempt? {
      AttemptKeepsSettled(s, step.call);
    } else {
      OtherStepShape(s, step);
    }
  }

  lemma {:induction false} RunKeepsSettled(states: seq<State>, steps: seq<Step>, i: nat)
    requires IsRun(states, steps) && i < |states|
    ensures Settled(states[i])
  {
    if i > 0 {
      RunKeepsSettled(states, steps, i - 1);
      RunKeepsInv(states, steps, i - 1);
      StepKeepsSettled(states[i - 1], steps[i - 1]);
    }
  }

  /** Every attempt of every run comes to what it should. */
  lemma EveryAttemptIsRight(states: seq<State>, steps: seq<Step>, i: nat)
    requires IsRun(states, steps) && i < |steps| && steps[i].Attempt?
    ensures Right(states[i], states[i + 1], steps[i].call)
  {
    RunKeepsInv(states, steps, i);
    RunKeepsSettled(states, steps, i);
    AttemptIsRight(states[i], steps[i].call);
  }

  /** Answers are given by attempts only, and for good. */
  lemma StepAnswers(s: State, step: Step, id: nat)
    requires Settled(s) && Enabled(s, step)
    ensures id in s.answers ==> id in Apply(s, step).answers && Apply(s, step).answers[id] == s.answers[id]
    ensures id in Apply(s, step).answers && id !in s.answers ==> step == Attempt(id)
  {
    if step.Attempt? {
      ConcludeShape(s, step.call, Decide(s.table, s.calls[step.call]));
    } else {
      OtherStepShape(s, step);
    }
  }

  /** In step `k` the answer to the call stays, or an attempt of the call gives it. */
  ghost predicate AnswerStays(states: seq<State>, steps: seq<Step>, k: nat, id: nat)
    requires k < |steps| == |states| - 1
  {
    && (id in states[k].answers ==> id in states[k + 1].answers && states[k + 1].answers[id] == states[k].answers[id])
    && (id in states[k + 1].answers && id !in states[k].answers ==> steps[k] == Attempt(id) && id in states[k].calls)
  }

  lemma RunAnswers(states: seq<State>, steps: seq<Step>, k: nat, id: nat)
    requires IsRun(states, steps) && k < |steps|
    ensures AnswerStays(states, steps, k, id)
  {
    RunKeepsSettled(states, steps, k);
    StepAnswers(states[k], steps[k], id);
  }

  lemma {:induction false} AnsweredAt(states: seq<State>, steps: seq<Step>, n: nat, id: nat) returns (i: nat)
    requires n < |states| == |steps| + 1 && id in states[n].answers && id !in states[0].answers
    requires forall k :: 0 <= k < |steps| ==> AnswerStays(states, steps, k, id)
    ensures i < n && steps[i] == Attempt(id) && id in states[i].calls
    ensures id in states[i + 1].answers && states[i + 1].answers[id] == states[n].answers[id]
  {
    assert AnswerStays(states, steps, n - 1, id);
    if id in states[n - 1].answers {
      i := AnsweredAt(states, steps, n - 1, id);
    } else {
      i := n - 1;
    }
  }

  /** Whatever a call was answered, one attempt of its own answered it, rightly: a refusal met an
      incompatible grant and a call that does not wait, and a granted request was then in the table. */
  lemma EveryAnswerWasRight(states: seq<State>, steps: seq<Step>, n: nat, id: nat) returns (i: nat)
    requires IsRun(states, steps) && n < |states| && id in states[n].answers
    ensures i < n && steps[i] == Attempt(id) && id in states[i].calls
    ensures Right(states[i], states[i + 1], id) && id in states[i + 1].answers && states[i + 1].answers[id] == states[n].answers[id]
  {
    forall k | 0 <= k < |steps| ensures AnswerStays(states, steps, k, id) {
      RunAnswers(states, steps, k, id);
    }
    i := AnsweredAt(states, steps, n, id);
    EveryAttemptIsRight(states, steps, i);
  }

  /** Only calls that asked to wait are ever parked. */
  lemma ParkedCallsWait(states: seq<State>, steps: seq<Step>, i: nat, c: nat)
    requires IsRun(states, steps) && i < |states| && c in states[i].calls && states[i].calls[c].phase.Parked?
    ensures states[i].calls[c].wait
  {
    RunKeepsSettled(states, steps, i);
  }
}
