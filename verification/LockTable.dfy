/**
 Byte-range advisory locks: the vector of records kept by the server, the
 conflict search, and the split / insert / sort / merge that one request runs.
 Ends are inclusive, and `U64_MAX` is a legal end ("through end of file").
 */
module LockTable {
  import opened Common
  import opened StableSort

  const MAX_LOCK_RECORDS: nat := 65_536

  datatype LockKind = Read | Write | Unlock

  datatype FileLock = FileLock(owner: u64, start: u64, end: u64, kind: LockKind, pid: nat)

  datatype FileIdentity = FileIdentity(device: u64, inode: u64)

  /** Whoever can hold locks on a file: one lock owner inside one session. */
  datatype Holder = Holder(identity: FileIdentity, session: nat, owner: u64)

  /** What a holder has on one byte. */
  datatype Grant = Grant(kind: LockKind, pid: nat)

  datatype LockRecord = LockRecord(identity: FileIdentity, session: nat, lock: FileLock) {
    function Who(): Holder { Holder(identity, session, lock.owner) }

    function What(): Grant { Grant(lock.kind, lock.pid) }

    predicate Covers(h: Holder, b: u64) { Who() == h && lock.start <= b <= lock.end }
  }

  datatype LockError = TooManyLocks

  predicate RangesOverlap(left: FileLock, right: FileLock) {
    left.start <= right.end && right.start <= left.end
  }

  // ----- meaning -----

  /** The pointwise meaning of a table: holder `h` has `g` on byte `b`. */
  ghost predicate HeldAt(t: seq<LockRecord>, h: Holder, b: u64, g: Grant) {
    exists r :: r in t && r.Covers(h, b) && r.What() == g
  }

  /** Two records of one holder never share a byte. */
  predicate Apart(a: LockRecord, b: LockRecord) {
    a.Who() == b.Who() ==> !RangesOverlap(a.lock, b.lock)
  }

  predicate Sound(r: LockRecord) {
    r.lock.start <= r.lock.end && r.lock.kind != Unlock
  }

  ghost predicate WellFormed(t: seq<LockRecord>) {
    Pairwise(Apart, t) && forall r :: r in t ==> Sound(r)
  }

  /** Records that `MergeOwnerLocks` would fuse if `b` came directly after `a`. */
  predicate Mergeable(a: LockRecord, b: LockRecord) {
    && a.Who() == b.Who()
    && a.What() == b.What()
    && SaturatingAdd(a.lock.end, 1) >= b.lock.start
  }

  /** No record can still absorb a record that starts at or after its own start. */
  ghost predicate FullyMerged(t: seq<LockRecord>) {
    forall a, b :: a in t && b in t && a != b && a.lock.start <= b.lock.start ==> !Mergeable(a, b)
  }

  /** In a well-formed table a holder has at most one grant on a byte. */
  lemma GrantIsUnique(t: seq<LockRecord>, h: Holder, b: u64, g: Grant, g': Grant)
    requires WellFormed(t) && HeldAt(t, h, b, g) && HeldAt(t, h, b, g')
    ensures g == g'
  {
    var r :| r in t && r.Covers(h, b) && r.What() == g;
    var r' :| r' in t && r'.Covers(h, b) && r'.What() == g';
    var i :| 0 <= i < |t| && t[i] == r;
    var j :| 0 <= j < |t| && t[j] == r';
    assert i < j ==> Apart(t[i], t[j]);
    assert j < i ==> Apart(t[j], t[i]);
  }

  // ----- conflict search -----

  predicate Conflicts(r: LockRecord, identity: FileIdentity, session: nat, requested: FileLock) {
    && r.identity == identity
    && !(r.session == session && r.lock.owner == requested.owner)
    && RangesOverlap(r.lock, requested)
    && (r.lock.kind == Write || requested.kind == Write)
  }

  /** The conflicting record with the smallest start, the earliest such record on a tie. */
  function FirstConflict(t: seq<LockRecord>, identity: FileIdentity, session: nat, requested: FileLock)
    : (c: Option<LockRecord>)
    ensures c.None? <==> forall r :: r in t ==> !Conflicts(r, identity, session, requested)
    ensures c.Some? ==> c.value in t && Conflicts(c.value, identity, session, requested)
    ensures c.Some? ==> forall r :: r in t && Conflicts(r, identity, session, requested)
                                    ==> c.value.lock.start <= r.lock.start
  {
    if t == [] then None
    else
      var init, last := t[..|t| - 1], t[|t| - 1];
      assert t == init + [last];
      var best := FirstConflict(init, identity, session, requested);
      if !Conflicts(last, identity, session, requested) then best
      else if best.None? || last.lock.start < best.value.lock.start then Some(last)
      else best
  }

  /** The search is exact pointwise: it finds nothing iff no other holder has an incompatible grant
      on any byte of the request. */
  lemma ConflictIsPointwise(t: seq<LockRecord>, identity: FileIdentity, session: nat, requested: FileLock)
    requires WellFormed(t) && requested.start <= requested.end
    ensures FirstConflict(t, identity, session, requested).None? <==>
            forall h: Holder, b: u64, g: Grant ::
              h.identity == identity && h != Holder(identity, session, requested.owner)
              && requested.start <= b <= requested.end && HeldAt(t, h, b, g)
              ==> g.kind != Write && requested.kind != Write
  {
    var c := FirstConflict(t, identity, session, requested);
    if c.Some? {
      var b: u64 := Max(c.value.lock.start, requested.start);
      assert c.value.Covers(c.value.Who(), b);
      assert HeldAt(t, c.value.Who(), b, c.value.What());
    } else {
      forall h: Holder, b: u64, g: Grant
        | h.identity == identity && h != Holder(identity, session, requested.owner)
          && requested.start <= b <= requested.end && HeldAt(t, h, b, g)
        ensures g.kind != Write && requested.kind != Write
      {
        var r :| r in t && r.Covers(h, b) && r.What() == g;
        assert !Conflicts(r, identity, session, requested);
      }
    }
  }

  // ----- splitting -----

  /** What is left of one record once the requested bytes are taken out of it. */
  function Split(r: LockRecord, who: Holder, requested: FileLock): seq<LockRecord> {
    if r.Who() != who || !RangesOverlap(r.lock, requested) then [r]
    else
      (if r.lock.start < requested.start then [r.(lock := r.lock.(end := requested.start - 1))] else [])
      + (if r.lock.end > requested.end then [r.(lock := r.lock.(start := SaturatingAdd(requested.end, 1)))] else [])
  }

  function SplitAll(t: seq<LockRecord>, who: Holder, requested: FileLock): seq<LockRecord> {
    if t == [] then []
    else SplitAll(t[..|t| - 1], who, requested) + Split(t[|t| - 1], who, requested)
  }

  lemma {:induction false} SplitAllMembers(t: seq<LockRecord>, who: Holder, requested: FileLock, r: LockRecord)
    ensures r in SplitAll(t, who, requested) <==> exists s :: s in t && r in Split(s, who, requested)
  {
    if t != [] {
      var init, last := t[..|t| - 1], t[|t| - 1];
      assert t == init + [last];
      SplitAllMembers(init, who, requested, r);
    }
  }

  lemma PiecesStayApart(a: LockRecord, b: LockRecord, who: Holder, requested: FileLock)
    requires Apart(a, b)
    ensures forall p, q :: p in Split(a, who, requested) && q in Split(b, who, requested) ==> Apart(p, q)
  {
    PiecesAreInside(a, who, requested);
    PiecesAreInside(b, who, requested);
  }

  lemma PiecesAreInside(r: LockRecord, who: Holder, requested: FileLock)
    ensures forall p :: p in Split(r, who, requested) ==>
              p.Who() == r.Who() && p.What() == r.What() && r.lock.start <= p.lock.start && p.lock.end <= r.lock.end
  {
  }

  lemma PiecesAreWellFormed(r: LockRecord, who: Holder, requested: FileLock)
    requires Sound(r) && requested.start <= requested.end
    ensures WellFormed(Split(r, who, requested))
  {
  }

  lemma {:induction false} SplitKeepsWellFormed(t: seq<LockRecord>, who: Holder, requested: FileLock)
    requires WellFormed(t) && requested.start <= requested.end
    ensures WellFormed(SplitAll(t, who, requested))
  {
    if t != [] {
      var init, last := t[..|t| - 1], t[|t| - 1];
      assert t == init + [last];
      SplitKeepsWellFormed(init, who, requested);
      PiecesAreWellFormed(last, who, requested);
      forall p, q | p in SplitAll(init, who, requested) && q in Split(last, who, requested)
        ensures Apart(p, q)
      {
        SplitAllMembers(init, who, requested, p);
        var s :| s in init && p in Split(s, who, requested);
        var i :| 0 <= i < |init| && init[i] == s;
        assert Apart(t[i], t[|t| - 1]);
        PiecesStayApart(s, last, who, requested);
      }
      PairwiseConcat(Apart, SplitAll(init, who, requested), Split(last, who, requested));
    }
  }

  /** The pieces of one record cover its bytes outside the request, for the same holder and grant. */
  lemma SplitCovers(r: LockRecord, who: Holder, requested: FileLock, h: Holder, b: u64)
    requires r.Covers(h, b) && !(h == who && requested.start <= b <= requested.end)
    ensures exists p :: p in Split(r, who, requested) && p.Covers(h, b) && p.What() == r.What()
  {
    var pieces := Split(r, who, requested);
    if r.Who() != who || !RangesOverlap(r.lock, requested) {
      assert pieces[0] == r;
    } else if b < requested.start {
      assert pieces[0].Covers(h, b);
    } else {
      assert pieces[|pieces| - 1].Covers(h, b);
    }
  }

  /** Splitting takes exactly the requested bytes away from the requesting holder. */
  lemma SplitIsPointwise(t: seq<LockRecord>, who: Holder, requested: FileLock, h: Holder, b: u64, g: Grant)
    requires requested.start <= requested.end
    ensures HeldAt(SplitAll(t, who, requested), h, b, g) <==>
            HeldAt(t, h, b, g) && !(h == who && requested.start <= b <= requested.end)
  {
    if HeldAt(SplitAll(t, who, requested), h, b, g) {
      var p :| p in SplitAll(t, who, requested) && p.Covers(h, b) && p.What() == g;
      SplitAllMembers(t, who, requested, p);
      var r :| r in t && p in Split(r, who, requested);
      assert r.Covers(h, b) && r.What() == g;
    }
    if HeldAt(t, h, b, g) && !(h == who && requested.start <= b <= requested.end) {
      var r :| r in t && r.Covers(h, b) && r.What() == g;
      SplitCovers(r, who, requested, h, b);
      var p :| p in Split(r, who, requested) && p.Covers(h, b) && p.What() == g;
      SplitAllMembers(t, who, requested, p);
    }
  }

  predicate Straddles(r: LockRecord, who: Holder, requested: FileLock) {
    r.Who() == who && r.lock.start < requested.start && requested.end < r.lock.end
  }

  /** Only one record can lie on both sides of the request, so splitting adds at most one record. */
  lemma {:induction false} SplitAddsAtMostOne(t: seq<LockRecord>, who: Holder, requested: FileLock)
    requires WellFormed(t) && requested.start <= requested.end
    ensures |SplitAll(t, who, requested)| <= |t| + 1
    ensures (forall r :: r in t ==> !Straddles(r, who, requested)) ==> |SplitAll(t, who, requested)| <= |t|
  {
    if t != [] {
      var init, last := t[..|t| - 1], t[|t| - 1];
      assert t == init + [last];
      SplitAddsAtMostOne(init, who, requested);
      if Straddles(last, who, requested) {
        forall r | r in init ensures !Straddles(r, who, requested) {
          var i :| 0 <= i < |init| && init[i] == r;
          assert Apart(t[i], t[|t| - 1]);
        }
      }
    }
  }

  // ----- merging -----

  function KindCode(k: LockKind): nat { match k case Read => 0 case Write => 1 case Unlock => 2 }

  /** Lexicographic order on (device, inode, session, owner, kind, start). */
  predicate KeyLe(a: LockRecord, b: LockRecord) {
    if a.identity.device != b.identity.device then a.identity.device < b.identity.device
    else if a.identity.inode != b.identity.inode then a.identity.inode < b.identity.inode
    else if a.session != b.session then a.session < b.session
    else if a.lock.owner != b.lock.owner then a.lock.owner < b.lock.owner
    else if a.lock.kind != b.lock.kind then KindCode(a.lock.kind) < KindCode(b.lock.kind)
    else a.lock.start <= b.lock.start
  }

  /** One step of the merge loop: fuse into the last record or append. */
  function Push(merged: seq<LockRecord>, r: LockRecord): seq<LockRecord> {
    if merged != [] && Mergeable(merged[|merged| - 1], r) then
      merged[..|merged| - 1] + [Fuse(merged[|merged| - 1], r)]
    else merged + [r]
  }

  function PushAll(t: seq<LockRecord>): seq<LockRecord> {
    if t == [] then [] else Push(PushAll(t[..|t| - 1]), t[|t| - 1])
  }

  function Merge(t: seq<LockRecord>): seq<LockRecord> { PushAll(Sort(KeyLe, t)) }

  ghost predicate Agree(t: seq<LockRecord>, t': seq<LockRecord>) {
    forall h: Holder, b: u64, g: Grant :: HeldAt(t, h, b, g) <==> HeldAt(t', h, b, g)
  }

  lemma KeyLeIsTotal()
    ensures TotalPreorder(KeyLe)
  {
  }

  /** Between two records of one holder and kind the sort key admits only records of that holder and kind. */
  lemma Sandwich(a: LockRecord, b: LockRecord, c: LockRecord)
    requires KeyLe(a, b) && KeyLe(b, c) && a.Who() == c.Who() && a.lock.kind == c.lock.kind
    ensures b.Who() == a.Who() && b.lock.kind == a.lock.kind && a.lock.start <= b.lock.start <= c.lock.start
  {
  }

  lemma AppendKeepsFullyMerged(merged: seq<LockRecord>, r: LockRecord)
    requires WellFormed(merged + [r]) && Sorted(KeyLe, merged + [r]) && FullyMerged(merged)
    requires merged != [] ==> !Mergeable(merged[|merged| - 1], r)
    ensures FullyMerged(merged + [r])
  {
    var t, n := merged + [r], |merged|;
    forall a, b | a in t && b in t && a != b && a.lock.start <= b.lock.start
      ensures !Mergeable(a, b)
    {
      if a in merged && b in merged {
      } else if a in merged {
        var i :| 0 <= i < n && t[i] == a;
        assert Apart(t[i], t[n]) && t[n - 1] in t;
        assert i < n - 1 ==> Apart(t[i], t[n - 1]) && KeyLe(t[i], t[n - 1]);
        assert Apart(t[n - 1], t[n]) && KeyLe(t[n - 1], t[n]);
        if i < n - 1 && a.Who() == r.Who() && a.lock.kind == r.lock.kind {
          Sandwich(t[i], t[n - 1], t[n]);
        }
      } else {
        var i :| 0 <= i < n && t[i] == b;
        assert Apart(t[i], t[n]) && KeyLe(t[i], t[n]) && t[i] in t && t[n] in t;
      }
    }
  }

  /** One loop step keeps order, disjointness and meaning of "already merged, then still to come". */
  lemma PushStep(merged: seq<LockRecord>, r: LockRecord, rest: seq<LockRecord>)
    requires WellFormed(merged + [r] + rest) && Sorted(KeyLe, merged + [r] + rest) && FullyMerged(merged)
    ensures WellFormed(Push(merged, r) + rest) && Sorted(KeyLe, Push(merged, r) + rest)
    ensures FullyMerged(Push(merged, r)) && |Push(merged, r)| <= |merged| + 1
    ensures Agree(Push(merged, r) + rest, merged + [r] + rest)
  {
    var t, n := merged + [r] + rest, |merged|;
    assert merged + [r] == t[..n + 1];
    if n > 0 && Mergeable(merged[n - 1], r) {
      assert t[n - 1] == merged[n - 1] && t[n] == r && t[n - 1] in t && t[n] in t;
      assert Apart(t[n - 1], t[n]) && KeyLe(t[n - 1], t[n]);
      assert Push(merged, r) + rest == FuseAt(t, n - 1);
      FuseKeepsApart(t, n - 1);
      FuseKeepsSorted(t, n - 1);
      FuseKeepsFullyMerged(merged, r);
      FuseAgrees(merged, r, rest);
    } else {
      AppendKeepsFullyMerged(merged, r);
    }
  }

  lemma FuseKeepsFullyMerged(merged: seq<LockRecord>, r: LockRecord)
    requires WellFormed(merged + [r]) && Sorted(KeyLe, merged + [r]) && FullyMerged(merged)
    requires merged != [] && Mergeable(merged[|merged| - 1], r)
    ensures FullyMerged(Push(merged, r))
  {
    var fused, t, n := Push(merged, r), merged + [r], |merged|;
    var f, last := fused[n - 1], merged[n - 1];
    forall a, b | a in fused && b in fused && a != b && a.lock.start <= b.lock.start
      ensures !Mergeable(a, b)
    {
      var i :| 0 <= i < n && fused[i] == a;
      var j :| 0 <= j < n && fused[j] == b;
      assert t[n - 1] == last && t[n - 1] in t;
      if i < n - 1 && j < n - 1 {
        assert merged[i] == a && merged[j] == b;
      } else if j == n - 1 {
        assert merged[i] == a && Apart(t[i], t[n - 1]) && KeyLe(t[i], t[n - 1]);
        assert last in merged && a in merged;
      } else {
        assert merged[j] == b && Apart(t[j], t[n - 1]) && KeyLe(t[j], t[n - 1]);
        assert t[j] in t;
      }
    }
  }

  lemma FuseAgrees(merged: seq<LockRecord>, r: LockRecord, rest: seq<LockRecord>)
    requires merged != [] && Mergeable(merged[|merged| - 1], r)
    requires Sound(merged[|merged| - 1]) && Sound(r)
    requires merged[|merged| - 1].lock.start <= r.lock.start
    ensures Agree(Push(merged, r) + rest, merged + [r] + rest)
  {
    var t, t', n := merged + [r] + rest, Push(merged, r) + rest, |merged|;
    var f, last := t'[n - 1], merged[n - 1];
    assert t[n - 1] == last && t[n] == r;
    forall h: Holder, b: u64, g: Grant ensures HeldAt(t, h, b, g) <==> HeldAt(t', h, b, g) {
      if HeldAt(t, h, b, g) {
        var x :| x in t && x.Covers(h, b) && x.What() == g;
        var i :| 0 <= i < |t| && t[i] == x;
        var y := if i < n - 1 then t'[i] else if i <= n then f else t'[i - 1];
        assert y in t' && y.Covers(h, b) && y.What() == g;
      }
      if HeldAt(t', h, b, g) {
        var x :| x in t' && x.Covers(h, b) && x.What() == g;
        var i :| 0 <= i < |t'| && t'[i] == x;
        var y := if i < n - 1 then t[i] else if i >= n then t[i + 1] else if last.Covers(h, b) then last else r;
        assert y in t && y.Covers(h, b) && y.What() == g;
      }
    }
  }

  function Fuse(a: LockRecord, r: LockRecord): LockRecord {
    a.(lock := a.lock.(end := Max(a.lock.end, r.lock.end)))
  }

  /** Whatever is apart from both halves is apart from the fused record. */
  lemma FusedStaysApart(x: LockRecord, a: LockRecord, r: LockRecord)
    requires Sound(x) && Mergeable(a, r) && Apart(x, a) && Apart(x, r)
    ensures Apart(x, Fuse(a, r)) && Apart(Fuse(a, r), x)
  {
  }

  /** The sequence with neighbours `k` and `k + 1` fused. */
  function FuseAt(t: seq<LockRecord>, k: nat): seq<LockRecord>
    requires k + 1 < |t|
  {
    t[..k] + [Fuse(t[k], t[k + 1])] + t[k + 2..]
  }

  lemma FuseKeepsApart(t: seq<LockRecord>, k: nat)
    requires WellFormed(t) && k + 1 < |t| && Mergeable(t[k], t[k + 1])
    ensures WellFormed(FuseAt(t, k))
  {
    var t' := FuseAt(t, k);
    assert t[k] in t && t[k + 1] in t;
    forall i, j | 0 <= i < j < |t'| ensures Apart(t'[i], t'[j]) {
      var i', j' := if i <= k then i else i + 1, if j <= k then j else j + 1;
      assert Apart(t[i'], t[j']) && t[i'] in t && t[j'] in t;
      if i == k {
        assert Apart(t[k + 1], t[j']);
        FusedStaysApart(t[j'], t[k], t[k + 1]);
      } else if j == k {
        assert Apart(t[i], t[k + 1]);
        FusedStaysApart(t[i], t[k], t[k + 1]);
      }
    }
    forall x | x in t' ensures Sound(x) {
      var i :| 0 <= i < |t'| && t'[i] == x;
      assert i != k ==> x in t;
    }
  }

  lemma FuseKeepsSorted(t: seq<LockRecord>, k: nat)
    requires Sorted(KeyLe, t) && k + 1 < |t|
    ensures Sorted(KeyLe, FuseAt(t, k))
  {
    var t' := FuseAt(t, k);
    forall i, j | 0 <= i < j < |t'| ensures KeyLe(t'[i], t'[j]) {
      assert KeyLe(t[if i <= k then i else i + 1], t[if j <= k then j else j + 1]);
    }
  }

  /** Invariant of the merge loop: `m` is done, `rest` is still to come, `s` was the input. */
  ghost predicate MergeInv(m: seq<LockRecord>, rest: seq<LockRecord>, s: seq<LockRecord>) {
    WellFormed(m + rest) && Sorted(KeyLe, m + rest) && FullyMerged(m) && Agree(m + rest, s)
  }

  lemma MergeInvStep(m: seq<LockRecord>, r: LockRecord, rest: seq<LockRecord>, s: seq<LockRecord>)
    requires MergeInv(m, [r] + rest, s)
    ensures MergeInv(Push(m, r), rest, s)
  {
    assert m + ([r] + rest) == m + [r] + rest;
    PushStep(m, r, rest);
  }

  /** The merge loop over a sorted, disjoint sequence. */
  lemma {:induction false} PushAllIsExact(s: seq<LockRecord>, n: nat)
    requires n <= |s| && WellFormed(s) && Sorted(KeyLe, s)
    ensures MergeInv(PushAll(s[..n]), s[n..], s) && |PushAll(s[..n])| <= n
  {
    if n == 0 {
      assert [] + s[0..] == s;
    } else {
      PushAllIsExact(s, n - 1);
      assert s[..n][..n - 1] == s[..n - 1];
      assert s[n - 1..] == [s[n - 1]] + s[n..];
      MergeInvStep(PushAll(s[..n - 1]), s[n - 1], s[n..], s);
    }
  }

  lemma MergeIsExact(t: seq<LockRecord>)
    requires WellFormed(t)
    ensures WellFormed(Merge(t)) && FullyMerged(Merge(t)) && |Merge(t)| <= |t| && Agree(Merge(t), t)
  {
    var s := Sort(KeyLe, t);
    KeyLeIsTotal();
    SortSorts(KeyLe, t);
    SortKeepsPairwise(KeyLe, Apart, t);
    forall r ensures r in s <==> r in t { SortKeepsMembers(KeyLe, t, r); }
    PushAllIsExact(s, |s|);
    assert s[..|s|] == s && PushAll(s) + s[|s|..] == PushAll(s);
  }

  // ----- the whole request -----

  /** `replace_owner_range`: the new table, or `TooManyLocks`. */
  function ReplaceOwnerRange(t: seq<LockRecord>, identity: FileIdentity, session: nat, requested: FileLock, insert: bool)
    : Result<seq<LockRecord>, LockError>
  {
    var next := Merge(Unmerged(t, Holder(identity, session, requested.owner), requested, insert));
    if |next| > MAX_LOCK_RECORDS then Err(TooManyLocks) else Ok(next)
  }

  /** Bytes, kind and pid that holder `h` has after a successful request, in terms of before. */
  ghost predicate HeldAfter(t: seq<LockRecord>, who: Holder, requested: FileLock, insert: bool, h: Holder, b: u64, g: Grant) {
    if h == who && requested.start <= b <= requested.end then insert && g == Grant(requested.kind, requested.pid)
    else HeldAt(t, h, b, g)
  }

  /** The table just before it is sorted and merged. */
  function Unmerged(t: seq<LockRecord>, who: Holder, requested: FileLock, insert: bool): seq<LockRecord> {
    SplitAll(t, who, requested) + if insert then [LockRecord(who.identity, who.session, requested)] else []
  }

  lemma UnmergedIsWellFormed(t: seq<LockRecord>, who: Holder, requested: FileLock, insert: bool)
    requires WellFormed(t) && requested.start <= requested.end && who.owner == requested.owner
    requires insert ==> requested.kind != Unlock
    ensures WellFormed(Unmerged(t, who, requested, insert))
    ensures |Unmerged(t, who, requested, insert)| <= |t| + 2
  {
    var split := SplitAll(t, who, requested);
    var extra := if insert then [LockRecord(who.identity, who.session, requested)] else [];
    SplitKeepsWellFormed(t, who, requested);
    SplitAddsAtMostOne(t, who, requested);
    forall a, b | a in split && b in extra ensures Apart(a, b) {
      SplitAllMembers(t, who, requested, a);
    }
    PairwiseConcat(Apart, split, extra);
  }

  lemma UnmergedIsPointwise(t: seq<LockRecord>, who: Holder, requested: FileLock, insert: bool, h: Holder, b: u64, g: Grant)
    requires requested.start <= requested.end && who.owner == requested.owner
    ensures HeldAt(Unmerged(t, who, requested, insert), h, b, g) <==> HeldAfter(t, who, requested, insert, h, b, g)
  {
    var split := SplitAll(t, who, requested);
    var extra := if insert then [LockRecord(who.identity, who.session, requested)] else [];
    SplitIsPointwise(t, who, requested, h, b, g);
    assert HeldAt(split + extra, h, b, g) <==> HeldAt(split, h, b, g) || HeldAt(extra, h, b, g);
    if insert {
      assert HeldAt(extra, h, b, g) <==> extra[0].Covers(h, b) && extra[0].What() == g;
    }
  }

  /** Replacement is pointwise exact: it changes the requesting holder on exactly the requested
      bytes, keeps the records disjoint, leaves nothing mergeable and adds at most two records. */
  lemma ReplaceIsExact(t: seq<LockRecord>, identity: FileIdentity, session: nat, requested: FileLock, insert: bool)
    requires WellFormed(t) && requested.start <= requested.end && (insert ==> requested.kind != Unlock)
    ensures var r := ReplaceOwnerRange(t, identity, session, requested, insert);
            && (|t| + 2 <= MAX_LOCK_RECORDS ==> r.Ok?)
            && (r.Ok? ==>
                  && WellFormed(r.value) && FullyMerged(r.value)
                  && |r.value| <= |t| + 2 && |r.value| <= MAX_LOCK_RECORDS
                  && forall h: Holder, b: u64, g: Grant ::
                       HeldAt(r.value, h, b, g) <==>
                       HeldAfter(t, Holder(identity, session, requested.owner), requested, insert, h, b, g))
  {
    var who := Holder(identity, session, requested.owner);
    UnmergedIsWellFormed(t, who, requested, insert);
    MergeIsExact(Unmerged(t, who, requested, insert));
    forall h: Holder, b: u64, g: Grant
      ensures HeldAt(Merge(Unmerged(t, who, requested, insert)), h, b, g) <==> HeldAfter(t, who, requested, insert, h, b, g)
    {
      UnmergedIsPointwise(t, who, requested, insert, h, b, g);
    }
  }

  /** No byte of a file is write-locked by one holder while another holder has any lock on it. */
  ghost predicate Exclusive(t: seq<LockRecord>) {
    forall h: Holder, h': Holder, b: u64, g: Grant, g': Grant ::
      h != h' && h.identity == h'.identity && HeldAt(t, h, b, g) && HeldAt(t, h', b, g') ==>
        g.kind != Write && g'.kind != Write
  }

  /** A table that differs by one granted request, which conflicted with nothing, is still exclusive. */
  lemma GrantKeepsExclusive(t: seq<LockRecord>, t': seq<LockRecord>, who: Holder, requested: FileLock, insert: bool)
    requires WellFormed(t) && Exclusive(t) && requested.start <= requested.end && who.owner == requested.owner
    requires insert ==> FirstConflict(t, who.identity, who.session, requested).None?
    requires forall h: Holder, b: u64, g: Grant :: HeldAt(t', h, b, g) <==> HeldAfter(t, who, requested, insert, h, b, g)
    ensures Exclusive(t')
  {
    ConflictIsPointwise(t, who.identity, who.session, requested);
    forall h: Holder, h': Holder, b: u64, g: Grant, g': Grant
      | h != h' && h.identity == h'.identity && HeldAt(t', h, b, g) && HeldAt(t', h', b, g')
      ensures g.kind != Write && g'.kind != Write
    {
      assert HeldAfter(t, who, requested, insert, h, b, g) && HeldAfter(t, who, requested, insert, h', b, g');
    }
  }

  // ----- bulk release -----

  /** `Vec::retain` with the removal test of close, flush or session drop. */
  function Retain(t: seq<LockRecord>, remove: LockRecord -> bool): (kept: seq<LockRecord>)
    ensures |kept| <= |t|
    ensures forall r :: r in kept <==> r in t && !remove(r)
    ensures |kept| == |t| ==> kept == t
  {
    if t == [] then []
    else
      var init, last := t[..|t| - 1], t[|t| - 1];
      assert t == init + [last];
      if remove(last) then Retain(init, remove) else Retain(init, remove) + [last]
  }

  lemma {:induction false} RetainKeepsWellFormed(t: seq<LockRecord>, remove: LockRecord -> bool)
    requires WellFormed(t)
    ensures WellFormed(Retain(t, remove))
  {
    if t != [] {
      var init, last := t[..|t| - 1], t[|t| - 1];
      assert t == init + [last];
      RetainKeepsWellFormed(init, remove);
      forall r | r in Retain(init, remove) ensures Apart(r, last) {
        var i :| 0 <= i < |init| && init[i] == r;
        assert Apart(t[i], t[|t| - 1]);
      }
    }
  }

  /** A bulk release takes away grants and adds none. */
  lemma RetainKeepsExclusive(t: seq<LockRecord>, remove: LockRecord -> bool)
    requires Exclusive(t)
    ensures Exclusive(Retain(t, remove))
  {
    forall h: Holder, b: u64, g: Grant ensures HeldAt(Retain(t, remove), h, b, g) ==> HeldAt(t, h, b, g) {
    }
  }

  // ----- the vector behind the server's mutex -----

  /** The merge loop, over the records already sorted by key. */
  method MergeOwnerLocks(locks: seq<LockRecord>) returns (merged: seq<LockRecord>)
    ensures merged == Merge(locks)
  {
    var sorted := Sort(KeyLe, locks);
    merged := [];
    for i := 0 to |sorted|
      invariant merged == PushAll(sorted[..i])
    {
      var record := sorted[i];
      assert sorted[..i + 1][..i] == sorted[..i];
      if merged != [] && Mergeable(merged[|merged| - 1], record) {
        merged := merged[|merged| - 1 := Fuse(merged[|merged| - 1], record)];
      } else {
        merged := merged + [record];
      }
    }
    assert sorted[..|sorted|] == sorted;
  }

  /** The splitting loop of `replace_owner_range`. */
  method SplitOwnerRange(locks: seq<LockRecord>, identity: FileIdentity, session: nat, requested: FileLock)
    returns (next: seq<LockRecord>)
    ensures next == SplitAll(locks, Holder(identity, session, requested.owner), requested)
  {
    next := [];
    for i := 0 to |locks|
      invariant next == SplitAll(locks[..i], Holder(identity, session, requested.owner), requested)
    {
      var record := locks[i];
      assert locks[..i + 1][..i] == locks[..i];
      if record.identity != identity || record.session != session || record.lock.owner != requested.owner
         || !RangesOverlap(record.lock, requested) {
        next := next + [record];
      } else {
        if record.lock.start < requested.start {
          next := next + [record.(lock := record.lock.(end := requested.start - 1))];
        }
        if record.lock.end > requested.end {
          next := next + [record.(lock := record.lock.(start := SaturatingAdd(requested.end, 1)))];
        }
      }
    }
    assert locks[..|locks|] == locks;
  }

  class LockVector {
    var records: seq<LockRecord>

    ghost predicate Valid() reads this { WellFormed(records) && |records| <= MAX_LOCK_RECORDS }

    constructor ()
      ensures Valid() && records == []
    {
      records := [];
    }

    /** `replace_owner_range`: all or nothing, and pointwise exact when it succeeds. */
    method Replace(identity: FileIdentity, session: nat, requested: FileLock, insert: bool)
      returns (outcome: Result<(), LockError>)
      requires Valid() && requested.start <= requested.end && (insert ==> requested.kind != Unlock)
      modifies this
      ensures Valid()
      ensures outcome.Err? ==> records == old(records) && |records| + 2 > MAX_LOCK_RECORDS
      ensures outcome.Ok? ==> Ok(records) == ReplaceOwnerRange(old(records), identity, session, requested, insert)
      ensures outcome.Ok? ==> FullyMerged(records) && |records| <= old(|records|) + 2
      ensures outcome.Ok? ==> forall h: Holder, b: u64, g: Grant ::
                HeldAt(records, h, b, g) <==>
                HeldAfter(old(records), Holder(identity, session, requested.owner), requested, insert, h, b, g)
    {
      ReplaceIsExact(records, identity, session, requested, insert);
      var next := SplitOwnerRange(records, identity, session, requested);
      if insert {
        next := next + [LockRecord(identity, session, requested)];
      }
      assert next == Unmerged(records, Holder(identity, session, requested.owner), requested, insert);
      next := MergeOwnerLocks(next);
      if |next| > MAX_LOCK_RECORDS {
        return Err(TooManyLocks);
      }
      records := next;
      return Ok(());
    }
  }
}
