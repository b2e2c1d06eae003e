/** The hot tier: a byte-bounded, least-recently-used map of ranges in memory. */
module HotRanges {
  import opened Common
  import opened Ranges

  predicate Distinct(keys: seq<RangeKey>) {
    forall i, j :: 0 <= i < j < |keys| ==> keys[i] != keys[j]
  }

  /** Bytes stored under the listed keys. */
  function Total(entries: Entries, keys: seq<RangeKey>): nat
    requires forall k :: k in keys ==> k in entries
  {
    if keys == [] then 0 else |entries[keys[0]]| + Total(entries, keys[1..])
  }

  function Without(keys: seq<RangeKey>, gone: set<RangeKey>): (r: seq<RangeKey>)
    ensures forall k :: k in r <==> k in keys && k !in gone
  {
    if keys == [] then []
    else if keys[0] in gone then Without(keys[1..], gone)
    else [keys[0]] + Without(keys[1..], gone)
  }

  lemma {:induction false} WithoutKeepsDistinct(keys: seq<RangeKey>, gone: set<RangeKey>)
    requires Distinct(keys)
    ensures Distinct(Without(keys, gone))
  {
    if keys != [] {
      WithoutKeepsDistinct(keys[1..], gone);
      assert keys[0] !in keys[1..];
    }
  }

  lemma {:induction false} TotalOfSameEntries(entries: Entries, entries': Entries, keys: seq<RangeKey>)
    requires forall k :: k in keys ==> k in entries && k in entries' && entries[k] == entries'[k]
    ensures Total(entries, keys) == Total(entries', keys)
  {
    if keys != [] {
      assert keys[0] in keys;
      TotalOfSameEntries(entries, entries', keys[1..]);
    }
  }

  lemma {:induction false} TotalAppend(entries: Entries, keys: seq<RangeKey>, k: RangeKey)
    requires k in entries && forall x :: x in keys ==> x in entries
    ensures Total(entries, keys + [k]) == Total(entries, keys) + |entries[k]|
  {
    if keys == [] {
      assert keys + [k] == [k];
    } else {
      assert (keys + [k])[1..] == keys[1..] + [k];
      TotalAppend(entries, keys[1..], k);
    }
  }

  /** Dropping keys takes away exactly their bytes. */
  lemma {:induction false} TotalWithout(entries: Entries, keys: seq<RangeKey>, gone: set<RangeKey>, kept: set<RangeKey>)
    requires forall k :: k in keys ==> k in entries && (k in kept <==> k !in gone)
    ensures Total(entries, keys) == Total(entries, Without(keys, gone)) + Total(entries, Without(keys, kept))
  {
    if keys != [] {
      TotalWithout(entries, keys[1..], gone, kept);
      assert keys[0] in keys;
      if keys[0] in gone {
        assert Without(keys, kept)[1..] == Without(keys[1..], kept);
      } else {
        assert Without(keys, gone)[1..] == Without(keys[1..], gone);
      }
    }
  }

  lemma {:induction false} WithoutConcat(a: seq<RangeKey>, b: seq<RangeKey>, gone: set<RangeKey>)
    ensures Without(a + b, gone) == Without(a, gone) + Without(b, gone)
  {
    if a == [] {
      assert a + b == b;
    } else {
      assert (a + b)[1..] == a[1..] + b;
      WithoutConcat(a[1..], b, gone);
    }
  }

  lemma {:induction false} WithoutTwice(keys: seq<RangeKey>, gone: set<RangeKey>, more: set<RangeKey>)
    ensures Without(Without(keys, gone), more) == Without(keys, gone + more)
  {
    if keys != [] {
      WithoutTwice(keys[1..], gone, more);
      if keys[0] !in gone {
        assert Without(keys, gone)[1..] == Without(keys[1..], gone);
      }
    }
  }

  lemma {:induction false} WithoutNone(keys: seq<RangeKey>, gone: set<RangeKey>)
    requires forall k :: k in keys ==> k !in gone
    ensures Without(keys, gone) == keys
  {
    if keys != [] {
      WithoutNone(keys[1..], gone);
    }
  }

  /** The used keys went to the back of the queue, in some order; the others kept theirs. */
  predicate MovedBack(before: seq<RangeKey>, after: seq<RangeKey>, used: set<RangeKey>) {
    var n := |Without(before, used)|;
    && n <= |after| && after[..n] == Without(before, used)
    && (forall k :: k in used ==> k in after[n..]) && (forall k :: k in after[n..] ==> k in used)
  }

  lemma MovedNothing(queue: seq<RangeKey>)
    ensures MovedBack(queue, queue, {})
  {
    WithoutNone(queue, {});
  }

  /** One more used key. */
  lemma MovesOneMore(before: seq<RangeKey>, after: seq<RangeKey>, used: set<RangeKey>, k: RangeKey)
    requires MovedBack(before, after, used) && k !in used
    ensures MovedBack(before, Without(after, {k}) + [k], used + {k})
  {
    var rest := Without(before, used);
    var tail := after[|rest|..];
    assert after == rest + tail;
    WithoutConcat(rest, tail, {k});
    WithoutNone(tail, {k});
    WithoutTwice(before, used, {k});
    var rest' := Without(before, used + {k});
    var after' := Without(after, {k}) + [k];
    assert after' == rest' + (tail + [k]);
    assert after'[..|rest'|] == rest' && after'[|rest'|..] == tail + [k];
  }

  /** What eviction leaves of a queue, oldest key first. */
  function Keep(entries: Entries, queue: seq<RangeKey>, maximum: nat): (kept: seq<RangeKey>)
    requires forall k :: k in queue ==> k in entries
    ensures forall k :: k in kept ==> k in queue
  {
    if Total(entries, queue) <= maximum then queue else Keep(entries, queue[1..], maximum)
  }

  /** Eviction leaves the longest end of the queue that fits, and never the empty one if the newest
      entry fits by itself. */
  lemma {:induction false} KeepIsLongestFit(entries: Entries, queue: seq<RangeKey>, maximum: nat)
    requires forall k :: k in queue ==> k in entries
    ensures var kept := Keep(entries, queue, maximum);
            && |kept| <= |queue| && kept == queue[|queue| - |kept|..]
            && Total(entries, kept) <= maximum
            && (forall n :: 0 <= n < |queue| - |kept| ==> Total(entries, queue[n..]) > maximum)
            && (queue != [] && |entries[queue[|queue| - 1]]| <= maximum ==> kept != [])
  {
    if Total(entries, queue) <= maximum {
      assert queue[0..] == queue;
    } else {
      KeepIsLongestFit(entries, queue[1..], maximum);
      var kept := Keep(entries, queue, maximum);
      forall n | 0 <= n < |queue| - |kept| ensures Total(entries, queue[n..]) > maximum {
        assert queue[n..] == if n == 0 then queue else queue[1..][n - 1..];
      }
      assert |queue| == 1 ==> Total(entries, queue) == |entries[queue[0]]|;
    }
  }

  function Restrict(entries: Entries, keys: seq<RangeKey>): Entries {
    map k | k in keys && k in entries :: entries[k]
  }

  // ----- the queue over time -----

  /** What happened to the queue: a hit used some entries, an entry was stored, some were forgotten. */
  datatype QueueOp = Hit(used: set<RangeKey>) | Store(key: RangeKey) | Forget(gone: set<RangeKey>)

  /** Storing may drop entries from the front. */
  predicate Moves(before: seq<RangeKey>, after: seq<RangeKey>, op: QueueOp) {
    match op
    case Hit(used) => MovedBack(before, after, used)
    case Store(key) =>
      var queue := Without(before, {key}) + [key];
      |after| <= |queue| && after == queue[|queue| - |after|..]
    case Forget(gone) => after == Without(before, gone)
  }

  /** Behind every `b` in the queue there is still an `a`, so `b` is dropped before `a`. */
  predicate Outlives(queue: seq<RangeKey>, a: RangeKey, b: RangeKey) {
    queue == [] || (Outlives(queue[1..], a, b) && (queue[0] == b ==> a in queue[1..]))
  }

  lemma {:induction false} OutlivesMeans(queue: seq<RangeKey>, a: RangeKey, b: RangeKey)
    requires Outlives(queue, a, b) && b in queue
    ensures a in queue
  {
    if queue[0] != b {
      OutlivesMeans(queue[1..], a, b);
    }
  }

  lemma {:induction false} WithoutKeepsOutlives(queue: seq<RangeKey>, gone: set<RangeKey>, a: RangeKey, b: RangeKey)
    requires Outlives(queue, a, b) && a !in gone
    ensures Outlives(Without(queue, gone), a, b)
  {
    if queue != [] {
      WithoutKeepsOutlives(queue[1..], gone, a, b);
      if queue[0] !in gone {
        assert Without(queue, gone)[1..] == Without(queue[1..], gone);
      }
    }
  }

  /** Appending other keys keeps it, and appending `a` makes it so. */
  lemma {:induction false} AppendOutlives(queue: seq<RangeKey>, tail: seq<RangeKey>, a: RangeKey, b: RangeKey)
    requires b !in tail && (a in tail || Outlives(queue, a, b))
    ensures Outlives(queue + tail, a, b)
  {
    if queue == [] {
      assert queue + tail == tail;
      AbsentOutlives(tail, a, b);
    } else {
      assert (queue + tail)[1..] == queue[1..] + tail;
      AppendOutlives(queue[1..], tail, a, b);
    }
  }

  lemma {:induction false} AbsentOutlives(queue: seq<RangeKey>, a: RangeKey, b: RangeKey)
    requires b !in queue
    ensures Outlives(queue, a, b)
  {
    if queue != [] {
      AbsentOutlives(queue[1..], a, b);
    }
  }

  lemma {:induction false} SuffixOutlives(queue: seq<RangeKey>, n: nat, a: RangeKey, b: RangeKey)
    requires Outlives(queue, a, b) && n <= |queue|
    ensures Outlives(queue[n..], a, b)
  {
    if n > 0 {
      SuffixOutlives(queue[1..], n - 1, a, b);
      assert queue[n..] == queue[1..][n - 1..];
    } else {
      assert queue[0..] == queue;
    }
  }

  /** The step does not touch `b` and does not forget `a`. */
  predicate LeavesOrder(op: QueueOp, a: RangeKey, b: RangeKey) {
    match op
    case Hit(used) => b !in used
    case Store(key) => key != b
    case Forget(gone) => a !in gone
  }

  lemma HitOutlives(before: seq<RangeKey>, after: seq<RangeKey>, used: set<RangeKey>, a: RangeKey, b: RangeKey)
    requires MovedBack(before, after, used) && b !in used && (a in used || Outlives(before, a, b))
    ensures Outlives(after, a, b)
  {
    var rest := Without(before, used);
    assert after == rest + after[|rest|..];
    if a !in used {
      WithoutKeepsOutlives(before, used, a, b);
    }
    AppendOutlives(rest, after[|rest|..], a, b);
  }

  lemma StoreOutlives(before: seq<RangeKey>, after: seq<RangeKey>, key: RangeKey, a: RangeKey, b: RangeKey)
    requires Outlives(before, a, b) && key != b
    requires var queue := Without(before, {key}) + [key]; |after| <= |queue| && after == queue[|queue| - |after|..]
    ensures Outlives(after, a, b)
  {
    QueuedOutlives(before, key, a, b);
    var queue := Without(before, {key}) + [key];
    SuffixOutlives(queue, |queue| - |after|, a, b);
  }

  lemma QueuedOutlives(before: seq<RangeKey>, key: RangeKey, a: RangeKey, b: RangeKey)
    requires Outlives(before, a, b) && key != b
    ensures Outlives(Without(before, {key}) + [key], a, b)
  {
    if a != key {
      WithoutKeepsOutlives(before, {key}, a, b);
    }
    AppendOutlives(Without(before, {key}), [key], a, b);
  }

  lemma StepKeepsOutlives(before: seq<RangeKey>, after: seq<RangeKey>, op: QueueOp, a: RangeKey, b: RangeKey)
    requires Moves(before, after, op) && Outlives(before, a, b) && LeavesOrder(op, a, b)
    ensures Outlives(after, a, b)
  {
    match op {
      case Hit(used) => HitOutlives(before, after, used, a, b);
      case Forget(gone) => WithoutKeepsOutlives(before, gone, a, b);
      case Store(key) => StoreOutlives(before, after, key, a, b);
    }
  }

  /** Least recently used over whole runs: an entry that a hit used outlives every entry that has not
      been used or stored since. */
  lemma {:induction false} UsedOutlivesUntouched(queues: seq<seq<RangeKey>>, ops: seq<QueueOp>, m: nat, n: nat, a: RangeKey, b: RangeKey)
    requires |queues| == |ops| + 1 && m < n < |queues|
    requires forall k :: 0 <= k < |ops| ==> Moves(queues[k], queues[k + 1], ops[k])
    requires ops[m].Hit? && a in ops[m].used && b !in ops[m].used
    requires forall k :: m < k < n ==> LeavesOrder(ops[k], a, b)
    ensures Outlives(queues[n], a, b) && (b in queues[n] ==> a in queues[n])
  {
    if n == m + 1 {
      HitOutlives(queues[m], queues[n], ops[m].used, a, b);
    } else {
      UsedOutlivesUntouched(queues, ops, m, n - 1, a, b);
      StepKeepsOutlives(queues[n - 1], queues[n], ops[n - 1], a, b);
    }
    if b in queues[n] {
      OutlivesMeans(queues[n], a, b);
    }
  }

  // ----- what a hit uses -----

  ghost predicate HasOne(entries: Entries, used: set<RangeKey>, file: RevisionKey, p: nat) {
    exists k :: k in used && Has(entries, k, file, p)
  }

  /** Every used entry meets the request, and together they have its bytes up to `position`. */
  ghost predicate Uses(entries: Entries, used: set<RangeKey>, key: RangeKey, position: nat) {
    && (forall k :: k in used ==> k in entries && k.file == key.file && k.offset < key.End() && key.offset < k.End())
    && (forall p: nat :: key.offset <= p < position ==> HasOne(entries, used, key.file, p))
  }

  lemma UsesOneMore(entries: Entries, used: set<RangeKey>, key: RangeKey, position: nat, k: RangeKey, next: nat)
    requires Uses(entries, used, key, position) && key.offset <= position < key.End() && ValidEntries(entries)
    requires Has(entries, k, key.file, position) && next <= k.End()
    ensures Uses(entries, used + {k}, key, next)
  {
    forall p: nat | key.offset <= p < next ensures HasOne(entries, used + {k}, key.file, p) {
      if p < position {
        assert HasOne(entries, used, key.file, p);
        var x :| x in used && Has(entries, x, key.file, p);
        assert x in used + {k};
      } else {
        assert k in used + {k} && Has(entries, k, key.file, p);
      }
    }
  }

  class HotRangeCache {
    const maximumBytes: nat
    var entries: Entries
    var leastRecentlyUsed: seq<RangeKey>
    var bytes: nat

    /** The queue lists every entry once, and the byte counter is exact and within the bound. */
    ghost predicate Valid()
      reads this
    {
      && ValidEntries(entries)
      && Distinct(leastRecentlyUsed)
      && (forall k :: k in leastRecentlyUsed <==> k in entries)
      && bytes == Total(entries, leastRecentlyUsed)
      && bytes <= maximumBytes
    }

    constructor (maximumBytes: nat)
      ensures Valid() && entries == map[] && this.maximumBytes == maximumBytes
    {
      this.maximumBytes := maximumBytes;
      entries := map[];
      leastRecentlyUsed := [];
      bytes := 0;
    }

    /** The entry that reaches furthest among those that contain `position`. */
    method Furthest(file: RevisionKey, position: nat) returns (best: Option<RangeKey>)
      requires ValidEntries(entries)
      ensures best.None? <==> !Cached(entries, file, position)
      ensures best.Some? ==> Has(entries, best.value, file, position)
      ensures best.Some? ==> forall k :: Has(entries, k, file, position) ==> k.End() <= best.value.End()
    {
      best := None;
      var pending := entries.Keys;
      while pending != {}
        invariant pending <= entries.Keys
        invariant best.Some? ==> Has(entries, best.value, file, position)
        invariant forall k :: k !in pending && Has(entries, k, file, position) ==> best.Some? && k.End() <= best.value.End()
      {
        var k :| k in pending;
        pending := pending - {k};
        if k.file == file && k.offset <= position < k.End() && (best.None? || best.value.End() <= k.End()) {
          best := Some(k);
        }
      }
    }

    /** The greedy walk answers like the sweep does. A hit moves the entries it used to the back of the
        queue, and those cover the request; a miss leaves the queue alone. */
    method Get(key: RangeKey) returns (r: Option<Bytes>, ghost used: set<RangeKey>)
      requires Valid()
      modifies this`leastRecentlyUsed
      ensures Valid() && Answers(entries, key, r)
      ensures Moves(old(leastRecentlyUsed), leastRecentlyUsed, Hit(used))
      ensures r.None? ==> used == {} && leastRecentlyUsed == old(leastRecentlyUsed)
      ensures r.Some? ==> Uses(entries, used, key, key.End())
    {
      MovedNothing(leastRecentlyUsed);
      var touched;
      r, touched := Walk(key);
      if r.None? {
        return None, {};
      }
      Touch(touched);
      used := touched;
    }

    /** The walk itself: at every position the entry that reaches furthest. */
    method Walk(key: RangeKey) returns (r: Option<Bytes>, used: set<RangeKey>)
      requires ValidEntries(entries)
      ensures Answers(entries, key, r)
      ensures r.Some? ==> Uses(entries, used, key, key.End())
    {
      used := {};
      var requestEnd := key.End();
      if requestEnd > U64_MAX {
        return None, {};
      }
      var output: Bytes := [];
      var position := key.offset;
      while position < requestEnd
        invariant key.offset <= position <= requestEnd && |output| == position - key.offset
        invariant forall i :: 0 <= i < |output| ==> Stored(entries, key.file, key.offset + i, output[i])
        invariant Uses(entries, used, key, position)
      {
        var candidate := Furthest(key.file, position);
        if candidate.None? {
          return None, {};
        }
        var data := entries[candidate.value];
        var copyEnd := Min(candidate.value.End(), requestEnd);
        SliceIsStored(entries, candidate.value, position, copyEnd);
        output := output + data[position - candidate.value.offset..copyEnd - candidate.value.offset];
        UsesOneMore(entries, used, key, position, candidate.value, copyEnd);
        used := used + {candidate.value};
        position := copyEnd;
      }
      StoredCovers(entries, key, output);
      return Some(output), used;
    }

    /** Move every used key to the back of the queue, in any order. */
    method Touch(used: set<RangeKey>)
      requires Valid() && used <= entries.Keys
      modifies this`leastRecentlyUsed
      ensures Valid() && MovedBack(old(leastRecentlyUsed), leastRecentlyUsed, used)
    {
      ghost var before, done: set<RangeKey> := leastRecentlyUsed, {};
      MovedNothing(before);
      var pending := used;
      while pending != {}
        invariant done !! pending && done + pending == used
        invariant Valid() && MovedBack(before, leastRecentlyUsed, done)
        decreases pending
      {
        var k :| k in pending;
        pending := pending - {k};
        TouchOne(entries, before, leastRecentlyUsed, done, k);
        leastRecentlyUsed := Without(leastRecentlyUsed, {k}) + [k];
        done := done + {k};
      }
      assert done == used;
    }

    /** Storing a slice of its revision keeps the tier truthful. */
    method InsertTruth(key: RangeKey, value: Bytes, ghost content: RevisionKey -> Bytes)
      requires Valid() && Truthful(entries, content) && (value != [] ==> IsSlice(content, key.file, key.offset, value))
      modifies this
      ensures Valid() && Truthful(entries, content)
      ensures ValidPayload(key, value) && 0 < |value| <= maximumBytes ==> key in entries && entries[key] == value
    {
      ghost var all := entries[key := value];
      if ValidPayload(key, value) && 0 < |value| <= maximumBytes {
        assert Truthful(all, content);
      }
      Insert(key, value);
      assert forall k :: k in entries ==> k in all && (entries[k] == all[k] || entries == old(entries));
    }

    /** Store a range, then drop the oldest entries until the bound holds again. A payload that is
        empty, malformed or larger than the whole cache is ignored. */
    method Insert(key: RangeKey, value: Bytes)
      requires Valid()
      modifies this
      ensures Valid()
      ensures !ValidPayload(key, value) || value == [] || |value| > maximumBytes ==>
                entries == old(entries) && leastRecentlyUsed == old(leastRecentlyUsed)
      ensures ValidPayload(key, value) && 0 < |value| <= maximumBytes ==>
                var all := old(entries)[key := value];
                && leastRecentlyUsed == Keep(all, Without(old(leastRecentlyUsed), {key}) + [key], maximumBytes)
                && entries == Restrict(all, leastRecentlyUsed)
                && key in entries && entries[key] == value
                && Moves(old(leastRecentlyUsed), leastRecentlyUsed, Store(key))
    {
      if !ValidPayload(key, value) || value == [] || |value| > maximumBytes {
        return;
      }
      ghost var all := entries[key := value];
      Enqueue(key, value);
      ghost var queue := leastRecentlyUsed;
      EvictOldest(all);
      KeptIsValid(all, queue, key, maximumBytes);
      KeepIsLongestFit(all, queue, maximumBytes);
      assert leastRecentlyUsed == queue[|queue| - |leastRecentlyUsed|..];
    }

    /** Replace or add the entry and queue its key last, before any eviction. */
    method Enqueue(key: RangeKey, value: Bytes)
      requires Valid()
      modifies this
      ensures entries == old(entries)[key := value] && leastRecentlyUsed == Without(old(leastRecentlyUsed), {key}) + [key]
      ensures Distinct(leastRecentlyUsed) && forall k :: k in leastRecentlyUsed <==> k in entries
      ensures bytes == Total(entries, leastRecentlyUsed)
    {
      InsertTotals(entries, leastRecentlyUsed, key, value);
      if key in entries {
        RemoveOne(entries, leastRecentlyUsed, key);
        bytes := bytes - |entries[key]|;
      }
      leastRecentlyUsed := Without(leastRecentlyUsed, {key});
      bytes := bytes + |value|;
      entries := entries[key := value];
      leastRecentlyUsed := leastRecentlyUsed + [key];
    }

    /** The eviction loop of `insert`. */
    method EvictOldest(ghost all: Entries)
      requires Distinct(leastRecentlyUsed) && forall k :: k in leastRecentlyUsed <==> k in all
      requires entries == all && bytes == Total(all, leastRecentlyUsed)
      modifies this
      ensures leastRecentlyUsed == Keep(all, old(leastRecentlyUsed), maximumBytes) && Distinct(leastRecentlyUsed)
      ensures entries == Restrict(all, leastRecentlyUsed) && bytes == Total(all, leastRecentlyUsed)
    {
      while bytes > maximumBytes
        invariant Distinct(leastRecentlyUsed) && forall k :: k in leastRecentlyUsed ==> k in all
        invariant entries == Restrict(all, leastRecentlyUsed) && bytes == Total(all, leastRecentlyUsed)
        invariant Keep(all, leastRecentlyUsed, maximumBytes) == Keep(all, old(leastRecentlyUsed), maximumBytes)
        decreases |leastRecentlyUsed|
      {
        var evicted := leastRecentlyUsed[0];
        leastRecentlyUsed := leastRecentlyUsed[1..];
        bytes := bytes - |entries[evicted]|;
        entries := entries - {evicted};
      }
    }

    /** Forget every range of a node. */
    method Invalidate(node: nat)
      requires Valid()
      modifies this
      ensures Valid()
      ensures entries == map k | k in old(entries) && k.file.node != node :: old(entries)[k]
      ensures Moves(old(leastRecentlyUsed), leastRecentlyUsed, Forget(set k | k in old(entries) && k.file.node == node))
    {
      var gone := set k | k in entries && k.file.node == node;
      TotalWithout(entries, leastRecentlyUsed, gone, entries.Keys - gone);
      var removed := BytesUnder(Without(leastRecentlyUsed, entries.Keys - gone));
      bytes := bytes - removed;
      WithoutKeepsDistinct(leastRecentlyUsed, gone);
      leastRecentlyUsed := Without(leastRecentlyUsed, gone);
      entries := map k | k in entries && k.file.node != node :: entries[k];
      TotalOfSameEntries(old(entries), entries, leastRecentlyUsed);
    }

    method BytesUnder(keys: seq<RangeKey>) returns (sum: nat)
      requires forall k :: k in keys ==> k in entries
      ensures sum == Total(entries, keys)
    {
      sum := 0;
      for i := 0 to |keys|
        invariant sum == Total(entries, keys[..i])
      {
        assert keys[..i + 1] == keys[..i] + [keys[i]];
        TotalAppend(entries, keys[..i], keys[i]);
        sum := sum + |entries[keys[i]]|;
      }
      assert keys[..|keys|] == keys;
    }
  }

  lemma SuffixIsValid(all: Entries, queue: seq<RangeKey>, kept: seq<RangeKey>, key: RangeKey)
    requires ValidEntries(all) && Distinct(queue) && (forall k :: k in queue ==> k in all)
    requires 0 < |kept| <= |queue| && kept == queue[|queue| - |kept|..] && queue[|queue| - 1] == key
    ensures var entries := Restrict(all, kept);
            && ValidEntries(entries) && Distinct(kept) && (forall k :: k in kept <==> k in entries)
            && Total(entries, kept) == Total(all, kept)
            && key in entries && entries[key] == all[key]
  {
    assert kept[|kept| - 1] == key;
    TotalOfSameEntries(all, Restrict(all, kept), kept);
  }

  lemma KeptIsValid(all: Entries, queue: seq<RangeKey>, key: RangeKey, maximum: nat)
    requires ValidEntries(all) && Distinct(queue) && (forall k :: k in queue ==> k in all)
    requires queue != [] && queue[|queue| - 1] == key && |all[key]| <= maximum
    ensures var kept := Keep(all, queue, maximum);
            var entries := Restrict(all, kept);
            && ValidEntries(entries) && Distinct(kept) && (forall k :: k in kept <==> k in entries)
            && Total(entries, kept) == Total(all, kept) <= maximum
            && key in entries && entries[key] == all[key]
  {
    KeepIsLongestFit(all, queue, maximum);
    SuffixIsValid(all, queue, Keep(all, queue, maximum), key);
  }

  lemma SliceIsStored(entries: Entries, k: RangeKey, lo: nat, hi: nat)
    requires k in entries && k.offset <= lo <= hi <= k.offset + |entries[k]|
    ensures var piece := entries[k][lo - k.offset..hi - k.offset];
            forall i :: 0 <= i < |piece| ==> Stored(entries, k.file, lo + i, piece[i])
  {
    var piece := entries[k][lo - k.offset..hi - k.offset];
    forall i | 0 <= i < |piece| ensures Stored(entries, k.file, lo + i, piece[i]) {
      assert Has(entries, k, k.file, lo + i) && entries[k][lo + i - k.offset] == piece[i];
    }
  }

  lemma StoredCovers(entries: Entries, key: RangeKey, data: Bytes)
    requires |data| == key.length
    requires forall i :: 0 <= i < |data| ==> Stored(entries, key.file, key.offset + i, data[i])
    ensures Covered(entries, key.file, key.offset, key.End())
  {
    forall p: nat | key.offset <= p < key.End() ensures Cached(entries, key.file, p) {
      assert Stored(entries, key.file, key.offset + (p - key.offset), data[p - key.offset]);
    }
  }

  lemma MoveToBack(entries: Entries, keys: seq<RangeKey>, k: RangeKey)
    requires Distinct(keys) && k in keys && forall x :: x in keys ==> x in entries
    ensures var moved := Without(keys, {k}) + [k];
            Distinct(moved) && Total(entries, moved) == Total(entries, keys) && forall x :: x in moved <==> x in keys
  {
    WithoutKeepsDistinct(keys, {k});
    RemoveOne(entries, keys, k);
    TotalAppend(entries, Without(keys, {k}), k);
  }

  /** One used key goes to the back: the queue stays in order and one more key has moved. */
  lemma TouchOne(entries: Entries, before: seq<RangeKey>, queue: seq<RangeKey>, done: set<RangeKey>, k: RangeKey)
    requires Distinct(queue) && (forall x :: x in queue <==> x in entries) && MovedBack(before, queue, done) && k in entries && k !in done
    ensures var next := Without(queue, {k}) + [k];
            && Distinct(next) && (forall x :: x in next <==> x in entries) && Total(entries, next) == Total(entries, queue)
            && MovedBack(before, next, done + {k})
  {
    MoveToBack(entries, queue, k);
    MovesOneMore(before, queue, done, k);
  }

  lemma {:induction false} RemoveOne(entries: Entries, keys: seq<RangeKey>, k: RangeKey)
    requires Distinct(keys) && forall x :: x in keys ==> x in entries
    ensures Total(entries, keys) == Total(entries, Without(keys, {k})) + if k in keys then |entries[k]| else 0
  {
    if keys != [] {
      RemoveOne(entries, keys[1..], k);
      assert keys[0] !in keys[1..] && keys == [keys[0]] + keys[1..];
      if keys[0] != k {
        assert Without(keys, {k})[1..] == Without(keys[1..], {k});
      }
    }
  }

  /** Replacing or adding one entry at the back of the queue. */
  lemma InsertTotals(entries: Entries, keys: seq<RangeKey>, key: RangeKey, value: Bytes)
    requires Distinct(keys) && forall x :: x in keys <==> x in entries
    ensures var all := entries[key := value];
            var queue := Without(keys, {key}) + [key];
            && Distinct(queue) && (forall x :: x in queue <==> x in all)
            && Total(all, queue) + (if key in entries then |entries[key]| else 0) == Total(entries, keys) + |value|
  {
    var all := entries[key := value];
    var rest := Without(keys, {key});
    WithoutKeepsDistinct(keys, {key});
    RemoveOne(entries, keys, key);
    TotalOfSameEntries(entries, all, rest);
    TotalAppend(all, rest, key);
  }
}
