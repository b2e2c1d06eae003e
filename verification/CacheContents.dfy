/**
 What an insert leaves under every key, what eviction spares, and what a read
 finds afterwards.
 */
module CacheContents {
  import opened Common
  import opened Ranges
  import opened CacheState
  import opened PersistentCache

  // ----- the entries an insert leaves -----

  /** The last store of a key, if it is stored at all. */
  function LastStore(stores: seq<Store>, key: EntryKey): (r: Option<nat>)
    ensures r.None? ==> forall i :: 0 <= i < |stores| ==> stores[i].key != key
    ensures r.Some? ==> r.value < |stores| && stores[r.value].key == key && forall i :: r.value < i < |stores| ==> stores[i].key != key
  {
    if stores == [] then None
    else
      var n := |stores| - 1;
      if stores[n].key == key then Some(n) else LastStore(stores[..n], key)
  }

  /** The entry a key must have if it has one once the stores are in. */
  function EntryAfter(h: Hashes, s: PersistentState, stores: seq<Store>, key: EntryKey): Option<DiskEntry> {
    match LastStore(stores, key)
    case Some(i) => Some(EntryFor(h, stores[i], SaturatingAdd(s.clock, Min(i + 1, U64_MAX))))
    case None => EntryAt(s.entries, key)
  }

  function EntryAt(entries: EntryMap, key: EntryKey): Option<DiskEntry> { if key in entries then Some(entries[key]) else None }

  lemma PutStorePuts(h: Hashes, s: PersistentState, store: Store, key: EntryKey)
    requires Accounted(s)
    ensures var r := PutStore(h, s, store);
            && r.clock == SaturatingAdd(s.clock, 1)
            && EntryAt(r.entries, key) == if key == store.key then Some(EntryFor(h, store, r.clock)) else EntryAt(s.entries, key)
  {
    PutAccounts(s, store.key, EntryFor(h, store, SaturatingAdd(s.clock, 1)));
  }

  lemma SpliceLast(h: Hashes, s: PersistentState, stores: seq<Store>)
    requires Accounted(s) && AllBound(h, s.entries) && stores != []
    ensures var n := |stores| - 1; Splice(h, s, stores) == PutStore(h, Splice(h, s, stores[..n]), stores[n])
  {
  }

  lemma {:induction false} SpliceTicks(h: Hashes, s: PersistentState, stores: seq<Store>)
    requires Accounted(s) && AllBound(h, s.entries)
    ensures Splice(h, s, stores).clock == SaturatingAdd(s.clock, Min(|stores|, U64_MAX))
  {
    if stores != [] {
      var n := |stores| - 1;
      SpliceTicks(h, s, stores[..n]);
      SpliceLast(h, s, stores);
    }
  }

  /** One more store: it binds its own key and leaves the others. */
  lemma OneMoreStore(h: Hashes, s: PersistentState, stores: seq<Store>, key: EntryKey, before: PersistentState, after: PersistentState)
    requires stores != [] && before.clock == SaturatingAdd(s.clock, Min(|stores| - 1, U64_MAX)) && after.clock == SaturatingAdd(before.clock, 1)
    requires EntryAt(before.entries, key) == EntryAfter(h, s, stores[..|stores| - 1], key)
    requires var last := stores[|stores| - 1];
             EntryAt(after.entries, key) == if key == last.key then Some(EntryFor(h, last, after.clock)) else EntryAt(before.entries, key)
    ensures EntryAt(after.entries, key) == EntryAfter(h, s, stores, key)
  {
  }

  /** Splicing binds every stored key to its last store, stamped by its position, and leaves the others. */
  lemma {:induction false} SpliceIsExact(h: Hashes, s: PersistentState, stores: seq<Store>, key: EntryKey)
    requires Accounted(s) && AllBound(h, s.entries)
    ensures EntryAt(Splice(h, s, stores).entries, key) == EntryAfter(h, s, stores, key)
  {
    if stores != [] {
      var n := |stores| - 1;
      SpliceIsExact(h, s, stores[..n], key);
      SpliceTicks(h, s, stores[..n]);
      SpliceLast(h, s, stores);
      PutStorePuts(h, Splice(h, s, stores[..n]), stores[n], key);
      OneMoreStore(h, s, stores, key, Splice(h, s, stores[..n]), Splice(h, s, stores));
    }
  }

  function KeysOf(stores: seq<Store>): set<EntryKey> { set s | s in stores :: s.key }

  lemma StoredKey(stores: seq<Store>, key: EntryKey)
    ensures key in KeysOf(stores) <==> LastStore(stores, key).Some?
  {
    var r := LastStore(stores, key);
    if r.Some? {
      assert stores[r.value] in stores;
    }
  }

  lemma SpliceKeys(h: Hashes, s: PersistentState, stores: seq<Store>)
    requires Accounted(s) && AllBound(h, s.entries)
    ensures Splice(h, s, stores).entries.Keys == s.entries.Keys + KeysOf(stores)
    ensures Overlong(h, s, stores) <==> |s.entries.Keys + KeysOf(stores)| > MAX_MANIFEST_ENTRIES
  {
    var entries := Splice(h, s, stores).entries;
    forall k ensures k in entries.Keys <==> k in s.entries.Keys + KeysOf(stores) {
      SpliceIsExact(h, s, stores, k);
      StoredKey(stores, k);
    }
    assert |entries| == |entries.Keys|;
  }

  /** The insert is refused: a payload exceeds the budget, or there would be too many entries. */
  ghost predicate Refused(h: Hashes, s: PersistentState, stores: seq<Store>, maximum: nat) {
    TooLarge(stores, maximum) || |s.entries.Keys + KeysOf(Stale(h, s.entries, stores))| > MAX_MANIFEST_ENTRIES
  }

  lemma SplicedIsExact(h: Hashes, s: PersistentState, stores: seq<Store>, key: EntryKey, maximum: nat)
    requires StateInv(h, s, maximum) && !Overlong(h, s, stores)
    ensures var r := Spliced(h, s, stores, maximum);
            && r == Evict(Splice(h, s, stores), maximum)
            && (key in r.entries ==> EntryAfter(h, s, stores, key) == Some(r.entries[key]))
  {
    SpliceIsExact(h, s, stores, key);
  }

  /** An insert changes nothing if it is refused. Otherwise every key left has the entry of its last store
      among those that were not current, or its old entry if there is none. */
  lemma InsertIsExact(h: Hashes, s: PersistentState, stores: seq<Store>, key: EntryKey, maximum: nat)
    requires StateInv(h, s, maximum)
    ensures var r := After(h, s, Insert(stores), maximum);
            && (Refused(h, s, stores, maximum) ==> r == s)
            && (!Refused(h, s, stores, maximum) && key in r.entries ==> EntryAfter(h, s, Stale(h, s.entries, stores), key) == Some(r.entries[key]))
  {
    var stale := Stale(h, s.entries, stores);
    SpliceKeys(h, s, stale);
    if !TooLarge(stores, maximum) && stale != [] {
      StaleInBatch(h, s, stores, {}, maximum);
      if !Overlong(h, s, stale) {
        SplicedIsExact(h, s, stale, key, maximum);
      }
    }
  }

  // ----- what eviction spares -----

  /** The entries no older than `e`. */
  ghost function NoOlder(entries: EntryMap, e: DiskEntry): EntryMap { map k | k in entries && OlderOrSame(e, entries[k]) :: entries[k] }

  /** Nothing is evicted without need: whatever went, it and all no older entries exceeded the budget. */
  lemma {:induction false} EvictionIsNeeded(s: PersistentState, maximum: nat, gone: EntryKey)
    requires Accounted(s) && gone in s.entries && gone !in Evict(s, maximum).entries
    ensures Sum(NoOlder(s.entries, s.entries[gone])) > maximum
    decreases |s.entries|
  {
    var k := Oldest(s.entries);
    DropAccounts(s, k);
    if gone == k {
      assert NoOlder(s.entries, s.entries[k]) == s.entries;
    } else {
      EvictionIsNeeded(Drop(s, k), maximum, gone);
      var all := NoOlder(s.entries, s.entries[gone]);
      SumShrinks(all, {k});
      assert NoOlder(Drop(s, k).entries, s.entries[gone]) == all - {k};
    }
  }

  predicate Newest(entries: EntryMap, key: EntryKey) {
    key in entries && forall o :: o in entries && o != key ==> entries[o].lastAccess < entries[key].lastAccess
  }

  /** The newest entry is spared if it fits at all. */
  lemma NewestSurvives(s: PersistentState, maximum: nat, key: EntryKey)
    requires Accounted(s) && Newest(s.entries, key) && s.entries[key].storedLength <= maximum
    ensures key in Evict(s, maximum).entries
  {
    var alone := NoOlder(s.entries, s.entries[key]);
    assert alone == map[key := s.entries[key]];
    SumSplits(alone, key);
    assert alone - {key} == map[];
    if key !in Evict(s, maximum).entries {
      EvictionIsNeeded(s, maximum, key);
    }
  }

  // ----- an insert and a read -----

  lemma NewStoreIsNewest(h: Hashes, s: PersistentState, store: Store)
    requires Accounted(s) && AllBound(h, s.entries) && Clocked(s.clock, s.entries) && s.clock < U64_MAX
    ensures var r := Splice(h, s, [store]);
            Newest(r.entries, store.key) && r.entries[store.key] == EntryFor(h, store, s.clock + 1)
  {
    SpliceIsExact(h, s, [store], store.key);
    var r := Splice(h, s, [store]);
    forall o | o in r.entries && o != store.key ensures r.entries[o].lastAccess < r.entries[store.key].lastAccess {
      SpliceIsExact(h, s, [store], o);
    }
  }

  lemma StaleStore(h: Hashes, entries: EntryMap, store: Store)
    ensures Stale(h, entries, [store]) == if Current(h, entries, store) then [] else [store]
  {
    assert [store][..0] == [];
    assert [] + [store] == [store];
  }

  lemma SplicedStoreBinds(h: Hashes, s: PersistentState, store: Store, maximum: nat)
    requires StateInv(h, s, maximum) && |store.payload| <= maximum && s.clock < U64_MAX && !Overlong(h, s, [store])
    ensures var r := Spliced(h, s, [store], maximum);
            store.key in r.entries && Binds(h, store.key, r.entries[store.key], store.payload)
  {
    NewStoreIsNewest(h, s, store);
    NewestSurvives(Splice(h, s, [store]), maximum, store.key);
  }

  lemma RoomForOne(h: Hashes, s: PersistentState, store: Store)
    requires Accounted(s) && AllBound(h, s.entries) && |s.entries.Keys + {store.key}| <= MAX_MANIFEST_ENTRIES
    ensures !Overlong(h, s, [store])
  {
    assert KeysOf([store]) == {store.key} by { assert [store][0] in [store]; }
    SpliceKeys(h, s, [store]);
  }

  /** One store that fits, with room in the manifest: the key is bound to it afterwards. */
  lemma StoreBinds(h: Hashes, s: PersistentState, store: Store, maximum: nat)
    requires StateInv(h, s, maximum) && |store.payload| <= maximum && s.clock < U64_MAX
    requires |s.entries.Keys + {store.key}| <= MAX_MANIFEST_ENTRIES
    ensures var r := After(h, s, Insert([store]), maximum);
            store.key in r.entries && Binds(h, store.key, r.entries[store.key], store.payload)
    ensures Answer(h, s, [store], maximum).Ok?
  {
    StaleStore(h, s.entries, store);
    RoomForOne(h, s, store);
    if !Current(h, s.entries, store) {
      StaleInBatch(h, s, [store], {}, maximum);
      SplicedStoreBinds(h, s, store, maximum);
    }
  }

  /** Storing a payload and reading its key gives the payload back, whatever else is cached. The exception
      is a payload that counts as current although its file is gone: storing it again writes nothing, and
      the read finds the entry corrupt. */
  method InsertThenRead(c: Cache, key: EntryKey, payload: Bytes) returns (stored: Result<(), CacheError>, r: ReadResult)
    requires c.Valid() && |payload| <= c.maximum && c.state.clock < U64_MAX
    requires |c.state.entries.Keys + {key}| <= MAX_MANIFEST_ENTRIES
    modifies c
    ensures c.Valid() && (!c.ioFailed ==> stored.Ok?)
    ensures stored.Ok? ==> r == if old(Current(c.hashes, c.state.entries, Store(key, payload)) && c.hashes.name(key, payload) !in c.disk.files)
                                then Corrupt else Hit(payload)
  {
    ghost var store, before, files := Store(key, payload), c.state, c.disk.files;
    ghost var outcome, cleaned;
    stored, outcome, cleaned := c.InsertEntries([Store(key, payload)]);
    StoreBinds(c.hashes, before, store, c.maximum);
    StaleStore(c.hashes, before.entries, store);
    if stored.Ok? {
      BoundRead(c, key, payload);
      if !Current(c.hashes, before.entries, store) {
        assert [store][0] in [store] && c.hashes.name(key, payload) in Names(c.hashes, [store]);
        assert c.state.entries[key].fileName in Named(c.state.entries);
      }
    }
    r := c.ReadKey(key);
  }

  /** A disk whose manifest names a payload file that is gone: the cache opens on it, storing the same
      payload changes nothing, and reading the key finds it corrupt. */
  lemma SkippedStoreStaysLost(h: Hashes, store: Store, maximum: nat) returns (d: Disk)
    requires CollisionFree(h) && |store.payload| <= maximum
    ensures DiskSafe(h, d) && Loadable(d.manifest.entries) && d.files == map[] && store.key in d.manifest.entries
    ensures var s := LoadedFrom(d.manifest);
            && StateInv(h, s, maximum) && After(h, s, Insert([store]), maximum) == s
            && ReadDiskEntry(h, d.files, s.entries[store.key], maximum) == Corrupt
  {
    var entries := map[store.key := EntryFor(h, store, 0)];
    d := Disk(Manifest(0, entries), map[]);
    assert Binds(h, store.key, entries[store.key], store.payload);
    CountIsSize(entries);
    assert |entries| == |entries.Keys| == |{store.key}|;
    SumSplits(entries, store.key);
    assert entries - {store.key} == map[];
    StaleStore(h, entries, store);
  }

  /** A bound key of a live cache is read exactly if its file is there. */
  lemma BoundRead(c: Cache, key: EntryKey, payload: Bytes)
    requires c.Valid() && key in c.state.entries && Binds(c.hashes, key, c.state.entries[key], payload)
    ensures ReadDiskEntry(c.hashes, c.disk.files, c.state.entries[key], c.maximum)
            == if c.hashes.name(key, payload) in c.disk.files then Hit(payload) else Corrupt
  {
    EntryFits(c.state, key);
  }

  // ----- recency -----

  /** A hit makes its entry the newest. */
  lemma HitIsNewest(h: Hashes, s: PersistentState, key: EntryKey)
    requires key in s.entries && Clocked(s.clock, s.entries) && s.clock < U64_MAX
    ensures var t := Touch(s, key); Newest(t.entries, key) && Clocked(t.clock, t.entries)
    ensures forall k :: k in s.entries && k != key ==> Touch(s, key).entries[k] == s.entries[k]
  {
  }

  /** What happens to a cache: a job runs, or a key is read while these payload files are there. */
  datatype Op = Run(job: Job) | Read(key: EntryKey, files: map<nat, Bytes>)

  ghost function AfterOp(h: Hashes, s: PersistentState, op: Op, maximum: nat): (r: PersistentState)
    requires StateInv(h, s, maximum)
    ensures StateInv(h, r, maximum)
  {
    match op
    case Run(job) => After(h, s, job, maximum)
    case Read(key, files) => AfterRead(h, files, s, key, maximum)
  }

  ghost predicate Hits(h: Hashes, s: PersistentState, op: Op, key: EntryKey, maximum: nat) {
    op.Read? && op.key == key && key in s.entries && ReadDiskEntry(h, op.files, s.entries[key], maximum).Hit?
  }

  /** The operation neither throws `used` out, by removing it or finding it corrupt, nor uses `idle`. */
  ghost predicate Spared(h: Hashes, s: PersistentState, op: Op, used: EntryKey, idle: EntryKey, maximum: nat) {
    match op
    case Run(Remove(keys)) => used !in keys
    case Run(Insert(stores)) => idle !in KeysOf(Stale(h, s.entries, stores))
    case Read(key, files) => (key == used && used in s.entries ==> Hits(h, s, op, used, maximum)) && !Hits(h, s, op, idle, maximum)
  }

  /** `used` is there as long as `idle` is, and was used more recently. */
  predicate Ahead(s: PersistentState, used: EntryKey, idle: EntryKey) {
    idle in s.entries ==> used in s.entries && s.entries[idle].lastAccess < s.entries[used].lastAccess
  }

  lemma EvictionKeepsAhead(s: PersistentState, used: EntryKey, idle: EntryKey, maximum: nat)
    requires Accounted(s) && Ahead(s, used, idle)
    ensures Ahead(Evict(s, maximum), used, idle)
  {
    var r := Evict(s, maximum);
    if idle in r.entries && used !in r.entries {
      EvictionIsLru(s, maximum, used, idle);
    }
  }

  lemma SpliceKeepsAhead(h: Hashes, s: PersistentState, stores: seq<Store>, used: EntryKey, idle: EntryKey)
    requires Accounted(s) && AllBound(h, s.entries) && Clocked(s.clock, s.entries) && Ahead(s, used, idle) && idle !in KeysOf(stores)
    ensures Ahead(Splice(h, s, stores), used, idle)
  {
    SpliceIsExact(h, s, stores, used);
    SpliceIsExact(h, s, stores, idle);
    StoredKey(stores, idle);
  }

  lemma InsertKeepsAhead(h: Hashes, s: PersistentState, stores: seq<Store>, used: EntryKey, idle: EntryKey, maximum: nat)
    requires StateInv(h, s, maximum) && Ahead(s, used, idle) && idle !in KeysOf(Stale(h, s.entries, stores))
    ensures Ahead(After(h, s, Insert(stores), maximum), used, idle)
  {
    var stale := Stale(h, s.entries, stores);
    if !TooLarge(stores, maximum) && stale != [] {
      StaleInBatch(h, s, stores, {}, maximum);
      SpliceKeepsAhead(h, s, stale, used, idle);
      EvictionKeepsAhead(Splice(h, s, stale), used, idle, maximum);
    }
  }

  lemma OpKeepsAhead(h: Hashes, s: PersistentState, op: Op, used: EntryKey, idle: EntryKey, maximum: nat)
    requires StateInv(h, s, maximum) && Ahead(s, used, idle) && Spared(h, s, op, used, idle, maximum) && used != idle
    ensures Ahead(AfterOp(h, s, op, maximum), used, idle)
  {
    match op {
      case Run(Insert(stores)) => InsertKeepsAhead(h, s, stores, used, idle, maximum);
      case Run(Remove(keys)) =>
      case Read(key, files) =>
    }
  }

  ghost predicate IsRun(h: Hashes, states: seq<PersistentState>, ops: seq<Op>, maximum: nat) {
    && |states| == |ops| + 1 && (forall i :: 0 <= i < |states| ==> StateInv(h, states[i], maximum))
    && forall i {:trigger ops[i]} :: 0 <= i < |ops| ==> states[i + 1] == AfterOp(h, states[i], ops[i], maximum)
  }

  lemma HitIsAhead(h: Hashes, s: PersistentState, op: Op, used: EntryKey, idle: EntryKey, maximum: nat)
    requires StateInv(h, s, maximum) && Hits(h, s, op, used, maximum) && s.clock < U64_MAX && used != idle
    ensures Ahead(AfterOp(h, s, op, maximum), used, idle)
  {
    HitIsNewest(h, s, used);
  }

  /** One operation of a run does not turn the order of the two around. */
  predicate StaysAhead(states: seq<PersistentState>, k: nat, used: EntryKey, idle: EntryKey)
    requires k + 1 < |states|
  {
    Ahead(states[k], used, idle) ==> Ahead(states[k + 1], used, idle)
  }

  lemma {:induction false} AheadPropagates(states: seq<PersistentState>, m: nat, n: nat, used: EntryKey, idle: EntryKey)
    requires m < n < |states| && Ahead(states[m + 1], used, idle)
    requires forall k :: m < k < n ==> StaysAhead(states, k, used, idle)
    ensures Ahead(states[n], used, idle)
  {
    if n > m + 1 {
      AheadPropagates(states, m, n - 1, used, idle);
      assert StaysAhead(states, n - 1, used, idle);
    }
  }

  /** Over any further jobs and reads, an entry that was hit outlives every entry that is not used again:
      as long as the idle one is left, the one that was hit is. */
  lemma HitOutlivesIdle(h: Hashes, states: seq<PersistentState>, ops: seq<Op>, m: nat, n: nat, used: EntryKey, idle: EntryKey, maximum: nat)
    requires IsRun(h, states, ops, maximum) && m < n < |states| && used != idle
    requires Hits(h, states[m], ops[m], used, maximum) && states[m].clock < U64_MAX
    requires forall k :: m < k < n ==> Spared(h, states[k], ops[k], used, idle, maximum)
    ensures idle in states[n].entries ==> used in states[n].entries && states[n].entries[idle].lastAccess < states[n].entries[used].lastAccess
  {
    HitIsAhead(h, states[m], ops[m], used, idle, maximum);
    forall k | m < k < n ensures StaysAhead(states, k, used, idle) {
      if Ahead(states[k], used, idle) {
        OpKeepsAhead(h, states[k], ops[k], used, idle, maximum);
      }
    }
    AheadPropagates(states, m, n, used, idle);
  }
}
