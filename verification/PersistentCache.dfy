/**
 The persistent cache with deferred group commit. Every write to the disk is one
 method, and `history` keeps every disk state that was ever visible, so that a
 crash at any point leaves one of its elements behind.
 */
module PersistentCache {
  import opened Common
  import opened Ranges
  import opened CacheState

  type FileMap = map<EntryKey, nat>

  /** Which file holds the payload of which key. */
  function FilesOf(entries: EntryMap): FileMap { map k | k in entries :: entries[k].fileName }

  function Named(entries: EntryMap): set<nat> { set k | k in entries :: entries[k].fileName }

  datatype Store = Store(key: EntryKey, payload: Bytes)

  datatype Job = Insert(stores: seq<Store>) | Remove(keys: set<EntryKey>)

  /** How an atomic replace ends: an error may come before or after the rename took effect. */
  datatype Replaced = Done | FailedBefore | FailedAfter

  datatype CacheError = InvalidSizeLimit | EntryTooLarge | InvalidManifest | Io

  function EntryFor(h: Hashes, s: Store, lastAccess: u64): DiskEntry {
    DiskEntry(h.name(s.key, s.payload), |s.payload|, h.digest(s.payload), lastAccess)
  }

  function Names(h: Hashes, stores: seq<Store>): set<nat> { set s | s in stores :: h.name(s.key, s.payload) }

  predicate Current(h: Hashes, entries: EntryMap, s: Store) {
    s.key in entries && Binds(h, s.key, entries[s.key], s.payload)
  }

  // ----- what a job does to the in-memory state -----

  /** Phase 2 of an insert: drop the stores whose entry is already current. */
  function Stale(h: Hashes, entries: EntryMap, stores: seq<Store>): (r: seq<Store>)
    ensures forall s :: s in r <==> s in stores && !Current(h, entries, s)
  {
    if stores == [] then []
    else
      var init, last := stores[..|stores| - 1], stores[|stores| - 1];
      assert stores == init + [last];
      if Current(h, entries, last) then Stale(h, entries, init) else Stale(h, entries, init) + [last]
  }

  /** One store put in at the next clock tick. */
  function PutStore(h: Hashes, s: PersistentState, store: Store): PersistentState
    requires Accounted(s)
  {
    var clock := SaturatingAdd(s.clock, 1);
    PutAccounts(s, store.key, EntryFor(h, store, clock));
    Put(s, store.key, EntryFor(h, store, clock)).(clock := clock)
  }

  lemma PutStoreIsSound(h: Hashes, s: PersistentState, store: Store)
    requires Accounted(s) && AllBound(h, s.entries)
    ensures var r := PutStore(h, s, store);
            && Accounted(r) && AllBound(h, r.entries)
            && Named(r.entries) <= Named(s.entries) + {h.name(store.key, store.payload)}
            && (Clocked(s.clock, s.entries) ==> Clocked(r.clock, r.entries))
  {
    var clock := SaturatingAdd(s.clock, 1);
    PutAccounts(s, store.key, EntryFor(h, store, clock));
    assert Binds(h, store.key, EntryFor(h, store, clock), store.payload);
  }

  /** Phase 4 of an insert, before eviction. */
  ghost function Splice(h: Hashes, s: PersistentState, stores: seq<Store>): (r: PersistentState)
    requires Accounted(s) && AllBound(h, s.entries)
    ensures Accounted(r) && AllBound(h, r.entries)
    ensures Named(r.entries) <= Named(s.entries) + Names(h, stores)
    ensures Clocked(s.clock, s.entries) ==> Clocked(r.clock, r.entries)
  {
    if stores == [] then s
    else
      var init, last := stores[..|stores| - 1], stores[|stores| - 1];
      assert stores == init + [last];
      var before := Splice(h, s, init);
      PutStoreIsSound(h, before, last);
      PutStore(h, before, last)
  }

  ghost predicate StateInv(h: Hashes, s: PersistentState, maximum: nat) {
    AllBound(h, s.entries) && Accounted(s) && s.payloadBytes <= maximum && Loadable(s.entries) && Clocked(s.clock, s.entries)
  }

  /** With these stores the manifest would become too long. */
  ghost predicate Overlong(h: Hashes, s: PersistentState, stores: seq<Store>)
    requires Accounted(s) && AllBound(h, s.entries)
  {
    |Splice(h, s, stores).entries| > MAX_MANIFEST_ENTRIES
  }

  /** Phase 4 of an insert: splice and evict, unless the manifest would become too long. */
  ghost function Spliced(h: Hashes, s: PersistentState, stores: seq<Store>, maximum: nat): (r: PersistentState)
    requires StateInv(h, s, maximum)
    ensures StateInv(h, r, maximum)
  {
    var spliced := Splice(h, s, stores);
    CountIsSize(spliced.entries);
    if Overlong(h, s, stores) then s
    else
      CountShrinks(spliced.entries, Evict(spliced, maximum).entries);
      Evict(spliced, maximum)
  }

  predicate TooLarge(stores: seq<Store>, maximum: nat) { exists s :: s in stores && |s.payload| > maximum }

  /** What an insert that meets no I/O error answers. */
  ghost function Answer(h: Hashes, s: PersistentState, stores: seq<Store>, maximum: nat): Result<(), CacheError>
    requires StateInv(h, s, maximum)
  {
    if TooLarge(stores, maximum) then Err(EntryTooLarge)
    else if Stale(h, s.entries, stores) != [] && Overlong(h, s, Stale(h, s.entries, stores)) then Err(InvalidManifest)
    else Ok(())
  }

  /** The state after one job that meets no I/O error. A rejected job changes nothing. */
  ghost function After(h: Hashes, s: PersistentState, job: Job, maximum: nat): (r: PersistentState)
    requires StateInv(h, s, maximum)
    ensures StateInv(h, r, maximum)
  {
    match job
    case Insert(stores) =>
      if TooLarge(stores, maximum) || Stale(h, s.entries, stores) == [] then s
      else Spliced(h, s, Stale(h, s.entries, stores), maximum)
    case Remove(keys) =>
      SumShrinks(s.entries, keys);
      CountShrinks(s.entries, s.entries - keys);
      PersistentState(s.clock, Sum(s.entries - keys), s.entries - keys)
  }

  ghost function AfterAll(h: Hashes, s: PersistentState, jobs: seq<Job>, maximum: nat): (r: PersistentState)
    requires StateInv(h, s, maximum)
    ensures StateInv(h, r, maximum)
  {
    if jobs == [] then s else After(h, AfterAll(h, s, jobs[..|jobs| - 1], maximum), jobs[|jobs| - 1], maximum)
  }

  /** The job does not write and then discard a file that the durable manifest names. */
  ghost predicate Spares(h: Hashes, s: PersistentState, job: Job, durable: set<nat>, maximum: nat)
    requires StateInv(h, s, maximum)
  {
    job.Insert? && !TooLarge(job.stores, maximum) ==>
      (Names(h, Stale(h, s.entries, job.stores)) - Named(After(h, s, job, maximum).entries)) * durable == {}
  }

  ghost predicate AllSpare(h: Hashes, s: PersistentState, jobs: seq<Job>, durable: set<nat>, maximum: nat)
    requires StateInv(h, s, maximum)
  {
    jobs == [] ||
    (var n := |jobs| - 1;
     AllSpare(h, s, jobs[..n], durable, maximum) && Spares(h, AfterAll(h, s, jobs[..n], maximum), jobs[n], durable, maximum))
  }

  // ----- jobs committed one by one, with whatever becomes of their writes -----

  /** How far a job got: it had nothing to write, it failed while writing payloads and had written these,
      or it wrote them all and its manifest write ended so. A job that was refused wrote no manifest. */
  datatype Outcome = Skipped | Unwritten(written: set<nat>) | Wrote(commit: Replaced)

  ghost function StateWith(h: Hashes, s: PersistentState, job: Job, outcome: Outcome, maximum: nat): (r: PersistentState)
    requires StateInv(h, s, maximum)
    ensures StateInv(h, r, maximum)
  {
    if outcome == Wrote(Done) then After(h, s, job, maximum) else s
  }

  /** The files the durable manifest names afterwards; `names` before. A torn write took effect. */
  ghost function NamesWith(h: Hashes, s: PersistentState, names: set<nat>, job: Job, outcome: Outcome, maximum: nat): set<nat>
    requires StateInv(h, s, maximum)
  {
    if outcome.Wrote? && !outcome.commit.FailedBefore? then Named(After(h, s, job, maximum).entries) else names
  }

  ghost function WrittenBy(h: Hashes, s: PersistentState, job: Job, outcome: Outcome): set<nat> {
    match outcome
    case Skipped => {}
    case Unwritten(written) => written
    case Wrote(_) => if job.Insert? then Names(h, Stale(h, s.entries, job.stores)) else {}
  }

  /** The clean-up of the job takes no file that the durable manifest names by then. */
  ghost predicate SparesWith(h: Hashes, s: PersistentState, names: set<nat>, job: Job, outcome: Outcome, maximum: nat, missing: set<nat>)
    requires StateInv(h, s, maximum)
  {
    (WrittenBy(h, s, job, outcome) - Named(StateWith(h, s, job, outcome, maximum).entries))
    * (NamesWith(h, s, names, job, outcome, maximum) - missing) == {}
  }

  /** An insert with something to store is a splice of what is not current. */
  lemma StaleInBatch(h: Hashes, s: PersistentState, stores: seq<Store>, durable: set<nat>, maximum: nat)
    requires StateInv(h, s, maximum) && !TooLarge(stores, maximum) && Stale(h, s.entries, stores) != []
    ensures var after := Spliced(h, s, Stale(h, s.entries, stores), maximum);
            && After(h, s, Insert(stores), maximum) == after
            && (Spares(h, s, Insert(stores), durable, maximum)
                <==> (Names(h, Stale(h, s.entries, stores)) - Named(after.entries)) * durable == {})
  {
  }

  /** The insert went through: the state is what it should be, and every file it wrote for an entry that is
      left is on disk. */
  ghost predicate Inserted(h: Hashes, before: PersistentState, stores: seq<Store>, state: PersistentState, files: set<nat>, maximum: nat)
    requires StateInv(h, before, maximum)
  {
    state == After(h, before, Insert(stores), maximum) && Names(h, Stale(h, before.entries, stores)) * Named(state.entries) <= files
  }

  lemma InsertedMeans(h: Hashes, before: PersistentState, stores: seq<Store>, prepared: seq<Store>, state: PersistentState, files: set<nat>, maximum: nat)
    requires StateInv(h, before, maximum) && prepared == Stale(h, before.entries, stores) && state == After(h, before, Insert(stores), maximum)
    requires Names(h, prepared) * Named(state.entries) <= files
    ensures Inserted(h, before, stores, state, files, maximum)
  {
  }

  /** Outside a batch: what memory holds after an insert that got somewhere. */
  lemma StateOutside(h: Hashes, s: PersistentState, job: Job, outcome: Outcome, after: PersistentState, state: PersistentState, maximum: nat)
    requires StateInv(h, s, maximum) && after == After(h, s, job, maximum) && state == if outcome == Wrote(Done) then after else s
    ensures state == StateWith(h, s, job, outcome, maximum)
  {
  }

  /** And what the manifest names. */
  lemma NamesOutside(h: Hashes, s: PersistentState, names: set<nat>, job: Job, outcome: Outcome, after: PersistentState, manifest: EntryMap, maximum: nat)
    requires StateInv(h, s, maximum) && after == After(h, s, job, maximum)
    requires if outcome.Wrote? && !outcome.commit.FailedBefore? then manifest == after.entries else Named(manifest) == names
    ensures Named(manifest) == NamesWith(h, s, names, job, outcome, maximum)
  {
  }

  lemma SparesMeans(h: Hashes, s: PersistentState, names: set<nat>, job: Job, outcome: Outcome, written: set<nat>, state: PersistentState,
                    names': set<nat>, maximum: nat, missing: set<nat>)
    requires StateInv(h, s, maximum) && written == WrittenBy(h, s, job, outcome)
    requires state == StateWith(h, s, job, outcome, maximum) && names' == NamesWith(h, s, names, job, outcome, maximum)
    ensures SparesWith(h, s, names, job, outcome, maximum, missing) <==> (written - Named(state.entries)) * (names' - missing) == {}
  {
  }

  lemma OutsideMeans(h: Hashes, s: PersistentState, names: set<nat>, job: Job, outcome: Outcome, written: set<nat>, after: PersistentState,
                     state: PersistentState, manifest: EntryMap, maximum: nat, missing: set<nat>)
    requires StateInv(h, s, maximum) && after == After(h, s, job, maximum) && written == WrittenBy(h, s, job, outcome)
    requires state == if outcome == Wrote(Done) then after else s
    requires if outcome.Wrote? && !outcome.commit.FailedBefore? then manifest == after.entries else Named(manifest) == names
    ensures state == StateWith(h, s, job, outcome, maximum) && Named(manifest) == NamesWith(h, s, names, job, outcome, maximum)
    ensures SparesWith(h, s, names, job, outcome, maximum, missing) <==> (written - Named(state.entries)) * (Named(manifest) - missing) == {}
  {
    StateOutside(h, s, job, outcome, after, state, maximum);
    NamesOutside(h, s, names, job, outcome, after, manifest, maximum);
    SparesMeans(h, s, names, job, outcome, written, state, Named(manifest), maximum, missing);
  }

  ghost function StateAfter(h: Hashes, s: PersistentState, jobs: seq<Job>, outcomes: seq<Outcome>, maximum: nat): (r: PersistentState)
    requires StateInv(h, s, maximum) && |outcomes| == |jobs|
    ensures StateInv(h, r, maximum)
  {
    if jobs == [] then s
    else
      var n := |jobs| - 1;
      StateWith(h, StateAfter(h, s, jobs[..n], outcomes[..n], maximum), jobs[n], outcomes[n], maximum)
  }

  ghost function NamesAfter(h: Hashes, s: PersistentState, names: set<nat>, jobs: seq<Job>, outcomes: seq<Outcome>, maximum: nat): set<nat>
    requires StateInv(h, s, maximum) && |outcomes| == |jobs|
  {
    if jobs == [] then names
    else
      var n := |jobs| - 1;
      NamesWith(h, StateAfter(h, s, jobs[..n], outcomes[..n], maximum), NamesAfter(h, s, names, jobs[..n], outcomes[..n], maximum),
                jobs[n], outcomes[n], maximum)
  }

  ghost predicate AllSpareWith(h: Hashes, s: PersistentState, names: set<nat>, jobs: seq<Job>, outcomes: seq<Outcome>, maximum: nat, missing: set<nat>)
    requires StateInv(h, s, maximum) && |outcomes| == |jobs|
  {
    jobs == [] ||
    (var n := |jobs| - 1;
     && AllSpareWith(h, s, names, jobs[..n], outcomes[..n], maximum, missing)
     && SparesWith(h, StateAfter(h, s, jobs[..n], outcomes[..n], maximum), NamesAfter(h, s, names, jobs[..n], outcomes[..n], maximum),
                   jobs[n], outcomes[n], maximum, missing))
  }

  lemma {:induction false} SumShrinks(entries: EntryMap, keys: set<EntryKey>)
    ensures Sum(entries - keys) <= Sum(entries)
    decreases |keys|
  {
    if keys == {} {
      assert entries - keys == entries;
    } else {
      var k :| k in keys;
      SumShrinks(entries, keys - {k});
      var less := entries - (keys - {k});
      if k in less {
        SumSplits(less, k);
        assert entries - keys == less - {k};
      } else {
        assert entries - keys == less;
      }
    }
  }

  // ----- what a read does to it -----

  function Touch(s: PersistentState, key: EntryKey): PersistentState
    requires key in s.entries
  {
    var tick := SaturatingAdd(s.clock, 1);
    s.(clock := tick, entries := s.entries[key := s.entries[key].(lastAccess := tick)])
  }

  lemma TouchKeepsMeaning(h: Hashes, s: PersistentState, key: EntryKey)
    requires key in s.entries && Accounted(s) && AllBound(h, s.entries)
    ensures var t := Touch(s, key);
            && Accounted(t) && AllBound(h, t.entries)
            && FilesOf(t.entries) == FilesOf(s.entries) && Named(t.entries) == Named(s.entries)
  {
    var t := Touch(s, key);
    SumSplits(s.entries, key);
    SumSplits(t.entries, key);
    assert t.entries - {key} == s.entries - {key};
    forall k | k in t.entries ensures exists payload :: Binds(h, k, t.entries[k], payload) {
      var payload :| Binds(h, k, s.entries[k], payload);
      assert Binds(h, k, t.entries[k], payload);
    }
    forall n ensures n in Named(t.entries) <==> n in Named(s.entries) {
      if n in Named(s.entries) {
        var k :| k in s.entries && s.entries[k].fileName == n;
        assert t.entries[k].fileName == n;
      }
    }
  }

  lemma TouchKeepsState(h: Hashes, s: PersistentState, key: EntryKey, maximum: nat)
    requires key in s.entries && StateInv(h, s, maximum)
    ensures StateInv(h, Touch(s, key), maximum)
  {
    TouchKeepsMeaning(h, s, key);
    CountShrinks(s.entries, Touch(s, key).entries);
  }

  /** What a read leaves of the state: a hit is touched, a corrupt entry is gone. */
  ghost function AfterRead(h: Hashes, files: map<nat, Bytes>, s: PersistentState, key: EntryKey, maximum: nat): (r: PersistentState)
    requires StateInv(h, s, maximum)
    ensures StateInv(h, r, maximum)
  {
    if key !in s.entries then s
    else if ReadDiskEntry(h, files, s.entries[key], maximum).Hit? then
      TouchKeepsState(h, s, key, maximum);
      Touch(s, key)
    else After(h, s, Remove({key}), maximum)
  }

  ghost function AfterReads(h: Hashes, files: map<nat, Bytes>, s: PersistentState, keys: seq<EntryKey>, maximum: nat): (r: PersistentState)
    requires StateInv(h, s, maximum)
    ensures StateInv(h, r, maximum)
  {
    if keys == [] then s else AfterRead(h, files, AfterReads(h, files, s, keys[..|keys| - 1], maximum), keys[|keys| - 1], maximum)
  }

  lemma OneMoreRead(h: Hashes, files: map<nat, Bytes>, s: PersistentState, keys: seq<EntryKey>, i: nat, maximum: nat)
    requires StateInv(h, s, maximum) && i < |keys|
    ensures AfterReads(h, files, s, keys[..i + 1], maximum) == AfterRead(h, files, AfterReads(h, files, s, keys[..i], maximum), keys[i], maximum)
  {
    assert keys[..i + 1][..i] == keys[..i];
  }

  // ----- the loops that compute it -----

  /** Distinct keys never share a payload file, so the eviction order has no ties. */
  lemma OldestIsUnique(h: Hashes, entries: EntryMap, k: EntryKey, k': EntryKey)
    requires CollisionFree(h) && AllBound(h, entries) && IsOldest(entries, k) && IsOldest(entries, k')
    ensures k == k'
  {
    var b :| Binds(h, k, entries[k], b);
    var b' :| Binds(h, k', entries[k'], b');
    BindingIsUnique(h, k, entries[k], k', entries[k'], b, b');
  }

  lemma EvictStep(h: Hashes, s: PersistentState, maximum: nat, key: EntryKey)
    requires CollisionFree(h) && AllBound(h, s.entries) && Accounted(s)
    requires s.payloadBytes > maximum && IsOldest(s.entries, key)
    ensures s.entries[key].storedLength <= s.payloadBytes
    ensures Accounted(Drop(s, key)) && AllBound(h, Drop(s, key).entries) && |Drop(s, key).entries| < |s.entries|
    ensures Evict(Drop(s, key), maximum) == Evict(s, maximum)
  {
    OldestIsUnique(h, s.entries, key, Oldest(s.entries));
    DropAccounts(s, key);
  }

  method EvictToBudget(ghost h: Hashes, s: PersistentState, maximum: nat) returns (r: PersistentState)
    requires CollisionFree(h) && AllBound(h, s.entries) && Accounted(s)
    ensures r == Evict(s, maximum)
  {
    r := s;
    while r.payloadBytes > maximum
      invariant AllBound(h, r.entries) && Accounted(r) && Evict(r, maximum) == Evict(s, maximum)
      decreases |r.entries|
    {
      assert r.entries != map[];
      OldestExists(r.entries);
      var key :| IsOldest(r.entries, key);
      EvictStep(h, r, maximum, key);
      r := Drop(r, key);
    }
  }

  method SpliceStores(h: Hashes, s: PersistentState, stores: seq<Store>) returns (r: PersistentState)
    requires Accounted(s) && AllBound(h, s.entries)
    ensures r == Splice(h, s, stores)
  {
    r := s;
    for i := 0 to |stores|
      invariant r == Splice(h, s, stores[..i])
    {
      assert stores[..i + 1][..i] == stores[..i];
      r := PutStore(h, r, stores[i]);
    }
    assert stores[..|stores|] == stores;
  }

  method DropKeys(s: PersistentState, keys: set<EntryKey>) returns (r: PersistentState)
    requires Accounted(s)
    ensures r == PersistentState(s.clock, Sum(s.entries - keys), s.entries - keys)
  {
    r := s;
    var pending := keys;
    while pending != {}
      invariant pending <= keys && Accounted(r) && r.clock == s.clock && r.entries == s.entries - (keys - pending)
    {
      var key :| key in pending;
      DropAccounts(r, key);
      pending := pending - {key};
      assert s.entries - (keys - pending) == s.entries - (keys - (pending + {key})) - {key};
      r := Drop(r, key);
    }
    assert keys - {} == keys;
  }

  lemma GenuineWithOneMore(h: Hashes, files: map<nat, Bytes>, key: EntryKey, payload: Bytes)
    requires CollisionFree(h) && FilesGenuine(h, files)
    ensures FilesGenuine(h, files[h.name(key, payload) := payload])
  {
  }

  /** The state `load_manifest` makes of a manifest. */
  ghost function LoadedFrom(m: Manifest): (s: PersistentState)
    ensures Accounted(s)
  {
    PersistentState(m.clock, Sum(m.entries), m.entries)
  }

  // ----- disk states over time -----

  /** A crash in this disk state does no harm: whatever is found under a name is what the name stands for,
      and the manifest can be loaded and is the one found at the start or a whole one that was proposed
      since. */
  ghost predicate SafeDisk(h: Hashes, d: Disk, versions: seq<FileMap>, first: Manifest, maximum: nat) {
    && DiskSafe(h, d) && FilesOf(d.manifest.entries) in versions && Loadable(d.manifest.entries)
    && (d.manifest == first || Sum(d.manifest.entries) <= maximum)
  }

  ghost predicate SafeHistory(h: Hashes, history: seq<Disk>, versions: seq<FileMap>, first: Manifest, maximum: nat) {
    history == [] ||
    (SafeHistory(h, history[..|history| - 1], versions, first, maximum) && SafeDisk(h, history[|history| - 1], versions, first, maximum))
  }

  /** Every file the manifest names is there, except those in `missing`. */
  predicate Present(d: Disk, missing: set<nat>) { Named(d.manifest.entries) <= d.files.Keys + missing }

  predicate AlwaysPresent(history: seq<Disk>, missing: set<nat>) {
    history == [] || (AlwaysPresent(history[..|history| - 1], missing) && Present(history[|history| - 1], missing))
  }

  lemma {:induction false} SafeAtAnyTime(h: Hashes, history: seq<Disk>, versions: seq<FileMap>, first: Manifest, maximum: nat, d: Disk)
    requires SafeHistory(h, history, versions, first, maximum) && d in history
    ensures SafeDisk(h, d, versions, first, maximum)
  {
    if d != history[|history| - 1] {
      assert d in history[..|history| - 1];
      SafeAtAnyTime(h, history[..|history| - 1], versions, first, maximum, d);
    }
  }

  lemma {:induction false} PresentAtAnyTime(history: seq<Disk>, missing: set<nat>)
    ensures AlwaysPresent(history, missing) <==> forall d :: d in history ==> Present(d, missing)
  {
    if history != [] {
      var init, last := history[..|history| - 1], history[|history| - 1];
      assert history == init + [last];
      PresentAtAnyTime(init, missing);
    }
  }

  lemma {:induction false} MoreVersionsStaySafe(h: Hashes, history: seq<Disk>, versions: seq<FileMap>, v: FileMap, first: Manifest, maximum: nat)
    requires SafeHistory(h, history, versions, first, maximum)
    ensures SafeHistory(h, history, versions + [v], first, maximum)
  {
    if history != [] {
      MoreVersionsStaySafe(h, history[..|history| - 1], versions, v, first, maximum);
    }
  }

  lemma AppendDisk(h: Hashes, history: seq<Disk>, d: Disk, versions: seq<FileMap>, first: Manifest, maximum: nat, missing: set<nat>)
    requires SafeHistory(h, history, versions, first, maximum) && SafeDisk(h, d, versions, first, maximum)
    ensures SafeHistory(h, history + [d], versions, first, maximum)
    ensures AlwaysPresent(history + [d], missing) <==> AlwaysPresent(history, missing) && Present(d, missing)
  {
    assert (history + [d])[..|history|] == history;
  }

  /** Writing a payload under its name, after any safe history. */
  lemma PayloadAppended(h: Hashes, history: seq<Disk>, store: Store, versions: seq<FileMap>, first: Manifest, maximum: nat, missing: set<nat>)
    requires CollisionFree(h) && history != [] && SafeHistory(h, history, versions, first, maximum)
    ensures var d := history[|history| - 1];
            var d' := d.(files := d.files[h.name(store.key, store.payload) := store.payload]);
            && SafeHistory(h, history + [d'], versions, first, maximum)
            && AlwaysPresent(history + [d'], missing) == AlwaysPresent(history, missing)
            && d'.files.Keys == d.files.Keys + {h.name(store.key, store.payload)}
  {
    var d := history[|history| - 1];
    GenuineWithOneMore(h, d.files, store.key, store.payload);
    AppendDisk(h, history, d.(files := d.files[h.name(store.key, store.payload) := store.payload]), versions, first, maximum, missing);
  }

  // ----- the cache -----

  class Cache {
    const hashes: Hashes
    const maximum: nat
    /** The manifest the cache was opened on. */
    ghost const firstManifest: Manifest
    /** Files the manifest already named in vain when the cache was opened. */
    ghost const missing: set<nat>
    var state: PersistentState
    var active: bool
    var dirty: bool
    var pendingRemovals: set<nat>
    var disk: Disk
    /** Every disk state since the cache was opened. */
    ghost var history: seq<Disk>
    /** The key-to-file map of every state that was ever proposed, oldest first. */
    ghost var versions: seq<FileMap>
    /** Files that no entry names: written by an insert in progress, or left by a crash. */
    ghost var loose: set<nat>
    /** Some disk operation has failed. */
    ghost var ioFailed: bool
    /** The last manifest write took effect and then reported an error. */
    ghost var torn: bool
    /** Some manifest write did. */
    ghost var everTorn: bool

    ghost predicate CrashSafe()
      reads this
    {
      && CollisionFree(hashes)
      && history != [] && history[|history| - 1] == disk
      && SafeHistory(hashes, history, versions, firstManifest, maximum)
    }

    ghost predicate Coherent()
      reads this
    {
      && AllBound(hashes, state.entries) && Accounted(state) && Loadable(state.entries) && Clocked(state.clock, state.entries)
      && FilesOf(state.entries) in versions
      && Named(state.entries) <= disk.files.Keys + missing
    }

    ghost predicate Synced()
      reads this
    {
      && (!dirty ==> pendingRemovals == {})
      && (!dirty && !torn ==> FilesOf(disk.manifest.entries) == FilesOf(state.entries))
      && (!ioFailed ==> !torn && disk.files.Keys <= Named(state.entries) + pendingRemovals + loose)
      && (torn ==> everTorn)
    }

    /** The cache may still be over its budget, as when it was opened with a smaller one than before. */
    ghost predicate Loaded()
      reads this
    {
      CrashSafe() && Coherent() && Synced()
    }

    ghost predicate Valid()
      reads this
    {
      Loaded() && state.payloadBytes <= maximum
    }

    /** At every moment so far, every file the durable manifest named was on disk, except those that were
        already missing at the start. */
    ghost predicate Durable()
      reads this
    {
      AlwaysPresent(history, missing)
    }

    /** The files named by the durable manifest that removing `names` would take. */
    ghost function Victims(names: set<nat>): set<nat>
      reads this
    {
      (names - Named(state.entries)) * (Named(disk.manifest.entries) - missing)
    }

    /** Load the namespace directory as a crash or a clean exit left it. */
    constructor (hashes: Hashes, maximum: nat, disk: Disk)
      requires CollisionFree(hashes) && DiskSafe(hashes, disk) && Loadable(disk.manifest.entries)
      ensures Loaded() && Durable() && !active && !dirty && !ioFailed && !everTorn
      ensures this.hashes == hashes && this.maximum == maximum && this.disk == disk && firstManifest == disk.manifest
      ensures state == LoadedFrom(disk.manifest)
      ensures missing == Named(disk.manifest.entries) - disk.files.Keys
      ensures loose == disk.files.Keys - Named(disk.manifest.entries)
    {
      this.hashes := hashes;
      this.maximum := maximum;
      this.disk := disk;
      firstManifest := disk.manifest;
      missing := Named(disk.manifest.entries) - disk.files.Keys;
      active, dirty, pendingRemovals := false, false, {};
      history := [disk];
      versions := [FilesOf(disk.manifest.entries)];
      loose := disk.files.Keys - Named(disk.manifest.entries);
      ioFailed, torn, everTorn := false, false, false;
      var bytes := TotalLength(disk.manifest.entries);
      state := PersistentState(disk.manifest.clock, bytes, disk.manifest.entries);
      new;
      AppendDisk(hashes, [], disk, versions, firstManifest, maximum, missing);
      assert [] + [disk] == history;
    }

    /** `open`: load, evict down to the budget, remove what no entry names. */
    static method Open(hashes: Hashes, maximum: nat, disk: Disk) returns (r: Result<Cache, CacheError>)
      requires CollisionFree(hashes) && DiskSafe(hashes, disk)
      ensures maximum == 0 ==> r == Err(InvalidSizeLimit)
      ensures maximum > 0 ==> (r == Err(InvalidManifest) <==> !Loadable(disk.manifest.entries))
      ensures maximum > 0 && r.Err? ==> r.error.InvalidManifest? || r.error.Io?
      ensures r.Ok? ==> r.value.missing == Named(disk.manifest.entries) - disk.files.Keys
      ensures r.Ok? ==>
                && fresh(r.value) && r.value.Valid() && r.value.Durable() && !r.value.active && !r.value.dirty
                && r.value.hashes == hashes && r.value.maximum == maximum
                && r.value.state == Evict(LoadedFrom(disk.manifest), maximum)
                && r.value.loose == {} && r.value.disk.files.Keys <= Named(r.value.state.entries)
    {
      if maximum == 0 {
        return Err(InvalidSizeLimit);
      }
      CountIsSize(disk.manifest.entries);
      if |disk.manifest.entries| > MAX_MANIFEST_ENTRIES {
        return Err(InvalidManifest);
      }
      var cache := new Cache(hashes, maximum, disk);
      var ok := cache.Tidy();
      return if ok then Ok(cache) else Err(Io);
    }

    /** The end of `open`. */
    method Tidy() returns (ok: bool)
      requires Loaded() && !active && !dirty && !torn
      modifies this`state, this`dirty, this`pendingRemovals, this`disk, this`history, this`versions, this`loose, this`ioFailed, this`torn,
               this`everTorn
      ensures Durable() == old(Durable())
      ensures ok ==> Valid() && !dirty && state == Evict(old(state), maximum) && loose == {} && disk.files.Keys <= Named(state.entries)
    {
      ok := EnforceBudget();
      if ok {
        ok := RemoveOrphanedFiles();
      }
    }

    method EnforceBudget() returns (ok: bool)
      requires Loaded() && !active && !dirty && !torn
      modifies this`state, this`dirty, this`pendingRemovals, this`disk, this`history, this`versions, this`ioFailed, this`torn, this`everTorn
      ensures Loaded() && Durable() == old(Durable())
      ensures ok ==> Valid() && state == Evict(old(state), maximum) && !dirty && !torn && ioFailed == old(ioFailed)
    {
      if state.payloadBytes <= maximum {
        return true;
      }
      var evicted := EvictToBudget(hashes, state, maximum);
      EvictedIsNamed(hashes, state, maximum);
      ghost var outcome;
      ok, outcome := CommitState(evicted);
    }

    /** Write one payload file under its content-addressed name. */
    method WritePayload(store: Store) returns (ok: bool)
      requires Valid()
      modifies this`disk, this`history, this`loose, this`ioFailed
      ensures Valid() && Durable() == old(Durable())
      ensures disk.manifest == old(disk.manifest) && old(disk.files.Keys) <= disk.files.Keys
      ensures ok ==> hashes.name(store.key, store.payload) in disk.files
      ensures loose <= old(loose) + {hashes.name(store.key, store.payload)}
      ensures (ok || ioFailed) && (old(ioFailed) ==> ioFailed)
      ensures ok ==> ioFailed == old(ioFailed)
    {
      var name := hashes.name(store.key, store.payload);
      var outcome: Replaced := *;
      ok := outcome.Done?;
      if !outcome.FailedBefore? {
        PayloadAppended(hashes, history, store, versions, firstManifest, maximum, missing);
        disk := disk.(files := disk.files[name := store.payload]);
        loose := loose + {name};
        history := history + [disk];
      }
      if !ok {
        ioFailed := true;
      }
    }

    /** Replace the manifest by atomic rename. The files it names must be there first. */
    method WriteManifest(proposed: PersistentState) returns (outcome: Replaced)
      requires CrashSafe() && StateInv(hashes, proposed, maximum) && FilesOf(proposed.entries) in versions
      requires Named(proposed.entries) <= disk.files.Keys + missing
      modifies this`disk, this`history, this`ioFailed, this`torn, this`everTorn
      ensures CrashSafe() && disk.files == old(disk.files) && Durable() == old(Durable())
      ensures outcome.Done? ==> disk.manifest.entries == proposed.entries && !torn && ioFailed == old(ioFailed)
      ensures outcome.FailedBefore? ==> disk == old(disk) && torn == old(torn) && ioFailed
      ensures outcome.FailedAfter? ==> disk.manifest.entries == proposed.entries && torn && ioFailed
      ensures everTorn == (old(everTorn) || outcome.FailedAfter?)
    {
      outcome := *;
      if !outcome.FailedBefore? {
        disk := disk.(manifest := Manifest(proposed.clock, proposed.entries));
        AppendDisk(hashes, history, disk, versions, firstManifest, maximum, missing);
        history := history + [disk];
        torn := outcome.FailedAfter?;
        everTorn := everTorn || torn;
      }
      if !outcome.Done? {
        ioFailed := true;
      }
    }

    /** Remove one file. It is missed from then on exactly if the durable manifest names it. */
    method RemoveFile(name: nat) returns (ok: bool)
      requires CrashSafe()
      modifies this`disk, this`history, this`ioFailed
      ensures CrashSafe() && disk.manifest == old(disk.manifest)
      ensures ok ==> disk.files == old(disk.files) - {name} && ioFailed == old(ioFailed)
      ensures !ok ==> ioFailed && disk == old(disk)
      ensures Durable() <==> old(Durable()) && !(ok && name in Named(disk.manifest.entries) - missing)
    {
      ok := *;
      if ok {
        disk := disk.(files := disk.files - {name});
        AppendDisk(hashes, history, disk, versions, firstManifest, maximum, missing);
        history := history + [disk];
      } else {
        ioFailed := true;
      }
    }

    /** Remove the named files unless the current state still refers to them; stop at the first error. The
        durable manifest is not consulted. */
    method RemoveUnreferencedFiles(names: set<nat>) returns (ok: bool)
      requires CrashSafe()
      modifies this`disk, this`history, this`ioFailed
      ensures CrashSafe() && disk.manifest == old(disk.manifest)
      ensures disk.files.Keys <= old(disk.files.Keys)
      ensures old(disk.files.Keys) - (names - Named(state.entries)) <= disk.files.Keys
      ensures ok ==> disk.files.Keys == old(disk.files.Keys) - (names - Named(state.entries)) && ioFailed == old(ioFailed)
      ensures (!ok ==> ioFailed) && (old(ioFailed) ==> ioFailed)
      ensures Durable() ==> old(Durable())
      ensures Victims(names) == {} ==> Durable() == old(Durable())
      ensures ok && Victims(names) != {} ==> !Durable()
    {
      ok := true;
      var rest := names;
      while ok && rest != {}
        invariant rest <= names && CrashSafe() && disk.manifest == old(disk.manifest)
        invariant disk.files.Keys <= old(disk.files.Keys)
        invariant old(disk.files.Keys) - (names - Named(state.entries)) <= disk.files.Keys
        invariant ok ==> disk.files.Keys == old(disk.files.Keys) - ((names - rest) - Named(state.entries)) && ioFailed == old(ioFailed)
        invariant (!ok ==> ioFailed) && (old(ioFailed) ==> ioFailed)
        invariant Durable() ==> old(Durable())
        invariant Victims(names) == {} ==> Durable() == old(Durable())
        invariant ok && Victims(names - rest) != {} ==> !Durable()
        decreases ok, rest
      {
        var name :| name in rest;
        assert name in Victims(names) || name in Named(state.entries) || name !in Named(disk.manifest.entries) - missing;
        rest := rest - {name};
        assert Victims(names - rest) <= Victims(names - rest - {name}) + {name};
        if name !in Named(state.entries) {
          ok := RemoveFile(name);
        }
      }
      assert names - {} == names;
    }

    /** Make `proposed` the current state. Inside a batch the manifest write and the removal of
        obsolete files wait for the flush; otherwise they happen now, manifest first. */
    method CommitState(proposed: PersistentState) returns (ok: bool, ghost outcome: Replaced)
      requires Loaded() && StateInv(hashes, proposed, maximum)
      requires Named(proposed.entries) <= disk.files.Keys + missing
      modifies this`state, this`dirty, this`pendingRemovals, this`disk, this`history, this`versions, this`ioFailed, this`torn, this`everTorn
      ensures Loaded() && (old(Valid()) || state == proposed ==> Valid()) && Durable() == old(Durable())
      ensures state == proposed || state == old(state)
      ensures active ==> ok && state == proposed && disk == old(disk) && history == old(history) && dirty && ioFailed == old(ioFailed)
      ensures !active ==> Committed(old(state), old(disk.manifest.entries), proposed, outcome)
      ensures ok ==> state == proposed && ioFailed == old(ioFailed)
      ensures ok && !old(torn) ==> !torn
      ensures (ok || ioFailed) && (old(ioFailed) ==> ioFailed) && (old(everTorn) ==> everTorn)
      ensures !active && ok ==> !dirty
      ensures !active && !old(dirty) ==> !dirty
      ensures disk.files.Keys <= old(disk.files.Keys)
      ensures old(disk.files.Keys) * Named(state.entries) <= disk.files.Keys
    {
      var obsolete := Named(state.entries) - Named(proposed.entries);
      MoreVersionsStaySafe(hashes, history, versions, FilesOf(proposed.entries), firstManifest, maximum);
      versions := versions + [FilesOf(proposed.entries)];
      if active {
        state := proposed;
        dirty := true;
        pendingRemovals := pendingRemovals + obsolete;
        return true, Done;
      }
      ok, outcome := CommitNow(proposed, obsolete);
    }

    /** What memory and manifest hold after a commit, by the fate of the manifest write: both the new state,
        both what they held, or the manifest the new and memory the old one. */
    ghost predicate Committed(before: PersistentState, manifest: EntryMap, proposed: PersistentState, outcome: Replaced)
      reads this
    {
      && state == (if outcome.Done? then proposed else before)
      && disk.manifest.entries == if outcome.FailedBefore? then manifest else proposed.entries
    }

    /** The commit outside a batch: manifest, then memory, then removals, so no file the durable manifest
        names is removed. Starting in step, memory and manifest stay in step unless the manifest write
        reports an error after it took effect. */
    method CommitNow(proposed: PersistentState, obsolete: set<nat>) returns (ok: bool, outcome: Replaced)
      requires Loaded() && !active && StateInv(hashes, proposed, maximum)
      requires Named(proposed.entries) <= disk.files.Keys + missing && FilesOf(proposed.entries) in versions
      requires obsolete == Named(state.entries) - Named(proposed.entries)
      modifies this`state, this`dirty, this`pendingRemovals, this`disk, this`history, this`ioFailed, this`torn, this`everTorn
      ensures Loaded() && (old(Valid()) || state == proposed ==> Valid()) && Durable() == old(Durable())
      ensures Committed(old(state), old(disk.manifest.entries), proposed, outcome)
      ensures ok ==> state == proposed && ioFailed == old(ioFailed) && !dirty && !torn
      ensures (ok || ioFailed) && (old(ioFailed) ==> ioFailed) && (old(everTorn) ==> everTorn)
      ensures !old(dirty) ==> !dirty
      ensures disk.files.Keys <= old(disk.files.Keys)
      ensures old(disk.files.Keys) * Named(state.entries) <= disk.files.Keys
      ensures !old(dirty) && !old(torn) ==>
                (FilesOf(disk.manifest.entries) == FilesOf(state.entries)
                 <==> !outcome.FailedAfter? || FilesOf(proposed.entries) == FilesOf(old(state.entries)))
    {
      outcome := WriteManifest(proposed);
      if !outcome.Done? {
        return false, outcome;
      }
      state := proposed;
      ok := Settle(pendingRemovals + obsolete);
    }

    /** The manifest is written: nothing is pending any more, and the obsolete files can go. */
    method Settle(obsolete: set<nat>) returns (ok: bool)
      requires CrashSafe() && Coherent() && disk.manifest.entries == state.entries && !torn
      requires !ioFailed ==> disk.files.Keys <= Named(state.entries) + obsolete + loose
      modifies this`dirty, this`pendingRemovals, this`disk, this`history, this`ioFailed
      ensures Loaded() && Durable() == old(Durable()) && !dirty && disk.manifest == old(disk.manifest)
      ensures disk.files.Keys <= old(disk.files.Keys)
      ensures old(disk.files.Keys) * Named(state.entries) <= disk.files.Keys
      ensures (ok ==> ioFailed == old(ioFailed)) && (ok || ioFailed) && (old(ioFailed) ==> ioFailed)
    {
      dirty := false;
      pendingRemovals := {};
      ok := RemoveUnreferencedFiles(obsolete);
    }

    /** Enter group-commit mode. */
    method BeginDeferredCommits()
      requires Valid()
      modifies this`active
      ensures Valid() && active
    {
      active := true;
    }

    /** Leave group-commit mode: one manifest write for the whole batch, then the removals, so no file the
        durable manifest names is removed. On a manifest error the dirty flag and the removals are
        kept for the next flush. */
    method FlushDeferredCommits() returns (ok: bool)
      requires Valid()
      modifies this`active, this`dirty, this`pendingRemovals, this`disk, this`history, this`ioFailed, this`torn, this`everTorn
      ensures Valid() && !active && Durable() == old(Durable())
      ensures ok ==> !dirty && ioFailed == old(ioFailed)
      ensures (ok || ioFailed) && (old(ioFailed) ==> ioFailed) && (old(everTorn) ==> everTorn)
      ensures dirty ==> pendingRemovals == old(pendingRemovals)
      ensures ok && (old(dirty) || !old(torn)) ==> FilesOf(disk.manifest.entries) == FilesOf(state.entries)
    {
      active := false;
      if !dirty {
        return true;
      }
      var outcome := WriteManifest(state);
      if !outcome.Done? {
        return false;
      }
      ok := Settle(pendingRemovals);
    }

    /** `remove_keys_locked`. Inside a batch it touches only memory, so it may run between the phases
        of an insert. */
    method RemoveKeys(keys: set<EntryKey>) returns (ok: bool, ghost outcome: Outcome)
      requires Valid()
      modifies this`state, this`dirty, this`pendingRemovals, this`disk, this`history, this`versions, this`ioFailed, this`torn, this`everTorn
      ensures Valid() && Durable() == old(Durable())
      ensures ok ==> state == After(hashes, old(state), Remove(keys), maximum) && ioFailed == old(ioFailed)
      ensures (ok || ioFailed) && (old(ioFailed) ==> ioFailed) && (old(everTorn) ==> everTorn)
      ensures active ==> ok && disk == old(disk) && history == old(history)
      ensures !active && !old(dirty) ==> !dirty
      ensures !outcome.Unwritten? && (!active ==> Ran(old(state), Named(old(disk.manifest.entries)), Remove(keys), outcome))
    {
      if keys == {} {
        assert state.entries - keys == state.entries;
        return true, Skipped;
      }
      var proposed := DropKeys(state, keys);
      SumShrinks(state.entries, keys);
      CountShrinks(state.entries, proposed.entries);
      ghost var commit;
      ok, commit := CommitState(proposed);
      outcome := Wrote(commit);
    }

    /** What memory and manifest hold after a job outside a batch. */
    ghost predicate Ran(before: PersistentState, names: set<nat>, job: Job, outcome: Outcome)
      reads this
      requires StateInv(hashes, before, maximum)
    {
      && state == StateWith(hashes, before, job, outcome, maximum)
      && Named(disk.manifest.entries) == NamesWith(hashes, before, names, job, outcome, maximum)
    }

    /** Phase 3 of an insert, without the state lock: write the payload files one by one. */
    method WritePayloads(stores: seq<Store>) returns (ok: bool, written: set<nat>)
      requires Valid()
      modifies this`disk, this`history, this`loose, this`ioFailed
      ensures Valid() && Durable() == old(Durable())
      ensures disk.manifest == old(disk.manifest) && old(disk.files.Keys) <= disk.files.Keys
      ensures ok ==> Names(hashes, stores) <= disk.files.Keys && ioFailed == old(ioFailed)
      ensures ok ==> written == Names(hashes, stores) && loose <= old(loose) + written
      ensures written <= Names(hashes, stores)
      ensures (ok || ioFailed) && (old(ioFailed) ==> ioFailed)
    {
      written := {};
      for i := 0 to |stores|
        invariant Valid() && Durable() == old(Durable())
        invariant disk.manifest == old(disk.manifest) && old(disk.files.Keys) <= disk.files.Keys
        invariant written == Names(hashes, stores[..i]) && written <= disk.files.Keys
        invariant loose <= old(loose) + written && ioFailed == old(ioFailed)
      {
        ok := WritePayload(stores[i]);
        if !ok {
          return false, written;
        }
        assert stores[..i + 1] == stores[..i] + [stores[i]];
        written := written + {hashes.name(stores[i].key, stores[i].payload)};
      }
      assert stores[..|stores|] == stores;
      ok := true;
    }

    /** Phase 4 of an insert, under the state lock: splice, evict and commit. All files of the stores
        must be on disk by now. */
    method SpliceIn(stores: seq<Store>) returns (r: Result<(), CacheError>, ghost outcome: Replaced)
      requires Valid() && Names(hashes, stores) <= disk.files.Keys
      modifies this`state, this`dirty, this`pendingRemovals, this`disk, this`history, this`versions, this`ioFailed, this`torn, this`everTorn
      ensures Valid() && Durable() == old(Durable())
      ensures !ioFailed || r.Ok? ==> state == Spliced(hashes, old(state), stores, maximum)
      ensures old(disk.files.Keys) * Named(state.entries) <= disk.files.Keys
      ensures active ==> disk == old(disk)
      ensures !active && !old(dirty) ==> !dirty
      ensures (old(ioFailed) ==> ioFailed) && (old(everTorn) ==> everTorn)
      ensures !active ==> Committed(old(state), old(disk.manifest.entries), Spliced(hashes, old(state), stores, maximum), outcome)
      ensures (!ioFailed ==> r == if Overlong(hashes, old(state), stores) then Err(InvalidManifest) else Ok(()))
      ensures r.Ok? ==> !Overlong(hashes, old(state), stores)
    {
      var proposed := SpliceStores(hashes, state, stores);
      CountIsSize(proposed.entries);
      if |proposed.entries| > MAX_MANIFEST_ENTRIES {
        return Err(InvalidManifest), FailedBefore;
      }
      var evicted := EvictToBudget(hashes, proposed, maximum);
      EvictedIsNamed(hashes, proposed, maximum);
      var committed;
      committed, outcome := CommitState(evicted);
      r := if committed then Ok(()) else Err(Io);
    }

    /** Drop the files an insert wrote in vain. That takes a file the durable manifest names exactly if one
        of them is among those. */
    method CleanUp(written: set<nat>) returns (ok: bool)
      requires Valid()
      modifies this`disk, this`history, this`loose, this`ioFailed
      ensures Valid() && disk.manifest == old(disk.manifest)
      ensures old(disk.files.Keys) * Named(state.entries) <= disk.files.Keys
      ensures !ioFailed ==> loose == old(loose) - written
      ensures ok ==> ioFailed == old(ioFailed)
      ensures (ok || ioFailed) && (old(ioFailed) ==> ioFailed)
      ensures Durable() ==> old(Durable())
      ensures Victims(written) == {} ==> Durable() == old(Durable())
      ensures ok && Victims(written) != {} ==> !Durable()
    {
      ok := RemoveUnreferencedFiles(written);
      if ok {
        loose := loose - written;
      }
    }

    /** `insert_entries`, its phases run one after the other. Outside a batch, once the clean-up went through,
        durable presence is kept if and only if the clean-up took no file the durable manifest names by
        then; started in step that can only happen when the manifest write was torn. */
    method InsertEntries(stores: seq<Store>) returns (r: Result<(), CacheError>, ghost outcome: Outcome, ghost cleaned: bool)
      requires Valid()
      modifies this`state, this`dirty, this`pendingRemovals, this`disk, this`history, this`versions, this`loose, this`ioFailed, this`torn,
               this`everTorn
      ensures Valid()
      ensures !ioFailed ==> state == After(hashes, old(state), Insert(stores), maximum) && loose <= old(loose)
      ensures r.Ok? ==> Inserted(hashes, old(state), stores, state, disk.files.Keys, maximum)
      ensures active ==> disk.manifest == old(disk.manifest)
      ensures !active && !old(dirty) ==> !dirty
      ensures (old(ioFailed) ==> ioFailed) && (old(everTorn) ==> everTorn) && (!ioFailed ==> cleaned)
      ensures active && !ioFailed ==>
                (Durable() <==> old(Durable()) && Spares(hashes, old(state), Insert(stores), Named(old(disk.manifest.entries)) - missing, maximum))
      ensures !active && !old(dirty) && !everTorn ==> Durable() == old(Durable())
      ensures !active ==> Ran(old(state), Named(old(disk.manifest.entries)), Insert(stores), outcome)
      ensures outcome.Unwritten? ==> outcome.written <= Names(hashes, Stale(hashes, old(state.entries), stores))
      ensures outcome.Skipped? ==> state == old(state) && disk == old(disk)
      ensures outcome.Skipped? <==> TooLarge(stores, maximum) || Stale(hashes, old(state.entries), stores) == []
      ensures (!ioFailed ==> r == Answer(hashes, old(state), stores, maximum)) && (r.Ok? ==> Answer(hashes, old(state), stores, maximum).Ok?)
      ensures !active && cleaned ==>
                (Durable() <==> old(Durable())
                                && SparesWith(hashes, old(state), Named(old(disk.manifest.entries)), Insert(stores), outcome, maximum, missing))
    {
      if exists s :: s in stores && |s.payload| > maximum {
        return Err(EntryTooLarge), Skipped, true;
      }
      var prepared := Stale(hashes, state.entries, stores);
      ghost var before := state;
      if prepared == [] {
        InsertedMeans(hashes, before, stores, prepared, state, disk.files.Keys, maximum);
        return Ok(()), Skipped, true;
      }
      r, outcome, cleaned := StoreStale(stores, prepared);
      if r.Ok? {
        InsertedMeans(hashes, before, stores, prepared, state, disk.files.Keys, maximum);
      }
    }

    /** The stores that are not current, in terms of the whole job. */
    method StoreStale(ghost stores: seq<Store>, prepared: seq<Store>) returns (r: Result<(), CacheError>, ghost outcome: Outcome, ghost cleaned: bool)
      requires Valid() && !TooLarge(stores, maximum) && prepared == Stale(hashes, state.entries, stores) != []
      modifies this`state, this`dirty, this`pendingRemovals, this`disk, this`history, this`versions, this`loose, this`ioFailed, this`torn,
               this`everTorn
      ensures Valid()
      ensures !ioFailed || r.Ok? ==> state == After(hashes, old(state), Insert(stores), maximum)
      ensures (!ioFailed ==> loose <= old(loose)) && (r.Ok? ==> Names(hashes, prepared) * Named(state.entries) <= disk.files.Keys)
      ensures active ==> disk.manifest == old(disk.manifest)
      ensures !active && !old(dirty) ==> !dirty
      ensures (old(ioFailed) ==> ioFailed) && (old(everTorn) ==> everTorn) && (!ioFailed ==> cleaned)
      ensures active && !ioFailed ==>
                (Durable() <==> old(Durable()) && Spares(hashes, old(state), Insert(stores), Named(old(disk.manifest.entries)) - missing, maximum))
      ensures !active && !old(dirty) && !everTorn ==> Durable() == old(Durable())
      ensures !active ==> Ran(old(state), Named(old(disk.manifest.entries)), Insert(stores), outcome)
      ensures !outcome.Skipped?
      ensures (!ioFailed ==> r == if Overlong(hashes, old(state), prepared) then Err(InvalidManifest) else Ok(()))
      ensures r.Ok? ==> !Overlong(hashes, old(state), prepared)
      ensures outcome.Unwritten? ==> outcome.written <= Names(hashes, Stale(hashes, old(state.entries), stores))
      ensures !active && cleaned ==>
                (Durable() <==> old(Durable())
                                && SparesWith(hashes, old(state), Named(old(disk.manifest.entries)), Insert(stores), outcome, maximum, missing))
    {
      ghost var before, names, job := state, Named(disk.manifest.entries), Insert(stores);
      ghost var written;
      r, written, cleaned, outcome := StorePrepared(prepared);
      StaleInBatch(hashes, before, stores, names - missing, maximum);
      ghost var after := After(hashes, before, job, maximum);
      InStepNames(disk.manifest.entries, state.entries);
      if !active {
        OutsideMeans(hashes, before, names, job, outcome, written, after, state, disk.manifest.entries, maximum, missing);
      }
    }

    /** Phases 3 and 4 of an insert. */
    method StorePrepared(prepared: seq<Store>)
      returns (r: Result<(), CacheError>, ghost written: set<nat>, ghost cleaned: bool, ghost outcome: Outcome)
      requires Valid()
      modifies this`state, this`dirty, this`pendingRemovals, this`disk, this`history, this`versions, this`loose, this`ioFailed, this`torn,
               this`everTorn
      ensures Valid()
      ensures !ioFailed ==> state == Spliced(hashes, old(state), prepared, maximum) && loose <= old(loose) && written == Names(hashes, prepared)
      ensures r.Ok? ==> state == Spliced(hashes, old(state), prepared, maximum) && Names(hashes, prepared) * Named(state.entries) <= disk.files.Keys
      ensures active ==> disk.manifest == old(disk.manifest)
      ensures !active && !old(dirty) ==> !dirty
      ensures (old(ioFailed) ==> ioFailed) && (old(everTorn) ==> everTorn)
      ensures Durable() ==> old(Durable())
      ensures Victims(written) == {} ==> Durable() == old(Durable())
      ensures (!ioFailed ==> cleaned) && (cleaned && Victims(written) != {} ==> !Durable())
      ensures (!ioFailed ==> r == if Overlong(hashes, old(state), prepared) then Err(InvalidManifest) else Ok(()))
      ensures r.Ok? ==> !Overlong(hashes, old(state), prepared)
      ensures !outcome.Skipped? && written == (if outcome.Unwritten? then outcome.written else Names(hashes, prepared)) <= Names(hashes, prepared)
      ensures !active && outcome.Unwritten? ==> state == old(state) && disk.manifest == old(disk.manifest)
      ensures !active && outcome.Wrote? ==>
                Committed(old(state), old(disk.manifest.entries), Spliced(hashes, old(state), prepared, maximum), outcome.commit)
    {
      var ok, files := WritePayloads(prepared);
      written := files;
      if !ok {
        ok := CleanUp(files);
        return Err(Io), files, ok, Unwritten(files);
      }
      ghost var commit;
      r, commit := SpliceIn(prepared);
      ok := CleanUp(files);
      cleaned, outcome := ok, Wrote(commit);
      if r.Ok? && !ok {
        r := Err(Io);
      }
    }

    method RunJob(job: Job) returns (ghost outcome: Outcome, ghost cleaned: bool)
      requires Valid()
      modifies this`state, this`dirty, this`pendingRemovals, this`disk, this`history, this`versions, this`loose, this`ioFailed, this`torn,
               this`everTorn
      ensures Valid()
      ensures !ioFailed ==> state == After(hashes, old(state), job, maximum) && loose <= old(loose)
      ensures active ==> disk.manifest == old(disk.manifest)
      ensures !active && !old(dirty) ==> !dirty
      ensures (old(ioFailed) ==> ioFailed) && (old(everTorn) ==> everTorn) && (!ioFailed ==> cleaned)
      ensures active && !ioFailed ==>
                (Durable() <==> old(Durable()) && Spares(hashes, old(state), job, Named(old(disk.manifest.entries)) - missing, maximum))
      ensures !active && !old(dirty) && !everTorn ==> Durable() == old(Durable())
      ensures !active ==> Ran(old(state), Named(old(disk.manifest.entries)), job, outcome)
      ensures !active && cleaned ==>
                (Durable() <==> old(Durable()) && SparesWith(hashes, old(state), Named(old(disk.manifest.entries)), job, outcome, maximum, missing))
    {
      match job
      case Insert(stores) =>
        var result;
        result, outcome, cleaned := InsertEntries(stores);
      case Remove(keys) =>
        var result;
        result, outcome := RemoveKeys(keys);
        cleaned := true;
    }

    /** One turn of the writer thread: a whole batch under deferred commits, then one flush. Every file the
        durable manifest names stays on disk throughout, if and only if no job of the batch writes and
        then discards one of them. */
    method WriterBatch(jobs: seq<Job>)
      requires Valid() && !active
      modifies this
      ensures Valid() && !active
      ensures !ioFailed ==> Settled(AfterAll(hashes, old(state), jobs, maximum))
      ensures !ioFailed && old(loose) == {} && missing == {} ==> disk.files.Keys == Named(state.entries)
      ensures !ioFailed ==>
                (Durable() <==> old(Durable()) && AllSpare(hashes, old(state), jobs, Named(old(disk.manifest.entries)) - missing, maximum))
    {
      BeginDeferredCommits();
      ghost var outcomes, cleaned;
      outcomes, cleaned := RunJobs(jobs);
      var _ := FlushDeferredCommits();
    }

    /** The same jobs, each committed at once. Every file the durable manifest names stays on disk
        throughout if and only if no clean-up takes one of them, in terms of how far each job got, once
        every clean-up went through; started in step, as long as no manifest write was torn. */
    method RunEach(jobs: seq<Job>) returns (ghost outcomes: seq<Outcome>, ghost cleaned: bool)
      requires Valid() && !active && !dirty
      modifies this
      ensures Valid() && !active && |outcomes| == |jobs|
      ensures !ioFailed ==> Settled(AfterAll(hashes, old(state), jobs, maximum))
      ensures !ioFailed && old(loose) == {} && missing == {} ==> disk.files.Keys == Named(state.entries)
      ensures !everTorn ==> Durable() == old(Durable())
      ensures !ioFailed ==> cleaned
      ensures state == StateAfter(hashes, old(state), jobs, outcomes, maximum)
      ensures Named(disk.manifest.entries) == NamesAfter(hashes, old(state), Named(old(disk.manifest.entries)), jobs, outcomes, maximum)
      ensures cleaned ==>
                (Durable() <==> old(Durable())
                                && AllSpareWith(hashes, old(state), Named(old(disk.manifest.entries)), jobs, outcomes, maximum, missing))
    {
      outcomes, cleaned := RunJobs(jobs);
    }

    /** The state is `s`, and the manifest on disk says the same. */
    ghost predicate Settled(s: PersistentState)
      reads this
    {
      state == s && !dirty && pendingRemovals == {} && FilesOf(disk.manifest.entries) == FilesOf(s.entries)
    }

    /** How the jobs so far have gone outside a batch, in terms of what each one came to. */
    ghost predicate Followed(before: PersistentState, names: set<nat>, durable: bool, jobs: seq<Job>, outcomes: seq<Outcome>, cleaned: bool)
      reads this
      requires StateInv(hashes, before, maximum)
    {
      && |outcomes| == |jobs|
      && state == StateAfter(hashes, before, jobs, outcomes, maximum)
      && Named(disk.manifest.entries) == NamesAfter(hashes, before, names, jobs, outcomes, maximum)
      && (cleaned ==> (Durable() <==> durable && AllSpareWith(hashes, before, names, jobs, outcomes, maximum, missing)))
    }

    method RunJobs(jobs: seq<Job>) returns (ghost outcomes: seq<Outcome>, ghost cleaned: bool)
      requires Valid()
      modifies this`state, this`dirty, this`pendingRemovals, this`disk, this`history, this`versions, this`loose, this`ioFailed, this`torn,
               this`everTorn
      ensures Valid()
      ensures !ioFailed ==> state == AfterAll(hashes, old(state), jobs, maximum) && loose <= old(loose)
      ensures active ==> disk.manifest == old(disk.manifest)
      ensures !active && !old(dirty) ==> !dirty
      ensures (old(ioFailed) ==> ioFailed) && (old(everTorn) ==> everTorn) && (!ioFailed ==> cleaned)
      ensures active && !ioFailed ==>
                (Durable() <==> old(Durable()) && AllSpare(hashes, old(state), jobs, Named(old(disk.manifest.entries)) - missing, maximum))
      ensures !active && !old(dirty) && !everTorn ==> Durable() == old(Durable())
      ensures !active ==> Followed(old(state), Named(old(disk.manifest.entries)), old(Durable()), jobs, outcomes, cleaned)
    {
      outcomes, cleaned := [], true;
      for i := 0 to |jobs|
        invariant Valid()
        invariant !ioFailed ==> state == AfterAll(hashes, old(state), jobs[..i], maximum) && loose <= old(loose)
        invariant active ==> disk.manifest == old(disk.manifest)
        invariant !active && !old(dirty) ==> !dirty
        invariant (old(ioFailed) ==> ioFailed) && (old(everTorn) ==> everTorn) && (!ioFailed ==> cleaned)
        invariant active && !ioFailed ==>
                    (Durable() <==> old(Durable()) && AllSpare(hashes, old(state), jobs[..i], Named(old(disk.manifest.entries)) - missing, maximum))
        invariant !active && !old(dirty) && !everTorn ==> Durable() == old(Durable())
        invariant !active ==> Followed(old(state), Named(old(disk.manifest.entries)), old(Durable()), jobs[..i], outcomes, cleaned)
      {
        assert jobs[..i + 1][..i] == jobs[..i];
        ghost var outcome, clean;
        outcome, clean := RunJob(jobs[i]);
        assert (outcomes + [outcome])[..|outcomes|] == outcomes;
        outcomes, cleaned := outcomes + [outcome], cleaned && clean;
      }
      assert jobs[..|jobs|] == jobs;
    }

    /** `read_key`: a verified payload is touched, a corrupt entry is removed. */
    method ReadKey(key: EntryKey) returns (r: ReadResult)
      requires Valid()
      modifies this`state, this`dirty, this`pendingRemovals, this`disk, this`history, this`versions, this`ioFailed, this`torn, this`everTorn
      ensures Valid() && Durable() == old(Durable())
      ensures r == if key in old(state.entries) then ReadDiskEntry(hashes, old(disk.files), old(state.entries)[key], maximum) else Miss
      ensures !ioFailed || active || !r.Corrupt? ==> state == AfterRead(hashes, old(disk.files), old(state), key, maximum)
      ensures r.Hit? ==> FilesOf(state.entries) == FilesOf(old(state.entries))
      ensures !r.Corrupt? || active ==> disk == old(disk) && history == old(history)
      ensures (!r.Corrupt? || active ==> ioFailed == old(ioFailed)) && (old(ioFailed) ==> ioFailed)
    {
      if key !in state.entries {
        return Miss;
      }
      r := ReadDiskEntry(hashes, disk.files, state.entries[key], maximum);
      if r.Hit? {
        TouchKey(key);
      } else {
        ghost var outcome;
        var result;
        result, outcome := RemoveKeys({key});
      }
    }

    /** A hit is touched, in memory only. */
    method TouchKey(key: EntryKey)
      requires Valid() && key in state.entries
      modifies this`state
      ensures Valid() && state == Touch(old(state), key) && FilesOf(state.entries) == FilesOf(old(state.entries))
    {
      TouchKeepsMeaning(hashes, state, key);
      TouchKeepsState(hashes, state, key, maximum);
      state := Touch(state, key);
    }

    /** A read while a batch runs: only memory changes. */
    method ReadInBatch(key: EntryKey)
      requires Valid() && active
      modifies this`state, this`dirty, this`pendingRemovals, this`disk, this`history, this`versions, this`ioFailed, this`torn, this`everTorn
      ensures Valid() && OnlyMemory(old(disk), old(history), old(ioFailed))
      ensures state == AfterRead(hashes, disk.files, old(state), key, maximum)
    {
      var _ := ReadKey(key);
    }

    ghost predicate OnlyMemory(disk: Disk, history: seq<Disk>, ioFailed: bool)
      reads this
    {
      this.disk == disk && this.history == history && this.ioFailed == ioFailed
    }

    method ReadKeys(keys: seq<EntryKey>)
      requires Valid() && active
      modifies this`state, this`dirty, this`pendingRemovals, this`disk, this`history, this`versions, this`ioFailed, this`torn, this`everTorn
      ensures Valid() && OnlyMemory(old(disk), old(history), old(ioFailed))
      ensures state == AfterReads(hashes, disk.files, old(state), keys, maximum)
    {
      ghost var files, before := disk.files, state;
      for i := 0 to |keys|
        invariant Valid() && OnlyMemory(old(disk), old(history), old(ioFailed))
        invariant state == AfterReads(hashes, files, before, keys[..i], maximum)
      {
        OneMoreRead(hashes, files, before, keys, i, maximum);
        ReadInBatch(keys[i]);
      }
      assert keys[..|keys|] == keys;
    }

    /** While a batch runs, readers may read any keys before and after phase 4 of an insert: they touch what
        they hit and drop what is corrupt, and no file the state names is lost. */
    method StoreAmongReaders(prepared: seq<Store>, earlier: seq<EntryKey>, later: seq<EntryKey>) returns (ghost files: map<nat, Bytes>)
      requires Valid() && active
      modifies this`state, this`dirty, this`pendingRemovals, this`disk, this`history, this`versions, this`loose, this`ioFailed, this`torn,
               this`everTorn
      ensures Valid()
      ensures old(disk.files.Keys) <= files.Keys && (!ioFailed ==> Names(hashes, prepared) <= files.Keys)
      ensures !ioFailed ==> state == AfterReads(hashes, files, Spliced(hashes, AfterReads(hashes, files, old(state), earlier, maximum), prepared, maximum),
                                                later, maximum)
    {
      var ok, written := WritePayloads(prepared);
      files := disk.files;
      SpliceAmongReaders(prepared, ok, earlier, later);
      var _ := CleanUp(written);
    }

    /** Phase 4, if phase 3 went well, with readers before and after. */
    method SpliceAmongReaders(prepared: seq<Store>, written: bool, earlier: seq<EntryKey>, later: seq<EntryKey>)
      requires Valid() && active && (written ==> Names(hashes, prepared) <= disk.files.Keys)
      modifies this`state, this`dirty, this`pendingRemovals, this`disk, this`history, this`versions, this`ioFailed, this`torn, this`everTorn
      ensures Valid() && disk == old(disk) && (old(ioFailed) ==> ioFailed)
      ensures written && !ioFailed ==>
                state == AfterReads(hashes, disk.files, Spliced(hashes, AfterReads(hashes, disk.files, old(state), earlier, maximum), prepared, maximum),
                                    later, maximum)
    {
      ReadKeys(earlier);
      if written {
        var result;
        ghost var commit;
        result, commit := SpliceIn(prepared);
      }
      ReadKeys(later);
    }

    /** The keys that must go with a node: its own, and every directory snapshot that lists it or cannot be
        read. `lists` decodes a snapshot. */
    ghost predicate Concerns(key: EntryKey, node: nat, lists: Bytes -> Option<set<nat>>)
      reads this
      requires key in state.entries
    {
      || NodeOf(key) == Some(node)
      || (key.DirectoryEntry?
          && match ReadDiskEntry(hashes, disk.files, state.entries[key], maximum)
             case Hit(payload) => lists(payload).None? || node in lists(payload).value
             case _ => true)
    }

    /** The scan of `invalidate_node`. */
    method ConcernedKeys(node: nat, lists: Bytes -> Option<set<nat>>) returns (removed: set<EntryKey>)
      ensures forall k :: k in removed <==> k in state.entries && Concerns(k, node, lists)
    {
      removed := set k | k in state.entries && NodeOf(k) == Some(node);
      var candidates := set k | k in state.entries && k.DirectoryEntry? && k !in removed;
      var pending := candidates;
      while pending != {}
        invariant pending <= candidates
        invariant forall k :: k in removed <==> k in state.entries && k !in pending && Concerns(k, node, lists)
        decreases pending
      {
        var k :| k in pending;
        pending := pending - {k};
        var read := ReadDiskEntry(hashes, disk.files, state.entries[k], maximum);
        if !read.Hit? || lists(read.payload).None? || node in lists(read.payload).value {
          removed := removed + {k};
        }
      }
    }

    /** `invalidate_node`: afterwards no entry of the node is left, and every directory snapshot that is
        left can be read and does not list the node. */
    method InvalidateNode(node: nat, lists: Bytes -> Option<set<nat>>) returns (ok: bool)
      requires Valid()
      modifies this`state, this`dirty, this`pendingRemovals, this`disk, this`history, this`versions, this`ioFailed, this`torn, this`everTorn
      ensures Valid() && Durable() == old(Durable())
      ensures ok ==> forall k :: k in state.entries <==> k in old(state.entries) && !old(Concerns(k, node, lists))
      ensures ok ==> forall k, payload :: k in state.entries && Binds(hashes, k, state.entries[k], payload) ==>
                       NodeOf(k) != Some(node) && (k.DirectoryEntry? ==> lists(payload).Some? && node !in lists(payload).value)
    {
      var removed := ConcernedKeys(node, lists);
      forall k, payload | k in state.entries && k !in removed && Binds(hashes, k, state.entries[k], payload)
        ensures NodeOf(k) != Some(node) && (k.DirectoryEntry? ==> lists(payload).Some? && node !in lists(payload).value)
      {
        HitIsBound(hashes, disk, state.entries[k], k, payload, maximum);
      }
      ghost var outcome;
      ok, outcome := RemoveKeys(removed);
    }

    /** Remove what no entry names, as a crash may have left it. */
    method RemoveOrphanedFiles() returns (ok: bool)
      requires Valid() && !dirty && !torn
      modifies this`disk, this`history, this`loose, this`ioFailed
      ensures Valid() && Durable() == old(Durable()) && (ok ==> loose == {} && disk.files.Keys <= Named(state.entries) && ioFailed == old(ioFailed))
      ensures disk.manifest == old(disk.manifest)
    {
      SameFilesSameNames(disk.manifest.entries, state.entries);
      ok := RemoveUnreferencedFiles(disk.files.Keys);
      if ok {
        loose := {};
      }
    }
  }

  lemma SameFilesSameNames(a: EntryMap, b: EntryMap)
    requires FilesOf(a) == FilesOf(b)
    ensures Named(a) == Named(b)
  {
    forall n ensures n in Named(a) <==> n in Named(b) {
      if n in Named(a) {
        var k :| k in a && a[k].fileName == n;
        assert k in FilesOf(a) && k in FilesOf(b) && FilesOf(b)[k] == n;
        assert k in b && b[k].fileName == n;
      }
      if n in Named(b) {
        var k :| k in b && b[k].fileName == n;
        assert k in FilesOf(b) && k in FilesOf(a) && FilesOf(a)[k] == n;
        assert k in a && a[k].fileName == n;
      }
    }
  }

  lemma InStepNames(a: EntryMap, b: EntryMap)
    ensures FilesOf(a) == FilesOf(b) ==> Named(a) == Named(b)
  {
    if FilesOf(a) == FilesOf(b) {
      SameFilesSameNames(a, b);
    }
  }

  /** A payload that passes verification is the one the entry was made for. */
  lemma HitIsBound(h: Hashes, d: Disk, e: DiskEntry, key: EntryKey, payload: Bytes, maximum: nat)
    requires CollisionFree(h) && DiskSafe(h, d) && Binds(h, key, e, payload)
    ensures ReadDiskEntry(h, d.files, e, maximum).Hit? ==> ReadDiskEntry(h, d.files, e, maximum) == Hit(payload)
  {
  }

  /** A live cache answers every key whose file was not already lost before it was opened, with
      exactly the payload the key is bound to. */
  lemma LiveReadsHit(c: Cache, key: EntryKey, payload: Bytes)
    requires c.Valid() && key in c.state.entries && Binds(c.hashes, key, c.state.entries[key], payload)
    requires c.hashes.name(key, payload) !in c.missing
    ensures ReadDiskEntry(c.hashes, c.disk.files, c.state.entries[key], c.maximum) == Hit(payload)
  {
    assert c.state.entries[key].fileName in Named(c.state.entries);
    EntryFits(c.state, key);
  }

  /** A crash at any point: the cache can be opened again on what is left, the durable key-to-file
      map is one the cache proposed as a whole, and every key answers with the payload that map
      binds to it, or not at all. As long as the cache stays durable, a key is corrupt only if its file
      was already missing at the start, or if it is over the budget the cache was opened with. */
  lemma CrashAnywhereIsSafe(c: Cache, d: Disk, key: EntryKey)
    requires c.Valid() && d in c.history
    ensures DiskSafe(c.hashes, d)
    ensures FilesOf(d.manifest.entries) in c.versions
    ensures match Recover(c.hashes, d, key, c.maximum)
            case Miss => key !in d.manifest.entries
            case Corrupt =>
              && key in d.manifest.entries
              && (d.manifest.entries[key].fileName !in d.files || (d.manifest == c.firstManifest && d.manifest.entries[key].storedLength > c.maximum))
              && (c.Durable() ==>
                    d.manifest.entries[key].fileName in c.missing
                    || (d.manifest == c.firstManifest && d.manifest.entries[key].storedLength > c.maximum))
            case Hit(payload) => key in d.manifest.entries && Binds(c.hashes, key, d.manifest.entries[key], payload)
  {
    SafeAtAnyTime(c.hashes, c.history, c.versions, c.firstManifest, c.maximum, d);
    PresentAtAnyTime(c.history, c.missing);
    if key in d.manifest.entries {
      var payload :| Binds(c.hashes, key, d.manifest.entries[key], payload);
      SumSplits(d.manifest.entries, key);
      RecoveryIsExact(c.hashes, d, key, c.maximum, payload);
      assert d.manifest.entries[key].fileName in Named(d.manifest.entries);
    }
  }

  /** The durable manifest binds the key to this payload, within the budget and with its file on disk. */
  ghost predicate Readable(h: Hashes, d: Disk, key: EntryKey, payload: Bytes, maximum: nat) {
    && key in d.manifest.entries && Binds(h, key, d.manifest.entries[key], payload)
    && Sum(d.manifest.entries) <= maximum && d.manifest.entries[key].fileName in d.files
  }

  /** Opening a safe disk and reading a key: a key the manifest does not have is a miss, whatever is read is
      the payload the manifest binds, and a readable key is read. */
  method OpenAndRead(h: Hashes, maximum: nat, d: Disk, key: EntryKey, ghost payload: Bytes) returns (r: Result<ReadResult, CacheError>)
    requires CollisionFree(h) && DiskSafe(h, d) && Loadable(d.manifest.entries) && maximum > 0
    ensures r.Err? ==> r.error.Io?
    ensures r.Ok? && key !in d.manifest.entries ==> r.value == Miss
    ensures r.Ok? && r.value.Hit? ==> key in d.manifest.entries && Binds(h, key, d.manifest.entries[key], r.value.payload)
    ensures r.Ok? && Readable(h, d, key, payload, maximum) ==> r.value == Hit(payload)
  {
    var opening := Cache.Open(h, maximum, d);
    if opening.Err? {
      return Err(opening.error);
    }
    var cache := opening.value;
    if Readable(h, d, key, payload, maximum) {
      LiveReadsHit(cache, key, payload);
    }
    ghost var files, entries := cache.disk.files, cache.state.entries;
    if key in entries {
      HitBinds(h, files, entries[key], key, maximum);
    }
    var read := cache.ReadKey(key);
    return Ok(read);
  }

  /** A crash at any moment, a reopening with the same budget and a read. As long as the cache stays durable,
      a bound key whose file was not already missing at the start is read, unless the very first
      manifest was over the budget. */
  method CrashReopenRead(c: Cache, d: Disk, key: EntryKey, ghost payload: Bytes) returns (r: Result<ReadResult, CacheError>)
    requires c.Valid() && d in c.history && c.maximum > 0
    ensures r.Err? ==> r.error.Io?
    ensures r.Ok? && key !in d.manifest.entries ==> r.value == Miss
    ensures r.Ok? && r.value.Hit? ==> key in d.manifest.entries && Binds(c.hashes, key, d.manifest.entries[key], r.value.payload)
    ensures (r.Ok? && c.Durable() && key in d.manifest.entries && Binds(c.hashes, key, d.manifest.entries[key], payload)
             && d.manifest.entries[key].fileName !in c.missing && (d.manifest == c.firstManifest ==> Sum(d.manifest.entries) <= c.maximum)) ==>
              r.value == Hit(payload)
  {
    SafeAtAnyTime(c.hashes, c.history, c.versions, c.firstManifest, c.maximum, d);
    PresentAtAnyTime(c.history, c.missing);
    if key in d.manifest.entries {
      assert d.manifest.entries[key].fileName in Named(d.manifest.entries);
    }
    r := OpenAndRead(c.hashes, c.maximum, d, key, payload);
  }

  /** A verified payload is bound by its entry. */
  lemma HitBinds(h: Hashes, files: map<nat, Bytes>, e: DiskEntry, key: EntryKey, maximum: nat)
    requires CollisionFree(h) && FilesGenuine(h, files) && (exists payload :: Binds(h, key, e, payload))
    ensures var r := ReadDiskEntry(h, files, e, maximum); r.Hit? ==> Binds(h, key, e, r.payload)
  {
    var payload :| Binds(h, key, e, payload);
  }

  lemma EvictedIsNamed(h: Hashes, s: PersistentState, maximum: nat)
    requires Accounted(s) && AllBound(h, s.entries) && Loadable(s.entries) && Clocked(s.clock, s.entries)
    ensures StateInv(h, Evict(s, maximum), maximum) && Named(Evict(s, maximum).entries) <= Named(s.entries)
  {
    CountShrinks(s.entries, Evict(s, maximum).entries);
  }

  // ----- a file that is written and discarded in one batch -----

  lemma SpliceOne(h: Hashes, s: PersistentState, a: Store)
    requires Accounted(s) && AllBound(h, s.entries)
    ensures Splice(h, s, [a]) == PutStore(h, s, a)
  {
    assert [a][..0] == [];
    assert Splice(h, s, []) == s;
  }

  lemma SpliceTwo(h: Hashes, s: PersistentState, a: Store, b: Store)
    requires Accounted(s) && AllBound(h, s.entries)
    ensures Accounted(PutStore(h, s, a)) && Splice(h, s, [a, b]) == PutStore(h, PutStore(h, s, a), b)
  {
    assert [a, b][..1] == [a];
    SpliceOne(h, s, a);
    PutStoreIsSound(h, s, a);
  }

  /** Two new entries, at consecutive ticks. */
  lemma TwoEntries(h: Hashes, clock: u64, a: Store, b: Store)
    requires a.key != b.key && clock + 2 <= U64_MAX
    ensures var s := PersistentState(clock, 0, map[]);
            && Accounted(s) && AllBound(h, s.entries)
            && Splice(h, s, [a, b]) == PersistentState(clock + 2, |a.payload| + |b.payload|,
                                                       map[a.key := EntryFor(h, a, clock + 1), b.key := EntryFor(h, b, clock + 2)])
  {
    var s := PersistentState(clock, 0, map[]);
    SpliceTwo(h, s, a, b);
    var one := PutStore(h, s, a);
    assert s.entries - {a.key} == map[];
    assert one == PersistentState(clock + 1, |a.payload|, map[a.key := EntryFor(h, a, clock + 1)]);
    assert one.entries - {b.key} == one.entries;
  }

  /** Of two entries that do not fit together the older one is evicted. */
  lemma EvictsTheOlder(s: PersistentState, older: EntryKey, newer: EntryKey, maximum: nat)
    requires Accounted(s) && older != newer && s.entries.Keys == {older, newer} && s.entries[older].lastAccess < s.entries[newer].lastAccess
    requires s.payloadBytes > maximum && s.entries[newer].storedLength <= maximum
    ensures Evict(s, maximum).entries == map[newer := s.entries[newer]]
  {
    var oldest := Oldest(s.entries);
    assert OlderOrSame(s.entries[oldest], s.entries[older]);
    assert oldest == older;
    DropAccounts(s, older);
    var left := Drop(s, older);
    assert left.entries == map[newer := s.entries[newer]];
    SumSplits(left.entries, newer);
    assert left.entries - {newer} == map[];
  }

  /** In an empty cache, two stores that do not fit together leave only the second. */
  lemma OnlyTheLastFits(h: Hashes, clock: u64, a: Store, b: Store, maximum: nat)
    requires a.key != b.key && clock + 2 <= U64_MAX && |b.payload| <= maximum < |a.payload| + |b.payload|
    ensures var s := PersistentState(clock, 0, map[]);
            StateInv(h, s, maximum) && Spliced(h, s, [a, b], maximum).entries == map[b.key := EntryFor(h, b, clock + 2)]
  {
    TwoEntries(h, clock, a, b);
    var s := PersistentState(clock, 0, map[]);
    var two := Splice(h, s, [a, b]);
    assert two.entries.Keys == {a.key, b.key};
    assert |two.entries| == |two.entries.Keys| == 2;
    EvictsTheOlder(two, a.key, b.key, maximum);
  }

  /** Nothing is current in an empty cache. */
  lemma NothingCurrent(h: Hashes, a: Store, b: Store)
    ensures Stale(h, map[], [a, b]) == [a, b]
  {
    assert [a, b][..1] == [a] && [a][..0] == [];
    assert Stale(h, map[], [a]) == [] + [a];
  }

  /** Re-creating `a` beside `b`, which evicts it, takes the file of `a` from a manifest that names it. */
  lemma EvictedStoreIsNotSpared(h: Hashes, clock: u64, a: Store, b: Store, maximum: nat, durable: set<nat>)
    requires CollisionFree(h) && a.key != b.key && clock + 2 <= U64_MAX && h.name(a.key, a.payload) in durable
    requires |a.payload| <= maximum && |b.payload| <= maximum < |a.payload| + |b.payload|
    ensures var s := PersistentState(clock, 0, map[]); StateInv(h, s, maximum) && !Spares(h, s, Insert([a, b]), durable, maximum)
  {
    var s, stores := PersistentState(clock, 0, map[]), [a, b];
    NothingCurrent(h, a, b);
    OnlyTheLastFits(h, clock, a, b, maximum);
    StaleInBatch(h, s, stores, durable, maximum);
    var after, name := Spliced(h, s, stores, maximum).entries, h.name(a.key, a.payload);
    OnlyNames(h, b, clock + 2, name);
    assert stores[0] in stores && name in Names(h, stores);
    assert name in (Names(h, stores) - Named(after)) * durable;
  }

  lemma OnlyNames(h: Hashes, b: Store, clock: u64, name: nat)
    requires name != h.name(b.key, b.payload)
    ensures name !in Named(map[b.key := EntryFor(h, b, clock)])
  {
  }

  /** Outside a batch, with memory and manifest in step, a clean-up takes a file the durable manifest names
      exactly if the manifest write was torn and some file the insert wrote is new and survives in the
      state that was to be committed. */
  lemma TornExactly(h: Hashes, s: PersistentState, job: Job, outcome: Outcome, maximum: nat, missing: set<nat>)
    requires StateInv(h, s, maximum)
    ensures SparesWith(h, s, Named(s.entries), job, outcome, maximum, missing)
            <==> (outcome == Wrote(FailedAfter) && job.Insert? ==>
                    (Names(h, Stale(h, s.entries, job.stores)) - Named(s.entries)) * (Named(After(h, s, job, maximum).entries) - missing) == {})
  {
    var all := if job.Insert? then Names(h, Stale(h, s.entries, job.stores)) else {};
    SparesAsSets(h, s, job, outcome, all, maximum, missing);
    TornSets(outcome, all, Named(s.entries), Named(After(h, s, job, maximum).entries), missing);
  }

  /** The same in terms of the names alone: all the job writes, those named before and those named after. */
  predicate SparesSets(outcome: Outcome, all: set<nat>, before: set<nat>, after: set<nat>, missing: set<nat>) {
    var written := match outcome case Skipped => {} case Unwritten(w) => w case Wrote(_) => all;
    var named := if outcome == Wrote(Done) then after else before;
    var durable := if outcome.Wrote? && !outcome.commit.FailedBefore? then after else before;
    (written - named) * (durable - missing) == {}
  }

  lemma SparesAsSets(h: Hashes, s: PersistentState, job: Job, outcome: Outcome, all: set<nat>, maximum: nat, missing: set<nat>)
    requires StateInv(h, s, maximum) && all == if job.Insert? then Names(h, Stale(h, s.entries, job.stores)) else {}
    ensures SparesWith(h, s, Named(s.entries), job, outcome, maximum, missing)
            <==> SparesSets(outcome, all, Named(s.entries), Named(After(h, s, job, maximum).entries), missing)
  {
    assert WrittenBy(h, s, job, outcome) == match outcome case Skipped => {} case Unwritten(w) => w case Wrote(_) => all;
  }

  lemma TornSets(outcome: Outcome, all: set<nat>, before: set<nat>, after: set<nat>, missing: set<nat>)
    ensures SparesSets(outcome, all, before, after, missing) <==> (outcome == Wrote(FailedAfter) ==> (all - before) * (after - missing) == {})
  {
  }

  /** So it is for any store into an empty cache. */
  lemma TornInsertLosesFile(h: Hashes, s: PersistentState, a: Store, maximum: nat, missing: set<nat>)
    requires StateInv(h, s, maximum) && s.entries == map[] && |a.payload| <= maximum && s.clock < U64_MAX && h.name(a.key, a.payload) !in missing
    ensures !SparesWith(h, s, Named(s.entries), Insert([a]), Wrote(FailedAfter), maximum, missing)
  {
    OneStore(h, s, a, maximum);
    TornExactly(h, s, Insert([a]), Wrote(FailedAfter), maximum, missing);
    var written, after, name := Names(h, Stale(h, s.entries, [a])), After(h, s, Insert([a]), maximum).entries, h.name(a.key, a.payload);
    assert after[a.key].fileName in Named(after);
    assert [a][0] in [a] && name in written;
    assert name in (written - Named(s.entries)) * (Named(after) - missing);
  }

  /** The first store of an empty cache. */
  lemma OneStore(h: Hashes, s: PersistentState, a: Store, maximum: nat)
    requires StateInv(h, s, maximum) && s.entries == map[] && |a.payload| <= maximum && s.clock < U64_MAX
    ensures Stale(h, s.entries, [a]) == [a]
    ensures After(h, s, Insert([a]), maximum).entries == map[a.key := EntryFor(h, a, s.clock + 1)]
  {
    OneIsStale(h, a);
    SplicedOne(h, s, a, maximum);
    StaleInBatch(h, s, [a], {}, maximum);
  }

  lemma OneIsStale(h: Hashes, a: Store)
    ensures Stale(h, map[], [a]) == [a]
  {
    assert [a][..0] == [];
    assert Stale(h, map[], [a]) == [] + [a];
  }

  lemma SplicedOne(h: Hashes, s: PersistentState, a: Store, maximum: nat)
    requires StateInv(h, s, maximum) && s.entries == map[] && |a.payload| <= maximum && s.clock < U64_MAX
    ensures Spliced(h, s, [a], maximum).entries == map[a.key := EntryFor(h, a, s.clock + 1)]
  {
    SpliceOne(h, s, a);
    FirstPut(h, s, a);
    var one := PutStore(h, s, a);
    assert |one.entries| == |one.entries.Keys| == |{a.key}|;
  }

  lemma FirstPut(h: Hashes, s: PersistentState, a: Store)
    requires Accounted(s) && s.entries == map[] && s.clock < U64_MAX
    ensures PutStore(h, s, a) == PersistentState(s.clock + 1, |a.payload|, map[a.key := EntryFor(h, a, s.clock + 1)])
  {
    assert s.entries - {a.key} == map[];
  }

  /** In a live cache: whenever the manifest write of such an insert is torn and its clean-up goes through,
      the durable manifest names a file that is gone; whenever the write ends otherwise, none is lost. */
  method TornInsert(c: Cache, a: Store) returns (ghost outcome: Outcome, ghost cleaned: bool)
    requires c.Valid() && !c.active && !c.dirty && !c.torn && c.Durable()
    requires c.state.entries == map[] && |a.payload| <= c.maximum && c.state.clock < U64_MAX && c.hashes.name(a.key, a.payload) !in c.missing
    modifies c
    ensures cleaned ==> (c.Durable() <==> outcome != Wrote(FailedAfter))
  {
    ghost var before, names := c.state, Named(c.disk.manifest.entries);
    SameFilesSameNames(c.disk.manifest.entries, c.state.entries);
    var result;
    result, outcome, cleaned := c.InsertEntries([a]);
    TornInsertLosesFile(c.hashes, before, a, c.maximum, c.missing);
    TornExactly(c.hashes, before, Insert([a]), outcome, c.maximum, c.missing);
  }

  /** A key is removed and re-created in one batch and then evicted by a neighbour: its file goes
      while the durable manifest still names it. */
  lemma RecreatedThenEvicted(h: Hashes, clock: u64, a: Store, b: Store, maximum: nat) returns (s: PersistentState, jobs: seq<Job>)
    requires CollisionFree(h) && a.key != b.key && clock + 2 <= U64_MAX
    requires |a.payload| <= maximum && |b.payload| <= maximum < |a.payload| + |b.payload|
    ensures StateInv(h, s, maximum) && !AllSpare(h, s, jobs, Named(s.entries), maximum)
    ensures s.entries == map[a.key := EntryFor(h, a, clock)] && jobs == [Remove({a.key}), Insert([a, b])]
  {
    s := PersistentState(clock, |a.payload|, map[a.key := EntryFor(h, a, clock)]);
    jobs := [Remove({a.key}), Insert([a, b])];
    SumSplits(s.entries, a.key);
    assert s.entries - {a.key} == map[];
    assert Binds(h, a.key, s.entries[a.key], a.payload);
    CountIsSize(s.entries);
    assert |s.entries| == |s.entries.Keys| == |{a.key}|;
    var first := [Remove({a.key})];
    assert jobs[..1] == first && first[..0] == [];
    assert AfterAll(h, s, first, maximum) == After(h, AfterAll(h, s, [], maximum), first[0], maximum);
    assert AfterAll(h, s, first, maximum) == PersistentState(clock, 0, map[]);
    assert s.entries[a.key].fileName in Named(s.entries);
    EvictedStoreIsNotSpared(h, clock, a, b, maximum, Named(s.entries));
  }

  /** The sum `load_manifest` computes. */
  method TotalLength(entries: EntryMap) returns (sum: nat)
    ensures sum == Sum(entries)
  {
    sum := 0;
    var rest := entries;
    while rest != map[]
      invariant sum + Sum(rest) == Sum(entries)
      decreases |rest|
    {
      var k :| k in rest;
      SumSplits(rest, k);
      sum := sum + rest[k].storedLength;
      rest := rest - {k};
    }
  }
}
