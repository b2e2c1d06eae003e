/**
 The values behind the persistent cache: manifest entries, content-addressed
 payload files, byte accounting and the eviction order.
 */
module CacheState {
  import opened Common
  import opened Ranges

  const MAX_MANIFEST_ENTRIES: nat := 100_000

  datatype EntryKey =
    | MetadataEntry(node: nat)
    | DirectoryEntry(directory: RevisionKey)
    | RangeEntry(range: RangeKey)
    | StatsEntry

  /** `EntryKey::node`. */
  function NodeOf(key: EntryKey): Option<nat> {
    match key
    case MetadataEntry(node) => Some(node)
    case DirectoryEntry(directory) => Some(directory.node)
    case RangeEntry(range) => Some(range.file.node)
    case StatsEntry => None
  }

  datatype DiskEntry = DiskEntry(fileName: nat, storedLength: nat, sha256: nat, lastAccess: u64)

  type EntryMap = map<EntryKey, DiskEntry>

  datatype PersistentState = PersistentState(clock: u64, payloadBytes: nat, entries: EntryMap)

  datatype Manifest = Manifest(clock: u64, entries: EntryMap)

  /** The manifest and the payload files of one namespace directory. */
  datatype Disk = Disk(manifest: Manifest, files: map<nat, Bytes>)

  // ----- content addressing -----

  /** SHA-256 over key and payload names a file; SHA-256 over the payload is kept in the manifest. */
  datatype Hashes = Hashes(name: (EntryKey, Bytes) -> nat, digest: Bytes -> nat)

  /** The digests are taken to be free of collisions. */
  ghost predicate CollisionFree(h: Hashes) {
    && (forall k, k', b, b' {:trigger h.name(k, b), h.name(k', b')} :: h.name(k, b) == h.name(k', b') ==> k == k' && b == b')
    && (forall b, b' {:trigger h.digest(b), h.digest(b')} :: h.digest(b) == h.digest(b') ==> b == b')
  }

  /** The entry was made for `payload` stored under `key`. */
  predicate Binds(h: Hashes, key: EntryKey, e: DiskEntry, payload: Bytes) {
    e.fileName == h.name(key, payload) && e.storedLength == |payload| && e.sha256 == h.digest(payload)
  }

  ghost predicate AllBound(h: Hashes, entries: EntryMap) {
    forall k :: k in entries ==> exists payload :: Binds(h, k, entries[k], payload)
  }

  /** Whatever is stored under a content-addressed name is the content it addresses. */
  ghost predicate FilesGenuine(h: Hashes, files: map<nat, Bytes>) {
    forall k, payload {:trigger h.name(k, payload)} ::
      h.name(k, payload) in files ==> files[h.name(k, payload)] == payload
  }

  /** No entry is stamped later than the clock. */
  ghost predicate Clocked(clock: u64, entries: EntryMap) {
    forall k :: k in entries ==> entries[k].lastAccess <= clock
  }

  ghost predicate DiskSafe(h: Hashes, d: Disk) {
    AllBound(h, d.manifest.entries) && FilesGenuine(h, d.files) && Clocked(d.manifest.clock, d.manifest.entries)
  }

  lemma BindingIsUnique(h: Hashes, key: EntryKey, e: DiskEntry, key': EntryKey, e': DiskEntry, b: Bytes, b': Bytes)
    requires CollisionFree(h) && Binds(h, key, e, b) && Binds(h, key', e', b') && e.fileName == e'.fileName
    ensures key == key' && b == b'
  {
  }

  // ----- reading -----

  datatype ReadResult = Miss | Corrupt | Hit(payload: Bytes)

  /** `read_disk_entry`: length and digest are verified before the payload is used. */
  function ReadDiskEntry(h: Hashes, files: map<nat, Bytes>, e: DiskEntry, maximum: nat): ReadResult {
    if e.fileName !in files then Corrupt
    else
      var bytes := files[e.fileName];
      if |bytes| != e.storedLength || e.storedLength > maximum then Corrupt
      else if h.digest(bytes) != e.sha256 then Corrupt
      else Hit(bytes)
  }

  /** What a cache opened on this disk answers for a key. */
  function Recover(h: Hashes, d: Disk, key: EntryKey, maximum: nat): ReadResult {
    if key !in d.manifest.entries then Miss else ReadDiskEntry(h, d.files, d.manifest.entries[key], maximum)
  }

  /** On a safe disk a bound key yields its own payload, or is corrupt because the file is gone or
      exceeds the budget; it never yields other bytes. */
  lemma RecoveryIsExact(h: Hashes, d: Disk, key: EntryKey, maximum: nat, payload: Bytes)
    requires CollisionFree(h) && DiskSafe(h, d)
    requires key in d.manifest.entries && Binds(h, key, d.manifest.entries[key], payload)
    ensures Recover(h, d, key, maximum) ==
            if h.name(key, payload) in d.files && |payload| <= maximum then Hit(payload) else Corrupt
  {
  }

  /** Whatever has happened to the files, a read gives the payload the entry was made for, if that is what
      the file holds and it is within the budget, and otherwise reports corruption. */
  lemma ReadIsVerified(h: Hashes, files: map<nat, Bytes>, key: EntryKey, e: DiskEntry, maximum: nat, payload: Bytes)
    requires CollisionFree(h) && Binds(h, key, e, payload)
    ensures ReadDiskEntry(h, files, e, maximum)
            == if e.fileName in files && files[e.fileName] == payload && |payload| <= maximum then Hit(payload) else Corrupt
  {
  }

  // ----- accounting -----

  ghost function Sum(entries: EntryMap): nat {
    if entries == map[] then 0
    else
      var k :| k in entries;
      entries[k].storedLength + Sum(entries - {k})
  }

  lemma {:induction false} SumSplits(entries: EntryMap, k: EntryKey)
    requires k in entries
    ensures Sum(entries) == entries[k].storedLength + Sum(entries - {k})
    decreases |entries|
  {
    var k0 :| k0 in entries && Sum(entries) == entries[k0].storedLength + Sum(entries - {k0});
    if k0 != k {
      SumSplits(entries - {k0}, k);
      SumSplits(entries - {k}, k0);
      assert entries - {k0} - {k} == entries - {k} - {k0};
    }
  }

  /** The number of entries. */
  ghost function Count(entries: EntryMap): nat {
    if entries == map[] then 0
    else
      var k :| k in entries;
      1 + Count(entries - {k})
  }

  lemma {:induction false} CountIsSize(entries: EntryMap)
    ensures Count(entries) == |entries|
    decreases |entries|
  {
    if entries != map[] {
      var k :| k in entries && Count(entries) == 1 + Count(entries - {k});
      CountIsSize(entries - {k});
      assert entries == (entries - {k})[k := entries[k]];
    }
  }

  /** Fewer keys, fewer entries. */
  lemma CountShrinks(entries: EntryMap, fewer: EntryMap)
    requires fewer.Keys <= entries.Keys
    ensures Count(fewer) <= Count(entries)
  {
    CountIsSize(entries);
    CountIsSize(fewer);
    SubsetIsSmaller(fewer.Keys, entries.Keys);
    assert |fewer.Keys| == |fewer| && |entries.Keys| == |entries|;
  }

  lemma SubsetIsSmaller(a: set<EntryKey>, b: set<EntryKey>)
    requires a <= b
    ensures |a| <= |b|
  {
    assert b == a + (b - a);
  }

  /** `load_manifest` accepts that many. */
  ghost predicate Loadable(entries: EntryMap) { Count(entries) <= MAX_MANIFEST_ENTRIES }

  /** The byte counter is exact. */
  ghost predicate Accounted(s: PersistentState) { s.payloadBytes == Sum(s.entries) }

  function Put(s: PersistentState, key: EntryKey, e: DiskEntry): PersistentState
    requires key in s.entries ==> s.entries[key].storedLength <= s.payloadBytes
  {
    var before := if key in s.entries then s.payloadBytes - s.entries[key].storedLength else s.payloadBytes;
    s.(payloadBytes := before + e.storedLength, entries := (s.entries - {key})[key := e])
  }

  function Drop(s: PersistentState, key: EntryKey): PersistentState
    requires key in s.entries ==> s.entries[key].storedLength <= s.payloadBytes
  {
    if key in s.entries
    then s.(payloadBytes := s.payloadBytes - s.entries[key].storedLength, entries := s.entries - {key})
    else s
  }

  lemma EntryFits(s: PersistentState, key: EntryKey)
    requires Accounted(s) && key in s.entries
    ensures s.entries[key].storedLength <= s.payloadBytes
  {
    SumSplits(s.entries, key);
  }

  lemma DropAccounts(s: PersistentState, key: EntryKey)
    requires Accounted(s)
    ensures key in s.entries ==> s.entries[key].storedLength <= s.payloadBytes
    ensures Accounted(Drop(s, key))
  {
    if key in s.entries {
      SumSplits(s.entries, key);
    }
  }

  lemma PutAccounts(s: PersistentState, key: EntryKey, e: DiskEntry)
    requires Accounted(s)
    ensures key in s.entries ==> s.entries[key].storedLength <= s.payloadBytes
    ensures Accounted(Put(s, key, e))
  {
    if key in s.entries {
      SumSplits(s.entries, key);
    } else {
      assert s.entries - {key} == s.entries;
    }
    var entries' := (s.entries - {key})[key := e];
    SumSplits(entries', key);
    assert entries' - {key} == s.entries - {key};
  }

  // ----- eviction -----

  predicate OlderOrSame(a: DiskEntry, b: DiskEntry) {
    a.lastAccess < b.lastAccess || (a.lastAccess == b.lastAccess && a.fileName <= b.fileName)
  }

  predicate IsOldest(entries: EntryMap, k: EntryKey) {
    k in entries && forall o :: o in entries ==> OlderOrSame(entries[k], entries[o])
  }

  lemma {:induction false} OldestExists(entries: EntryMap)
    requires entries != map[]
    ensures exists k :: IsOldest(entries, k)
    decreases |entries|
  {
    var x :| x in entries;
    var rest := entries - {x};
    if rest == map[] {
      assert forall o :: o in entries ==> o == x || o in rest;
      assert IsOldest(entries, x);
    } else {
      OldestExists(rest);
      var y :| IsOldest(rest, y);
      var k := if OlderOrSame(entries[x], entries[y]) then x else y;
      forall o | o in entries ensures OlderOrSame(entries[k], entries[o]) {
        assert o == x || o in rest;
      }
      assert IsOldest(entries, k);
    }
  }

  ghost function Oldest(entries: EntryMap): (k: EntryKey)
    requires entries != map[]
    ensures IsOldest(entries, k)
  {
    OldestExists(entries);
    var k :| IsOldest(entries, k);
    k
  }

  /** `evict_to_budget`, as a function of the state. */
  ghost function Evict(s: PersistentState, maximum: nat): (r: PersistentState)
    requires Accounted(s)
    ensures Accounted(r) && r.payloadBytes <= maximum && r.clock == s.clock
    ensures r.entries.Keys <= s.entries.Keys && forall k :: k in r.entries ==> r.entries[k] == s.entries[k]
    decreases |s.entries|
  {
    if s.payloadBytes <= maximum then s
    else
      assert s.entries != map[] by { assert s.payloadBytes > 0; }
      DropAccounts(s, Oldest(s.entries));
      Evict(Drop(s, Oldest(s.entries)), maximum)
  }

  /** Least recently used first: whatever was evicted is no younger than whatever stayed. */
  lemma {:induction false} EvictionIsLru(s: PersistentState, maximum: nat, gone: EntryKey, kept: EntryKey)
    requires Accounted(s) && gone in s.entries && gone !in Evict(s, maximum).entries && kept in Evict(s, maximum).entries
    ensures OlderOrSame(s.entries[gone], s.entries[kept])
    decreases |s.entries|
  {
    if s.payloadBytes > maximum {
      var k := Oldest(s.entries);
      DropAccounts(s, k);
      if gone != k {
        EvictionIsLru(Drop(s, k), maximum, gone, kept);
      }
    }
  }
}
