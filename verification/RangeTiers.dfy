/**
 The two tiers behind a range lookup: the hot tier in memory and the range payloads
 the persistent cache can still deliver. Stores reach the hot tier at once and the
 disk tier later or not at all; the disk tier may lose entries at any time.
 */
module RangeTiers {
  import opened Common
  import opened Ranges
  import opened HotRanges

  /** A non-empty answer is a slice of the content. */
  ghost predicate Faithful(content: RevisionKey -> Bytes, file: RevisionKey, offset: nat, data: Bytes) {
    data != [] ==> IsSlice(content, file, offset, data)
  }

  class Tiers {
    const hot: HotRangeCache
    const diskLimit: nat
    var disk: Entries

    ghost predicate Valid()
      reads this, hot
    {
      hot.Valid() && ValidEntries(disk)
    }

    /** Everything cached is a slice of the content of its revision. */
    ghost predicate True(content: RevisionKey -> Bytes)
      reads this, hot
    {
      Truthful(hot.entries, content) && Truthful(disk, content)
    }

    constructor (maximumBytes: nat, diskLimit: nat)
      ensures Valid() && hot.entries == map[] && disk == map[] && fresh(hot)
    {
      hot := new HotRangeCache(maximumBytes);
      this.diskLimit := diskLimit;
      disk := map[];
    }

    /** `get_covering_range_value`, else `get_range_value`: one entry that covers the request, or the
        assembled request itself. Reading may fail. */
    method Load(key: RangeKey) returns (r: Option<(RangeKey, Bytes)>)
      requires ValidEntries(disk)
      ensures r.Some? ==> |r.value.1| == r.value.0.length && r.value.0.file == key.file && r.value.0.End() <= U64_MAX
      ensures r.Some? ==> r.value.0.offset <= key.offset && key.End() <= r.value.0.End()
      ensures r.Some? ==> forall i :: 0 <= i < |r.value.1| ==> Stored(disk, key.file, r.value.0.offset + i, r.value.1[i])
    {
      var failed: bool := *;
      if failed || key.End() > U64_MAX {
        return None;
      }
      if key.length == 0 {
        return Some((key, []));
      }
      if key.length > diskLimit {
        return None;
      }
      if k :| k in disk && k.file == key.file && k.offset <= key.offset && key.End() <= k.End() {
        SliceIsStored(disk, k, k.offset, k.End());
        assert disk[k][0..|disk[k]|] == disk[k];
        return Some((k, disk[k]));
      }
      var assembled := MemoryGet(disk, key);
      return if assembled.Some? then Some((key, assembled.value)) else None;
    }

    /** What a truthful tier delivers is content. */
    lemma LoadedIsContent(content: RevisionKey -> Bytes, key: RangeKey, value: Bytes)
      requires Truthful(disk, content) && |value| == key.length > 0
      requires forall i :: 0 <= i < |value| ==> Stored(disk, key.file, key.offset + i, value[i])
      ensures IsSlice(content, key.file, key.offset, value)
    {
      assert Stored(disk, key.file, key.offset + (|value| - 1), value[|value| - 1]);
      forall i | 0 <= i < |value| ensures value[i] == content(key.file)[key.offset + i] {
        assert Stored(disk, key.file, key.offset + i, value[i]);
      }
    }

    /** Ask the hot tier. */
    method Ask(key: RangeKey, ghost content: RevisionKey -> Bytes) returns (r: Option<Bytes>)
      requires hot.Valid() && Truthful(hot.entries, content)
      modifies hot`leastRecentlyUsed
      ensures hot.Valid()
      ensures r.Some? <==> key.End() <= U64_MAX && Covered(hot.entries, key.file, key.offset, key.End())
      ensures r.Some? ==> |r.value| == key.length && Faithful(content, key.file, key.offset, r.value)
    {
      ghost var used;
      r, used := hot.Get(key);
      if r.Some? && key.length > 0 {
        AnswersAreContent(hot.entries, content, key, r);
      }
    }

    /** The range lookup: hot tier, else load into it and ask again. An answer is complete and true, and
        a request the hot tier covers is always answered. */
    method Get(key: RangeKey, ghost content: RevisionKey -> Bytes) returns (r: Option<Bytes>)
      requires Valid() && True(content)
      modifies hot
      ensures Valid() && True(content)
      ensures r.Some? ==> |r.value| == key.length && Faithful(content, key.file, key.offset, r.value)
      ensures key.End() <= U64_MAX && Covered(old(hot.entries), key.file, key.offset, key.End()) ==> r.Some?
      ensures r.Some? ==> key.End() <= U64_MAX && Covered(hot.entries, key.file, key.offset, key.End())
    {
      r := Ask(key, content);
      if r.None? {
        var loaded := Load(key);
        if loaded.None? {
          return None;
        }
        if loaded.value.1 != [] {
          LoadedIsContent(content, loaded.value.0, loaded.value.1);
        }
        hot.InsertTruth(loaded.value.0, loaded.value.1, content);
        r := Ask(key, content);
      }
    }

    /** `store_readthrough`: the disk tier gets the range now, later or never. */
    method Put(key: RangeKey, value: Bytes, ghost content: RevisionKey -> Bytes)
      requires Valid() && True(content) && ValidPayload(key, value) && value != [] && IsSlice(content, key.file, key.offset, value)
      modifies this`disk, hot
      ensures Valid() && True(content)
      ensures |value| <= hot.maximumBytes ==> key in hot.entries && hot.entries[key] == value
      ensures disk == old(disk) || disk == old(disk)[key := value]
    {
      hot.InsertTruth(key, value, content);
      var queued: bool := *;
      if queued {
        disk := disk[key := value];
      }
    }

    method Invalidate(node: nat, ghost content: RevisionKey -> Bytes)
      requires Valid() && True(content)
      modifies this`disk, hot
      ensures Valid() && True(content)
      ensures hot.entries == map k | k in old(hot.entries) && k.file.node != node :: old(hot.entries)[k]
      ensures disk == map k | k in old(disk) && k.file.node != node :: old(disk)[k]
    {
      hot.Invalidate(node);
      disk := map k | k in disk && k.file.node != node :: disk[k];
    }

    /** Eviction and the removal of corrupt entries take ranges from the disk tier. */
    method Lose(keys: set<RangeKey>, ghost content: RevisionKey -> Bytes)
      requires Valid() && True(content)
      modifies this`disk
      ensures Valid() && True(content) && disk == old(disk) - keys
    {
      disk := disk - keys;
    }
  }
}
