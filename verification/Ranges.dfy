/**
 Serving a byte range from cached pieces of one file revision: the sorted sweep
 (`assemble_range`, used by the memory and disk tiers) and the greedy walk of
 the hot tier. Both are proved against one contract, `Answers`.
 */
module Ranges {
  import opened Common
  import opened StableSort

  type Bytes = seq<byte>

  datatype RevisionKey = RevisionKey(node: nat, revision: u64)

  datatype RangeKey = RangeKey(file: RevisionKey, offset: u64, length: u64) {
    function End(): nat { offset + length }
  }

  /** `valid_range_payload`. */
  predicate ValidPayload(key: RangeKey, value: Bytes) {
    key.End() <= U64_MAX && |value| == key.length
  }

  type Entries = map<RangeKey, Bytes>

  ghost predicate ValidEntries(entries: Entries) {
    forall k :: k in entries ==> ValidPayload(k, entries[k]) && k.length > 0
  }

  // ----- the contract of a range lookup -----

  /** The entry stored under `k` has byte `p` of revision `file`. */
  predicate Has(entries: Entries, k: RangeKey, file: RevisionKey, p: nat) {
    k in entries && k.file == file && k.offset <= p < k.offset + |entries[k]|
  }

  ghost predicate Cached(entries: Entries, file: RevisionKey, p: nat) {
    exists k :: Has(entries, k, file, p)
  }

  ghost predicate Covered(entries: Entries, file: RevisionKey, lo: nat, hi: nat) {
    forall p: nat :: lo <= p < hi ==> Cached(entries, file, p)
  }

  /** Some entry stores exactly `value` at byte `p`. */
  ghost predicate Stored(entries: Entries, file: RevisionKey, p: nat, value: byte) {
    exists k :: Has(entries, k, file, p) && entries[k][p - k.offset] == value
  }

  /** A lookup answers iff every requested byte is cached, and then with cached bytes only. */
  ghost predicate Answers(entries: Entries, key: RangeKey, r: Option<Bytes>) {
    && (r.Some? <==> key.End() <= U64_MAX && Covered(entries, key.file, key.offset, key.End()))
    && (r.Some? ==> |r.value| == key.length
                    && forall i :: 0 <= i < key.length ==> Stored(entries, key.file, key.offset + i, r.value[i]))
  }

  /** Every cached entry is a slice of the content of its revision. */
  ghost predicate Truthful(entries: Entries, content: RevisionKey -> Bytes) {
    forall k :: k in entries ==> IsSlice(content, k.file, k.offset, entries[k])
  }

  ghost predicate IsSlice(content: RevisionKey -> Bytes, file: RevisionKey, offset: nat, data: Bytes) {
    offset + |data| <= |content(file)| && data == content(file)[offset..offset + |data|]
  }

  /** Over truthful entries the contract leaves one possible answer: the content itself. */
  lemma AnswersAreContent(entries: Entries, content: RevisionKey -> Bytes, key: RangeKey, r: Option<Bytes>)
    requires Truthful(entries, content) && Answers(entries, key, r) && r.Some? && key.length > 0
    ensures IsSlice(content, key.file, key.offset, r.value) && |r.value| == key.length
  {
    assert Stored(entries, key.file, key.offset + (key.length - 1), r.value[key.length - 1]);
    forall i | 0 <= i < |r.value| ensures r.value[i] == content(key.file)[key.offset + i] {
      assert Stored(entries, key.file, key.offset + i, r.value[i]);
    }
  }

  /** Two lookups that meet the contract over truthful caches never contradict each other, and over
      one cache they agree completely. */
  lemma AssemblersAgree(entries: Entries, content: RevisionKey -> Bytes, key: RangeKey, r: Option<Bytes>, r': Option<Bytes>)
    requires Truthful(entries, content) && Answers(entries, key, r) && Answers(entries, key, r')
    ensures r == r'
  {
    if r.Some? && key.length > 0 {
      AnswersAreContent(entries, content, key, r);
      AnswersAreContent(entries, content, key, r');
    }
  }

  // ----- the sorted sweep -----

  datatype Segment = Segment(key: RangeKey, offset: u64, data: Bytes) {
    function End(): nat { offset + |data| }
  }

  datatype Assembled = Assembled(data: Bytes, usedKeys: seq<RangeKey>)

  /** Smaller offset first, longer segment first on a tie. */
  predicate SegmentLe(a: Segment, b: Segment) {
    a.offset < b.offset || (a.offset == b.offset && |a.data| >= |b.data|)
  }

  predicate Overlapping(s: Segment, lo: nat, hi: nat) {
    s.End() <= U64_MAX && s.offset < hi && s.End() > lo
  }

  function Relevant(segments: seq<Segment>, lo: nat, hi: nat): (r: seq<Segment>)
    ensures forall s :: s in r <==> s in segments && Overlapping(s, lo, hi)
  {
    if segments == [] then []
    else
      var init, last := segments[..|segments| - 1], segments[|segments| - 1];
      assert segments == init + [last];
      if Overlapping(last, lo, hi) then Relevant(init, lo, hi) + [last] else Relevant(init, lo, hi)
  }

  predicate At(s: Segment, p: nat) { s.End() <= U64_MAX && s.offset <= p < s.End() }

  /** Some usable segment stores `value` at byte `p`. */
  ghost predicate SegmentByte(segments: seq<Segment>, p: nat, value: byte) {
    exists s :: s in segments && At(s, p) && s.data[p - s.offset] == value
  }

  ghost predicate InSegment(segments: seq<Segment>, p: nat) {
    exists s :: s in segments && At(s, p)
  }

  ghost predicate SegmentsCover(segments: seq<Segment>, lo: nat, hi: nat) {
    forall p: nat :: lo <= p < hi ==> InSegment(segments, p)
  }

  /** `data` consists of bytes stored at `lo`, `lo + 1`, ... */
  ghost predicate Filled(segments: seq<Segment>, lo: nat, data: Bytes) {
    forall j :: 0 <= j < |data| ==> SegmentByte(segments, lo + j, data[j])
  }

  lemma FilledCovers(segments: seq<Segment>, lo: nat, data: Bytes)
    requires Filled(segments, lo, data)
    ensures SegmentsCover(segments, lo, lo + |data|)
  {
    forall p: nat | lo <= p < lo + |data| ensures InSegment(segments, p) {
      assert SegmentByte(segments, lo + (p - lo), data[p - lo]);
    }
  }

  lemma FilledExtends(segments: seq<Segment>, lo: nat, data: Bytes, s: Segment, hi: nat)
    requires Filled(segments, lo, data)
    requires s in segments && s.End() <= U64_MAX && s.offset <= lo + |data| <= hi <= s.End()
    ensures Filled(segments, lo, data + s.data[lo + |data| - s.offset..hi - s.offset])
  {
    var piece := s.data[lo + |data| - s.offset..hi - s.offset];
    forall j | 0 <= j < |data + piece| ensures SegmentByte(segments, lo + j, (data + piece)[j]) {
      assert j >= |data| ==> At(s, lo + j) && s.data[lo + j - s.offset] == (data + piece)[j];
    }
  }

  ghost predicate KeysFrom(segments: seq<Segment>, keys: seq<RangeKey>) {
    forall k :: k in keys ==> exists s :: s in segments && s.key == k
  }

  /** The retain and the sort in front of the sweep. */
  method SortRelevant(segments: seq<Segment>, lo: nat, hi: nat) returns (sorted: seq<Segment>)
    ensures Sorted(SegmentLe, sorted)
    ensures forall s :: s in sorted <==> s in segments && Overlapping(s, lo, hi)
  {
    var relevant := Relevant(segments, lo, hi);
    sorted := Sort(SegmentLe, relevant);
    SortSorts(SegmentLe, relevant);
    forall s ensures s in sorted <==> s in relevant { SortKeepsMembers(SegmentLe, relevant, s); }
  }

  /** `assemble_range`. An empty request is answered iff it lies strictly inside a segment. */
  method AssembleRange(requested: RangeKey, segments: seq<Segment>) returns (r: Option<Assembled>)
    ensures requested.length > 0 ==>
              (r.Some? <==> requested.End() <= U64_MAX && SegmentsCover(segments, requested.offset, requested.End()))
    ensures requested.length == 0 ==>
              (r.Some? <==> exists s :: s in segments && At(s, requested.offset) && s.offset < requested.offset)
    ensures r.Some? ==> |r.value.data| == requested.length && Filled(segments, requested.offset, r.value.data)
    ensures r.Some? ==> KeysFrom(segments, r.value.usedKeys)
  {
    var requestedEnd := requested.End();
    if requestedEnd > U64_MAX {
      return None;
    }
    var sorted := SortRelevant(segments, requested.offset, requestedEnd);
    var cursor: u64 := requested.offset;
    var data: Bytes := [];
    var usedKeys: seq<RangeKey> := [];
    var i := 0;
    while i < |sorted|
      invariant 0 <= i <= |sorted| && requested.offset <= cursor <= requestedEnd
      invariant requested.length > 0 ==> cursor < requestedEnd
      invariant |data| == cursor - requested.offset && Filled(segments, requested.offset, data)
      invariant forall j :: 0 <= j < i ==> sorted[j].End() <= cursor
      invariant KeysFrom(segments, usedKeys)
    {
      var segment := sorted[i];
      assert segment in sorted;
      if segment.offset > cursor {
        break;
      }
      if segment.End() > cursor {
        var copyEnd := Min(segment.End(), requestedEnd);
        FilledExtends(segments, requested.offset, data, segment, copyEnd);
        data := data + segment.data[cursor - segment.offset..copyEnd - segment.offset];
        usedKeys := usedKeys + [segment.key];
        cursor := copyEnd;
        if cursor == requestedEnd {
          FilledCovers(segments, requested.offset, data);
          return Some(Assembled(data, usedKeys));
        }
      }
      i := i + 1;
    }
    GapAtCursor(segments, sorted, i, requested.offset, requestedEnd, cursor);
    return None;
  }

  /** When the sweep stops early nothing covers the byte at its cursor. */
  lemma GapAtCursor(segments: seq<Segment>, sorted: seq<Segment>, i: nat, lo: nat, hi: nat, cursor: nat)
    requires i <= |sorted| && Sorted(SegmentLe, sorted) && lo <= cursor <= hi && (lo < hi ==> cursor < hi)
    requires forall s :: s in sorted <==> s in segments && Overlapping(s, lo, hi)
    requires forall j :: 0 <= j < i ==> sorted[j].End() <= cursor
    requires i < |sorted| ==> sorted[i].offset > cursor
    ensures lo < hi ==> !SegmentsCover(segments, lo, hi)
    ensures lo == hi ==> forall s :: s in segments && At(s, lo) ==> s.offset >= lo
  {
    forall s | s in sorted ensures s.End() <= cursor || s.offset > cursor {
      var j :| 0 <= j < |sorted| && sorted[j] == s;
      assert j > i ==> SegmentLe(sorted[i], sorted[j]);
    }
    if lo < hi {
      forall s | s in segments ensures !At(s, cursor) {
        assert At(s, cursor) ==> s in sorted;
      }
      assert !InSegment(segments, cursor);
    } else {
      forall s | s in segments && At(s, lo) ensures s.offset >= lo {
        assert s.offset < lo ==> s in sorted;
      }
    }
  }

  /** `MemoryCache::get`: the sweep over every entry of the requested revision. */
  method MemoryGet(entries: Entries, key: RangeKey) returns (r: Option<Bytes>)
    requires ValidEntries(entries)
    ensures Answers(entries, key, r)
  {
    if key.length == 0 {
      return Some([]);
    }
    var segments: seq<Segment> := [];
    var pending := entries.Keys;
    while pending != {}
      invariant pending <= entries.Keys
      invariant forall s :: s in segments ==>
                  s.key in entries - pending && s.key.file == key.file && s.offset == s.key.offset && s.data == entries[s.key]
      invariant forall k :: k in entries - pending && k.file == key.file ==> Segment(k, k.offset, entries[k]) in segments
    {
      var k :| k in pending;
      pending := pending - {k};
      if k.file == key.file {
        segments := segments + [Segment(k, k.offset, entries[k])];
      }
    }
    assert entries - {} == entries;
    var assembled := AssembleRange(key, segments);
    SegmentsMirrorEntries(entries, key.file, segments);
    if assembled.None? {
      return None;
    }
    return Some(assembled.value.data);
  }

  lemma SegmentsMirrorEntries(entries: Entries, file: RevisionKey, segments: seq<Segment>)
    requires ValidEntries(entries)
    requires forall s :: s in segments ==> s.key in entries && s.key.file == file && s.offset == s.key.offset && s.data == entries[s.key]
    requires forall k :: k in entries && k.file == file ==> Segment(k, k.offset, entries[k]) in segments
    ensures forall p: nat, v: byte :: SegmentByte(segments, p, v) <==> Stored(entries, file, p, v)
    ensures forall p: nat :: InSegment(segments, p) <==> Cached(entries, file, p)
  {
    forall p: nat ensures InSegment(segments, p) <==> Cached(entries, file, p) {
      if s :| s in segments && At(s, p) {
        assert Has(entries, s.key, file, p);
      }
      if k :| Has(entries, k, file, p) {
        assert At(Segment(k, k.offset, entries[k]), p);
      }
    }
    forall p: nat, v: byte ensures SegmentByte(segments, p, v) <==> Stored(entries, file, p, v) {
      if SegmentByte(segments, p, v) {
        var s :| s in segments && At(s, p) && s.data[p - s.offset] == v;
        assert Has(entries, s.key, file, p);
      }
      if Stored(entries, file, p, v) {
        var k :| Has(entries, k, file, p) && entries[k][p - k.offset] == v;
        assert At(Segment(k, k.offset, entries[k]), p);
      }
    }
  }
}
