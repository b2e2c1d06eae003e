/**
 Server-side range copy: bounded buffers, short reads and writes, a kernel copy
 that may stop anywhere, and the exchange of two files' contents built on it.
 A file is an object, so input and output may be the same file.
 */
module RangeCopy {
  import opened Common

  type Bytes = seq<byte>

  datatype CopyError = InvalidRequest | PermissionDenied | Conflict | Io

  const CHUNK: nat := 1024 * 1024
  const EXCHANGE_CHUNK: nat := 8 * 1024 * 1024

  // ----- what a positioned write means -----

  /** The file after writing `bytes` at `offset`; a gap past the old end reads as zeros. */
  function Written(data: Bytes, offset: nat, bytes: Bytes): Bytes {
    seq(if bytes == [] then |data| else Max(|data|, offset + |bytes|),
        i requires i >= 0 => if offset <= i < offset + |bytes| then bytes[i - offset] else if i < |data| then data[i] else 0)
  }

  /** Ascending writes join up. */
  lemma WriteForward(data: Bytes, offset: nat, a: Bytes, b: Bytes)
    ensures Written(Written(data, offset, a), offset + |a|, b) == Written(data, offset, a + b)
  {
    var twice, once := Written(Written(data, offset, a), offset + |a|, b), Written(data, offset, a + b);
    assert |twice| == |once|;
    assert forall i :: 0 <= i < |once| ==> twice[i] == once[i];
  }

  /** Descending writes join up. */
  lemma WriteBackward(data: Bytes, offset: nat, a: Bytes, b: Bytes)
    ensures Written(Written(data, offset + |a|, b), offset, a) == Written(data, offset, a + b)
  {
    var twice, once := Written(Written(data, offset + |a|, b), offset, a), Written(data, offset, a + b);
    assert |twice| == |once|;
    assert forall i :: 0 <= i < |once| ==> twice[i] == once[i];
  }

  lemma WriteNothing(data: Bytes, offset: nat)
    ensures Written(data, offset, []) == data
  {
    var now := Written(data, offset, []);
    assert forall i :: 0 <= i < |data| ==> now[i] == data[i];
  }

  /** Some of the destination may have been written; everything else is untouched. */
  ghost predicate OnlyWithin(before: Bytes, after: Bytes, offset: nat, length: nat) {
    && |before| <= |after| <= Max(|before|, offset + length)
    && forall i :: 0 <= i < |before| && !(offset <= i < offset + length) ==> after[i] == before[i]
  }

  lemma WithinWider(before: Bytes, between: Bytes, after: Bytes, offset: nat, length: nat, lo: nat, n: nat)
    requires OnlyWithin(before, between, offset, length) && OnlyWithin(between, after, lo, n)
    requires offset <= lo && lo + n <= offset + length
    ensures OnlyWithin(before, after, offset, length)
  {
  }

  /** The bytes `lo..hi` of `bytes` can be read from `data` at `source + lo`. */
  ghost predicate Reads(data: Bytes, source: nat, bytes: Bytes, lo: nat, hi: nat)
    requires hi <= |bytes|
  {
    source + hi <= |data| && forall i :: lo <= i < hi ==> bytes[i] == data[source + i]
  }

  lemma ReadsSlice(data: Bytes, source: nat, bytes: Bytes, lo: nat, hi: nat, a: nat, b: nat)
    requires hi <= |bytes| && lo <= a <= b <= hi && Reads(data, source, bytes, lo, hi)
    ensures data[source + a..source + b] == bytes[a..b]
  {
    assert forall i :: 0 <= i < b - a ==> data[source + a..source + b][i] == data[source + (a + i)] && bytes[a..b][i] == bytes[a + i];
  }

  lemma WriteNext(before: Bytes, offset: nat, bytes: Bytes, done: nat, n: nat)
    requires done + n <= |bytes|
    ensures Written(Written(before, offset, bytes[..done]), offset + done, bytes[done..done + n]) == Written(before, offset, bytes[..done + n])
  {
    var a, b, both := bytes[..done], bytes[done..done + n], bytes[..done + n];
    assert both == a + b && |a| == done;
    WriteForward(before, offset, a, b);
  }

  lemma WritePrevious(before: Bytes, offset: nat, bytes: Bytes, left: nat, n: nat)
    requires n <= left <= |bytes|
    ensures Written(Written(before, offset + left, bytes[left..]), offset + left - n, bytes[left - n..left])
         == Written(before, offset + left - n, bytes[left - n..])
  {
    var a, b, both := bytes[left - n..left], bytes[left..], bytes[left - n..];
    assert both == a + b && |a| == n;
    WriteBackward(before, offset + left - n, a, b);
  }

  predicate WrittenUpTo(before: Bytes, after: Bytes, offset: nat, bytes: Bytes, k: nat) {
    k <= |bytes| && after == Written(before, offset, bytes[..k])
  }

  /** A write that failed half-way: a proper prefix of the bytes is in place. */
  ghost predicate Partial(before: Bytes, after: Bytes, offset: nat, bytes: Bytes) {
    exists k: nat :: k < |bytes| && WrittenUpTo(before, after, offset, bytes, k)
  }

  lemma NothingIsPartial(before: Bytes, offset: nat, bytes: Bytes)
    requires bytes != []
    ensures Partial(before, before, offset, bytes)
  {
    WriteNothing(before, offset);
    assert bytes[..0] == [];
    assert WrittenUpTo(before, before, offset, bytes, 0);
  }

  /** A chunk that failed half-way, after `done` bytes in place. */
  lemma PartialChunk(before: Bytes, now: Bytes, after: Bytes, offset: nat, bytes: Bytes, done: nat, amount: nat)
    requires done + amount <= |bytes| && now == Written(before, offset, bytes[..done])
    requires Partial(now, after, offset + done, bytes[done..done + amount])
    ensures Partial(before, after, offset, bytes)
  {
    var k: nat :| k < amount && WrittenUpTo(now, after, offset + done, bytes[done..done + amount], k);
    assert bytes[done..done + amount][..k] == bytes[done..done + k];
    WriteNext(before, offset, bytes, done, k);
    assert WrittenUpTo(before, after, offset, bytes, done + k);
  }

  lemma PrefixIsWithin(data: Bytes, offset: nat, bytes: Bytes, n: nat)
    requires n <= |bytes|
    ensures OnlyWithin(data, Written(data, offset, bytes[..n]), offset, |bytes|)
  {
  }

  class File {
    var data: Bytes

    constructor ()
      ensures data == []
    {
      data := [];
    }

    /** One `pread`: any prefix of what is there, or a failure. */
    method ReadAt(offset: nat, length: nat) returns (r: Result<Bytes, CopyError>)
      ensures r.Ok? ==> |r.value| <= length && (r.value != [] ==> offset + |r.value| <= |data| && r.value == data[offset..offset + |r.value|])
    {
      var failed: bool := *;
      if failed {
        return Err(Io);
      }
      var n: nat :| n <= length && (n > 0 ==> offset + n <= |data|);
      return Ok(if n == 0 then [] else data[offset..offset + n]);
    }

    /** One `pwrite`: any prefix is written, or it fails and writes nothing. */
    method WriteAt(offset: nat, bytes: Bytes) returns (r: Result<nat, CopyError>)
      modifies this`data
      ensures r.Ok? ==> r.value <= |bytes| && data == Written(old(data), offset, bytes[..r.value])
      ensures r.Err? ==> data == old(data)
    {
      var failed: bool := *;
      if failed {
        return Err(Io);
      }
      var n: nat :| n <= |bytes|;
      data := Written(data, offset, bytes[..n]);
      return Ok(n);
    }

    /** `read_all_at`. */
    method ReadAllAt(offset: nat, length: nat) returns (r: Result<Bytes, CopyError>)
      ensures r.Ok? ==> length == 0 || offset + length <= |data|
      ensures r.Ok? ==> |r.value| == length && (length > 0 ==> r.value == data[offset..offset + length])
    {
      var got: Bytes := [];
      while |got| < length
        invariant |got| <= length && (got != [] ==> offset + |got| <= |data| && got == data[offset..offset + |got|])
        decreases length - |got|
      {
        var part := ReadAt(offset + |got|, length - |got|);
        if part.Err? {
          return part;
        }
        if part.value == [] {
          return Err(Conflict);
        }
        got := got + part.value;
      }
      return Ok(got);
    }

    /** `write_all_at` without append. */
    method WriteAllAt(offset: nat, bytes: Bytes) returns (r: Result<(), CopyError>)
      modifies this`data
      ensures r.Ok? ==> data == Written(old(data), offset, bytes)
      ensures r.Err? ==> Partial(old(data), data, offset, bytes)
      ensures OnlyWithin(old(data), data, offset, |bytes|)
    {
      ghost var before := data;
      WriteNothing(before, offset);
      var consumed := 0;
      while consumed < |bytes|
        invariant consumed <= |bytes| && data == Written(before, offset, bytes[..consumed])
        decreases |bytes| - consumed
      {
        PrefixIsWithin(before, offset, bytes, consumed);
        assert WrittenUpTo(before, data, offset, bytes, consumed);
        var w := WriteAt(offset + consumed, bytes[consumed..]);
        if w.Err? {
          return Err(w.error);
        }
        assert bytes[consumed..][..w.value] == bytes[consumed..consumed + w.value];
        WriteNext(before, offset, bytes, consumed, w.value);
        PrefixIsWithin(before, offset, bytes, consumed + w.value);
        if w.value == 0 {
          return Err(Io);
        }
        consumed := consumed + w.value;
      }
      assert bytes[..consumed] == bytes;
      PrefixIsWithin(before, offset, bytes, consumed);
      return Ok(());
    }
  }

  // ----- buffered copies -----

  /** A forward copy never reads what it has already overwritten. */
  predicate ForwardSafe(sameFile: bool, source: nat, destination: nat, length: nat) {
    sameFile ==> destination <= source || source + length <= destination
  }

  /** After a forward copy of `done` bytes within one file the rest of the source still reads as before. */
  lemma ForwardKeepsRest(data: Bytes, source: nat, destination: nat, bytes: Bytes, done: nat)
    requires source + |bytes| <= |data| && done <= |bytes| && bytes == data[source..source + |bytes|]
    requires ForwardSafe(true, source, destination, |bytes|)
    ensures Reads(Written(data, destination, bytes[..done]), source, bytes, done, |bytes|)
  {
  }

  /** After a backward copy down to `left` within one file the rest of the source still reads as before. */
  lemma BackwardKeepsRest(data: Bytes, source: nat, destination: nat, bytes: Bytes, left: nat)
    requires source + |bytes| <= |data| && left <= |bytes| && bytes == data[source..source + |bytes|] && source <= destination
    ensures Reads(Written(data, destination + left, bytes[left..]), source, bytes, 0, left)
  {
  }

  lemma WrittenIsWithin(data: Bytes, offset: nat, bytes: Bytes)
    ensures OnlyWithin(data, Written(data, offset, bytes), offset, |bytes|)
  {
  }

  /** The state of a forward copy with `done` bytes in place: what is left can still be read. */
  ghost predicate CopiedUpTo(now: Bytes, input: Bytes, before: Bytes, source: nat, destination: nat, bytes: Bytes, done: nat) {
    && done <= |bytes| && now == Written(before, destination, bytes[..done])
    && Reads(input, source, bytes, done, |bytes|) && OnlyWithin(before, now, destination, |bytes|)
  }

  lemma ForwardStep(now: Bytes, input: Bytes, before: Bytes, source: nat, destination: nat, bytes: Bytes, done: nat, n: nat, moved: Bytes)
    requires CopiedUpTo(now, input, before, source, destination, bytes, done) && done + n <= |bytes|
    requires moved == input[source + done..source + |bytes|][..n]
    ensures moved == bytes[done..done + n]
    ensures Written(now, destination + done, moved) == Written(before, destination, bytes[..done + n])
    ensures OnlyWithin(before, Written(now, destination + done, moved), destination, |bytes|)
  {
    ReadsSlice(input, source, bytes, done, |bytes|, done, done + n);
    assert moved == input[source + done..source + done + n];
    WriteNext(before, destination, bytes, done, n);
    WrittenIsWithin(now, destination + done, moved);
    WithinWider(before, now, Written(now, destination + done, moved), destination, |bytes|, destination + done, n);
  }

  /** The state of a backward copy with `left` bytes to go. */
  ghost predicate CopiedDownTo(now: Bytes, before: Bytes, destination: nat, bytes: Bytes, left: nat) {
    left <= |bytes| && now == Written(before, destination + left, bytes[left..])
  }

  lemma BackwardStep(before: Bytes, source: nat, destination: nat, bytes: Bytes, left: nat, n: nat)
    requires n <= left <= |bytes|
    requires source + |bytes| <= |before| && bytes == before[source..source + |bytes|] && source <= destination
    ensures var now := Written(before, destination + left, bytes[left..]);
            && source + left <= |now|
            && CopiedDownTo(Written(now, destination + left - n, now[source + left - n..source + left]), before, destination, bytes, left - n)
  {
    var now := Written(before, destination + left, bytes[left..]);
    BackwardKeepsRest(before, source, destination, bytes, left);
    ReadsSlice(now, source, bytes, 0, left, left - n, left);
    WritePrevious(before, destination, bytes, left, n);
  }

  /** Moving the next `n` bytes, within one file or between two. */
  lemma ForwardMove(now: Bytes, input: Bytes, before: Bytes, source: nat, destination: nat, bytes: Bytes, done: nat, n: nat, sameFile: bool)
    requires CopiedUpTo(now, input, before, source, destination, bytes, done) && done + n <= |bytes|
    requires ForwardSafe(sameFile, source, destination, |bytes|)
    requires sameFile ==> source + |bytes| <= |before| && bytes == before[source..source + |bytes|]
    ensures var next := Written(now, destination + done, input[source + done..source + |bytes|][..n]);
            CopiedUpTo(next, if sameFile then next else input, before, source, destination, bytes, done + n)
  {
    ForwardStep(now, input, before, source, destination, bytes, done, n, input[source + done..source + |bytes|][..n]);
    if sameFile {
      ForwardKeepsRest(before, source, destination, bytes, done + n);
    }
  }

  /** Copying all that is left completes the copy. */
  lemma Remainder(now: Bytes, input: Bytes, before: Bytes, source: nat, destination: nat, bytes: Bytes, done: nat)
    requires CopiedUpTo(now, input, before, source, destination, bytes, done)
    ensures Written(now, destination + done, input[source + done..source + |bytes|]) == Written(before, destination, bytes)
  {
    var rest := input[source + done..source + |bytes|];
    assert rest[..|bytes| - done] == rest && bytes[..|bytes|] == bytes;
    ForwardStep(now, input, before, source, destination, bytes, done, |bytes| - done, rest);
  }

  /** One chunk through the buffer. */
  method CopyChunk(input: File, source: nat, output: File, destination: nat, amount: nat) returns (r: Result<(), CopyError>)
    requires 0 < amount && source + amount <= |input.data|
    modifies output`data
    ensures r.Ok? ==> output.data == Written(old(output.data), destination, old(input.data)[source..source + amount])
    ensures r.Err? ==> Partial(old(output.data), output.data, destination, old(input.data)[source..source + amount])
    ensures OnlyWithin(old(output.data), output.data, destination, amount)
  {
    NothingIsPartial(output.data, destination, input.data[source..source + amount]);
    var chunk := input.ReadAllAt(source, amount);
    if chunk.Err? {
      return Err(chunk.error);
    }
    r := output.WriteAllAt(destination, chunk.value);
  }

  /** The chunk that starts at `done`. */
  method ForwardChunk(input: File, source: nat, output: File, destination: nat, done: nat, amount: nat, ghost before: Bytes, ghost bytes: Bytes)
    returns (r: Result<(), CopyError>)
    requires 0 < amount && done + amount <= |bytes| && ForwardSafe(input == output, source, destination, |bytes|)
    requires CopiedUpTo(output.data, input.data, before, source, destination, bytes, done)
    requires input == output ==> source + |bytes| <= |before| && bytes == before[source..source + |bytes|]
    modifies output`data
    ensures r.Ok? ==> CopiedUpTo(output.data, input.data, before, source, destination, bytes, done + amount)
    ensures r.Err? ==> Partial(before, output.data, destination, bytes)
    ensures OnlyWithin(before, output.data, destination, |bytes|)
  {
    ghost var now, was := output.data, input.data;
    ghost var moved := was[source + done..source + |bytes|][..amount];
    assert moved == was[source + done..source + done + amount];
    ForwardStep(now, was, before, source, destination, bytes, done, amount, moved);
    r := CopyChunk(input, source + done, output, destination + done, amount);
    WithinWider(before, now, output.data, destination, |bytes|, destination + done, amount);
    if r.Err? {
      PartialChunk(before, now, output.data, destination, bytes, done, amount);
    } else if input == output {
      ForwardKeepsRest(before, source, destination, bytes, done + amount);
    }
  }

  /** `copy_range_buffered`. */
  method CopyBuffered(input: File, source: nat, output: File, destination: nat, length: nat) returns (r: Result<(), CopyError>)
    requires source + length <= |input.data| && ForwardSafe(input == output, source, destination, length)
    modifies output`data
    ensures r.Ok? ==> output.data == Written(old(output.data), destination, old(input.data)[source..source + length])
    ensures r.Err? ==> Partial(old(output.data), output.data, destination, old(input.data)[source..source + length])
    ensures OnlyWithin(old(output.data), output.data, destination, length)
  {
    ghost var before, bytes := output.data, input.data[source..source + length];
    WriteNothing(before, destination);
    var done := 0;
    while done < length
      invariant CopiedUpTo(output.data, input.data, before, source, destination, bytes, done)
      decreases length - done
    {
      var amount := Min(length - done, CHUNK);
      r := ForwardChunk(input, source, output, destination, done, amount, before, bytes);
      if r.Err? {
        return;
      }
      done := done + amount;
    }
    assert bytes[..done] == bytes;
    return Ok(());
  }

  /** `copy_range_buffered_overlap`: the two ranges overlap in one file. */
  method CopyOverlap(file: File, source: nat, destination: nat, length: nat) returns (r: Result<(), CopyError>)
    requires source + length <= |file.data|
    modifies file`data
    ensures r.Ok? ==> file.data == Written(old(file.data), destination, old(file.data)[source..source + length])
    ensures OnlyWithin(old(file.data), file.data, destination, length)
  {
    if destination <= source {
      r := CopyBuffered(file, source, file, destination, length);
    } else {
      r := CopyBackward(file, source, destination, length);
    }
  }

  /** The chunk that ends at `left`. */
  method BackwardChunk(file: File, source: nat, destination: nat, left: nat, amount: nat, ghost before: Bytes, ghost bytes: Bytes)
    returns (r: Result<(), CopyError>)
    requires 0 < amount <= left <= |bytes| && source <= destination
    requires source + |bytes| <= |before| && bytes == before[source..source + |bytes|]
    requires CopiedDownTo(file.data, before, destination, bytes, left) && OnlyWithin(before, file.data, destination, |bytes|)
    modifies file`data
    ensures r.Ok? ==> CopiedDownTo(file.data, before, destination, bytes, left - amount)
    ensures OnlyWithin(before, file.data, destination, |bytes|)
  {
    ghost var between := file.data;
    BackwardStep(before, source, destination, bytes, left, amount);
    r := CopyChunk(file, source + left - amount, file, destination + left - amount, amount);
    WithinWider(before, between, file.data, destination, |bytes|, destination + left - amount, amount);
  }

  method CopyBackward(file: File, source: nat, destination: nat, length: nat) returns (r: Result<(), CopyError>)
    requires source + length <= |file.data| && source <= destination
    modifies file`data
    ensures r.Ok? ==> file.data == Written(old(file.data), destination, old(file.data)[source..source + length])
    ensures OnlyWithin(old(file.data), file.data, destination, length)
  {
    ghost var before, bytes := file.data, file.data[source..source + length];
    WriteNothing(before, destination + length);
    assert bytes[length..] == [];
    var remaining: nat := length;
    while remaining > 0
      invariant CopiedDownTo(file.data, before, destination, bytes, remaining)
      invariant OnlyWithin(before, file.data, destination, length)
    {
      var amount := Min(remaining, CHUNK);
      r := BackwardChunk(file, source, destination, remaining, amount, before, bytes);
      if r.Err? {
        return;
      }
      remaining := remaining - amount;
    }
    assert bytes[0..] == bytes;
    return Ok(());
  }

  // ----- the kernel path and the whole operation -----

  datatype KernelOutcome = Moved(count: nat) | Unsupported | Failed

  /** One `copy_file_range`: it moves some bytes, declines, or fails. */
  method KernelCopy(input: File, source: nat, output: File, destination: nat, length: nat) returns (k: KernelOutcome)
    requires source + length <= |input.data| && ForwardSafe(input == output, source, destination, length)
    modifies output`data
    ensures k.Moved? ==> k.count <= length
    ensures k.Moved? ==> output.data == Written(old(output.data), destination, old(input.data)[source..source + length][..k.count])
    ensures !k.Moved? ==> output.data == old(output.data)
  {
    k := *;
    if k.Moved? {
      var n: nat :| n <= length;
      k := Moved(n);
      output.data := Written(output.data, destination, input.data[source..source + length][..n]);
    }
  }

  /** One kernel copy of whatever is left. */
  method KernelStep(input: File, source: nat, output: File, destination: nat, done: nat, ghost before: Bytes, ghost bytes: Bytes, amount: nat)
    returns (k: KernelOutcome)
    requires amount == |bytes| && done < amount && ForwardSafe(input == output, source, destination, amount)
    requires CopiedUpTo(output.data, input.data, before, source, destination, bytes, done)
    requires input == output ==> source + |bytes| <= |before| && bytes == before[source..source + |bytes|]
    modifies output`data
    ensures CopiedUpTo(output.data, input.data, before, source, destination, bytes, done + if k.Moved? then k.count else 0)
  {
    ghost var now, was := output.data, input.data;
    k := KernelCopy(input, source + done, output, destination + done, amount - done);
    if k.Moved? {
      ForwardMove(now, was, before, source, destination, bytes, done, k.count, input == output);
    }
  }

  /** The kernel loop: `copied` bytes are in place when it stops, however far it came. */
  method KernelLoop(input: File, source: nat, output: File, destination: nat, amount: nat) returns (r: Result<nat, CopyError>)
    requires source + amount <= |input.data| && ForwardSafe(input == output, source, destination, amount)
    modifies output`data
    ensures r.Ok? ==> CopiedUpTo(output.data, input.data, old(output.data), source, destination, old(input.data)[source..source + amount], r.value)
    ensures r.Err? ==> Partial(old(output.data), output.data, destination, old(input.data)[source..source + amount])
    ensures OnlyWithin(old(output.data), output.data, destination, amount)
  {
    ghost var before, bytes := output.data, input.data[source..source + amount];
    WriteNothing(before, destination);
    var copied := 0;
    while copied < amount
      invariant CopiedUpTo(output.data, input.data, before, source, destination, bytes, copied)
      decreases amount - copied
    {
      var k := KernelStep(input, source, output, destination, copied, before, bytes, amount);
      match k {
        case Failed =>
          assert WrittenUpTo(before, output.data, destination, bytes, copied);
          return Err(Io);
        case Unsupported => break;
        case Moved(n) =>
          copied := copied + n;
          if n == 0 {
            break;
          }
      }
    }
    return Ok(copied);
  }

  /** The number of bytes a copy moves: it stops at the end of the input. */
  function Amount(input: Bytes, source: nat, length: nat): nat {
    Min(length, if source <= |input| then |input| - source else 0)
  }

  /** `copy_range_server`: memmove, whatever path served it. */
  method CopyRange(input: File, source: u64, output: File, destination: u64, length: u64) returns (r: Result<nat, CopyError>)
    requires source + length <= U64_MAX && destination + length <= U64_MAX
    modifies output`data
    ensures r.Ok? ==> r.value == Amount(old(input.data), source, length)
    ensures r.Ok? && r.value == 0 ==> output.data == old(output.data)
    ensures r.Ok? && r.value > 0 ==> output.data == Written(old(output.data), destination, old(input.data)[source..source + r.value])
    ensures r.Err? && input != output ==>
              var amount := Amount(old(input.data), source, length);
              amount > 0 && Partial(old(output.data), output.data, destination, old(input.data)[source..source + amount])
    ensures OnlyWithin(old(output.data), output.data, destination, Amount(old(input.data), source, length))
  {
    var amount := Amount(input.data, source, length);
    if amount == 0 {
      return Ok(0);
    }
    if source == 0 && destination == 0 && amount == |input.data| && |output.data| == 0 {
      var cloned: bool := *;
      if cloned {
        output.data := input.data;
        return Ok(amount);
      }
    }
    if input == output && source < destination + amount && destination < source + amount {
      var moved := CopyOverlap(input, source, destination, amount);
      return if moved.Ok? then Ok(amount) else Err(moved.error);
    }
    r := CopyDisjoint(input, source, output, destination, amount);
  }

  /** The kernel loop and the buffered remainder. */
  method CopyDisjoint(input: File, source: nat, output: File, destination: nat, amount: nat) returns (r: Result<nat, CopyError>)
    requires source + amount <= |input.data| && ForwardSafe(input == output, source, destination, amount)
    modifies output`data
    ensures r.Ok? ==> r.value == amount && output.data == Written(old(output.data), destination, old(input.data)[source..source + amount])
    ensures r.Err? ==> Partial(old(output.data), output.data, destination, old(input.data)[source..source + amount])
    ensures OnlyWithin(old(output.data), output.data, destination, amount)
  {
    ghost var before, bytes := output.data, input.data[source..source + amount];
    var kernel := KernelLoop(input, source, output, destination, amount);
    if kernel.Err? {
      return kernel;
    }
    var copied := kernel.value;
    if copied == amount {
      assert bytes[..copied] == bytes;
      return Ok(copied);
    }
    ghost var between := output.data;
    Remainder(between, input.data, before, source, destination, bytes, copied);
    ReadsSlice(input.data, source, bytes, copied, amount, copied, amount);
    var rest := CopyBuffered(input, source + copied, output, destination + copied, amount - copied);
    WithinWider(before, between, output.data, destination, amount, destination + copied, amount - copied);
    if rest.Err? {
      PartialChunk(before, between, output.data, destination, bytes, copied, amount - copied);
      return Err(rest.error);
    }
    return Ok(amount);
  }

  datatype Access = Access(canRead: bool, canWrite: bool)

  /** `copy_file_range`, the request. */
  method CopyFileRange(input: File, inputAccess: Access, source: u64, output: File, outputAccess: Access, destination: u64, length: u64)
    returns (r: Result<nat, CopyError>)
    modifies output`data
    ensures source + length > U64_MAX || destination + length > U64_MAX ==> r == Err(InvalidRequest) && output.data == old(output.data)
    ensures source + length <= U64_MAX && destination + length <= U64_MAX && !(inputAccess.canRead && outputAccess.canWrite) ==>
              r == Err(PermissionDenied) && output.data == old(output.data)
    ensures r.Ok? ==> r.value == Amount(old(input.data), source, length)
    ensures r.Ok? ==> output.data == if r.value == 0 then old(output.data)
                                     else Written(old(output.data), destination, old(input.data)[source..source + r.value])
    ensures OnlyWithin(old(output.data), output.data, destination, Amount(old(input.data), source, length))
  {
    if source + length > U64_MAX || destination + length > U64_MAX {
      return Err(InvalidRequest);
    }
    if !inputAccess.canRead || !outputAccess.canWrite {
      return Err(PermissionDenied);
    }
    r := CopyRange(input, source, output, destination, length);
  }

  // ----- exchanging two files -----

  /** `copy_range_in_chunks` between different files. */
  method CopyInChunks(input: File, output: File, length: u64) returns (r: Result<(), CopyError>)
    requires input != output && length <= |input.data|
    modifies output`data
    ensures r.Ok? ==> output.data == Written(old(output.data), 0, input.data[..length])
    ensures r.Err? ==> Partial(old(output.data), output.data, 0, input.data[..length])
  {
    ghost var before, bytes := output.data, input.data[..length];
    WriteNothing(before, 0);
    var offset := 0;
    while offset < length
      invariant offset <= length && WrittenUpTo(before, output.data, 0, bytes, offset)
      decreases length - offset
    {
      var chunk := Min(length - offset, EXCHANGE_CHUNK);
      ghost var now := output.data;
      assert input.data[offset..offset + chunk] == bytes[offset..offset + chunk];
      var copied := CopyRange(input, offset, output, offset, chunk);
      if copied.Err? {
        PartialChunk(before, now, output.data, 0, bytes, offset, chunk);
        return Err(copied.error);
      }
      if copied.value == 0 {
        return Err(Conflict);
      }
      WriteNext(before, 0, bytes, offset, copied.value);
      offset := offset + copied.value;
    }
    assert bytes[..offset] == bytes;
    return Ok(());
  }

  /** Where an exchange stopped: it did not, while saving the left file, while overwriting the left file, or
      while overwriting the right file. */
  datatype Stopped = Nowhere | Saving | FillingLeft | FillingRight

  /** An empty file that was filled half-way holds a proper prefix. */
  lemma PartialFill(after: Bytes, bytes: Bytes)
    requires Partial([], after, 0, bytes)
    ensures |after| < |bytes| && after == bytes[..|after|]
  {
    var k: nat :| k < |bytes| && WrittenUpTo([], after, 0, bytes, k);
    assert Written([], 0, bytes[..k]) == bytes[..k];
  }

  /** `exchange_file_contents`, the data forks: on success the two files have swapped contents. A file that
      was being filled when it failed holds a proper prefix of what it should have got. */
  method ExchangeContents(left: File, right: File, temporary: File) returns (r: Result<(), CopyError>, ghost stopped: Stopped)
    requires left != right && left != temporary && right != temporary
    requires |left.data| <= U64_MAX && |right.data| <= U64_MAX
    modifies left`data, right`data, temporary`data
    ensures r.Ok? <==> stopped.Nowhere?
    ensures r.Ok? ==> left.data == old(right.data) && right.data == old(left.data)
    ensures stopped.Saving? ==> left.data == old(left.data) && right.data == old(right.data)
    ensures stopped.FillingLeft? ==>
              right.data == old(right.data) && |left.data| < |right.data| && left.data == right.data[..|left.data|] && temporary.data == old(left.data)
    ensures stopped.FillingRight? ==>
              && left.data == old(right.data) && temporary.data == old(left.data)
              && |right.data| < |old(left.data)| && right.data == old(left.data)[..|right.data|]
  {
    var leftSize, rightSize := |left.data|, |right.data|;
    temporary.data := [];
    r := CopyInChunks(left, temporary, leftSize);
    if r.Err? {
      return r, Saving;
    }
    assert left.data[..leftSize] == left.data && temporary.data == left.data;
    left.data := [];
    r := CopyInChunks(right, left, rightSize);
    assert right.data[..rightSize] == right.data;
    if r.Err? {
      PartialFill(left.data, right.data);
      return r, FillingLeft;
    }
    assert left.data == right.data;
    right.data := [];
    r := CopyInChunks(temporary, right, leftSize);
    assert temporary.data[..leftSize] == temporary.data;
    if r.Err? {
      PartialFill(right.data, temporary.data);
      return r, FillingRight;
    }
    stopped := Nowhere;
  }

  /** `exchange_data`: the temporary file is unlinked whatever happened. The right file's contents survive any
      failure in one of the two files. The left file's contents are lost exactly if refilling the left
      file failed and they are neither the right file's contents nor the part that got across, or
      refilling the right file failed and the two files differed. */
  method ExchangeData(left: File, right: File) returns (r: Result<(), CopyError>, ghost stopped: Stopped)
    requires |left.data| <= U64_MAX && |right.data| <= U64_MAX
    modifies left`data, right`data
    ensures left == right ==> r.Ok? && left.data == old(left.data)
    ensures r.Ok? ==> stopped.Nowhere?
    ensures stopped.Nowhere? ==> left.data == old(right.data) && right.data == old(left.data)
    ensures stopped.Saving? ==> left.data == old(left.data) && right.data == old(right.data)
    ensures stopped.FillingLeft? ==> right.data == old(right.data) && |left.data| < |right.data| && left.data == right.data[..|left.data|]
    ensures stopped.FillingRight? ==> left.data == old(right.data) && |right.data| < |old(left.data)| && right.data == old(left.data)[..|right.data|]
    ensures old(right.data) in {left.data, right.data}
    ensures old(left.data) !in {left.data, right.data} <==>
              || (stopped.FillingLeft? && old(left.data) != old(right.data) && old(left.data) != old(right.data)[..|left.data|])
              || (stopped.FillingRight? && old(left.data) != old(right.data))
  {
    if left == right {
      return Ok(()), Nowhere;
    }
    var temporary := new File();
    r, stopped := ExchangeContents(left, right, temporary);
    var unlinked: bool := *;
    if r.Ok? && !unlinked {
      r := Err(Io);
    }
  }
}
