/**
 Saving, restoring and exporting a lazily loaded disk (src/buffer.js): the written blocks as block
 numbers in slot order plus chunks of data, and the whole disk as a list of file parts.
 */
module DiskSnapshot {
  import opened Numbers
  import opened Bytes
  import opened DiskImage
  import opened DiskBuffer

  /** The first n numbers of s, as a set. */
  function Members(s: seq<nat>, n: nat): set<nat>
    requires n <= |s|
  {
    if n == 0 then {} else Members(s, n - 1) + {s[n - 1]}
  }

  /** The first n numbers of s are different. */
  predicate Distinct(s: seq<nat>, n: nat)
    requires n <= |s|
  {
    n == 0 || (Distinct(s, n - 1) && s[n - 1] !in Members(s, n - 1))
  }

  lemma {:induction false} DistinctMeaning(s: seq<nat>, n: nat)
    requires n <= |s|
    ensures Distinct(s, n) <==> forall i, j :: 0 <= i < j < n ==> s[i] != s[j]
  {
    if n > 0 {
      DistinctMeaning(s, n - 1);
      MemberIndex(s, n - 1, s[n - 1]);
    }
  }

  lemma {:induction false} PrefixDistinct(s: seq<nat>, i: nat, n: nat)
    requires i <= n <= |s| && Distinct(s, n)
    ensures Distinct(s, i)
    decreases n
  {
    if i < n {
      PrefixDistinct(s, i, n - 1);
    }
  }

  lemma {:induction false} MemberIndex(s: seq<nat>, n: nat, b: nat)
    requires n <= |s|
    ensures b in Members(s, n) <==> exists i :: 0 <= i < n && s[i] == b
  {
    if n > 0 {
      MemberIndex(s, n - 1, b);
    }
  }

  /** The written blocks of a snapshot: the data of block indices[i] is data[i]; later ones win. */
  function Restored(indices: seq<nat>, data: seq<seq<byte>>, n: nat): map<nat, seq<byte>>
    requires n <= |indices| && n <= |data|
  {
    if n == 0 then map[] else Restored(indices, data, n - 1)[indices[n - 1] := data[n - 1]]
  }

  /** Restored is determined by the last place of each block number. */
  lemma {:induction false} RestoredLast(indices: seq<nat>, data: seq<seq<byte>>, n: nat, i: nat)
    requires i < n <= |indices| && n <= |data| && forall j :: i < j < n ==> indices[j] != indices[i]
    ensures indices[i] in Restored(indices, data, n) && Restored(indices, data, n)[indices[i]] == data[i]
  {
    if i < n - 1 {
      RestoredLast(indices, data, n - 1, i);
    }
  }

  lemma {:induction false} RestoredKeys(indices: seq<nat>, data: seq<seq<byte>>, n: nat)
    requires n <= |indices| && n <= |data|
    ensures Restored(indices, data, n).Keys == Members(indices, n)
  {
    if n > 0 {
      RestoredKeys(indices, data, n - 1);
    }
  }

  // ---------------------------------------------------------------------------
  // Saving

  /** The blocks in the first k chunks. */
  function Count(chunks: seq<seq<byte>>, k: nat): nat
    requires k <= |chunks|
  {
    if k == 0 then 0 else Count(chunks, k - 1) + |chunks[k - 1]| / BLOCK_SIZE
  }

  /** The blocks of all chunks, chunk by chunk. */
  function AllBlocks(chunks: seq<seq<byte>>, k: nat): (r: seq<seq<byte>>)
    requires k <= |chunks|
    ensures |r| == Count(chunks, k)
  {
    if k == 0 then [] else AllBlocks(chunks, k - 1) + Blocks(chunks[k - 1])
  }

  lemma {:induction false} AllBlocksWhole(chunks: seq<seq<byte>>, n: nat)
    requires n <= |chunks|
    ensures forall k :: 0 <= k < |AllBlocks(chunks, n)| ==> |AllBlocks(chunks, n)[k]| == BLOCK_SIZE
  {
    if n > 0 {
      AllBlocksWhole(chunks, n - 1);
    }
  }

  lemma {:induction false} SamePrefixBlocks(chunks: seq<seq<byte>>, n: nat, k: nat)
    requires k <= n <= |chunks|
    ensures Count(chunks[..n], k) == Count(chunks, k) && AllBlocks(chunks[..n], k) == AllBlocks(chunks, k)
  {
    if k > 0 {
      SamePrefixBlocks(chunks, n, k - 1);
    }
  }

  /** A block of a chunk is the content of its slot. */
  lemma {:induction false} ChunkBlocks(d: LazyDisk, i: nat, m: nat)
    requires d.Valid() && i < |d.writeChunks| && m <= WRITE_CHUNK_BLOCKS && i * WRITE_CHUNK_BLOCKS + m <= |d.slots|
    ensures Blocks(d.writeChunks[i][..m * BLOCK_SIZE]) == d.slots[i * WRITE_CHUNK_BLOCKS..i * WRITE_CHUNK_BLOCKS + m]
  {
    var part := d.writeChunks[i][..m * BLOCK_SIZE];
    forall k | 0 <= k < m
      ensures Blocks(part)[k] == d.slots[i * WRITE_CHUNK_BLOCKS + k]
    {
      assert d.Stored(i * WRITE_CHUNK_BLOCKS + k);
    }
  }

  /** Block numbers in slot order and the data of the slots are a snapshot of what is written. */
  lemma {:induction false} OrderDescribes(written: map<nat, nat>, order: seq<nat>, slots: seq<seq<byte>>)
    requires Bijective(written, order) && |slots| == |order|
    ensures Distinct(order, |order|)
    ensures Restored(order, slots, |order|) == Overlay(written, slots)
  {
    var r := Restored(order, slots, |order|);
    DistinctMeaning(order, |order|);
    RestoredKeys(order, slots, |order|);
    forall b
      ensures b in r <==> b in written
      ensures b in written ==> r[b] == slots[written[b]]
    {
      MemberIndex(order, |order|, b);
      if b in written {
        RestoredLast(order, slots, |order|, written[b]);
      }
    }
  }

  /** get_state: the block number of every slot, and the chunks cut to the slots in use. */
  method GetState(d: LazyDisk) returns (indices: seq<nat>, chunks: seq<seq<byte>>)
    requires d.Valid()
    ensures indices == d.order && AllBlocks(chunks, |chunks|) == d.slots
    ensures Distinct(indices, |indices|) && Restored(indices, AllBlocks(chunks, |chunks|), |indices|) == d.State().written
    ensures forall k :: 0 <= k < |chunks| ==> |chunks[k]| % BLOCK_SIZE == 0
  {
    indices := SlotOrder(d.writtenBlocks, d.order);
    chunks := UsedParts(d);
    OrderDescribes(d.writtenBlocks, d.order, d.slots);
  }

  /** The used parts of all chunks. */
  method UsedParts(d: LazyDisk) returns (chunks: seq<seq<byte>>)
    requires d.Valid()
    ensures AllBlocks(chunks, |chunks|) == d.slots && forall k :: 0 <= k < |chunks| ==> |chunks[k]| % BLOCK_SIZE == 0
  {
    var count := |d.writtenBlocks|;
    chunks := [];
    var i := 0;
    while i < |d.writeChunks|
      invariant 0 <= i == |chunks| <= |d.writeChunks|
      invariant AllBlocks(chunks, i) == d.slots[..Filled(i, count)]
      invariant forall k :: 0 <= k < |chunks| ==> |chunks[k]| % BLOCK_SIZE == 0
    {
      var part := UsedPart(d, i, count);
      ChunkAdded(chunks, part);
      chunks := chunks + [part];
      i := i + 1;
    }
  }

  /** How many slots the first i chunks have in use. */
  function Filled(i: nat, count: nat): nat {
    if i * WRITE_CHUNK_BLOCKS <= count then i * WRITE_CHUNK_BLOCKS else count
  }

  /** The used part of a chunk. */
  method UsedPart(d: LazyDisk, i: nat, count: nat) returns (part: seq<byte>)
    requires d.Valid() && i < |d.writeChunks| && count == |d.slots|
    ensures |part| % BLOCK_SIZE == 0
    ensures Filled(i, count) <= Filled(i + 1, count) <= |d.slots| && Blocks(part) == d.slots[Filled(i, count)..Filled(i + 1, count)]
  {
    var left := count - i * WRITE_CHUNK_BLOCKS;
    var used := if left < WRITE_CHUNK_BLOCKS then left else WRITE_CHUNK_BLOCKS;
    ChunkBlocks(d, i, used);
    part := d.writeChunks[i][..used * BLOCK_SIZE];
  }

  lemma {:induction false} ChunkAdded(chunks: seq<seq<byte>>, part: seq<byte>)
    ensures AllBlocks(chunks + [part], |chunks| + 1) == AllBlocks(chunks, |chunks|) + Blocks(part)
  {
    SamePrefixBlocks(chunks + [part], |chunks|, |chunks|);
    assert (chunks + [part])[..|chunks|] == chunks;
  }

  /** An array of the block numbers by slot, filled from the map in any order. */
  method SlotOrder(written: map<nat, nat>, ghost order: seq<nat>) returns (indices: seq<nat>)
    requires Bijective(written, order)
    ensures indices == order
  {
    indices := seq(|written|, _ => 0);
    var todo := written.Keys;
    while todo != {}
      invariant |indices| == |order| && todo <= written.Keys
      invariant forall b :: b in written && b !in todo ==> indices[written[b]] == b
      decreases todo
    {
      var b :| b in todo;
      indices := indices[written[b] := b];
      todo := todo - {b};
    }
    forall s | 0 <= s < |order|
      ensures indices[s] == order[s]
    {
      assert order[s] in written;
    }
  }

  // ---------------------------------------------------------------------------
  // Restoring

  /** Chunk k is taken over as it is. */
  predicate Adopted(chunks: seq<seq<byte>>, k: nat)
    requires k < |chunks|
  {
    |chunks[k]| == WRITE_CHUNK_BLOCKS * BLOCK_SIZE && Count(chunks, k) % WRITE_CHUNK_BLOCKS == 0
  }

  predicate WellShaped(byteLength: nat, indices: seq<int>, chunks: seq<seq<byte>>) {
    && (forall k :: 0 <= k < |chunks| ==> |chunks[k]| % BLOCK_SIZE == 0)
    && |indices| == Count(chunks, |chunks|)
    && (forall i :: 0 <= i < |indices| ==> 0 <= indices[i] && indices[i] * BLOCK_SIZE < byteLength)
  }

  /** No block number is repeated up to the end of chunk k, if it is taken over. */
  predicate Harmless(indices: seq<nat>, chunks: seq<seq<byte>>, k: nat)
    requires k < |chunks| && Count(chunks, |chunks|) == |indices|
  {
    CountGrows(chunks, k + 1, |chunks|);
    Adopted(chunks, k) ==> Distinct(indices, Count(chunks, k + 1))
  }

  /** The chunks from k on cause no error. */
  predicate NoRepeats(indices: seq<nat>, chunks: seq<seq<byte>>, k: nat)
    requires k <= |chunks| && Count(chunks, |chunks|) == |indices|
    decreases |chunks| - k
  {
    k == |chunks| || (Harmless(indices, chunks, k) && NoRepeats(indices, chunks, k + 1))
  }

  lemma {:induction false} CountGrows(chunks: seq<seq<byte>>, k: nat, n: nat)
    requires k <= n <= |chunks|
    ensures Count(chunks, k) <= Count(chunks, n)
  {
    if k < n {
      CountGrows(chunks, k, n - 1);
    }
  }

  lemma {:induction false} RestoredPrefix(indices: seq<nat>, data: seq<seq<byte>>, n: nat, k: nat)
    requires k <= n <= |indices| && n <= |data|
    ensures Restored(indices[..n], data[..n], k) == Restored(indices, data, k)
  {
    if k > 0 {
      RestoredPrefix(indices, data, n, k - 1);
    }
  }

  /** The keys are the first i numbers. */
  ghost predicate SameKeys(written: map<nat, nat>, indices: seq<nat>, i: nat)
    requires i <= |indices|
  {
    && |written| <= i && (|written| == i <==> Distinct(indices, i))
    && forall b :: b in written <==> b in Members(indices, i)
  }

  /** The keys are the first i numbers, and if these are different, each has its position as slot. */
  ghost predicate Numbered(written: map<nat, nat>, indices: seq<nat>, i: nat)
    requires i <= |indices|
  {
    && SameKeys(written, indices, i)
    && (Distinct(indices, i) ==> forall s :: 0 <= s < i ==> indices[s] in written && written[indices[s]] == s)
  }

  lemma {:induction false} KeysStep(written: map<nat, nat>, next: map<nat, nat>, indices: seq<nat>, j: nat, v: nat)
    requires j < |indices| && SameKeys(written, indices, j)
    requires next == written[indices[j] := v] || (indices[j] in written && next == written)
    ensures SameKeys(next, indices, j + 1)
  {
    assert |next| == |written| + if indices[j] in written then 0 else 1;
  }

  lemma {:induction false} NumberStep(written: map<nat, nat>, indices: seq<nat>, j: nat)
    requires j < |indices| && Numbered(written, indices, j)
    ensures Numbered(written[indices[j] := j], indices, j + 1)
  {
    KeysStep(written, written[indices[j] := j], indices, j, j);
  }

  /** The disk is the first i blocks of a snapshot restored. */
  ghost predicate Restoring(d: LazyDisk, indices: seq<nat>, data: seq<seq<byte>>, i: nat)
    reads d, d.writeChunks
  {
    && i <= |indices| == |data| && d.Valid() && SameKeys(d.writtenBlocks, indices, i)
    && d.State() == Disk(map[], Restored(indices, data, i))
    && (Distinct(indices, i) ==> d.order == indices[..i] && d.slots == data[..i])
  }

  lemma {:induction false} RestoringNumbered(d: LazyDisk, indices: seq<nat>, data: seq<seq<byte>>, i: nat)
    requires Restoring(d, indices, data, i)
    ensures Numbered(d.writtenBlocks, indices, i)
  {
    if Distinct(indices, i) {
      forall s | 0 <= s < i
        ensures indices[s] in d.writtenBlocks && d.writtenBlocks[indices[s]] == s
      {
        assert d.order[s] == indices[s];
      }
    }
  }

  lemma {:induction false} WriteRestored(indices: seq<nat>, data: seq<seq<byte>>, i: nat)
    requires i < |indices| && i < |data|
    ensures WriteBlock(Disk(map[], Restored(indices, data, i)), indices[i], data[i]) == Disk(map[], Restored(indices, data, i + 1))
    ensures indices[..i + 1] == indices[..i] + [indices[i]] && data[..i + 1] == data[..i] + [data[i]]
  {
    var none: map<nat, seq<byte>> := map[];
    assert none - {indices[i]} == none;
  }

  /** Write the next block of a snapshot. */
  method RestoreBlock(d: LazyDisk, indices: seq<nat>, ghost data: seq<seq<byte>>, i: nat, block: seq<byte>)
    requires Restoring(d, indices, data, i) && i < |indices| && data[i] == block && |block| == BLOCK_SIZE
    modifies d`blockCache, d`writtenBlocks, d`writeChunks, d`order, d`slots, d.writeChunks
    ensures Restoring(d, indices, data, i + 1) && d.Grown(old(d.writeChunks))
  {
    WriteRestored(indices, data, i);
    d.PutBlock(indices[i], block);
    KeysStep(old(d.writtenBlocks), d.writtenBlocks, indices, i, |old(d.order)|);
  }

  lemma {:induction false} NextOf(data: seq<seq<byte>>, i: nat, bytes: seq<byte>, n: nat, count: nat)
    requires n < count == |bytes| / BLOCK_SIZE && i + count <= |data| && data[i..i + count] == Blocks(bytes)
    ensures (n + 1) * BLOCK_SIZE <= |bytes| && data[i + n] == bytes[n * BLOCK_SIZE..(n + 1) * BLOCK_SIZE]
  {
    assert data[i..i + count][n] == data[i + n];
  }

  /** Block n of a chunk that is not taken over. */
  method RestoreOne(d: LazyDisk, indices: seq<nat>, ghost data: seq<seq<byte>>, i: nat, bytes: seq<byte>, n: nat, count: nat)
    requires n < count == |bytes| / BLOCK_SIZE && i + count <= |indices| && Restoring(d, indices, data, i + n)
    requires data[i..i + count] == Blocks(bytes)
    modifies d`blockCache, d`writtenBlocks, d`writeChunks, d`order, d`slots, d.writeChunks
    ensures Restoring(d, indices, data, i + n + 1) && d.Grown(old(d.writeChunks))
  {
    NextOf(data, i, bytes, n, count);
    RestoreBlock(d, indices, data, i + n, bytes[n * BLOCK_SIZE..(n + 1) * BLOCK_SIZE]);
  }

  /** All its blocks. */
  method RestoreBlocks(d: LazyDisk, indices: seq<nat>, ghost data: seq<seq<byte>>, i: nat, bytes: seq<byte>, count: nat)
    requires count == |bytes| / BLOCK_SIZE && i + count <= |indices| && Restoring(d, indices, data, i)
    requires data[i..i + count] == Blocks(bytes)
    modifies d`blockCache, d`writtenBlocks, d`writeChunks, d`order, d`slots, d.writeChunks
    ensures Restoring(d, indices, data, i + count) && d.Grown(old(d.writeChunks))
  {
    for n := 0 to count
      invariant Restoring(d, indices, data, i + n) && d.Grown(old(d.writeChunks))
    {
      RestoreOne(d, indices, data, i, bytes, n, count);
    }
  }

  method RestoreChunk(d: LazyDisk, indices: seq<nat>, ghost data: seq<seq<byte>>, i: nat, chunk: array<byte>)
    requires Restoring(d, indices, data, i) && chunk !in d.writeChunks
    requires chunk.Length % BLOCK_SIZE == 0 && i + chunk.Length / BLOCK_SIZE <= |indices|
    requires data[i..i + chunk.Length / BLOCK_SIZE] == Blocks(chunk[..])
    modifies d`blockCache, d`writtenBlocks, d`writeChunks, d`order, d`slots, d.writeChunks
    ensures Restoring(d, indices, data, i + chunk.Length / BLOCK_SIZE) && d.Grown(old(d.writeChunks))
  {
    RestoreBlocks(d, indices, data, i, chunk[..], chunk.Length / BLOCK_SIZE);
  }

  /** Give the block numbers from i up to end their positions as slots. */
  method NumberSlots(before: map<nat, nat>, indices: seq<nat>, i: nat, end: nat) returns (written: map<nat, nat>)
    requires i <= end <= |indices| && Numbered(before, indices, i)
    ensures Numbered(written, indices, end)
  {
    written := before;
    for j := i to end
      invariant Numbered(written, indices, j)
    {
      written := NumberNext(written, indices, j);
    }
  }

  method NumberNext(written: map<nat, nat>, indices: seq<nat>, j: nat) returns (next: map<nat, nat>)
    requires j < |indices| && Numbered(written, indices, j)
    ensures Numbered(next, indices, j + 1)
  {
    NumberStep(written, indices, j);
    next := written[indices[j] := j];
  }

  lemma {:induction false} WholeChunks(n: nat, i: nat)
    requires i <= n * WRITE_CHUNK_BLOCKS < i + WRITE_CHUNK_BLOCKS && i % WRITE_CHUNK_BLOCKS == 0
    ensures i == n * WRITE_CHUNK_BLOCKS
  {
  }

  lemma {:induction false} ReadyToAdopt(d: LazyDisk, indices: seq<nat>, data: seq<seq<byte>>, i: nat, chunk: array<byte>)
    requires Restoring(d, indices, data, i) && i % WRITE_CHUNK_BLOCKS == 0 && i + WRITE_CHUNK_BLOCKS <= |indices|
    requires chunk.Length == WRITE_CHUNK_BLOCKS * BLOCK_SIZE && data[i..i + WRITE_CHUNK_BLOCKS] == Blocks(chunk[..])
    requires Distinct(indices, i + WRITE_CHUNK_BLOCKS)
    ensures i == |d.writeChunks| * WRITE_CHUNK_BLOCKS
    ensures forall s :: 0 <= s < i + WRITE_CHUNK_BLOCKS ==> HoldsAt(d.writeChunks + [chunk], s, data[s])
  {
    PrefixDistinct(indices, i, i + WRITE_CHUNK_BLOCKS);
    WholeChunks(|d.writeChunks|, i);
    forall s | 0 <= s < i
      ensures HoldsAt(d.writeChunks, s, data[s])
    {
      assert d.Stored(s);
    }
    AdoptedStored(d.writeChunks, data, i, chunk);
  }

  /** Take over a full chunk as it is; false: a block number is repeated. */
  method AdoptChunk(d: LazyDisk, indices: seq<nat>, ghost data: seq<seq<byte>>, i: nat, chunk: array<byte>) returns (ok: bool)
    requires Restoring(d, indices, data, i) && chunk !in d.writeChunks
    requires chunk.Length == WRITE_CHUNK_BLOCKS * BLOCK_SIZE && i % WRITE_CHUNK_BLOCKS == 0 && i + WRITE_CHUNK_BLOCKS <= |indices|
    requires data[i..i + WRITE_CHUNK_BLOCKS] == Blocks(chunk[..])
    modifies d`blockCache, d`writtenBlocks, d`writeChunks, d`order, d`slots
    ensures ok <==> Distinct(indices, i + WRITE_CHUNK_BLOCKS)
    ensures ok ==> Restoring(d, indices, data, i + WRITE_CHUNK_BLOCKS) && d.writeChunks == old(d.writeChunks) + [chunk]
  {
    var end := i + WRITE_CHUNK_BLOCKS;
    RestoringNumbered(d, indices, data, i);
    var written := NumberSlots(d.writtenBlocks, indices, i, end);
    ok := |written| == end;
    if ok {
      TakeOver(d, indices, data, i, chunk, written);
    } else {
      // the restore stops with an error and leaves the disk unusable
      d.writeChunks, d.writtenBlocks := d.writeChunks + [chunk], written;
    }
  }

  method TakeOver(
    d: LazyDisk, ghost indices: seq<nat>, ghost data: seq<seq<byte>>, ghost i: nat, chunk: array<byte>, written: map<nat, nat>)
    requires Restoring(d, indices, data, i) && chunk !in d.writeChunks
    requires chunk.Length == WRITE_CHUNK_BLOCKS * BLOCK_SIZE && i % WRITE_CHUNK_BLOCKS == 0 && i + WRITE_CHUNK_BLOCKS <= |indices|
    requires data[i..i + WRITE_CHUNK_BLOCKS] == Blocks(chunk[..])
    requires Distinct(indices, i + WRITE_CHUNK_BLOCKS) && Numbered(written, indices, i + WRITE_CHUNK_BLOCKS)
    modifies d`blockCache, d`writtenBlocks, d`writeChunks, d`order, d`slots
    ensures Restoring(d, indices, data, i + WRITE_CHUNK_BLOCKS) && d.writeChunks == old(d.writeChunks) + [chunk]
  {
    ghost var end := i + WRITE_CHUNK_BLOCKS;
    ReadyToAdopt(d, indices, data, i, chunk);
    AdoptedBijective(written, indices, end);
    OrderDescribes(written, indices[..end], data[..end]);
    RestoredPrefix(indices, data, end, end);
    Install(d, chunk, written, indices[..end], data[..end]);
  }

  method Install(d: LazyDisk, chunk: array<byte>, written: map<nat, nat>, ghost order: seq<nat>, ghost slots: seq<seq<byte>>)
    requires d.Layout() && chunk !in d.writeChunks && chunk.Length == WRITE_CHUNK_BLOCKS * BLOCK_SIZE
    requires |slots| == |order| == (|d.writeChunks| + 1) * WRITE_CHUNK_BLOCKS && Bijective(written, order) && d.blockCache == map[]
    requires forall s :: 0 <= s < |slots| ==> HoldsAt(d.writeChunks + [chunk], s, slots[s])
    modifies d`blockCache, d`writtenBlocks, d`writeChunks, d`order, d`slots
    ensures d.Valid() && d.State() == Disk(map[], Overlay(written, slots))
    ensures d.order == order && d.slots == slots && d.writtenBlocks == written && d.writeChunks == old(d.writeChunks) + [chunk]
  {
    d.writeChunks, d.writtenBlocks := d.writeChunks + [chunk], written;
    d.order, d.slots := order, slots;
    assert forall s: nat :: s < |d.slots| ==> d.Stored(s);
  }

  /** The slots of a chunk taken over hold its blocks. */
  lemma {:induction false} AdoptedStored(chunks: seq<array<byte>>, data: seq<seq<byte>>, i: nat, chunk: array<byte>)
    requires chunk.Length == WRITE_CHUNK_BLOCKS * BLOCK_SIZE && i == |chunks| * WRITE_CHUNK_BLOCKS
    requires i + WRITE_CHUNK_BLOCKS <= |data| && data[i..i + WRITE_CHUNK_BLOCKS] == Blocks(chunk[..])
    requires forall s :: 0 <= s < i ==> HoldsAt(chunks, s, data[s])
    ensures forall s :: 0 <= s < i + WRITE_CHUNK_BLOCKS ==> HoldsAt(chunks + [chunk], s, data[s])
  {
    forall s | 0 <= s < i + WRITE_CHUNK_BLOCKS
      ensures HoldsAt(chunks + [chunk], s, data[s])
    {
      if i <= s {
        assert data[s] == data[i..i + WRITE_CHUNK_BLOCKS][s - i];
      } else {
        assert HoldsAt(chunks, s, data[s]);
      }
    }
  }

  lemma {:induction false} AdoptedBijective(written: map<nat, nat>, indices: seq<nat>, end: nat)
    requires end <= |indices| && Numbered(written, indices, end) && Distinct(indices, end)
    ensures Bijective(written, indices[..end])
  {
    var order := indices[..end];
    forall b | b in written
      ensures written[b] < end && order[written[b]] == b
    {
      MemberIndex(indices, end, b);
    }
  }

  lemma {:induction false} AllBlocksPrefix(chunks: seq<seq<byte>>, k: nat, n: nat)
    requires k <= n <= |chunks|
    ensures Count(chunks, k) <= Count(chunks, n) && AllBlocks(chunks, n)[..Count(chunks, k)] == AllBlocks(chunks, k)
    decreases n
  {
    if k < n {
      AllBlocksPrefix(chunks, k, n - 1);
    }
  }

  /** Chunk k's blocks are in their place among all blocks. */
  lemma {:induction false} ChunkPlace(chunks: seq<seq<byte>>, k: nat)
    requires k < |chunks|
    ensures var all := AllBlocks(chunks, |chunks|);
            && Count(chunks, k + 1) == Count(chunks, k) + |Blocks(chunks[k])| <= |all|
            && all[Count(chunks, k)..Count(chunks, k + 1)] == Blocks(chunks[k])
  {
    AllBlocksPrefix(chunks, k + 1, |chunks|);
    var all := AllBlocks(chunks, |chunks|);
    assert all[Count(chunks, k)..Count(chunks, k + 1)] == all[..Count(chunks, k + 1)][Count(chunks, k)..];
  }

  /** The sizes of the chunks and the block numbers are as a snapshot's. */
  method CheckShape(byteLength: nat, indices: seq<int>, chunks: seq<array<byte>>, ghost contents: seq<seq<byte>>) returns (ok: bool)
    requires |contents| == |chunks| && forall k :: 0 <= k < |chunks| ==> chunks[k][..] == contents[k]
    ensures ok <==> WellShaped(byteLength, indices, contents)
  {
    var total := 0;
    for k := 0 to |chunks|
      invariant total == Count(contents, k)
      invariant forall j :: 0 <= j < k ==> |contents[j]| % BLOCK_SIZE == 0
    {
      if chunks[k].Length % BLOCK_SIZE != 0 {
        return false;
      }
      total := total + chunks[k].Length / BLOCK_SIZE;
    }
    if |indices| != total {
      return false;
    }
    for i := 0 to |indices|
      invariant forall j :: 0 <= j < i ==> 0 <= indices[j] && indices[j] * BLOCK_SIZE < byteLength
    {
      if indices[i] < 0 || indices[i] * BLOCK_SIZE >= byteLength {
        return false;
      }
    }
    return true;
  }

  /** set_state accepts exactly these snapshots. */
  predicate Acceptable(byteLength: nat, indices: seq<int>, chunks: seq<seq<byte>>) {
    WellShaped(byteLength, indices, chunks) && NoRepeats(indices, chunks, 0)
  }

  /** Each chunk's blocks are in their place among all blocks. */
  ghost predicate InPlace(contents: seq<seq<byte>>, data: seq<seq<byte>>) {
    forall k :: 0 <= k < |contents| ==> PlacedAt(contents, data, k)
  }

  ghost predicate PlacedAt(contents: seq<seq<byte>>, data: seq<seq<byte>>, k: nat)
    requires k < |contents|
  {
    && Count(contents, k) + |contents[k]| / BLOCK_SIZE == Count(contents, k + 1) <= |data|
    && data[Count(contents, k)..Count(contents, k + 1)] == Blocks(contents[k])
  }

  lemma {:induction false} AllInPlace(contents: seq<seq<byte>>)
    ensures InPlace(contents, AllBlocks(contents, |contents|))
  {
    forall k | 0 <= k < |contents|
      ensures PlacedAt(contents, AllBlocks(contents, |contents|), k)
    {
      ChunkPlace(contents, k);
    }
  }

  /** Restore chunk k; false: a block number is repeated in a chunk taken over. */
  method RestoreNext(
    d: LazyDisk, indices: seq<nat>, chunks: seq<array<byte>>, ghost contents: seq<seq<byte>>, ghost data: seq<seq<byte>>, k: nat, i: nat) returns (ok: bool)
    requires |contents| == |chunks| && k < |chunks| && WellShaped(d.byteLength, indices, contents) && i == Count(contents, k)
    requires InPlace(contents, data)
    requires Restoring(d, indices, data, i)
    requires chunks[k] !in d.writeChunks && chunks[k][..] == contents[k]
    modifies d`blockCache, d`writtenBlocks, d`writeChunks, d`order, d`slots, d.writeChunks
    ensures ok <==> Harmless(indices, contents, k)
    ensures ok ==> Restoring(d, indices, data, Count(contents, k + 1))
    ensures ok ==> d.Grown(old(d.writeChunks)) || d.writeChunks == old(d.writeChunks) + [chunks[k]]
  {
    var chunk := chunks[k];
    assert PlacedAt(contents, data, k);
    if chunk.Length == WRITE_CHUNK_BLOCKS * BLOCK_SIZE && i % WRITE_CHUNK_BLOCKS == 0 {
      ok := AdoptChunk(d, indices, data, i, chunk);
    } else {
      RestoreChunk(d, indices, data, i, chunk);
      ok := true;
    }
  }

  /** The chunks from k on are as they were, and not the disk's. */
  ghost predicate Apart(d: LazyDisk, chunks: seq<array<byte>>, contents: seq<seq<byte>>, k: nat)
    requires |contents| == |chunks|
    reads d`writeChunks, chunks
  {
    forall j :: k <= j < |chunks| ==> chunks[j][..] == contents[j] && chunks[j] !in d.writeChunks
  }

  /** Restore chunk k, and leave those after it alone. */
  method RestoreStep(
    d: LazyDisk, indices: seq<nat>, chunks: seq<array<byte>>, ghost contents: seq<seq<byte>>, ghost data: seq<seq<byte>>, k: nat, i: nat) returns (ok: bool)
    requires |contents| == |chunks| && k < |chunks| && WellShaped(d.byteLength, indices, contents) && i == Count(contents, k)
    requires InPlace(contents, data)
    requires Restoring(d, indices, data, i) && Apart(d, chunks, contents, k)
    requires forall i, j :: 0 <= i < j < |chunks| ==> chunks[i] != chunks[j]
    modifies d`blockCache, d`writtenBlocks, d`writeChunks, d`order, d`slots, d.writeChunks
    ensures ok <==> Harmless(indices, contents, k)
    ensures ok ==> Restoring(d, indices, data, Count(contents, k + 1)) && Apart(d, chunks, contents, k + 1)
    ensures ok ==> forall j :: 0 <= j < |d.writeChunks| ==>
              d.writeChunks[j] in old(d.writeChunks) || d.writeChunks[j] == chunks[k] || fresh(d.writeChunks[j])
  {
    ok := RestoreNext(d, indices, chunks, contents, data, k, i);
    assert ok ==> forall j :: 0 <= j < |old(d.writeChunks)| ==> d.writeChunks[j] == old(d.writeChunks[j]);
  }

  /** Restore the chunks from k on. */
  method RestoreFrom(
    d: LazyDisk, indices: seq<nat>, chunks: seq<array<byte>>, ghost contents: seq<seq<byte>>, ghost data: seq<seq<byte>>, k: nat, i: nat) returns (ok: bool)
    requires |contents| == |chunks| && k <= |chunks| && WellShaped(d.byteLength, indices, contents) && i == Count(contents, k)
    requires InPlace(contents, data)
    requires Restoring(d, indices, data, i) && Apart(d, chunks, contents, k)
    requires forall i, j :: 0 <= i < j < |chunks| ==> chunks[i] != chunks[j]
    modifies d`blockCache, d`writtenBlocks, d`writeChunks, d`order, d`slots, d.writeChunks, chunks
    ensures ok <==> NoRepeats(indices, contents, k)
    ensures ok ==> Restoring(d, indices, data, |indices|)
    decreases |chunks| - k
  {
    if k == |chunks| {
      return true;
    }
    var count := chunks[k].Length / BLOCK_SIZE;
    assert PlacedAt(contents, data, k);
    ok := RestoreStep(d, indices, chunks, contents, data, k, i);
    if ok {
      ok := RestoreFrom(d, indices, chunks, contents, data, k + 1, i + count);
    }
  }

  /**
   set_state for a snapshot of block numbers and chunks: it accepts exactly the acceptable
   snapshots, and leaves the written blocks of the snapshot, the last of each number.
   */
  method SetState(d: LazyDisk, indices: seq<int>, chunks: seq<array<byte>>, ghost contents: seq<seq<byte>>) returns (ok: bool)
    requires |contents| == |chunks| && forall k :: 0 <= k < |chunks| ==> chunks[k][..] == contents[k]
    requires forall i, j :: 0 <= i < j < |chunks| ==> chunks[i] != chunks[j]
    modifies d`blockCache, d`writtenBlocks, d`writeChunks, d`order, d`slots, chunks
    ensures ok <==> Acceptable(d.byteLength, indices, contents)
    ensures ok ==> d.Valid() && d.State() == Disk(map[], Restored(indices, AllBlocks(contents, |contents|), |indices|))
  {
    d.blockCache, d.writtenBlocks, d.writeChunks := map[], map[], [];
    d.order, d.slots := [], [];
    ok := CheckShape(d.byteLength, indices, chunks, contents);
    if ok {
      AllInPlace(contents);
      ok := RestoreFrom(d, indices, chunks, contents, AllBlocks(contents, |contents|), 0, 0);
    }
  }

  lemma {:induction false} DistinctHasNoRepeats(indices: seq<nat>, chunks: seq<seq<byte>>, k: nat)
    requires Distinct(indices, |indices|) && Count(chunks, |chunks|) == |indices| && k <= |chunks|
    ensures NoRepeats(indices, chunks, k)
    decreases |chunks| - k
  {
    if k < |chunks| {
      CountGrows(chunks, k + 1, |chunks|);
      PrefixDistinct(indices, Count(chunks, k + 1), |indices|);
      DistinctHasNoRepeats(indices, chunks, k + 1);
    }
  }

  /** Saving a disk and restoring it onto any disk of the same size gives back the written blocks. */
  method SaveAndRestore(d: LazyDisk, target: LazyDisk)
    requires d.Valid() && target.byteLength == d.byteLength && forall b :: b in d.writtenBlocks ==> b * BLOCK_SIZE < d.byteLength
    requires target != d
    modifies target`blockCache, target`writtenBlocks, target`writeChunks, target`order, target`slots
    ensures target.Valid() && target.State() == Disk(map[], d.State().written)
  {
    var indices, chunks := GetState(d);
    var copies := Copies(chunks);
    forall i | 0 <= i < |indices|
      ensures indices[i] * BLOCK_SIZE < target.byteLength
    {
      assert indices[i] in d.writtenBlocks;
    }
    DistinctHasNoRepeats(indices, chunks, 0);
    var ok := SetState(target, indices, copies, chunks);
  }

  /** New buffers for the data of a snapshot. */
  method Copies(chunks: seq<seq<byte>>) returns (copies: seq<array<byte>>)
    ensures |copies| == |chunks| && forall k :: 0 <= k < |chunks| ==> fresh(copies[k]) && copies[k][..] == chunks[k]
    ensures forall i, j :: 0 <= i < j < |copies| ==> copies[i] != copies[j]
  {
    copies := [];
    for n := 0 to |chunks|
      invariant |copies| == n && forall k :: 0 <= k < n ==> fresh(copies[k]) && copies[k][..] == chunks[k]
      invariant forall i, j :: 0 <= i < j < n ==> copies[i] != copies[j]
    {
      var chunk := chunks[n];
      var copy := new byte[|chunk|](i requires 0 <= i < |chunk| => chunk[i]);
      assert copy[..] == chunk;
      copies := copies + [copy];
    }
  }

  // ---------------------------------------------------------------------------
  // Exporting

  /** The image of the disk as bytes: the written blocks over the file. */
  ghost predicate IsExport(d: Disk<seq<byte>>, file: seq<byte>, image: seq<byte>) {
    && |image| == |file|
    && Means(d, Blocks(file), Blocks(image))
    && forall p :: |file| / BLOCK_SIZE * BLOCK_SIZE <= p < |file| ==> image[p] == file[p]
  }

  function Joined(parts: seq<seq<byte>>): seq<byte> {
    if parts == [] then [] else Joined(parts[..|parts| - 1]) + parts[|parts| - 1]
  }

  lemma {:induction false} JoinedAppend(parts: seq<seq<byte>>, part: seq<byte>)
    ensures Joined(parts + [part]) == Joined(parts) + part
  {
    assert (parts + [part])[..|parts|] == parts;
  }

  predicate Increasing(s: seq<nat>) {
    forall i, j :: 0 <= i < j < |s| ==> s[i] < s[j]
  }

  /** The blocks from `from` up to `to` are not written. */
  predicate Untouched(d: Disk<seq<byte>>, from: nat, to: nat) {
    forall b: nat :: from <= b < to ==> b !in d.written
  }

  /** image is right up to block b. */
  ghost predicate ExportedTo(d: Disk<seq<byte>>, file: seq<byte>, image: seq<byte>, b: nat) {
    && |image| == b * BLOCK_SIZE <= |file|
    && forall k :: 0 <= k < b ==> Blocks(image)[k] == if k in d.written then d.written[k] else Blocks(file)[k]
  }

  lemma {:induction false} ExportCopy(d: Disk<seq<byte>>, file: seq<byte>, image: seq<byte>, b: nat, to: nat)
    requires ExportedTo(d, file, image, b) && b <= to && to * BLOCK_SIZE <= |file| && Untouched(d, b, to)
    ensures ExportedTo(d, file, image + file[b * BLOCK_SIZE..to * BLOCK_SIZE], to)
  {
    var part := file[b * BLOCK_SIZE..to * BLOCK_SIZE];
    BlocksConcat(image, part);
    BlocksSlice(file, b, to - b);
    forall k | b <= k < to
      ensures Blocks(image + part)[k] == Blocks(file)[k]
    {
      assert Blocks(part)[k - b] == Blocks(file)[b..to][k - b];
    }
  }

  /** These blocks are written from b on. */
  predicate WrittenAt(d: Disk<seq<byte>>, b: nat, blocks: seq<seq<byte>>) {
    forall k :: 0 <= k < |blocks| ==> b + k in d.written && d.written[b + k] == blocks[k]
  }

  lemma {:induction false} ExportRun(d: Disk<seq<byte>>, file: seq<byte>, image: seq<byte>, b: nat, part: seq<byte>)
    requires ExportedTo(d, file, image, b) && |part| % BLOCK_SIZE == 0 && b * BLOCK_SIZE + |part| <= |file|
    requires WrittenAt(d, b, Blocks(part))
    ensures ExportedTo(d, file, image + part, b + |part| / BLOCK_SIZE)
  {
    BlocksConcat(image, part);
  }

  lemma {:induction false} ConcatSlice(x: seq<byte>, y: seq<byte>, from: nat, to: nat)
    requires |x| <= from <= to <= |x| + |y|
    ensures (x + y)[from..to] == y[from - |x|..to - |x|]
  {
  }

  lemma {:induction false} BlocksConcat(x: seq<byte>, y: seq<byte>)
    requires |x| % BLOCK_SIZE == 0
    ensures Blocks(x + y) == Blocks(x) + Blocks(y)
  {
    var n := |x| / BLOCK_SIZE;
    forall k | 0 <= k < |x + y| / BLOCK_SIZE
      ensures Blocks(x + y)[k] == (Blocks(x) + Blocks(y))[k]
    {
      if n <= k {
        ConcatSlice(x, y, k * BLOCK_SIZE, (k + 1) * BLOCK_SIZE);
      }
    }
  }

  lemma {:induction false} ExportTail(d: Disk<seq<byte>>, file: seq<byte>, image: seq<byte>, b: nat)
    requires ExportedTo(d, file, image, b) && Untouched(d, b, |file| / BLOCK_SIZE)
    requires forall k :: k in d.written ==> k < |file| / BLOCK_SIZE
    ensures IsExport(d, file, image + file[b * BLOCK_SIZE..])
  {
    var part := file[b * BLOCK_SIZE..];
    BlocksConcat(image, part);
    forall k | b <= k < |file| / BLOCK_SIZE
      ensures Blocks(part)[k - b] == Blocks(file)[k]
    {
      TailBlock(file, b, k);
    }
  }

  lemma {:induction false} TailBlock(file: seq<byte>, b: nat, k: nat)
    requires b <= k < |file| / BLOCK_SIZE
    ensures k - b < |Blocks(file[b * BLOCK_SIZE..])| && Blocks(file[b * BLOCK_SIZE..])[k - b] == Blocks(file)[k]
  {
    SliceOfSlice(file, b * BLOCK_SIZE, |file|, (k - b) * BLOCK_SIZE, (k - b + 1) * BLOCK_SIZE);
    assert file[b * BLOCK_SIZE..|file|] == file[b * BLOCK_SIZE..];
  }

  /** A run of slots in one chunk holds the contents of these slots. */
  lemma {:induction false} RunBlocks(d: LazyDisk, slot: nat, count: nat)
    requires d.Valid() && slot + count <= |d.slots| && slot % WRITE_CHUNK_BLOCKS + count <= WRITE_CHUNK_BLOCKS && count > 0
    ensures var at := slot % WRITE_CHUNK_BLOCKS * BLOCK_SIZE;
            && slot / WRITE_CHUNK_BLOCKS < |d.writeChunks|
            && at + count * BLOCK_SIZE <= d.writeChunks[slot / WRITE_CHUNK_BLOCKS].Length
            && Blocks(d.writeChunks[slot / WRITE_CHUNK_BLOCKS][at..at + count * BLOCK_SIZE]) == d.slots[slot..slot + count]
  {
    var chunk, at := d.writeChunks[slot / WRITE_CHUNK_BLOCKS], slot % WRITE_CHUNK_BLOCKS * BLOCK_SIZE;
    var part := chunk[at..at + count * BLOCK_SIZE];
    forall k | 0 <= k < count
      ensures Blocks(part)[k] == d.slots[slot + k]
    {
      assert d.Stored(slot + k);
      SameChunk(slot, k);
      SliceOfSlice(chunk[..], at, at + count * BLOCK_SIZE, k * BLOCK_SIZE, (k + 1) * BLOCK_SIZE);
    }
  }

  lemma {:induction false} SameChunk(slot: nat, k: nat)
    requires slot % WRITE_CHUNK_BLOCKS + k < WRITE_CHUNK_BLOCKS
    ensures (slot + k) / WRITE_CHUNK_BLOCKS == slot / WRITE_CHUNK_BLOCKS
    ensures (slot + k) % WRITE_CHUNK_BLOCKS == slot % WRITE_CHUNK_BLOCKS + k
  {
  }

  function InsertSorted(s: seq<nat>, b: nat): (r: seq<nat>)
    requires Increasing(s) && b !in s
    ensures Increasing(r) && forall x :: x in r <==> x == b || x in s
  {
    if s == [] || b < s[0] then [b] + s
    else
      assert s == [s[0]] + s[1..] && forall x :: x in s[1..] ==> s[0] < x;
      var rest := InsertSorted(s[1..], b);
      assert forall j :: 0 <= j < |rest| ==> rest[j] in rest;
      [s[0]] + rest
  }

  method SortedKeys(keys: set<nat>) returns (sorted: seq<nat>)
    ensures Increasing(sorted) && forall b :: b in sorted <==> b in keys
  {
    sorted := [];
    var todo := keys;
    while todo != {}
      invariant todo <= keys && Increasing(sorted) && forall b :: b in sorted <==> b in keys && b !in todo
      decreases todo
    {
      var b :| b in todo;
      sorted := InsertSorted(sorted, b);
      todo := todo - {b};
    }
  }

  /** The written blocks in order, of which the first i are those before b. */
  ghost predicate Walked(d: LazyDisk, sorted: seq<nat>, i: nat, b: nat)
    reads d, d.writeChunks
  {
    && d.Valid() && i <= |sorted| && Increasing(sorted) && (forall k :: k in sorted <==> k in d.writtenBlocks)
    && (forall j :: 0 <= j < |sorted| ==> (j < i <==> sorted[j] < b))
  }

  /** Every written block is a whole block of the file. */
  predicate WholeBlocks(written: map<nat, nat>, size: nat) {
    forall k :: k in written ==> k < size / BLOCK_SIZE
  }

  /** The export is right up to block b, where the remaining written blocks sorted[i..] begin or after. */
  ghost predicate Exporting(d: LazyDisk, file: seq<byte>, sorted: seq<nat>, i: nat, image: seq<byte>, b: nat)
    reads d, d.writeChunks
  {
    Walked(d, sorted, i, b) && WholeBlocks(d.writtenBlocks, |file|) && ExportedTo(d.State(), file, image, b)
  }

  /** Up to block b no byte of the file is missing, and if b is past its end there are too many. */
  predicate LongTo(length: nat, b: nat, size: nat) {
    length >= Min(b * BLOCK_SIZE, size) && (b * BLOCK_SIZE > size ==> length > size)
  }

  /** file.slice: bounds past the end are cut. */
  function FileSlice(file: seq<byte>, lo: nat, hi: nat): (r: seq<byte>)
    requires lo <= hi
    ensures |r| == Min(hi, |file|) - Min(lo, |file|) && (hi <= |file| ==> r == file[lo..hi])
  {
    file[Min(lo, |file|)..Min(hi, |file|)]
  }

  lemma {:induction false} GapUntouched(d: LazyDisk, file: seq<byte>, sorted: seq<nat>, i: nat, image: seq<byte>, b: nat, to: nat)
    requires Exporting(d, file, sorted, i, image, b) && (i < |sorted| ==> to <= sorted[i])
    ensures Untouched(d.State(), b, to)
  {
    forall k: nat | b <= k < to
      ensures k !in d.State().written
    {
    }
  }

  lemma {:induction false} NextInRange(d: LazyDisk, file: seq<byte>, sorted: seq<nat>, i: nat, image: seq<byte>, b: nat)
    requires Exporting(d, file, sorted, i, image, b) && i < |sorted|
    ensures sorted[i] in d.writtenBlocks && b <= sorted[i] < |file| / BLOCK_SIZE
  {
    assert sorted[i] in sorted;
  }

  /** Append the part of the file before the next written block, if any. */
  lemma {:induction false} GapExported(d: LazyDisk, file: seq<byte>, sorted: seq<nat>, i: nat, image: seq<byte>, b: nat)
    requires Exporting(d, file, sorted, i, image, b) && i < |sorted| && b <= sorted[i] < |file| / BLOCK_SIZE
    ensures Exporting(d, file, sorted, i, image + file[b * BLOCK_SIZE..sorted[i] * BLOCK_SIZE], sorted[i])
  {
    var to := sorted[i];
    GapUntouched(d, file, sorted, i, image, b, to);
    ExportCopy(d.State(), file, image, b, to);
    forall j | 0 <= j < |sorted|
      ensures j < i <==> sorted[j] < to
    {
    }
  }

  /** From sorted[i] on, `count` blocks with consecutive numbers in consecutive slots. */
  ghost predicate IsRun(d: LazyDisk, sorted: seq<nat>, i: nat, count: nat)
    reads d, d.writeChunks
  {
    && d.Valid() && 0 < count && i + count <= |sorted| && sorted[i] in d.writtenBlocks
    && d.writtenBlocks[sorted[i]] + count <= |d.slots|
    && forall j :: i <= j < i + count ==>
         && sorted[j] in d.writtenBlocks && sorted[j] == sorted[i] + (j - i)
         && d.writtenBlocks[sorted[j]] == d.writtenBlocks[sorted[i]] + (j - i)
  }

  lemma {:induction false} RunData(d: LazyDisk, sorted: seq<nat>, i: nat, count: nat, part: seq<byte>)
    requires IsRun(d, sorted, i, count)
    requires var slot := d.writtenBlocks[sorted[i]]; Blocks(part) == d.slots[slot..slot + count]
    ensures WrittenAt(d.State(), sorted[i], Blocks(part))
  {
    var b, slot := sorted[i], d.writtenBlocks[sorted[i]];
    forall x | b <= x < b + count
      ensures x in d.writtenBlocks && d.writtenBlocks[x] == slot + (x - b)
    {
      var j := i + (x - b);
      assert sorted[j] == x && d.writtenBlocks[sorted[j]] == slot + (j - i);
    }
    SlotsWritten(d.State(), d.writtenBlocks, d.slots, b, slot, count, Blocks(part));
  }

  lemma {:induction false} SlotsWritten(s: Disk<seq<byte>>, written: map<nat, nat>, slots: seq<seq<byte>>, b: nat, slot: nat, count: nat, blocks: seq<seq<byte>>)
    requires slot + count <= |slots| && blocks == slots[slot..slot + count] && forall x :: x in written ==> written[x] < |slots|
    requires s.written == Overlay(written, slots)
    requires forall x :: b <= x < b + count ==> x in written && written[x] == slot + (x - b)
    ensures WrittenAt(s, b, blocks)
  {
    forall k | 0 <= k < |blocks|
      ensures b + k in s.written && s.written[b + k] == blocks[k]
    {
      var x := b + k;
      assert x in written && written[x] == slot + k;
    }
  }

  lemma {:induction false} RunSkips(d: LazyDisk, sorted: seq<nat>, i: nat, count: nat)
    requires IsRun(d, sorted, i, count) && Increasing(sorted)
    ensures forall j :: 0 <= j < |sorted| ==> (j < i + count <==> sorted[j] < sorted[i] + count)
  {
    assert sorted[i + count - 1] == sorted[i] + count - 1;
  }

  /** Append a run of written blocks. */
  lemma {:induction false} RunExported(d: LazyDisk, file: seq<byte>, sorted: seq<nat>, i: nat, image: seq<byte>, count: nat, part: seq<byte>)
    requires i < |sorted| && Exporting(d, file, sorted, i, image, sorted[i]) && IsRun(d, sorted, i, count)
    requires var slot := d.writtenBlocks[sorted[i]];
             |part| == count * BLOCK_SIZE && Blocks(part) == d.slots[slot..slot + count]
    ensures Exporting(d, file, sorted, i + count, image + part, sorted[i] + count)
  {
    RunData(d, sorted, i, count, part);
    RunSkips(d, sorted, i, count);
    assert sorted[i + count - 1] == sorted[i] + count - 1;
    ExportRun(d.State(), file, image, sorted[i], part);
  }

  /** How many blocks from sorted[i] on have consecutive numbers and slots, within one chunk. */
  method RunLength(d: LazyDisk, sorted: seq<nat>, i: nat) returns (count: nat)
    requires d.Valid() && i < |sorted| && forall j :: 0 <= j < |sorted| ==> sorted[j] in d.writtenBlocks
    ensures IsRun(d, sorted, i, count)
    ensures d.writtenBlocks[sorted[i]] % WRITE_CHUNK_BLOCKS + count <= WRITE_CHUNK_BLOCKS
  {
    var index: nat := sorted[i];
    var slot := d.writtenBlocks[index];
    count := 1;
    while i + count < |sorted| && sorted[i + count] == index + count &&
        d.writtenBlocks[index + count] == slot + count && (slot + count) % WRITE_CHUNK_BLOCKS != 0
      invariant IsRun(d, sorted, i, count)
      invariant slot % WRITE_CHUNK_BLOCKS + count <= WRITE_CHUNK_BLOCKS
    {
      count := count + 1;
    }
  }

  /** Append the part of the file before the next written block, if there is any; current is in blocks. */
  method ExportGap(d: LazyDisk, file: seq<byte>, sorted: seq<nat>, i: nat, current: nat, before: seq<seq<byte>>)
    returns (parts: seq<seq<byte>>)
    requires i < |sorted| && Walked(d, sorted, i, current) && LongTo(|Joined(before)|, current, |file|)
    requires WholeBlocks(d.writtenBlocks, |file|) ==> ExportedTo(d.State(), file, Joined(before), current)
    ensures Walked(d, sorted, i, sorted[i]) && |Joined(parts)| >= Min(sorted[i] * BLOCK_SIZE, |file|)
    ensures WholeBlocks(d.writtenBlocks, |file|) ==> ExportedTo(d.State(), file, Joined(parts), sorted[i])
  {
    ghost var image := Joined(before);
    if WholeBlocks(d.writtenBlocks, |file|) {
      NextInRange(d, file, sorted, i, image, current);
      GapExported(d, file, sorted, i, image, current);
    }
    var gap := FileSlice(file, current * BLOCK_SIZE, sorted[i] * BLOCK_SIZE);
    JoinedAppend(before, gap);
    if sorted[i] != current {
      parts := before + [gap];
    } else {
      parts := before;
      assert image + gap == image;
    }
  }

  /** The data of the run of written blocks from sorted[i] on. */
  method RunPart(d: LazyDisk, sorted: seq<nat>, i: nat) returns (part: seq<byte>, count: nat)
    requires d.Valid() && i < |sorted| && forall j :: 0 <= j < |sorted| ==> sorted[j] in d.writtenBlocks
    ensures IsRun(d, sorted, i, count) && |part| == count * BLOCK_SIZE
    ensures var slot := d.writtenBlocks[sorted[i]]; Blocks(part) == d.slots[slot..slot + count]
  {
    var slot := d.writtenBlocks[sorted[i]];
    count := RunLength(d, sorted, i);
    RunBlocks(d, slot, count);
    var at := slot % WRITE_CHUNK_BLOCKS * BLOCK_SIZE;
    part := d.writeChunks[slot / WRITE_CHUNK_BLOCKS][at..at + count * BLOCK_SIZE];
  }

  /** Append that run. */
  method ExportRunPart(d: LazyDisk, ghost file: seq<byte>, sorted: seq<nat>, i: nat, before: seq<seq<byte>>)
    returns (parts: seq<seq<byte>>, count: nat)
    requires i < |sorted| && Walked(d, sorted, i, sorted[i]) && |Joined(before)| >= Min(sorted[i] * BLOCK_SIZE, |file|)
    requires WholeBlocks(d.writtenBlocks, |file|) ==> ExportedTo(d.State(), file, Joined(before), sorted[i])
    ensures 0 < count && Walked(d, sorted, i + count, sorted[i] + count) && LongTo(|Joined(parts)|, sorted[i] + count, |file|)
    ensures WholeBlocks(d.writtenBlocks, |file|) ==> ExportedTo(d.State(), file, Joined(parts), sorted[i] + count)
  {
    assert forall j :: 0 <= j < |sorted| ==> sorted[j] in sorted;
    var part;
    part, count := RunPart(d, sorted, i);
    RunSkips(d, sorted, i, count);
    if WholeBlocks(d.writtenBlocks, |file|) {
      RunExported(d, file, sorted, i, Joined(before), count, part);
    }
    JoinedAppend(before, part);
    parts := before + [part];
  }

  /**
   get_as_file: the disk as a file, in parts of the original file and of the chunks. It is right if
   and only if every written block is a whole block of the file; else it is too long.
   */
  method GetAsFile(d: LazyDisk, file: seq<byte>) returns (parts: seq<seq<byte>>)
    requires d.Valid()
    ensures IsExport(d.State(), file, Joined(parts)) <==> WholeBlocks(d.writtenBlocks, |file|)
    ensures !WholeBlocks(d.writtenBlocks, |file|) ==> |Joined(parts)| > |file|
  {
    var sorted := SortedKeys(d.writtenBlocks.Keys);
    parts := [];
    var i, current: nat := 0, 0;
    while i < |sorted|
      invariant 0 <= i && Walked(d, sorted, i, current) && LongTo(|Joined(parts)|, current, |file|)
      invariant WholeBlocks(d.writtenBlocks, |file|) ==> ExportedTo(d.State(), file, Joined(parts), current)
    {
      parts := ExportGap(d, file, sorted, i, current, parts);
      var count;
      parts, count := ExportRunPart(d, file, sorted, i, parts);
      current := sorted[i] + count;
      i := i + count;
    }
    parts := ExportRest(d, file, sorted, current, parts);
  }

  /** What is left of the file after the last written block. */
  method ExportRest(d: LazyDisk, file: seq<byte>, ghost sorted: seq<nat>, current: nat, before: seq<seq<byte>>) returns (parts: seq<seq<byte>>)
    requires Walked(d, sorted, |sorted|, current) && LongTo(|Joined(before)|, current, |file|)
    requires WholeBlocks(d.writtenBlocks, |file|) ==> ExportedTo(d.State(), file, Joined(before), current)
    ensures IsExport(d.State(), file, Joined(parts)) <==> WholeBlocks(d.writtenBlocks, |file|)
    ensures !WholeBlocks(d.writtenBlocks, |file|) ==> |Joined(parts)| > |file|
  {
    var at := current * BLOCK_SIZE;
    var rest := if at <= |file| then file[at..] else [];
    ghost var image := Joined(before);
    JoinedAppend(before, rest);
    if WholeBlocks(d.writtenBlocks, |file|) {
      GapUntouched(d, file, sorted, |sorted|, image, current, |file| / BLOCK_SIZE);
      ExportTail(d.State(), file, image, current);
    } else {
      assert at > |file| by {
        var k :| k in d.writtenBlocks && k >= |file| / BLOCK_SIZE;
        assert k in sorted;
        assert k < current;
      }
    }
    if at != |file| {
      parts := before + [rest];
    } else {
      parts := before;
      assert image + rest == image;
    }
  }

  /** A disk whose last block is cut short: its snapshot may name that block, and the export is then too long. */
  method ExportOfCutBlock(file: seq<byte>, chunk: array<byte>) returns (ok: bool, parts: seq<seq<byte>>)
    requires |file| % BLOCK_SIZE != 0 && chunk.Length == BLOCK_SIZE
    modifies chunk
    ensures ok && |Joined(parts)| > |file|
  {
    var d := new LazyDisk(|file|, 0);
    var last := |file| / BLOCK_SIZE;
    ghost var contents := [chunk[..]];
    OneBlock(|file|, last, chunk[..]);
    ok := SetState(d, [last], [chunk], contents);
    assert last in d.State().written;
    parts := GetAsFile(d, file);
  }

  lemma {:induction false} OneBlock(size: nat, last: nat, block: seq<byte>)
    requires |block| == BLOCK_SIZE && last == size / BLOCK_SIZE && size % BLOCK_SIZE != 0
    ensures Acceptable(size, [last], [block]) && last in Restored([last], AllBlocks([block], 1), 1)
  {
  }
}
