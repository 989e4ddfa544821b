/**
 The lazily loaded disk of src/buffer.js as it is stored: blocks of 256 bytes kept from reads, and
 the blocks written in slots of large byte arrays, updated in place.  It refines module DiskImage.
 */
module DiskBuffer {
  import opened Sequences
  import opened Options
  import opened Bytes
  import opened DiskImage

  /** Bytes in a block: reads and writes are of whole blocks. */
  const BLOCK_SIZE := 256
  /** The blocks of a chunk. */
  const WRITE_CHUNK_BLOCKS := 0x10000

  /** The whole blocks of a byte sequence. */
  function Blocks(bytes: seq<byte>): (r: seq<seq<byte>>)
    ensures |r| == |bytes| / BLOCK_SIZE
    ensures forall i :: 0 <= i < |r| ==> r[i] == bytes[i * BLOCK_SIZE..(i + 1) * BLOCK_SIZE]
  {
    seq(|bytes| / BLOCK_SIZE, i requires 0 <= i < |bytes| / BLOCK_SIZE => bytes[i * BLOCK_SIZE..(i + 1) * BLOCK_SIZE])
  }

  lemma {:induction false} BlocksSpliced(bytes: seq<byte>, i: nat, data: seq<byte>)
    requires |data| == BLOCK_SIZE && (i + 1) * BLOCK_SIZE <= |bytes|
    ensures Blocks(Splice(bytes, i * BLOCK_SIZE, data)) == Blocks(bytes)[i := data]
  {
    var r := Splice(bytes, i * BLOCK_SIZE, data);
    forall k | 0 <= k < |bytes| / BLOCK_SIZE
      ensures Blocks(r)[k] == Blocks(bytes)[i := data][k]
    {
      if k == i {
        assert r[i * BLOCK_SIZE..(i + 1) * BLOCK_SIZE] == data;
      } else {
        assert k < i ==> (k + 1) * BLOCK_SIZE <= i * BLOCK_SIZE;
        assert k > i ==> (i + 1) * BLOCK_SIZE <= k * BLOCK_SIZE;
        OutsideSplice(bytes, i * BLOCK_SIZE, data, k * BLOCK_SIZE, (k + 1) * BLOCK_SIZE);
      }
    }
  }

  lemma {:induction false} OutsideSplice(bytes: seq<byte>, at: nat, part: seq<byte>, lo: nat, hi: nat)
    requires at + |part| <= |bytes| && lo <= hi <= |bytes| && (hi <= at || at + |part| <= lo)
    ensures Splice(bytes, at, part)[lo..hi] == bytes[lo..hi]
  {
    var r := Splice(bytes, at, part);
    assert forall k :: lo <= k < hi ==> r[k] == bytes[k];
  }

  /** Whole blocks determine the bytes. */
  lemma {:induction false} BlocksInjective(x: seq<byte>, y: seq<byte>)
    requires |x| == |y| && |x| % BLOCK_SIZE == 0 && Blocks(x) == Blocks(y)
    ensures x == y
  {
    forall p | 0 <= p < |x|
      ensures x[p] == y[p]
    {
      var i := p / BLOCK_SIZE;
      assert x[p] == Blocks(x)[i][p % BLOCK_SIZE] && y[p] == Blocks(y)[i][p % BLOCK_SIZE];
    }
  }

  lemma {:induction false} BlocksSlice(bytes: seq<byte>, b: nat, n: nat)
    requires (b + n) * BLOCK_SIZE <= |bytes|
    ensures Blocks(bytes[b * BLOCK_SIZE..(b + n) * BLOCK_SIZE]) == Blocks(bytes)[b..b + n]
  {
    var part := bytes[b * BLOCK_SIZE..(b + n) * BLOCK_SIZE];
    forall i | 0 <= i < n
      ensures Blocks(part)[i] == Blocks(bytes)[b + i]
    {
      SliceOfSlice(bytes, b * BLOCK_SIZE, (b + n) * BLOCK_SIZE, i * BLOCK_SIZE, (i + 1) * BLOCK_SIZE);
    }
  }

  /** A callback that is faithful block by block delivers the bytes of the image. */
  lemma {:induction false} CallbackBytes(image: seq<byte>, offset: nat, len: nat, data: seq<byte>)
    requires |data| == len * BLOCK_SIZE && (offset + len) * BLOCK_SIZE <= |image|
    requires Faithful(Blocks(image), Some(Reply(offset, len, Blocks(data))))
    ensures data == image[offset * BLOCK_SIZE..(offset + len) * BLOCK_SIZE]
  {
    BlocksSlice(image, offset, len);
    BlocksInjective(data, image[offset * BLOCK_SIZE..(offset + len) * BLOCK_SIZE]);
  }

  /** The written blocks, from their slots. */
  function Overlay(written: map<nat, nat>, slots: seq<seq<byte>>): map<nat, seq<byte>>
    requires forall b :: b in written ==> written[b] < |slots|
  {
    map b | b in written :: slots[written[b]]
  }

  /** written_blocks is a bijection from the block numbers in order onto the slots 0..n-1. */
  ghost predicate Bijective(written: map<nat, nat>, order: seq<nat>) {
    && |written| == |order|
    && (forall s :: 0 <= s < |order| ==> order[s] in written && written[order[s]] == s)
    && (forall b :: b in written ==> written[b] < |order| && order[written[b]] == b)
  }

  lemma {:induction false} OverlayStore(written: map<nat, nat>, order: seq<nat>, slots: seq<seq<byte>>, b: nat, data: seq<byte>)
    requires Bijective(written, order) && |slots| == |order| && b in written
    ensures Overlay(written, slots[written[b] := data]) == Overlay(written, slots)[b := data]
  {
  }

  lemma {:induction false} OverlayAppend(written: map<nat, nat>, order: seq<nat>, slots: seq<seq<byte>>, b: nat, data: seq<byte>)
    requires Bijective(written, order) && |slots| == |order| && b !in written
    ensures Bijective(written[b := |order|], order + [b])
    ensures Overlay(written[b := |order|], slots + [data]) == Overlay(written, slots)[b := data]
  {
  }

  /** The chunks hold a block in the place of a slot. */
  ghost predicate HoldsAt(chunks: seq<array<byte>>, s: nat, block: seq<byte>)
    reads chunks
  {
    && s / WRITE_CHUNK_BLOCKS < |chunks|
    && chunks[s / WRITE_CHUNK_BLOCKS].Length == WRITE_CHUNK_BLOCKS * BLOCK_SIZE
    && var at := s % WRITE_CHUNK_BLOCKS * BLOCK_SIZE;
       chunks[s / WRITE_CHUNK_BLOCKS][at..at + BLOCK_SIZE] == block
  }

  class LazyDisk {
    /** Size of the image in bytes. */
    const byteLength: nat
    /** Blocks loaded at a time, or 0. */
    const fixedChunkBlocks: nat
    var blockCache: map<nat, seq<byte>>
    var writtenBlocks: map<nat, nat>
    var writeChunks: seq<array<byte>>
    /** Reads that wait for data, in units of blocks. */
    var pending: seq<Request>
    /** The block number of each slot, and the content of each slot. */
    ghost var order: seq<nat>
    ghost var slots: seq<seq<byte>>

    ghost predicate Layout()
      reads this`writeChunks, this`slots
    {
      && |slots| <= |writeChunks| * WRITE_CHUNK_BLOCKS < |slots| + WRITE_CHUNK_BLOCKS
      && (forall i :: 0 <= i < |writeChunks| ==> writeChunks[i].Length == WRITE_CHUNK_BLOCKS * BLOCK_SIZE)
      && (forall i, j :: 0 <= i < j < |writeChunks| ==> writeChunks[i] != writeChunks[j])
    }

    ghost predicate Stored(s: nat)
      requires s < |slots|
      reads this`writeChunks, this`slots, writeChunks
    {
      HoldsAt(writeChunks, s, slots[s])
    }

    ghost predicate Valid()
      reads this, writeChunks
    {
      && Layout()
      && Bijective(writtenBlocks, order) && |slots| == |order|
      && (forall b :: b in blockCache ==> |blockCache[b]| == BLOCK_SIZE)
      && (forall s: nat :: s < |slots| ==> Stored(s))
    }

    ghost function State(): Disk<seq<byte>>
      requires Bijective(writtenBlocks, order) && |slots| == |order|
      reads this`blockCache, this`writtenBlocks, this`order, this`slots
    {
      Disk(blockCache, Overlay(writtenBlocks, slots))
    }

    ghost function Whole(): System<seq<byte>>
      requires Bijective(writtenBlocks, order) && |slots| == |order|
      reads this`blockCache, this`writtenBlocks, this`order, this`slots, this`pending
    {
      System(State(), pending)
    }

    /** The chunks are those of before, and possibly one new one. */
    twostate predicate Grown(chunks: seq<array<byte>>)
      reads this
    {
      chunks <= writeChunks && forall i :: |chunks| <= i < |writeChunks| ==> fresh(writeChunks[i])
    }

    constructor (byteLength: nat, fixedChunkBlocks: nat)
      ensures Valid() && State() == Disk(map[], map[])
      ensures this.byteLength == byteLength && this.fixedChunkBlocks == fixedChunkBlocks && writeChunks == [] && pending == []
    {
      this.byteLength := byteLength;
      this.fixedChunkBlocks := fixedChunkBlocks;
      blockCache, writtenBlocks, writeChunks, pending, order, slots := map[], map[], [], [], [], [];
    }

    /** cached_block: a slice of the slot of a written block, else the kept one. */
    method GetCachedBlock(index: nat) returns (r: Option<seq<byte>>)
      requires Valid()
      ensures r == CachedBlock(State(), index)
      ensures r.Some? ==> |r.value| == BLOCK_SIZE
    {
      if index !in writtenBlocks {
        return if index in blockCache then Some(blockCache[index]) else None;
      }
      var slot := writtenBlocks[index];
      assert Stored(slot);
      var offset := slot % WRITE_CHUNK_BLOCKS * BLOCK_SIZE;
      return Some(writeChunks[slot / WRITE_CHUNK_BLOCKS][offset..offset + BLOCK_SIZE]);
    }

    /** Copy data into a slot of the chunks. */
    method StoreSlot(slot: nat, data: seq<byte>)
      requires Layout() && slot < |slots| && |data| == BLOCK_SIZE
      requires forall s: nat :: s < |slots| && s != slot ==> Stored(s)
      modifies this`slots, writeChunks[slot / WRITE_CHUNK_BLOCKS]
      ensures Layout() && slots == old(slots)[slot := data]
      ensures forall s: nat :: s < |slots| ==> Stored(s)
    {
      var chunk := writeChunks[slot / WRITE_CHUNK_BLOCKS];
      var offset := slot % WRITE_CHUNK_BLOCKS * BLOCK_SIZE;
      forall i | 0 <= i < BLOCK_SIZE {
        chunk[offset + i] := data[i];
      }
      slots := slots[slot := data];
      assert chunk[offset..offset + BLOCK_SIZE] == data;
      forall s: nat | s < |slots| && s != slot
        ensures Stored(s)
      {
        assert old(Stored(s));
        var at := s % WRITE_CHUNK_BLOCKS * BLOCK_SIZE;
        var other := writeChunks[s / WRITE_CHUNK_BLOCKS];
        assert other[at..at + BLOCK_SIZE] == old(other[at..at + BLOCK_SIZE]);
      }
    }

    /** The next slot, in a new chunk when the last one is full. */
    method AddSlot(data: seq<byte>)
      requires Layout() && |data| == BLOCK_SIZE && |writtenBlocks| == |slots|
      requires forall s: nat :: s < |slots| ==> Stored(s)
      modifies this`slots, this`writeChunks
      ensures Layout() && slots == old(slots) + [data]
      ensures forall s: nat :: s < |old(slots)| ==> Stored(s)
      ensures Grown(old(writeChunks))
    {
      if |writtenBlocks| % WRITE_CHUNK_BLOCKS == 0 {
        var chunk := new byte[WRITE_CHUNK_BLOCKS * BLOCK_SIZE](_ => 0);
        writeChunks := writeChunks + [chunk];
      }
      slots := slots + [data];
      forall s: nat | s < |old(slots)|
        ensures Stored(s)
      {
        assert old(Stored(s));
      }
    }

    /** A block written for the first time. */
    method PutNewBlock(index: nat, data: seq<byte>)
      requires Valid() && |data| == BLOCK_SIZE && index !in writtenBlocks
      modifies this`blockCache, this`writtenBlocks, this`writeChunks, this`order, this`slots, writeChunks
      ensures Valid() && Grown(old(writeChunks))
      ensures blockCache == old(blockCache) - {index} && writtenBlocks == old(writtenBlocks)[index := |old(slots)|]
      ensures slots == old(slots) + [data] && order == old(order) + [index]
    {
      var slot := |writtenBlocks|;
      OverlayAppend(writtenBlocks, order, slots, index, data);
      AddSlot(data);
      writtenBlocks := writtenBlocks[index := slot];
      order := order + [index];
      blockCache := blockCache - {index};
      StoreSlot(slot, data);
      assert slots == old(slots) + [data];
    }

    method PutBlock(index: nat, data: seq<byte>)
      requires Valid() && |data| == BLOCK_SIZE
      modifies this`blockCache, this`writtenBlocks, this`writeChunks, this`order, this`slots, writeChunks
      ensures Valid() && Grown(old(writeChunks))
      ensures State() == WriteBlock(old(State()), index, data)
      ensures writtenBlocks == if index in old(writtenBlocks) then old(writtenBlocks) else old(writtenBlocks)[index := |old(order)|]
      ensures index !in old(writtenBlocks) ==> order == old(order) + [index] && slots == old(slots) + [data]
    {
      if index in writtenBlocks {
        OverlayStore(writtenBlocks, order, slots, index, data);
        StoreSlot(writtenBlocks[index], data);
      } else {
        OverlayAppend(writtenBlocks, order, slots, index, data);
        PutNewBlock(index, data);
      }
    }

    /** Block i of the data of a write. */
    method PutFrom(startBlock: nat, data: seq<byte>, i: nat)
      requires Valid() && i < |data| / BLOCK_SIZE
      modifies this`blockCache, this`writtenBlocks, this`writeChunks, this`order, this`slots, writeChunks
      ensures Valid() && Grown(old(writeChunks))
      ensures State() == WriteBlock(old(State()), startBlock + i, Blocks(data)[i])
    {
      PutBlock(startBlock + i, data[i * BLOCK_SIZE..(i + 1) * BLOCK_SIZE]);
    }

    /** The loop of set. */
    method PutBlocks(startBlock: nat, data: seq<byte>, blockCount: nat)
      requires Valid() && blockCount == |data| / BLOCK_SIZE
      modifies this`blockCache, this`writtenBlocks, this`writeChunks, this`order, this`slots, writeChunks
      ensures Valid() && Grown(old(writeChunks))
      ensures State() == SetBlocks(old(State()), startBlock, Blocks(data), blockCount)
    {
      for i := 0 to blockCount
        invariant Valid() && Grown(old(writeChunks))
        invariant State() == SetBlocks(old(State()), startBlock, Blocks(data), i)
      {
        PutFrom(startBlock, data, i);
      }
    }

    /** set: a write step of the disk; no waiting read is touched. */
    method Set(start: nat, data: seq<byte>)
      requires Valid() && start % BLOCK_SIZE == 0 && |data| % BLOCK_SIZE == 0
      modifies this`blockCache, this`writtenBlocks, this`writeChunks, this`order, this`slots, writeChunks
      ensures Valid() && Grown(old(writeChunks))
      ensures (Whole(), None) == Step(old(Whole()), fixedChunkBlocks, Write(start / BLOCK_SIZE, Blocks(data)))
    {
      PutBlocks(start / BLOCK_SIZE, data, |data| / BLOCK_SIZE);
    }

    /** A read all of whose blocks are written or kept. */
    method GetFromCache(offset: nat, len: nat) returns (r: Option<seq<byte>>)
      requires Valid() && offset % BLOCK_SIZE == 0 && len % BLOCK_SIZE == 0
      ensures r.Some? <==> FromCache(State(), offset / BLOCK_SIZE, len / BLOCK_SIZE).Some?
      ensures r.Some? ==> |r.value| == len && Blocks(r.value) == FromCache(State(), offset / BLOCK_SIZE, len / BLOCK_SIZE).value
    {
      var index, count := offset / BLOCK_SIZE, len / BLOCK_SIZE;
      var i := 0;
      while i < count
        invariant 0 <= i <= count
        invariant forall k: nat :: index <= k < index + i ==> Present(State(), k)
      {
        if index + i !in writtenBlocks && index + i !in blockCache {
          assert !Present(State(), index + i);
          return None;
        }
        i := i + 1;
      }
      var result := [];
      i := 0;
      while i < count
        invariant 0 <= i <= count && |result| == i * BLOCK_SIZE
        invariant Blocks(result) == Gather(State(), index, count)[..i]
      {
        var block := GetCachedBlock(index + i);
        assert Present(State(), index + i);
        BlocksAppend(result, block.value);
        result := result + block.value;
        i := i + 1;
      }
      return Some(result);
    }

    method PutOverBlock(startBlock: nat, block: array<byte>, i: nat)
      requires Valid() && block !in writeChunks && (i + 1) * BLOCK_SIZE <= block.Length
      modifies this`blockCache, block
      ensures Valid()
      ensures (State(), Blocks(block[..])) ==
              HandleBlock(old(State()), fixedChunkBlocks > 0, startBlock, Blocks(old(block[..])), i)
    {
      var cached := GetCachedBlock(startBlock + i);
      if cached.Some? {
        BlocksSpliced(block[..], i, cached.value);
        SetInPlace(block, i * BLOCK_SIZE, cached.value);
      } else if fixedChunkBlocks > 0 {
        blockCache := blockCache[startBlock + i := block[i * BLOCK_SIZE..(i + 1) * BLOCK_SIZE]];
      }
    }

    /** Put the written blocks over data loaded for the blocks from offset on, in place. */
    method PutOver(offset: nat, block: array<byte>)
      requires Valid() && block !in writeChunks && offset % BLOCK_SIZE == 0 && block.Length % BLOCK_SIZE == 0
      modifies this`blockCache, block
      ensures Valid()
      ensures (State(), Blocks(block[..])) ==
              HandleRead(old(State()), fixedChunkBlocks > 0, offset / BLOCK_SIZE, Blocks(old(block[..])), 0)
    {
      var startBlock, blockCount := offset / BLOCK_SIZE, block.Length / BLOCK_SIZE;
      for i := 0 to blockCount
        invariant Valid()
        invariant HandleRead(State(), fixedChunkBlocks > 0, startBlock, Blocks(block[..]), i) ==
                  HandleRead(old(State()), fixedChunkBlocks > 0, startBlock, Blocks(old(block[..])), 0)
      {
        PutOverBlock(startBlock, block, i);
      }
    }

    method KeepBlockOf(index: nat, data: seq<byte>)
      requires Valid() && |data| == BLOCK_SIZE
      modifies this`blockCache
      ensures Valid()
      ensures State() == KeepOne(old(State()), index, data)
    {
      if index !in writtenBlocks && index !in blockCache {
        blockCache := blockCache[index := data];
      }
    }

    /** get_and_cache: keep the blocks of a delivered read that are neither written nor kept. */
    method KeepRead(offset: nat, block: seq<byte>)
      requires Valid() && offset % BLOCK_SIZE == 0 && |block| % BLOCK_SIZE == 0
      modifies this`blockCache
      ensures Valid()
      ensures State() == KeepBlocks(old(State()), offset / BLOCK_SIZE, Blocks(block), 0)
    {
      var startBlock, blockCount := offset / BLOCK_SIZE, |block| / BLOCK_SIZE;
      for i := 0 to blockCount
        invariant Valid()
        invariant KeepBlocks(State(), startBlock, Blocks(block), i) == KeepBlocks(old(State()), startBlock, Blocks(block), 0)
      {
        KeepBlockOf(startBlock + i, block[i * BLOCK_SIZE..(i + 1) * BLOCK_SIZE]);
      }
    }

    /** get, or get_and_cache if keep is set: Some is the data given to the callback at once. */
    method Get(offset: nat, len: nat, keep: bool) returns (r: Option<seq<byte>>)
      requires Valid() && offset % BLOCK_SIZE == 0 && len % BLOCK_SIZE == 0
      modifies this`blockCache, this`pending
      ensures Valid()
      ensures r.Some? ==> |r.value| == len
      ensures var b, n := offset / BLOCK_SIZE, len / BLOCK_SIZE;
              (Whole(), if r.Some? then Some(Reply(b, n, Blocks(r.value))) else None)
                == Step(old(Whole()), fixedChunkBlocks, Read(b, n, keep))
    {
      r := GetFromCache(offset, len);
      if r.Some? {
        if keep {
          KeepRead(offset, r.value);
        }
      } else {
        pending := pending + [Widened(offset / BLOCK_SIZE, len / BLOCK_SIZE, fixedChunkBlocks, keep)];
      }
    }

    /** The part of the loaded data that a request asked for, with the written blocks over it. */
    method DeliverTo(r: Request, block: array<byte>) returns (data: seq<byte>)
      requires Valid() && block !in writeChunks && block.Length == r.length * BLOCK_SIZE
      requires r.start <= r.offset && r.offset + r.len <= r.start + r.length
      modifies this`blockCache, block
      ensures Valid() && |data| == r.len * BLOCK_SIZE
      ensures (State(), Blocks(data)) == Deliver(old(State()), fixedChunkBlocks, r, Blocks(old(block[..])))
    {
      PutOver(r.start * BLOCK_SIZE, block);
      var at := r.offset - r.start;
      data := block[..][at * BLOCK_SIZE..(at + r.len) * BLOCK_SIZE];
      BlocksSlice(block[..], at, r.len);
    }

    /** The data of the waiting read i has arrived; the result is what its callback gets. */
    method Arrive(i: nat, block: array<byte>) returns (data: seq<byte>)
      requires Valid() && Reachable(Whole()) && i < |pending|
      requires block !in writeChunks && block.Length == pending[i].length * BLOCK_SIZE
      modifies this`blockCache, this`pending, block
      ensures Valid()
      ensures |data| == old(pending)[i].len * BLOCK_SIZE
      ensures var r := old(pending)[i];
              (Whole(), Some(Reply(r.offset, r.len, Blocks(data))))
                == Step(old(Whole()), fixedChunkBlocks, Loaded(i, Blocks(old(block[..]))))
    {
      var r := pending[i];
      data := DeliverTo(r, block);
      pending := pending[..i] + pending[i + 1..];
      if r.keep {
        KeepRead(r.offset * BLOCK_SIZE, data);
      }
    }
  }

  lemma {:induction false} BlocksAppend(bytes: seq<byte>, data: seq<byte>)
    requires |bytes| % BLOCK_SIZE == 0 && |data| == BLOCK_SIZE
    ensures Blocks(bytes + data) == Blocks(bytes) + [data]
  {
    var n := |bytes| / BLOCK_SIZE;
    forall k | 0 <= k <= n
      ensures Blocks(bytes + data)[k] == (Blocks(bytes) + [data])[k]
    {
    }
  }

  /** TypedArray.prototype.set */
  method SetInPlace(a: array<byte>, at: nat, data: seq<byte>)
    requires at + |data| <= a.Length
    modifies a
    ensures a[..] == Splice(old(a[..]), at, data)
  {
    forall i | 0 <= i < |data| {
      a[at + i] := data[i];
    }
  }
}
