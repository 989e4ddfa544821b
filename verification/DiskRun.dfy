/**
 Runs of the lazily loaded disk in bytes: reads, writes and arriving data in any order, on the real
 structures. Every callback gets the bytes that a flat image would have at that moment.
 */
module DiskRun {
  import opened Options
  import opened Sequences
  import opened Bytes
  import opened DiskImage
  import opened DiskBuffer
  import Snapshot = DiskSnapshot

  /**
   A read or a write of whole blocks, or the arrival of the data of a waiting read, which is the base
   image and, past its end, anything.
   */
  datatype Call =
    | ReadAt(offset: nat, len: nat, keep: bool)
    | WriteAt(start: nat, data: seq<byte>)
    | DataArrives(index: nat, past: nat -> byte)

  datatype Answer = Answer(offset: nat, len: nat, data: seq<byte>)

  predicate InImage(size: nat, c: Call) {
    match c
    case ReadAt(offset, len, _) => offset % BLOCK_SIZE == 0 && len % BLOCK_SIZE == 0 && offset + len <= size
    case WriteAt(start, data) => start % BLOCK_SIZE == 0 && |data| % BLOCK_SIZE == 0 && start + |data| <= size
    case DataArrives(_, _) => true
  }

  /** The flat image: writes change it, and nothing else does. */
  function AfterCall(image: seq<byte>, c: Call): (r: seq<byte>)
    requires InImage(|image|, c)
    ensures |r| == |image|
  {
    if c.WriteAt? then Splice(image, c.start, c.data) else image
  }

  function AfterCalls(image: seq<byte>, calls: seq<Call>, n: nat): (r: seq<byte>)
    requires n <= |calls| && forall k :: 0 <= k < |calls| ==> InImage(|image|, calls[k])
    ensures |r| == |image|
  {
    if n == 0 then image else AfterCall(AfterCalls(image, calls, n - 1), calls[n - 1])
  }

  /** The answer is the slice of the image. */
  predicate Right(image: seq<byte>, a: Answer) {
    a.offset + a.len <= |image| && a.data == image[a.offset..a.offset + a.len]
  }

  /** The structures mean the image over the base. */
  ghost predicate Shows(d: LazyDisk, base: seq<byte>, image: seq<byte>)
    reads d, d.writeChunks
  {
    && d.Valid() && |base| == |image|
    && Reachable(d.Whole()) && Consistent(d.Whole(), Blocks(base), Blocks(image))
  }

  /**
   A read is answered, or waits for the range around it; arriving data answers the read that waits for it,
   which waits no longer; a write answers nothing and makes nothing wait.
   */
  predicate Handled(before: seq<Request>, chunk: nat, c: Call, r: Option<Answer>, after: seq<Request>) {
    match c
    case ReadAt(offset, len, keep) =>
      if r.Some? then r.value.offset == offset && r.value.len == len && after == before
      else after == before + [Widened(offset / BLOCK_SIZE, len / BLOCK_SIZE, chunk, keep)]
    case WriteAt(_, _) => r.None? && after == before
    case DataArrives(index, _) =>
      if index < |before| then
        && r.Some? && r.value.offset == before[index].offset * BLOCK_SIZE && r.value.len == before[index].len * BLOCK_SIZE
        && after == before[..index] + before[index + 1..]
      else r.None? && after == before
  }

  method Read(d: LazyDisk, ghost base: seq<byte>, ghost image: seq<byte>, offset: nat, len: nat, keep: bool) returns (r: Option<Answer>)
    requires Shows(d, base, image) && InImage(|image|, ReadAt(offset, len, keep))
    modifies d`blockCache, d`pending
    ensures Shows(d, base, image) && (r.Some? ==> Right(image, r.value))
    ensures Handled(old(d.pending), d.fixedChunkBlocks, ReadAt(offset, len, keep), r, d.pending)
    ensures r.Some? <==> FromCache(old(d.State()), offset / BLOCK_SIZE, len / BLOCK_SIZE).Some?
  {
    ghost var b, n := offset / BLOCK_SIZE, len / BLOCK_SIZE;
    ghost var e := DiskImage.Read(b, n, keep);
    StepRefines(d.Whole(), Blocks(base), Blocks(image), d.fixedChunkBlocks, e);
    StepReachable(d.Whole(), d.fixedChunkBlocks, e);
    var data := d.Get(offset, len, keep);
    if data.None? {
      return None;
    }
    CallbackBytes(image, b, n, data.value);
    return Some(Answer(offset, len, data.value));
  }

  /** Whole blocks over whole blocks. */
  lemma {:induction false} SpliceBlocks(image: seq<byte>, b: nat, data: seq<byte>)
    requires |data| % BLOCK_SIZE == 0 && b * BLOCK_SIZE + |data| <= |image|
    ensures b + |Blocks(data)| <= |Blocks(image)|
    ensures Blocks(Splice(image, b * BLOCK_SIZE, data)) == Splice(Blocks(image), b, Blocks(data))
  {
    var at, r := b * BLOCK_SIZE, Splice(image, b * BLOCK_SIZE, data);
    var x, y := Blocks(r), Splice(Blocks(image), b, Blocks(data));
    forall k | 0 <= k < |x|
      ensures x[k] == y[k]
    {
      var lo, hi := k * BLOCK_SIZE, (k + 1) * BLOCK_SIZE;
      SpliceSlice(image, at, data, lo, hi);
      assert k < b ==> hi <= at;
      assert k >= b + |Blocks(data)| ==> at + |data| <= lo;
    }
  }

  /** A slice inside the part, or apart from it. */
  lemma {:induction false} SpliceSlice(s: seq<byte>, at: nat, part: seq<byte>, lo: nat, hi: nat)
    requires at + |part| <= |s| && lo <= hi <= |s|
    ensures hi <= at || at + |part| <= lo ==> Splice(s, at, part)[lo..hi] == s[lo..hi]
    ensures at <= lo && hi <= at + |part| ==> Splice(s, at, part)[lo..hi] == part[lo - at..hi - at]
  {
    var r := Splice(s, at, part);
    assert hi <= at || at + |part| <= lo ==> forall k :: lo <= k < hi ==> r[k] == s[k];
    if at <= lo && hi <= at + |part| {
      var x, y := r[lo..hi], part[lo - at..hi - at];
      forall k | 0 <= k < |x|
        ensures x[k] == y[k]
      {
        assert x[k] == r[lo + k];
      }
    }
  }

  method Write(d: LazyDisk, ghost base: seq<byte>, ghost image: seq<byte>, start: nat, data: seq<byte>)
    requires Shows(d, base, image) && InImage(|image|, WriteAt(start, data))
    modifies d, d.writeChunks
    ensures Shows(d, base, Splice(image, start, data)) && d.Grown(old(d.writeChunks)) && d.pending == old(d.pending)
  {
    ghost var b := start / BLOCK_SIZE;
    ghost var e := DiskImage.Write(b, Blocks(data));
    SpliceBlocks(image, b, data);
    StepRefines(d.Whole(), Blocks(base), Blocks(image), d.fixedChunkBlocks, e);
    StepReachable(d.Whole(), d.fixedChunkBlocks, e);
    d.Set(start, data);
  }

  /** What is loaded for a range: the base, and past its end anything. */
  function LoadedBytes(base: seq<byte>, start: nat, length: nat, past: nat -> byte): (r: seq<byte>)
    ensures |r| == length && forall p :: 0 <= p < length && start + p < |base| ==> r[p] == base[start + p]
  {
    seq(length, p requires 0 <= p < length => if start + p < |base| then base[start + p] else past(p))
  }

  lemma {:induction false} LoadedAgrees(base: seq<byte>, b: nat, n: nat, block: seq<byte>)
    requires |block| == n * BLOCK_SIZE
    requires forall p :: 0 <= p < |block| && b * BLOCK_SIZE + p < |base| ==> block[p] == base[b * BLOCK_SIZE + p]
    ensures Agrees(Blocks(base), b, Blocks(block), 0)
  {
    forall k | 0 <= k < n && b + k < |Blocks(base)|
      ensures Blocks(block)[k] == Blocks(base)[b + k]
    {
      var lo := k * BLOCK_SIZE;
      var x, y := block[lo..lo + BLOCK_SIZE], base[b * BLOCK_SIZE + lo..b * BLOCK_SIZE + lo + BLOCK_SIZE];
      forall p | 0 <= p < BLOCK_SIZE
        ensures x[p] == y[p]
      {
        assert block[lo + p] == base[b * BLOCK_SIZE + (lo + p)];
      }
    }
  }

  /** The data of a waiting read arrives. */
  method Arrival(d: LazyDisk, base: seq<byte>, ghost image: seq<byte>, index: nat, past: nat -> byte) returns (a: Answer)
    requires Shows(d, base, image) && index < |d.pending|
    modifies d`blockCache, d`pending
    ensures Shows(d, base, image) && Right(image, a)
    ensures Handled(old(d.pending), d.fixedChunkBlocks, DataArrives(index, past), Some(a), d.pending)
  {
    var r := d.pending[index];
    var bytes := LoadedBytes(base, r.start * BLOCK_SIZE, r.length * BLOCK_SIZE, past);
    var block := new byte[|bytes|](i requires 0 <= i < |bytes| => bytes[i]);
    assert block[..] == bytes;
    LoadedAgrees(base, r.start, r.length, bytes);
    ghost var e := Loaded(index, Blocks(bytes));
    StepRefines(d.Whole(), Blocks(base), Blocks(image), d.fixedChunkBlocks, e);
    StepReachable(d.Whole(), d.fixedChunkBlocks, e);
    var data := d.Arrive(index, block);
    CallbackBytes(image, r.offset, r.len, data);
    return Answer(r.offset * BLOCK_SIZE, r.len * BLOCK_SIZE, data);
  }

  /** One call; data for a read that does not wait is ignored. */
  method Handle(d: LazyDisk, base: seq<byte>, ghost image: seq<byte>, c: Call) returns (r: Option<Answer>)
    requires Shows(d, base, image) && InImage(|image|, c)
    modifies d, d.writeChunks
    ensures Shows(d, base, AfterCall(image, c)) && d.Grown(old(d.writeChunks))
    ensures r.Some? ==> Right(AfterCall(image, c), r.value)
    ensures Handled(old(d.pending), d.fixedChunkBlocks, c, r, d.pending)
    ensures c.ReadAt? ==> (r.Some? <==> FromCache(old(d.State()), c.offset / BLOCK_SIZE, c.len / BLOCK_SIZE).Some?)
  {
    r := None;
    match c
    case ReadAt(offset, len, keep) => r := Read(d, base, image, offset, len, keep);
    case WriteAt(start, data) => Write(d, base, image, start, data);
    case DataArrives(index, past) =>
      if index < |d.pending| {
        var a := Arrival(d, base, image, index, past);
        r := Some(a);
      }
  }

  // ---- Whole runs ----

  /** How many of the first k calls ask for n blocks at block b. */
  function AskedTo(calls: seq<Call>, k: nat, b: nat, n: nat): nat
    requires k <= |calls|
  {
    if k == 0 then 0 else AskedTo(calls, k - 1, b, n) + AskedIn(calls[k - 1], b, n)
  }

  function AskedIn(c: Call, b: nat, n: nat): nat {
    if c.ReadAt? && c.offset == b * BLOCK_SIZE && c.len == n * BLOCK_SIZE then 1 else 0
  }

  /** How many of the answers are to such a read. */
  function AnsweredTo(replies: seq<Option<Answer>>, b: nat, n: nat): nat {
    if replies == [] then 0
    else AnsweredTo(replies[..|replies| - 1], b, n) + AnsweredIn(replies[|replies| - 1], b, n)
  }

  function AnsweredIn(r: Option<Answer>, b: nat, n: nat): nat {
    if r.Some? && r.value.offset == b * BLOCK_SIZE && r.value.len == n * BLOCK_SIZE then 1 else 0
  }

  lemma {:induction false} HandledConserves(before: seq<Request>, chunk: nat, size: nat, c: Call, r: Option<Answer>, after: seq<Request>, b: nat, n: nat)
    requires InImage(size, c) && Handled(before, chunk, c, r, after)
    ensures AnsweredIn(r, b, n) + Waiting(after, b, n) == Waiting(before, b, n) + AskedIn(c, b, n)
  {
    match c
    case ReadAt(offset, len, keep) =>
      WaitingConcat(before, [Widened(offset / BLOCK_SIZE, len / BLOCK_SIZE, chunk, keep)], b, n);
    case WriteAt(_, _) =>
    case DataArrives(index, _) =>
      if index < |before| {
        assert before == before[..index] + before[index..];
        WaitingConcat(before[..index], before[index..], b, n);
        WaitingConcat(before[..index], before[index + 1..], b, n);
      }
  }

  /** Reads answered and reads waiting are those asked for and those that waited before, for every range. */
  ghost predicate Conserved(before: seq<Request>, calls: seq<Call>, replies: seq<Option<Answer>>, after: seq<Request>) {
    |replies| <= |calls| && forall b: nat, n: nat ::
      AnsweredTo(replies, b, n) + Waiting(after, b, n) == Waiting(before, b, n) + AskedTo(calls, |replies|, b, n)
  }

  lemma {:induction false} ConservedNext(before: seq<Request>, calls: seq<Call>, replies: seq<Option<Answer>>, now: seq<Request>,
                                         chunk: nat, size: nat, reply: Option<Answer>, after: seq<Request>)
    requires Conserved(before, calls, replies, now) && |replies| < |calls| && InImage(size, calls[|replies|])
    requires Handled(now, chunk, calls[|replies|], reply, after)
    ensures Conserved(before, calls, replies + [reply], after)
  {
    var more := replies + [reply];
    forall b: nat, n: nat
      ensures AnsweredTo(more, b, n) + Waiting(after, b, n) == Waiting(before, b, n) + AskedTo(calls, |more|, b, n)
    {
      assert more[..|replies|] == replies;
      HandledConserves(now, chunk, size, calls[|replies|], reply, after, b, n);
    }
  }

  /** Every answer so far is right at its moment. */
  ghost predicate AllRight(image: seq<byte>, calls: seq<Call>, replies: seq<Option<Answer>>) {
    && |replies| <= |calls| && (forall k :: 0 <= k < |calls| ==> InImage(|image|, calls[k]))
    && forall k :: 0 <= k < |replies| && replies[k].Some? ==> Right(AfterCalls(image, calls, k + 1), replies[k].value)
  }

  lemma {:induction false} OneMore(image: seq<byte>, calls: seq<Call>, replies: seq<Option<Answer>>, reply: Option<Answer>)
    requires AllRight(image, calls, replies) && |replies| < |calls|
    requires reply.Some? ==> Right(AfterCalls(image, calls, |replies| + 1), reply.value)
    ensures AllRight(image, calls, replies + [reply])
  {
  }

  /**
   For every sequence of reads, writes and arrivals on the real structures, each callback gets exactly
   the bytes of the base with all writes made by then over it, and every read is answered once or waits.
   */
  method Run(d: LazyDisk, base: seq<byte>, ghost image: seq<byte>, calls: seq<Call>) returns (replies: seq<Option<Answer>>)
    requires Shows(d, base, image) && forall k :: 0 <= k < |calls| ==> InImage(|image|, calls[k])
    modifies d, d.writeChunks
    ensures |replies| == |calls| && AllRight(image, calls, replies) && Shows(d, base, AfterCalls(image, calls, |calls|))
    ensures Conserved(old(d.pending), calls, replies, d.pending)
  {
    replies := [];
    ghost var now := image;
    while |replies| < |calls|
      invariant d.Grown(old(d.writeChunks)) && Shows(d, base, now)
      invariant AllRight(image, calls, replies) && now == AfterCalls(image, calls, |replies|)
      invariant Conserved(old(d.pending), calls, replies, d.pending)
    {
      var c := calls[|replies|];
      ghost var waiting := d.pending;
      var reply := Handle(d, base, now, c);
      ConservedNext(old(d.pending), calls, replies, waiting, d.fixedChunkBlocks, |image|, reply, d.pending);
      now := AfterCall(now, c);
      OneMore(image, calls, replies, reply);
      replies := replies + [reply];
    }
  }

  /** So it is from a new disk on. */
  method RunFromStart(base: seq<byte>, fixedChunkBlocks: nat, calls: seq<Call>) returns (d: LazyDisk, replies: seq<Option<Answer>>)
    requires forall k :: 0 <= k < |calls| ==> InImage(|base|, calls[k])
    ensures |replies| == |calls| && AllRight(base, calls, replies) && Shows(d, base, AfterCalls(base, calls, |calls|))
    ensures Conserved([], calls, replies, d.pending)
  {
    d := new LazyDisk(|base|, fixedChunkBlocks);
    FreshDisk(Blocks(base));
    replies := Run(d, base, base, calls);
  }

  // ---- A snapshot that is restored between ----

  /** The base with written blocks over it. */
  function Overlaid(base: seq<byte>, written: map<nat, seq<byte>>): (r: seq<byte>)
    ensures |r| == |base|
  {
    seq(|base|, p requires 0 <= p < |base| =>
      var b := p / BLOCK_SIZE;
      if b in written && |written[b]| == BLOCK_SIZE then written[b][p % BLOCK_SIZE] else base[p])
  }

  lemma {:induction false} OverlaidMeans(base: seq<byte>, written: map<nat, seq<byte>>)
    requires forall b :: b in written ==> |written[b]| == BLOCK_SIZE
    ensures Means(Disk(map[], written), Blocks(base), Blocks(Overlaid(base, written)))
  {
    var image := Overlaid(base, written);
    forall b | 0 <= b < |Blocks(base)|
      ensures Blocks(image)[b] == if b in written then written[b] else Blocks(base)[b]
    {
      OverlaidBlock(base, written, b);
    }
  }

  lemma {:induction false} OverlaidBlock(base: seq<byte>, written: map<nat, seq<byte>>, b: nat)
    requires (forall k :: k in written ==> |written[k]| == BLOCK_SIZE) && (b + 1) * BLOCK_SIZE <= |base|
    ensures var lo, hi := b * BLOCK_SIZE, (b + 1) * BLOCK_SIZE;
            Overlaid(base, written)[lo..hi] == if b in written then written[b] else base[lo..hi]
  {
    var lo, hi := b * BLOCK_SIZE, (b + 1) * BLOCK_SIZE;
    var x, y := Overlaid(base, written)[lo..hi], if b in written then written[b] else base[lo..hi];
    forall k | 0 <= k < BLOCK_SIZE
      ensures x[k] == y[k]
    {
      assert (lo + k) / BLOCK_SIZE == b && (lo + k) % BLOCK_SIZE == k;
    }
  }

  /**
   A snapshot is restored while reads wait: they stay, and the disk means the base with the snapshot's blocks
   over it, from which any run can go on, if and only if all of these are whole blocks of the base.
   */
  method Restore(d: LazyDisk, ghost base: seq<byte>, ghost image: seq<byte>, indices: seq<int>, chunks: seq<array<byte>>, ghost contents: seq<seq<byte>>)
    returns (ok: bool)
    requires Shows(d, base, image)
    requires |contents| == |chunks| && forall k :: 0 <= k < |chunks| ==> chunks[k][..] == contents[k]
    requires forall i, j :: 0 <= i < j < |chunks| ==> chunks[i] != chunks[j]
    modifies d, chunks
    ensures ok <==> Snapshot.Acceptable(d.byteLength, indices, contents)
    ensures d.pending == old(d.pending)
    ensures ok ==>
              var written := Snapshot.Restored(indices, Snapshot.AllBlocks(contents, |contents|), |indices|);
              Shows(d, base, Overlaid(base, written)) <==> forall k :: 0 <= k < |indices| ==> indices[k] < |base| / BLOCK_SIZE
  {
    assert Around(d.pending, |Blocks(base)|);
    ok := Snapshot.SetState(d, indices, chunks, contents);
    if ok {
      ghost var data := Snapshot.AllBlocks(contents, |contents|);
      ghost var written := Snapshot.Restored(indices, data, |indices|);
      Snapshot.AllBlocksWhole(contents, |contents|);
      RestoredKeys(indices, data, |indices|);
      RestoredShows(d, base, indices, written);
    }
  }

  /** Every read waits for a range around it, and is inside the disk. */
  predicate Around(pending: seq<Request>, blocks: nat) {
    forall i :: 0 <= i < |pending| ==>
      var r := pending[i]; r.start <= r.offset && r.offset + r.len <= r.start + r.length && r.offset + r.len <= blocks
  }

  lemma {:induction false} RestoredShows(d: LazyDisk, base: seq<byte>, indices: seq<nat>, written: map<nat, seq<byte>>)
    requires d.Valid() && d.State() == Disk(map[], written) && Around(d.pending, |Blocks(base)|)
    requires forall b :: b in written <==> exists k :: 0 <= k < |indices| && indices[k] == b
    requires forall b :: b in written ==> |written[b]| == BLOCK_SIZE
    ensures Shows(d, base, Overlaid(base, written)) <==> forall k :: 0 <= k < |indices| ==> indices[k] < |base| / BLOCK_SIZE
  {
    OverlaidMeans(base, written);
    if k :| 0 <= k < |indices| && indices[k] >= |base| / BLOCK_SIZE {
      assert indices[k] in written;
    }
  }

  lemma {:induction false} RestoredKeys(indices: seq<nat>, data: seq<seq<byte>>, n: nat)
    requires n <= |indices| && n <= |data| && forall k :: 0 <= k < |data| ==> |data[k]| == BLOCK_SIZE
    ensures forall b :: b in Snapshot.Restored(indices, data, n) <==> exists k :: 0 <= k < n && indices[k] == b
    ensures forall b :: b in Snapshot.Restored(indices, data, n) ==> |Snapshot.Restored(indices, data, n)[b]| == BLOCK_SIZE
  {
    if n > 0 {
      RestoredKeys(indices, data, n - 1);
    }
  }
}
