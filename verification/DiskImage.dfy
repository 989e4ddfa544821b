/**
 The lazily loaded disk of src/buffer.js, block by block: the blocks kept from reads and the blocks
 written.  The disk means an image: the base with the written blocks over it.  How the written
 blocks are stored in chunks of bytes is in module DiskBuffer, which refines this one.
 */
module DiskImage {
  import opened Sequences
  import opened Options

  /** The blocks of type T kept from reads, and the blocks written. */
  datatype Disk<T> = Disk(cache: map<nat, T>, written: map<nat, T>)

  // ---------------------------------------------------------------------------
  // Well-formed disks and the image they mean

  /** No written block is also kept; kept blocks are those of the base; only blocks of the image are written. */
  ghost predicate Valid<T>(d: Disk<T>, base: seq<T>) {
    && (forall b :: b in d.cache ==> b !in d.written && (b < |base| ==> d.cache[b] == base[b]))
    && (forall b :: b in d.written ==> b < |base|)
  }

  /** What the structures know of block b. */
  function CachedBlock<T>(d: Disk<T>, b: nat): Option<T> {
    if b in d.written then Some(d.written[b])
    else if b in d.cache then Some(d.cache[b]) else None
  }

  /** The disk means this image. */
  ghost predicate Means<T>(d: Disk<T>, base: seq<T>, image: seq<T>) {
    |image| == |base| && forall b :: 0 <= b < |base| ==> image[b] == if b in d.written then d.written[b] else base[b]
  }

  // ---------------------------------------------------------------------------
  // Writing

  function WriteBlock<T>(d: Disk<T>, b: nat, data: T): Disk<T> {
    Disk(if b in d.written then d.cache else d.cache - {b}, d.written[b := data])
  }

  /** Writing a block changes the image at that block and nowhere else. */
  lemma {:induction false} WriteBlockMeans<T>(d: Disk<T>, base: seq<T>, image: seq<T>, b: nat, data: T)
    requires Valid(d, base) && Means(d, base, image) && b < |base|
    ensures Valid(WriteBlock(d, b, data), base)
    ensures Means(WriteBlock(d, b, data), base, image[b := data])
  {
  }

  /** Write the first n blocks of data to the blocks from b on. */
  function SetBlocks<T>(d: Disk<T>, b: nat, data: seq<T>, n: nat): Disk<T>
    requires n <= |data|
  {
    if n == 0 then d
    else WriteBlock(SetBlocks(d, b, data, n - 1), b + n - 1, data[n - 1])
  }

  lemma {:induction false} SpliceGrows<T>(s: seq<T>, i: nat, data: seq<T>, n: nat)
    requires i + |data| <= |s| && 0 < n <= |data|
    ensures Splice(s, i, data[..n]) == Splice(s, i, data[..n - 1])[i + n - 1 := data[n - 1]]
  {
  }

  /** A write patches the image. */
  lemma {:induction false} SetMeans<T>(d: Disk<T>, base: seq<T>, image: seq<T>, b: nat, data: seq<T>, n: nat)
    requires Valid(d, base) && Means(d, base, image) && n <= |data| && b + |data| <= |base|
    ensures Valid(SetBlocks(d, b, data, n), base)
    ensures Means(SetBlocks(d, b, data, n), base, Splice(image, b, data[..n]))
  {
    if n == 0 {
      assert Splice(image, b, data[..0]) == image;
    } else {
      SetMeans(d, base, image, b, data, n - 1);
      var image' := Splice(image, b, data[..n - 1]);
      WriteBlockMeans(SetBlocks(d, b, data, n - 1), base, image', b + n - 1, data[n - 1]);
      SpliceGrows(image, b, data, n);
    }
  }

  // ---------------------------------------------------------------------------
  // Reading

  predicate Present<T>(d: Disk<T>, b: nat) {
    b in d.written || b in d.cache
  }

  /** The data of the blocks from b up to b + n. */
  function Gather<T>(d: Disk<T>, b: nat, n: nat): (r: seq<T>)
    requires forall k: nat :: b <= k < b + n ==> Present(d, k)
    ensures |r| == n
  {
    seq(n, i requires 0 <= i < n => assert Present(d, b + i); CachedBlock(d, b + i).value)
  }

  /** The data of a read that is all in the structures. */
  function FromCache<T>(d: Disk<T>, b: nat, n: nat): Option<seq<T>>
  {
    if forall k: nat :: b <= k < b + n ==> Present(d, k) then Some(Gather(d, b, n)) else None
  }

  /** A read is served from the structures exactly if all its blocks are written or kept. */
  lemma {:induction false} FromCacheMeans<T>(d: Disk<T>, b: nat, n: nat)
    ensures FromCache(d, b, n).Some? <==> forall k: nat :: b <= k < b + n ==> k in d.written || k in d.cache
  {
    if forall k: nat :: b <= k < b + n ==> k in d.written || k in d.cache {
      assert forall k: nat :: b <= k < b + n ==> Present(d, k);
    }
    if FromCache(d, b, n).Some? {
      forall k: nat | b <= k < b + n
        ensures k in d.written || k in d.cache
      {
        assert Present(d, k);
      }
    }
  }

  /** It gets what was written, and what was kept where nothing was. */
  lemma {:induction false} FromCacheAt<T>(d: Disk<T>, b: nat, n: nat, i: nat)
    requires FromCache(d, b, n).Some? && i < n
    ensures |FromCache(d, b, n).value| == n && (b + i in d.written || b + i in d.cache)
    ensures FromCache(d, b, n).value[i] == if b + i in d.written then d.written[b + i] else d.cache[b + i]
  {
    assert Present(d, b + i);
    var r := Gather(d, b, n);
    assert r[i] == CachedBlock(d, b + i).value;
  }

  /** A read served from the structures is the image. */
  lemma {:induction false} FromCacheImage<T>(d: Disk<T>, base: seq<T>, image: seq<T>, b: nat, n: nat)
    requires Valid(d, base) && Means(d, base, image) && b + n <= |base| && FromCache(d, b, n).Some?
    ensures FromCache(d, b, n).value == image[b..b + n]
  {
    var r := Gather(d, b, n);
    forall i | 0 <= i < n
      ensures r[i] == image[b + i]
    {
      assert Present(d, b + i);
      assert r[i] == CachedBlock(d, b + i).value;
    }
  }

  /** handle_read for one block: a written or kept block goes over the loaded one, which is else kept if reads are. */
  function HandleBlock<T>(d: Disk<T>, keep: bool, b: nat, block: seq<T>, i: nat): (r: (Disk<T>, seq<T>))
    requires i < |block|
    ensures |r.1| == |block|
  {
    var c := CachedBlock(d, b + i);
    if c.Some? then (d, block[i := c.value])
    else (if keep then d.(cache := d.cache[b + i := block[i]]) else d, block)
  }

  /** handle_read from block i of the loaded data on. */
  function HandleRead<T>(d: Disk<T>, keep: bool, b: nat, block: seq<T>, i: nat): (r: (Disk<T>, seq<T>))
    requires i <= |block|
    ensures |r.1| == |block|
    decreases |block| - i
  {
    if i == |block| then (d, block)
    else
      var (d', block') := HandleBlock(d, keep, b, block, i);
      HandleRead(d', keep, b, block', i + 1)
  }

  /** Data for the blocks from b on agrees with s from i on, where inside the image. */
  predicate Agrees<T(==)>(s: seq<T>, b: nat, block: seq<T>, i: nat) {
    forall k :: i <= k < |block| && b + k < |s| ==> block[k] == s[b + k]
  }

  lemma {:induction false} KeepBlock<T>(d: Disk<T>, base: seq<T>, b: nat, data: T)
    requires Valid(d, base) && !Present(d, b) && (b < |base| ==> data == base[b])
    ensures Valid(d.(cache := d.cache[b := data]), base)
    ensures forall image :: Means(d, base, image) ==> Means(d.(cache := d.cache[b := data]), base, image)
  {
  }

  lemma {:induction false} HandleBlockMeans<T>(d: Disk<T>, base: seq<T>, image: seq<T>, keep: bool, b: nat, block: seq<T>, i: nat)
    requires Valid(d, base) && Means(d, base, image) && i < |block| && (b + i < |base| ==> block[i] == base[b + i])
    ensures var (d', r) := HandleBlock(d, keep, b, block, i);
            && Valid(d', base) && Means(d', base, image)
            && r == block[i := r[i]] && (b + i < |base| ==> r[i] == image[b + i])
  {
    if CachedBlock(d, b + i).None? && keep {
      KeepBlock(d, base, b + i, block[i]);
    }
  }

  /** Handling a read keeps the image, and turns base data into the image. */
  lemma {:induction false} HandleReadMeans<T>(d: Disk<T>, base: seq<T>, image: seq<T>, keep: bool, b: nat, block: seq<T>, i: nat)
    requires Valid(d, base) && Means(d, base, image) && i <= |block| && Agrees(base, b, block, i)
    ensures var (d', r) := HandleRead(d, keep, b, block, i);
            && Valid(d', base) && Means(d', base, image)
            && Agrees(image, b, r, i)
            && forall k :: 0 <= k < i ==> r[k] == block[k]
    decreases |block| - i
  {
    if i < |block| {
      HandleBlockMeans(d, base, image, keep, b, block, i);
      var (d', block') := HandleBlock(d, keep, b, block, i);
      HandleReadMeans(d', base, image, keep, b, block', i + 1);
    }
  }

  /** get_and_cache: keep the blocks of a read that are neither written nor kept yet, from i on. */
  function KeepBlocks<T>(d: Disk<T>, b: nat, block: seq<T>, i: nat): Disk<T>
    requires i <= |block|
    decreases |block| - i
  {
    if i == |block| then d else KeepBlocks(KeepOne(d, b + i, block[i]), b, block, i + 1)
  }

  function KeepOne<T>(d: Disk<T>, b: nat, data: T): Disk<T> {
    if Present(d, b) then d else d.(cache := d.cache[b := data])
  }

  lemma {:induction false} KeepBlocksMeans<T>(d: Disk<T>, base: seq<T>, image: seq<T>, b: nat, block: seq<T>, i: nat)
    requires Valid(d, base) && Means(d, base, image) && i <= |block| && b + |block| <= |base| && block == image[b..b + |block|]
    ensures Valid(KeepBlocks(d, b, block, i), base)
    ensures Means(KeepBlocks(d, b, block, i), base, image)
    decreases |block| - i
  {
    if i < |block| {
      if Present(d, b + i) {
        KeepBlocksMeans(d, base, image, b, block, i + 1);
      } else {
        KeepBlock(d, base, b + i, block[i]);
        KeepBlocksMeans(d.(cache := d.cache[b + i := block[i]]), base, image, b, block, i + 1);
      }
    }
  }

  /** Blocks from lo up to hi that were not there are kept, and nothing else changes. */
  ghost predicate Keeps<T>(d: Disk<T>, r: Disk<T>, b: nat, block: seq<T>, i: nat) {
    && r.written == d.written
    && forall k: nat ::
         && (k in r.cache <==> k in d.cache || (b + i <= k < b + |block| && k !in d.written))
         && (k in d.cache ==> r.cache[k] == d.cache[k])
         && (k in r.cache && k !in d.cache ==> r.cache[k] == block[k - b])
  }

  /** Just the blocks that are neither written nor kept are kept by get_and_cache; the read is served at once next time. */
  lemma {:induction false} KeepBlocksKeep<T>(d: Disk<T>, b: nat, block: seq<T>, i: nat)
    requires i <= |block|
    ensures Keeps(d, KeepBlocks(d, b, block, i), b, block, i)
    ensures forall k: nat :: b + i <= k < b + |block| ==> Present(KeepBlocks(d, b, block, i), k)
    decreases |block| - i
  {
    if i < |block| {
      KeepBlocksKeep(KeepOne(d, b + i, block[i]), b, block, i + 1);
    }
  }

  /** Loaded blocks are kept too on a disk that loads whole chunks, and on no other. */
  lemma {:induction false} HandleReadKeeps<T>(d: Disk<T>, keep: bool, b: nat, block: seq<T>, i: nat)
    requires i <= |block|
    ensures var (r, data) := HandleRead(d, keep, b, block, i);
            && (if keep then Keeps(d, r, b, block, i) else r == d)
            && forall k :: 0 <= k < |block| ==>
                 data[k] == if i <= k && CachedBlock(d, b + k).Some? then CachedBlock(d, b + k).value else block[k]
    decreases |block| - i
  {
    if i < |block| {
      var (d', block') := HandleBlock(d, keep, b, block, i);
      HandleReadKeeps(d', keep, b, block', i + 1);
    }
  }

  // ---------------------------------------------------------------------------
  // Asynchronous reads

  /** A read of len blocks at offset that waits for the blocks from start on; keep: made by get_and_cache. */
  datatype Request = Request(offset: nat, len: nat, start: nat, length: nat, keep: bool)

  /** What the callback of a read gets. */
  datatype Reply<T> = Reply(offset: nat, len: nat, data: seq<T>)

  /** A read starts, a write is done, or the data of a waiting read arrives. */
  datatype Event<T> =
    | Read(offset: nat, len: nat, keep: bool)
    | Write(start: nat, data: seq<T>)
    | Loaded(index: nat, block: seq<T>)

  datatype System<T> = System(disk: Disk<T>, pending: seq<Request>)

  /** The range loaded for a read: whole chunks, if the disk has a chunk size (0: none). */
  function Widened(offset: nat, len: nat, chunk: nat, keep: bool): (r: Request)
    ensures r.offset == offset && r.len == len && r.start <= offset && offset + len <= r.start + r.length
    ensures chunk == 0 ==> r.start == offset && r.length == len
    ensures chunk > 0 ==> offset - r.start < chunk && r.start + r.length < offset + len + chunk
  {
    if chunk == 0 then Request(offset, len, offset, len, keep)
    else
      var start := offset - offset % chunk;
      var chunks := (offset - start + len + chunk - 1) / chunk;
      RoundingUp(offset - start + len, chunk);
      Request(offset, len, start, chunks * chunk, keep)
  }

  /** Whole chunks are loaded. */
  lemma {:induction false} WidenedWhole(offset: nat, len: nat, chunk: nat, keep: bool)
    requires chunk > 0
    ensures var r := Widened(offset, len, chunk, keep); r.start % chunk == 0 && r.length % chunk == 0 && r.keep == keep
  {
    var q := offset / chunk;
    assert offset - offset % chunk == q * chunk;
    Multiple(q, chunk);
    var start := offset - offset % chunk;
    Multiple((offset - start + len + chunk - 1) / chunk, chunk);
  }

  lemma {:induction false} Multiple(q: nat, chunk: nat)
    requires chunk > 0
    ensures (q * chunk) % chunk == 0
  {
    var x: int, c: int := q * chunk, chunk;
    var d: int := q - x / c;
    assert x == c * (x / c) + x % c;
    assert c * d == c * q - c * (x / c) == x % c;
    FarFromZero(c, d);
  }

  lemma {:induction false} FarFromZero(chunk: int, d: int)
    requires chunk > 0
    ensures d >= 1 ==> chunk * d >= chunk
    ensures d <= -1 ==> chunk * d <= -chunk
    ensures d == 0 ==> chunk * d == 0
  {
    if d >= 1 {
      assert chunk * d == chunk + chunk * (d - 1) && chunk * (d - 1) >= 0;
    } else if d <= -1 {
      assert chunk * d == -chunk + chunk * (d + 1) && chunk * (d + 1) <= 0;
    }
  }

  lemma {:induction false} RoundingUp(x: nat, chunk: nat)
    requires chunk > 0
    ensures var n := (x + chunk - 1) / chunk; 0 <= n && x <= n * chunk < x + chunk
  {
    var y := x + chunk - 1;
    assert y == chunk * (y / chunk) + y % chunk;
  }

  predicate Legal<T(==)>(s: System<T>, base: seq<T>, e: Event<T>) {
    match e
    case Read(offset, len, _) => offset + len <= |base|
    case Write(start, data) => start + |data| <= |base|
    case Loaded(i, block) => i < |s.pending| && |block| == s.pending[i].length && Agrees(base, s.pending[i].start, block, 0)
  }

  ghost predicate Consistent<T>(s: System<T>, base: seq<T>, image: seq<T>) {
    && Valid(s.disk, base) && Means(s.disk, base, image)
    && forall i :: 0 <= i < |s.pending| ==>
         var r := s.pending[i];
         r.start <= r.offset && r.offset + r.len <= r.start + r.length && r.offset + r.len <= |base|
  }

  /** The data loaded for a request, and the part of it that the request asked for. */
  function Deliver<T>(d: Disk<T>, chunk: nat, r: Request, block: seq<T>): (result: (Disk<T>, seq<T>))
    requires |block| == r.length && r.start <= r.offset && r.offset + r.len <= r.start + r.length
    ensures |result.1| == r.len
  {
    var (disk, whole) := HandleRead(d, chunk > 0, r.start, block, 0);
    (disk, whole[r.offset - r.start..r.offset - r.start + r.len])
  }

  /** One event on a disk with a chunk size: the next state, and the callback made, if any. */
  function Step<T(==)>(s: System<T>, chunk: nat, e: Event<T>): (System<T>, Option<Reply<T>>)
    requires e.Loaded? ==> e.index < |s.pending| && |e.block| == s.pending[e.index].length
    requires e.Loaded? ==> var r := s.pending[e.index]; r.start <= r.offset && r.offset + r.len <= r.start + r.length
  {
    match e
    case Read(offset, len, keep) =>
      var found := FromCache(s.disk, offset, len);
      if found.None? then (s.(pending := s.pending + [Widened(offset, len, chunk, keep)]), None)
      else (s.(disk := if keep then KeepBlocks(s.disk, offset, found.value, 0) else s.disk), Some(Reply(offset, len, found.value)))
    case Write(start, data) =>
      (s.(disk := SetBlocks(s.disk, start, data, |data|)), None)
    case Loaded(i, block) =>
      var r := s.pending[i];
      var (disk, data) := Deliver(s.disk, chunk, r, block);
      (System(if r.keep then KeepBlocks(disk, r.offset, data, 0) else disk, s.pending[..i] + s.pending[i + 1..]),
       Some(Reply(r.offset, r.len, data)))
  }

  /** The reference: a flat image, changed by writes only. */
  function AfterEvent<T>(image: seq<T>, e: Event<T>): seq<T> {
    if e.Write? && e.start + |e.data| <= |image| then Splice(image, e.start, e.data) else image
  }

  /** A callback gets the image of its moment. */
  predicate Faithful<T(==)>(image: seq<T>, reply: Option<Reply<T>>) {
    reply.Some? ==> reply.value.offset + reply.value.len <= |image|
                    && reply.value.data == image[reply.value.offset..reply.value.offset + reply.value.len]
  }

  lemma {:induction false} ReadStep<T>(s: System<T>, base: seq<T>, image: seq<T>, chunk: nat, e: Event<T>)
    requires Consistent(s, base, image) && e.Read? && Legal(s, base, e)
    ensures Consistent(Step(s, chunk, e).0, base, image)
    ensures Faithful(image, Step(s, chunk, e).1)
  {
    var found := FromCache(s.disk, e.offset, e.len);
    if found.Some? {
      FromCacheImage(s.disk, base, image, e.offset, e.len);
      KeepBlocksMeans(s.disk, base, image, e.offset, found.value, 0);
    }
  }

  lemma {:induction false} LoadedStep<T>(s: System<T>, base: seq<T>, image: seq<T>, chunk: nat, e: Event<T>)
    requires Consistent(s, base, image) && e.Loaded? && Legal(s, base, e)
    ensures Consistent(Step(s, chunk, e).0, base, image)
    ensures Faithful(image, Step(s, chunk, e).1)
  {
    var r := s.pending[e.index];
    DeliverMeans(s.disk, base, image, chunk, r, e.block);
    var (disk, data) := Deliver(s.disk, chunk, r, e.block);
    KeepBlocksMeans(disk, base, image, r.offset, data, 0);
  }

  /** The delivered part is the image. */
  lemma {:induction false} DeliverMeans<T>(d: Disk<T>, base: seq<T>, image: seq<T>, chunk: nat, r: Request, block: seq<T>)
    requires Valid(d, base) && Means(d, base, image) && |block| == r.length && Agrees(base, r.start, block, 0)
    requires r.start <= r.offset && r.offset + r.len <= r.start + r.length && r.offset + r.len <= |base|
    ensures var (disk, data) := Deliver(d, chunk, r, block);
            Valid(disk, base) && Means(disk, base, image) && data == image[r.offset..r.offset + r.len]
  {
    HandleReadMeans(d, base, image, chunk > 0, r.start, block, 0);
    DeliveredSlice(image, r, HandleRead(d, chunk > 0, r.start, block, 0).1);
  }

  lemma {:induction false} DeliveredSlice<T>(image: seq<T>, r: Request, whole: seq<T>)
    requires r.start <= r.offset && r.offset + r.len <= r.start + r.length && r.offset + r.len <= |image|
    requires |whole| == r.length && Agrees(image, r.start, whole, 0)
    ensures whole[r.offset - r.start..r.offset - r.start + r.len] == image[r.offset..r.offset + r.len]
  {
    var at := r.offset - r.start;
    var part := whole[at..at + r.len];
    forall k | 0 <= k < |part|
      ensures part[k] == image[r.offset..r.offset + r.len][k]
    {
      assert part[k] == whole[at + k];
    }
  }

  /** Every event keeps the structures consistent with the reference image and calls back with it. */
  lemma {:induction false} StepRefines<T>(s: System<T>, base: seq<T>, image: seq<T>, chunk: nat, e: Event<T>)
    requires Consistent(s, base, image) && Legal(s, base, e)
    ensures Consistent(Step(s, chunk, e).0, base, AfterEvent(image, e))
    ensures Faithful(AfterEvent(image, e), Step(s, chunk, e).1)
  {
    match e
    case Read(_, _, _) => ReadStep(s, base, image, chunk, e);
    case Loaded(_, _) => LoadedStep(s, base, image, chunk, e);
    case Write(start, data) =>
      SetMeans(s.disk, base, image, start, data, |data|);
      assert data[..|data|] == data;
  }

  // ---------------------------------------------------------------------------
  // Whole runs

  /** The states of a run are legal for its events. */
  ghost predicate LegalRun<T>(s: System<T>, base: seq<T>, chunk: nat, events: seq<Event<T>>)
    requires Reachable(s)
    decreases |events|
  {
    events == [] ||
    (Legal(s, base, events[0]) && (StepReachable(s, chunk, events[0]); LegalRun(Step(s, chunk, events[0]).0, base, chunk, events[1..])))
  }

  /** Every waiting read waits for a range around it. */
  predicate Reachable<T>(s: System<T>) {
    forall i :: 0 <= i < |s.pending| ==>
      var r := s.pending[i]; r.start <= r.offset && r.offset + r.len <= r.start + r.length
  }

  lemma {:induction false} StepReachable<T>(s: System<T>, chunk: nat, e: Event<T>)
    requires Reachable(s) && (e.Loaded? ==> e.index < |s.pending| && |e.block| == s.pending[e.index].length)
    ensures Reachable(Step(s, chunk, e).0)
  {
  }

  /** The callbacks of a run, one place for each event. */
  ghost function Run<T>(s: System<T>, base: seq<T>, chunk: nat, events: seq<Event<T>>): (System<T>, seq<Option<Reply<T>>>)
    requires Reachable(s) && LegalRun(s, base, chunk, events)
    decreases |events|
  {
    if events == [] then (s, [])
    else
      var (mid, reply) := Step(s, chunk, events[0]);
      StepReachable(s, chunk, events[0]);
      var (end, rest) := Run(mid, base, chunk, events[1..]);
      (end, [reply] + rest)
  }

  /** The reference image after the first n events. */
  function ImageAfter<T>(image: seq<T>, events: seq<Event<T>>, n: nat): seq<T>
    requires n <= |events|
  {
    if n == 0 then image else AfterEvent(ImageAfter(image, events, n - 1), events[n - 1])
  }

  lemma {:induction false} ImageAfterTail<T>(image: seq<T>, events: seq<Event<T>>, n: nat)
    requires n < |events|
    ensures ImageAfter(image, events, n + 1) == ImageAfter(AfterEvent(image, events[0]), events[1..], n)
  {
    var first, rest := AfterEvent(image, events[0]), events[1..];
    if n > 0 {
      ImageAfterTail(image, events, n - 1);
      assert rest[n - 1] == events[n];
      assert ImageAfter(first, rest, n) == AfterEvent(ImageAfter(first, rest, n - 1), rest[n - 1]);
    } else {
      assert ImageAfter(image, events, 0) == image;
    }
  }

  /**
   For every interleaving of read starts, writes and arrivals of data: each callback gets exactly
   the base image with all writes done by that moment over it, and the structures mean that image.
   */
  lemma {:induction false} EveryRunIsFaithful<T>(s: System<T>, base: seq<T>, image: seq<T>, chunk: nat, events: seq<Event<T>>)
    requires Reachable(s) && Consistent(s, base, image) && LegalRun(s, base, chunk, events)
    ensures var (end, replies) := Run(s, base, chunk, events);
            && |replies| == |events|
            && Consistent(end, base, ImageAfter(image, events, |events|))
            && forall k :: 0 <= k < |events| ==> Faithful(ImageAfter(image, events, k + 1), replies[k])
    decreases |events|
  {
    if events != [] {
      StepReachable(s, chunk, events[0]);
      StepRefines(s, base, image, chunk, events[0]);
      var (mid, reply) := Step(s, chunk, events[0]);
      var image' := AfterEvent(image, events[0]);
      EveryRunIsFaithful(mid, base, image', chunk, events[1..]);
      var rest := Run(mid, base, chunk, events[1..]).1;
      forall k | 0 <= k < |events|
        ensures Faithful(ImageAfter(image, events, k + 1), ([reply] + rest)[k])
      {
        ImageAfterTail(image, events, k);
        if k > 0 {
          assert Faithful(ImageAfter(image', events[1..], k - 1 + 1), rest[k - 1]);
        }
      }
      ImageAfterTail(image, events, |events| - 1);
    }
  }

  /** A fresh disk means its base. */
  lemma {:induction false} FreshDisk<T>(base: seq<T>)
    ensures var s := System<T>.System(Disk(map[], map[]), []); Reachable(s) && Consistent(s, base, base)
  {
  }

  // Every read is answered exactly once or still waits.

  /** How many reads of len blocks at offset wait, are asked for, are answered. */
  function Waiting(pending: seq<Request>, offset: nat, len: nat): nat {
    if pending == [] then 0
    else (if pending[0].offset == offset && pending[0].len == len then 1 else 0) + Waiting(pending[1..], offset, len)
  }

  function AskedBy<T>(e: Event<T>, offset: nat, len: nat): nat {
    if e.Read? && e.offset == offset && e.len == len then 1 else 0
  }

  function AnsweredBy<T>(reply: Option<Reply<T>>, offset: nat, len: nat): nat {
    if reply.Some? && reply.value.offset == offset && reply.value.len == len then 1 else 0
  }

  function Asked<T>(events: seq<Event<T>>, offset: nat, len: nat): nat {
    if events == [] then 0 else AskedBy(events[0], offset, len) + Asked(events[1..], offset, len)
  }

  function Answered<T>(replies: seq<Option<Reply<T>>>, offset: nat, len: nat): nat {
    if replies == [] then 0 else AnsweredBy(replies[0], offset, len) + Answered(replies[1..], offset, len)
  }

  lemma {:induction false} WaitingConcat(a: seq<Request>, b: seq<Request>, offset: nat, len: nat)
    ensures Waiting(a + b, offset, len) == Waiting(a, offset, len) + Waiting(b, offset, len)
  {
    if a == [] {
      assert a + b == b;
    } else {
      assert (a + b)[1..] == a[1..] + b;
      WaitingConcat(a[1..], b, offset, len);
    }
  }

  lemma {:induction false} StepConserves<T>(s: System<T>, chunk: nat, e: Event<T>, offset: nat, len: nat)
    requires Reachable(s) && (e.Loaded? ==> e.index < |s.pending| && |e.block| == s.pending[e.index].length)
    ensures var (s', reply) := Step(s, chunk, e);
            AnsweredBy(reply, offset, len) + Waiting(s'.pending, offset, len)
              == Waiting(s.pending, offset, len) + AskedBy(e, offset, len)
  {
    if e.Loaded? {
      var i := e.index;
      assert s.pending == s.pending[..i] + s.pending[i..];
      WaitingConcat(s.pending[..i], s.pending[i..], offset, len);
      WaitingConcat(s.pending[..i], s.pending[i + 1..], offset, len);
    } else if e.Read? {
      WaitingConcat(s.pending, [Widened(e.offset, e.len, chunk, e.keep)], offset, len);
    }
  }

  /** Over a whole run, the reads answered and those still waiting are the reads asked. */
  lemma {:induction false} EveryReadAnsweredOnce<T>(
    s: System<T>, base: seq<T>, chunk: nat, events: seq<Event<T>>, offset: nat, len: nat)
    requires Reachable(s) && LegalRun(s, base, chunk, events)
    ensures var (end, replies) := Run(s, base, chunk, events);
            Answered(replies, offset, len) + Waiting(end.pending, offset, len)
              == Waiting(s.pending, offset, len) + Asked(events, offset, len)
    decreases |events|
  {
    if events != [] {
      StepReachable(s, chunk, events[0]);
      StepConserves(s, chunk, events[0], offset, len);
      var (mid, reply) := Step(s, chunk, events[0]);
      EveryReadAnsweredOnce(mid, base, chunk, events[1..], offset, len);
      var rest := Run(mid, base, chunk, events[1..]).1;
      assert ([reply] + rest)[1..] == rest;
    }
  }
}
