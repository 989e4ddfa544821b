/**
 Cores that take turns on one live block of CPU state (src/cpu.js). The state of the active core is
 in the block, that of every other core in copies of its ranges; cores that were not started share
 the copy made at reset.
 */
module Cores {
  import opened Options
  import opened Bytes
  import opened StateLayout

  /** What save_core_state returns: one array for each range. */
  type Saved = seq<array<byte>>

  datatype CoreState = CoreState(running: bool, saved: Option<Saved>)

  // ---- N independent cores ----

  /** The contents of the ranges. */
  type Block = seq<seq<byte>>

  /** A core of its own: whether it was started, and its state. */
  datatype Cpu = Cpu(running: bool, block: Block)

  predicate Shaped(block: Block, ranges: seq<Span>) {
    |block| == |ranges| && forall r :: 0 <= r < |ranges| ==> |block[r]| == ranges[r].end - ranges[r].start
  }

  /** The byte at `start + q` as INIT leaves it. */
  function InitByte(fields: seq<Field>, p: int, current: byte, reset: byte): byte {
    if exists j :: 0 <= j < |fields| && fields[j].keep && fields[j].Has(p) then current else reset
  }

  function InitRange(fields: seq<Field>, start: int, current: seq<byte>, reset: seq<byte>): (r: seq<byte>)
    requires |current| == |reset|
    ensures |r| == |reset|
    ensures forall q :: 0 <= q < |reset| ==> r[q] == InitByte(fields, start + q, current[q], reset[q])
  {
    if reset == [] then []
    else
      var n := |reset| - 1;
      InitRange(fields, start, current[..n], reset[..n]) + [InitByte(fields, start + n, current[n], reset[n])]
  }

  /** INIT: fields marked so keep their value, all others take their reset value. */
  function InitBlock(fields: seq<Field>, ranges: seq<Span>, current: Block, reset: Block): (b: Block)
    requires Shaped(current, ranges) && Shaped(reset, ranges)
    ensures Shaped(b, ranges)
    ensures forall r :: 0 <= r < |ranges| ==> b[r] == InitRange(fields, ranges[r].start, current[r], reset[r])
  {
    if ranges == [] then []
    else
      var n := |ranges| - 1;
      InitBlock(fields, ranges[..n], current[..n], reset[..n])
      + [InitRange(fields, ranges[n].start, current[n], reset[n])]
  }

  function Find(ranges: seq<Span>, p: int): (k: nat)
    requires InSome(ranges, p)
    ensures k < |ranges| && ranges[k].Has(p)
  {
    if ranges[|ranges| - 1].Has(p) then |ranges| - 1 else Find(ranges[..|ranges| - 1], p)
  }

  /** The byte at address p changed. */
  function PutByte(ranges: seq<Span>, block: Block, p: int, v: byte): (b: Block)
    requires Shaped(block, ranges) && InSome(ranges, p)
    ensures Shaped(b, ranges)
  {
    var k := Find(ranges, p);
    block[k := block[k][p - ranges[k].start := v]]
  }

  function PutBytes(ranges: seq<Span>, block: Block, places: seq<nat>, values: seq<byte>): (b: Block)
    requires Shaped(block, ranges) && |places| == |values|
    requires forall k :: 0 <= k < |places| ==> InSome(ranges, places[k])
    ensures Shaped(b, ranges)
  {
    if places == [] then block
    else
      var n := |places| - 1;
      PutByte(ranges, PutBytes(ranges, block, places[..n], values[..n]), places[n], values[n])
  }

  /** Where a start-up IPI stores: sreg[CS], segment_offsets[CS], instruction_pointer and previous_ip. */
  const PLACES: seq<nat> := [670, 671, 740, 741, 742, 743, 556, 557, 558, 559, 560, 561, 562, 563]

  /** The number in four bytes, low byte first. */
  function FourOf(v: seq<byte>, k: nat): int
    requires k + 4 <= |v|
  {
    v[k] + (v[k + 1] as int) * 0x100 + (v[k + 2] as int) * 0x1_0000 + (v[k + 3] as int) * 0x100_0000
  }

  /** What it stores: the selector vector << 8, and vector << 12 three times. */
  function StartValues(vector: byte): (values: seq<byte>)
    ensures |values| == |PLACES|
    ensures values[0] + (values[1] as int) * 0x100 == (vector as int) * 0x100
    ensures FourOf(values, 2) == FourOf(values, 6) == FourOf(values, 10) == (vector as int) * 0x1000
  {
    var word := [0, vector % 16 * 16, vector / 16, 0];
    [0, vector] + word + word + word
  }

  datatype Layout = Layout(fields: seq<Field>, ranges: seq<Span>) {
    ghost predicate Ok() {
      && StateLayout.Valid(fields) && ranges == Ranges(fields) && Ordered(ranges)
      && (forall k :: 0 <= k < |ranges| ==> ranges[k].end <= SIZE)
      && (forall k :: 0 <= k < |PLACES| ==> InSome(ranges, PLACES[k]))
    }
  }

  /** What happens to a machine. */
  datatype Op =
    | Store(core: nat, place: nat, value: byte)
    | Events(core: nat, init: bool, sipi: bool, vector: byte, shutdown: bool)
    | Reset

  /** Stores go to core state. */
  ghost predicate Placed(l: Layout, op: Op) {
    op.Store? ==> InSome(l.ranges, op.place)
  }

  /** INIT as one core sees it. */
  ghost function InitOne(l: Layout, reset: Block, c: Cpu, i: nat): (r: Cpu)
    requires l.Ok() && Shaped(reset, l.ranges) && Shaped(c.block, l.ranges)
    ensures Shaped(r.block, l.ranges)
  {
    Cpu(i == 0, InitBlock(l.fields, l.ranges, c.block, reset))
  }

  /** A start-up IPI: ignored unless the core waits for one. */
  ghost function StartOne(l: Layout, c: Cpu, vector: byte): (r: Cpu)
    requires l.Ok() && Shaped(c.block, l.ranges)
    ensures Shaped(r.block, l.ranges)
  {
    if c.running then c else Cpu(true, PutBytes(l.ranges, c.block, PLACES, StartValues(vector)))
  }

  ghost function EventsOne(l: Layout, reset: Block, c: Cpu, op: Op, i: nat): (r: Cpu)
    requires l.Ok() && Shaped(reset, l.ranges) && Shaped(c.block, l.ranges) && op.Events?
    ensures Shaped(r.block, l.ranges)
  {
    if op.init && op.shutdown then c
    else
      var d := if op.init then InitOne(l, reset, c, i) else c;
      if op.sipi then StartOne(l, d, op.vector) else d
  }

  /** What an operation does to core i alone: no other core, nor which one is active, matters. */
  ghost function StepOne(l: Layout, reset: Block, c: Cpu, op: Op, i: nat): (r: Cpu)
    requires l.Ok() && Shaped(reset, l.ranges) && Shaped(c.block, l.ranges) && Placed(l, op)
    ensures Shaped(r.block, l.ranges)
  {
    match op
    case Store(core, place, value) => if core == i then c.(block := PutByte(l.ranges, c.block, place, value)) else c
    case Events(core, _, _, _, _) => if core == i then EventsOne(l, reset, c, op, i) else c
    case Reset => Cpu(i == 0, if i == 0 then c.block else reset)
  }

  ghost function RunOne(l: Layout, reset: Block, c: Cpu, ops: seq<Op>, i: nat): (r: Cpu)
    requires l.Ok() && Shaped(reset, l.ranges) && Shaped(c.block, l.ranges)
    requires forall k :: 0 <= k < |ops| ==> Placed(l, ops[k])
    ensures Shaped(r.block, l.ranges)
  {
    if ops == [] then c
    else StepOne(l, reset, RunOne(l, reset, c, ops[..|ops| - 1], i), ops[|ops| - 1], i)
  }

  /** The operations on core i. */
  ghost function Own(l: Layout, ops: seq<Op>, i: nat): (r: seq<Op>)
    requires forall k :: 0 <= k < |ops| ==> Placed(l, ops[k])
    ensures forall k :: 0 <= k < |r| ==> Placed(l, r[k]) && (r[k].Reset? || r[k].core == i)
  {
    if ops == [] then []
    else
      var last := ops[|ops| - 1];
      Own(l, ops[..|ops| - 1], i) + if last.Reset? || last.core == i then [last] else []
  }

  /** What other cores do changes nothing. */
  lemma {:induction false} OthersDoNotMatter(l: Layout, reset: Block, c: Cpu, ops: seq<Op>, i: nat)
    requires l.Ok() && Shaped(reset, l.ranges) && Shaped(c.block, l.ranges)
    requires forall k :: 0 <= k < |ops| ==> Placed(l, ops[k])
    ensures RunOne(l, reset, c, ops, i) == RunOne(l, reset, c, Own(l, ops, i), i)
  {
    if ops != [] {
      var front, last := ops[..|ops| - 1], ops[|ops| - 1];
      OthersDoNotMatter(l, reset, c, front, i);
      if last.Reset? || last.core == i {
        var own := Own(l, ops, i);
        assert own[..|own| - 1] == Own(l, front, i) && own[|own| - 1] == last;
      } else {
        assert Own(l, ops, i) == Own(l, front, i);
      }
    }
  }

  function ByteAt(ranges: seq<Span>, block: Block, p: int): byte
    requires Shaped(block, ranges) && InSome(ranges, p)
  {
    block[Find(ranges, p)][p - ranges[Find(ranges, p)].start]
  }

  lemma {:induction false} PutByteMeans(ranges: seq<Span>, block: Block, p: int, v: byte, q: int)
    requires Ordered(ranges) && Shaped(block, ranges) && InSome(ranges, p) && InSome(ranges, q)
    ensures ByteAt(ranges, PutByte(ranges, block, p, v), q) == if q == p then v else ByteAt(ranges, block, q)
  {
  }

  lemma {:induction false} PutBytesMeans(ranges: seq<Span>, block: Block, places: seq<nat>, values: seq<byte>, q: nat)
    requires Ordered(ranges) && Shaped(block, ranges) && |places| == |values| && InSome(ranges, q)
    requires forall k :: 0 <= k < |places| ==> InSome(ranges, places[k])
    requires forall j, k :: 0 <= j < k < |places| ==> places[j] != places[k]
    ensures PutAt(places, values, q, ByteAt(ranges, block, q), ByteAt(ranges, PutBytes(ranges, block, places, values), q))
  {
    if places != [] {
      var n := |places| - 1;
      var front := PutBytes(ranges, block, places[..n], values[..n]);
      PutBytesMeans(ranges, block, places[..n], values[..n], q);
      PutByteMeans(ranges, front, places[n], values[n], q);
      PutAtNext(places, values, q, ByteAt(ranges, block, q), ByteAt(ranges, front, q));
    }
  }

  /** What is at q after values are put at places: the one that was put there, or what was there before. */
  ghost predicate PutAt(places: seq<nat>, values: seq<byte>, q: nat, before: byte, after: byte)
    requires |places| == |values|
  {
    && (forall k :: 0 <= k < |places| && places[k] == q ==> after == values[k])
    && (q !in places ==> after == before)
  }

  lemma {:induction false} PutAtNext(places: seq<nat>, values: seq<byte>, q: nat, before: byte, after: byte)
    requires 0 < |places| == |values| && forall j, k :: 0 <= j < k < |places| ==> places[j] != places[k]
    requires PutAt(places[..|places| - 1], values[..|places| - 1], q, before, after)
    ensures PutAt(places, values, q, before, if q == places[|places| - 1] then values[|places| - 1] else after)
  {
    var n := |places| - 1;
    assert forall k :: 0 <= k < n && places[k] == q ==> places[..n][k] == q;
  }

  // Fields of the state block, and the index of CS.
  const INSTRUCTION_POINTER: nat := 556
  const PREVIOUS_IP: nat := 560
  const SREG: nat := 668
  const SEGMENT_OFFSETS: nat := 736
  const REG_CS: nat := 1

  /** A byte of sreg[CS], segment_offsets[CS], instruction_pointer or previous_ip. */
  predicate StartByte(q: int) {
    || SREG + 2 * REG_CS <= q < SREG + 2 * REG_CS + 2 || SEGMENT_OFFSETS + 4 * REG_CS <= q < SEGMENT_OFFSETS + 4 * REG_CS + 4
    || INSTRUCTION_POINTER <= q < INSTRUCTION_POINTER + 4 || PREVIOUS_IP <= q < PREVIOUS_IP + 4
  }

  /** These are the bytes that a start-up IPI stores. */
  lemma {:induction false} PlacesMeaning(q: int)
    ensures StartByte(q) <==> q in PLACES
  {
    var places := PLACES;
    assert forall k :: 0 <= k < |places| ==> StartByte(places[k]);
    if StartByte(q) {
      var k := if q >= 740 then q - 738 else if q >= 670 then q - 670 else q - 550;
      assert places[k] == q;
    }
  }

  /** The bytes of core state by address, and -1 elsewhere. */
  ghost function Look(ranges: seq<Span>, block: Block): int -> int
    requires Shaped(block, ranges)
  {
    (q: int) => if Shaped(block, ranges) && InSome(ranges, q) then ByteAt(ranges, block, q) else -1
  }

  function Half(b: int -> int, p: int): int {
    b(p) + 0x100 * b(p + 1)
  }

  function Word(b: int -> int, p: int): int {
    b(p) + 0x100 * b(p + 1) + 0x1_0000 * b(p + 2) + 0x100_0000 * b(p + 3)
  }

  /** CS is the vector times 0x100; its base and both instruction pointers are the vector times 0x1000. */
  predicate AtVector(b: int -> int, vector: byte) {
    && Half(b, SREG + 2 * REG_CS) == (vector as int) * 0x100
    && Word(b, SEGMENT_OFFSETS + 4 * REG_CS) == (vector as int) * 0x1000
    && Word(b, INSTRUCTION_POINTER) == (vector as int) * 0x1000
    && Word(b, PREVIOUS_IP) == (vector as int) * 0x1000
  }

  /** The values are at their places, and nothing else changed. */
  ghost predicate Stores(before: int -> int, after: int -> int, places: seq<nat>, values: seq<byte>)
    requires |places| == |values|
  {
    && (forall k :: 0 <= k < |places| ==> after(places[k]) == values[k])
    && (forall q: int :: q !in places ==> after(q) == before(q))
  }

  lemma {:induction false} PutBytesStore(ranges: seq<Span>, block: Block, places: seq<nat>, values: seq<byte>)
    requires Ordered(ranges) && Shaped(block, ranges) && |places| == |values|
    requires forall k :: 0 <= k < |places| ==> InSome(ranges, places[k])
    requires forall j, k :: 0 <= j < k < |places| ==> places[j] != places[k]
    ensures Stores(Look(ranges, block), Look(ranges, PutBytes(ranges, block, places, values)), places, values)
  {
    forall q: int | InSome(ranges, q)
      ensures q >= 0
      ensures PutAt(places, values, q, ByteAt(ranges, block, q), ByteAt(ranges, PutBytes(ranges, block, places, values), q))
    {
      PutBytesMeans(ranges, block, places, values, q);
    }
  }

  /** The places of the selector and of three addresses. */
  predicate FieldPlaces(p: seq<nat>) {
    && |p| == 14 && p[0] == SREG + 2 * REG_CS && p[1] == p[0] + 1
    && p[2] == SEGMENT_OFFSETS + 4 * REG_CS && p[3] == p[2] + 1 && p[4] == p[2] + 2 && p[5] == p[2] + 3
    && p[6] == INSTRUCTION_POINTER && p[7] == p[6] + 1 && p[8] == p[6] + 2 && p[9] == p[6] + 3
    && p[10] == PREVIOUS_IP && p[11] == p[10] + 1 && p[12] == p[10] + 2 && p[13] == p[10] + 3
  }

  lemma {:induction false} WordStored(b: int -> int, p: seq<nat>, v: seq<byte>, k: nat)
    requires k + 4 <= |p| == |v| && (forall j :: 0 <= j < |p| ==> b(p[j]) == v[j])
    requires p[k + 1] == p[k] + 1 && p[k + 2] == p[k] + 2 && p[k + 3] == p[k] + 3
    ensures Word(b, p[k]) == FourOf(v, k)
  {
    assert b(p[k]) == v[k] && b(p[k + 1]) == v[k + 1] && b(p[k + 2]) == v[k + 2] && b(p[k + 3]) == v[k + 3];
  }

  lemma {:induction false} NumbersStored(b: int -> int, p: seq<nat>, v: seq<byte>, vector: byte)
    requires FieldPlaces(p) && |v| == 14 && (forall j :: 0 <= j < |p| ==> b(p[j]) == v[j])
    requires v[0] + (v[1] as int) * 0x100 == (vector as int) * 0x100
    requires FourOf(v, 2) == FourOf(v, 6) == FourOf(v, 10) == (vector as int) * 0x1000
    ensures AtVector(b, vector)
  {
    assert b(p[0]) == v[0] && b(p[1]) == v[1];
    WordStored(b, p, v, 2);
    WordStored(b, p, v, 6);
    WordStored(b, p, v, 10);
  }

  lemma {:induction false} StoredStart(before: int -> int, after: int -> int, vector: byte)
    requires Stores(before, after, PLACES, StartValues(vector))
    ensures AfterStart(before, after, vector)
  {
    NumbersStored(after, PLACES, StartValues(vector), vector);
    forall q | !StartByte(q)
      ensures after(q) == before(q)
    {
      PlacesMeaning(q);
    }
  }

  /** A core that is started is at the vector, and has the rest of its state. */
  lemma {:induction false} StartedAt(l: Layout, c: Cpu, vector: byte)
    requires l.Ok() && Shaped(c.block, l.ranges) && !c.running
    ensures StartOne(l, c, vector).running
    ensures AfterStart(Look(l.ranges, c.block), Look(l.ranges, StartOne(l, c, vector).block), vector)
  {
    PutBytesStore(l.ranges, c.block, PLACES, StartValues(vector));
    StoredStart(Look(l.ranges, c.block), Look(l.ranges, StartOne(l, c, vector).block), vector);
  }

  predicate KeptByte(fields: seq<Field>, q: int) {
    exists j :: 0 <= j < |fields| && fields[j].keep && fields[j].Has(q)
  }

  /** After INIT: current in fields that are kept, and the reset value elsewhere. */
  ghost predicate Inited(fields: seq<Field>, reset: int -> int, before: int -> int, after: int -> int, q: int) {
    after(q) == if KeptByte(fields, q) then before(q) else reset(q)
  }

  lemma {:induction false} InitBlockByte(l: Layout, reset: Block, current: Block, q: int)
    requires Shaped(reset, l.ranges) && Shaped(current, l.ranges)
    ensures Inited(l.fields, Look(l.ranges, reset), Look(l.ranges, current),
                   Look(l.ranges, InitBlock(l.fields, l.ranges, current, reset)), q)
  {
    if InSome(l.ranges, q) {
      var k := Find(l.ranges, q);
      var b := InitBlock(l.fields, l.ranges, current, reset);
      assert b[k] == InitRange(l.fields, l.ranges[k].start, current[k], reset[k]);
      assert b[k][q - l.ranges[k].start]
          == InitByte(l.fields, q, current[k][q - l.ranges[k].start], reset[k][q - l.ranges[k].start]);
    }
  }

  /**
   What INIT and start-up IPIs do to a core. INIT is ignored in shutdown. After it the first core runs and any
   other one waits, with kept fields current and all other bytes at reset; a start-up IPI, together
   with it or later, starts a core that waits, at the vector, and does nothing to one that runs.
   */
  lemma {:induction false} EventsMean(l: Layout, reset: Block, c: Cpu, op: Op, i: nat)
    requires l.Ok() && Shaped(reset, l.ranges) && Shaped(c.block, l.ranges) && op.Events?
    ensures var r := EventsOne(l, reset, c, op, i);
            var before, after := Look(l.ranges, c.block), Look(l.ranges, r.block);
            if op.init && op.shutdown then r == c
            else if op.init then
              (r.running <==> i == 0 || op.sipi) && AfterInit(l.fields, Look(l.ranges, reset), before, after, i != 0 && op.sipi, op.vector)
            else if op.sipi && !c.running then r.running && AfterStart(before, after, op.vector)
            else r == c
  {
    if op.init && !op.shutdown {
      InitMeans(l, reset, c, i);
      var d := InitOne(l, reset, c, i);
      if op.sipi && i != 0 {
        StartedAt(l, d, op.vector);
        InitThenStart(l.fields, Look(l.ranges, reset), Look(l.ranges, c.block), Look(l.ranges, d.block),
                      Look(l.ranges, StartOne(l, d, op.vector).block), op.vector);
      }
    } else if op.sipi && !c.running {
      StartedAt(l, c, op.vector);
    }
  }

  /** A core that is started is at the vector and has the rest of its state. */
  ghost predicate AfterStart(before: int -> int, after: int -> int, vector: byte) {
    AtVector(after, vector) && forall q :: !StartByte(q) ==> after(q) == before(q)
  }

  /** INIT, and if the core is started too, the vector in place of the bytes for it. */
  ghost predicate AfterInit(fields: seq<Field>, reset: int -> int, before: int -> int, after: int -> int, starts: bool, vector: byte) {
    && (starts ==> AtVector(after, vector))
    && (forall q :: !(starts && StartByte(q)) ==> Inited(fields, reset, before, after, q))
  }

  lemma {:induction false} InitMeans(l: Layout, reset: Block, c: Cpu, i: nat)
    requires l.Ok() && Shaped(reset, l.ranges) && Shaped(c.block, l.ranges)
    ensures InitOne(l, reset, c, i).running <==> i == 0
    ensures AfterInit(l.fields, Look(l.ranges, reset), Look(l.ranges, c.block), Look(l.ranges, InitOne(l, reset, c, i).block), false, 0)
  {
    forall q: int
      ensures Inited(l.fields, Look(l.ranges, reset), Look(l.ranges, c.block), Look(l.ranges, InitOne(l, reset, c, i).block), q)
    {
      InitBlockByte(l, reset, c.block, q);
    }
  }

  lemma {:induction false} InitThenStart(fields: seq<Field>, reset: int -> int, before: int -> int, middle: int -> int, after: int -> int, vector: byte)
    requires AfterInit(fields, reset, before, middle, false, 0) && AfterStart(middle, after, vector)
    ensures AfterInit(fields, reset, before, after, true, vector)
  {
    forall q | !StartByte(q)
      ensures Inited(fields, reset, before, after, q)
    {
      assert Inited(fields, reset, before, middle, q);
    }
  }

  // ---- Copies of the state ----

  method Slice(memory: array<byte>, lo: nat, hi: nat) returns (a: array<byte>)
    requires lo <= hi <= memory.Length
    ensures fresh(a) && a[..] == memory[lo..hi]
  {
    a := new byte[hi - lo];
    var i := 0;
    while i < hi - lo
      invariant 0 <= i <= hi - lo && a.Length == hi - lo && fresh(a)
      invariant a[..i] == memory[lo..lo + i]
    {
      a[i] := memory[lo + i];
      i := i + 1;
    }
  }

  /** Copy all of src to dst from index `at` on. */
  method SetAt(dst: array<byte>, src: array<byte>, at: nat)
    requires src != dst && at + src.Length <= dst.Length
    modifies dst
    ensures forall p :: 0 <= p < dst.Length ==> dst[p] == if at <= p < at + src.Length then src[p - at] else old(dst[p])
  {
    var i := 0;
    while i < src.Length
      invariant 0 <= i <= src.Length
      invariant forall p :: 0 <= p < dst.Length ==> dst[p] == if at <= p < at + i then src[p - at] else old(dst[p])
    {
      dst[at + i] := src[i];
      i := i + 1;
    }
  }

  predicate Bounded(ranges: seq<Span>, size: nat) {
    Ordered(ranges) && forall k :: 0 <= k < |ranges| ==> ranges[k].end <= size
  }

  method SaveCoreState(memory: array<byte>, ranges: seq<Span>) returns (s: Saved)
    requires Bounded(ranges, memory.Length)
    ensures |s| == |ranges|
    ensures forall r :: 0 <= r < |s| ==> fresh(s[r]) && s[r][..] == memory[ranges[r].start..ranges[r].end]
  {
    s := [];
    var i := 0;
    while i < |ranges|
      invariant 0 <= i <= |ranges| && |s| == i
      invariant forall r :: 0 <= r < i ==> fresh(s[r]) && s[r][..] == memory[ranges[r].start..ranges[r].end]
    {
      var a := Slice(memory, ranges[i].start, ranges[i].end);
      s := s + [a];
      i := i + 1;
    }
  }

  /** Range k of memory is what was saved. */
  ghost predicate Loaded(memory: array<byte>, span: Span, a: array<byte>)
    requires span.start <= span.end <= memory.Length
    reads memory, a
  {
    a.Length == span.end - span.start && memory[span.start..span.end] == a[..]
  }

  method LoadCoreState(memory: array<byte>, ranges: seq<Span>, s: Saved)
    requires Bounded(ranges, memory.Length) && |s| == |ranges| && memory !in s
    requires forall r :: 0 <= r < |s| ==> s[r].Length == ranges[r].end - ranges[r].start
    modifies memory
    ensures forall r :: 0 <= r < |s| ==> Loaded(memory, ranges[r], s[r])
    ensures forall p :: 0 <= p < memory.Length && !InSome(ranges, p) ==> memory[p] == old(memory[p])
  {
    var i := 0;
    while i < |ranges|
      invariant 0 <= i <= |ranges|
      invariant forall r :: 0 <= r < i ==> Loaded(memory, ranges[r], s[r])
      invariant forall p :: 0 <= p < memory.Length && !InSome(ranges, p) ==> memory[p] == old(memory[p])
    {
      assert s[i] != memory;
      ghost var before := memory[..];
      SetAt(memory, s[i], ranges[i].start);
      assert memory[ranges[i].start..ranges[i].end] == s[i][..];
      forall r | 0 <= r < i
        ensures Loaded(memory, ranges[r], s[r])
      {
        SpanOrder(ranges, r, i);
        assert before[ranges[r].start..ranges[r].end] == s[r][..];
        assert memory[ranges[r].start..ranges[r].end] == before[ranges[r].start..ranges[r].end];
      }
      forall p | 0 <= p < memory.Length && !InSome(ranges, p)
        ensures memory[p] == before[p]
      {
        assert !ranges[i].Has(p);
      }
      i := i + 1;
    }
  }

  predicate Distinct(s: Saved) {
    forall i, j :: 0 <= i < j < |s| ==> s[i] != s[j]
  }

  /** New arrays with the same contents. */
  method CopySaved(s: Saved) returns (next: Saved)
    ensures |next| == |s| && Distinct(next)
    ensures forall r :: 0 <= r < |s| ==> fresh(next[r]) && next[r][..] == s[r][..]
  {
    next := [];
    var i := 0;
    while i < |s|
      invariant 0 <= i <= |s| && |next| == i && Distinct(next)
      invariant forall r :: 0 <= r < i ==> fresh(next[r]) && next[r][..] == s[r][..]
    {
      var a := Slice(s[i], 0, s[i].Length);
      next := next + [a];
      i := i + 1;
    }
  }

  /** CORE_STATE_RANGES.findIndex: the first range that holds the span. */
  method FindIndex(ranges: seq<Span>, span: Span) returns (k: nat)
    requires InsideOne(span, ranges)
    ensures k < |ranges| && span.Within(ranges[k])
  {
    k := 0;
    while !(ranges[k].start <= span.start && span.end <= ranges[k].end)
      invariant k < |ranges| && forall j :: 0 <= j < k ==> !span.Within(ranges[j])
      decreases |ranges| - k
    {
      assert exists j :: k < j < |ranges| && span.Within(ranges[j]);
      k := k + 1;
    }
  }

  /** The bytes of one range while the kept spans are copied: those in `spans` are current, the others reset. */
  predicate Mixed(spans: seq<Span>, start: int, now: seq<byte>, current: seq<byte>, reset: seq<byte>) {
    |now| == |current| == |reset| &&
    forall q :: 0 <= q < |now| ==> now[q] == if InSome(spans, start + q) then current[q] else reset[q]
  }

  lemma {:induction false} InSomeNext(spans: seq<Span>, k: nat, p: int)
    requires k < |spans|
    ensures InSome(spans[..k + 1], p) <==> InSome(spans[..k], p) || spans[k].Has(p)
  {
    assert spans[..k + 1][k] == spans[k];
    if InSome(spans[..k], p) {
      var j :| 0 <= j < k && spans[..k][j].Has(p);
      assert spans[..k + 1][j].Has(p);
    }
    if InSome(spans[..k + 1], p) && !spans[k].Has(p) {
      var j :| 0 <= j < k + 1 && spans[..k + 1][j].Has(p);
      assert spans[..k][j].Has(p);
    }
  }

  /** One more span copied in the range that holds it. */
  lemma {:induction false} MixedCopied(spans: seq<Span>, k: nat, start: nat, before: seq<byte>, now: seq<byte>, current: seq<byte>, reset: seq<byte>)
    requires k < |spans| && Mixed(spans[..k], start, before, current, reset) && |now| == |before|
    requires forall q :: 0 <= q < |now| ==> now[q] == if spans[k].Has(start + q) then current[q] else before[q]
    ensures Mixed(spans[..k + 1], start, now, current, reset)
  {
    forall q | 0 <= q < |now|
      ensures now[q] == if InSome(spans[..k + 1], start + q) then current[q] else reset[q]
    {
      InSomeNext(spans, k, start + q);
    }
  }

  /** The same stretch of both arrays: copied from one to the other. */
  method CopyPart(next: array<byte>, current: array<byte>, at: nat, size: nat)
    requires next != current && at + size <= next.Length == current.Length
    modifies next
    ensures forall q :: 0 <= q < next.Length ==> next[q] == if at <= q < at + size then current[q] else old(next[q])
  {
    var part := Slice(current, at, at + size);
    SetAt(next, part, at);
    assert forall q :: 0 <= q < size ==> part[q] == current[..][at + q];
    forall q | at <= q < at + size
      ensures next[q] == current[q]
    {
      assert part[q - at] == current[at + (q - at)];
    }
  }

  predicate SameShape(ranges: seq<Span>, s: Saved) {
    |s| == |ranges| && forall r :: 0 <= r < |s| ==> s[r].Length == ranges[r].end - ranges[r].start
  }

  /** One kept span, copied to the range that holds it; no other range has a byte of it. */
  method KeepSpan(ranges: seq<Span>, span: Span, next: Saved, current: Saved)
    requires Ordered(ranges) && SameShape(ranges, next) && SameShape(ranges, current) && Distinct(next)
    requires InsideOne(span, ranges) && span.start <= span.end && forall a :: a in current ==> a !in next
    modifies next
    ensures forall r, q :: 0 <= r < |next| && 0 <= q < next[r].Length ==>
              next[r][q] == if span.Has(ranges[r].start + q) then current[r][q] else old(next[r][q])
  {
    var index := FindIndex(ranges, span);
    var at := span.start - ranges[index].start;
    assert current[index] in current;
    CopyPart(next[index], current[index], at, span.end - span.start);
    forall r, q | 0 <= r < |next| && 0 <= q < next[r].Length
      ensures next[r][q] == if span.Has(ranges[r].start + q) then current[r][q] else old(next[r][q])
    {
      if r < index {
        SpanOrder(ranges, r, index);
      } else if index < r {
        SpanOrder(ranges, index, r);
      }
    }
  }

  method KeepSpans(ranges: seq<Span>, kept: seq<Span>, next: Saved, current: Saved)
    requires Ordered(ranges) && SameShape(ranges, next) && SameShape(ranges, current) && Distinct(next)
    requires forall k :: 0 <= k < |kept| ==> InsideOne(kept[k], ranges) && kept[k].start <= kept[k].end
    requires forall a :: a in current ==> a !in next
    modifies next
    ensures forall r :: 0 <= r < |next| ==> Mixed(kept, ranges[r].start, next[r][..], current[r][..], old(next[r][..]))
  {
    var i := 0;
    while i < |kept|
      invariant 0 <= i <= |kept|
      invariant forall r :: 0 <= r < |next| ==> Mixed(kept[..i], ranges[r].start, next[r][..], current[r][..], old(next[r][..]))
    {
      label before:
      KeepSpan(ranges, kept[i], next, current);
      forall r | 0 <= r < |next|
        ensures Mixed(kept[..i + 1], ranges[r].start, next[r][..], current[r][..], old(next[r][..]))
      {
        assert current[r] in current;
        MixedCopied(kept, i, ranges[r].start, old@before(next[r][..]), next[r][..], current[r][..], old(next[r][..]));
      }
      i := i + 1;
    }
    assert kept[..|kept|] == kept;
  }

  /** The state a core has after INIT, in arrays of its own. */
  method InitState(fields: seq<Field>, ranges: seq<Span>, kept: seq<Span>, reset: Saved, current: Saved) returns (next: Saved)
    requires StateLayout.Valid(fields) && Fits(fields) && ranges == Ranges(fields) && kept == Kept(fields)
    requires Ordered(ranges) && SameShape(ranges, reset) && SameShape(ranges, current)
    ensures SameShape(ranges, next)
    ensures forall r :: 0 <= r < |next| ==> fresh(next[r])
    ensures forall r :: 0 <= r < |next| ==> next[r][..] == InitRange(fields, ranges[r].start, current[r][..], reset[r][..])
  {
    next := CopySaved(reset);
    assert forall r :: 0 <= r < |next| ==> next[r].Length == |reset[r][..]|;
    InsideOneRange(fields);
    KeptOrdered(fields, |fields|);
    KeepSpans(ranges, kept, next, current);
    forall r | 0 <= r < |next|
      ensures next[r][..] == InitRange(fields, ranges[r].start, current[r][..], reset[r][..])
    {
      MixedIsInit(fields, ranges[r].start, next[r][..], current[r][..], reset[r][..]);
    }
  }

  lemma {:induction false} MixedIsInit(fields: seq<Field>, start: int, now: seq<byte>, current: seq<byte>, reset: seq<byte>)
    requires StateLayout.Valid(fields) && Mixed(Kept(fields), start, now, current, reset)
    ensures now == InitRange(fields, start, current, reset)
  {
    forall q | 0 <= q < |now|
      ensures now[q] == InitByte(fields, start + q, current[q], reset[q])
    {
      KeptMeans(fields, |fields|, start + q);
    }
  }

  // ---- The machine ----

  /** The bytes of memory in the ranges are the block. */
  predicate LiveIn(memory: seq<byte>, ranges: seq<Span>, block: Block)
    requires Bounded(ranges, |memory|)
  {
    |block| == |ranges| && forall r :: 0 <= r < |ranges| ==> memory[ranges[r].start..ranges[r].end] == block[r]
  }

  function Contents(memory: seq<byte>, ranges: seq<Span>): (block: Block)
    requires Bounded(ranges, |memory|)
    ensures Shaped(block, ranges) && LiveIn(memory, ranges, block)
  {
    if ranges == [] then []
    else
      var n := |ranges| - 1;
      Contents(memory, ranges[..n]) + [memory[ranges[n].start..ranges[n].end]]
  }

  lemma {:induction false} PutByteLive(memory: seq<byte>, ranges: seq<Span>, block: Block, p: nat, v: byte)
    requires Bounded(ranges, |memory|) && Shaped(block, ranges) && LiveIn(memory, ranges, block)
    requires InSome(ranges, p) && p < |memory|
    ensures LiveIn(memory[p := v], ranges, PutByte(ranges, block, p, v))
  {
    var k := Find(ranges, p);
    forall r | 0 <= r < |ranges|
      ensures memory[p := v][ranges[r].start..ranges[r].end] == PutByte(ranges, block, p, v)[r]
    {
      if r < k {
        SpanOrder(ranges, r, k);
      } else if k < r {
        SpanOrder(ranges, k, r);
      }
    }
  }

  class Machine {
    const layout: Layout
    const kept: seq<Span>
    /** The live state block. */
    const memory: array<byte>
    /** core_reset_state, which parked cores share. */
    const resetState: Saved
    var cores: seq<CoreState>
    var active: nat

    /** The machine as cores of their own, and the state they have at reset. */
    ghost var model: seq<Cpu>
    ghost const reset: Block
    /** The arrays that hold parked state. */
    ghost var parked: set<array<byte>>

    ghost predicate Fixed() {
      && layout.Ok() && Fits(layout.fields) && kept == Kept(layout.fields)
      && SIZE <= memory.Length && Shaped(reset, layout.ranges) && Bounded(layout.ranges, memory.Length)
    }

    /** Parked state with the given contents. */
    ghost predicate Holds(s: Saved, block: Block)
      reads this`parked, parked
    {
      |s| == |block| == |layout.ranges| && forall r :: 0 <= r < |s| ==> s[r] in parked && s[r][..] == block[r]
    }

    /** Core i has its state in one place: the live block exactly if it is the active core. */
    ghost predicate CoreOk(i: nat)
      requires Fixed() && i < |cores| && i < |model|
      reads this, memory, parked
    {
      && model[i].running == cores[i].running && (cores[i].saved.None? <==> i == active)
      && if i == active then LiveIn(memory[..], layout.ranges, model[i].block)
         else Holds(cores[i].saved.value, model[i].block)
    }

    ghost predicate Shapes()
      reads this`model
    {
      forall i :: 0 <= i < |model| ==> Shaped(model[i].block, layout.ranges)
    }

    ghost predicate Valid()
      reads this, memory, parked
    {
      && Fixed() && active < |cores| == |model| && Shapes() && memory !in parked && Holds(resetState, reset)
      && forall i :: 0 <= i < |cores| ==> CoreOk(i)
    }

    /** No byte outside the ranges changed. */
    twostate predicate OthersSame()
      reads memory
    {
      forall p :: 0 <= p < memory.Length && !InSome(layout.ranges, p) ==> memory[p] == old(memory[p])
    }

    /** New arrays with parked state. */
    method Adopt(s: Saved)
      requires Valid() && memory !in s
      modifies this`parked
      ensures Valid() && parked == old(parked) + set a | a in s
    {
      parked := parked + set a | a in s;
      forall i | 0 <= i < |cores|
        ensures CoreOk(i)
      {
        assert old(CoreOk(i));
      }
    }

    /** The live state, saved in new arrays. */
    method Park() returns (mine: Saved)
      requires Valid()
      modifies this`parked
      ensures Valid() && Holds(mine, model[active].block)
      ensures old(parked) <= parked && fresh(parked - old(parked))
    {
      assert CoreOk(active);
      mine := SaveCoreState(memory, layout.ranges);
      assert forall r :: 0 <= r < |mine| ==> mine[r][..] == model[active].block[r];
      Adopt(mine);
    }

    /** Saved state, made live. */
    method Unpark(s: Saved, ghost block: Block)
      requires Fixed() && memory !in parked && Shaped(block, layout.ranges) && Holds(s, block)
      modifies memory
      ensures LiveIn(memory[..], layout.ranges, block) && OthersSame()
    {
      assert forall r :: 0 <= r < |s| ==> s[r].Length == |block[r]|;
      LoadCoreState(memory, layout.ranges, s);
      forall r | 0 <= r < |s|
        ensures memory[..][layout.ranges[r].start..layout.ranges[r].end] == block[r]
      {
        assert Loaded(memory, layout.ranges[r], s[r]);
      }
    }

    /** switch_core: which core is active changes, and nothing else about any core. */
    method SwitchCore(core: nat)
      requires Valid() && core < |cores|
      modifies this`cores, this`active, this`parked, memory
      ensures Valid() && active == core && |cores| == |old(cores)| && OthersSame()
      ensures old(parked) <= parked && fresh(parked - old(parked))
    {
      if core == active {
        return;
      }
      var mine := Park();
      label parked:
      assert CoreOk(core);
      Unpark(cores[core].saved.value, model[core].block);
      cores := cores[active := cores[active].(saved := Some(mine))];
      cores := cores[core := cores[core].(saved := None)];
      active := core;
      forall i | 0 <= i < |cores|
        ensures CoreOk(i)
      {
        assert old@parked(CoreOk(i));
      }
    }

    /** The active core changes a byte of its state. */
    method StoreByte(p: nat, v: byte)
      requires Valid() && InSome(layout.ranges, p)
      modifies this`model, memory
      ensures Valid() && OthersSame()
      ensures model == old(model)[active := old(model[active]).(block := PutByte(layout.ranges, old(model[active].block), p, v))]
    {
      assert CoreOk(active);
      PutByteLive(memory[..], layout.ranges, model[active].block, p, v);
      ghost var now := memory[..][p := v];
      memory[p] := v;
      assert memory[..] == now;
      model := model[active := model[active].(block := PutByte(layout.ranges, model[active].block, p, v))];
      forall i | 0 <= i < |cores|
        ensures CoreOk(i)
      {
        assert old(CoreOk(i));
      }
    }

    /** The state of a core, live or parked. */
    method Current(core: nat) returns (current: Saved)
      requires Valid() && core < |cores|
      modifies this`parked
      ensures Valid() && Holds(current, model[core].block)
      ensures old(parked) <= parked && fresh(parked - old(parked))
    {
      if core == active {
        current := Park();
      } else {
        assert CoreOk(core);
        current := cores[core].saved.value;
      }
    }

    method InitCopy(current: Saved, ghost block: Block) returns (next: Saved)
      requires Fixed() && Shaped(block, layout.ranges) && Holds(current, block) && Holds(resetState, reset)
      ensures var b := InitBlock(layout.fields, layout.ranges, block, reset);
              |next| == |b| && forall r :: 0 <= r < |next| ==> fresh(next[r]) && next[r][..] == b[r]
    {
      assert forall r :: 0 <= r < |current| ==> current[r].Length == |block[r]|;
      assert forall r :: 0 <= r < |resetState| ==> resetState[r].Length == |reset[r]|;
      next := InitState(layout.fields, layout.ranges, kept, resetState, current);
    }

    /** The state of a core after INIT. */
    method InitNext(core: nat) returns (next: Saved)
      requires Valid() && core < |cores|
      modifies this`parked
      ensures Valid() && Holds(next, InitBlock(layout.fields, layout.ranges, model[core].block, reset))
      ensures old(parked) <= parked && fresh(parked - old(parked))
    {
      var current := Current(core);
      next := InitCopy(current, model[core].block);
      Adopt(next);
    }

    /** A core starts over with the saved state. */
    method Replace(core: nat, next: Saved, running: bool, ghost block: Block)
      requires Valid() && core < |cores| && Shaped(block, layout.ranges) && Holds(next, block)
      modifies this`cores, this`model, memory
      ensures Valid() && OthersSame() && |cores| == |old(cores)|
      ensures model == old(model)[core := Cpu(running, block)]
    {
      if core == active {
        Unpark(next, block);
        cores := cores[core := cores[core].(running := running)];
      } else {
        cores := cores[core := CoreState(running, Some(next))];
      }
      model := model[core := Cpu(running, block)];
      forall i | 0 <= i < |cores|
        ensures CoreOk(i)
      {
        assert old(CoreOk(i));
        if i == active {
          assert old(CoreOk(core));
        }
      }
    }

    /** INIT: the same effect on the core whether it is live or parked. */
    method Init(core: nat)
      requires Valid() && core < |cores|
      modifies this`cores, this`parked, this`model, memory
      ensures Valid() && OthersSame() && |cores| == |old(cores)|
      ensures model == old(model)[core := InitOne(layout, reset, old(model[core]), core)]
      ensures cores[core].running <==> core == 0
      ensures old(parked) <= parked && fresh(parked - old(parked))
    {
      var next := InitNext(core);
      Replace(core, next, core == 0, InitBlock(layout.fields, layout.ranges, model[core].block, reset));
      assert CoreOk(core);
    }

    method StoreBytes(places: seq<nat>, values: seq<byte>)
      requires Valid() && |places| == |values| && forall k :: 0 <= k < |places| ==> InSome(layout.ranges, places[k])
      modifies this`model, memory
      ensures Valid() && OthersSame()
      ensures model == old(model)[active := old(model[active]).(block := PutBytes(layout.ranges, old(model[active].block), places, values))]
    {
      if places == [] {
        return;
      }
      var n := |places| - 1;
      StoreBytes(places[..n], values[..n]);
      StoreByte(places[n], values[n]);
    }

    /** A start-up IPI for a core that waits for one: it becomes the active core, in real mode at the vector. */
    method Start(core: nat, vector: byte)
      requires Valid() && core < |cores|
      modifies this`cores, this`active, this`parked, this`model, memory
      ensures Valid() && OthersSame() && |cores| == |old(cores)| && active == core
      ensures model == old(model)[core := Cpu(true, PutBytes(layout.ranges, old(model[core].block), PLACES, StartValues(vector)))]
      ensures old(parked) <= parked && fresh(parked - old(parked))
    {
      SwitchCore(core);
      StoreBytes(PLACES, StartValues(vector));
      SetRunning(core);
    }

    method SetRunning(core: nat)
      requires Valid() && core < |cores|
      modifies this`cores, this`model
      ensures Valid() && |cores| == |old(cores)|
      ensures model == old(model)[core := old(model[core]).(running := true)]
    {
      cores := cores[core := cores[core].(running := true)];
      model := model[core := model[core].(running := true)];
      forall i | 0 <= i < |cores|
        ensures CoreOk(i)
      {
        assert old(CoreOk(i));
      }
    }

    /** take_core_events; `shutdown` is exception_shutdown's answer that the core does not take INIT. */
    method TakeCoreEvents(core: nat, init: bool, sipi: bool, vector: byte, shutdown: bool)
      requires Valid() && core < |cores|
      modifies this`cores, this`active, this`parked, this`model, memory
      ensures Valid() && OthersSame() && |cores| == |old(cores)|
      ensures model == old(model)[core := EventsOne(layout, reset, old(model[core]), Events(core, init, sipi, vector, shutdown), core)]
      ensures cores[core].running <==> if init && !shutdown then core == 0 || sipi else old(cores)[core].running || (sipi && !init)
      ensures active == if sipi && !(init && shutdown) && !(if init then core == 0 else old(cores)[core].running) then core else old(active)
      ensures old(parked) <= parked && fresh(parked - old(parked))
    {
      if init {
        if shutdown {
          return;
        }
        Init(core);
      }
      ghost var next := model[core];
      assert model == old(model)[core := next];
      if sipi {
        TakeStart(core, vector);
        assert model == old(model)[core := StartOne(layout, next, vector)];
      }
    }

    method TakeStart(core: nat, vector: byte)
      requires Valid() && core < |cores|
      modifies this`cores, this`active, this`parked, this`model, memory
      ensures Valid() && OthersSame() && |cores| == |old(cores)|
      ensures model == old(model)[core := StartOne(layout, old(model[core]), vector)]
      ensures cores[core].running && active == if old(cores)[core].running then old(active) else core
      ensures old(parked) <= parked && fresh(parked - old(parked))
    {
      assert CoreOk(core);
      if !cores[core].running {
        Start(core, vector);
        assert CoreOk(core);
      }
    }

    /** reset_cores: core 0 is active and keeps its state, every other core waits in the shared reset state. */
    method ResetCores()
      requires Valid()
      modifies this`cores, this`active, this`parked, this`model, memory
      ensures Valid() && OthersSame() && |cores| == |old(cores)| && active == 0
      ensures forall i :: 0 <= i < |model| ==> model[i] == StepOne(layout, reset, old(model[i]), Reset, i)
      ensures forall i :: 0 <= i < |model| ==> model[i] == if i == 0 then Cpu(true, old(model[0].block)) else Cpu(false, reset)
      ensures old(parked) <= parked && fresh(parked - old(parked))
    {
      SwitchCore(0);
      SetRunning(0);
      ghost var others := memory[..];
      var i := 1;
      while i < |cores|
        invariant 1 <= i <= |cores| == |old(cores)| && Valid() && active == 0 && memory[..] == others
        invariant old(parked) <= parked && fresh(parked - old(parked))
        invariant forall k :: 0 <= k < i ==> model[k] == StepOne(layout, reset, old(model[k]), Reset, k)
        invariant forall k :: i <= k < |model| ==> model[k] == old(model[k])
      {
        ParkReset(i);
        i := i + 1;
      }
    }

    /** The core shares the reset state. */
    method ParkReset(core: nat)
      requires Valid() && core < |cores| && core != active
      modifies this`cores, this`model
      ensures Valid() && |cores| == |old(cores)| && model == old(model)[core := Cpu(false, reset)]
      ensures cores[core].saved == Some(resetState)
    {
      cores := cores[core := CoreState(false, Some(resetState))];
      model := model[core := Cpu(false, reset)];
      forall i | 0 <= i < |cores|
        ensures CoreOk(i)
      {
        assert old(CoreOk(i));
      }
    }

    /** One operation, for each core what it does to that core. */
    method Step(op: Op)
      requires Valid() && Placed(layout, op) && (op.Reset? || op.core < |cores|)
      modifies this`cores, this`active, this`parked, this`model, memory
      ensures Valid() && OthersSame() && |cores| == |old(cores)|
      ensures forall i :: 0 <= i < |model| ==> model[i] == StepOne(layout, reset, old(model[i]), op, i)
      ensures old(parked) <= parked && fresh(parked - old(parked))
    {
      match op
      case Store(core, place, value) =>
        SwitchCore(core);
        StoreByte(place, value);
      case Events(core, init, sipi, vector, shutdown) =>
        TakeCoreEvents(core, init, sipi, vector, shutdown);
      case Reset =>
        ResetCores();
    }

    /** Every run is a run of N independent cores: what becomes of a core depends on its own operations only. */
    method Run(ops: seq<Op>)
      requires Valid() && forall k :: 0 <= k < |ops| ==> Placed(layout, ops[k])
      requires forall k :: 0 <= k < |ops| ==> ops[k].Reset? || ops[k].core < |cores|
      modifies this`cores, this`active, this`parked, this`model, memory
      ensures Valid() && OthersSame() && |cores| == |old(cores)|
      ensures forall i :: 0 <= i < |model| ==> model[i] == RunOne(layout, reset, old(model[i]), ops, i)
      ensures old(parked) <= parked && fresh(parked - old(parked))
    {
      if ops == [] {
        return;
      }
      Run(ops[..|ops| - 1]);
      Step(ops[|ops| - 1]);
    }

    /** setup_cores: all cores are in the state that the live block has. */
    constructor (fields: seq<Field>, memory: array<byte>, count: nat)
      requires StateLayout.Valid(fields) && Fits(fields) && SIZE <= memory.Length && count > 0
      requires forall k :: 0 <= k < |PLACES| ==> CoreByte(fields, PLACES[k])
      ensures Valid() && active == 0 && |cores| == count && this.memory == memory && layout.fields == fields
      ensures LiveIn(memory[..], layout.ranges, reset)
      ensures forall i :: 0 <= i < count ==> model[i] == Cpu(i == 0, reset)
    {
      var ranges := CoreRanges(fields);
      var kept := InitPreserved(fields);
      var saved := SaveCoreState(memory, ranges);
      forall k | 0 <= k < |PLACES|
        ensures InSome(ranges, PLACES[k])
      {
        RangesAreTheCoreState(fields, PLACES[k]);
      }
      layout := Layout(fields, ranges);
      this.kept := kept;
      this.memory := memory;
      resetState := saved;
      ghost var block := Contents(memory[..], ranges);
      reset := block;
      parked := set a | a in saved;
      active := 0;
      cores := [CoreState(true, None)];
      model := [Cpu(true, block)];
      new;
      AddCores(count);
    }

    /** Cores up to a number, all of which share the reset state. */
    method AddCores(count: nat)
      requires Valid() && |cores| <= count
      modifies this`cores, this`model
      ensures Valid() && |cores| == count && old(model) <= model
      ensures forall i :: |old(model)| <= i < count ==> model[i] == Cpu(false, reset)
    {
      while |cores| < count
        invariant |cores| <= count && Valid() && old(model) <= model
        invariant forall i :: |old(model)| <= i < |model| ==> model[i] == Cpu(false, reset)
      {
        AddCore();
      }
    }

    /** One more core, which shares the reset state. */
    method AddCore()
      requires Valid()
      modifies this`cores, this`model
      ensures Valid() && |cores| == |old(cores)| + 1 && model == old(model) + [Cpu(false, reset)]
    {
      cores := cores + [CoreState(false, Some(resetState))];
      model := model + [Cpu(false, reset)];
      forall i | 0 <= i < |cores|
        ensures CoreOk(i)
      {
        assert i < |cores| - 1 ==> old(CoreOk(i));
      }
    }
  }
}
