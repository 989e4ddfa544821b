/**
 The physical region descriptor table of an AHCI command (src/ahci.js): which guest addresses the
 bytes of a transfer have.
 */
module Prdt {
  import opened Numbers
  import opened Options
  import opened Bytes

  type pos = n: nat | n > 0 witness 1

  datatype Segment = Segment(address: int, offset: nat, length: nat)

  // ---- Entries ----

  /** An entry: whether its 16 bytes can be read, the data base address and the number of bytes. */
  datatype Entry = Entry(readable: bool, address: int, count: pos)

  /**
   The 16 bytes of an entry: a word aligned address, whose upper half is signed and used with 64-bit
   addressing only, and 22 bits of count, less one.
   */
  function DecodeEntry(bytes: seq<byte>, s64a: bool): Entry
    requires |bytes| == 16
  {
    var low := bytes[0] - bytes[0] % 2 + Scaled(bytes[1], 0x100) + Scaled(bytes[2], 0x1_0000) + Scaled(bytes[3], 0x100_0000);
    var high := bytes[4] + Scaled(bytes[5], 0x100) + Scaled(bytes[6], 0x1_0000) + Scaled(bytes[7], 0x100_0000);
    Entry(true, if s64a then low + Signed(high) * 0x1_0000_0000 else low,
          bytes[12] + Scaled(bytes[13], 0x100) + Scaled(bytes[14] % 64, 0x1_0000) + 1)
  }

  function Scaled(n: int, factor: int): int {
    n * factor
  }

  /** A 32-bit word as a signed number. */
  function Signed(n: int): int {
    if n < 0x8000_0000 then n else n - 0x1_0000_0000
  }

  type word = n: nat | n < 0x1_0000_0000

  /** The bytes of a 32-bit word, low byte first. */
  function WordBytes(n: word): (bytes: seq<byte>)
    ensures |bytes| == 4
  {
    [n % 256, n / 0x100 % 256, n / 0x1_0000 % 256, n / 0x100_0000]
  }

  lemma {:induction false} WordOf(n: word)
    ensures n == n % 256 + n / 0x100 % 256 * 0x100 + n / 0x1_0000 % 256 * 0x1_0000 + n / 0x100_0000 * 0x100_0000
  {
    var a, b := n / 0x100, n / 0x1_0000;
    assert a / 0x100 == b && b / 0x100 == n / 0x100_0000;
  }

  /** The word that is read from four bytes. */
  function Word(bytes: seq<byte>): int
    requires |bytes| == 4
  {
    bytes[0] + Scaled(bytes[1], 0x100) + Scaled(bytes[2], 0x1_0000) + Scaled(bytes[3], 0x100_0000)
  }

  lemma {:induction false} WholeWord(n: word)
    ensures Word(WordBytes(n)) == n
  {
    WordOf(n);
  }

  lemma {:induction false} EvenWord(n: word)
    ensures n - n % 256 % 2 == n / 2 * 2
  {
    var q, h, b := n / 256, n % 256 / 2, n % 256 % 2;
    assert n == 2 * (128 * q + h) + b;
    assert n / 2 == 128 * q + h;
  }

  /** An entry is made of DBA, DBAU, a reserved word, and flags above the 22 bits of DBC. */
  function EntryBytes(dba: word, dbau: word, reserved: word, flags: nat, dbc: nat): (bytes: seq<byte>)
    requires flags < 1024 && dbc < 0x40_0000
    ensures |bytes| == 16
  {
    WordBytes(dba) + WordBytes(dbau) + WordBytes(reserved) + WordBytes(flags * 0x40_0000 + dbc)
  }

  /** Only bit 0 of the address, the reserved word and the flags are lost; the count is one more than DBC. */
  lemma {:induction false} EntryDecoded(dba: word, dbau: word, reserved: word, flags: nat, dbc: nat, s64a: bool)
    requires flags < 1024 && dbc < 0x40_0000
    ensures DecodeEntry(EntryBytes(dba, dbau, reserved, flags, dbc), s64a)
         == Entry(true, dba / 2 * 2 + (if s64a then Signed(dbau) * 0x1_0000_0000 else 0), dbc + 1)
  {
    var last := flags * 0x40_0000 + dbc;
    var low, high, count := WordBytes(dba), WordBytes(dbau), WordBytes(last);
    Fields(low, high, WordBytes(reserved), count, s64a);
    WholeWord(dba);
    EvenWord(dba);
    WholeWord(dbau);
    CountOf(flags, dbc);
  }

  lemma {:induction false} Fields(low: seq<byte>, high: seq<byte>, reserved: seq<byte>, count: seq<byte>, s64a: bool)
    requires |low| == |high| == |reserved| == |count| == 4
    ensures DecodeEntry(low + high + reserved + count, s64a)
            == Entry(true, Word(low) - low[0] % 2 + (if s64a then Signed(Word(high)) * 0x1_0000_0000 else 0),
                     count[0] + Scaled(count[1], 0x100) + Scaled(count[2] % 64, 0x1_0000) + 1)
  {
  }

  lemma {:induction false} CountOf(flags: nat, dbc: nat)
    requires flags < 1024 && dbc < 0x40_0000
    ensures var n := flags * 0x40_0000 + dbc;
            n % 256 + n / 0x100 % 256 * 0x100 + n / 0x1_0000 % 256 % 64 * 0x1_0000 == dbc
  {
    var n, low, middle, high := flags * 0x40_0000 + dbc, dbc % 256, dbc / 0x100 % 256, dbc / 0x1_0000;
    WordOf(dbc);
    ThreeBytes(n, low, middle, high + 64 * flags);
    SixBits(high, flags);
  }

  lemma {:induction false} ThreeBytes(n: nat, low: nat, middle: nat, rest: nat)
    requires n == low + 0x100 * middle + 0x1_0000 * rest && low < 256 && middle < 256
    ensures n % 256 == low && n / 0x100 % 256 == middle && n / 0x1_0000 == rest
  {
    assert n / 0x100 == middle + 0x100 * rest;
  }

  lemma {:induction false} SixBits(n: nat, more: nat)
    requires n < 64
    ensures (n + 64 * more) % 256 % 64 == n
  {
    var q, r := more / 4, more % 4;
    LowBits(n + 64 * r, q, n + 64 * more);
    assert r == 0 || r == 1 || r == 2 || r == 3;
  }

  lemma {:induction false} LowBits(low: nat, q: nat, n: nat)
    requires low < 256 && n == low + 256 * q
    ensures n % 256 == low
  {
  }

  // ---- Tables ----

  /** Guest memory: which ranges of addresses are mapped, and the bytes. */
  datatype Memory = Memory(mapped: (int, int) -> bool, read: int -> byte) {
    function Blob(address: int, length: nat): (bytes: seq<byte>)
      ensures |bytes| == length
    {
      if length == 0 then [] else Blob(address, length - 1) + [read(address + length - 1)]
    }
  }

  /** A command's table in guest memory: `prdtl` entries after the first 0x80 bytes. */
  datatype Command = Command(ram: Memory, table: int, prdtl: nat, s64a: bool) {
    function EntryAddress(i: nat): int {
      table + 0x80 + i * 16
    }

    /** Entry i as it is in memory. */
    function EntryIn(i: nat): Entry {
      if ram.mapped(EntryAddress(i), 16) then DecodeEntry(ram.Blob(EntryAddress(i), 16), s64a) else Entry(false, 0, 1)
    }

    function Decoded(): Table {
      Table(seq(prdtl, i requires 0 <= i < prdtl => EntryIn(i)), ram.mapped)
    }
  }

  /** The entries of a command, and which ranges of guest addresses are mapped. */
  datatype Table = Table(entries: seq<Entry>, mapped: (int, int) -> bool) {
    /** The number of entries (PRDTL). */
    function Size(): nat {
      |entries|
    }

    /** The position of the first byte of entry i in the flattened table. */
    function Start(i: nat): nat
      requires i <= Size()
    {
      if i == 0 then 0 else Start(i - 1) + entries[i - 1].count
    }

    /** The address of byte p of the flattened table, which is in entry i or later. */
    function FlatFrom(p: nat, i: nat): int
      requires i <= Size() && Start(i) <= p < Start(Size())
      decreases Size() - i
    {
      if p < Start(i + 1) then entries[i].address + (p - Start(i)) else FlatFrom(p, i + 1)
    }

    function Flat(p: nat): int
      requires p < Start(Size())
    {
      FlatFrom(p, 0)
    }

    /** The addresses of the bytes from `lo` up to `hi`. */
    function Range(lo: nat, hi: nat): (r: seq<int>)
      requires lo <= hi <= Start(Size())
      ensures |r| == hi - lo
    {
      if lo == hi then [] else Range(lo, hi - 1) + [Flat(hi - 1)]
    }
  }

  lemma {:induction false} FlatInEntry(t: Table, p: nat, j: nat, i: nat)
    requires j <= i < t.Size() && t.Start(j) <= t.Start(i) <= p < t.Start(i + 1) && p < t.Start(t.Size())
    ensures t.FlatFrom(p, j) == t.entries[i].address + (p - t.Start(i))
    decreases i - j
  {
    if j < i {
      StartGrows(t, j + 1, i);
      FlatInEntry(t, p, j + 1, i);
    }
  }

  lemma {:induction false} StartGrows(t: Table, i: nat, j: nat)
    requires i <= j <= t.Size()
    ensures t.Start(i) + (j - i) <= t.Start(j)
    decreases j
  {
    if i < j {
      StartGrows(t, i, j - 1);
    }
  }

  lemma {:induction false} RangeConcat(t: Table, a: nat, b: nat, c: nat)
    requires a <= b <= c <= t.Start(t.Size())
    ensures t.Range(a, b) + t.Range(b, c) == t.Range(a, c)
    decreases c
  {
    if b < c {
      RangeConcat(t, a, b, c - 1);
      assert t.Range(a, b) + (t.Range(b, c - 1) + [t.Flat(c - 1)]) == t.Range(a, b) + t.Range(b, c - 1) + [t.Flat(c - 1)];
    }
  }

  /** Consecutive addresses. */
  function Run(address: int, n: nat): (r: seq<int>)
    ensures |r| == n
  {
    if n == 0 then [] else Run(address, n - 1) + [address + n - 1]
  }

  /** Bytes that are read one by one. */
  lemma {:induction false} BlobIs(ram: Memory, address: int, bytes: seq<byte>)
    requires forall k :: 0 <= k < |bytes| ==> ram.read(address + k) == bytes[k]
    ensures ram.Blob(address, |bytes|) == bytes
  {
    if bytes != [] {
      var n := |bytes| - 1;
      BlobIs(ram, address, bytes[..n]);
      assert bytes[..n] + [bytes[n]] == bytes;
    }
  }

  /** Entry i of a command table is at 0x80 + 16 * i in it; one that is not in memory cannot be read. */
  lemma {:induction false} TableRead(c: Command, i: nat, dba: word, dbau: word, reserved: word, flags: nat, dbc: nat)
    requires i < c.prdtl && flags < 1024 && dbc < 0x40_0000
    ensures c.Decoded().Size() == c.prdtl && c.Decoded().mapped == c.ram.mapped
    ensures c.Decoded().entries[i].readable <==> c.ram.mapped(c.table + 0x80 + 16 * i, 16)
    ensures c.ram.mapped(c.table + 0x80 + 16 * i, 16)
            && (forall k :: 0 <= k < 16 ==> c.ram.read(c.table + 0x80 + 16 * i + k) == EntryBytes(dba, dbau, reserved, flags, dbc)[k]) ==>
              c.Decoded().entries[i]
              == Entry(true, dba / 2 * 2 + (if c.s64a then Signed(dbau) * 0x1_0000_0000 else 0), dbc + 1)
  {
    var at, bytes := c.table + 0x80 + 16 * i, EntryBytes(dba, dbau, reserved, flags, dbc);
    if forall k :: 0 <= k < 16 ==> c.ram.read(at + k) == bytes[k] {
      BlobIs(c.ram, at, bytes);
      EntryDecoded(dba, dbau, reserved, flags, dbc, c.s64a);
    }
  }

  /** Within one entry addresses are consecutive. */
  lemma {:induction false} RangeInEntry(t: Table, i: nat, lo: nat, hi: nat)
    requires i < t.Size() && t.Start(i) <= lo <= hi <= t.Start(i + 1) && t.Start(i + 1) <= t.Start(t.Size())
    ensures t.Range(lo, hi) == Run(t.entries[i].address + (lo - t.Start(i)), hi - lo)
    decreases hi
  {
    if lo < hi {
      RangeInEntry(t, i, lo, hi - 1);
      StartGrows(t, 0, i);
      FlatInEntry(t, hi - 1, 0, i);
    }
  }

  /** The addresses of the bytes of segments, in order. */
  function Expand(segments: seq<Segment>): seq<int> {
    if segments == [] then []
    else
      var last := segments[|segments| - 1];
      Expand(segments[..|segments| - 1]) + Run(last.address, last.length)
  }

  /** Each segment begins where the one before it ended, and none is empty. */
  predicate InOrder(segments: seq<Segment>) {
    segments == [] ||
    var n := |segments| - 1;
    segments[n].length > 0 && segments[n].offset == |Expand(segments[..n])| && InOrder(segments[..n])
  }

  lemma {:induction false} ExpandAppend(segments: seq<Segment>, s: Segment)
    ensures Expand(segments + [s]) == Expand(segments) + Run(s.address, s.length)
    ensures InOrder(segments) && s.length > 0 && s.offset == |Expand(segments)| ==> InOrder(segments + [s])
  {
    assert (segments + [s])[..|segments|] == segments;
  }

  /** The part of entry i that a transfer of the bytes from offset up to end uses, if any. */
  function PartOf(t: Table, i: nat, offset: nat, end: nat): Option<Segment>
    requires i < t.Size()
  {
    var lo, hi := Max(t.Start(i), offset), Min(t.Start(i) + t.entries[i].count, end);
    if lo < hi then Some(Segment(t.entries[i].address + (lo - t.Start(i)), lo - offset, hi - lo)) else None
  }

  /** Entry i can be read and the part used of it is mapped, if the transfer gets to it. */
  predicate EntryServes(t: Table, i: nat, offset: nat, end: nat)
    requires i < t.Size()
  {
    t.Start(i) < end ==>
      t.entries[i].readable && (PartOf(t, i, offset, end).Some? ==>
        t.mapped(PartOf(t, i, offset, end).value.address, PartOf(t, i, offset, end).value.length))
  }

  /** The first n entries do. */
  ghost predicate ServesTo(t: Table, offset: nat, end: nat, n: nat)
    requires n <= t.Size()
  {
    forall i :: 0 <= i < n ==> EntryServes(t, i, offset, end)
  }

  /** The table holds the transfer. */
  ghost predicate Serves(t: Table, offset: nat, end: nat) {
    end <= t.Start(t.Size()) && ServesTo(t, offset, end, t.Size())
  }

  /**
   The table holds a transfer exactly if it is long enough, every entry that begins before the end of the transfer can
   be read, and the memory of the part of it that is used, if any, is there.
   */
  lemma {:induction false} ServesMeans(t: Table, offset: nat, end: nat)
    ensures Serves(t, offset, end) <==>
            end <= t.Start(t.Size()) && forall i :: 0 <= i < t.Size() && t.Start(i) < end ==> Usable(t, i, offset, end)
  {
    forall i | 0 <= i < t.Size()
      ensures EntryServes(t, i, offset, end) <==> (t.Start(i) < end ==> Usable(t, i, offset, end))
    {
      EntryServesMeans(t, i, offset, end);
    }
  }

  /** Entry i can be read, and the memory of the bytes of it from offset up to end is there. */
  predicate Usable(t: Table, i: nat, offset: nat, end: nat)
    requires i < t.Size()
  {
    var start, count, address := t.Start(i), t.entries[i].count, t.entries[i].address;
    var lo := if start < offset then offset else start;
    var hi := if start + count < end then start + count else end;
    t.entries[i].readable && (lo < hi ==> t.mapped(address + (lo - start), hi - lo))
  }

  lemma {:induction false} EntryServesMeans(t: Table, i: nat, offset: nat, end: nat)
    requires i < t.Size()
    ensures EntryServes(t, i, offset, end) <==> (t.Start(i) < end ==> Usable(t, i, offset, end))
  {
  }

  /** The segments are the bytes of the transfer in the entries before i. */
  ghost predicate Covers(t: Table, segments: seq<Segment>, offset: nat, end: nat, i: nat)
    requires i <= t.Size() && offset <= end
  {
    t.Start(i) <= t.Start(t.Size())
    && if t.Start(i) < offset then segments == []
       else Expand(segments) == t.Range(offset, Min(t.Start(i), end))
  }

  function WithPart(segments: seq<Segment>, part: Option<Segment>): seq<Segment> {
    if part.Some? then segments + [part.value] else segments
  }

  /** The part of entry i is a piece of the range. */
  lemma {:induction false} PartRange(t: Table, offset: nat, end: nat, i: nat)
    requires i < t.Size() && offset <= end && t.Start(i) < end && PartOf(t, i, offset, end).Some?
    ensures var lo, hi := Max(t.Start(i), offset), Min(t.Start(i + 1), end);
            var p := PartOf(t, i, offset, end).value;
            && lo < hi <= t.Start(t.Size()) && p.offset == lo - offset && p.length == hi - lo
            && Run(p.address, p.length) == t.Range(lo, hi)
  {
    StartGrows(t, i + 1, t.Size());
    var lo, hi := Max(t.Start(i), offset), Min(t.Start(i + 1), end);
    RangeInEntry(t, i, lo, hi);
  }

  /** With the part of entry i, a piece longer. */
  lemma {:induction false} CoversPart(t: Table, segments: seq<Segment>, offset: nat, end: nat, i: nat, lo: nat, hi: nat)
    requires i < t.Size() && offset <= end && t.Start(i) < end && InOrder(segments) && PartOf(t, i, offset, end).Some?
    requires lo == Max(t.Start(i), offset) <= t.Start(t.Size()) && hi == Min(t.Start(i + 1), end)
    requires Expand(segments) == t.Range(offset, lo)
    ensures hi <= t.Start(t.Size())
    ensures var more := segments + [PartOf(t, i, offset, end).value]; Expand(more) == t.Range(offset, hi) && InOrder(more)
  {
    PartRange(t, offset, end, i);
    RangeConcat(t, offset, lo, hi);
    ExpandAppend(segments, PartOf(t, i, offset, end).value);
  }

  /** Nothing of entry i is used: it ends before the transfer, or nothing is to be transferred. */
  lemma {:induction false} CoversSkip(t: Table, segments: seq<Segment>, offset: nat, end: nat, i: nat)
    requires i < t.Size() && offset <= end && Covers(t, segments, offset, end, i) && t.Start(i) < end
    requires PartOf(t, i, offset, end).None?
    ensures Covers(t, segments, offset, end, i + 1)
  {
    StartGrows(t, i + 1, t.Size());
    assert t.Start(i) < offset;
    assert t.Start(i + 1) >= offset ==> t.Range(offset, Min(t.Start(i + 1), end)) == [];
  }

  lemma {:induction false} CoversNext(t: Table, segments: seq<Segment>, offset: nat, end: nat, i: nat)
    requires i < t.Size() && offset <= end && Covers(t, segments, offset, end, i) && t.Start(i) < end && InOrder(segments)
    ensures Covers(t, WithPart(segments, PartOf(t, i, offset, end)), offset, end, i + 1)
    ensures InOrder(WithPart(segments, PartOf(t, i, offset, end)))
  {
    if PartOf(t, i, offset, end).Some? {
      StartGrows(t, i + 1, t.Size());
      CoversPart(t, segments, offset, end, i, Max(t.Start(i), offset), Min(t.Start(i + 1), end));
    } else {
      CoversSkip(t, segments, offset, end, i);
    }
  }

  /** The table is the one in the command's memory. */
  ghost predicate InMemory(c: Command, t: Table) {
    && t.Size() == c.prdtl && t.mapped == c.ram.mapped
    && forall i {:trigger c.EntryIn(i)} :: 0 <= i < c.prdtl ==> t.entries[i] == c.EntryIn(i)
  }

  /** One turn of the loop of prdt_segments: None when the entry or its memory is not in RAM. */
  method AddEntry(c: Command, i: nat, position: nat, offset: nat, end: nat, segments: seq<Segment>, ghost t: Table)
    returns (r: Option<seq<Segment>>, next: nat)
    requires InMemory(c, t) && i < c.prdtl && position == t.Start(i) < end
    ensures r.Some? <==> EntryServes(t, i, offset, end)
    ensures r.Some? ==> r.value == WithPart(segments, PartOf(t, i, offset, end)) && next == t.Start(i + 1)
  {
    var address := c.EntryAddress(i);
    assert t.entries[i] == c.EntryIn(i);
    if !c.ram.mapped(address, 16) {
      return None, position;
    }
    var entry := DecodeEntry(c.ram.Blob(address, 16), c.s64a);
    next := position + entry.count;
    var lo, hi := Max(position, offset), Min(next, end);
    if lo < hi {
      var part, at := hi - lo, entry.address + (lo - position);
      if !c.ram.mapped(at, part) {
        return None, position;
      }
      return Some(segments + [Segment(at, lo - offset, part)]), next;
    }
    return Some(segments), next;
  }

  method AddEntries(c: Command, offset: nat, length: nat, ghost t: Table) returns (r: Option<seq<Segment>>)
    requires InMemory(c, t)
    ensures Answers(t, offset, offset + length, r)
  {
    var segments: seq<Segment> := [];
    var position, end := 0, offset + length;
    var i := 0;
    DoneFirst(t, offset, end);
    while i < c.prdtl && position < end
      invariant 0 <= i <= c.prdtl && position == t.Start(i) && Done(t, segments, offset, end, i)
    {
      DoneNext(t, segments, offset, end, i);
      var more, next := AddEntry(c, i, position, offset, end, segments, t);
      if more.None? {
        return None;
      }
      segments, position := more.value, next;
      i := i + 1;
    }
    Finished(t, segments, offset, end, i);
    if position < end {
      return None;
    }
    return Some(segments);
  }

  /**
   prdt_segments: the segments of the bytes from offset up to offset + length, or None for a
   RangeError, which is thrown exactly when the table does not hold the transfer.
   */
  method PrdtSegments(c: Command, offset: nat, length: nat) returns (r: Option<seq<Segment>>)
    ensures Answers(c.Decoded(), offset, offset + length, r)
  {
    r := AddEntries(c, offset, length, c.Decoded());
  }

  /** The memory of every segment is there. */
  predicate AllMapped(t: Table, segments: seq<Segment>) {
    forall k :: 0 <= k < |segments| ==> t.mapped(segments[k].address, segments[k].length)
  }

  /** Segments exactly if the table holds the transfer; they are in order and have the addresses that the table gives. */
  ghost predicate Answers(t: Table, offset: nat, end: nat, r: Option<seq<Segment>>)
    requires offset <= end
  {
    && (r.Some? <==> Serves(t, offset, end))
    && (r.Some? ==> InOrder(r.value) && Expand(r.value) == t.Range(offset, end) && AllMapped(t, r.value))
  }

  /** The entries before i are done. */
  ghost predicate Done(t: Table, segments: seq<Segment>, offset: nat, end: nat, i: nat) {
    i <= t.Size() && offset <= end && Covers(t, segments, offset, end, i) && InOrder(segments)
    && ServesTo(t, offset, end, i) && AllMapped(t, segments)
  }

  lemma {:induction false} DoneFirst(t: Table, offset: nat, end: nat)
    requires offset <= end
    ensures Done(t, [], offset, end, 0)
  {
    StartGrows(t, 0, t.Size());
  }

  lemma {:induction false} DoneNext(t: Table, segments: seq<Segment>, offset: nat, end: nat, i: nat)
    requires i < t.Size() && t.Start(i) < end && Done(t, segments, offset, end, i)
    ensures EntryServes(t, i, offset, end) ==> Done(t, WithPart(segments, PartOf(t, i, offset, end)), offset, end, i + 1)
    ensures !EntryServes(t, i, offset, end) ==> Answers(t, offset, end, None)
  {
    CoversNext(t, segments, offset, end, i);
  }

  /** No entry after the end of the transfer is looked at. */
  lemma {:induction false} Finished(t: Table, segments: seq<Segment>, offset: nat, end: nat, i: nat)
    requires Done(t, segments, offset, end, i) && (i == t.Size() || end <= t.Start(i))
    ensures Answers(t, offset, end, if t.Start(i) < end then None else Some(segments))
  {
    if end <= t.Start(i) {
      forall j | i <= j < t.Size()
        ensures EntryServes(t, j, offset, end)
      {
        StartGrows(t, i, j);
      }
      StartGrows(t, i, t.Size());
    }
  }

  /** A command that moves its data block by block. */
  class Transfer {
    const command: Command
    /** command.bytes: what was transferred so far. */
    var bytes: nat
    /** The addresses of the bytes transferred, in order. */
    ghost var moved: seq<int>

    ghost predicate Valid()
      reads this
    {
      bytes <= command.Decoded().Start(command.Decoded().Size()) && moved == command.Decoded().Range(0, bytes)
    }

    constructor (command: Command)
      ensures this.command == command && bytes == 0 && Valid()
    {
      this.command := command;
      bytes := 0;
      moved := [];
    }

    /** transfer_block: the next block goes on where the last one ended; false: the table does not hold it. */
    method TransferBlock(length: nat) returns (ok: bool)
      requires Valid()
      modifies this
      ensures Valid()
      ensures ok <==> length == 0 || Serves(command.Decoded(), old(bytes), old(bytes) + length)
      ensures bytes == if ok then old(bytes) + length else old(bytes)
      ensures ok ==> moved == old(moved) + command.Decoded().Range(old(bytes), old(bytes) + length)
    {
      if length == 0 {
        return true;
      }
      var segments := PrdtSegments(command, bytes, length);
      if segments.None? {
        return false;
      }
      RangeConcat(command.Decoded(), 0, bytes, bytes + length);
      moved := moved + Expand(segments.value);
      bytes := bytes + length;
      return true;
    }
  }
}
