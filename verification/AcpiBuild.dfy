/** build_acpi_tables (src/acpi_tables.js): the tables in one file, the RSDP, and the loader script. */
module AcpiBuild {
  import opened Sequences
  import opened Options
  import opened Bytes
  import opened AcpiLoader
  import opened AcpiEntries
  import opened AcpiTables

  /** The bodies of DSDT and FADT, and the other tables. */
  datatype Platform = Platform(dsdt: seq<byte>, fadt: seq<byte>, others: seq<Definition>) {
    predicate Ok() {
      && |fadt| == FADT_LENGTH - HEADER
      && forall k :: 0 <= k < |others| ==> others[k].Ok() && others[k].signature != FACP
    }
  }

  function OtherTables(others: seq<Definition>): (r: seq<seq<byte>>)
    requires forall k :: 0 <= k < |others| ==> others[k].Ok()
    ensures |r| == |others| && forall k :: 0 <= k < |others| ==> r[k] == Table(others[k])
  {
    if others == [] then [] else OtherTables(others[..|others| - 1]) + [Table(others[|others| - 1])]
  }

  function Dsdt(p: Platform): seq<byte> {
    Table(Definition(DSDT, 1, [0x56, 0x38, 0x36, 0x44, 0x53, 0x44, 0x54, 0x20], p.dsdt))
  }

  function Fadt(p: Platform): seq<byte> {
    Table(Definition(FACP, 3, [0x56, 0x38, 0x36, 0x46, 0x41, 0x43, 0x50, 0x20], p.fadt))
  }

  /** FACS, DSDT, FADT and the other tables. */
  function Parts(p: Platform): seq<seq<byte>>
    requires p.Ok()
  {
    [Facs(), Dsdt(p), Fadt(p)] + OtherTables(p.others)
  }

  /** The entries of RSDT and XSDT: the offsets of n tables from the FADT on. */
  function RootBody(parts: seq<seq<byte>>, size: nat, n: nat): (r: seq<byte>)
    requires n + 2 <= |parts| && (size == 4 || size == 8)
    ensures |r| == Scale(size, n)
  {
    if n == 0 then [] else RootBody(parts, size, n - 1) + Le(Offset(parts, n + 1), size)
  }

  /** Entry i of the body of a root table. */
  predicate HasEntry(body: seq<byte>, size: nat, i: nat, value: nat) {
    Scale(size, i) + size <= |body| && body[Scale(size, i)..Scale(size, i) + size] == Le(value, size)
  }

  lemma {:induction false} EntryAppended(body: seq<byte>, size: nat, i: nat, value: nat)
    requires |body| == Scale(size, i)
    ensures HasEntry(body + Le(value, size), size, i, value)
  {
    AppendedSlice(body, Le(value, size));
  }

  lemma {:induction false} EntryStays(body: seq<byte>, more: seq<byte>, size: nat, i: nat, value: nat)
    requires HasEntry(body, size, i, value)
    ensures HasEntry(body + more, size, i, value)
  {
    FrontSlice(body, more, Scale(size, i), Scale(size, i) + size);
  }

  lemma {:induction false} RootEntry(parts: seq<seq<byte>>, size: nat, n: nat, i: nat)
    requires i < n && n + 2 <= |parts| && (size == 4 || size == 8)
    ensures HasEntry(RootBody(parts, size, n), size, i, Offset(parts, i + 2))
  {
    var front, value := RootBody(parts, size, n - 1), Offset(parts, n + 1);
    if i < n - 1 {
      RootEntry(parts, size, n - 1, i);
      EntryStays(front, Le(value, size), size, i, Offset(parts, i + 2));
    } else {
      EntryAppended(front, size, i, value);
    }
  }

  lemma {:induction false} FrontSlice(a: seq<byte>, b: seq<byte>, lo: nat, hi: nat)
    requires lo <= hi <= |a|
    ensures (a + b)[lo..hi] == a[lo..hi]
  {
  }

  lemma {:induction false} AppendedSlice(a: seq<byte>, b: seq<byte>)
    ensures (a + b)[|a|..|a| + |b|] == b
  {
  }

  function RootDefinition(parts: seq<seq<byte>>, size: nat): (d: Definition)
    requires |parts| >= 3 && (size == 4 || size == 8)
    ensures d.Ok() && d.body == RootBody(parts, size, |parts| - 2)
  {
    if size == 4 then Definition(RSDT, 1, [0x56, 0x38, 0x36, 0x52, 0x53, 0x44, 0x54, 0x20], RootBody(parts, 4, |parts| - 2))
    else Definition(XSDT, 1, [0x56, 0x38, 0x36, 0x58, 0x53, 0x44, 0x54, 0x20], RootBody(parts, size, |parts| - 2))
  }

  function RootTable(parts: seq<seq<byte>>, size: nat): (r: seq<byte>)
    requires |parts| >= 3 && (size == 4 || size == 8)
  {
    Table(RootDefinition(parts, size))
  }

  /** The parts with RSDT and XSDT. */
  function All(parts: seq<seq<byte>>): (r: seq<seq<byte>>)
    requires |parts| >= 3
    ensures |r| == |parts| + 2
  {
    parts + [RootTable(parts, 4), RootTable(parts, 8)]
  }

  /** The four pointers of a FADT set to the offsets of FACS and DSDT. */
  function WithPointers(fadt: seq<byte>, facs: nat, dsdt: nat): (r: seq<byte>)
    requires |fadt| == FADT_LENGTH
    ensures |r| == FADT_LENGTH
  {
    var t1 := Splice(fadt, FADT_FIRMWARE_CTRL, Le(facs, 4));
    var t2 := Splice(t1, FADT_DSDT, Le(dsdt, 4));
    var t3 := Splice(t2, FADT_X_FIRMWARE_CTRL, Le(facs, 8));
    Splice(t3, FADT_X_DSDT, Le(dsdt, 8))
  }

  lemma {:induction false} WithPointersSets(t: seq<byte>, facs: nat, dsdt: nat)
    requires |t| == FADT_LENGTH
    ensures var r := WithPointers(t, facs, dsdt);
            && r[FADT_FIRMWARE_CTRL..FADT_FIRMWARE_CTRL + 4] == Le(facs, 4) && r[FADT_DSDT..FADT_DSDT + 4] == Le(dsdt, 4)
            && r[FADT_X_FIRMWARE_CTRL..FADT_X_FIRMWARE_CTRL + 8] == Le(facs, 8) && r[FADT_X_DSDT..FADT_X_DSDT + 8] == Le(dsdt, 8)
            && r[0..8] == t[0..8]
  {
    var t1 := Splice(t, FADT_FIRMWARE_CTRL, Le(facs, 4));
    var t2 := Splice(t1, FADT_DSDT, Le(dsdt, 4));
    var t3 := Splice(t2, FADT_X_FIRMWARE_CTRL, Le(facs, 8));
    SpliceKeeps(t1, FADT_DSDT, Le(dsdt, 4), FADT_FIRMWARE_CTRL, FADT_FIRMWARE_CTRL + 4);
    SpliceKeeps(t2, FADT_X_FIRMWARE_CTRL, Le(facs, 8), FADT_FIRMWARE_CTRL, FADT_FIRMWARE_CTRL + 4);
    SpliceKeeps(t2, FADT_X_FIRMWARE_CTRL, Le(facs, 8), FADT_DSDT, FADT_DSDT + 4);
    SpliceKeeps(t3, FADT_X_DSDT, Le(dsdt, 8), FADT_FIRMWARE_CTRL, FADT_FIRMWARE_CTRL + 4);
    SpliceKeeps(t3, FADT_X_DSDT, Le(dsdt, 8), FADT_DSDT, FADT_DSDT + 4);
    SpliceKeeps(t3, FADT_X_DSDT, Le(dsdt, 8), FADT_X_FIRMWARE_CTRL, FADT_X_FIRMWARE_CTRL + 8);
    SpliceKeeps(t, FADT_FIRMWARE_CTRL, Le(facs, 4), 0, 8);
    SpliceKeeps(t1, FADT_DSDT, Le(dsdt, 4), 0, 8);
    SpliceKeeps(t2, FADT_X_FIRMWARE_CTRL, Le(facs, 8), 0, 8);
    SpliceKeeps(t3, FADT_X_DSDT, Le(dsdt, 8), 0, 8);
  }

  predicate InPointer(k: nat) {
    FADT_FIRMWARE_CTRL <= k < FADT_DSDT + 4 || FADT_X_FIRMWARE_CTRL <= k < FADT_X_DSDT + 8
  }

  /** All else of the FADT stays. */
  lemma {:induction false} WithPointersKeeps(t: seq<byte>, facs: nat, dsdt: nat, k: nat)
    requires |t| == FADT_LENGTH && k < FADT_LENGTH && !InPointer(k)
    ensures WithPointers(t, facs, dsdt)[k] == t[k]
  {
    var t1 := Splice(t, FADT_FIRMWARE_CTRL, Le(facs, 4));
    var t2 := Splice(t1, FADT_DSDT, Le(dsdt, 4));
    var t3 := Splice(t2, FADT_X_FIRMWARE_CTRL, Le(facs, 8));
    assert t1[k] == t[k] && t2[k] == t1[k] && t3[k] == t2[k];
  }

  /** The tables of the file: the FADT has the offsets of FACS and DSDT. */
  function Final(parts: seq<seq<byte>>): (r: seq<seq<byte>>)
    requires |parts| >= 3 && |parts[2]| == FADT_LENGTH
    ensures |r| == |parts| + 2
  {
    var all := All(parts);
    all[2 := WithPointers(parts[2], Offset(all, 0), Offset(all, 1))]
  }

  lemma {:induction false} SameOffsets(a: seq<seq<byte>>, b: seq<seq<byte>>, k: nat)
    requires |a| == |b| && k <= |a| && forall i :: 0 <= i < |a| ==> |a[i]| == |b[i]|
    ensures Offset(a, k) == Offset(b, k)
  {
    if k > 0 {
      SameOffsets(a, b, k - 1);
    }
  }

  lemma {:induction false} FinalOffsets(parts: seq<seq<byte>>, k: nat)
    requires |parts| >= 3 && |parts[2]| == FADT_LENGTH && k <= |parts| + 2
    ensures Offset(Final(parts), k) == Offset(All(parts), k)
    ensures k <= |parts| ==> Offset(Final(parts), k) == Offset(parts, k)
  {
    SameOffsets(Final(parts), All(parts), k);
    if k <= |parts| {
      OffsetPrefix(parts, [RootTable(parts, 4), RootTable(parts, 8)], k);
    }
  }

  /** The tables before RSDT and XSDT as `table` makes them. */
  ghost predicate WellMade(parts: seq<seq<byte>>) {
    && |parts| >= 3 && |parts[2]| == FADT_LENGTH
    && (forall k :: 0 <= k < |parts| ==> |parts[k]| >= HEADER && parts[k][4..8] == Le(|parts[k]|, 4))
    && parts[0][0..4] == FACS
    && (forall k :: 2 <= k < |parts| ==> (parts[k][0..4] == FACP <==> k == 2))
  }

  lemma {:induction false} PartsWellMade(p: Platform)
    requires p.Ok()
    ensures WellMade(Parts(p))
  {
    var parts := Parts(p);
    forall k | 3 <= k < |parts|
      ensures |parts[k]| >= HEADER && parts[k][4..8] == Le(|parts[k]|, 4) && parts[k][0..4] != FACP
    {
      assert parts[k] == Table(p.others[k - 3]);
    }
  }

  /** RSDT and XSDT come after all other tables. */
  lemma {:induction false} Below(parts: seq<seq<byte>>, k: nat)
    requires |parts| >= 3 && k <= |parts| && Offset(All(parts), |parts| + 2) <= WORDS
    ensures Offset(All(parts), k) + HEADER < WORDS && (k < |parts| ==> |All(parts)[k]| < WORDS)
  {
    var n := |parts|;
    assert |All(parts)[n]| >= HEADER && |All(parts)[n + 1]| >= HEADER;
    OffsetGrows(All(parts), k, n);
    assert Offset(All(parts), n + 2) == Offset(All(parts), n) + |All(parts)[n]| + |All(parts)[n + 1]|;
  }

  lemma {:induction false} FinalRoot(parts: seq<seq<byte>>, size: nat)
    requires |parts| >= 3 && |parts[2]| == FADT_LENGTH && (size == 4 || size == 8) && Offset(All(parts), |parts| + 2) <= WORDS
    ensures RootOk(Final(parts), size)
  {
    var all := Final(parts);
    var n := |parts| - 2;
    var root := RootTable(parts, size);
    forall i | 0 <= i < n
      ensures Number(root, HEADER + Scale(size, i), Offset(all, i + 2), size)
    {
      FinalOffsets(parts, i + 2);
      Below(parts, i + 2);
      RootEntry(parts, size, n, i);
      RootNumber(root, RootBody(parts, size, n), size, i, Offset(all, i + 2));
    }
  }

  lemma {:induction false} RootNumber(table: seq<byte>, body: seq<byte>, size: nat, i: nat, value: nat)
    requires HEADER <= |table| && table[HEADER..] == body && HasEntry(body, size, i, value)
    requires value < WORDS && (size == 4 || size == 8)
    ensures Number(table, HEADER + Scale(size, i), value, size)
  {
    var at := Scale(size, i);
    SliceOfSlice(table, HEADER, |table|, at, at + size);
    assert table[HEADER..|table|] == table[HEADER..];
    LeNumber(table, HEADER + at, value, size);
  }

  lemma {:induction false} FinalFadt(parts: seq<seq<byte>>)
    requires |parts| >= 3 && |parts[2]| == FADT_LENGTH && Offset(All(parts), |parts| + 2) <= WORDS
    ensures FadtOk(Final(parts)) && Final(parts)[2][0..8] == parts[2][0..8]
  {
    var facs, dsdt := Offset(All(parts), 0), Offset(All(parts), 1);
    FinalOffsets(parts, 0);
    FinalOffsets(parts, 1);
    Below(parts, 1);
    WithPointersSets(parts[2], facs, dsdt);
    LeExact(facs, 4);
    LeExact(facs, 8);
    LeExact(dsdt, 4);
    LeExact(dsdt, 8);
  }

  /** The first eight bytes are the signature and the length. */
  lemma {:induction false} HeaderBytes(a: seq<byte>, b: seq<byte>, length: nat)
    requires |a| >= 8 && |b| >= 8 && a[0..8] == b[0..8] && b[4..8] == Le(length, 4) && length < WORDS
    ensures Number(a, 4, length, 4) && a[0..4] == b[0..4]
  {
    LeExact(length, 4);
    assert a[0..4] == a[0..8][0..4] && a[4..8] == a[0..8][4..8];
    assert b[0..4] == b[0..8][0..4] && b[4..8] == b[0..8][4..8];
  }

  lemma {:induction false} AllHeader(parts: seq<seq<byte>>, k: nat)
    requires WellMade(parts) && k < |parts| + 2
    ensures |All(parts)[k]| >= HEADER && All(parts)[k][4..8] == Le(|All(parts)[k]|, 4)
  {
    if k >= |parts| {
      assert All(parts)[k] == RootTable(parts, if k == |parts| then 4 else 8);
    }
  }

  lemma {:induction false} ShortTable(parts: seq<seq<byte>>, k: nat)
    requires WellMade(parts) && Offset(All(parts), |parts| + 2) <= WORDS && k < |parts| + 2
    ensures |All(parts)[k]| < WORDS
  {
    assert All(parts)[0] == parts[0];
    if k == 0 {
      Below(parts, 0);
    } else {
      OffsetGrows(All(parts), 0, k);
      OffsetGrows(All(parts), k, |parts| + 2);
    }
  }

  lemma {:induction false} FinalHeader(parts: seq<seq<byte>>, k: nat)
    requires WellMade(parts) && Offset(All(parts), |parts| + 2) <= WORDS && k < |parts| + 2
    ensures |Final(parts)[k]| >= HEADER && Number(Final(parts)[k], 4, |Final(parts)[k]|, 4)
    ensures k < |parts| ==> Final(parts)[k][0..4] == parts[k][0..4]
  {
    var all := All(parts);
    ShortTable(parts, k);
    AllHeader(parts, k);
    if k == 2 {
      FinalFadt(parts);
      HeaderBytes(Final(parts)[2], parts[2], FADT_LENGTH);
    } else {
      HeaderBytes(all[k], all[k], |all[k]|);
    }
  }

  /** What is built is laid out as the script takes it. */
  lemma {:induction false} FinalLaid(parts: seq<seq<byte>>)
    requires WellMade(parts) && Offset(All(parts), |parts| + 2) <= WORDS
    ensures Laid(Final(parts))
  {
    FinalRoot(parts, 4);
    FinalRoot(parts, 8);
    FinalFadt(parts);
    forall k | 0 <= k < |parts| + 2
      ensures |Final(parts)[k]| >= HEADER && Number(Final(parts)[k], 4, |Final(parts)[k]|, 4)
      ensures k < |parts| ==> Final(parts)[k][0..4] == parts[k][0..4]
    {
      FinalHeader(parts, k);
    }
  }

  // ---- The buffer ----

  /** Data put into the buffer. */
  method SetAt(a: array<byte>, data: seq<byte>, at: nat)
    requires at + |data| <= a.Length
    modifies a
    ensures a[..] == Splice(old(a[..]), at, data)
  {
    var i := 0;
    while i < |data|
      invariant 0 <= i <= |data|
      invariant forall k :: 0 <= k < a.Length ==> a[k] == if at <= k < at + i then data[k - at] else old(a[k])
    {
      a[at + i] := data[i];
      i := i + 1;
    }
  }

  lemma {:induction false} ConcatNext(all: seq<seq<byte>>, k: nat)
    requires k < |all|
    ensures Concat(all[..k + 1]) == Concat(all[..k]) + all[k]
  {
    assert all[..k + 1][..k] == all[..k];
  }

  lemma {:induction false} OffsetOfPrefix(all: seq<seq<byte>>, k: nat)
    requires k <= |all|
    ensures |Concat(all[..k])| == Offset(all, k)
  {
    assert all[..k] + all[k..] == all;
    OffsetPrefix(all[..k], all[k..], k);
  }

  method Layout(all: seq<seq<byte>>) returns (layout: seq<nat>, size: nat)
    ensures |layout| == |all| && size == Offset(all, |all|)
    ensures forall i :: 0 <= i < |all| ==> layout[i] == Offset(all, i)
  {
    layout, size := [], 0;
    var k := 0;
    while k < |all|
      invariant 0 <= k <= |all| && size == Offset(all, k)
      invariant |layout| == k && forall i :: 0 <= i < k ==> layout[i] == Offset(all, i)
    {
      layout := layout + [size];
      size := size + |all[k]|;
      k := k + 1;
    }
  }

  lemma {:induction false} SplicePrefix(t: seq<byte>, at: nat, data: seq<byte>)
    requires at + |data| <= |t|
    ensures Splice(t, at, data)[..at + |data|] == t[..at] + data
  {
  }

  /** All tables in one buffer. */
  method FillTables(all: seq<seq<byte>>, layout: seq<nat>, size: nat) returns (tables: array<byte>)
    requires |layout| == |all| && size == Offset(all, |all|)
    requires forall i :: 0 <= i < |all| ==> layout[i] == Offset(all, i)
    ensures fresh(tables) && tables[..] == Concat(all)
  {
    tables := new byte[size];
    var k := 0;
    ghost var done := 0;
    while k < |all|
      invariant 0 <= k <= |all| && fresh(tables) && tables.Length == size
      invariant done == Offset(all, k) <= size && tables[..done] == Concat(all[..k])
    {
      OffsetGrows(all, k + 1, |all|);
      ConcatNext(all, k);
      SplicePrefix(tables[..], layout[k], all[k]);
      SetAt(tables, all[k], layout[k]);
      done := done + |all[k]|;
      k := k + 1;
    }
    assert all[..|all|] == all;
  }

  lemma {:induction false} ConcatSnoc(front: seq<seq<byte>>, last: seq<byte>)
    ensures Concat(front + [last]) == Concat(front) + last
  {
    assert (front + [last])[..|front|] == front;
  }

  lemma {:induction false} ConcatAppend(a: seq<seq<byte>>, b: seq<seq<byte>>)
    ensures Concat(a + b) == Concat(a) + Concat(b)
    decreases |b|
  {
    if b == [] {
      assert a + b == a;
    } else {
      var n := |b| - 1;
      ConcatAppend(a, b[..n]);
      ConcatSnoc(a + b[..n], b[n]);
      ConcatSnoc(b[..n], b[n]);
      assert a + b == (a + b[..n]) + [b[n]] && b == b[..n] + [b[n]];
      assert Concat(a) + Concat(b[..n]) + b[n] == Concat(a) + (Concat(b[..n]) + b[n]);
    }
  }

  lemma {:induction false} ConcatAround(all: seq<seq<byte>>, k: nat)
    requires k < |all|
    ensures Concat(all) == Concat(all[..k]) + all[k] + Concat(all[k + 1..])
  {
    assert all == all[..k + 1] + all[k + 1..];
    ConcatAppend(all[..k + 1], all[k + 1..]);
    ConcatNext(all, k);
  }

  lemma {:induction false} SpliceMiddle(whole: seq<byte>, a: seq<byte>, b: seq<byte>, c: seq<byte>, offset: nat, at: nat, part: seq<byte>)
    requires at + |part| <= |b| && whole == a + b + c && offset == |a|
    ensures offset + |b| <= |whole| && Splice(whole, offset + at, part) == a + Splice(b, at, part) + c
  {
  }

  /** Writing to a table of the file. */
  lemma {:induction false} SpliceInPart(all: seq<seq<byte>>, k: nat, at: nat, part: seq<byte>)
    requires k < |all| && at + |part| <= |all[k]|
    ensures Offset(all, k) + |all[k]| <= |Concat(all)|
    ensures Splice(Concat(all), Offset(all, k) + at, part) == Concat(all[k := Splice(all[k], at, part)])
  {
    var next := all[k := Splice(all[k], at, part)];
    OffsetOfPrefix(all, k);
    ConcatAround(all, k);
    ConcatAround(next, k);
    assert next[..k] == all[..k] && next[k + 1..] == all[k + 1..];
    SpliceMiddle(Concat(all), Concat(all[..k]), all[k], Concat(all[k + 1..]), Offset(all, k), at, part);
  }

  /** A table written to in the buffer. */
  method SetInPart(tables: array<byte>, ghost all: seq<seq<byte>>, k: nat, offset: nat, at: nat, part: seq<byte>)
    requires k < |all| && at + |part| <= |all[k]| && offset == Offset(all, k) && tables[..] == Concat(all)
    modifies tables
    ensures tables[..] == Concat(all[k := Splice(all[k], at, part)])
  {
    SpliceInPart(all, k, at, part);
    SetAt(tables, part, offset + at);
  }

  /** The pointers of the FADT, set in the buffer. */
  method SetFadtPointers(tables: array<byte>, ghost all: seq<seq<byte>>, fadt: nat, facs: nat, dsdt: nat)
    requires |all| >= 5 && |all[2]| == FADT_LENGTH && fadt == Offset(all, 2) && tables[..] == Concat(all)
    modifies tables
    ensures tables[..] == Concat(all[2 := WithPointers(all[2], facs, dsdt)])
  {
    var pointer := LittleEndian(facs, 4);
    SetInPart(tables, all, 2, fadt, FADT_FIRMWARE_CTRL, pointer);
    ghost var a1 := all[2 := Splice(all[2], FADT_FIRMWARE_CTRL, pointer)];
    SameOffsets(all, a1, 2);
    pointer := LittleEndian(dsdt, 4);
    SetInPart(tables, a1, 2, fadt, FADT_DSDT, pointer);
    ghost var a2 := a1[2 := Splice(a1[2], FADT_DSDT, pointer)];
    SameOffsets(all, a2, 2);
    pointer := LittleEndian(facs, 8);
    SetInPart(tables, a2, 2, fadt, FADT_X_FIRMWARE_CTRL, pointer);
    ghost var a3 := a2[2 := Splice(a2[2], FADT_X_FIRMWARE_CTRL, pointer)];
    SameOffsets(all, a3, 2);
    pointer := LittleEndian(dsdt, 8);
    SetInPart(tables, a3, 2, fadt, FADT_X_DSDT, pointer);
    assert a3[2 := Splice(a3[2], FADT_X_DSDT, pointer)] == all[2 := WithPointers(all[2], facs, dsdt)];
  }

  method BuildTables(parts: seq<seq<byte>>) returns (tables: array<byte>, layout: seq<nat>)
    requires |parts| >= 3 && |parts[2]| == FADT_LENGTH
    ensures fresh(tables) && tables[..] == Concat(Final(parts))
    ensures |layout| == |parts| + 2 && forall i :: 0 <= i < |layout| ==> layout[i] == Offset(All(parts), i)
  {
    var all := All(parts);
    var size: nat;
    layout, size := Layout(all);
    tables := FillTables(all, layout, size);
    SetFadtPointers(tables, all, layout[2], layout[0], layout[1]);
  }

  /** build_acpi_tables, for parts that `table` made. */
  method BuildAcpiTables(parts: seq<seq<byte>>) returns (tables: array<byte>, rsdp: seq<byte>, loader: seq<byte>)
    requires |parts| >= 3 && |parts[2]| == FADT_LENGTH
    ensures fresh(tables) && tables[..] == Concat(Final(parts))
    ensures Image(tables[..], rsdp) == Loaded(Final(parts))
    ensures loader == Flat(EncodeAll(Script(Final(parts))))
  {
    var layout: seq<nat>;
    tables, layout := BuildTables(parts);
    FinalOffsets(parts, |parts|);
    FinalOffsets(parts, |parts| + 1);
    rsdp := RsdpFile(layout[|parts|], layout[|parts| + 1]);
    loader := Flat(EncodeAll(Script(Final(parts))));
  }

  lemma {:induction false} CommandFits(all: seq<seq<byte>>, k: nat)
    requires Sized(all) && Offset(all, |all|) <= WORDS && k < |Script(all)|
    requires forall t :: 0 <= t < |all| ==> |all[t]| >= HEADER
    ensures AcpiEntries.Fits(Script(all)[k])
  {
    ScriptAt(all, k);
    var n := SumsAt(all);
    if 2 <= k < n - 2 {
      PointerPart(all, k - 2);
      OffsetGrows(all, PartOf(all, k - 2), |all|);
    } else if n <= k < n + |all| - 1 {
      OffsetGrows(all, 0, k - n + 1);
      OffsetGrows(all, k - n + 1, |all|);
    }
  }

  /** The firmware reads the script as it was meant. */
  lemma {:induction false} LoaderReadsBack(all: seq<seq<byte>>)
    requires Sized(all) && Offset(all, |all|) <= WORDS
    requires forall t :: 0 <= t < |all| ==> |all[t]| >= HEADER
    ensures DecodeAll(Flat(EncodeAll(Script(all)))) == Some(Script(all))
  {
    forall k | 0 <= k < |Script(all)|
      ensures AcpiEntries.Fits(Script(all)[k])
    {
      CommandFits(all, k);
    }
    ScriptRoundTrip(Script(all));
  }
}
