/**
 The ACPI tables as src/acpi_tables.js lays them out in one file, with the script that links them:
 whatever address the firmware loads the file at, all pointers lead to the tables and all checksums
 hold.
 */
module AcpiTables {
  import opened Bytes
  import opened AcpiLoader
  import opened AcpiEntries

  const HEADER: nat := 36
  const FADT_FIRMWARE_CTRL: nat := 36
  const FADT_DSDT: nat := 40
  const FADT_X_FIRMWARE_CTRL: nat := 132
  const FADT_X_DSDT: nat := 140
  const FADT_LENGTH: nat := 244

  const OEM_ID: seq<byte> := [0x56, 0x38, 0x36, 0x20, 0x20, 0x20]
  const CREATOR_ID: seq<byte> := [0x56, 0x38, 0x36, 0x20]
  const FACS: seq<byte> := [0x46, 0x41, 0x43, 0x53]
  const FACP: seq<byte> := [0x46, 0x41, 0x43, 0x50]
  const DSDT: seq<byte> := [0x44, 0x53, 0x44, 0x54]
  const RSDT: seq<byte> := [0x52, 0x53, 0x44, 0x54]
  const XSDT: seq<byte> := [0x58, 0x53, 0x44, 0x54]
  /** "RSD PTR " */
  const RSD_PTR: seq<byte> := [0x52, 0x53, 0x44, 0x20, 0x50, 0x54, 0x52, 0x20]

  // ---- Tables ----

  /** What `table` takes, with the table id padded to 8 characters. */
  datatype Definition = Definition(signature: seq<byte>, revision: byte, id: seq<byte>, body: seq<byte>) {
    predicate Ok() {
      |signature| == 4 && |id| == 8
    }
  }

  /** table: a header with the length, and no checksum yet. */
  function Table(d: Definition): (t: seq<byte>)
    requires d.Ok()
    ensures |t| == HEADER + |d.body| && t[0..4] == d.signature && t[4..8] == Le(|t|, 4) && t[HEADER..] == d.body
  {
    d.signature + Le(HEADER + |d.body|, 4) + [d.revision, 0] + OEM_ID + d.id + Le(1, 4) + CREATOR_ID + Le(1, 4) + d.body
  }

  /** The texts of signatures and makers. */
  lemma {:induction false} Texts()
    ensures FACS == Ascii("FACS") && FACP == Ascii("FACP") && DSDT == Ascii("DSDT") && RSDT == Ascii("RSDT") && XSDT == Ascii("XSDT")
    ensures RSD_PTR == Ascii("RSD PTR ") && OEM_ID == Ascii("V86   ") && CREATOR_ID == Ascii("V86 ")
  {
  }

  /** The rest of the header: revision, no checksum yet, the maker of the table and its id and of the tool, each of revision 1. */
  lemma {:induction false} TableHeader(d: Definition)
    requires d.Ok()
    ensures var t := Table(d);
            && t[8..9] == [d.revision] && t[9..10] == [0] && t[10..16] == OEM_ID && t[16..24] == d.id
            && t[24..28] == Le(1, 4) && t[28..32] == CREATOR_ID && t[32..36] == Le(1, 4)
  {
    var head := d.signature + Le(HEADER + |d.body|, 4);
    var one: seq<byte> := Le(1, 4);
    HeaderSlices(head, d.revision, d.id, one, d.body);
    var t := head + [d.revision, 0] + OEM_ID + d.id + one + CREATOR_ID + one + d.body;
    assert Table(d) == t;
    assert t == head + [d.revision] + [0] + OEM_ID + d.id + one + CREATOR_ID + one + d.body;
  }

  lemma {:induction false} HeaderSlices(head: seq<byte>, revision: byte, id: seq<byte>, one: seq<byte>, body: seq<byte>)
    requires |head| == 8 && |id| == 8 && |one| == 4
    ensures var t := head + [revision] + [0] + OEM_ID + id + one + CREATOR_ID + one + body;
            && t[8..9] == [revision] && t[9..10] == [0] && t[10..16] == OEM_ID && t[16..24] == id
            && t[24..28] == one && t[28..32] == CREATOR_ID && t[32..36] == one
  {
    var front := head + [revision] + [0] + OEM_ID + id;
    var rest := one + CREATOR_ID + one + body;
    Fields(head, [revision], [0], OEM_ID, id, rest);
    Fields(front, one, CREATOR_ID, one, [], body);
    assert front + one + CREATOR_ID + one + [] + body == front + one + CREATOR_ID + one + body;
    assert front + rest == front + one + CREATOR_ID + one + body;
  }

  function Facs(): (t: seq<byte>)
    ensures |t| == 64 && t[0..4] == FACS && t[4..8] == Le(64, 4)
  {
    Versioned(FACS + Le(64, 4), 24, 31)
  }

  /** The FACS is zeros after its length, but for version 1 at 32. */
  lemma {:induction false} FacsMeans(k: nat)
    requires 8 <= k < 64
    ensures Facs()[k] == if k == 32 then 1 else 0
  {
    VersionedMeans(FACS + Le(64, 4), 24, 31, k);
  }

  lemma {:induction false} VersionedMeans(head: seq<byte>, before: nat, after: nat, k: nat)
    requires |head| <= k < |head| + before + 1 + after
    ensures Versioned(head, before, after)[k] == if k == |head| + before then 1 else 0
  {
  }

  /** A 1 among zeros, after the head. */
  function Versioned(head: seq<byte>, before: nat, after: nat): (t: seq<byte>)
    ensures |t| == |head| + before + 1 + after && t[..|head|] == head
  {
    head + Zeros(before) + [1] + Zeros(after)
  }

  // ---- One file ----

  function Offset(all: seq<seq<byte>>, k: nat): nat
    requires k <= |all|
  {
    if k == 0 then 0 else Offset(all, k - 1) + |all[k - 1]|
  }

  lemma {:induction false} OffsetGrows(all: seq<seq<byte>>, j: nat, k: nat)
    requires j <= k <= |all|
    ensures Offset(all, j) <= Offset(all, k)
    ensures j < k ==> Offset(all, j) + |all[j]| <= Offset(all, k)
    decreases k
  {
    if j < k {
      OffsetGrows(all, j, k - 1);
    }
  }

  lemma {:induction false} OffsetPrefix(all: seq<seq<byte>>, more: seq<seq<byte>>, k: nat)
    requires k <= |all|
    ensures Offset(all + more, k) == Offset(all, k)
  {
    if k > 0 {
      OffsetPrefix(all, more, k - 1);
    }
  }

  function Concat(all: seq<seq<byte>>): (r: seq<byte>)
    ensures |r| == Offset(all, |all|)
    decreases |all|
  {
    if all == [] then []
    else
      OffsetPrefix(all[..|all| - 1], [all[|all| - 1]], |all| - 1);
      assert all[..|all| - 1] + [all[|all| - 1]] == all;
      Concat(all[..|all| - 1]) + all[|all| - 1]
  }

  lemma {:induction false} PartInConcat(all: seq<seq<byte>>, k: nat)
    requires k < |all|
    ensures Offset(all, k) + |all[k]| <= |Concat(all)|
    ensures Concat(all)[Offset(all, k)..Offset(all, k) + |all[k]|] == all[k]
    decreases |all|
  {
    var n := |all| - 1;
    assert all[..n] + [all[n]] == all;
    OffsetPrefix(all[..n], [all[n]], k);
    OffsetGrows(all, k, |all|);
    if k < n {
      PartInConcat(all[..n], k);
    }
  }

  /** A slice of a table is a slice of the file. */
  lemma {:induction false} SliceInFile(all: seq<seq<byte>>, k: nat, lo: nat, hi: nat)
    requires k < |all| && lo <= hi <= |all[k]|
    ensures Offset(all, k) + |all[k]| <= |Concat(all)|
    ensures Concat(all)[Offset(all, k) + lo..Offset(all, k) + hi] == all[k][lo..hi]
  {
    PartInConcat(all, k);
    SliceOfSlice(Concat(all), Offset(all, k), Offset(all, k) + |all[k]|, lo, hi);
  }

  // ---- The tables of the file ----

  /** The tables that RSDT and XSDT list: all but FACS, DSDT and themselves. */
  function Listed(all: seq<seq<byte>>): nat
    requires |all| >= 5
  {
    |all| - 4
  }

  /** RSDT comes before XSDT, which is last; their entries have 4 and 8 bytes. */
  function Root(all: seq<seq<byte>>, size: nat): nat
    requires |all| >= 5
  {
    if size == 4 then |all| - 2 else |all| - 1
  }

  /** The size of i entries of 4 or 8 bytes. */
  function Scale(size: nat, i: nat): nat {
    if size == 4 then 4 * i else 8 * i
  }

  /** The slice of a table is the number. */
  predicate Number(table: seq<byte>, at: nat, value: nat, size: nat) {
    at + size <= |table| && ValueOf(table[at..at + size]) == value
  }

  /** The tables with pointers have room for them. */
  predicate Sized(all: seq<seq<byte>>) {
    && |all| >= 5 && |all[2]| == FADT_LENGTH
    && |all[|all| - 2]| == HEADER + 4 * Listed(all) && |all[|all| - 1]| == HEADER + 8 * Listed(all)
  }

  ghost predicate RootOk(all: seq<seq<byte>>, size: nat)
    requires |all| >= 5
  {
    var root := all[Root(all, size)];
    forall i :: 0 <= i < Listed(all) ==> Number(root, HEADER + Scale(size, i), Offset(all, i + 2), size)
  }

  ghost predicate FadtOk(all: seq<seq<byte>>)
    requires |all| >= 5
  {
    && Number(all[2], FADT_FIRMWARE_CTRL, Offset(all, 0), 4) && Number(all[2], FADT_DSDT, Offset(all, 1), 4)
    && Number(all[2], FADT_X_FIRMWARE_CTRL, Offset(all, 0), 8) && Number(all[2], FADT_X_DSDT, Offset(all, 1), 8)
  }

  /** FACS, DSDT, FADT, any other tables, RSDT and XSDT, with offsets for pointers. */
  ghost predicate Laid(all: seq<seq<byte>>) {
    && Sized(all) && FadtOk(all) && RootOk(all, 4) && RootOk(all, 8)
    && (forall k :: 0 <= k < |all| ==> |all[k]| >= HEADER && Number(all[k], 4, |all[k]|, 4))
    && all[0][0..4] == FACS
    && (forall k :: 2 <= k < |all| - 2 ==> (all[k][0..4] == FACP <==> k == 2))
  }

  /** The file etc/acpi/rsdp. */
  function RsdpFile(rsdt: nat, xsdt: nat): (r: seq<byte>)
    ensures |r| == 36 && r[0..8] == RSD_PTR && r[9..16] == OEM_ID + [2]
    ensures r[16..20] == Le(rsdt, 4) && r[24..32] == Le(xsdt, 8)
  {
    RSD_PTR + [0] + (OEM_ID + [2]) + Le(rsdt, 4) + Le(36, 4) + Le(xsdt, 8) + [0, 0, 0, 0]
  }

  /** Its own length, no checksums yet, and zeros at the end. */
  lemma {:induction false} RsdpRest(rsdt: nat, xsdt: nat)
    ensures var r := RsdpFile(rsdt, xsdt); r[8..9] == [0] && r[20..24] == Le(36, 4) && r[32..36] == [0, 0, 0, 0]
  {
    var a, b := Le(rsdt, 4), Le(xsdt, 8);
    Fields(RSD_PTR, [0], OEM_ID + [2], a, Le(36, 4), b + [0, 0, 0, 0]);
    Fields(RSD_PTR + [0] + (OEM_ID + [2]) + a, Le(36, 4), b, [0, 0, 0, 0], [], []);
    var r := RSD_PTR + [0] + (OEM_ID + [2]) + a + Le(36, 4) + b + [0, 0, 0, 0];
    assert r == RSD_PTR + [0] + (OEM_ID + [2]) + a + Le(36, 4) + (b + [0, 0, 0, 0]);
    assert r == RSD_PTR + [0] + (OEM_ID + [2]) + a + Le(36, 4) + b + [0, 0, 0, 0] + [] + [];
  }

  // ---- The script ----

  function FadtPointers(fadt: nat): (r: seq<Command>)
    ensures |r| == 4
  {
    [AddPointer(Tables, Tables, fadt + FADT_FIRMWARE_CTRL, 4), AddPointer(Tables, Tables, fadt + FADT_DSDT, 4),
     AddPointer(Tables, Tables, fadt + FADT_X_FIRMWARE_CTRL, 8), AddPointer(Tables, Tables, fadt + FADT_X_DSDT, 8)]
  }

  function RootPointers(at: nat, size: nat, n: nat): (r: seq<Command>)
    ensures |r| == n && forall i :: 0 <= i < n ==> r[i] == AddPointer(Tables, Tables, at + HEADER + Scale(size, i), size)
  {
    if n == 0 then []
    else RootPointers(at, size, n - 1) + [AddPointer(Tables, Tables, at + HEADER + Scale(size, n - 1), size)]
  }

  /** The pointers of the tables, in ascending order. */
  function TablePointers(all: seq<seq<byte>>): (r: seq<Command>)
    requires |all| >= 5
    ensures |r| == 4 + 2 * Listed(all)
  {
    FadtPointers(Offset(all, 2)) + RootPointers(Offset(all, |all| - 2), 4, Listed(all))
    + RootPointers(Offset(all, |all| - 1), 8, Listed(all))
  }

  /** One checksum for each table but the FACS. */
  function TableSums(all: seq<seq<byte>>, n: nat): (r: seq<Command>)
    requires n < |all|
    ensures |r| == n
    ensures forall i :: 0 <= i < n ==> r[i] == AddChecksum(Tables, Offset(all, i + 1) + 9, Offset(all, i + 1), |all[i + 1]|)
  {
    if n == 0 then []
    else TableSums(all, n - 1) + [AddChecksum(Tables, Offset(all, n) + 9, Offset(all, n), |all[n]|)]
  }

  function Script(all: seq<seq<byte>>): seq<Command>
    requires |all| >= 5
  {
    [Allocate(Rsdp, 16, Fseg), Allocate(Tables, 64, High)]
    + TablePointers(all)
    + [AddPointer(Rsdp, Tables, 16, 4), AddPointer(Rsdp, Tables, 24, 8)]
    + TableSums(all, |all| - 1)
    + [AddChecksum(Rsdp, 8, 0, 20), AddChecksum(Rsdp, 32, 0, 36)]
  }

  /** Where the checksum of the first table is in the script. */
  function SumsAt(all: seq<seq<byte>>): nat
    requires |all| >= 5
  {
    8 + 2 * Listed(all)
  }

  lemma {:induction false} ScriptAt(all: seq<seq<byte>>, k: nat)
    requires |all| >= 5
    ensures |Script(all)| == SumsAt(all) + |all| + 1
    ensures k < |Script(all)| ==>
              var c, n := Script(all)[k], SumsAt(all);
              && (k < 2 ==> c.Allocate?)
              && (2 <= k < n - 2 ==> c == TablePointers(all)[k - 2])
              && (n - 2 <= k < n ==> c == if k == n - 2 then AddPointer(Rsdp, Tables, 16, 4) else AddPointer(Rsdp, Tables, 24, 8))
              && (n <= k < n + |all| - 1 ==>
                    c == AddChecksum(Tables, Offset(all, k - n + 1) + 9, Offset(all, k - n + 1), |all[k - n + 1]|))
              && (n + |all| - 1 <= k ==> c == if k == n + |all| - 1 then AddChecksum(Rsdp, 8, 0, 20) else AddChecksum(Rsdp, 32, 0, 36))
  {
  }

  /** Pointer i is one of the FADT, the RSDT or the XSDT. */
  lemma {:induction false} PointerAt(all: seq<seq<byte>>, i: nat)
    requires |all| >= 5 && i < |TablePointers(all)|
    ensures i < 4 ==> TablePointers(all)[i] == FadtPointers(Offset(all, 2))[i]
    ensures 4 <= i < 4 + Listed(all) ==>
              TablePointers(all)[i] == AddPointer(Tables, Tables, Offset(all, |all| - 2) + HEADER + Scale(4, i - 4), 4)
    ensures 4 + Listed(all) <= i ==>
              TablePointers(all)[i]
              == AddPointer(Tables, Tables, Offset(all, |all| - 1) + HEADER + Scale(8, i - 4 - Listed(all)), 8)
  {
  }

  // ---- No command undoes another ----

  /** The table that pointer i is in. */
  function PartOf(all: seq<seq<byte>>, i: nat): nat
    requires |all| >= 5
  {
    if i < 4 then 2 else if i < 4 + Listed(all) then |all| - 2 else |all| - 1
  }

  /** The table that pointer i leads to. */
  function Target(all: seq<seq<byte>>, i: nat): (t: nat)
    requires |all| >= 5 && i < 4 + 2 * Listed(all)
    ensures t < |all| - 2
  {
    if i < 4 then i % 2 else if i < 4 + Listed(all) then i - 2 else i - 2 - Listed(all)
  }

  /** A pointer is in the body of its table. */
  lemma {:induction false} PointerPart(all: seq<seq<byte>>, i: nat)
    requires Sized(all) && i < |TablePointers(all)|
    ensures var c, p := TablePointers(all)[i], PartOf(all, i);
            && c.AddPointer? && c.dest == Tables && c.src == Tables && (c.size == 4 || c.size == 8)
            && Offset(all, p) + HEADER <= c.offset
            && c.offset + c.size <= Offset(all, p) + |all[p]|
  {
  }

  lemma {:induction false} PointersApart(all: seq<seq<byte>>, i: nat, j: nat)
    requires Sized(all) && i < j < |TablePointers(all)|
    ensures TablePointers(all)[i].AddPointer? && TablePointers(all)[j].AddPointer?
    ensures TablePointers(all)[i].offset + TablePointers(all)[i].size <= TablePointers(all)[j].offset
  {
    PointerPart(all, i);
    PointerPart(all, j);
    OffsetGrows(all, PartOf(all, i), PartOf(all, j));
  }

  lemma {:induction false} OthersAvoidPointer(all: seq<seq<byte>>, i: nat, k: nat)
    requires Sized(all)
    requires i < |TablePointers(all)| && k < |Script(all)| && k != i + 2
    ensures TablePointers(all)[i].AddPointer?
    ensures var c := TablePointers(all)[i]; !Touches(Script(all)[k], Tables, c.offset, c.offset + c.size)
  {
    ScriptAt(all, k);
    PointerPart(all, i);
    var n := SumsAt(all);
    if 2 <= k < n - 2 {
      if k - 2 < i {
        PointersApart(all, k - 2, i);
      } else {
        PointersApart(all, i, k - 2);
      }
    } else if n <= k < n + |all| - 1 {
      var j, p := k - n + 1, PartOf(all, i);
      if j <= p {
        OffsetGrows(all, j, p);
      } else {
        OffsetGrows(all, p, j);
      }
    }
  }

  /** After the checksum of table t no byte of the table is written. */
  lemma {:induction false} LaterAvoidTable(all: seq<seq<byte>>, t: nat, k: nat)
    requires |all| >= 5 && 1 <= t < |all| && SumsAt(all) + t - 1 < k < |Script(all)|
    ensures !Touches(Script(all)[k], Tables, Offset(all, t), Offset(all, t) + |all[t]|)
  {
    ScriptAt(all, k);
    var j := k - SumsAt(all) + 1;
    if j < |all| {
      OffsetGrows(all, t, j);
    }
  }

  /** Signatures and lengths are never written. */
  lemma {:induction false} AllAvoidHeader(all: seq<seq<byte>>, t: nat, k: nat)
    requires Sized(all) && t < |all| && k < |Script(all)|
    requires forall j :: 0 <= j < |all| ==> |all[j]| >= HEADER
    ensures !Touches(Script(all)[k], Tables, Offset(all, t), Offset(all, t) + 8)
  {
    ScriptAt(all, k);
    var n := SumsAt(all);
    if 2 <= k < n - 2 {
      PointerPart(all, k - 2);
      var p := PartOf(all, k - 2);
      if p < t {
        OffsetGrows(all, p, t);
      } else {
        OffsetGrows(all, t, p);
      }
    } else if n <= k < n + |all| - 1 {
      var j := k - n + 1;
      if j < t {
        OffsetGrows(all, j, t);
      } else {
        OffsetGrows(all, t, j);
      }
    }
  }

  // ---- Linked ----

  lemma {:induction false} Powers()
    ensures Pow(4) == WORDS && Pow(8) == WORDS * WORDS
  {
    assert Pow(4) == 256 * Pow(3) && Pow(3) == 256 * Pow(2) && Pow(2) == 256 * Pow(1) && Pow(1) == 256;
    assert Pow(8) == 256 * Pow(7) && Pow(7) == 256 * Pow(6) && Pow(6) == 256 * Pow(5) && Pow(5) == 256 * Pow(4);
  }

  /** Every number below 2^32 is read back from a field of 4 or 8 bytes. */
  lemma {:induction false} LeExact(v: nat, size: nat)
    requires v < WORDS && (size == 4 || size == 8)
    ensures ValueOf(Le(v, size)) == v
  {
    Powers();
    LeValue(v, size);
  }

  lemma {:induction false} LeNumber(table: seq<byte>, at: nat, value: nat, size: nat)
    requires at + size <= |table| && table[at..at + size] == Le(value, size) && value < WORDS && (size == 4 || size == 8)
    ensures Number(table, at, value, size)
  {
    LeExact(value, size);
  }

  /** A field of a table is a field of the file. */
  lemma {:induction false} NumberInFile(all: seq<seq<byte>>, k: nat, at: nat, value: nat, size: nat)
    requires k < |all| && Number(all[k], at, value, size)
    ensures Number(Concat(all), Offset(all, k) + at, value, size)
  {
    SliceInFile(all, k, at, at + size);
  }

  /** The command's pointer holds the offset of table t in the file. */
  predicate PointsTo(all: seq<seq<byte>>, c: Command, t: nat) {
    c.AddPointer? && t < |all| && Number(Concat(all), c.offset, Offset(all, t), c.size)
  }

  lemma {:induction false} FadtPointerHolds(all: seq<seq<byte>>, i: nat)
    requires |all| >= 5 && FadtOk(all) && i < 4
    ensures PointsTo(all, FadtPointers(Offset(all, 2))[i], i % 2)
  {
    NumberInFile(all, 2, FADT_FIRMWARE_CTRL, Offset(all, 0), 4);
    NumberInFile(all, 2, FADT_DSDT, Offset(all, 1), 4);
    NumberInFile(all, 2, FADT_X_FIRMWARE_CTRL, Offset(all, 0), 8);
    NumberInFile(all, 2, FADT_X_DSDT, Offset(all, 1), 8);
  }

  lemma {:induction false} RootPointerHolds(all: seq<seq<byte>>, size: nat, i: nat)
    requires |all| >= 5 && (size == 4 || size == 8) && RootOk(all, size) && i < Listed(all)
    ensures PointsTo(all, AddPointer(Tables, Tables, Offset(all, Root(all, size)) + HEADER + Scale(size, i), size), i + 2)
  {
    NumberInFile(all, Root(all, size), HEADER + Scale(size, i), Offset(all, i + 2), size);
  }

  /** Pointer i of the file holds the offset of its target. */
  lemma {:induction false} PointerHolds(all: seq<seq<byte>>, i: nat)
    requires |all| >= 5 && FadtOk(all) && RootOk(all, 4) && RootOk(all, 8) && i < |TablePointers(all)|
    ensures PointsTo(all, TablePointers(all)[i], Target(all, i))
  {
    var n := Listed(all);
    if i < 4 {
      FadtHolds(all, i);
    } else if i < 4 + n {
      RsdtHolds(all, i - 4);
    } else {
      XsdtHolds(all, i - 4 - n);
    }
  }

  lemma {:induction false} FadtHolds(all: seq<seq<byte>>, i: nat)
    requires |all| >= 5 && FadtOk(all) && i < 4
    ensures PointsTo(all, TablePointers(all)[i], i % 2)
  {
    PointerAt(all, i);
    FadtPointerHolds(all, i);
  }

  lemma {:induction false} RsdtHolds(all: seq<seq<byte>>, i: nat)
    requires |all| >= 5 && RootOk(all, 4) && i < Listed(all)
    ensures PointsTo(all, TablePointers(all)[4 + i], i + 2)
  {
    PointerAt(all, 4 + i);
    RootPointerHolds(all, 4, i);
  }

  lemma {:induction false} XsdtHolds(all: seq<seq<byte>>, i: nat)
    requires |all| >= 5 && RootOk(all, 8) && i < Listed(all)
    ensures PointsTo(all, TablePointers(all)[4 + Listed(all) + i], i + 2)
  {
    PointerAt(all, 4 + Listed(all) + i);
    RootPointerHolds(all, 8, i);
  }

  /** A pointer to an offset becomes the address. */
  lemma {:induction false} BecomesAddress(m: Image, b: Bases, commands: seq<Command>, i: nat, f: File, lo: nat, size: nat, v: nat)
    requires i < |commands| && commands[i] == AddPointer(f, Tables, lo, size)
    requires (size == 4 || size == 8) && v + b.tables < WORDS && Number(m.Get(f), lo, v, size)
    requires Alone(commands, i, f, lo, lo + size)
    ensures Number(Run(m, b, commands).Get(f), lo, v + b.tables, size)
  {
    PointerLinked(m, b, commands, i, f, lo, lo + size);
    LeExact(v + b.tables, size);
  }

  lemma {:induction false} PointerAlone(all: seq<seq<byte>>, i: nat)
    requires Sized(all) && i < |TablePointers(all)|
    ensures TablePointers(all)[i].AddPointer?
    ensures var c := TablePointers(all)[i]; Alone(Script(all), i + 2, Tables, c.offset, c.offset + c.size)
  {
    PointerPart(all, i);
    var c := TablePointers(all)[i];
    forall k | 0 <= k < |Script(all)| && k != i + 2
      ensures !Touches(Script(all)[k], Tables, c.offset, c.offset + c.size)
    {
      OthersAvoidPointer(all, i, k);
    }
  }

  /** The files as they are loaded: one that was built, not yet linked. */
  function Loaded(all: seq<seq<byte>>): Image
    requires |all| >= 5
  {
    Image(Concat(all), RsdpFile(Offset(all, |all| - 2), Offset(all, |all| - 1)))
  }

  lemma {:induction false} PointerCommand(all: seq<seq<byte>>, i: nat)
    requires Sized(all) && i < |TablePointers(all)|
    ensures TablePointers(all)[i].AddPointer? && i + 2 < |Script(all)|
    ensures var c := TablePointers(all)[i];
            Script(all)[i + 2] == c == AddPointer(Tables, Tables, c.offset, c.size) && (c.size == 4 || c.size == 8)
  {
    ScriptAt(all, i + 2);
    PointerPart(all, i);
  }

  /** Every pointer of the tables becomes the address of its table. */
  lemma {:induction false} TablePointerLinked(all: seq<seq<byte>>, m: Image, b: Bases, i: nat)
    requires Laid(all) && m.tables == Concat(all) && b.tables + |m.tables| <= WORDS && i < |TablePointers(all)|
    ensures TablePointers(all)[i].AddPointer?
    ensures var c := TablePointers(all)[i];
            Number(Run(m, b, Script(all)).tables, c.offset, Offset(all, Target(all, i)) + b.tables, c.size)
  {
    var t := Target(all, i);
    PointerCommand(all, i);
    PointerHolds(all, i);
    PointerAlone(all, i);
    OffsetGrows(all, t, |all|);
    var c := TablePointers(all)[i];
    BecomesAddress(m, b, Script(all), i + 2, Tables, c.offset, c.size, Offset(all, t));
  }

  lemma {:induction false} TableSumIsLast(all: seq<seq<byte>>, t: nat)
    requires |all| >= 5 && 1 <= t < |all|
    ensures LastTo(Script(all), SumsAt(all) + t - 1, Tables, Offset(all, t), Offset(all, t) + |all[t]|)
  {
    forall k | SumsAt(all) + t - 1 < k < |Script(all)|
      ensures !Touches(Script(all)[k], Tables, Offset(all, t), Offset(all, t) + |all[t]|)
    {
      LaterAvoidTable(all, t, k);
    }
  }

  /** Every table but the FACS sums to 0. */
  lemma {:induction false} TableSumsToZero(all: seq<seq<byte>>, m: Image, b: Bases, t: nat)
    requires |all| >= 5 && |m.tables| == Offset(all, |all|) && 1 <= t < |all| && |all[t]| >= HEADER
    ensures var r, at := Run(m, b, Script(all)), Offset(all, t);
            at + |all[t]| <= |r.tables| && Sum(r.tables[at..at + |all[t]|]) % 256 == 0
  {
    var at, n := Offset(all, t), |all[t]|;
    ScriptAt(all, SumsAt(all) + t - 1);
    TableSumIsLast(all, t);
    OffsetGrows(all, t, |all|);
    ChecksumHolds(m, b, Script(all), SumsAt(all) + t - 1, Tables, at + 9, at, at + n);
  }

  lemma {:induction false} HeaderUntouched(all: seq<seq<byte>>, t: nat)
    requires Sized(all) && t < |all| && forall j :: 0 <= j < |all| ==> |all[j]| >= HEADER
    ensures Untouched(Script(all), Tables, Offset(all, t), Offset(all, t) + 8)
  {
    forall k | 0 <= k < |Script(all)|
      ensures !Touches(Script(all)[k], Tables, Offset(all, t), Offset(all, t) + 8)
    {
      AllAvoidHeader(all, t, k);
    }
  }

  /** Every table keeps its signature and length. */
  lemma {:induction false} HeaderKept(all: seq<seq<byte>>, m: Image, b: Bases, t: nat)
    requires Sized(all) && m.tables == Concat(all) && t < |all| && forall j :: 0 <= j < |all| ==> |all[j]| >= HEADER
    ensures var r, at := Run(m, b, Script(all)), Offset(all, t);
            at + |all[t]| <= |r.tables| && r.tables[at..at + 8] == all[t][0..8]
  {
    HeaderUntouched(all, t);
    SliceInFile(all, t, 0, 8);
    RunAvoids(m, b, Script(all), Tables, Offset(all, t), Offset(all, t) + 8);
  }

  /** Byte p of the file is in a pointer, or is the checksum byte of a table. */
  predicate Linkable(all: seq<seq<byte>>, p: nat)
    requires |all| >= 5
  {
    || (exists i :: 0 <= i < |TablePointers(all)| && Touches(TablePointers(all)[i], Tables, p, p + 1))
    || (exists t :: 1 <= t < |all| && p == Offset(all, t) + 9)
  }

  /** Linking changes nothing else. */
  lemma {:induction false} OthersKept(all: seq<seq<byte>>, m: Image, b: Bases, p: nat)
    requires |all| >= 5 && p < |m.tables| && !Linkable(all, p)
    ensures Run(m, b, Script(all)).tables[p] == m.tables[p]
  {
    forall k | 0 <= k < |Script(all)|
      ensures !Touches(Script(all)[k], Tables, p, p + 1)
    {
      ScriptAt(all, k);
    }
    RunAvoids(m, b, Script(all), Tables, p, p + 1);
    assert Run(m, b, Script(all)).tables[p..p + 1][0] == m.tables[p..p + 1][0];
  }

  /** The RSDP points to RSDT and XSDT, and both its checksums hold. */
  predicate RsdpOk(r: seq<byte>, rsdt: nat, xsdt: nat) {
    && |r| == 36 && r[0..8] == RSD_PTR && r[9..16] == OEM_ID + [2]
    && Number(r, 16, rsdt, 4) && Number(r, 24, xsdt, 8)
    && Sum(r[0..20]) % 256 == 0 && Sum(r[0..36]) % 256 == 0
  }

  lemma {:induction false} RsdpAvoided(all: seq<seq<byte>>)
    requires |all| >= 5
    ensures Untouched(Script(all), Rsdp, 0, 8) && Untouched(Script(all), Rsdp, 9, 16)
    ensures Alone(Script(all), SumsAt(all) - 2, Rsdp, 16, 20) && Alone(Script(all), SumsAt(all) - 1, Rsdp, 24, 32)
    ensures LastTo(Script(all), SumsAt(all) + |all| - 1, Rsdp, 0, 20) && LastTo(Script(all), SumsAt(all) + |all|, Rsdp, 0, 36)
  {
    forall k | 0 <= k < |Script(all)|
      ensures !Touches(Script(all)[k], Rsdp, 0, 8) && !Touches(Script(all)[k], Rsdp, 9, 16)
      ensures k != SumsAt(all) - 2 ==> !Touches(Script(all)[k], Rsdp, 16, 20)
      ensures k != SumsAt(all) - 1 ==> !Touches(Script(all)[k], Rsdp, 24, 32)
      ensures SumsAt(all) + |all| - 1 < k ==> !Touches(Script(all)[k], Rsdp, 0, 20)
    {
      RsdpAvoidedBy(all, k);
    }
    ScriptAt(all, 0);
  }

  lemma {:induction false} RsdpAvoidedBy(all: seq<seq<byte>>, k: nat)
    requires |all| >= 5 && k < |Script(all)|
    ensures !Touches(Script(all)[k], Rsdp, 0, 8) && !Touches(Script(all)[k], Rsdp, 9, 16)
    ensures k != SumsAt(all) - 2 ==> !Touches(Script(all)[k], Rsdp, 16, 20)
    ensures k != SumsAt(all) - 1 ==> !Touches(Script(all)[k], Rsdp, 24, 32)
    ensures SumsAt(all) + |all| - 1 < k ==> !Touches(Script(all)[k], Rsdp, 0, 20)
  {
    ScriptAt(all, k);
    if 2 <= k < SumsAt(all) - 2 {
      PointerToTables(all, k - 2);
    }
  }

  lemma {:induction false} PointerToTables(all: seq<seq<byte>>, i: nat)
    requires |all| >= 5 && i < |TablePointers(all)|
    ensures TablePointers(all)[i].AddPointer? && TablePointers(all)[i].dest == Tables
  {
  }

  /** The RSDP of every load address, whatever the tables are. */
  lemma {:induction false} RsdpLinked(all: seq<seq<byte>>, m: Image, b: Bases, rsdt: nat, xsdt: nat)
    requires |all| >= 5 && rsdt + b.tables < WORDS && xsdt + b.tables < WORDS && m.rsdp == RsdpFile(rsdt, xsdt)
    ensures RsdpOk(Run(m, b, Script(all)).rsdp, rsdt + b.tables, xsdt + b.tables)
  {
    var script := Script(all);
    RsdpAvoided(all);
    ScriptAt(all, SumsAt(all) - 2);
    ScriptAt(all, SumsAt(all) - 1);
    ScriptAt(all, SumsAt(all) + |all| - 1);
    ScriptAt(all, SumsAt(all) + |all|);
    RsdpRuns(m, b, script, SumsAt(all), SumsAt(all) + |all|, rsdt, xsdt);
  }

  lemma {:induction false} RsdpRuns(m: Image, b: Bases, script: seq<Command>, i: nat, j: nat, rsdt: nat, xsdt: nat)
    requires 2 <= i < j < |script| && rsdt + b.tables < WORDS && xsdt + b.tables < WORDS && m.rsdp == RsdpFile(rsdt, xsdt)
    requires script[i - 2] == AddPointer(Rsdp, Tables, 16, 4) && script[i - 1] == AddPointer(Rsdp, Tables, 24, 8)
    requires script[j - 1] == AddChecksum(Rsdp, 8, 0, 20) && script[j] == AddChecksum(Rsdp, 32, 0, 36)
    requires Untouched(script, Rsdp, 0, 8) && Untouched(script, Rsdp, 9, 16)
    requires Alone(script, i - 2, Rsdp, 16, 20) && Alone(script, i - 1, Rsdp, 24, 32)
    requires LastTo(script, j - 1, Rsdp, 0, 20) && LastTo(script, j, Rsdp, 0, 36)
    ensures RsdpOk(Run(m, b, script).rsdp, rsdt + b.tables, xsdt + b.tables)
  {
    RunAvoids(m, b, script, Rsdp, 0, 8);
    RunAvoids(m, b, script, Rsdp, 9, 16);
    LeExact(rsdt, 4);
    LeExact(xsdt, 8);
    BecomesAddress(m, b, script, i - 2, Rsdp, 16, 4, rsdt);
    BecomesAddress(m, b, script, i - 1, Rsdp, 24, 8, xsdt);
    ChecksumHolds(m, b, script, j - 1, Rsdp, 8, 0, 20);
    ChecksumHolds(m, b, script, j, Rsdp, 32, 0, 36);
  }
}
