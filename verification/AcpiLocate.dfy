/**
 locate_acpi_tables (src/acpi_tables.js) searches memory for tables. In memory with the linked files it
 finds all of them, with valid checksums.
 */
module AcpiLocate {
  import opened Options
  import opened Bytes
  import opened AcpiLoader
  import opened AcpiEntries
  import opened AcpiTables

  datatype TableInfo = TableInfo(signature: seq<byte>, address: nat, length: nat, checksumOk: bool)

  datatype Found = Found(rsdp: nat, revision: byte, oem: seq<byte>, tables: seq<TableInfo>)

  /** The n bytes at a, or fewer at the end of memory. */
  function Sub(mem: seq<byte>, a: nat, n: nat): seq<byte> {
    if a >= |mem| then [] else if a + n <= |mem| then mem[a..a + n] else mem[a..]
  }

  /** Outside of memory there are zeros for u32. */
  function U32(mem: seq<byte>, a: nat): nat {
    ValueOf(Sub(mem, a, 4))
  }

  predicate InRam(mem: seq<byte>, a: nat, n: nat) {
    a + n <= |mem|
  }

  function TableAt(mem: seq<byte>, address: nat): TableInfo {
    if !InRam(mem, address, HEADER) then TableInfo([0x3F, 0x3F, 0x3F, 0x3F], address, 0, false)
    else
      var length, signature := U32(mem, address + 4), Sub(mem, address, 4);
      TableInfo(signature, address, length,
                signature == FACS || (InRam(mem, address, length) && Sum(Sub(mem, address, length)) % 256 == 0))
  }

  predicate IsRsdp(mem: seq<byte>, a: nat) {
    Sub(mem, a, 8) == RSD_PTR && Sum(Sub(mem, a, 20)) % 256 == 0
  }

  function Revision(mem: seq<byte>, rsdp: nat): byte {
    if rsdp + 15 < |mem| then mem[rsdp + 15] else 0
  }

  /** The ways to look at memory: words and tables at an address, an RSDP and what it says. */
  datatype View = View(ram: nat, word: nat -> nat, table: nat -> TableInfo,
                       isRsdp: nat -> bool, revision: nat -> byte, oem: nat -> seq<byte>)

  function ViewOf(mem: seq<byte>): View {
    View(|mem|, (a: nat) => U32(mem, a), (a: nat) => TableAt(mem, a),
         (a: nat) => IsRsdp(mem, a), (a: nat) => Revision(mem, a), (a: nat) => Sub(mem, a + 9, 6))
  }

  /** The table an entry points to, and for the FADT those it points to. */
  function Listing(v: View, p: nat): seq<TableInfo> {
    var t := v.table(v.word(p));
    if t.signature == FACP && t.length >= 44 then
      [t, v.table(v.word(t.address + 36)), v.table(v.word(t.address + 40))]
    else [t]
  }

  function Lister(v: View): nat -> seq<TableInfo> {
    (p: nat) => Listing(v, p)
  }

  /** What the entries from p up to end list, in memory of some size. */
  function Entries(listing: nat -> seq<TableInfo>, ram: nat, p: nat, end: nat, size: nat): seq<TableInfo>
    requires size > 0
    decreases end - p
  {
    if p + size <= end && p + size <= ram then listing(p) + Entries(listing, ram, p + size, end, size) else []
  }

  predicate Candidate(a: int) {
    0xE_0000 <= a < 0x10_0000 && a % 16 == 0
  }

  predicate UseXsdt(v: View, rsdp: nat) {
    v.revision(rsdp) >= 2 && v.word(rsdp + 28) == 0 && v.word(rsdp + 24) != 0
  }

  function TablesFrom(v: View, rsdp: nat): seq<TableInfo> {
    var xsdt := UseXsdt(v, rsdp);
    var root := v.table(if xsdt then v.word(rsdp + 24) else v.word(rsdp + 16));
    [root] + Entries(Lister(v), v.ram, root.address + 36, root.address + root.length, if xsdt then 8 else 4)
  }

  ghost predicate NoneBefore(v: View, at: nat) {
    forall a: nat :: a < at && Candidate(a) ==> !v.isRsdp(a)
  }

  method FindRsdp(v: View) returns (r: Option<nat>)
    ensures r.None? ==> NoneBefore(v, 0x10_0000)
    ensures r.Some? ==> Candidate(r.value) && v.isRsdp(r.value) && NoneBefore(v, r.value)
  {
    var a: nat := 0xE_0000;
    while a < 0x10_0000
      invariant 0xE_0000 <= a <= 0x10_0000 && a % 16 == 0 && NoneBefore(v, a)
    {
      if v.isRsdp(a) {
        return Some(a);
      }
      a := a + 16;
    }
    return None;
  }

  /** The first RSDP of the BIOS area with what it leads to, or none if there is none. */
  ghost predicate Locates(v: View, r: Option<Found>) {
    match r
    case None => NoneBefore(v, 0x10_0000)
    case Some(found) =>
      && Candidate(found.rsdp) && v.isRsdp(found.rsdp) && NoneBefore(v, found.rsdp)
      && found == Found(found.rsdp, v.revision(found.rsdp), v.oem(found.rsdp), TablesFrom(v, found.rsdp))
  }

  /** locate_acpi_tables: what the first RSDP in the BIOS area leads to. */
  method LocateAcpiTables(v: View) returns (r: Option<Found>)
    ensures Locates(v, r)
  {
    var found := FindRsdp(v);
    if found.None? {
      return None;
    }
    var rsdp := found.value;
    var tables := TablesOf(v, rsdp);
    return Some(Found(rsdp, v.revision(rsdp), v.oem(rsdp), tables));
  }

  method TablesOf(v: View, rsdp: nat) returns (tables: seq<TableInfo>)
    ensures tables == TablesFrom(v, rsdp)
  {
    var xsdt := v.revision(rsdp) >= 2 && v.word(rsdp + 28) == 0 && v.word(rsdp + 24) != 0;
    var root := v.table(if xsdt then v.word(rsdp + 24) else v.word(rsdp + 16));
    var entries := ListEntries(Lister(v), v.ram, root.address + 36, root.address + root.length, if xsdt then 8 else 4);
    return [root] + entries;
  }

  method ListEntries(listing: nat -> seq<TableInfo>, ram: nat, start: nat, end: nat, size: nat) returns (tables: seq<TableInfo>)
    requires size > 0
    ensures tables == Entries(listing, ram, start, end, size)
  {
    tables := [];
    var p := start;
    while p + size <= end && p + size <= ram
      invariant tables + Entries(listing, ram, p, end, size) == Entries(listing, ram, start, end, size)
      decreases end - p
    {
      Regrouped(tables, listing(p), Entries(listing, ram, p + size, end, size));
      tables := tables + listing(p);
      p := p + size;
    }
  }

  lemma {:induction false} Regrouped(a: seq<TableInfo>, b: seq<TableInfo>, c: seq<TableInfo>)
    ensures a + (b + c) == a + b + c
  {
  }

  // ---- Linked tables are found ----

  /** The contents of memory from `at` on. */
  predicate Shows(mem: seq<byte>, at: nat, bytes: seq<byte>) {
    at + |bytes| <= |mem| && mem[at..at + |bytes|] == bytes
  }

  lemma {:induction false} ValueBound(bytes: seq<byte>)
    ensures ValueOf(bytes) < Pow(|bytes|)
  {
    if bytes != [] {
      ValueBound(bytes[1..]);
    }
  }

  lemma {:induction false} ShowsPart(mem: seq<byte>, at: nat, bytes: seq<byte>, lo: nat, hi: nat)
    requires Shows(mem, at, bytes) && lo <= hi <= |bytes|
    ensures Shows(mem, at + lo, bytes[lo..hi])
    ensures lo < hi ==> Sub(mem, at + lo, hi - lo) == bytes[lo..hi]
  {
    SliceOfSlice(mem, at, at + |bytes|, lo, hi);
  }

  lemma {:induction false} ValueSplit(bytes: seq<byte>, n: nat)
    requires n <= |bytes|
    ensures ValueOf(bytes) == ValueOf(bytes[..n]) + Pow(n) * ValueOf(bytes[n..])
  {
    if n > 0 {
      ValueSplit(bytes[1..], n - 1);
      assert bytes[1..][n - 1..] == bytes[n..] && bytes[..n][1..] == bytes[1..][..n - 1];
      Times256(Pow(n - 1), ValueOf(bytes[n..]));
    }
  }

  lemma {:induction false} Times256(a: nat, b: nat)
    ensures 256 * (a * b) == (256 * a) * b
  {
  }

  /** A number of 4 or 8 bytes that fits 4 is read from the first 4. */
  lemma {:induction false} NumberInMemory(mem: seq<byte>, base: nat, bytes: seq<byte>, at: nat, v: nat, size: nat)
    requires Shows(mem, base, bytes) && Number(bytes, at, v, size) && v < WORDS && (size == 4 || size == 8)
    ensures U32(mem, base + at) == v && (size == 8 ==> U32(mem, base + at + 4) == 0)
  {
    ShowsPart(mem, base, bytes, at, at + 4);
    if size == 8 {
      var field := bytes[at..at + 8];
      ShowsPart(mem, base, bytes, at + 4, at + 8);
      ValueSplit(field, 4);
      Powers();
      assert field[..4] == bytes[at..at + 4] && field[4..] == bytes[at + 4..at + 8];
    }
  }

  /** A table in memory is found with its signature and length; its checksum is valid if it sums to 0, or is the FACS. */
  lemma {:induction false} TableInMemory(mem: seq<byte>, address: nat, t: seq<byte>)
    requires Shows(mem, address, t) && |t| >= HEADER && Number(t, 4, |t|, 4)
    ensures TableAt(mem, address) == TableInfo(t[0..4], address, |t|, t[0..4] == FACS || Sum(t) % 256 == 0)
  {
    ValueBound(t[4..8]);
    Powers();
    NumberInMemory(mem, address, t, 4, |t|, 4);
    ShowsPart(mem, address, t, 0, 4);
    ShowsPart(mem, address, t, 0, |t|);
    assert t[0..|t|] == t;
  }

  /** A header that is not all in memory, and a length that leads out of it. */
  lemma {:induction false} TableOutside(mem: seq<byte>, address: nat)
    ensures address + HEADER > |mem| ==> TableAt(mem, address) == TableInfo(Ascii("????"), address, 0, false)
    ensures address + HEADER <= |mem| ==>
              && TableAt(mem, address).signature == mem[address..address + 4]
              && TableAt(mem, address).length == ValueOf(mem[address + 4..address + 8])
              && (TableAt(mem, address).checksumOk && mem[address..address + 4] != FACS ==>
                    address + TableAt(mem, address).length <= |mem|)
  {
    assert Ascii("????") == [0x3F, 0x3F, 0x3F, 0x3F];
  }

  /** XSDT with 8-byte entries from ACPI 2 on, if it is below 4 GiB and there is one; else RSDT with 4-byte entries. */
  lemma {:induction false} RootChosen(v: View, rsdp: nat)
    ensures TablesFrom(v, rsdp) ==
            if v.revision(rsdp) >= 2 && v.word(rsdp + 28) == 0 && v.word(rsdp + 24) != 0 then
              var root := v.table(v.word(rsdp + 24));
              [root] + Entries(Lister(v), v.ram, root.address + 36, root.address + root.length, 8)
            else
              var root := v.table(v.word(rsdp + 16));
              [root] + Entries(Lister(v), v.ram, root.address + 36, root.address + root.length, 4)
  {
  }

  /** Only a FADT that is long enough leads to two more tables, FACS and DSDT. */
  lemma {:induction false} ListingMeans(v: View, p: nat)
    ensures var t := v.table(v.word(p));
            Listing(v, p) == [t] + if t.signature == Ascii("FACP") && t.length >= 44
                                   then [v.table(v.word(t.address + 36)), v.table(v.word(t.address + 40))] else []
  {
    Texts();
  }

  /** The RSDP is looked for every 16 bytes of the last 128 KB below 1 MB. */
  lemma {:induction false} CandidateMeans(a: nat)
    ensures Candidate(a) <==> exists k :: 0 <= k < 0x2000 && a == 0xE_0000 + 16 * k
  {
    if Candidate(a) {
      var k := (a - 0xE_0000) / 16;
      assert a == 0xE_0000 + 16 * k && 0 <= k < 0x2000;
    }
  }

  /** The entries are those at every multiple of their size that are whole in the table and in memory. */
  lemma {:induction false} EntriesAt(listing: nat -> seq<TableInfo>, ram: nat, p: nat, end: nat, size: nat, n: nat)
    requires size > 0 && p + n * size <= end && p + n * size <= ram && (p + (n + 1) * size > end || p + (n + 1) * size > ram)
    ensures Entries(listing, ram, p, end, size) == Listings(listing, p, size, n)
    decreases n
  {
    if n > 0 {
      assert (n - 1) * size + size == n * size && (n + 1) * size == n * size + size;
      EntriesAt(listing, ram, p + size, end, size, n - 1);
    } else {
      assert (0 + 1) * size == size;
    }
  }

  function Listings(listing: nat -> seq<TableInfo>, p: nat, size: nat, n: nat): seq<TableInfo>
    decreases n
  {
    if n == 0 then [] else listing(p) + Listings(listing, p + size, size, n - 1)
  }

  /** Every pointer is an address, every table has its header, and all but the FACS sum to 0. */
  ghost predicate TablesLinked(all: seq<seq<byte>>, tables: seq<byte>, base: nat)
    requires |all| >= 5
  {
    && |tables| == Offset(all, |all|)
    && (forall i :: 0 <= i < |TablePointers(all)| ==> PointerOk(all, tables, base, i))
    && (forall t :: 0 <= t < |all| ==> TableOk(all, tables, t))
  }

  predicate PointerOk(all: seq<seq<byte>>, tables: seq<byte>, base: nat, i: nat)
    requires |all| >= 5 && i < |TablePointers(all)|
  {
    var c := TablePointers(all)[i];
    c.AddPointer? && Number(tables, c.offset, Offset(all, Target(all, i)) + base, c.size)
  }

  predicate TableOk(all: seq<seq<byte>>, tables: seq<byte>, t: nat)
    requires t < |all|
  {
    var at := Offset(all, t);
    && 8 <= |all[t]| && at + |all[t]| <= |tables| && tables[at..at + 8] == all[t][0..8]
    && (t > 0 ==> Sum(tables[at..at + |all[t]|]) % 256 == 0)
  }

  /** Running the script links the files, wherever they were loaded. */
  lemma {:induction false} LinkingIsCorrect(all: seq<seq<byte>>, b: Bases)
    requires Laid(all) && b.tables + Offset(all, |all|) <= WORDS
    ensures var r := Run(Loaded(all), b, Script(all));
            && TablesLinked(all, r.tables, b.tables)
            && RsdpOk(r.rsdp, Offset(all, |all| - 2) + b.tables, Offset(all, |all| - 1) + b.tables)
  {
    LinkedTables(all, Loaded(all), b);
    OffsetGrows(all, |all| - 2, |all|);
    OffsetGrows(all, |all| - 1, |all|);
    RsdpLinked(all, Loaded(all), b, Offset(all, |all| - 2), Offset(all, |all| - 1));
  }

  lemma {:induction false} LinkedTables(all: seq<seq<byte>>, m: Image, b: Bases)
    requires Laid(all) && m.tables == Concat(all) && b.tables + |m.tables| <= WORDS
    ensures TablesLinked(all, Run(m, b, Script(all)).tables, b.tables)
  {
    var r := Run(m, b, Script(all)).tables;
    forall i | 0 <= i < |TablePointers(all)|
      ensures PointerOk(all, r, b.tables, i)
    {
      TablePointerLinked(all, m, b, i);
    }
    forall t | 0 <= t < |all|
      ensures TableOk(all, r, t)
    {
      HeaderKept(all, m, b, t);
      if t > 0 {
        TableSumsToZero(all, m, b, t);
      }
    }
  }

  /** A table that is found with its checksum valid. */
  function Info(all: seq<seq<byte>>, base: nat, t: nat): TableInfo
    requires t < |all| && |all[t]| >= 4
  {
    TableInfo(all[t][0..4], base + Offset(all, t), |all[t]|, true)
  }

  lemma {:induction false} TableFound(all: seq<seq<byte>>, tables: seq<byte>, base: nat, mem: seq<byte>, t: nat)
    requires t < |all| && |all[t]| >= HEADER && Number(all[t], 4, |all[t]|, 4) && (t == 0 ==> all[t][0..4] == FACS)
    requires TableOk(all, tables, t) && Shows(mem, base, tables)
    ensures TableAt(mem, base + Offset(all, t)) == Info(all, base, t)
  {
    var at, n := Offset(all, t), |all[t]|;
    ShowsPart(mem, base, tables, at, at + n);
    HeaderOfPart(tables, at, n, all[t]);
    TableInMemory(mem, base + at, tables[at..at + n]);
  }

  lemma {:induction false} HeaderOfPart(tables: seq<byte>, at: nat, n: nat, t: seq<byte>)
    requires |t| == n && HEADER <= n && at + n <= |tables| && tables[at..at + 8] == t[0..8] && Number(t, 4, n, 4)
    ensures tables[at..at + n][0..4] == t[0..4] && Number(tables[at..at + n], 4, n, 4)
  {
    SliceOfSlice(tables, at, at + n, 0, 4);
    SliceOfSlice(tables, at, at + n, 4, 8);
    SliceOfSlice(tables, at, at + 8, 0, 4);
    SliceOfSlice(tables, at, at + 8, 4, 8);
    SliceOfSlice(t, 0, 8, 0, 4);
    SliceOfSlice(t, 0, 8, 4, 8);
  }

  /** What the entry for table i + 2 lists: the FADT leads to FACS and DSDT. */
  function ListingOf(all: seq<seq<byte>>, base: nat, i: nat): seq<TableInfo>
    requires Signed(all) && i < Listed(all)
  {
    if i == 0 then [Info(all, base, 2), Info(all, base, 0), Info(all, base, 1)] else [Info(all, base, i + 2)]
  }

  predicate Signed(all: seq<seq<byte>>) {
    |all| >= 5 && forall t :: 0 <= t < |all| ==> |all[t]| >= 4
  }

  function Expected(all: seq<seq<byte>>, base: nat, i: nat): seq<TableInfo>
    requires Signed(all) && i <= Listed(all)
    decreases Listed(all) - i
  {
    if i == Listed(all) then [] else ListingOf(all, base, i) + Expected(all, base, i + 1)
  }

  /** Pointer i in memory. */
  lemma {:induction false} PointerFound(all: seq<seq<byte>>, tables: seq<byte>, base: nat, mem: seq<byte>, i: nat, at: nat, size: nat)
    requires |all| >= 5 && i < |TablePointers(all)| && PointerOk(all, tables, base, i) && Shows(mem, base, tables)
    requires TablePointers(all)[i] == AddPointer(Tables, Tables, at, size) && (size == 4 || size == 8)
    requires base + Offset(all, Target(all, i)) < WORDS
    ensures U32(mem, base + at) == base + Offset(all, Target(all, i))
  {
    NumberInMemory(mem, base, tables, at, Offset(all, Target(all, i)) + base, size);
  }

  /** Memory that holds the linked tables. */
  ghost predicate Holds(all: seq<seq<byte>>, tables: seq<byte>, base: nat, mem: seq<byte>) {
    Laid(all) && TablesLinked(all, tables, base) && Shows(mem, base, tables) && base + |tables| <= WORDS
  }

  lemma {:induction false} TargetBelow(all: seq<seq<byte>>, t: nat)
    requires t < |all| && |all[t]| > 0
    ensures Offset(all, t) < Offset(all, |all|)
  {
    OffsetGrows(all, t, |all|);
  }

  lemma {:induction false} FadtFound(all: seq<seq<byte>>, tables: seq<byte>, base: nat, mem: seq<byte>)
    requires Holds(all, tables, base, mem)
    ensures U32(mem, base + Offset(all, 2) + 36) == base + Offset(all, 0)
    ensures U32(mem, base + Offset(all, 2) + 40) == base + Offset(all, 1)
  {
    TargetBelow(all, 0);
    TargetBelow(all, 1);
    assert PointerOk(all, tables, base, 0) && PointerOk(all, tables, base, 1);
    PointerFound(all, tables, base, mem, 0, Offset(all, 2) + FADT_FIRMWARE_CTRL, 4);
    PointerFound(all, tables, base, mem, 1, Offset(all, 2) + FADT_DSDT, 4);
  }

  /** The address of entry i of the XSDT. */
  function EntryAt(all: seq<seq<byte>>, base: nat, i: nat): nat
    requires |all| >= 5
  {
    base + Offset(all, |all| - 1) + HEADER + 8 * i
  }

  lemma {:induction false} XsdtEntryFound(all: seq<seq<byte>>, tables: seq<byte>, base: nat, mem: seq<byte>, i: nat)
    requires Holds(all, tables, base, mem) && i < Listed(all)
    ensures U32(mem, EntryAt(all, base, i)) == base + Offset(all, i + 2)
  {
    var j := 4 + Listed(all) + i;
    TargetBelow(all, i + 2);
    assert PointerOk(all, tables, base, j);
    PointerFound(all, tables, base, mem, j, Offset(all, |all| - 1) + HEADER + 8 * i, 8);
  }

  lemma {:induction false} AnyTableFound(all: seq<seq<byte>>, tables: seq<byte>, base: nat, mem: seq<byte>, t: nat)
    requires Holds(all, tables, base, mem) && t < |all|
    ensures TableAt(mem, base + Offset(all, t)) == Info(all, base, t)
  {
    assert TableOk(all, tables, t);
    TableFound(all, tables, base, mem, t);
  }

  /** The pointers in memory are addresses of tables. */
  ghost predicate WordsRead(all: seq<seq<byte>>, base: nat, v: View)
    requires |all| >= 5
  {
    && v.word(base + Offset(all, 2) + 36) == base + Offset(all, 0)
    && v.word(base + Offset(all, 2) + 40) == base + Offset(all, 1)
    && (forall i :: 0 <= i < Listed(all) ==> v.word(EntryAt(all, base, i)) == base + Offset(all, i + 2))
  }

  /** The tables in memory are whole. */
  ghost predicate TablesRead(all: seq<seq<byte>>, base: nat, v: View)
    requires Signed(all)
  {
    forall t :: 0 <= t < |all| ==> v.table(base + Offset(all, t)) == Info(all, base, t)
  }

  lemma {:induction false} HoldsWords(all: seq<seq<byte>>, tables: seq<byte>, base: nat, mem: seq<byte>)
    requires Holds(all, tables, base, mem)
    ensures WordsRead(all, base, ViewOf(mem))
  {
    FadtFound(all, tables, base, mem);
    forall i | 0 <= i < Listed(all)
      ensures ViewOf(mem).word(EntryAt(all, base, i)) == base + Offset(all, i + 2)
    {
      XsdtEntryFound(all, tables, base, mem, i);
    }
  }

  lemma {:induction false} HoldsTables(all: seq<seq<byte>>, tables: seq<byte>, base: nat, mem: seq<byte>)
    requires Holds(all, tables, base, mem)
    ensures TablesRead(all, base, ViewOf(mem))
  {
    forall t | 0 <= t < |all|
      ensures ViewOf(mem).table(base + Offset(all, t)) == Info(all, base, t)
    {
      AnyTableFound(all, tables, base, mem, t);
    }
  }

  /** Only the FADT has its signature. */
  predicate OneFadt(all: seq<seq<byte>>) {
    Signed(all) && |all[2]| >= 44 && forall k :: 2 <= k < |all| - 2 ==> (all[k][0..4] == FACP <==> k == 2)
  }

  lemma {:induction false} ListingFound(all: seq<seq<byte>>, base: nat, v: View, i: nat)
    requires OneFadt(all) && WordsRead(all, base, v) && TablesRead(all, base, v) && i < Listed(all)
    ensures Lister(v)(EntryAt(all, base, i)) == ListingOf(all, base, i)
  {
    assert v.word(EntryAt(all, base, i)) == base + Offset(all, i + 2);
    assert v.table(base + Offset(all, i + 2)) == Info(all, base, i + 2);
  }

  /** The entries of the XSDT from i on. */
  lemma {:induction false} EntriesFound(all: seq<seq<byte>>, base: nat, listing: nat -> seq<TableInfo>, ram: nat, i: nat)
    requires Signed(all) && i <= Listed(all) && EntryAt(all, base, Listed(all)) <= ram
    requires forall j :: 0 <= j < Listed(all) ==> listing(EntryAt(all, base, j)) == ListingOf(all, base, j)
    ensures Entries(listing, ram, EntryAt(all, base, i), EntryAt(all, base, Listed(all)), 8) == Expected(all, base, i)
    decreases Listed(all) - i
  {
    if i < Listed(all) {
      EntriesFound(all, base, listing, ram, i + 1);
      var at, end := EntryAt(all, base, i), EntryAt(all, base, Listed(all));
      assert EntryAt(all, base, i + 1) == at + 8 <= end;
      assert Entries(listing, ram, at, end, 8) == listing(at) + Entries(listing, ram, at + 8, end, 8);
    }
  }

  /** Given an RSDP that leads to the XSDT, every listed table is found, and with the FADT also FACS and DSDT. */
  lemma {:induction false} TablesFound(all: seq<seq<byte>>, base: nat, v: View, rsdp: nat)
    requires OneFadt(all) && WordsRead(all, base, v) && TablesRead(all, base, v)
    requires EntryAt(all, base, Listed(all)) <= v.ram && |all[|all| - 1]| == HEADER + 8 * Listed(all)
    requires v.revision(rsdp) == 2 && v.word(rsdp + 28) == 0 && v.word(rsdp + 24) == base + Offset(all, |all| - 1) > 0
    ensures TablesFrom(v, rsdp) == [Info(all, base, |all| - 1)] + Expected(all, base, 0)
  {
    forall j | 0 <= j < Listed(all)
      ensures Lister(v)(EntryAt(all, base, j)) == ListingOf(all, base, j)
    {
      ListingFound(all, base, v, j);
    }
    EntriesFound(all, base, Lister(v), v.ram, 0);
    assert v.table(base + Offset(all, |all| - 1)) == Info(all, base, |all| - 1);
  }

  lemma {:induction false} RsdpBytes(mem: seq<byte>, at: nat, r: seq<byte>)
    requires |r| == 36 && r[9..16] == OEM_ID + [2] && Shows(mem, at, r)
    ensures Revision(mem, at) == 2 && Sub(mem, at + 9, 6) == OEM_ID
  {
    SliceOfSlice(r, 9, 16, 0, 6);
    ShowsPart(mem, at, r, 9, 15);
    assert (OEM_ID + [2])[..6] == OEM_ID;
    assert r[15] == r[9..16][6];
    assert mem[at + 15] == mem[at..at + |r|][15];
  }

  lemma {:induction false} RsdpSigned(mem: seq<byte>, at: nat, r: seq<byte>)
    requires |r| == 36 && Shows(mem, at, r)
    ensures IsRsdp(mem, at) <==> r[0..8] == RSD_PTR && Sum(r[0..20]) % 256 == 0
  {
    ShowsPart(mem, at, r, 0, 8);
    ShowsPart(mem, at, r, 0, 20);
  }

  /** What is seen of a linked RSDP. */
  predicate RsdpRead(v: View, at: nat, xsdt: nat) {
    v.isRsdp(at) && v.revision(at) == 2 && v.oem(at) == OEM_ID && v.word(at + 24) == xsdt && v.word(at + 28) == 0
  }

  lemma {:induction false} RsdpFound(mem: seq<byte>, at: nat, r: seq<byte>, rsdt: nat, xsdt: nat)
    requires RsdpOk(r, rsdt, xsdt) && Shows(mem, at, r) && xsdt < WORDS
    ensures RsdpRead(ViewOf(mem), at, xsdt)
  {
    RsdpBytes(mem, at, r);
    RsdpSigned(mem, at, r);
    NumberInMemory(mem, at, r, 24, xsdt, 8);
  }

  /** Memory after the firmware ran the script. */
  ghost predicate Booted(all: seq<seq<byte>>, b: Bases, mem: seq<byte>)
    requires |all| >= 5
  {
    var r := Run(Loaded(all), b, Script(all));
    Shows(mem, b.tables, r.tables) && Shows(mem, b.rsdp, r.rsdp)
  }

  lemma {:induction false} EndOfXsdt(all: seq<seq<byte>>, base: nat)
    requires Sized(all)
    ensures EntryAt(all, base, Listed(all)) == base + Offset(all, |all|)
  {
  }

  lemma {:induction false} BootedHolds(all: seq<seq<byte>>, b: Bases, mem: seq<byte>)
    requires Laid(all) && b.tables + Offset(all, |all|) <= WORDS && Booted(all, b, mem)
    ensures WordsRead(all, b.tables, ViewOf(mem)) && TablesRead(all, b.tables, ViewOf(mem))
    ensures b.tables + Offset(all, |all|) <= |mem|
  {
    var r := Run(Loaded(all), b, Script(all));
    LinkingIsCorrect(all, b);
    HoldsWords(all, r.tables, b.tables, mem);
    HoldsTables(all, r.tables, b.tables, mem);
  }

  lemma {:induction false} BootedRsdp(all: seq<seq<byte>>, b: Bases, mem: seq<byte>)
    requires Laid(all) && b.tables + Offset(all, |all|) <= WORDS && Booted(all, b, mem)
    ensures RsdpRead(ViewOf(mem), b.rsdp, b.tables + Offset(all, |all| - 1))
  {
    LinkingIsCorrect(all, b);
    TargetBelow(all, |all| - 1);
    RsdpFound(mem, b.rsdp, Run(Loaded(all), b, Script(all)).rsdp,
              Offset(all, |all| - 2) + b.tables, Offset(all, |all| - 1) + b.tables);
  }

  /** All tables that are to be found: the XSDT, what it lists, FACS and DSDT. */
  function AllFound(all: seq<seq<byte>>, base: nat): seq<TableInfo>
    requires Signed(all)
  {
    [Info(all, base, |all| - 1)] + Expected(all, base, 0)
  }

  lemma {:induction false} BootedTables(all: seq<seq<byte>>, b: Bases, v: View)
    requires Laid(all) && WordsRead(all, b.tables, v) && TablesRead(all, b.tables, v)
    requires b.tables + Offset(all, |all|) <= v.ram && RsdpRead(v, b.rsdp, b.tables + Offset(all, |all| - 1))
    ensures TablesFrom(v, b.rsdp) == AllFound(all, b.tables)
  {
    EndOfXsdt(all, b.tables);
    OffsetGrows(all, 2, |all| - 1);
    assert OneFadt(all);
    TablesFound(all, b.tables, v, b.rsdp);
  }

  /**
   Wherever the firmware loaded the files, all tables are found and their checksums are valid, if no
   other RSDP comes before this one.
   */
  lemma {:induction false} LinkedTablesFound(all: seq<seq<byte>>, b: Bases, mem: seq<byte>)
    requires Laid(all) && b.tables + Offset(all, |all|) <= WORDS && Booted(all, b, mem)
    ensures RsdpRead(ViewOf(mem), b.rsdp, b.tables + Offset(all, |all| - 1))
    ensures TablesFrom(ViewOf(mem), b.rsdp) == AllFound(all, b.tables)
    ensures forall k :: 0 <= k < |AllFound(all, b.tables)| ==> AllFound(all, b.tables)[k].checksumOk
  {
    BootedHolds(all, b, mem);
    BootedRsdp(all, b, mem);
    BootedTables(all, b, ViewOf(mem));
    AllFoundChecked(all, b.tables);
  }

  /** The reader returns all tables, exactly if no other RSDP comes before this one. */
  method LocateLinked(ghost all: seq<seq<byte>>, ghost b: Bases, mem: seq<byte>) returns (r: Option<Found>)
    requires Laid(all) && b.tables + Offset(all, |all|) <= WORDS && Booted(all, b, mem) && Candidate(b.rsdp)
    ensures Locates(ViewOf(mem), r) && r.Some? && r.value.rsdp <= b.rsdp
    ensures r == Some(Found(b.rsdp, 2, OEM_ID, AllFound(all, b.tables))) <==> NoneBefore(ViewOf(mem), b.rsdp)
  {
    LinkedTablesFound(all, b, mem);
    var v := ViewOf(mem);
    r := LocateAcpiTables(v);
    FirstFound(v, b.rsdp, r, AllFound(all, b.tables));
  }

  lemma {:induction false} FirstFound(v: View, a: nat, r: Option<Found>, tables: seq<TableInfo>)
    requires Candidate(a) && v.isRsdp(a) && v.revision(a) == 2 && v.oem(a) == OEM_ID && TablesFrom(v, a) == tables
    requires Locates(v, r)
    ensures r.Some? && r.value.rsdp <= a
    ensures r == Some(Found(a, 2, OEM_ID, tables)) <==> NoneBefore(v, a)
  {
  }

  lemma {:induction false} AllFoundChecked(all: seq<seq<byte>>, base: nat)
    requires Signed(all)
    ensures forall k :: 0 <= k < |AllFound(all, base)| ==> AllFound(all, base)[k].checksumOk
  {
    AllChecked(all, base, 0);
  }

  lemma {:induction false} AllChecked(all: seq<seq<byte>>, base: nat, i: nat)
    requires Signed(all) && i <= Listed(all)
    ensures forall k :: 0 <= k < |Expected(all, base, i)| ==> Expected(all, base, i)[k].checksumOk
    decreases Listed(all) - i
  {
    if i < Listed(all) {
      AllChecked(all, base, i + 1);
    }
  }
}
