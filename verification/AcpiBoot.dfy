/**
 The ACPI tables from one end to the other: built, linked by the firmware as the loader file says, and
 found in memory.
 */
module AcpiBoot {
  import opened Options
  import opened Sequences
  import opened Bytes
  import opened AcpiLoader
  import opened AcpiEntries
  import opened AcpiTables
  import opened AcpiBuild
  import opened AcpiLocate

  /** The tables that are built for a platform. */
  function Built(p: Platform): (all: seq<seq<byte>>)
    requires p.Ok()
    ensures Signed(all) && |all| == |p.others| + 5
  {
    BuiltSigned(p);
    Final(Parts(p))
  }

  lemma {:induction false} BuiltSigned(p: Platform)
    requires p.Ok()
    ensures WellMade(Parts(p)) && Signed(Final(Parts(p)))
  {
    PartsWellMade(p);
    forall k | 0 <= k < |Parts(p)| + 2
      ensures |Final(Parts(p))[k]| >= 4
    {
      AllHeader(Parts(p), k);
    }
  }

  /** The built tables are those of the platform, in order: FACS, DSDT, FADT, the others, RSDT and XSDT. */
  lemma {:induction false} BuiltMeans(p: Platform, k: nat)
    requires p.Ok() && k < |p.others|
    ensures var all := Built(p);
            && all[0] == Facs() && all[1][0..4] == DSDT && all[1][HEADER..] == p.dsdt && all[2][0..4] == FACP
            && all[3 + k] == Table(p.others[k])
            && all[|all| - 2][0..4] == RSDT && all[|all| - 1][0..4] == XSDT
            && |all[2]| == FADT_LENGTH
            && (forall j :: 0 <= j < FADT_LENGTH && !InPointer(j) ==> all[2][j] == Fadt(p)[j])
  {
    RootsOf(p);
    forall j | 0 <= j < FADT_LENGTH && !InPointer(j)
      ensures Built(p)[2][j] == Fadt(p)[j]
    {
      WithPointersKeeps(Fadt(p), Offset(All(Parts(p)), 0), Offset(All(Parts(p)), 1), j);
    }
    assert Parts(p)[3 + k] == OtherTables(p.others)[k];
  }

  lemma {:induction false} RootsOf(p: Platform)
    requires p.Ok()
    ensures var all := Built(p);
            && all[0] == Facs() && all[1] == Dsdt(p) && all[1][0..4] == DSDT && all[1][HEADER..] == p.dsdt && all[2][0..4] == FACP
            && all[|all| - 2] == RootTable(Parts(p), 4) && all[|all| - 2][0..4] == RSDT
            && all[|all| - 1] == RootTable(Parts(p), 8) && all[|all| - 1][0..4] == XSDT
  {
    var fadt := Fadt(p);
    WithPointersSets(fadt, Offset(All(Parts(p)), 0), Offset(All(Parts(p)), 1));
    HeadOf(Built(p)[2], fadt);
  }

  lemma {:induction false} HeadOf(a: seq<byte>, b: seq<byte>)
    requires |a| >= 8 && |b| >= 8 && a[0..8] == b[0..8]
    ensures a[0..4] == b[0..4]
  {
    SliceOfSlice(a, 0, 8, 0, 4);
    SliceOfSlice(b, 0, 8, 0, 4);
  }

  /** A file is in the zone that the command asks for, and aligned. */
  predicate Granted(b: Bases, files: Image, c: Command) {
    c.Allocate? && c.align > 0 ==>
      && b.At(c.file) % c.align == 0
      && if c.zone == High then 0x10_0000 <= b.At(c.file)
         else 0xF_0000 <= b.At(c.file) && b.At(c.file) + |files.Get(c.file)| <= 0x10_0000
  }

  lemma {:induction false} GrantedBases(all: seq<seq<byte>>, b: Bases)
    requires |all| >= 5 && forall k :: 0 <= k < |Script(all)| ==> Granted(b, Loaded(all), Script(all)[k])
    ensures Candidate(b.rsdp) && b.rsdp + 36 <= 0x10_0000 <= b.tables && b.tables % 64 == 0
  {
    assert Script(all)[0] == Allocate(Rsdp, 16, Fseg) && Script(all)[1] == Allocate(Tables, 64, High);
    assert Granted(b, Loaded(all), Script(all)[0]) && Granted(b, Loaded(all), Script(all)[1]);
  }

  /** Memory with the two files. */
  function WithFiles(mem: seq<byte>, b: Bases, m: Image): (r: seq<byte>)
    requires b.tables + |m.tables| <= |mem| && b.rsdp + |m.rsdp| <= |mem|
    ensures |r| == |mem|
  {
    Splice(Splice(mem, b.tables, m.tables), b.rsdp, m.rsdp)
  }

  lemma {:induction false} FilesShown(mem: seq<byte>, b: Bases, m: Image)
    requires b.tables + |m.tables| <= |mem| && b.rsdp + |m.rsdp| <= b.tables
    ensures Shows(WithFiles(mem, b, m), b.tables, m.tables) && Shows(WithFiles(mem, b, m), b.rsdp, m.rsdp)
  {
    SpliceKeeps(Splice(mem, b.tables, m.tables), b.rsdp, m.rsdp, b.tables, b.tables + |m.tables|);
  }

  /** Bytes before both files. */
  lemma {:induction false} BeforeFiles(mem: seq<byte>, b: Bases, m: Image, lo: nat, hi: nat)
    requires b.tables + |m.tables| <= |mem| && b.rsdp + |m.rsdp| <= b.tables && lo <= hi <= b.rsdp
    ensures WithFiles(mem, b, m)[lo..hi] == mem[lo..hi]
  {
    SpliceKeeps(mem, b.tables, m.tables, lo, hi);
    SpliceKeeps(Splice(mem, b.tables, m.tables), b.rsdp, m.rsdp, lo, hi);
  }

  /** There is no RSDP's signature in the BIOS area before `at`. */
  ghost predicate Unsigned(mem: seq<byte>, at: nat) {
    forall a: nat :: a < at && Candidate(a) ==> Sub(mem, a, 8) != RSD_PTR
  }

  lemma {:induction false} StillUnsigned(mem: seq<byte>, b: Bases, m: Image)
    requires b.tables + |m.tables| <= |mem| && b.rsdp + |m.rsdp| <= b.tables && Candidate(b.rsdp) && Unsigned(mem, b.rsdp)
    ensures NoneBefore(ViewOf(WithFiles(mem, b, m)), b.rsdp)
  {
    var r := WithFiles(mem, b, m);
    forall a: nat | a < b.rsdp && Candidate(a)
      ensures !ViewOf(r).isRsdp(a)
    {
      BeforeFiles(mem, b, m, a, a + 8);
      assert Sub(r, a, 8) == Sub(mem, a, 8);
    }
  }

  lemma {:induction false} BuiltIsLaid(p: Platform)
    requires p.Ok() && Offset(Built(p), |Built(p)|) <= WORDS
    ensures Laid(Built(p)) && DecodeAll(Flat(EncodeAll(Script(Built(p))))) == Some(Script(Built(p)))
  {
    BuiltSigned(p);
    FinalOffsets(Parts(p), |Parts(p)| + 2);
    FinalLaid(Parts(p));
    LoaderReadsBack(Built(p));
  }

  /** The firmware can put the tables at these addresses, below 4 GiB. */
  ghost predicate Placeable(all: seq<seq<byte>>, b: Bases, mem: seq<byte>) {
    && |all| >= 5 && b.tables + Offset(all, |all|) <= |mem| && b.tables + Offset(all, |all|) <= WORDS
    && forall k :: 0 <= k < |Script(all)| ==> Granted(b, Loaded(all), Script(all)[k])
  }

  /** The files are built, and linked as the bytes of the loader file say. */
  method Link(p: Platform, b: Bases) returns (files: Image)
    requires p.Ok() && Offset(Built(p), |Built(p)|) <= WORDS
    ensures files == Run(Loaded(Built(p)), b, Script(Built(p)))
  {
    BuiltIsLaid(p);
    var tables, rsdp, loader := BuildAcpiTables(Parts(p));
    var script := DecodeAll(loader);
    files := Run(Image(tables[..], rsdp), b, script.value);
  }

  /** Memory with both files in it, linked. */
  ghost predicate IsBooted(all: seq<seq<byte>>, b: Bases, mem: seq<byte>, booted: seq<byte>)
    requires |all| >= 5
  {
    var files := Run(Loaded(all), b, Script(all));
    && b.tables + |files.tables| <= |mem| && b.rsdp + |files.rsdp| <= |mem|
    && booted == WithFiles(mem, b, files)
  }

  /**
   For every platform, all memory and all addresses that the firmware may give the two files: the reader
   finds just the tables that were built, at their addresses and with valid checksums, exactly if no
   other RSDP comes before; and it is enough that no signature of one does.
   */
  method Boot(p: Platform, b: Bases, mem: seq<byte>) returns (booted: seq<byte>, found: Option<Found>)
    requires p.Ok() && Placeable(Built(p), b, mem)
    ensures IsBooted(Built(p), b, mem, booted) && Locates(ViewOf(booted), found)
    ensures found.Some? && found.value.rsdp <= b.rsdp
    ensures found == Some(Found(b.rsdp, 2, OEM_ID, AllFound(Built(p), b.tables))) <==> NoneBefore(ViewOf(booted), b.rsdp)
    ensures Unsigned(mem, b.rsdp) ==> found == Some(Found(b.rsdp, 2, OEM_ID, AllFound(Built(p), b.tables)))
    ensures forall k :: 0 <= k < |AllFound(Built(p), b.tables)| ==> AllFound(Built(p), b.tables)[k].checksumOk
  {
    ghost var all := Built(p);
    BuiltIsLaid(p);
    GrantedBases(all, b);
    var files := Link(p, b);
    booted := WithFiles(mem, b, files);
    FilesShown(mem, b, files);
    found := LocateLinked(all, b, booted);
    AllFoundChecked(all, b.tables);
    if Unsigned(mem, b.rsdp) {
      StillUnsigned(mem, b, files);
    }
  }
}
