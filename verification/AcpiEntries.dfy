/** The entries of the loader script as bytes, written (src/acpi_tables.js) and read back as the firmware does. */
module AcpiEntries {
  import opened Options
  import opened Bytes
  import opened AcpiLoader

  const ENTRY_SIZE: nat := 128
  const NAME_SIZE: nat := 56

  /** loader_name: a name of less than 56 characters, padded with zeros. */
  function LoaderName(name: seq<byte>): (r: seq<byte>)
    requires |name| < NAME_SIZE
    ensures |r| == NAME_SIZE
  {
    name + Zeros(NAME_SIZE - |name|)
  }

  /** What comes before the first zero. */
  function UpToZero(bytes: seq<byte>): seq<byte> {
    if bytes == [] || bytes[0] == 0 then [] else [bytes[0]] + UpToZero(bytes[1..])
  }

  lemma {:induction false} UpToZeroName(name: seq<byte>, rest: seq<byte>)
    requires 0 !in name && (rest == [] || rest[0] == 0)
    ensures UpToZero(name + rest) == name
  {
    if name == [] {
      assert name + rest == rest;
    } else {
      UpToZeroName(name[1..], rest);
      assert (name + rest)[1..] == name[1..] + rest && (name + rest)[0] == name[0];
    }
  }

  /** "etc/acpi/tables" and "etc/acpi/rsdp" */
  function Name(f: File): (name: seq<byte>)
    ensures |name| < NAME_SIZE && 0 !in name
  {
    [0x65, 0x74, 0x63, 0x2F, 0x61, 0x63, 0x70, 0x69, 0x2F] +
    if f == Tables then [0x74, 0x61, 0x62, 0x6C, 0x65, 0x73] else [0x72, 0x73, 0x64, 0x70]
  }

  function FileNamed(name: seq<byte>): Option<File> {
    if name == Name(Tables) then Some(Tables) else if name == Name(Rsdp) then Some(Rsdp) else None
  }

  lemma {:induction false} NameRoundTrip(f: File)
    ensures FileNamed(UpToZero(LoaderName(Name(f)))) == Some(f)
  {
    UpToZeroName(Name(f), Zeros(NAME_SIZE - |Name(f)|));
    assert |Name(Tables)| != |Name(Rsdp)|;
  }

  /** loader_entry: padded to the size of an entry. */
  function Padded(bytes: seq<byte>): (r: seq<byte>)
    requires |bytes| <= ENTRY_SIZE
    ensures |r| == ENTRY_SIZE && r[..|bytes|] == bytes
  {
    bytes + Zeros(ENTRY_SIZE - |bytes|)
  }

  function ZoneCode(z: Zone): byte {
    if z == High then 1 else 2
  }

  /** loader_allocate, loader_add_pointer and loader_add_checksum. */
  function Encode(c: Command): (entry: seq<byte>)
    ensures |entry| == ENTRY_SIZE
  {
    match c
    case Allocate(file, align, zone) =>
      Padded(Le(1, 4) + LoaderName(Name(file)) + Le(align, 4) + [ZoneCode(zone)])
    case AddPointer(dest, src, offset, size) =>
      Padded(Le(2, 4) + LoaderName(Name(dest)) + LoaderName(Name(src)) + Le(offset, 4) + [size % 256])
    case AddChecksum(file, offset, start, length) =>
      Padded(Le(3, 4) + LoaderName(Name(file)) + Le(offset, 4) + Le(start, 4) + Le(length, 4))
  }

  function FileAt(entry: seq<byte>, at: nat): Option<File>
    requires at + NAME_SIZE <= |entry|
  {
    FileNamed(UpToZero(entry[at..at + NAME_SIZE]))
  }

  function Word(entry: seq<byte>, at: nat): nat
    requires at + 4 <= |entry|
  {
    ValueOf(entry[at..at + 4])
  }

  /** How the firmware reads an entry; None for one it does not know. */
  function Decode(entry: seq<byte>): Option<Command>
    requires |entry| == ENTRY_SIZE
  {
    var code, first := Word(entry, 0), FileAt(entry, 4);
    if first.None? then None
    else if code == 1 then
      if entry[64] == 1 then Some(Allocate(first.value, Word(entry, 60), High))
      else if entry[64] == 2 then Some(Allocate(first.value, Word(entry, 60), Fseg))
      else None
    else if code == 2 then
      var second := FileAt(entry, 60);
      if second.None? then None else Some(AddPointer(first.value, second.value, Word(entry, 116), entry[120]))
    else if code == 3 then Some(AddChecksum(first.value, Word(entry, 60), Word(entry, 64), Word(entry, 68)))
    else None
  }

  const WORDS: nat := 0x1_0000_0000

  /** The numbers of the command fit the fields of its entry. */
  predicate Fits(c: Command) {
    match c
    case Allocate(_, align, _) => align < WORDS
    case AddPointer(_, _, offset, size) => offset < WORDS && size < 256
    case AddChecksum(_, offset, start, length) => offset < WORDS && start < WORDS && length < WORDS
  }

  lemma {:induction false} WordRead(entry: seq<byte>, at: nat, value: nat)
    requires at + 4 <= |entry| && entry[at..at + 4] == Le(value, 4)
    ensures Word(entry, at) == value % WORDS
  {
    LeValue(value, 4);
    assert Pow(4) == 256 * Pow(3) && Pow(3) == 256 * Pow(2) && Pow(2) == 256 * Pow(1) && Pow(1) == 256;
  }

  /** The fields of an entry, one after the other. */
  lemma {:induction false} Fields(a: seq<byte>, b: seq<byte>, c: seq<byte>, d: seq<byte>, e: seq<byte>, rest: seq<byte>)
    ensures var all := a + b + c + d + e + rest;
            var i := |a|;
            var j := i + |b|;
            var k := j + |c|;
            var l := k + |d|;
            && all[0..i] == a && all[i..j] == b && all[j..k] == c && all[k..l] == d && all[l..l + |e|] == e
  {
  }

  lemma {:induction false} AllocateRoundTrip(file: File, align: nat, zone: Zone)
    ensures Decode(Encode(Allocate(file, align, zone))) == Some(Allocate(file, align % WORDS, zone))
  {
    var e := Encode(Allocate(file, align, zone));
    Fields(Le(1, 4), LoaderName(Name(file)), Le(align, 4), [ZoneCode(zone)], [], Zeros(63));
    assert e == Le(1, 4) + LoaderName(Name(file)) + Le(align, 4) + [ZoneCode(zone)] + [] + Zeros(63);
    assert e[64..65] == [ZoneCode(zone)] && e[64] == e[64..65][0];
    WordRead(e, 0, 1);
    WordRead(e, 60, align);
    NameRoundTrip(file);
  }

  lemma {:induction false} PointerRoundTrip(dest: File, src: File, offset: nat, size: nat)
    ensures Decode(Encode(AddPointer(dest, src, offset, size))) == Some(AddPointer(dest, src, offset % WORDS, size % 256))
  {
    var e := Encode(AddPointer(dest, src, offset, size));
    Fields(Le(2, 4), LoaderName(Name(dest)), LoaderName(Name(src)), Le(offset, 4), [size % 256], Zeros(7));
    assert e == Le(2, 4) + LoaderName(Name(dest)) + LoaderName(Name(src)) + Le(offset, 4) + [size % 256] + Zeros(7);
    assert e[120..121] == [size % 256] && e[120] == e[120..121][0];
    WordRead(e, 0, 2);
    WordRead(e, 116, offset);
    NameRoundTrip(dest);
    NameRoundTrip(src);
  }

  lemma {:induction false} ChecksumRoundTrip(file: File, offset: nat, start: nat, length: nat)
    ensures Decode(Encode(AddChecksum(file, offset, start, length)))
         == Some(AddChecksum(file, offset % WORDS, start % WORDS, length % WORDS))
  {
    var e := Encode(AddChecksum(file, offset, start, length));
    Fields(Le(3, 4), LoaderName(Name(file)), Le(offset, 4), Le(start, 4), Le(length, 4), Zeros(56));
    assert e == Le(3, 4) + LoaderName(Name(file)) + Le(offset, 4) + Le(start, 4) + Le(length, 4) + Zeros(56);
    WordRead(e, 0, 3);
    WordRead(e, 60, offset);
    WordRead(e, 64, start);
    WordRead(e, 68, length);
    NameRoundTrip(file);
  }

  lemma {:induction false} NameTexts()
    ensures Name(Tables) == Ascii("etc/acpi/tables") && Name(Rsdp) == Ascii("etc/acpi/rsdp")
  {
  }

  /** A file's name at a place of an entry, followed by zeros. */
  predicate NamedAt(entry: seq<byte>, at: nat, f: File) {
    && at + NAME_SIZE <= |entry| && entry[at..at + |Name(f)|] == Name(f)
    && forall k :: at + |Name(f)| <= k < at + NAME_SIZE ==> entry[k] == 0
  }

  lemma {:induction false} NameIsAt(entry: seq<byte>, at: nat, f: File)
    requires at + NAME_SIZE <= |entry| && entry[at..at + NAME_SIZE] == LoaderName(Name(f))
    ensures NamedAt(entry, at, f)
  {
    var name := LoaderName(Name(f));
    SliceOfSlice(entry, at, at + NAME_SIZE, 0, |Name(f)|);
    forall k | at + |Name(f)| <= k < at + NAME_SIZE
      ensures entry[k] == 0
    {
      assert entry[k] == name[k - at];
    }
  }

  /** Where the firmware looks for the parts of an entry. */
  lemma {:induction false} EntryLayout(c: Command)
    ensures var e := Encode(c);
            match c
            case Allocate(file, align, zone) =>
              && e[0..4] == Le(1, 4) && NamedAt(e, 4, file) && e[60..64] == Le(align, 4) && e[64] == (if zone == High then 1 else 2)
            case AddPointer(dest, src, offset, size) =>
              && e[0..4] == Le(2, 4) && NamedAt(e, 4, dest) && NamedAt(e, 60, src) && e[116..120] == Le(offset, 4) && e[120] == size % 256
            case AddChecksum(file, offset, start, length) =>
              && e[0..4] == Le(3, 4) && NamedAt(e, 4, file) && e[60..64] == Le(offset, 4) && e[64..68] == Le(start, 4)
              && e[68..72] == Le(length, 4)
  {
    match c
    case Allocate(file, align, zone) => AllocateLayout(file, align, zone);
    case AddPointer(dest, src, offset, size) => PointerLayout(dest, src, offset, size);
    case AddChecksum(file, offset, start, length) => ChecksumLayout(file, offset, start, length);
  }

  lemma {:induction false} AllocateLayout(file: File, align: nat, zone: Zone)
    ensures var e := Encode(Allocate(file, align, zone));
            && e[0..4] == Le(1, 4) && NamedAt(e, 4, file) && e[60..64] == Le(align, 4) && e[64] == (if zone == High then 1 else 2)
  {
    var e := Encode(Allocate(file, align, zone));
    Fields(Le(1, 4), LoaderName(Name(file)), Le(align, 4), [ZoneCode(zone)], [], Zeros(63));
    assert e == Le(1, 4) + LoaderName(Name(file)) + Le(align, 4) + [ZoneCode(zone)] + [] + Zeros(63);
    assert e[64..65] == [ZoneCode(zone)] && e[64] == e[64..65][0];
    NameIsAt(e, 4, file);
  }

  lemma {:induction false} PointerLayout(dest: File, src: File, offset: nat, size: nat)
    ensures var e := Encode(AddPointer(dest, src, offset, size));
            && e[0..4] == Le(2, 4) && NamedAt(e, 4, dest) && NamedAt(e, 60, src) && e[116..120] == Le(offset, 4) && e[120] == size % 256
  {
    var e := Encode(AddPointer(dest, src, offset, size));
    Fields(Le(2, 4), LoaderName(Name(dest)), LoaderName(Name(src)), Le(offset, 4), [size % 256], Zeros(7));
    assert e == Le(2, 4) + LoaderName(Name(dest)) + LoaderName(Name(src)) + Le(offset, 4) + [size % 256] + Zeros(7);
    assert e[120..121] == [size % 256] && e[120] == e[120..121][0];
    NameIsAt(e, 4, dest);
    NameIsAt(e, 60, src);
  }

  lemma {:induction false} ChecksumLayout(file: File, offset: nat, start: nat, length: nat)
    ensures var e := Encode(AddChecksum(file, offset, start, length));
            && e[0..4] == Le(3, 4) && NamedAt(e, 4, file) && e[60..64] == Le(offset, 4) && e[64..68] == Le(start, 4)
            && e[68..72] == Le(length, 4)
  {
    var e := Encode(AddChecksum(file, offset, start, length));
    Fields(Le(3, 4), LoaderName(Name(file)), Le(offset, 4), Le(start, 4), Le(length, 4), Zeros(56));
    assert e == Le(3, 4) + LoaderName(Name(file)) + Le(offset, 4) + Le(start, 4) + Le(length, 4) + Zeros(56);
    NameIsAt(e, 4, file);
  }

  /** The command with numbers cut to the fields of its entry. */
  function Cut(c: Command): Command {
    match c
    case Allocate(file, align, zone) => Allocate(file, align % WORDS, zone)
    case AddPointer(dest, src, offset, size) => AddPointer(dest, src, offset % WORDS, size % 256)
    case AddChecksum(file, offset, start, length) => AddChecksum(file, offset % WORDS, start % WORDS, length % WORDS)
  }

  lemma {:induction false} CutIsSame(c: Command)
    ensures Cut(c) == c <==> Fits(c)
  {
  }

  lemma {:induction false} EntryIsCut(c: Command)
    ensures Decode(Encode(c)) == Some(Cut(c))
  {
    if c.Allocate? {
      AllocateRoundTrip(c.file, c.align, c.zone);
    } else if c.AddPointer? {
      PointerRoundTrip(c.dest, c.src, c.offset, c.size);
    } else {
      ChecksumRoundTrip(c.file, c.offset, c.start, c.length);
    }
  }

  /** An entry is read as the command it was written for exactly if the numbers fit. */
  lemma {:induction false} EntryRoundTrip(c: Command)
    ensures Decode(Encode(c)) == Some(c) <==> Fits(c)
  {
    EntryIsCut(c);
    CutIsSame(c);
  }

  /** The file etc/table-loader: the entries one after the other. */
  function Flat(entries: seq<seq<byte>>): seq<byte> {
    if entries == [] then [] else entries[0] + Flat(entries[1..])
  }

  function EncodeAll(commands: seq<Command>): (entries: seq<seq<byte>>)
    ensures |entries| == |commands| && forall k :: 0 <= k < |commands| ==> entries[k] == Encode(commands[k])
  {
    if commands == [] then [] else [Encode(commands[0])] + EncodeAll(commands[1..])
  }

  function DecodeAll(bytes: seq<byte>): Option<seq<Command>> {
    if bytes == [] then Some([])
    else if |bytes| < ENTRY_SIZE then None
    else
      var first, rest := Decode(bytes[..ENTRY_SIZE]), DecodeAll(bytes[ENTRY_SIZE..]);
      if first.None? || rest.None? then None else Some([first.value] + rest.value)
  }

  lemma {:induction false} DecodeEach(entries: seq<seq<byte>>, commands: seq<Command>)
    requires |entries| == |commands|
    requires forall k :: 0 <= k < |entries| ==> |entries[k]| == ENTRY_SIZE && Decode(entries[k]) == Some(commands[k])
    ensures DecodeAll(Flat(entries)) == Some(commands)
  {
    if commands != [] {
      DecodeEach(entries[1..], commands[1..]);
      var bytes := Flat(entries);
      assert bytes[..ENTRY_SIZE] == entries[0] && bytes[ENTRY_SIZE..] == Flat(entries[1..]);
      assert [commands[0]] + commands[1..] == commands;
    } else {
      assert entries == [];
    }
  }

  /** The firmware reads the script that was written. */
  lemma {:induction false} ScriptRoundTrip(commands: seq<Command>)
    requires forall k :: 0 <= k < |commands| ==> Fits(commands[k])
    ensures DecodeAll(Flat(EncodeAll(commands))) == Some(commands)
  {
    forall k | 0 <= k < |commands|
      ensures Decode(Encode(commands[k])) == Some(commands[k])
    {
      EntryRoundTrip(commands[k]);
    }
    DecodeEach(EncodeAll(commands), commands);
  }
}
