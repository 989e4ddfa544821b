/**
 The linker/loader script that the firmware runs over the ACPI tables: its entries as
 src/acpi_tables.js writes them, and what they do (the ALLOCATE, ADD_POINTER and ADD_CHECKSUM
 commands of SeaBIOS's romfile_loader).
 */
module AcpiLoader {
  import opened Sequences
  import opened Bytes

  // ---- Numbers in little-endian order ----

  function Pow(n: nat): (r: nat)
    ensures r > 0
  {
    if n == 0 then 1 else 256 * Pow(n - 1)
  }

  function Le(value: nat, size: nat): (bytes: seq<byte>)
    ensures |bytes| == size
    decreases size, value
  {
    if size == 0 then [] else [value % 256] + Le(value / 256, size - 1)
  }

  lemma {:induction false} Steps(d: nat, p: nat, q: nat)
    ensures p < q ==> d * p + d <= d * q
  {
    if p < q {
      Steps(d, p, q - 1);
      assert d * q == d * (q - 1) + d;
    }
  }

  lemma {:induction false} Unique(v: nat, d: nat, q: nat, r: nat)
    requires v == d * q + r && r < d
    ensures v / d == q && v % d == r
  {
    Steps(d, v / d, q);
    Steps(d, q, v / d);
  }

  /** Division by 256 and then by b. */
  lemma {:induction false} DivMod(v: nat, b: nat)
    requires b > 0
    ensures v / 256 / b == v / (256 * b)
    ensures v % (256 * b) == v % 256 + 256 * (v / 256 % b)
  {
    var w := v / 256;
    var q, s := w / b, w % b;
    assert w == b * q + s;
    assert (256 * b) * q == 256 * (b * q);
    Unique(v, 256 * b, q, v % 256 + 256 * s);
  }

  /** Writing and reading back keeps the low bytes of a number. */
  lemma {:induction false} LeValue(value: nat, size: nat)
    ensures ValueOf(Le(value, size)) == value % Pow(size)
  {
    if size > 0 {
      LeValue(value / 256, size - 1);
      DivMod(value, Pow(size - 1));
      assert Le(value, size)[1..] == Le(value / 256, size - 1);
    }
  }

  lemma {:induction false} LeAppend(value: nat, size: nat)
    ensures Le(value, size + 1) == Le(value, size) + [value / Pow(size) % 256]
  {
    if size > 0 {
      LeAppend(value / 256, size - 1);
      DivMod(value, Pow(size - 1));
    }
  }

  /** le: the digits one after the other. */
  method LittleEndian(value: nat, size: nat) returns (bytes: seq<byte>)
    ensures bytes == Le(value, size)
  {
    bytes := [];
    var i, power := 0, 1;
    while i < size
      invariant 0 <= i <= size && power == Pow(i) && bytes == Le(value, i)
    {
      LeAppend(value, i);
      bytes := bytes + [value / power % 256];
      i, power := i + 1, 256 * power;
    }
  }

  // ---- Sums ----

  function Sum(bytes: seq<byte>): nat {
    if bytes == [] then 0 else Sum(bytes[..|bytes| - 1]) + bytes[|bytes| - 1]
  }

  lemma {:induction false} SumUpdate(bytes: seq<byte>, i: nat, v: byte)
    requires i < |bytes|
    ensures Sum(bytes[i := v]) == Sum(bytes) - bytes[i] + v
  {
    var n := |bytes| - 1;
    if i < n {
      SumUpdate(bytes[..n], i, v);
      assert bytes[i := v][..n] == bytes[..n][i := v];
    } else {
      assert bytes[i := v][..n] == bytes[..n];
    }
  }

  /** The byte that makes the sum of its range 0 modulo 256. */
  function Balance(old_: byte, sum: nat): byte {
    (old_ - sum) % 256
  }

  lemma {:induction false} Balanced(bytes: seq<byte>, i: nat)
    requires i < |bytes|
    ensures Sum(bytes[i := Balance(bytes[i], Sum(bytes))]) % 256 == 0
  {
    SumUpdate(bytes, i, Balance(bytes[i], Sum(bytes)));
  }

  // ---- Commands ----

  datatype File = Tables | Rsdp

  datatype Zone = High | Fseg

  datatype Command =
    | Allocate(file: File, align: nat, zone: Zone)
    | AddPointer(dest: File, src: File, offset: nat, size: nat)
    | AddChecksum(file: File, offset: nat, start: nat, length: nat)

  /** The files as the firmware has them in memory, and where it put them. */
  datatype Image = Image(tables: seq<byte>, rsdp: seq<byte>) {
    function Get(f: File): seq<byte> {
      if f == Tables then tables else rsdp
    }

    function Put(f: File, bytes: seq<byte>): (r: Image)
      ensures r.Get(f) == bytes && forall g :: g != f ==> r.Get(g) == Get(g)
    {
      if f == Tables then this.(tables := bytes) else this.(rsdp := bytes)
    }
  }

  datatype Bases = Bases(tables: nat, rsdp: nat) {
    function At(f: File): nat {
      if f == Tables then tables else rsdp
    }
  }

  predicate InBounds(m: Image, c: Command) {
    match c
    case Allocate(_, _, _) => true
    case AddPointer(dest, _, offset, size) => 1 <= size <= 8 && offset + size <= |m.Get(dest)|
    case AddChecksum(file, offset, start, length) =>
      offset < |m.Get(file)| && start + length <= |m.Get(file)|
  }

  lemma {:induction false} SpliceKeeps(bytes: seq<byte>, at: nat, part: seq<byte>, lo: nat, hi: nat)
    requires at + |part| <= |bytes| && lo <= hi <= |bytes| && (hi <= at || at + |part| <= lo)
    ensures Splice(bytes, at, part)[lo..hi] == bytes[lo..hi]
  {
    var r := Splice(bytes, at, part);
    assert forall k :: lo <= k < hi ==> r[k] == bytes[k];
  }

  /** One command; one that is out of bounds is ignored. */
  function Apply(m: Image, b: Bases, c: Command): (r: Image)
    ensures |r.tables| == |m.tables| && |r.rsdp| == |m.rsdp|
  {
    if !InBounds(m, c) then m
    else
      match c
      case Allocate(_, _, _) => m
      case AddPointer(dest, src, offset, size) =>
        var bytes := m.Get(dest);
        m.Put(dest, Splice(bytes, offset, Le(ValueOf(bytes[offset..offset + size]) + b.At(src), size)))
      case AddChecksum(file, offset, start, length) =>
        var bytes := m.Get(file);
        m.Put(file, bytes[offset := Balance(bytes[offset], Sum(bytes[start..start + length]))])
  }

  function Run(m: Image, b: Bases, commands: seq<Command>): (r: Image)
    ensures |r.tables| == |m.tables| && |r.rsdp| == |m.rsdp|
  {
    if commands == [] then m else Apply(Run(m, b, commands[..|commands| - 1]), b, commands[|commands| - 1])
  }

  /** The command writes one of the bytes from lo up to hi of the file. */
  predicate Touches(c: Command, f: File, lo: nat, hi: nat) {
    match c
    case Allocate(_, _, _) => false
    case AddPointer(dest, _, offset, size) => dest == f && offset < hi && lo < offset + size
    case AddChecksum(file, offset, _, _) => file == f && lo <= offset < hi
  }

  lemma {:induction false} ApplyAvoids(m: Image, b: Bases, c: Command, f: File, lo: nat, hi: nat)
    requires lo <= hi <= |m.Get(f)| && !Touches(c, f, lo, hi)
    ensures |Apply(m, b, c).Get(f)| == |m.Get(f)|
    ensures Apply(m, b, c).Get(f)[lo..hi] == m.Get(f)[lo..hi]
  {
    if c.AddPointer? && c.dest == f && InBounds(m, c) {
      var bytes := m.Get(f);
      SpliceKeeps(bytes, c.offset, Le(ValueOf(bytes[c.offset..c.offset + c.size]) + b.At(c.src), c.size), lo, hi);
    } else if c.AddChecksum? && c.file == f && InBounds(m, c) {
      var bytes := m.Get(f);
      UpdateKeeps(bytes, c.offset, Balance(bytes[c.offset], Sum(bytes[c.start..c.start + c.length])), lo, hi);
    }
  }

  lemma {:induction false} UpdateKeeps(bytes: seq<byte>, i: nat, v: byte, lo: nat, hi: nat)
    requires i < |bytes| && lo <= hi <= |bytes| && (i < lo || hi <= i)
    ensures bytes[i := v][lo..hi] == bytes[lo..hi]
  {
  }

  predicate Untouched(commands: seq<Command>, f: File, lo: nat, hi: nat) {
    forall k :: 0 <= k < |commands| ==> !Touches(commands[k], f, lo, hi)
  }

  /** Bytes that no command writes keep their value. */
  lemma {:induction false} RunAvoids(m: Image, b: Bases, commands: seq<Command>, f: File, lo: nat, hi: nat)
    requires lo <= hi <= |m.Get(f)| && Untouched(commands, f, lo, hi)
    ensures |Run(m, b, commands).Get(f)| == |m.Get(f)|
    ensures Run(m, b, commands).Get(f)[lo..hi] == m.Get(f)[lo..hi]
  {
    if commands != [] {
      var n := |commands| - 1;
      RunAvoids(m, b, commands[..n], f, lo, hi);
      ApplyAvoids(Run(m, b, commands[..n]), b, commands[n], f, lo, hi);
    }
  }

  /** Only command i writes the bytes. */
  predicate Alone(commands: seq<Command>, i: nat, f: File, lo: nat, hi: nat) {
    forall k :: 0 <= k < |commands| && k != i ==> !Touches(commands[k], f, lo, hi)
  }

  /** No command after i writes the bytes. */
  predicate LastTo(commands: seq<Command>, i: nat, f: File, lo: nat, hi: nat) {
    forall k :: i < k < |commands| ==> !Touches(commands[k], f, lo, hi)
  }

  /** A run up to a command, the command, and the rest. */
  lemma {:induction false} RunAround(m: Image, b: Bases, commands: seq<Command>, i: nat)
    requires i < |commands|
    ensures Run(m, b, commands) == Run(Apply(Run(m, b, commands[..i]), b, commands[i]), b, commands[i + 1..])
  {
    var n := |commands| - 1;
    if i < n {
      RunAround(m, b, commands[..n], i);
      var rest := commands[i + 1..];
      assert commands[..n][..i] == commands[..i] && commands[..n][i + 1..] == rest[..|rest| - 1];
    }
  }

  lemma {:induction false} AloneParts(commands: seq<Command>, i: nat, f: File, lo: nat, hi: nat)
    requires i < |commands|
    ensures Alone(commands, i, f, lo, hi) ==> Untouched(commands[..i], f, lo, hi)
    ensures Alone(commands, i, f, lo, hi) || LastTo(commands, i, f, lo, hi) ==> Untouched(commands[i + 1..], f, lo, hi)
  {
  }

  lemma {:induction false} ApplyPointer(m: Image, b: Bases, f: File, lo: nat, hi: nat)
    requires lo < hi <= |m.Get(f)| && hi - lo <= 8
    ensures var r := Apply(m, b, AddPointer(f, Tables, lo, hi - lo)).Get(f);
            |r| == |m.Get(f)| && r[lo..hi] == Le(ValueOf(m.Get(f)[lo..hi]) + b.tables, hi - lo)
  {
  }

  /** A pointer that no other command writes ends up as the address of what it pointed to. */
  lemma {:induction false} PointerLinked(m: Image, b: Bases, commands: seq<Command>, i: nat, f: File, lo: nat, hi: nat)
    requires i < |commands| && lo <= hi && commands[i] == AddPointer(f, Tables, lo, hi - lo) && InBounds(m, commands[i])
    requires Alone(commands, i, f, lo, hi)
    ensures |Run(m, b, commands).Get(f)| == |m.Get(f)|
    ensures Run(m, b, commands).Get(f)[lo..hi] == Le(ValueOf(m.Get(f)[lo..hi]) + b.tables, hi - lo)
  {
    AloneParts(commands, i, f, lo, hi);
    RunAvoids(m, b, commands[..i], f, lo, hi);
    ApplyPointer(Run(m, b, commands[..i]), b, f, lo, hi);
    KeptAfter(m, b, commands, i, f, lo, hi);
  }

  /** Bytes that no command after i writes are as command i left them. */
  lemma {:induction false} KeptAfter(m: Image, b: Bases, commands: seq<Command>, i: nat, f: File, lo: nat, hi: nat)
    requires i < |commands| && lo <= hi <= |m.Get(f)| && Untouched(commands[i + 1..], f, lo, hi)
    ensures var now := Apply(Run(m, b, commands[..i]), b, commands[i]).Get(f);
            && |now| == |m.Get(f)| == |Run(m, b, commands).Get(f)| && Run(m, b, commands).Get(f)[lo..hi] == now[lo..hi]
  {
    RunAround(m, b, commands, i);
    RunAvoids(Apply(Run(m, b, commands[..i]), b, commands[i]), b, commands[i + 1..], f, lo, hi);
  }

  lemma {:induction false} BalancedIn(bytes: seq<byte>, at: nat, lo: nat, hi: nat)
    requires lo <= at < hi <= |bytes|
    ensures Sum(bytes[at := Balance(bytes[at], Sum(bytes[lo..hi]))][lo..hi]) % 256 == 0
  {
    var part := bytes[lo..hi];
    var v := Balance(bytes[at], Sum(part));
    Balanced(part, at - lo);
    assert bytes[at := v][lo..hi] == part[at - lo := v];
  }

  /** What ADD_CHECKSUM does to the range it covers. */
  lemma {:induction false} ApplyChecksum(m: Image, b: Bases, f: File, at: nat, lo: nat, hi: nat)
    requires lo <= at < hi <= |m.Get(f)|
    ensures var r := Apply(m, b, AddChecksum(f, at, lo, hi - lo)).Get(f);
            |r| == |m.Get(f)| && Sum(r[lo..hi]) % 256 == 0
  {
    BalancedIn(m.Get(f), at, lo, hi);
  }

  /** A range that no later command writes sums to 0 once its checksum is set. */
  lemma {:induction false} ChecksumHolds(m: Image, b: Bases, commands: seq<Command>, i: nat, f: File, at: nat, lo: nat, hi: nat)
    requires i < |commands| && lo <= at < hi <= |m.Get(f)| && commands[i] == AddChecksum(f, at, lo, hi - lo)
    requires LastTo(commands, i, f, lo, hi)
    ensures |Run(m, b, commands).Get(f)| == |m.Get(f)|
    ensures Sum(Run(m, b, commands).Get(f)[lo..hi]) % 256 == 0
  {
    AloneParts(commands, i, f, lo, hi);
    ApplyChecksum(Run(m, b, commands[..i]), b, f, at, lo, hi);
    KeptAfter(m, b, commands, i, f, lo, hi);
  }
}
