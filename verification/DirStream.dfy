/**
 Directories as 9P reads them (lib/filesystem.js, lib/9p.js): a stream of entries, each of which says
 where the next one begins.
 */
module DirStream {
  import opened Numbers
  import opened Sequences
  import opened Bytes
  import opened Codec

  /** A name with the id and the mode of its inode. */
  datatype Entry = Entry(kind: int, version: int, path: int, mode: int, name: seq<byte>)

  const TYPES: seq<Type> := [Q, D, B, S]

  /** The values that are marshalled for an entry. */
  function Values(e: Entry, next: nat): (r: seq<Value>)
    ensures AllTyped(TYPES, r)
  {
    [Qid(e.kind, e.version, e.path), Num(next), Num(e.mode / 0x1000), Str(e.name)]
  }

  function EntrySize(e: Entry): nat {
    13 + 8 + 1 + 2 + |e.name|
  }

  /** Where entry k begins. */
  function Boundary(entries: seq<Entry>, k: nat): nat
    requires k <= |entries|
  {
    if k == 0 then 0 else Boundary(entries, k - 1) + EntrySize(entries[k - 1])
  }

  lemma {:induction false} BoundaryGrows(entries: seq<Entry>, j: nat, k: nat)
    requires j <= k <= |entries|
    ensures Boundary(entries, j) + (k - j) <= Boundary(entries, k)
    decreases k
  {
    if j < k {
      BoundaryGrows(entries, j, k - 1);
    }
  }

  /** The parts of an entry. */
  function EntryItems(e: Entry, next: nat): seq<seq<byte>> {
    Items(TYPES, Values(e, next))
  }

  function EntryBytes(e: Entry, next: nat): seq<byte> {
    Encode(TYPES, Values(e, next))
  }

  /** The id, the offset of the next entry, and the rest. */
  lemma {:induction false} EntryParts(e: Entry, next: nat)
    ensures EntryBytes(e, next) == EncodeItem(Q, Qid(e.kind, e.version, e.path)) + EncodeItem(D, Num(next))
                                   + ([e.mode / 0x1000 % 0x100] + (Half(|e.name|) + e.name))
    ensures |EntryBytes(e, next)| == EntrySize(e)
  {
    var items: seq<seq<byte>> := EntryItems(e, next);
    var a, b, c, d := items[0], items[1], items[2], items[3];
    assert items == [a, b, c, d];
    FourItems(a, b, c, d);
  }

  lemma {:induction false} FourItems(a: seq<byte>, b: seq<byte>, c: seq<byte>, d: seq<byte>)
    ensures Flat([a, b, c, d]) == a + b + (c + d)
  {
    var items: seq<seq<byte>> := [a, b, c, d];
    var last: seq<seq<byte>> := [d];
    assert items[1..] == [b, c, d] && items[1..][1..] == [c, d] && items[1..][1..][1..] == last && |last[1..]| == 0;
    assert Flat(last) == d;
    assert Flat([c, d]) == c + d && Flat([b, c, d]) == b + (c + d);
  }

  // ---- Parts one after the other ----

  function Edge(parts: seq<seq<byte>>, k: nat): nat
    requires k <= |parts|
  {
    if k == 0 then 0 else Edge(parts, k - 1) + |parts[k - 1]|
  }

  function Stream(parts: seq<seq<byte>>, j: nat, k: nat): (r: seq<byte>)
    requires j <= k <= |parts|
    ensures |r| == Edge(parts, k) - Edge(parts, j)
    decreases k
  {
    if j == k then [] else Stream(parts, j, k - 1) + parts[k - 1]
  }

  lemma {:induction false} StreamSplit(parts: seq<seq<byte>>, i: nat, j: nat, k: nat)
    requires i <= j <= k <= |parts|
    ensures Stream(parts, i, k) == Stream(parts, i, j) + Stream(parts, j, k)
    decreases k
  {
    if j < k {
      StreamSplit(parts, i, j, k - 1);
      var last := parts[k - 1];
      assert Stream(parts, i, j) + Stream(parts, j, k - 1) + last == Stream(parts, i, j) + (Stream(parts, j, k - 1) + last);
    }
  }

  /** A whole number of parts is a slice between two edges. */
  lemma {:induction false} StreamSlice(parts: seq<seq<byte>>, j: nat, k: nat)
    requires j <= k <= |parts|
    ensures Edge(parts, j) <= Edge(parts, k) <= |Stream(parts, 0, |parts|)|
    ensures Stream(parts, 0, |parts|)[Edge(parts, j)..Edge(parts, k)] == Stream(parts, j, k)
  {
    StreamSplit(parts, 0, j, k);
    StreamSplit(parts, 0, k, |parts|);
    var a, b, c := Stream(parts, 0, j), Stream(parts, j, k), Stream(parts, k, |parts|);
    assert Stream(parts, 0, |parts|) == a + b + c;
    Middle(a, b, c);
  }

  lemma {:induction false} Middle(a: seq<byte>, b: seq<byte>, c: seq<byte>)
    ensures (a + b + c)[|a|..|a| + |b|] == b
  {
  }

  /** Part k is entry k, which says where entry k + 1 begins. */
  ghost predicate PartIs(parts: seq<seq<byte>>, entries: seq<Entry>, k: nat) {
    k < |parts| && k < |entries| && parts[k] == EntryBytes(entries[k], Boundary(entries, k + 1))
  }

  predicate SameSizes(parts: seq<seq<byte>>, entries: seq<Entry>) {
    |parts| <= |entries| && forall k :: 0 <= k < |parts| ==> |parts[k]| == EntrySize(entries[k])
  }

  /** The parts are the first entries. */
  ghost predicate Describes(parts: seq<seq<byte>>, entries: seq<Entry>) {
    SameSizes(parts, entries) && forall k :: 0 <= k < |parts| ==> PartIs(parts, entries, k)
  }

  lemma {:induction false} EdgeIsBoundary(entries: seq<Entry>, parts: seq<seq<byte>>, k: nat)
    requires SameSizes(parts, entries) && k <= |parts|
    ensures Edge(parts, k) == Boundary(entries, k)
  {
    if k > 0 {
      EdgeIsBoundary(entries, parts, k - 1);
    }
  }

  // ---- FillDirectory ----

  /** The first loop of FillDirectory. */
  method StreamSize(entries: seq<Entry>) returns (size: nat)
    ensures size == Boundary(entries, |entries|)
  {
    size := 0;
    var i := 0;
    while i < |entries|
      invariant 0 <= i <= |entries| && size == Boundary(entries, i)
    {
      size := size + 13 + 8 + 1 + 2 + |entries[i].name|;
      i := i + 1;
    }
  }

  method PutEntry(e: Entry, data: array<byte>, offset: nat) returns (written: nat, ghost part: seq<byte>)
    requires offset + EntrySize(e) <= data.Length
    modifies data
    ensures written == EntrySize(e) == |part| && part == EntryBytes(e, offset + written)
    ensures data[..offset + written] == old(data[..offset]) + part
  {
    var next := offset + 13 + 8 + 1 + 2 + |e.name|;
    EntryParts(e, next);
    part := EntryBytes(e, next);
    SpliceFront(data[..], offset, part);
    written := MarshallInRoom(TYPES, Values(e, next), data, offset);
  }

  lemma {:induction false} DescribesMore(parts: seq<seq<byte>>, entries: seq<Entry>, part: seq<byte>)
    requires Describes(parts, entries) && |parts| < |entries| && |part| == EntrySize(entries[|parts|])
    requires part == EntryBytes(entries[|parts|], Boundary(entries, |parts| + 1))
    ensures Describes(parts + [part], entries)
  {
    forall k | 0 <= k < |parts| + 1
      ensures PartIs(parts + [part], entries, k)
    {
      if k < |parts| {
        assert PartIs(parts, entries, k);
      }
    }
  }

  lemma {:induction false} StreamMore(parts: seq<seq<byte>>, part: seq<byte>, k: nat)
    requires k <= |parts|
    ensures Stream(parts + [part], 0, k) == Stream(parts, 0, k)
    ensures k == |parts| ==> Stream(parts + [part], 0, k + 1) == Stream(parts, 0, k) + part
  {
    if k > 0 {
      StreamMore(parts, part, k - 1);
    }
  }

  /** One turn of the second loop of FillDirectory. */
  method PutNext(entries: seq<Entry>, i: nat, data: array<byte>, offset: nat, ghost parts: seq<seq<byte>>)
    returns (written: nat, ghost more: seq<seq<byte>>)
    requires i < |entries| && offset == Boundary(entries, i) && offset + EntrySize(entries[i]) <= data.Length
    requires Describes(parts, entries) && |parts| == i && data[..offset] == Stream(parts, 0, i)
    modifies data
    ensures written == EntrySize(entries[i]) && Describes(more, entries) && |more| == i + 1
    ensures data[..offset + written] == Stream(more, 0, i + 1)
  {
    ghost var part;
    written, part := PutEntry(entries[i], data, offset);
    more := parts + [part];
    DescribesMore(parts, entries, part);
    StreamMore(parts, part, i);
  }

  lemma {:induction false} SpliceFront(s: seq<byte>, at: nat, bytes: seq<byte>)
    requires at + |bytes| <= |s|
    ensures Splice(s, at, bytes)[..at + |bytes|] == s[..at] + bytes
  {
  }

  /** FillDirectory: the size is computed first, and is that of what is marshalled. */
  method FillDirectory(entries: seq<Entry>) returns (data: array<byte>, ghost parts: seq<seq<byte>>)
    ensures fresh(data) && data.Length == Boundary(entries, |entries|)
    ensures Describes(parts, entries) && |parts| == |entries| && data[..] == Stream(parts, 0, |entries|)
  {
    var size := StreamSize(entries);
    data := new byte[size];
    var offset, i := 0, 0;
    parts := [];
    while i < |entries|
      invariant 0 <= i <= |entries| && offset == Boundary(entries, i) <= data.Length == size && fresh(data)
      invariant Describes(parts, entries) && |parts| == i && data[..offset] == Stream(parts, 0, i)
    {
      BoundaryGrows(entries, i + 1, |entries|);
      var written;
      written, parts := PutNext(entries, i, data, offset, parts);
      offset := offset + written;
      i := i + 1;
    }
    assert data[..offset] == data[..];
  }

  // ---- RoundToDirentry ----

  /** The entry at an offset says where the next one begins. */
  predicate LeadsTo(data: seq<byte>, offset: nat, next: nat) {
    && offset <= |data| && Holds([Q, D], data[offset..])
    && |Decode([Q, D], data[offset..])| == 2 && Decode([Q, D], data[offset..])[1] == Num(next)
  }

  /** Where the entries of a stream begin, and where it ends. */
  predicate Ascending(data: seq<byte>, edges: seq<nat>) {
    && |edges| > 0 && edges[0] == 0 && edges[|edges| - 1] == |data|
    && (forall k :: 0 < k < |edges| ==> edges[k - 1] < edges[k])
  }

  /** Each entry leads to the next. */
  ghost predicate Edges(data: seq<byte>, edges: seq<nat>) {
    Ascending(data, edges) && forall k :: 0 < k < |edges| ==> LeadsTo(data, edges[k - 1], edges[k])
  }

  /** Those that begin at or before a target inside the stream do. */
  ghost predicate EdgesTo(data: seq<byte>, edges: seq<nat>, target: nat) {
    && Ascending(data, edges)
    && forall k :: 0 < k < |edges| && edges[k - 1] <= target < |data| ==> LeadsTo(data, edges[k - 1], edges[k])
  }

  const OFFSETS: nat := 0x1_0000_0000

  lemma {:induction false} NextRead(qid: Value, next: nat, tail: seq<byte>, s: seq<byte>, n: nat)
    requires qid.Qid? && s == EncodeItem(Q, qid) + EncodeItem(D, Num(next)) + tail
    ensures LeadsTo(s, 0, n) <==> n == next % OFFSETS
  {
    var rest := EncodeItem(D, Num(next)) + tail;
    assert s == EncodeItem(Q, qid) + rest && s[0..] == s;
    QidItem(qid, rest);
    assert rest == Word(next) + ([0, 0, 0, 0] + tail);
    WordRoundTrip(next, [0, 0, 0, 0] + tail);
    TwoItems(s, rest);
  }

  lemma {:induction false} TwoItems(s: seq<byte>, rest: seq<byte>)
    requires |s| >= 21 && rest == s[13..]
    ensures Holds([Q, D], s) && Decode([Q, D], s) == DecodeItem(Q, s) + DecodeItem(D, rest)
  {
    var types, last := [Q, D], [D];
    assert types[1..] == last && last[1..] == [];
    assert Holds([], rest[8..]) && Holds(last, rest);
    assert Decode(last, rest) == DecodeItem(D, rest) + Decode([], rest[8..]);
  }

  lemma {:induction false} EntryLeads(e: Entry, next: nat, more: seq<byte>, n: nat)
    ensures LeadsTo(EntryBytes(e, next) + more, 0, n) <==> n == next % OFFSETS
  {
    EntryParts(e, next);
    var qid, tail := Qid(e.kind, e.version, e.path), [e.mode / 0x1000 % 0x100] + (Half(|e.name|) + e.name);
    var s := EntryBytes(e, next) + more;
    assert s == EncodeItem(Q, qid) + EncodeItem(D, Num(next)) + (tail + more);
    NextRead(qid, next, tail + more, s, n);
  }

  lemma {:induction false} LeadsFrom(data: seq<byte>, offset: nat, n: nat)
    requires offset <= |data|
    ensures LeadsTo(data[offset..], 0, n) <==> LeadsTo(data, offset, n)
  {
    assert data[offset..][0..] == data[offset..];
  }

  /** The offset that is read from entry k is where the next one begins, cut to 32 bits. */
  lemma {:induction false} DirectoryLeads(entries: seq<Entry>, parts: seq<seq<byte>>, k: nat, n: nat)
    requires SameSizes(parts, entries) && |parts| == |entries| && k < |entries| && PartIs(parts, entries, k)
    ensures LeadsTo(Stream(parts, 0, |parts|), Boundary(entries, k), n) <==> n == Boundary(entries, k + 1) % OFFSETS
  {
    EntryLeads(entries[k], Boundary(entries, k + 1), Stream(parts, k + 1, |parts|), n);
    EdgeIsBoundary(entries, parts, k);
    SuffixLeads(parts, k, n);
  }

  lemma {:induction false} SuffixLeads(parts: seq<seq<byte>>, k: nat, n: nat)
    requires k < |parts|
    ensures LeadsTo(parts[k] + Stream(parts, k + 1, |parts|), 0, n) <==> LeadsTo(Stream(parts, 0, |parts|), Edge(parts, k), n)
  {
    StreamSuffix(parts, k);
    LeadsFrom(Stream(parts, 0, |parts|), Edge(parts, k), n);
  }

  lemma {:induction false} StreamSuffix(parts: seq<seq<byte>>, k: nat)
    requires k < |parts|
    ensures Edge(parts, k) <= |Stream(parts, 0, |parts|)|
    ensures Stream(parts, 0, |parts|)[Edge(parts, k)..] == parts[k] + Stream(parts, k + 1, |parts|)
  {
    var data := Stream(parts, 0, |parts|);
    StreamSlice(parts, k, |parts|);
    StreamSplit(parts, k, k + 1, |parts|);
    FirstPart(parts, k);
    assert data[Edge(parts, k)..] == data[Edge(parts, k)..Edge(parts, |parts|)];
  }

  lemma {:induction false} FirstPart(parts: seq<seq<byte>>, k: nat)
    requires k < |parts|
    ensures Stream(parts, k, k + 1) == parts[k]
  {
    assert Stream(parts, k, k) + parts[k] == parts[k];
  }

  function Boundaries(entries: seq<Entry>, n: nat): (edges: seq<nat>)
    requires n <= |entries|
    ensures |edges| == n + 1 && forall k :: 0 <= k <= n ==> edges[k] == Boundary(entries, k)
  {
    if n == 0 then [0] else Boundaries(entries, n - 1) + [Boundary(entries, n)]
  }

  /** The offsets in a stream lead from entry to entry exactly if all of them fit 32 bits. */
  lemma {:induction false} DirectoryEdges(entries: seq<Entry>, parts: seq<seq<byte>>)
    requires Describes(parts, entries) && |parts| == |entries|
    ensures Edges(Stream(parts, 0, |parts|), Boundaries(entries, |entries|)) <==> Boundary(entries, |entries|) < OFFSETS
  {
    if Boundary(entries, |entries|) < OFFSETS {
      ShortDirectory(entries, parts);
    } else {
      var n := |entries|;
      assert PartIs(parts, entries, n - 1);
      DirectoryLeads(entries, parts, n - 1, Boundary(entries, n));
      assert Boundaries(entries, n)[n] == Boundary(entries, n) && Boundaries(entries, n)[n - 1] == Boundary(entries, n - 1);
    }
  }

  lemma {:induction false} ShortDirectory(entries: seq<Entry>, parts: seq<seq<byte>>)
    requires Describes(parts, entries) && |parts| == |entries| && Boundary(entries, |entries|) < OFFSETS
    ensures Edges(Stream(parts, 0, |parts|), Boundaries(entries, |entries|))
  {
    BoundariesAscend(entries, parts);
    forall k | 0 <= k < |entries|
      ensures LeadsTo(Stream(parts, 0, |parts|), Boundary(entries, k), Boundary(entries, k + 1))
    {
      BoundaryGrows(entries, k + 1, |entries|);
      EntryReads(entries, parts, k);
    }
  }

  lemma {:induction false} BoundariesAscend(entries: seq<Entry>, parts: seq<seq<byte>>)
    requires SameSizes(parts, entries) && |parts| == |entries|
    ensures Ascending(Stream(parts, 0, |parts|), Boundaries(entries, |entries|))
  {
    EdgeIsBoundary(entries, parts, |entries|);
    forall k | 0 < k < |entries| + 1
      ensures Boundary(entries, k - 1) < Boundary(entries, k)
    {
      BoundaryGrows(entries, k - 1, k);
    }
  }

  lemma {:induction false} EntryReads(entries: seq<Entry>, parts: seq<seq<byte>>, k: nat)
    requires Describes(parts, entries) && |parts| == |entries| && k < |entries| && Boundary(entries, k + 1) < OFFSETS
    ensures LeadsTo(Stream(parts, 0, |parts|), Boundary(entries, k), Boundary(entries, k + 1))
  {
    assert PartIs(parts, entries, k);
    DirectoryLeads(entries, parts, k, Boundary(entries, k + 1));
  }

  /** The target is at or after the end, or every entry that begins at or before it ends below 2^32. */
  predicate Below(entries: seq<Entry>, target: nat) {
    forall k :: 0 <= k < |entries| && Boundary(entries, k) <= target < Boundary(entries, |entries|) ==>
      Boundary(entries, k + 1) < OFFSETS
  }

  lemma {:induction false} BelowEdges(entries: seq<Entry>, parts: seq<seq<byte>>, target: nat)
    requires Describes(parts, entries) && |parts| == |entries| && Below(entries, target)
    ensures EdgesTo(Stream(parts, 0, |parts|), Boundaries(entries, |entries|), target)
  {
    BoundariesAscend(entries, parts);
    EdgeIsBoundary(entries, parts, |entries|);
    forall k | 0 <= k < |entries| && Boundary(entries, k) <= target < Boundary(entries, |entries|)
      ensures LeadsTo(Stream(parts, 0, |parts|), Boundary(entries, k), Boundary(entries, k + 1))
    {
      EntryReads(entries, parts, k);
    }
  }

  /** Between two boundaries there is a whole number of entries. */
  lemma {:induction false} WholeEntries(entries: seq<Entry>, parts: seq<seq<byte>>, j: nat, k: nat)
    requires SameSizes(parts, entries) && |parts| == |entries| && j <= k <= |entries|
    ensures Boundary(entries, j) <= Boundary(entries, k) <= |Stream(parts, 0, |parts|)|
    ensures Stream(parts, 0, |parts|)[Boundary(entries, j)..Boundary(entries, k)] == Stream(parts, j, k)
  {
    EdgeIsBoundary(entries, parts, j);
    EdgeIsBoundary(entries, parts, k);
    StreamSlice(parts, j, k);
  }

  method NextEntry(data: seq<byte>, offset: nat, ghost next: nat) returns (r: nat)
    requires LeadsTo(data, offset, next)
    ensures r == next
  {
    var state := new State(offset);
    var values := Unmarshall([Q, D], data, state);
    r := values[1].n;
  }

  /** The greatest boundary that is not above the target is number k. */
  ghost predicate Rounds(edges: seq<nat>, target: nat, r: nat, k: nat) {
    k < |edges| && r == edges[k] <= target && (k + 1 < |edges| ==> target < edges[k + 1])
  }

  /** RoundToDirentry: found by going from entry to entry. */
  method RoundToDirentry(data: seq<byte>, target: nat, ghost edges: seq<nat>) returns (offset: nat, ghost k: nat)
    requires EdgesTo(data, edges, target)
    ensures offset in edges && offset <= target && forall e :: e in edges && e <= target ==> e <= offset
    ensures Rounds(edges, target, offset, k)
  {
    if target >= |data| {
      offset, k := |data|, |edges| - 1;
      GreatestEdge(data, edges, target, k);
      return;
    }
    offset, k := 0, 0;
    while true
      invariant k + 1 < |edges| && offset == edges[k] <= target
      decreases |edges| - k
    {
      var next := NextEntry(data, offset, edges[k + 1]);
      if next > target {
        break;
      }
      offset, k := next, k + 1;
    }
    GreatestEdge(data, edges, target, k);
  }

  lemma {:induction false} GreatestEdge(data: seq<byte>, edges: seq<nat>, target: nat, k: nat)
    requires Ascending(data, edges) && k < |edges| && (k + 1 < |edges| ==> target < edges[k + 1])
    ensures forall e :: e in edges && e <= target ==> e <= edges[k]
  {
    forall e | e in edges && e <= target
      ensures e <= edges[k]
    {
      var j :| 0 <= j < |edges| && edges[j] == e;
      LaterEdge(data, edges, j, k, target);
      EdgesGrow(data, edges, j, k);
    }
  }

  lemma {:induction false} EdgesGrow(data: seq<byte>, edges: seq<nat>, j: nat, k: nat)
    requires Ascending(data, edges) && j <= k < |edges|
    ensures edges[j] + (k - j) <= edges[k]
    decreases k
  {
    if j < k {
      EdgesGrow(data, edges, j, k - 1);
    }
  }

  lemma {:induction false} LaterEdge(data: seq<byte>, edges: seq<nat>, j: nat, k: nat, target: nat)
    requires Ascending(data, edges) && j < |edges| && k < |edges| && edges[j] <= target && (k + 1 < |edges| ==> target < edges[k + 1])
    ensures j <= k
  {
    if k < j {
      EdgesGrow(data, edges, k + 1, j);
    }
  }

  /** The readdir request from boundary j: up to the last boundary that was asked for and fits the reply. */
  method ReaddirRequest(data: seq<byte>, offset: nat, requested: nat, room: nat, ghost edges: seq<nat>, ghost j: nat)
    returns (count: nat, part: seq<byte>, ghost k: nat)
    requires EdgesTo(data, edges, offset + Min(requested, room)) && j < |edges| && offset == edges[j]
    ensures j <= k < |edges| && edges[j] <= edges[k] <= |data| && part == data[edges[j]..edges[k]]
    ensures count == |part| <= Min(requested, room) && (k + 1 < |edges| ==> edges[k + 1] - offset > Min(requested, room))
  {
    var size := |data|;
    var n: int := Min(requested, room);
    EdgesGrow(data, edges, j, |edges| - 1);
    if size < offset + n {
      n := size - offset;
      k := |edges| - 1;
    } else {
      var end: nat;
      end, k := RoundToDirentry(data, offset + n, edges);
      LaterEdge(data, edges, j, k, offset + n);
      n := end - offset;
    }
    if offset > size {
      n := 0;
    }
    EdgesGrow(data, edges, j, k);
    EdgesGrow(data, edges, k, |edges| - 1);
    part := data[offset..offset + n];
    count := n;
  }

  /** A readdir that begins at a boundary returns whole entries. */
  method ReadWholeEntries(ghost entries: seq<Entry>, ghost parts: seq<seq<byte>>, data: seq<byte>,
                          offset: nat, requested: nat, room: nat, ghost j: nat)
    returns (count: nat, part: seq<byte>, ghost k: nat)
    requires Describes(parts, entries) && |parts| == |entries| && data == Stream(parts, 0, |parts|)
    requires j <= |entries| && offset == Boundary(entries, j) && Below(entries, offset + Min(requested, room))
    ensures j <= k <= |entries| && part == Stream(parts, j, k) && count == |part| <= Min(requested, room)
    ensures k < |entries| ==> Boundary(entries, k + 1) - offset > Min(requested, room)
  {
    BelowEdges(entries, parts, offset + Min(requested, room));
    count, part, k := ReaddirRequest(data, offset, requested, room, Boundaries(entries, |entries|), j);
    WholeEntries(entries, parts, j, k);
  }
}
