/**
 POSIX-style byte-range locks of an inode (lib/filesystem.js): the list of lock regions is
 split, shrunk and merged in place.  A list means the set of its cells (owner, kind, byte).
 */
module Locks {
  import opened Options

  /** The JavaScript numbers a region length can meet: integers, Infinity, -Infinity and NaN. */
  datatype Num = Fin(n: int) | Inf | NegInf | NaN {
    predicate Positive() {
      Inf? || (Fin? && n > 0)
    }
  }

  /** x + y with x a position. */
  function Plus(x: int, y: Num): Num {
    if y.Fin? then Fin(x + y.n) else y
  }

  /** x - y, where Infinity - Infinity is NaN. */
  function Minus(x: Num, y: Num): Num {
    match (x, y)
    case (Fin(a), Fin(b)) => Fin(a - b)
    case (Inf, Fin(_)) => Inf
    case (Fin(_), Inf) => NegInf
    case (_, _) => NaN
  }

  predicate AtMost(x: Num, y: int) {
    x.NegInf? || (x.Fin? && x.n <= y)
  }

  datatype Kind = Shared | Exclusive | Unlock

  datatype Owner = Owner(procId: int, clientId: string)

  datatype Region = Region(kind: Kind, start: nat, length: Num, owner: Owner) {
    function End(): Num {
      Plus(start, length)
    }

    predicate HasByte(b: nat) {
      start <= b && !AtMost(End(), b)
    }

    predicate ConflictsWith(other: Region) {
      && owner != other.owner
      && kind != Unlock && other.kind != Unlock
      && (kind == Exclusive || other.kind == Exclusive)
      && !AtMost(End(), other.start)
      && !AtMost(other.End(), start)
    }

    predicate IsAlike(other: Region) {
      other.owner == owner && other.kind == kind
    }

    predicate MayMergeAfter(other: Region) {
      IsAlike(other) && other.End() == Fin(start)
    }

    /** A copy made through get_state/set_state, which turns length 0 into Infinity. */
    function Clone(): (r: Region)
      ensures length.Positive() ==> r == this
      ensures length == Fin(0) ==> r.length.Inf? && r.kind == kind && r.start == start && r.owner == owner
    {
      this.(length := if length == Fin(0) then Inf else length)
    }
  }

  /** A region that may be in a list: positive length, not an unlock. */
  predicate WellFormed(r: Region) {
    r.length.Positive() && r.kind != Unlock
  }

  predicate AllWellFormed(s: seq<Region>) {
    forall i :: 0 <= i < |s| ==> WellFormed(s[i])
  }

  /** What a caller may ask for: a non-negative length or Infinity. */
  predicate IsRequest(r: Region) {
    r.length.Inf? || (r.length.Fin? && r.length.n >= 0)
  }

  // ---------------------------------------------------------------------------
  // Meaning: the cells a list covers

  datatype Cell = Cell(owner: Owner, kind: Kind, byte: nat)

  predicate RegionHolds(r: Region, c: Cell) {
    r.owner == c.owner && r.kind == c.kind && r.HasByte(c.byte)
  }

  predicate Holds(s: seq<Region>, c: Cell) {
    exists i :: 0 <= i < |s| && RegionHolds(s[i], c)
  }

  ghost function Cells(s: seq<Region>): iset<Cell> {
    iset c: Cell | Holds(s, c)
  }

  /** All cells of the requester in the requested range, of every kind. */
  ghost function Zone(r: Region): iset<Cell> {
    iset c: Cell | c.owner == r.owner && r.HasByte(c.byte)
  }

  /** The cells a request asks for: none for an unlock. */
  ghost function Claim(r: Region): iset<Cell> {
    iset c: Cell | r.kind != Unlock && RegionHolds(r, c)
  }

  /** The specification of a granted request. */
  ghost function Granted(cells: iset<Cell>, r: Region): iset<Cell> {
    (cells - Zone(r)) + Claim(r)
  }

  /** The bytes that a caller asks for: from the start on, and all of them if the length is 0 or infinite. */
  predicate Asks(r: Region, b: nat) {
    r.start <= b && (r.length.Inf? || (r.length.Fin? && (r.length.n == 0 || b < r.start + r.length.n)))
  }

  /** What the caller has locked in the range, and what the call is to leave there. */
  ghost function AskedZone(asked: Region): iset<Cell> {
    iset c: Cell | c.owner == asked.owner && Asks(asked, c.byte)
  }

  ghost function AskedClaim(asked: Region): iset<Cell> {
    iset c: Cell | c.owner == asked.owner && c.kind == asked.kind && asked.kind != Unlock && Asks(asked, c.byte)
  }

  /** The locks after a request that is granted as it was asked. */
  ghost function GrantedAs(cells: iset<Cell>, asked: Region): iset<Cell> {
    (cells - AskedZone(asked)) + AskedClaim(asked)
  }

  /** A list holds just the bytes of its regions. */
  lemma {:induction false} CellMeans(s: seq<Region>, c: Cell)
    requires AllWellFormed(s)
    ensures c in Cells(s) <==> exists i :: 0 <= i < |s| && s[i].owner == c.owner && s[i].kind == c.kind && Asks(s[i], c.byte)
  {
    if c in Cells(s) {
      var i :| 0 <= i < |s| && RegionHolds(s[i], c);
      assert Asks(s[i], c.byte);
    }
    if i :| 0 <= i < |s| && s[i].owner == c.owner && s[i].kind == c.kind && Asks(s[i], c.byte) {
      assert RegionHolds(s[i], c);
    }
  }

  /** The copy that a call works on asks for the same bytes. */
  lemma {:induction false} CloneMeans(asked: Region)
    requires IsRequest(asked)
    ensures asked.Clone().length.Positive()
    ensures Zone(asked.Clone()) == AskedZone(asked) && Claim(asked.Clone()) == AskedClaim(asked)
  {
  }

  ghost predicate Compatible(c: Cell, d: Cell) {
    c.owner == d.owner || c.byte != d.byte || (c.kind == Shared && d.kind == Shared)
  }

  /** No two owners share a byte of which one holds it exclusively. */
  ghost predicate Safe(cells: iset<Cell>) {
    forall c, d :: c in cells && d in cells ==> Compatible(c, d)
  }

  /** Safe is that no two regions of the list conflict. */
  lemma {:induction false} SafeMeaning(s: seq<Region>)
    requires AllWellFormed(s)
    ensures Safe(Cells(s)) <==> forall i, j :: 0 <= i < |s| && 0 <= j < |s| ==> !s[i].ConflictsWith(s[j])
  {
    if forall i, j :: 0 <= i < |s| && 0 <= j < |s| ==> !s[i].ConflictsWith(s[j]) {
      forall c, d | c in Cells(s) && d in Cells(s)
        ensures Compatible(c, d)
      {
        var i :| 0 <= i < |s| && RegionHolds(s[i], c);
        var j :| 0 <= j < |s| && RegionHolds(s[j], d);
        assert !s[i].ConflictsWith(s[j]);
      }
    } else {
      var i, j :| 0 <= i < |s| && 0 <= j < |s| && s[i].ConflictsWith(s[j]);
      var b := if s[i].start < s[j].start then s[j].start else s[i].start;
      var c, d := Cell(s[i].owner, s[i].kind, b), Cell(s[j].owner, s[j].kind, b);
      assert RegionHolds(s[i], c) && RegionHolds(s[j], d);
      assert c in Cells(s) && d in Cells(s) && !Compatible(c, d);
    }
  }

  lemma {:induction false} CellsConcat(a: seq<Region>, b: seq<Region>)
    ensures Cells(a + b) == Cells(a) + Cells(b)
  {
    forall c: Cell
      ensures Holds(a + b, c) <==> Holds(a, c) || Holds(b, c)
    {
      if Holds(a, c) {
        var i :| 0 <= i < |a| && RegionHolds(a[i], c);
        assert (a + b)[i] == a[i];
      }
      if Holds(b, c) {
        var i :| 0 <= i < |b| && RegionHolds(b[i], c);
        assert (a + b)[|a| + i] == b[i];
      }
    }
  }

  lemma {:induction false} CellsSingle(r: Region, c: Cell)
    ensures c in Cells([r]) <==> RegionHolds(r, c)
  {
    if RegionHolds(r, c) {
      assert [r][0] == r;
    }
  }

  // ---------------------------------------------------------------------------
  // Shapes of lists

  /** Regions of one owner do not overlap. */
  predicate OwnersDisjoint(s: seq<Region>) {
    forall i, j :: 0 <= i < j < |s| && s[i].owner == s[j].owner ==>
                     AtMost(s[i].End(), s[j].start) || AtMost(s[j].End(), s[i].start)
  }

  predicate Sorted(s: seq<Region>) {
    forall i, j :: 0 <= i < j < |s| ==> s[i].start <= s[j].start
  }

  /** Region r overlaps the request and is of the requester. */
  predicate Meets(r: Region, request: Region) {
    r.owner == request.owner && !AtMost(r.End(), request.start) && !AtMost(request.End(), r.start)
  }

  /** Region j comes after a region that starts at or past the end of the request. */
  predicate Hidden(s: seq<Region>, request: Region, j: nat)
    requires j < |s|
  {
    exists i :: 0 <= i < j && AtMost(request.End(), s[i].start)
  }

  /** The scan reaches every region of the requester that it has to change. */
  predicate Reached(s: seq<Region>, request: Region) {
    forall j :: 0 <= j < |s| && Meets(s[j], request) && Hidden(s, request, j) ==> s[j].kind == request.kind
  }

  /** Regions of all owners follow each other without overlap. */
  predicate Ordered(s: seq<Region>) {
    forall i, j :: 0 <= i < j < |s| ==> AtMost(s[i].End(), s[j].start)
  }

  /** No two regions could be merged into one. */
  predicate Merged(s: seq<Region>) {
    forall i, j :: 0 <= i < j < |s| ==> !s[j].MayMergeAfter(s[i])
  }

  /** The list is sorted, disjoint and maximally merged. */
  predicate Neat(s: seq<Region>) {
    Ordered(s) && Merged(s)
  }

  /** No region of another owner overlaps the range. */
  predicate NoForeign(s: seq<Region>, request: Region) {
    forall i :: 0 <= i < |s| && s[i].owner != request.owner ==>
                  AtMost(s[i].End(), request.start) || AtMost(request.End(), s[i].start)
  }

  // ---------------------------------------------------------------------------
  // Subtracting the requested range

  /** d is p without some cells of z, and without all of them when clean. */
  ghost predicate Trimmed(d: iset<Cell>, p: iset<Cell>, z: iset<Cell>, clean: bool) {
    forall c: Cell :: (c in d ==> c in p && (clean ==> c !in z)) && (c in p && c !in z ==> c in d)
  }

  /** What is left of a region of the requester that overlaps the request: up to two pieces. */
  function Pieces(r: Region, request: Region): seq<Region> {
    var left := request.start - r.start;
    var right := Minus(r.End(), request.End());
    (if left > 0 then [r.(length := Fin(left))] else []) +
    (if right.Positive() && request.End().Fin? && request.End().n >= 0 then [r.(start := request.End().n, length := right)] else [])
  }

  lemma {:induction false} PiecesCells(r: Region, request: Region)
    requires WellFormed(r) && request.length.Positive() && Meets(r, request)
    ensures Cells(Pieces(r, request)) == Cells([r]) - Zone(request)
    ensures AllWellFormed(Pieces(r, request))
  {
    var p := Pieces(r, request);
    forall c: Cell
      ensures c in Cells(p) <==> c in Cells([r]) && c !in Zone(request)
    {
      CellsSingle(r, c);
      if c in Cells([r]) && c !in Zone(request) {
        assert c.byte < request.start || AtMost(request.End(), c.byte);
        if c.byte < request.start {
          assert RegionHolds(p[0], c);
        } else {
          assert RegionHolds(p[|p| - 1], c);
        }
      }
    }
  }

  lemma {:induction false} ApartFromZone(r: Region, request: Region)
    requires WellFormed(r) && request.length.Positive()
    ensures Meets(r, request) <==> !(Cells([r]) !! Zone(request))
  {
    if Meets(r, request) {
      var c := Cell(r.owner, r.kind, if r.start <= request.start then request.start else r.start);
      CellsSingle(r, c);
      assert c in Zone(request);
    } else {
      forall c | c in Cells([r])
        ensures c !in Zone(request)
      {
        CellsSingle(r, c);
      }
    }
  }

  lemma {:induction false} TrimConcat(d1: seq<Region>, p1: seq<Region>, d2: seq<Region>, p2: seq<Region>, z: iset<Cell>, clean: bool)
    requires Trimmed(Cells(d1), Cells(p1), z, clean)
    requires Trimmed(Cells(d2), Cells(p2), z, clean)
    ensures Trimmed(Cells(d1 + d2), Cells(p1 + p2), z, clean)
  {
    CellsConcat(d1, d2);
    CellsConcat(p1, p2);
  }

  lemma {:induction false} ApartList(s: seq<Region>, request: Region)
    requires AllWellFormed(s) && request.length.Positive()
    requires forall i :: 0 <= i < |s| ==> !Meets(s[i], request)
    ensures Cells(s) !! Zone(request)
  {
    forall c | c in Cells(s)
      ensures c !in Zone(request)
    {
      var i :| 0 <= i < |s| && RegionHolds(s[i], c);
      ApartFromZone(s[i], request);
      CellsSingle(s[i], c);
    }
  }

  /** Splitting r around the request with the regions s kept between the two halves. */
  lemma {:induction false} SplitTrim(r: Region, s: seq<Region>, request: Region, clean: bool)
    requires WellFormed(r) && AllWellFormed(s) && request.length.Positive() && Meets(r, request)
    requires |Pieces(r, request)| == 2
    requires clean ==> forall i :: 0 <= i < |s| ==> !Meets(s[i], request)
    ensures var p := Pieces(r, request);
            Trimmed(Cells([p[0]] + s + [p[1]]), Cells([r] + s), Zone(request), clean)
  {
    var p := Pieces(r, request);
    PiecesCells(r, request);
    CellsConcat([p[0]], s);
    CellsConcat([p[0]] + s, [p[1]]);
    CellsConcat([p[0]], [p[1]]);
    assert [p[0]] + [p[1]] == p;
    CellsConcat([r], s);
    if clean {
      ApartList(s, request);
    }
  }

  /** The requester's cells in the range that the scan does not reach. */
  ghost function HiddenCells(s: seq<Region>, request: Region): iset<Cell> {
    iset c: Cell | c in Zone(request) && exists j :: 0 <= j < |s| && RegionHolds(s[j], c) && Hidden(s, request, j)
  }

  /** The scan stops at the first region past the range; what follows it is hidden. */
  lemma {:induction false} StopHides(s: seq<Region>, k: nat, request: Region)
    requires AllWellFormed(s) && request.length.Positive() && k <= |s|
    requires forall j :: 0 <= j < k ==> !AtMost(request.End(), s[j].start)
    requires k < |s| ==> AtMost(request.End(), s[k].start)
    ensures Cells(s[k..]) * Zone(request) == HiddenCells(s, request)
  {
    forall c: Cell
      ensures c in Cells(s[k..]) * Zone(request) <==> c in HiddenCells(s, request)
    {
      if c in Cells(s[k..]) * Zone(request) {
        var i :| 0 <= i < |s[k..]| && RegionHolds(s[k..][i], c);
        assert RegionHolds(s[k + i], c);
        assert Hidden(s, request, k + i);
      }
      if c in HiddenCells(s, request) {
        var j :| 0 <= j < |s| && RegionHolds(s[j], c) && Hidden(s, request, j);
        assert s[k..][j - k] == s[j];
      }
    }
  }

  lemma {:induction false} ContainsClaim(s: seq<Region>, i: nat, request: Region)
    requires i < |s| && s[i].owner == request.owner && s[i].kind == request.kind
    requires s[i].start <= request.start && Minus(s[i].End(), request.End()).Positive()
    ensures Claim(request) <= Cells(s)
  {
    forall c | c in Claim(request)
      ensures c in Cells(s)
    {
      assert RegionHolds(s[i], c);
    }
  }

  /** The scan of orig stands at k, where the list is now cur and the index i. */
  ghost predicate Scanned(cur: seq<Region>, i: int, orig: seq<Region>, k: nat, request: Region) {
    && 0 <= i <= |cur| && k <= |orig| && AllWellFormed(cur) && AllWellFormed(orig) && request.length.Positive()
    && cur[i..] == orig[k..]
    && Trimmed(Cells(cur[..i]), Cells(orig[..k]), Zone(request), OwnersDisjoint(orig))
    && forall j :: 0 <= j < k ==> !AtMost(request.End(), orig[j].start)
  }

  lemma {:induction false} ScanStart(s: seq<Region>, request: Region)
    requires AllWellFormed(s) && request.length.Positive()
    ensures Scanned(s, 0, s, 0, request)
  {
    assert s[..0] == [];
  }

  lemma {:induction false} ScanSkip(cur: seq<Region>, i: nat, orig: seq<Region>, k: nat, request: Region)
    requires Scanned(cur, i, orig, k, request) && i < |cur|
    requires !Meets(cur[i], request) && !AtMost(request.End(), cur[i].start)
    ensures Scanned(cur, i + 1, orig, k + 1, request)
  {
    var r := cur[i];
    assert r == orig[k];
    assert cur[..i + 1] == cur[..i] + [r] && orig[..k + 1] == orig[..k] + [r];
    ApartFromZone(r, request);
    TrimConcat(cur[..i], orig[..k], [r], [r], Zone(request), OwnersDisjoint(orig));
  }

  lemma {:induction false} ScanReplace(cur: seq<Region>, i: nat, orig: seq<Region>, k: nat, request: Region)
    requires Scanned(cur, i, orig, k, request) && i < |cur| && Meets(cur[i], request)
    ensures var p := Pieces(cur[i], request);
            Scanned(cur[..i] + p + cur[i + 1..], i + |p|, orig, k + 1, request)
  {
    var r := cur[i];
    var p := Pieces(r, request);
    var next := cur[..i] + p + cur[i + 1..];
    assert r == orig[k];
    PiecesCells(r, request);
    assert next[..i + |p|] == cur[..i] + p && orig[..k + 1] == orig[..k] + [r];
    assert next[i + |p|..] == cur[i + 1..] == cur[i..][1..] == orig[k..][1..] == orig[k + 1..];
    TrimConcat(cur[..i], orig[..k], p, [r], Zone(request), OwnersDisjoint(orig));
  }

  lemma {:induction false} ScanSplit(cur: seq<Region>, i: nat, orig: seq<Region>, k: nat, request: Region, at: nat)
    requires Scanned(cur, i, orig, k, request) && i < at <= |cur| && Meets(cur[i], request)
    requires |Pieces(cur[i], request)| == 2
    requires forall j :: i <= j < at ==> !AtMost(request.End(), cur[j].start)
    ensures var p := Pieces(cur[i], request);
            Scanned(cur[..i] + [p[0]] + cur[i + 1..at] + [p[1]] + cur[at..], at + 1, orig, k + (at - i), request)
  {
    var r, p, skipped, k' := cur[i], Pieces(cur[i], request), cur[i + 1..at], k + (at - i);
    PiecesCells(r, request);
    SplitSeqs(cur, i, orig, k, at, p[0], p[1]);
    SkippedApart(orig, k, skipped, request);
    SplitTrim(r, skipped, request, OwnersDisjoint(orig));
    TrimConcat(cur[..i], orig[..k], [p[0]] + skipped + [p[1]], [r] + skipped, Zone(request), OwnersDisjoint(orig));
  }

  lemma {:induction false} SplitSeqs(cur: seq<Region>, i: nat, orig: seq<Region>, k: nat, at: nat, a: Region, b: Region)
    requires i < at <= |cur| && k <= |orig| && cur[i..] == orig[k..]
    ensures var skipped, k' := cur[i + 1..at], k + (at - i);
            var next := cur[..i] + [a] + skipped + [b] + cur[at..];
            && k' <= |orig| && next[at + 1..] == orig[k'..] && next[..at + 1] == cur[..i] + ([a] + skipped + [b])
            && orig[k] == cur[i] && orig[..k'] == orig[..k] + ([cur[i]] + skipped) && skipped == orig[k + 1..k']
            && forall j :: k <= j < k' ==> orig[j] == cur[i + (j - k)]
  {
    SameTails(cur, i, orig, k, 1);
    SameTails(cur, i + 1, orig, k + 1, at - i - 1);
    assert cur[i] == cur[i..i + 1][0] == orig[k..k + 1][0] == orig[k];
    var skipped, k' := cur[i + 1..at], k + (at - i);
    assert orig[..k'] == orig[..k] + ([orig[k]] + orig[k + 1..k']);
    var next := cur[..i] + [a] + skipped + [b] + cur[at..];
    assert next[..at + 1] == cur[..i] + ([a] + skipped + [b]);
    forall j | k <= j < k'
      ensures orig[j] == cur[i + (j - k)]
    {
      assert orig[k..][j - k] == cur[i..][j - k];
    }
  }

  /** Behind a region around the range, an owner with disjoint regions has none in the range. */
  lemma {:induction false} SkippedApart(orig: seq<Region>, k: nat, skipped: seq<Region>, request: Region)
    requires k + 1 + |skipped| <= |orig| && skipped == orig[k + 1..k + 1 + |skipped|]
    requires request.length.Positive() && Meets(orig[k], request) && |Pieces(orig[k], request)| == 2
    ensures OwnersDisjoint(orig) ==> forall j :: 0 <= j < |skipped| ==> !Meets(skipped[j], request)
  {
    if OwnersDisjoint(orig) {
      forall j | 0 <= j < |skipped|
        ensures !Meets(skipped[j], request)
      {
        assert skipped[j] == orig[k + 1 + j];
      }
    }
  }

  /** The first region from i on that starts at or past the limit. */
  function FirstFrom(s: seq<Region>, i: nat, limit: int): (at: nat)
    requires i <= |s|
    ensures i <= at <= |s|
    ensures forall j :: i <= j < at ==> s[j].start < limit
    ensures at < |s| ==> limit <= s[at].start
    decreases |s| - i
  {
    if i < |s| && s[i].start < limit then FirstFrom(s, i + 1, limit) else i
  }

  /** The list and the next index once the region at i has lost the range. */
  function CutAt(s: seq<Region>, i: nat, request: Region): (r: (seq<Region>, nat))
    requires i < |s| && request.length.Positive()
    ensures r.1 <= |r.0| && |r.0| - r.1 < |s| - i
  {
    var p := Pieces(s[i], request);
    if |p| == 2 then
      var half := s[i := p[0]];
      var at := FirstFrom(half, i, p[1].start);
      (half[..at] + [p[1]] + half[at..], at + 1)
    else
      (s[..i] + p + s[i + 1..], i + |p|)
  }

  lemma {:induction false} HalfShape(cur: seq<Region>, i: nat, a: Region, b: Region, at: nat)
    requires i < at <= |cur|
    ensures var half := cur[i := a];
            half[..at] + [b] + half[at..] == cur[..i] + [a] + cur[i + 1..at] + [b] + cur[at..]
  {
  }

  /** A region cut in two. */
  lemma {:induction false} ScanCutTwo(cur: seq<Region>, i: nat, orig: seq<Region>, k: nat, request: Region) returns (k': nat)
    requires Scanned(cur, i, orig, k, request) && i < |cur| && Meets(cur[i], request) && |Pieces(cur[i], request)| == 2
    ensures k < k' && Scanned(CutAt(cur, i, request).0, CutAt(cur, i, request).1, orig, k', request)
  {
    var p := Pieces(cur[i], request);
    var half := cur[i := p[0]];
    var at := FirstFrom(half, i, p[1].start);
    forall j | i <= j < at
      ensures !AtMost(request.End(), cur[j].start)
    {
      assert half[j].start < p[1].start;
    }
    ScanSplit(cur, i, orig, k, request, at);
    HalfShape(cur, i, p[0], p[1], at);
    k' := k + (at - i);
  }

  lemma {:induction false} ScanCut(cur: seq<Region>, i: nat, orig: seq<Region>, k: nat, request: Region) returns (k': nat)
    requires Scanned(cur, i, orig, k, request) && i < |cur| && Meets(cur[i], request)
    ensures k < k' && Scanned(CutAt(cur, i, request).0, CutAt(cur, i, request).1, orig, k', request)
  {
    if |Pieces(cur[i], request)| == 2 {
      k' := ScanCutTwo(cur, i, orig, k, request);
    } else {
      ScanReplace(cur, i, orig, k, request);
      k' := k + 1;
    }
  }

  /** Region r has the type asked for and reaches beyond the range on both sides. */
  predicate AlreadyLocked(r: Region, request: Region) {
    r.start < request.start && Minus(r.End(), request.End()).Positive() && r.kind == request.kind
  }

  /** The list after the scan from i, and whether the scan returned early. */
  function Scan(s: seq<Region>, i: nat, request: Region): (seq<Region>, bool)
    requires i <= |s| && request.length.Positive()
    decreases |s| - i
  {
    if i == |s| then (s, false)
    else if AtMost(s[i].End(), request.start) then Scan(s, i + 1, request)
    else if AtMost(request.End(), s[i].start) then (s, false)
    else if s[i].owner != request.owner then Scan(s, i + 1, request)
    else if AlreadyLocked(s[i], request) then (s, true)
    else
      var (list, next) := CutAt(s, i, request);
      Scan(list, next, request)
  }

  /** What the scan has achieved where it stops. */
  lemma {:induction false} ScanStop(cur: seq<Region>, i: nat, orig: seq<Region>, k: nat, request: Region)
    requires Scanned(cur, i, orig, k, request)
    ensures Trimmed(Cells(cur), Cells(orig), Zone(request), false)
    ensures OwnersDisjoint(orig) && (k < |orig| ==> AtMost(request.End(), orig[k].start)) ==>
              Cells(cur) * Zone(request) == HiddenCells(orig, request)
  {
    assert cur == cur[..i] + cur[i..] && orig == orig[..k] + orig[k..];
    CellsConcat(cur[..i], cur[i..]);
    CellsConcat(orig[..k], orig[k..]);
    if OwnersDisjoint(orig) && (k < |orig| ==> AtMost(request.End(), orig[k].start)) {
      StopHides(orig, k, request);
    }
  }

  /** The scan from any point on: cells are only lost in the range, and exactly the reached ones. */
  lemma {:induction false} ScanTrims(cur: seq<Region>, i: nat, orig: seq<Region>, k: nat, request: Region)
    requires Scanned(cur, i, orig, k, request)
    ensures var (list, early) := Scan(cur, i, request);
            && AllWellFormed(list)
            && Trimmed(Cells(list), Cells(orig), Zone(request), false)
            && (OwnersDisjoint(orig) && !early ==> Cells(list) * Zone(request) == HiddenCells(orig, request))
    decreases |cur| - i
  {
    if i == |cur| || (!AtMost(cur[i].End(), request.start) && AtMost(request.End(), cur[i].start)) {
      ScanStop(cur, i, orig, k, request);
    } else if AtMost(cur[i].End(), request.start) || cur[i].owner != request.owner {
      ScanSkip(cur, i, orig, k, request);
      ScanTrims(cur, i + 1, orig, k + 1, request);
    } else if AlreadyLocked(cur[i], request) {
      ScanStop(cur, i, orig, k, request);
    } else {
      var (list, next) := CutAt(cur, i, request);
      var k' := ScanCut(cur, i, orig, k, request);
      ScanTrims(list, next, orig, k', request);
    }
  }

  /**
   The regions of a list from k on that the scan leaves as they are though they may meet the request:
   those after the first region past the range or after an early return, and those that the search
   for the place of a second half passes over.
   */
  function Missed(s: seq<Region>, k: nat, request: Region): seq<Region>
    requires k <= |s| && request.length.Positive()
    decreases |s| - k
  {
    if k == |s| then []
    else if AtMost(s[k].End(), request.start) then Missed(s, k + 1, request)
    else if AtMost(request.End(), s[k].start) then s[k..]
    else if s[k].owner != request.owner then Missed(s, k + 1, request)
    else if AlreadyLocked(s[k], request) then s[k..]
    else
      s[k + 1..After(s, k, request)] + Missed(s, After(s, k, request), request)
  }

  lemma {:induction false} FirstFromSame(s: seq<Region>, i: nat, t: seq<Region>, k: nat, limit: int)
    requires i <= |s| && k <= |t| && s[i..] == t[k..]
    ensures FirstFrom(s, i, limit) - i == FirstFrom(t, k, limit) - k
    decreases |s| - i
  {
    if i < |s| {
      assert s[i] == s[i..][0] && t[k] == t[k..][0];
      assert s[i + 1..] == s[i..][1..] && t[k + 1..] == t[k..][1..];
      FirstFromSame(s, i + 1, t, k + 1, limit);
    }
  }

  /** Where the scan of the input goes on after the region at k was cut. */
  function After(s: seq<Region>, k: nat, request: Region): (at: nat)
    requires k < |s|
    ensures k < at <= |s|
  {
    var p := Pieces(s[k], request);
    if |p| == 2 then FirstFrom(s, k + 1, p[1].start) else k + 1
  }

  lemma {:induction false} SameTails(s: seq<Region>, i: nat, t: seq<Region>, k: nat, n: nat)
    requires i + n <= |s| && k <= |t| && s[i..] == t[k..]
    ensures k + n <= |t| && s[i..i + n] == t[k..k + n] && s[i + n..] == t[k + n..]
  {
    assert |s[i..]| == |t[k..]|;
    assert s[i..i + n] == s[i..][..n] && t[k..k + n] == t[k..][..n];
    assert s[i + n..] == s[i..][n..] && t[k + n..] == t[k..][n..];
  }

  /** The list when a region is cut in two, with what is passed over between the halves. */
  lemma {:induction false} SplitShape(cur: seq<Region>, i: nat, orig: seq<Region>, k: nat, request: Region)
    requires request.length.Positive() && i < |cur| && k < |orig| && cur[i] == orig[k] && cur[i + 1..] == orig[k + 1..]
    requires |Pieces(cur[i], request)| == 2 && Pieces(cur[i], request)[0].start < Pieces(cur[i], request)[1].start
    ensures var (list, next) := CutAt(cur, i, request);
            var p, at := Pieces(cur[i], request), After(orig, k, request);
            list[next..] == orig[at..] && list[..next] == cur[..i] + [p[0]] + orig[k + 1..at] + [p[1]]
  {
    var p := Pieces(cur[i], request);
    var half := cur[i := p[0]];
    assert half[i + 1..] == orig[k + 1..];
    FirstFromSame(half, i + 1, orig, k + 1, p[1].start);
    var to := FirstFrom(half, i, p[1].start);
    SameTails(half, i + 1, orig, k + 1, to - i - 1);
    HalvesShape(cur, i, p[0], p[1], to);
  }

  lemma {:induction false} HalvesShape(cur: seq<Region>, i: nat, a: Region, b: Region, to: nat)
    requires i < to <= |cur|
    ensures var half := cur[i := a]; var list := half[..to] + [b] + half[to..];
            list[to + 1..] == half[to..] && list[..to + 1] == cur[..i] + [a] + half[i + 1..to] + [b]
  {
  }

  lemma {:induction false} PassedCells(front: seq<Region>, p: seq<Region>, passed: seq<Region>, z: iset<Cell>)
    requires |p| == 2 && Cells(p) !! z
    ensures Cells(front + [p[0]] + passed + [p[1]]) * z == (Cells(front) + Cells(passed)) * z
  {
    CellsConcat(front + [p[0]] + passed, [p[1]]);
    CellsConcat(front + [p[0]], passed);
    CellsConcat(front, [p[0]]);
    CellsConcat([p[0]], [p[1]]);
    assert [p[0]] + [p[1]] == p;
  }

  /** A region of the requester that is cut: what the scan goes on with, and what it passed over. */
  lemma {:induction false} CutLeaves(cur: seq<Region>, i: nat, orig: seq<Region>, k: nat, request: Region)
    requires AllWellFormed(cur) && request.length.Positive() && i < |cur| && k < |orig|
    requires cur[i] == orig[k] && cur[i + 1..] == orig[k + 1..] && Meets(cur[i], request)
    ensures var (list, next) := CutAt(cur, i, request);
            && AllWellFormed(list) && list[next..] == orig[After(orig, k, request)..]
            && Cells(list[..next]) * Zone(request) == (Cells(cur[..i]) + Cells(orig[k + 1..After(orig, k, request)])) * Zone(request)
  {
    var p := Pieces(cur[i], request);
    PiecesCells(cur[i], request);
    var (list, next) := CutAt(cur, i, request);
    if |p| == 2 {
      SplitShape(cur, i, orig, k, request);
      PassedCells(cur[..i], p, orig[k + 1..After(orig, k, request)], Zone(request));
    } else {
      assert list[..next] == cur[..i] + p && list[next..] == cur[i + 1..];
      CellsConcat(cur[..i], p);
      assert orig[k + 1..k + 1] == [];
    }
  }

  lemma {:induction false} SkipLeaves(cur: seq<Region>, i: nat, request: Region)
    requires AllWellFormed(cur) && request.length.Positive() && i < |cur| && !Meets(cur[i], request)
    ensures Cells(cur[..i + 1]) * Zone(request) == Cells(cur[..i]) * Zone(request)
  {
    assert cur[..i + 1] == cur[..i] + [cur[i]];
    CellsConcat(cur[..i], [cur[i]]);
    ApartFromZone(cur[i], request);
  }

  /** In the range, a list holds what a front and missed regions hold. */
  ghost predicate Leaves(list: seq<Region>, front: seq<Region>, missed: seq<Region>, request: Region) {
    Cells(list) * Zone(request) == (Cells(front) + Cells(missed)) * Zone(request)
  }

  lemma {:induction false} LeavesMore(list: seq<Region>, front: seq<Region>, front': seq<Region>, passed: seq<Region>, missed: seq<Region>, request: Region)
    requires Leaves(list, front', missed, request)
    requires Cells(front') * Zone(request) == (Cells(front) + Cells(passed)) * Zone(request)
    ensures Leaves(list, front, passed + missed, request)
  {
    CellsConcat(passed, missed);
    var z := Zone(request);
    calc {
      Cells(list) * z;
      Cells(front') * z + Cells(missed) * z;
      Cells(front) * z + Cells(passed) * z + Cells(missed) * z;
      (Cells(front) + Cells(passed + missed)) * z;
    }
  }

  /** In the range the scan leaves the requester exactly what the missed regions hold. */
  lemma {:induction false} ScanLeaves(cur: seq<Region>, i: nat, orig: seq<Region>, k: nat, request: Region)
    requires AllWellFormed(cur) && request.length.Positive() && i <= |cur| && k <= |orig| && cur[i..] == orig[k..]
    ensures Leaves(Scan(cur, i, request).0, cur[..i], Missed(orig, k, request), request)
    decreases |cur| - i
  {
    if i == |cur| {
      assert cur[..i] == cur && Cells([]) == iset{};
    } else {
      assert cur[i] == cur[i..][0] == orig[k..][0] == orig[k];
      assert cur[i + 1..] == cur[i..][1..] && orig[k + 1..] == orig[k..][1..];
      if AtMost(cur[i].End(), request.start) || (!AtMost(request.End(), cur[i].start) && cur[i].owner != request.owner) {
        SkipLeaves(cur, i, request);
        ScanLeaves(cur, i + 1, orig, k + 1, request);
      } else if AtMost(request.End(), cur[i].start) || AlreadyLocked(cur[i], request) {
        assert cur == cur[..i] + cur[i..];
        CellsConcat(cur[..i], cur[i..]);
      } else {
        CutLeaves(cur, i, orig, k, request);
        var (list, next) := CutAt(cur, i, request);
        var at := After(orig, k, request);
        ScanLeaves(list, next, orig, at, request);
        LeavesMore(Scan(cur, i, request).0, cur[..i], list[..next], orig[k + 1..at], Missed(orig, at, request), request);
      }
    }
  }

  /** An early return leaves the claim in force. */
  lemma {:induction false} EarlyHasClaim(s: seq<Region>, i: nat, request: Region)
    requires i <= |s| && request.length.Positive() && Scan(s, i, request).1
    ensures Claim(request) <= Cells(Scan(s, i, request).0)
    decreases |s| - i
  {
    if AtMost(s[i].End(), request.start) || s[i].owner != request.owner {
      EarlyHasClaim(s, i + 1, request);
    } else if AlreadyLocked(s[i], request) {
      ContainsClaim(s, i, request);
    } else {
      var (list, next) := CutAt(s, i, request);
      EarlyHasClaim(list, next, request);
    }
  }

  /** An early return from a list with disjoint owners found the claim there and changed nothing. */
  lemma {:induction false} EarlyScan(s: seq<Region>, i: nat, request: Region)
    requires i <= |s| && request.length.Positive() && AllWellFormed(s) && OwnersDisjoint(s)
    requires forall j :: 0 <= j < i ==> !Meets(s[j], request)
    ensures var (list, early) := Scan(s, i, request);
            early ==> list == s && exists j :: 0 <= j < |s| && s[j].owner == request.owner && AlreadyLocked(s[j], request)
    decreases |s| - i
  {
    if i < |s| && !Meets(s[i], request) {
      if AtMost(s[i].End(), request.start) || !AtMost(request.End(), s[i].start) {
        EarlyScan(s, i + 1, request);
      }
    } else if i < |s| && AlreadyLocked(s[i], request) {
      assert s[i].owner == request.owner;
    } else if i < |s| {
      var (list, next) := CutAt(s, i, request);
      forall j | next <= j < |list| && list[j].owner == request.owner
        ensures !AlreadyLocked(list[j], request)
      {
        assert list[j] == s[j - |list| + |s|];
      }
      NoEarly(list, next, request);
    }
  }

  lemma {:induction false} NoEarly(s: seq<Region>, i: nat, request: Region)
    requires i <= |s| && request.length.Positive()
    requires forall j :: i <= j < |s| ==> s[j].owner == request.owner ==> !AlreadyLocked(s[j], request)
    ensures !Scan(s, i, request).1
    decreases |s| - i
  {
    if i < |s| && (AtMost(s[i].End(), request.start) || !AtMost(request.End(), s[i].start)) {
      if AtMost(s[i].End(), request.start) || s[i].owner != request.owner {
        NoEarly(s, i + 1, request);
      } else {
        var (list, next) := CutAt(s, i, request);
        NoEarly(list, next, request);
      }
    }
  }

  // ---------------------------------------------------------------------------
  // Inserting the request

  predicate AtLeast(x: Num, y: Num) {
    x.Inf? || (x.Fin? && y.Fin? && y.n <= x.n)
  }

  /** Add y to a finite length. */
  function Longer(r: Region, y: Num): Region {
    r.(length := if r.length.Fin? then Plus(r.length.n, y) else r.length)
  }

  /**
   From i on, look for the place of the request and for regions it follows directly, which grow
   instead; at is the index of the region the request was merged into, or -1.
   */
  function Place(s: seq<Region>, i: nat, request: Region, at: int): (r: (seq<Region>, nat, int))
    requires i <= |s| && -1 <= at < i
    ensures |r.0| == |s| && i <= r.1 <= |s| && -1 <= r.2 <= r.1 && r.2 < |s|
    decreases |s| - i
  {
    if i == |s| then (s, i, at)
    else
      var region := if at < 0 then request else s[at];
      var merges := region.MayMergeAfter(s[i]);
      var s' := if merges then s[i := Longer(s[i], request.length)] else s;
      var at' := if merges then i else at;
      if request.start <= s'[i].start then (s', i, at') else Place(s', i + 1, request, at')
  }

  /** Merge the first region alike to the one at `at`, from i on, if it follows directly. */
  function MergeNext(s: seq<Region>, at: nat, i: nat): seq<Region>
    requires at < i <= |s|
    decreases |s| - i
  {
    if i == |s| then s
    else if !s[i].IsAlike(s[at]) then MergeNext(s, at, i + 1)
    else if s[i].MayMergeAfter(s[at]) then
      var grown := s[at := Longer(s[at], s[i].length)];
      grown[..i] + grown[i + 1..]
    else s
  }

  function Inserted(s: seq<Region>, request: Region): seq<Region> {
    var (list, i, at) := Place(s, 0, request, -1);
    if at < 0 then MergeNext(list[..i] + [request] + list[i..], i, i + 1)
    else if at < i then MergeNext(list, at, i)
    else list
  }

  lemma {:induction false} ReplaceCells(s: seq<Region>, i: nat, r: Region)
    requires i < |s|
    ensures Cells(s[i := r]) == Cells(s[..i]) + Cells([r]) + Cells(s[i + 1..])
  {
    assert s[i := r] == s[..i] + [r] + s[i + 1..];
    CellsConcat(s[..i] + [r], s[i + 1..]);
    CellsConcat(s[..i], [r]);
  }

  lemma {:induction false} LongerCells(r: Region, y: Region)
    requires WellFormed(r) && y.length.Positive() && y.IsAlike(r) && y.MayMergeAfter(r)
    ensures Cells([Longer(r, y.length)]) == Cells([r]) + Cells([y])
  {
    forall c: Cell
      ensures c in Cells([Longer(r, y.length)]) <==> c in Cells([r]) || c in Cells([y])
    {
      CellsSingle(r, c);
      CellsSingle(y, c);
      CellsSingle(Longer(r, y.length), c);
    }
  }

  lemma {:induction false} ShorterCells(x: Region, y: Region)
    requires x.IsAlike(y) && x.start == y.start && AtLeast(x.length, y.length)
    ensures Cells([y]) <= Cells([x])
  {
    forall c | c in Cells([y])
      ensures c in Cells([x])
    {
      CellsSingle(x, c);
      CellsSingle(y, c);
    }
  }

  lemma {:induction false} ListHas(s: seq<Region>, i: nat)
    requires i < |s|
    ensures Cells([s[i]]) <= Cells(s)
  {
    assert s == s[..i] + [s[i]] + s[i + 1..];
    CellsConcat(s[..i] + [s[i]], s[i + 1..]);
    CellsConcat(s[..i], [s[i]]);
  }

  /** Merging into s[i] adds the request, or adds nothing when the request is merged already. */
  lemma {:induction false} GrowCells(s: seq<Region>, i: nat, request: Region, at: int)
    requires AllWellFormed(s) && WellFormed(request) && i < |s| && -1 <= at < i
    requires at >= 0 ==> s[at].IsAlike(request) && AtLeast(s[at].length, request.length)
    requires (if at < 0 then request else s[at]).MayMergeAfter(s[i])
    ensures Cells(s[i := Longer(s[i], request.length)]) == Cells(s) + (if at < 0 then Cells([request]) else iset{})
    ensures WellFormed(Longer(s[i], request.length)) && AtLeast(Longer(s[i], request.length).length, request.length)
  {
    var added := if at < 0 then request else s[at].(length := request.length);
    LongerCells(s[i], added);
    ReplaceCells(s, i, Longer(s[i], request.length));
    assert s[i := s[i]] == s;
    ReplaceCells(s, i, s[i]);
    if at >= 0 {
      ShorterCells(s[at], added);
      ListHas(s, at);
    }
  }

  lemma {:induction false} PlaceCells(s: seq<Region>, i: nat, request: Region, at: int)
    requires AllWellFormed(s) && WellFormed(request) && i <= |s| && -1 <= at < i
    requires at >= 0 ==> s[at].IsAlike(request) && AtLeast(s[at].length, request.length) && s[at].start < request.start
    ensures var (list, j, at') := Place(s, i, request, at);
            && AllWellFormed(list)
            && Cells(list) == Cells(s) + (if at < 0 <= at' then Cells([request]) else iset{})
            && (0 <= at' ==> at' < j)
            && (0 <= at ==> 0 <= at')
    decreases |s| - i
  {
    if i < |s| {
      var region := if at < 0 then request else s[at];
      if region.MayMergeAfter(s[i]) {
        GrowCells(s, i, request, at);
        PlaceCells(s[i := Longer(s[i], request.length)], i + 1, request, i);
      } else if s[i].start < request.start {
        PlaceCells(s, i + 1, request, at);
      }
    }
  }

  /** Dropping a region whose cells are in the others loses nothing. */
  lemma {:induction false} DropCells(s: seq<Region>, at: nat, i: nat)
    requires at < i < |s| && Cells([s[i]]) <= Cells([s[at]])
    ensures Cells(s[..i] + s[i + 1..]) == Cells(s)
  {
    CellsConcat(s[..i], s[i + 1..]);
    ReplaceCells(s, i, s[i]);
    assert s[i := s[i]] == s;
    assert s[..i][at] == s[at];
    ListHas(s[..i], at);
  }

  lemma {:induction false} AbsorbCells(s: seq<Region>, at: nat, i: nat)
    requires AllWellFormed(s) && at < i < |s| && s[i].MayMergeAfter(s[at])
    ensures var grown := s[at := Longer(s[at], s[i].length)];
            AllWellFormed(grown) && Cells(grown[..i] + grown[i + 1..]) == Cells(s)
  {
    var grown := s[at := Longer(s[at], s[i].length)];
    LongerCells(s[at], s[i]);
    ReplaceCells(s, at, grown[at]);
    ReplaceCells(s, at, s[at]);
    assert s[at := s[at]] == s;
    ListHas(s, i);
    DropCells(grown, at, i);
  }

  lemma {:induction false} MergeNextCells(s: seq<Region>, at: nat, i: nat)
    requires AllWellFormed(s) && at < i <= |s|
    ensures AllWellFormed(MergeNext(s, at, i))
    ensures Cells(MergeNext(s, at, i)) == Cells(s)
    decreases |s| - i
  {
    if i < |s| && !s[i].IsAlike(s[at]) {
      MergeNextCells(s, at, i + 1);
    } else if i < |s| && s[i].MayMergeAfter(s[at]) {
      AbsorbCells(s, at, i);
    }
  }

  lemma {:induction false} PutInCells(s: seq<Region>, i: nat, r: Region)
    requires i <= |s|
    ensures Cells(s[..i] + [r] + s[i..]) == Cells(s) + Cells([r])
    ensures AllWellFormed(s) && WellFormed(r) ==> AllWellFormed(s[..i] + [r] + s[i..])
  {
    assert s == s[..i] + s[i..];
    CellsConcat(s[..i], s[i..]);
    CellsConcat(s[..i], [r]);
    CellsConcat(s[..i] + [r], s[i..]);
  }

  lemma {:induction false} InsertedCells(s: seq<Region>, request: Region)
    requires AllWellFormed(s) && WellFormed(request)
    ensures AllWellFormed(Inserted(s, request))
    ensures Cells(Inserted(s, request)) == Cells(s) + Cells([request])
  {
    var (list, i, at) := Place(s, 0, request, -1);
    PlaceCells(s, 0, request, -1);
    if at < 0 {
      PutInCells(list, i, request);
      MergeNextCells(list[..i] + [request] + list[i..], i, i + 1);
    } else {
      MergeNextCells(list, at, i);
    }
  }

  // ---------------------------------------------------------------------------
  // Locking: the specification of one call

  /** A region around the range leaves no other region of its owner in it. */
  lemma {:induction false} OnlyMeeting(s: seq<Region>, i: nat, j: nat, request: Region)
    requires OwnersDisjoint(s) && i < |s| && j < |s| && i != j && request.length.Positive()
    requires s[i].owner == request.owner && s[i].start <= request.start && Minus(s[i].End(), request.End()).Positive()
    ensures !Meets(s[j], request)
  {
    if s[j].owner == s[i].owner {
      assert AtMost(s[i].End(), s[j].start) || AtMost(s[j].End(), s[i].start);
    }
  }

  datatype Status = Success | Blocked

  predicate Conflicts(s: seq<Region>, request: Region) {
    exists i :: 0 <= i < |s| && request.ConflictsWith(s[i])
  }

  /** The list after a call of Lock, and what the call returns. */
  function AfterLock(s: seq<Region>, asked: Region): (seq<Region>, Status)
    requires IsRequest(asked)
  {
    var request := asked.Clone();
    if request.kind != Unlock && Conflicts(s, request) then (s, Blocked)
    else
      var (list, early) := Scan(s, 0, request);
      if early || request.kind == Unlock then (list, Success) else (Inserted(list, request), Success)
  }

  /** A request is compatible with the list exactly when granting its claim would be safe. */
  lemma {:induction false} ConflictMeaning(s: seq<Region>, request: Region)
    requires AllWellFormed(s) && WellFormed(request)
    ensures Conflicts(s, request) <==>
            exists c, d :: c in Cells(s) && d in Claim(request) && !Compatible(c, d)
  {
    if Conflicts(s, request) {
      var i :| 0 <= i < |s| && request.ConflictsWith(s[i]);
      var b := if s[i].start <= request.start then request.start else s[i].start;
      var c, d := Cell(s[i].owner, s[i].kind, b), Cell(request.owner, request.kind, b);
      assert RegionHolds(s[i], c);
      assert c in Cells(s) && d in Claim(request) && !Compatible(c, d);
    }
    if c, d :| c in Cells(s) && d in Claim(request) && !Compatible(c, d) {
      var i :| 0 <= i < |s| && RegionHolds(s[i], c);
      assert request.ConflictsWith(s[i]);
    }
  }

  /** A call is refused exactly if a byte it asks for would be locked incompatibly. */
  lemma {:induction false} LockStatus(s: seq<Region>, asked: Region)
    requires AllWellFormed(s) && IsRequest(asked)
    ensures AfterLock(s, asked).1 == Blocked <==> exists c, d :: c in Cells(s) && d in AskedClaim(asked) && !Compatible(c, d)
    ensures AfterLock(s, asked).1 == Blocked ==> AfterLock(s, asked).0 == s
  {
    CloneMeans(asked);
    if asked.kind != Unlock {
      ConflictMeaning(s, asked.Clone());
    }
  }

  /** Every call keeps the list well formed and safe, whatever the order of the list. */
  lemma {:induction false} LockKeepsSafe(s: seq<Region>, asked: Region)
    requires AllWellFormed(s) && IsRequest(asked)
    ensures AllWellFormed(AfterLock(s, asked).0)
    ensures Safe(Cells(s)) ==> Safe(Cells(AfterLock(s, asked).0))
    ensures forall c :: c in Cells(AfterLock(s, asked).0) ==> c in Cells(s) || c in AskedClaim(asked)
  {
    var request := asked.Clone();
    CloneMeans(asked);
    if request.kind == Unlock || !Conflicts(s, request) {
      ScanStart(s, request);
      ScanTrims(s, 0, s, 0, request);
      var (list, early) := Scan(s, 0, request);
      if !early && request.kind != Unlock {
        InsertedCells(list, request);
        ConflictMeaning(s, request);
        ClaimCells(request);
      }
    }
  }

  /** Hidden regions of another kind are exactly what keeps a granted request from its specification. */
  lemma {:induction false} ReachedMeaning(s: seq<Region>, request: Region)
    requires AllWellFormed(s) && request.length.Positive()
    ensures Reached(s, request) <==> HiddenCells(s, request) <= Claim(request)
  {
    if Reached(s, request) {
      forall c | c in HiddenCells(s, request)
        ensures c in Claim(request)
      {
        var j :| 0 <= j < |s| && RegionHolds(s[j], c) && Hidden(s, request, j);
        assert Meets(s[j], request);
      }
    } else {
      var j :| 0 <= j < |s| && Meets(s[j], request) && Hidden(s, request, j) && s[j].kind != request.kind;
      var c := Cell(s[j].owner, s[j].kind, if s[j].start <= request.start then request.start else s[j].start);
      assert RegionHolds(s[j], c) && c in HiddenCells(s, request);
    }
  }

  /** With the range inside a region of the kind asked for, the request is in force already. */
  lemma {:induction false} AlreadyGranted(s: seq<Region>, i: nat, request: Region)
    requires AllWellFormed(s) && request.length.Positive() && OwnersDisjoint(s)
    requires i < |s| && s[i].owner == request.owner && AlreadyLocked(s[i], request)
    ensures Reached(s, request)
    ensures Granted(Cells(s), request) == Cells(s)
  {
    ContainsClaim(s, i, request);
    forall c | c in Cells(s) && c in Zone(request)
      ensures c in Claim(request)
    {
      var j :| 0 <= j < |s| && RegionHolds(s[j], c);
      if j != i {
        OnlyMeeting(s, i, j, request);
      }
    }
    forall j | 0 <= j < |s| && Meets(s[j], request)
      ensures s[j].kind == request.kind
    {
      if j != i {
        OnlyMeeting(s, i, j, request);
      }
    }
  }

  lemma {:induction false} ClaimCells(request: Region)
    requires request.kind != Unlock
    ensures Cells([request]) == Claim(request)
  {
    forall c: Cell
      ensures c in Cells([request]) <==> c in Claim(request)
    {
      CellsSingle(request, c);
    }
  }

  /** Every region of the requester in the range that the scan misses is of the kind asked for. */
  predicate NothingMissed(s: seq<Region>, request: Region)
    requires request.length.Positive()
  {
    forall j :: 0 <= j < |Missed(s, 0, request)| && Meets(Missed(s, 0, request)[j], request) ==>
                  Missed(s, 0, request)[j].kind == request.kind
  }

  lemma {:induction false} MissedWellFormed(s: seq<Region>, k: nat, request: Region)
    requires AllWellFormed(s) && k <= |s| && request.length.Positive()
    ensures AllWellFormed(Missed(s, k, request))
    decreases |s| - k
  {
    if k < |s| && (AtMost(s[k].End(), request.start) || !AtMost(request.End(), s[k].start)) {
      if AtMost(s[k].End(), request.start) || s[k].owner != request.owner {
        MissedWellFormed(s, k + 1, request);
      } else if !AlreadyLocked(s[k], request) {
        MissedWellFormed(s, After(s, k, request), request);
      }
    }
  }

  lemma {:induction false} KindsMeaning(m: seq<Region>, request: Region)
    requires AllWellFormed(m) && request.length.Positive()
    ensures (forall j :: 0 <= j < |m| && Meets(m[j], request) ==> m[j].kind == request.kind)
       <==> Cells(m) * Zone(request) <= Claim(request)
  {
    if forall j :: 0 <= j < |m| && Meets(m[j], request) ==> m[j].kind == request.kind {
      forall c | c in Cells(m) * Zone(request)
        ensures c in Claim(request)
      {
        var j :| 0 <= j < |m| && RegionHolds(m[j], c);
        assert Meets(m[j], request);
      }
    } else {
      var j :| 0 <= j < |m| && Meets(m[j], request) && m[j].kind != request.kind;
      var c := Cell(m[j].owner, m[j].kind, if m[j].start <= request.start then request.start else m[j].start);
      assert RegionHolds(m[j], c) && c in Cells(m) * Zone(request) && c !in Claim(request);
    }
  }

  /**
   From any list that can be, a granted request sets exactly the requester's bytes in the range to the
   requested kind and changes nothing else, if and only if the scan misses no region of another kind.
   */
  lemma {:induction false} LockExact(s: seq<Region>, asked: Region)
    requires AllWellFormed(s) && IsRequest(asked) && AfterLock(s, asked).1 == Success
    ensures Cells(AfterLock(s, asked).0) == GrantedAs(Cells(s), asked) <==> NothingMissed(s, asked.Clone())
  {
    var request := asked.Clone();
    CloneMeans(asked);
    var missed := Missed(s, 0, request);
    ScanStart(s, request);
    ScanTrims(s, 0, s, 0, request);
    ScanLeaves(s, 0, s, 0, request);
    MissedWellFormed(s, 0, request);
    KindsMeaning(missed, request);
    var (list, early) := Scan(s, 0, request);
    if early {
      EarlyHasClaim(s, 0, request);
    } else if request.kind != Unlock {
      InsertedCells(list, request);
      ClaimCells(request);
    }
    assert Cells(s[..0]) == iset{};
    ExactSets(Cells(AfterLock(s, asked).0), Cells(s), Cells(list), Cells(missed), request);
  }

  /** The specification is met exactly if what is left in the range belongs to the claim. */
  lemma {:induction false} ExactSets(after: iset<Cell>, cells: iset<Cell>, list: iset<Cell>, missed: iset<Cell>, request: Region)
    requires Trimmed(list, cells, Zone(request), false) && list * Zone(request) == missed * Zone(request)
    requires after == list + Claim(request)
    ensures after == Granted(cells, request) <==> missed * Zone(request) <= Claim(request)
  {
    if missed * Zone(request) <= Claim(request) {
      forall c: Cell
        ensures c in after <==> c in Granted(cells, request)
      {
        assert c in list && c in Zone(request) ==> c in missed * Zone(request);
      }
    } else {
      var c :| c in missed * Zone(request) && c !in Claim(request);
      assert c in list * Zone(request);
    }
  }

  /**
   If the regions of each owner are disjoint, it misses only what comes after a region that starts
   past the range.
   */
  lemma {:induction false} DisjointLockExact(s: seq<Region>, asked: Region)
    requires AllWellFormed(s) && IsRequest(asked) && OwnersDisjoint(s)
    requires AfterLock(s, asked).1 == Success
    ensures Cells(AfterLock(s, asked).0) == GrantedAs(Cells(s), asked) <==> Reached(s, asked.Clone())
  {
    var request := asked.Clone();
    CloneMeans(asked);
    ScanStart(s, request);
    ScanTrims(s, 0, s, 0, request);
    EarlyScan(s, 0, request);
    ReachedMeaning(s, request);
    var (list, early) := Scan(s, 0, request);
    if early {
      var j :| 0 <= j < |s| && s[j].owner == request.owner && AlreadyLocked(s[j], request);
      ContainsClaim(s, j, request);
      AlreadyGranted(s, j, request);
    } else if request.kind != Unlock {
      InsertedCells(list, request);
      ClaimCells(request);
    }
  }
  /** In a sorted list the scan reaches everything, so a granted request meets its specification. */
  lemma {:induction false} SortedLock(s: seq<Region>, asked: Region)
    requires AllWellFormed(s) && IsRequest(asked) && OwnersDisjoint(s) && Sorted(s)
    requires AfterLock(s, asked).1 == Success
    ensures Cells(AfterLock(s, asked).0) == GrantedAs(Cells(s), asked)
  {
    var request := asked.Clone();
    forall j | 0 <= j < |s| && Hidden(s, request, j)
      ensures !Meets(s[j], request)
    {
      var i :| 0 <= i < j && AtMost(request.End(), s[i].start);
    }
    DisjointLockExact(s, asked);
  }

  // ---------------------------------------------------------------------------
  // Neat lists stay neat

  /** x is a part of r. */
  predicate Within(x: Region, r: Region) {
    x == r || (x.IsAlike(r) && r.start <= x.start && (r.length.Inf? || (x.End().Fin? && r.End().Fin? && x.End().n <= r.End().n)))
  }

  lemma {:induction false} PartsStayApart(x': Region, y': Region, x: Region, y: Region)
    requires Within(x', x) && Within(y', y) && AtMost(x.End(), y.start) && !y.MayMergeAfter(x)
    ensures AtMost(x'.End(), y'.start) && !y'.MayMergeAfter(x')
  {
  }

  /** Replacing a region by parts of it that are apart from each other keeps a list neat. */
  lemma {:induction false} NeatRefine(s: seq<Region>, i: nat, p: seq<Region>)
    requires Neat(s) && i < |s| && |p| <= 2
    requires forall j :: 0 <= j < |p| ==> Within(p[j], s[i])
    requires |p| == 2 ==> AtMost(p[0].End(), p[1].start) && !p[1].MayMergeAfter(p[0])
    ensures Neat(s[..i] + p + s[i + 1..])
  {
    var t := s[..i] + p + s[i + 1..];
    forall a, b | 0 <= a < b < |t|
      ensures AtMost(t[a].End(), t[b].start) && !t[b].MayMergeAfter(t[a])
    {
      var a' := if a < i then a else if a < i + |p| then i else a - |p| + 1;
      var b' := if b < i then b else if b < i + |p| then i else b - |p| + 1;
      if a' < b' {
        PartsStayApart(t[a], t[b], s[a'], s[b']);
      }
    }
  }

  lemma {:induction false} CutNeat(s: seq<Region>, i: nat, request: Region)
    requires Neat(s) && AllWellFormed(s) && i < |s| && request.length.Positive() && Meets(s[i], request)
    ensures Neat(CutAt(s, i, request).0) && AllWellFormed(CutAt(s, i, request).0)
  {
    var p := Pieces(s[i], request);
    PiecesCells(s[i], request);
    NeatRefine(s, i, p);
    if |p| == 2 {
      var half := s[i := p[0]];
      var at := FirstFrom(half, i, p[1].start);
      assert i + 1 < |s| ==> AtMost(s[i].End(), s[i + 1].start) && half[i + 1] == s[i + 1];
      assert at == i + 1;
      assert half[..at] + [p[1]] + half[at..] == s[..i] + p + s[i + 1..];
    }
  }

  lemma {:induction false} ScanNeat(s: seq<Region>, i: nat, request: Region)
    requires Neat(s) && AllWellFormed(s) && i <= |s| && request.length.Positive()
    ensures Neat(Scan(s, i, request).0) && AllWellFormed(Scan(s, i, request).0)
    decreases |s| - i
  {
    if i == |s| {
    } else if AtMost(s[i].End(), request.start) || (!AtMost(request.End(), s[i].start) && s[i].owner != request.owner) {
      ScanNeat(s, i + 1, request);
    } else if Meets(s[i], request) && !AlreadyLocked(s[i], request) {
      CutNeat(s, i, request);
      var (list, next) := CutAt(s, i, request);
      ScanNeat(list, next, request);
    }
  }

  /** No region overlaps the range. */
  predicate Vacant(s: seq<Region>, request: Region) {
    forall i :: 0 <= i < |s| ==> AtMost(s[i].End(), request.start) || AtMost(request.End(), s[i].start)
  }

  lemma {:induction false} OrderedShape(s: seq<Region>)
    requires Ordered(s) && AllWellFormed(s)
    ensures Sorted(s) && OwnersDisjoint(s)
  {
  }

  /** The other owners' regions are untouched by the scan. */
  lemma {:induction false} ScanForeign(s: seq<Region>, i: nat, request: Region)
    requires i <= |s| && request.length.Positive() && NoForeign(s, request)
    ensures NoForeign(Scan(s, i, request).0, request)
    decreases |s| - i
  {
    if i < |s| && (AtMost(s[i].End(), request.start) || !AtMost(request.End(), s[i].start)) {
      if AtMost(s[i].End(), request.start) || s[i].owner != request.owner {
        ScanForeign(s, i + 1, request);
      } else if !AlreadyLocked(s[i], request) {
        var (list, next) := CutAt(s, i, request);
        ScanForeign(list, next, request);
      }
    }
  }

  lemma {:induction false} NothingHidden(s: seq<Region>, request: Region)
    requires Sorted(s) && request.length.Positive()
    ensures HiddenCells(s, request) == iset{}
  {
    forall c, j | c in Zone(request) && 0 <= j < |s| && Hidden(s, request, j)
      ensures !RegionHolds(s[j], c)
    {
      var i :| 0 <= i < j && AtMost(request.End(), s[i].start);
    }
  }

  lemma {:induction false} ApartMeaning(s: seq<Region>, request: Region)
    requires AllWellFormed(s) && request.length.Positive() && Cells(s) * Zone(request) == iset{}
    ensures forall i :: 0 <= i < |s| ==> !Meets(s[i], request)
  {
    forall i | 0 <= i < |s|
      ensures !Meets(s[i], request)
    {
      ApartFromZone(s[i], request);
      ListHas(s, i);
      assert forall c :: c in Cells([s[i]]) && c in Zone(request) ==> c in Cells(s) * Zone(request);
    }
  }

  lemma {:induction false} ScanVacates(s: seq<Region>, request: Region)
    requires Neat(s) && AllWellFormed(s) && request.length.Positive() && NoForeign(s, request)
    requires !Scan(s, 0, request).1
    ensures Vacant(Scan(s, 0, request).0, request)
  {
    var list := Scan(s, 0, request).0;
    OrderedShape(s);
    ScanStart(s, request);
    ScanTrims(s, 0, s, 0, request);
    ScanForeign(s, 0, request);
    NothingHidden(s, request);
    ApartMeaning(list, request);
  }

  /** The first p regions end before the range, the others start after it. */
  predicate Around(s: seq<Region>, p: nat, request: Region) {
    && p <= |s|
    && (forall j :: 0 <= j < p ==> AtMost(s[j].End(), request.start))
    && (forall j :: p <= j < |s| ==> AtMost(request.End(), s[j].start))
  }

  lemma {:induction false} FindAround(s: seq<Region>, i: nat, request: Region) returns (p: nat)
    requires Ordered(s) && AllWellFormed(s) && Vacant(s, request) && i <= |s|
    requires forall j :: 0 <= j < i ==> AtMost(s[j].End(), request.start)
    ensures Around(s, p, request)
    decreases |s| - i
  {
    if i == |s| || !AtMost(s[i].End(), request.start) {
      p := i;
    } else {
      p := FindAround(s, i + 1, request);
    }
  }

  /** In a vacant range the request is placed after the p regions before it, or merged into the last of them. */
  lemma {:induction false} PlaceAround(s: seq<Region>, i: nat, request: Region, p: nat)
    requires Ordered(s) && AllWellFormed(s) && WellFormed(request) && Around(s, p, request) && i <= p
    requires i == p > 0 ==> !request.MayMergeAfter(s[p - 1])
    ensures Place(s, i, request, -1) ==
            if p > 0 && request.MayMergeAfter(s[p - 1]) then (s[p - 1 := Longer(s[p - 1], request.length)], p, p - 1)
            else (s, p, -1)
    decreases p - i
  {
    if i + 1 < p {
      assert AtMost(s[i].End(), s[i + 1].start);
      PlaceAround(s, i + 1, request, p);
    } else if i + 1 == p && !request.MayMergeAfter(s[i]) {
      PlaceAround(s, p, request, p);
    } else if i + 1 == p {
      var s' := s[i := Longer(s[i], request.length)];
      assert p < |s| ==> s'[p] == s[p] && !s'[i].MayMergeAfter(s'[p]) && request.start <= s'[p].start;
      assert Place(s', p, request, i) == (s', p, i);
    }
  }

  /** Everything but the pairs of the region at `at` with later ones is neat, and those are in order. */
  predicate AlmostNeat(s: seq<Region>, at: nat) {
    Ordered(s) && forall i, j :: 0 <= i < j < |s| && i != at ==> !s[j].MayMergeAfter(s[i])
  }

  lemma {:induction false} InsertAlmostNeat(s: seq<Region>, p: nat, request: Region)
    requires Neat(s) && AllWellFormed(s) && WellFormed(request) && Around(s, p, request)
    requires p > 0 ==> !request.MayMergeAfter(s[p - 1])
    ensures AlmostNeat(s[..p] + [request] + s[p..], p)
  {
    var t := s[..p] + [request] + s[p..];
    forall i, j | 0 <= i < j < |t|
      ensures AtMost(t[i].End(), t[j].start) && (i != p ==> !t[j].MayMergeAfter(t[i]))
    {
      if j == p && i + 1 < p {
        assert AtMost(s[i].End(), s[i + 1].start);
      } else if i != p && j != p {
        assert t[i] == s[if i < p then i else i - 1] && t[j] == s[if j < p then j else j - 1];
      }
    }
  }

  lemma {:induction false} GrowAlmostNeat(s: seq<Region>, p: nat, request: Region)
    requires Neat(s) && AllWellFormed(s) && WellFormed(request) && 0 < p && Around(s, p, request)
    requires request.MayMergeAfter(s[p - 1])
    ensures AlmostNeat(s[p - 1 := Longer(s[p - 1], request.length)], p - 1)
  {
  }

  lemma {:induction false} OnlyNextFollows(s: seq<Region>, at: nat, i: nat)
    requires AllWellFormed(s) && AlmostNeat(s, at) && at < i < |s|
    ensures s[i].MayMergeAfter(s[at]) ==> i == at + 1
  {
    if at + 1 < i {
      var n := s[at + 1];
      assert AtMost(s[at].End(), n.start) && AtMost(n.End(), s[i].start);
      assert n.start < s[i].start;
    }
  }

  lemma {:induction false} MergeNextNeat(s: seq<Region>, at: nat, i: nat)
    requires AllWellFormed(s) && AlmostNeat(s, at) && at < i <= |s|
    requires forall j :: at < j < i ==> !s[j].MayMergeAfter(s[at])
    ensures Neat(MergeNext(s, at, i))
    decreases |s| - i
  {
    if i < |s| && !s[i].IsAlike(s[at]) {
      MergeNextNeat(s, at, i + 1);
    } else if i < |s| && s[i].MayMergeAfter(s[at]) {
      OnlyNextFollows(s, at, i);
      AbsorbNeat(s, at);
    } else if i < |s| {
      forall j | i < j < |s|
        ensures !s[j].MayMergeAfter(s[at])
      {
        assert AtMost(s[at].End(), s[i].start) && AtMost(s[i].End(), s[j].start);
      }
    }
  }

  lemma {:induction false} AbsorbNeat(s: seq<Region>, at: nat)
    requires AllWellFormed(s) && AlmostNeat(s, at) && at + 1 < |s| && s[at + 1].MayMergeAfter(s[at])
    ensures var grown := s[at := Longer(s[at], s[at + 1].length)];
            Neat(grown[..at + 1] + grown[at + 2..])
  {
    var grown := s[at := Longer(s[at], s[at + 1].length)];
    var t := grown[..at + 1] + grown[at + 2..];
    assert t[at].End() == s[at + 1].End();
    forall i, j | 0 <= i < j < |t|
      ensures AtMost(t[i].End(), t[j].start) && !t[j].MayMergeAfter(t[i])
    {
      var i' := if i < at then i else i + 1;
      var j' := if j <= at then j else j + 1;
      assert AtMost(s[i'].End(), s[j'].start);
    }
  }

  lemma {:induction false} InsertedNeat(s: seq<Region>, request: Region)
    requires Neat(s) && AllWellFormed(s) && WellFormed(request) && Vacant(s, request)
    ensures Neat(Inserted(s, request))
  {
    var p := FindAround(s, 0, request);
    if p > 0 && request.MayMergeAfter(s[p - 1]) {
      PlaceAround(s, 0, request, p);
      GrowAlmostNeat(s, p, request);
      PlaceCells(s, 0, request, -1);
      MergeNextNeat(s[p - 1 := Longer(s[p - 1], request.length)], p - 1, p);
    } else {
      PlaceAround(s, 0, request, p);
      InsertAlmostNeat(s, p, request);
      MergeNextNeat(s[..p] + [request] + s[p..], p, p + 1);
    }
  }

  /**
   A sorted, disjoint and maximally merged list stays so, unless a shared lock is granted over
   another owner's region.
   */
  lemma {:induction false} LockKeepsNeat(s: seq<Region>, asked: Region)
    requires Neat(s) && AllWellFormed(s) && IsRequest(asked)
    requires asked.kind == Unlock || NoForeign(s, asked.Clone()) || AfterLock(s, asked).1 == Blocked
    ensures Neat(AfterLock(s, asked).0)
  {
    var request := asked.Clone();
    if AfterLock(s, asked).1 == Success {
      ScanNeat(s, 0, request);
      var (list, early) := Scan(s, 0, request);
      if !early && request.kind != Unlock {
        ScanVacates(s, request);
        InsertedNeat(list, request);
      }
    }
  }
  // ---------------------------------------------------------------------------
  // Whole runs

  /** The reference: POSIX locks as a set of cells, without any list. */
  ghost function SpecStep(cells: iset<Cell>, asked: Region): (iset<Cell>, Status) {
    if exists c, d :: c in cells && d in AskedClaim(asked) && !Compatible(c, d) then (cells, Blocked)
    else (GrantedAs(cells, asked), Success)
  }

  ghost function SpecRun(cells: iset<Cell>, asked: seq<Region>): (iset<Cell>, seq<Status>)
    decreases |asked|
  {
    if asked == [] then (cells, [])
    else
      var (mid, status) := SpecStep(cells, asked[0]);
      var (end, rest) := SpecRun(mid, asked[1..]);
      (end, [status] + rest)
  }

  predicate AllRequests(asked: seq<Region>) {
    forall i :: 0 <= i < |asked| ==> IsRequest(asked[i])
  }

  function Run(s: seq<Region>, asked: seq<Region>): (seq<Region>, seq<Status>)
    requires AllRequests(asked)
    decreases |asked|
  {
    if asked == [] then (s, [])
    else
      var (mid, status) := AfterLock(s, asked[0]);
      var (end, rest) := Run(mid, asked[1..]);
      (end, [status] + rest)
  }

  /** In every run, no two owners ever overlap with one of them exclusive. */
  lemma {:induction false} RunIsSafe(s: seq<Region>, asked: seq<Region>)
    requires AllWellFormed(s) && Safe(Cells(s)) && AllRequests(asked)
    ensures AllWellFormed(Run(s, asked).0)
    ensures Safe(Cells(Run(s, asked).0))
    decreases |asked|
  {
    if asked != [] {
      LockKeepsSafe(s, asked[0]);
      RunIsSafe(AfterLock(s, asked[0]).0, asked[1..]);
    }
  }

  /** The two kinds of runs in which the list keeps its order. */
  datatype Discipline = OnlyOwner(owner: Owner) | OnlyExclusive {
    predicate Allows(owner: Owner, kind: Kind) {
      match this
      case OnlyOwner(o) => owner == o
      case OnlyExclusive => kind != Shared
    }
  }

  ghost predicate Disciplined(d: Discipline, s: seq<Region>) {
    forall i :: 0 <= i < |s| ==> d.Allows(s[i].owner, s[i].kind)
  }

  lemma {:induction false} DisciplinedCells(d: Discipline, s: seq<Region>)
    requires AllWellFormed(s)
    ensures Disciplined(d, s) <==> forall c :: c in Cells(s) ==> d.Allows(c.owner, c.kind)
  {
    if forall c :: c in Cells(s) ==> d.Allows(c.owner, c.kind) {
      forall i | 0 <= i < |s|
        ensures d.Allows(s[i].owner, s[i].kind)
      {
        var c := Cell(s[i].owner, s[i].kind, s[i].start);
        assert RegionHolds(s[i], c);
        assert c in Cells(s);
      }
    }
  }

  lemma {:induction false} DisciplineIsNeat(d: Discipline, s: seq<Region>, asked: Region)
    requires AllWellFormed(s) && Disciplined(d, s) && IsRequest(asked) && d.Allows(asked.owner, asked.kind)
    requires AfterLock(s, asked).1 == Success && asked.kind != Unlock
    ensures NoForeign(s, asked.Clone())
  {
    var request := asked.Clone();
    forall i | 0 <= i < |s| && s[i].owner != request.owner
      ensures AtMost(s[i].End(), request.start) || AtMost(request.End(), s[i].start)
    {
      assert !request.ConflictsWith(s[i]);
    }
  }

  /** One step of a disciplined run: the list refines the reference and stays neat. */
  lemma {:induction false} DisciplinedStep(d: Discipline, s: seq<Region>, asked: Region)
    requires AllWellFormed(s) && Neat(s) && Disciplined(d, s) && Safe(Cells(s))
    requires IsRequest(asked) && d.Allows(asked.owner, asked.kind)
    ensures var (list, status) := AfterLock(s, asked);
            && AllWellFormed(list) && Neat(list) && Disciplined(d, list) && Safe(Cells(list))
            && (Cells(list), status) == SpecStep(Cells(s), asked)
  {
    var (list, status) := AfterLock(s, asked);
    LockKeepsSafe(s, asked);
    DisciplinedCells(d, s);
    DisciplinedCells(d, list);
    OrderedShape(s);
    LockStatus(s, asked);
    if status == Success {
      if asked.kind != Unlock {
        DisciplineIsNeat(d, s, asked);
      }
      SortedLock(s, asked);
    }
    LockKeepsNeat(s, asked);
  }

  /**
   Every run of a single owner, or with exclusive locks and unlocks only, refines the reference:
   same answers, same cells; and its list ends sorted, disjoint and maximally merged.
   */
  lemma {:induction false} DisciplinedRun(d: Discipline, s: seq<Region>, asked: seq<Region>)
    requires AllWellFormed(s) && Neat(s) && Disciplined(d, s) && Safe(Cells(s)) && AllRequests(asked)
    requires forall i :: 0 <= i < |asked| ==> d.Allows(asked[i].owner, asked[i].kind)
    ensures Neat(Run(s, asked).0)
    ensures (Cells(Run(s, asked).0), Run(s, asked).1) == SpecRun(Cells(s), asked)
    decreases |asked|
  {
    if asked != [] {
      DisciplinedStep(d, s, asked[0]);
      DisciplinedRun(d, AfterLock(s, asked[0]).0, asked[1..]);
    }
  }

  /** The empty list, where every inode starts, meets the premises of the run theorems. */
  lemma {:induction false} EmptyList(d: Discipline)
    ensures AllWellFormed([]) && Neat([]) && Disciplined(d, []) && Cells([]) == iset{} && Safe(Cells([]))
  {
  }

  /**
   With shared locks of two owners the refinement fails: shrinking a region from the left moves its
   start past another owner's region, and an unlock that has to reach that region stops before it.
   */
  lemma {:induction false} UnsortedRunFails(a: Owner, b: Owner)
    requires a != b
    ensures var asked := [Region(Shared, 0, Fin(10), a), Region(Shared, 2, Fin(3), b),
                          Region(Unlock, 0, Fin(6), a), Region(Unlock, 2, Fin(2), b)];
            && AllRequests(asked)
            && Run([], asked).1 == [Success, Success, Success, Success]
            && Cell(b, Shared, 2) in Cells(Run([], asked).0)
            && Cell(b, Shared, 2) !in SpecRun(iset{}, asked).0
  {
    var r0, r1 := Region(Shared, 0, Fin(10), a), Region(Shared, 2, Fin(3), b);
    var r2, r3 := Region(Unlock, 0, Fin(6), a), Region(Unlock, 2, Fin(2), b);
    var s1, s2, s3 := [r0], [r0, r1], [Region(Shared, 6, Fin(4), a), r1];
    FirstSteps(a, b);
    LastSteps(a, b);
    var asked := [r0, r1, r2, r3];
    assert asked[1..] == [r1, r2, r3] && asked[1..][1..] == [r2, r3] && asked[1..][1..][1..] == [r3];
    RunOne(s3, r3, []);
    RunOne(s2, r2, [r3]);
    RunOne([r0], r1, [r2, r3]);
    RunOne([], r0, [r1, r2, r3]);
    assert RegionHolds(s3[1], Cell(b, Shared, 2));
    LastUnlockRules(iset{}, asked[..3], r3, Cell(b, Shared, 2));
    assert asked[..3] + [r3] == asked;
  }

  /** The third request moves the start of the first region past the second; the fourth does not find it then. */
  lemma {:induction false} LastSteps(a: Owner, b: Owner)
    requires a != b
    ensures var r0, r1 := Region(Shared, 0, Fin(10), a), Region(Shared, 2, Fin(3), b);
            var s3 := [Region(Shared, 6, Fin(4), a), r1];
            && AfterLock([r0, r1], Region(Unlock, 0, Fin(6), a)) == (s3, Success)
            && AfterLock(s3, Region(Unlock, 2, Fin(2), b)) == (s3, Success)
  {
    var r0, r1, r2 := Region(Shared, 0, Fin(10), a), Region(Shared, 2, Fin(3), b), Region(Unlock, 0, Fin(6), a);
    var s2, s3 := [r0, r1], [Region(Shared, 6, Fin(4), a), r1];
    assert Pieces(r0, r2) == [s3[0]];
    assert s2[..0] + [s3[0]] + s2[1..] == s3;
    assert Scan(s3, 1, r2) == Scan(s3, 2, r2) == (s3, false);
  }

  lemma {:induction false} RunOne(s: seq<Region>, asked: Region, rest: seq<Region>)
    requires IsRequest(asked) && AllRequests(rest)
    ensures Run(s, [asked] + rest) ==
            (Run(AfterLock(s, asked).0, rest).0, [AfterLock(s, asked).1] + Run(AfterLock(s, asked).0, rest).1)
  {
    assert ([asked] + rest)[1..] == rest;
  }

  lemma {:induction false} FirstSteps(a: Owner, b: Owner)
    requires a != b
    ensures var r0, r1 := Region(Shared, 0, Fin(10), a), Region(Shared, 2, Fin(3), b);
            AfterLock([], r0) == ([r0], Success) && AfterLock([r0], r1) == ([r0, r1], Success)
  {
    var r0, r1 := Region(Shared, 0, Fin(10), a), Region(Shared, 2, Fin(3), b);
    var s1, s2 := [r0], [r0, r1];
    assert Scan([], 0, r0) == ([], false);
    assert Place([], 0, r0, -1) == ([], 0, -1);
    assert [][..0] + [r0] + [][0..] == s1;
    assert MergeNext(s1, 0, 1) == s1;
    assert Scan(s1, 0, r1) == Scan(s1, 1, r1) == (s1, false);
    assert Place(s1, 0, r1, -1) == Place(s1, 1, r1, -1) == (s1, 1, -1);
    assert s1[..1] + [r1] + s1[1..] == s2;
    assert MergeNext(s2, 1, 2) == s2;
  }

  /** In the reference, a final unlock leaves nothing of its owner in its range. */
  lemma {:induction false} LastUnlockRules(cells: iset<Cell>, asked: seq<Region>, last: Region, c: Cell)
    requires last.kind == Unlock && c in AskedZone(last)
    ensures c !in SpecRun(cells, asked + [last]).0
    decreases |asked|
  {
    if asked != [] {
      assert (asked + [last])[1..] == asked[1..] + [last];
      LastUnlockRules(SpecStep(cells, asked[0]).0, asked[1..], last, c);
    } else {
      assert [last][1..] == [];
    }
  }

  class LockList {
    var locks: seq<Region>

    constructor ()
      ensures locks == []
    {
      locks := [];
    }

    /** Fast-forward from i to the place of the second half of a split and insert it there. */
    method InsertHalf(i: nat, half: Region) returns (next: nat)
      requires i <= |locks|
      modifies this
      ensures var at := FirstFrom(old(locks), i, half.start);
              locks == old(locks)[..at] + [half] + old(locks)[at..] && next == at + 1
    {
      var at := i;
      while at < |locks| && locks[at].start < half.start
        invariant i <= at <= |locks|
        invariant FirstFrom(locks, i, half.start) == FirstFrom(locks, at, half.start)
      {
        at := at + 1;
      }
      locks := locks[..at] + [half] + locks[at..];
      next := at + 1;
    }

    /** Shrink, split or delete the region at i, which overlaps the request; the scan goes on at next. */
    method Cut(i: nat, request: Region) returns (next: nat)
      requires i < |locks| && request.length.Positive() && Meets(locks[i], request)
      modifies this
      ensures (locks, next) == CutAt(old(locks), i, request)
    {
      var region := locks[i];
      var start2 := request.End();
      var length1 := request.start - region.start;
      var length2 := Minus(region.End(), start2);
      next := i + 1;
      if length1 > 0 {
        // shrink from the right, or the first half of a split
        locks := locks[i := region.(length := Fin(length1))];
      }
      if length1 <= 0 && length2.Positive() {
        // shrink from the left
        locks := locks[i := region.(start := start2.n, length := length2)];
      } else if length2.Positive() {
        // the second half of the split goes to its place in the order
        next := InsertHalf(i, region.(start := start2.n, length := length2));
      } else if length1 <= 0 {
        // the request covers the region
        locks := locks[..i] + locks[i + 1..];
        next := i;
      }
      ghost var p := Pieces(region, request);
      assert |p| < 2 ==> locks == old(locks)[..i] + p + old(locks)[i + 1..];
    }

    /** Subtract the requested range from the regions of its owner; true: already locked as asked. */
    method Subtract(request: Region) returns (early: bool)
      requires request.length.Positive()
      modifies this
      ensures (locks, early) == Scan(old(locks), 0, request)
    {
      var i := 0;
      while i < |locks|
        invariant 0 <= i <= |locks|
        invariant Scan(locks, i, request) == Scan(old(locks), 0, request)
        decreases |locks| - i
      {
        var region := locks[i];
        if AtMost(region.End(), request.start) {
          i := i + 1;
          continue;
        }
        if AtMost(request.End(), region.start) {
          break;
        }
        if region.owner != request.owner {
          i := i + 1;
          continue;
        }
        if AlreadyLocked(region, request) {
          return true;
        }
        i := Cut(i, request);
      }
      return false;
    }

    /** The first region of another owner that conflicts with the request, if any. */
    method GetLock(request: Region) returns (found: Option<Region>)
      requires AllWellFormed(locks)
      ensures found.None? <==> !Conflicts(locks, request)
      ensures found.Some? ==> exists i :: && 0 <= i < |locks| && found.value == locks[i] && request.ConflictsWith(locks[i])
                                          && forall j :: 0 <= j < i ==> !request.ConflictsWith(locks[j])
    {
      var i := 0;
      while i < |locks|
        invariant 0 <= i <= |locks|
        invariant forall j :: 0 <= j < i ==> !request.ConflictsWith(locks[j])
      {
        if request.ConflictsWith(locks[i]) {
          return Some(locks[i].Clone());
        }
        i := i + 1;
      }
      return None;
    }

    /** Insert the request as a whole, merging it with the regions it touches. */
    method Insert(request: Region)
      modifies this
      ensures locks == Inserted(old(locks), request)
    {
      var i, at := 0, -1;
      while i < |locks|
        invariant 0 <= i <= |locks| && -1 <= at < i
        invariant Place(locks, i, request, at) == Place(old(locks), 0, request, -1)
      {
        var region := if at < 0 then request else locks[at];
        if region.MayMergeAfter(locks[i]) {
          locks := locks[i := Longer(locks[i], request.length)];
          at := i;
        }
        if request.start <= locks[i].start {
          break;
        }
        i := i + 1;
      }
      assert (locks, i, at) == Place(old(locks), 0, request, -1);
      if at < 0 {
        locks := locks[..i] + [request] + locks[i..];
        at, i := i, i + 1;
      } else if at == i {
        return;
      }
      MergeSubsequent(at, i);
    }

    method MergeSubsequent(at: nat, first: nat)
      requires at < first <= |locks|
      modifies this
      ensures locks == MergeNext(old(locks), at, first)
    {
      var i := first;
      while i < |locks|
        invariant first <= i <= |locks|
        invariant locks == old(locks)
        invariant MergeNext(locks, at, i) == MergeNext(old(locks), at, first)
      {
        if !locks[i].IsAlike(locks[at]) {
          i := i + 1;
          continue;
        }
        if locks[i].MayMergeAfter(locks[at]) {
          locks := locks[at := Longer(locks[at], locks[i].length)];
          locks := locks[..i] + locks[i + 1..];
        }
        return;
      }
    }

    /** Request, change or release a lock. */
    method Lock(asked: Region) returns (status: Status)
      requires AllWellFormed(locks) && IsRequest(asked)
      modifies this
      ensures (locks, status) == AfterLock(old(locks), asked)
      ensures AllWellFormed(locks)
      ensures Safe(Cells(old(locks))) ==> Safe(Cells(locks))
      ensures status == Blocked <==> exists c, d :: c in Cells(old(locks)) && d in AskedClaim(asked) && !Compatible(c, d)
      ensures status == Blocked ==> locks == old(locks)
      ensures status == Success ==>
                (Cells(locks) == GrantedAs(Cells(old(locks)), asked) <==> NothingMissed(old(locks), asked.Clone()))
    {
      var request := asked.Clone();
      LockKeepsSafe(locks, asked);
      LockStatus(locks, asked);
      if AfterLock(locks, asked).1 == Success {
        LockExact(locks, asked);
      }
      if request.kind != Unlock {
        var conflict := GetLock(request);
        if conflict.Some? {
          return Blocked;
        }
      }
      var early := Subtract(request);
      if !early && request.kind != Unlock {
        Insert(request);
      }
      return Success;
    }
  }
}
