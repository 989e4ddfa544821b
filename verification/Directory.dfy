/**
 The directory graph of the in-memory filesystem (lib/filesystem.js): inodes with directory entries
 and link counts, changed by create, link, unlink and rename within one filesystem.
 */
module Directory {
  /** An inode; `entries` maps names to inode numbers and is empty for files. */
  datatype Inode = Inode(dir: bool, entries: map<string, nat>, nlinks: int, unlinked: bool)

  type Inodes = seq<Inode>

  /** What an operation returns: 0 or a negative error number, or a TypeError that is thrown. */
  datatype Outcome = Done | Eperm | Enotempty | Enoent | TypeError

  /** Not one of the two entries that every directory has. */
  predicate Real(name: string) {
    name != "." && name != ".."
  }

  // ---- Single changes ----

  function SetEntry(s: Inodes, p: nat, name: string, i: nat): (r: Inodes)
    requires p < |s|
    ensures |r| == |s|
  {
    s[p := s[p].(entries := s[p].entries[name := i])]
  }

  function DropEntry(s: Inodes, p: nat, name: string): (r: Inodes)
    requires p < |s|
    ensures |r| == |s|
  {
    s[p := s[p].(entries := s[p].entries - {name})]
  }

  function AddLinks(s: Inodes, i: nat, d: int): (r: Inodes)
    requires i < |s|
    ensures |r| == |s|
  {
    s[i := s[i].(nlinks := s[i].nlinks + d)]
  }

  // ---- Operations ----

  /** The entries of a directory that is linked: "." and "..". */
  function LinkDots(s: Inodes, p: nat, i: nat): (r: Inodes)
    requires p < |s| && i < |s|
    ensures |r| == |s|
  {
    var s1 := if "." in s[i].entries then s else AddLinks(s, i, 1);
    AddLinks(SetEntry(SetEntry(s1, i, ".", i), i, "..", p), p, 1)
  }

  /** link_under_dir */
  function LinkUnder(s: Inodes, p: nat, i: nat, name: string): (r: Inodes)
    requires p < |s| && i < |s|
    ensures |r| == |s|
  {
    var s1 := AddLinks(SetEntry(s, p, name, i), i, 1);
    if s[i].dir then LinkDots(s1, p, i) else s1
  }

  /** unlink_from_dir: a name that does not exist is ignored. */
  function UnlinkFrom(s: Inodes, p: nat, name: string): (r: Inodes)
    requires p < |s|
    ensures |r| == |s|
  {
    if name !in s[p].entries || s[p].entries[name] >= |s| then s
    else
      var i := s[p].entries[name];
      var s1 := AddLinks(DropEntry(s, p, name), i, -1);
      if s[i].dir then AddLinks(DropEntry(s1, i, ".."), p, -1) else s1
  }

  // ---- Link counts ----

  /** The names under which a directory has inode i. */
  function Names(entries: map<string, nat>, i: nat): set<string> {
    set n | n in entries && entries[n] == i
  }

  function Count(entries: map<string, nat>, i: nat): nat {
    |Names(entries, i)|
  }

  function RefsTo(s: Inodes, n: nat, i: nat): nat
    requires n <= |s|
  {
    if n == 0 then 0 else RefsTo(s, n - 1, i) + Count(s[n - 1].entries, i)
  }

  /** How far the link count is above the number of entries. */
  function Excess(s: Inodes, i: nat): int
    requires i < |s|
  {
    s[i].nlinks - RefsTo(s, |s|, i)
  }

  lemma {:induction false} CountSet(m: map<string, nat>, name: string, v: nat, i: nat)
    requires name !in m
    ensures Count(m[name := v], i) == Count(m, i) + if i == v then 1 else 0
  {
    assert Names(m[name := v], i) == if i == v then Names(m, i) + {name} else Names(m, i);
  }

  lemma {:induction false} CountDrop(m: map<string, nat>, name: string, i: nat)
    requires name in m
    ensures Count(m - {name}, i) == Count(m, i) - if i == m[name] then 1 else 0
  {
    var k := m - {name};
    CountSet(k, name, m[name], i);
    assert k[name := m[name]] == m;
  }

  lemma {:induction false} RefsSame(s: Inodes, t: Inodes, n: nat, i: nat)
    requires n <= |s| && n <= |t| && forall j :: 0 <= j < n ==> s[j].entries == t[j].entries
    ensures RefsTo(s, n, i) == RefsTo(t, n, i)
  {
    if n > 0 {
      RefsSame(s, t, n - 1, i);
    }
  }

  lemma {:induction false} RefsUpdate(s: Inodes, n: nat, p: nat, x: Inode, i: nat)
    requires p < n <= |s|
    ensures RefsTo(s[p := x], n, i) == RefsTo(s, n, i) - Count(s[p].entries, i) + Count(x.entries, i)
  {
    if p == n - 1 {
      RefsSame(s[p := x], s, n - 1, i);
    } else {
      RefsUpdate(s, n - 1, p, x, i);
    }
  }

  lemma {:induction false} SetEntryExcess(s: Inodes, p: nat, name: string, v: nat, i: nat)
    requires p < |s| && i < |s| && name !in s[p].entries
    ensures Excess(SetEntry(s, p, name, v), i) == Excess(s, i) - if i == v then 1 else 0
  {
    RefsUpdate(s, |s|, p, s[p].(entries := s[p].entries[name := v]), i);
    CountSet(s[p].entries, name, v, i);
  }

  lemma {:induction false} DropEntryExcess(s: Inodes, p: nat, name: string, i: nat)
    requires p < |s| && i < |s| && name in s[p].entries
    ensures Excess(DropEntry(s, p, name), i) == Excess(s, i) + if i == s[p].entries[name] then 1 else 0
  {
    RefsUpdate(s, |s|, p, s[p].(entries := s[p].entries - {name}), i);
    CountDrop(s[p].entries, name, i);
  }

  lemma {:induction false} AddLinksExcess(s: Inodes, j: nat, d: int, i: nat)
    requires j < |s| && i < |s|
    ensures Excess(AddLinks(s, j, d), i) == Excess(s, i) + if i == j then d else 0
  {
    RefsUpdate(s, |s|, j, s[j].(nlinks := s[j].nlinks + d), i);
  }

  lemma {:induction false} LinkDotsExcess(s: Inodes, p: nat, x: nat, i: nat)
    requires p < |s| && x < |s| && i < |s| && ".." !in s[x].entries && ("." in s[x].entries ==> s[x].entries["."] == x)
    ensures Excess(LinkDots(s, p, x), i) == Excess(s, i)
  {
    var s1 := if "." in s[x].entries then s else AddLinks(s, x, 1);
    var s2 := SetEntry(s1, x, ".", x);
    var s3 := SetEntry(s2, x, "..", p);
    if "." in s[x].entries {
      assert s2 == s by {
        assert s[x].entries["." := x] == s[x].entries;
      }
    } else {
      AddLinksExcess(s, x, 1, i);
      SetEntryExcess(s1, x, ".", x, i);
    }
    SetEntryExcess(s2, x, "..", p, i);
    AddLinksExcess(s3, p, 1, i);
  }

  /** Linking keeps every link count equal to the number of entries. */
  lemma {:induction false} LinkUnderExcess(s: Inodes, p: nat, x: nat, name: string, i: nat)
    requires p < |s| && x < |s| && i < |s| && Real(name) && name !in s[p].entries
    requires s[x].dir ==> ".." !in s[x].entries && ("." in s[x].entries ==> s[x].entries["."] == x)
    ensures Excess(LinkUnder(s, p, x, name), i) == Excess(s, i)
  {
    var s1 := SetEntry(s, p, name, x);
    var s2 := AddLinks(s1, x, 1);
    SetEntryExcess(s, p, name, x, i);
    AddLinksExcess(s1, x, 1, i);
    if s[x].dir {
      LinkDotsExcess(s2, p, x, i);
    }
  }

  lemma {:induction false} UnlinkFromExcess(s: Inodes, p: nat, name: string, i: nat)
    requires p < |s| && i < |s| && Real(name) && name in s[p].entries && s[p].entries[name] < |s|
    requires var x := s[p].entries[name]; s[x].dir ==> ".." in s[x].entries && s[x].entries[".."] == p
    ensures Excess(UnlinkFrom(s, p, name), i) == Excess(s, i)
  {
    var x := s[p].entries[name];
    var s1 := DropEntry(s, p, name);
    var s2 := AddLinks(s1, x, -1);
    DropEntryExcess(s, p, name, i);
    AddLinksExcess(s1, x, -1, i);
    if s[x].dir {
      var s3 := DropEntry(s2, x, "..");
      DropEntryExcess(s2, x, "..", i);
      AddLinksExcess(s3, p, -1, i);
    }
  }

  lemma {:induction false} PushExcess(s: Inodes, x: Inode, i: nat)
    requires x.entries == map[] && x.nlinks == 0 && i <= |s|
    requires forall j :: 0 <= j < |s| ==> |s| !in s[j].entries.Values
    ensures Excess(s + [x], i) == if i < |s| then Excess(s, i) else 0
  {
    RefsSame(s + [x], s, |s|, i);
    if i == |s| {
      NoRefs(s, |s|, i);
    }
  }

  lemma {:induction false} NoRefs(s: Inodes, n: nat, i: nat)
    requires n <= |s| && forall j :: 0 <= j < n ==> i !in s[j].entries.Values
    ensures RefsTo(s, n, i) == 0
  {
    if n > 0 {
      NoRefs(s, n - 1, i);
      assert Names(s[n - 1].entries, i) == {};
    }
  }

  // ---- The tree ----

  predicate Attached(s: Inodes, d: nat) {
    d < |s| && s[d].dir && ".." in s[d].entries
  }

  function Parent(s: Inodes, d: nat): nat
    requires Attached(s, d)
  {
    s[d].entries[".."]
  }

  /** Entries lead to inodes, only directories have any, and "." is the directory itself, if it was ever linked. */
  predicate NodeOk(s: Inodes, i: nat)
    requires i < |s|
  {
    && (forall n :: n in s[i].entries ==> s[i].entries[n] < |s|)
    && (!s[i].dir ==> s[i].entries == map[])
    && ("." in s[i].entries ==> s[i].entries["."] == i)
    && (".." in s[i].entries ==> "." in s[i].entries)
  }

  ghost predicate Shape(s: Inodes) {
    && Attached(s, 0) && Parent(s, 0) == 0
    && forall i :: 0 <= i < |s| ==> NodeOk(s, i)
  }

  /** Directory p has an entry for d that is not "." or "..". */
  ghost predicate HasChild(s: Inodes, p: nat, d: nat) {
    p < |s| && exists n :: n in s[p].entries && s[p].entries[n] == d && Real(n)
  }

  /** The parent of every attached directory but the root has an entry for it. */
  ghost predicate ParentsOk(s: Inodes) {
    forall d :: 0 < d < |s| && Attached(s, d) ==> HasChild(s, Parent(s, d), d)
  }

  /** A directory with an entry in p, which is its parent, has no other entry in it. */
  predicate ChildOk(s: Inodes, p: nat, n: string)
    requires p < |s| && n in s[p].entries && s[p].entries[n] < |s|
  {
    var d := s[p].entries[n];
    Real(n) && s[d].dir ==> d != 0 && Attached(s, d) && Parent(s, d) == p
  }

  ghost predicate ChildrenOk(s: Inodes)
    requires Shape(s)
  {
    forall p, n :: 0 <= p < |s| && n in s[p].entries ==> NodeOk(s, p) && ChildOk(s, p, n)
  }

  predicate OnlyName(s: Inodes, p: nat, n: string)
    requires p < |s| && n in s[p].entries && s[p].entries[n] < |s|
  {
    Real(n) && s[s[p].entries[n]].dir ==>
      forall m :: m in s[p].entries && Real(m) && s[p].entries[m] == s[p].entries[n] ==> m == n
  }

  ghost predicate NamesOk(s: Inodes)
    requires Shape(s)
  {
    forall p, n :: 0 <= p < |s| && n in s[p].entries ==> NodeOk(s, p) && OnlyName(s, p, n)
  }

  ghost predicate CountsOk(s: Inodes) {
    forall i :: 0 <= i < |s| ==> Excess(s, i) == 0
  }

  /** All but that directories lead to the root. */
  ghost predicate Linked(s: Inodes) {
    Shape(s) && ParentsOk(s) && ChildrenOk(s) && NamesOk(s) && CountsOk(s)
  }

  /** What LinkUnder asks for. */
  predicate Linkable(s: Inodes, p: nat, x: nat, name: string) {
    && p < |s| && s[p].dir && 0 < x < |s| && Real(name) && name !in s[p].entries
    && (s[x].dir ==> ".." !in s[x].entries)
  }

  /** The entries after LinkUnder. */
  lemma {:induction false} LinkUnderEntries(s: Inodes, p: nat, x: nat, name: string, i: nat)
    requires p < |s| && x < |s| && i < |s|
    ensures var r := LinkUnder(s, p, x, name);
            && r[i].dir == s[i].dir && r[i].unlinked == s[i].unlinked
            && r[i].entries == (var e := if i == p then s[i].entries[name := x] else s[i].entries;
                                if i == x && s[x].dir then e["." := x][".." := p] else e)
  {
  }

  lemma {:induction false} LinkUnderShape(s: Inodes, p: nat, x: nat, name: string)
    requires Shape(s) && Linkable(s, p, x, name)
    ensures Shape(LinkUnder(s, p, x, name))
  {
    forall i | 0 <= i < |s|
      ensures NodeOk(LinkUnder(s, p, x, name), i)
    {
      assert NodeOk(s, i);
      LinkUnderEntries(s, p, x, name, i);
    }
    LinkUnderEntries(s, p, x, name, 0);
  }

  lemma {:induction false} LinkUnderParents(s: Inodes, p: nat, x: nat, name: string)
    requires Shape(s) && Linkable(s, p, x, name) && ParentsOk(s)
    ensures ParentsOk(LinkUnder(s, p, x, name))
  {
    var r := LinkUnder(s, p, x, name);
    forall d | 0 < d < |s| && Attached(r, d)
      ensures HasChild(r, Parent(r, d), d)
    {
      LinkUnderEntries(s, p, x, name, d);
      LinkUnderEntries(s, p, x, name, p);
      if d == x {
        assert r[p].entries[name] == x;
      } else {
        var q := Parent(s, d);
        assert Attached(s, d) && HasChild(s, q, d);
        var n :| n in s[q].entries && s[q].entries[n] == d && Real(n);
        LinkUnderEntries(s, p, x, name, q);
        assert n in r[q].entries && r[q].entries[n] == d;
      }
    }
  }

  lemma {:induction false} LinkUnderChildren(s: Inodes, p: nat, x: nat, name: string)
    requires Linked(s) && Linkable(s, p, x, name)
    ensures Shape(LinkUnder(s, p, x, name)) && ChildrenOk(LinkUnder(s, p, x, name)) && NamesOk(LinkUnder(s, p, x, name))
  {
    LinkUnderShape(s, p, x, name);
    var r := LinkUnder(s, p, x, name);
    forall q, n | 0 <= q < |s| && n in r[q].entries
      ensures NodeOk(r, q) && ChildOk(r, q, n) && OnlyName(r, q, n)
    {
      LinkUnderChild(s, p, x, name, q, n);
    }
  }

  lemma {:induction false} LinkUnderChild(s: Inodes, p: nat, x: nat, name: string, q: nat, n: string)
    requires Linked(s) && Linkable(s, p, x, name) && Shape(LinkUnder(s, p, x, name))
    requires q < |s| && n in LinkUnder(s, p, x, name)[q].entries
    ensures NodeOk(LinkUnder(s, p, x, name), q)
    ensures ChildOk(LinkUnder(s, p, x, name), q, n) && OnlyName(LinkUnder(s, p, x, name), q, n)
  {
    var r := LinkUnder(s, p, x, name);
    assert NodeOk(r, q) && NodeOk(s, q);
    LinkUnderEntries(s, p, x, name, q);
    var d := r[q].entries[n];
    LinkUnderEntries(s, p, x, name, d);
    if Real(n) && s[d].dir {
      if q == p && n == name {
        NotNamed(s, p, x);
      } else {
        assert ChildOk(s, q, n) && OnlyName(s, q, n);
      }
    }
  }

  /** A detached directory has no name. */
  lemma {:induction false} NotNamed(s: Inodes, p: nat, x: nat)
    requires Linked(s) && p < |s| && x < |s| && s[x].dir && ".." !in s[x].entries
    ensures forall n :: n in s[p].entries && Real(n) ==> s[p].entries[n] != x
  {
    forall n | n in s[p].entries && Real(n)
      ensures s[p].entries[n] != x
    {
      assert NodeOk(s, p) && ChildOk(s, p, n);
    }
  }

  /** Linking keeps all but that directories lead to the root. */
  lemma {:induction false} LinkUnderLinked(s: Inodes, p: nat, x: nat, name: string)
    requires Linked(s) && Linkable(s, p, x, name)
    ensures Linked(LinkUnder(s, p, x, name))
  {
    LinkUnderShape(s, p, x, name);
    LinkUnderParents(s, p, x, name);
    LinkUnderChildren(s, p, x, name);
    assert NodeOk(s, x);
    forall i | 0 <= i < |s|
      ensures Excess(LinkUnder(s, p, x, name), i) == 0
    {
      LinkUnderExcess(s, p, x, name, i);
    }
  }

  // ---- Unlinking ----

  predicate Unlinkable(s: Inodes, p: nat, name: string) {
    p < |s| && Real(name) && name in s[p].entries
  }

  lemma {:induction false} UnlinkFromEntries(s: Inodes, p: nat, name: string, i: nat)
    requires Linked(s) && Unlinkable(s, p, name) && i < |s|
    ensures s[p].entries[name] < |s|
    ensures var r, x := UnlinkFrom(s, p, name), s[p].entries[name];
            && (s[x].dir ==> x != 0 && Attached(s, x) && Parent(s, x) == p)
            && r[i].dir == s[i].dir && r[i].unlinked == s[i].unlinked
            && r[i].entries == (var e := if i == p then s[i].entries - {name} else s[i].entries;
                                if i == x && s[x].dir then e - {".."} else e)
  {
    assert NodeOk(s, p) && ChildOk(s, p, name);
  }

  lemma {:induction false} UnlinkFromShape(s: Inodes, p: nat, name: string)
    requires Linked(s) && Unlinkable(s, p, name)
    ensures s[p].entries[name] < |s| && Shape(UnlinkFrom(s, p, name))
  {
    UnlinkFromEntries(s, p, name, 0);
    forall i | 0 <= i < |s|
      ensures NodeOk(UnlinkFrom(s, p, name), i)
    {
      assert NodeOk(s, i);
      UnlinkFromEntries(s, p, name, i);
    }
  }

  lemma {:induction false} UnlinkFromParents(s: Inodes, p: nat, name: string)
    requires Linked(s) && Unlinkable(s, p, name) && s[p].entries[name] < |s|
    ensures ParentsOk(UnlinkFrom(s, p, name))
  {
    var r, x := UnlinkFrom(s, p, name), s[p].entries[name];
    forall d | 0 < d < |s| && Attached(r, d)
      ensures HasChild(r, Parent(r, d), d)
    {
      UnlinkFromEntries(s, p, name, d);
      var q := Parent(s, d);
      assert Attached(s, d) && HasChild(s, q, d);
      var n :| n in s[q].entries && s[q].entries[n] == d && Real(n);
      UnlinkFromEntries(s, p, name, q);
      assert n in r[q].entries && r[q].entries[n] == d;
    }
  }

  lemma {:induction false} UnlinkFromChild(s: Inodes, p: nat, name: string, q: nat, n: string)
    requires Linked(s) && Unlinkable(s, p, name) && s[p].entries[name] < |s| && Shape(UnlinkFrom(s, p, name))
    requires q < |s| && n in UnlinkFrom(s, p, name)[q].entries
    ensures NodeOk(UnlinkFrom(s, p, name), q)
    ensures ChildOk(UnlinkFrom(s, p, name), q, n) && OnlyName(UnlinkFrom(s, p, name), q, n)
  {
    var r := UnlinkFrom(s, p, name);
    assert NodeOk(r, q) && NodeOk(s, q);
    UnlinkFromEntries(s, p, name, q);
    var d := s[q].entries[n];
    UnlinkFromEntries(s, p, name, d);
    assert ChildOk(s, q, n) && OnlyName(s, q, n);
  }

  lemma {:induction false} UnlinkFromLinked(s: Inodes, p: nat, name: string)
    requires Linked(s) && Unlinkable(s, p, name)
    ensures s[p].entries[name] < |s| && Linked(UnlinkFrom(s, p, name))
  {
    UnlinkFromShape(s, p, name);
    UnlinkFromParents(s, p, name);
    UnlinkFromEntries(s, p, name, 0);
    var r := UnlinkFrom(s, p, name);
    forall q, n | 0 <= q < |s| && n in r[q].entries
      ensures NodeOk(r, q) && ChildOk(r, q, n) && OnlyName(r, q, n)
    {
      UnlinkFromChild(s, p, name, q, n);
    }
    forall i | 0 <= i < |s|
      ensures Excess(r, i) == 0
    {
      UnlinkFromExcess(s, p, name, i);
    }
  }

  // ---- Up to the root ----

  /** From d, ".." leads to the root in at most k steps. */
  predicate Climbs(s: Inodes, d: nat, k: nat)
    decreases k
  {
    Attached(s, d) && (d == 0 || (k > 0 && Climbs(s, Parent(s, d), k - 1)))
  }

  ghost predicate Reaches(s: Inodes, d: nat) {
    exists k: nat :: Climbs(s, d, k)
  }

  ghost predicate Rooted(s: Inodes) {
    forall d :: 0 <= d < |s| && Attached(s, d) ==> Reaches(s, d)
  }

  /** On the way up from d, x comes within k steps. */
  predicate Passes(s: Inodes, d: nat, x: nat, k: nat)
    decreases k
  {
    d == x || (d != 0 && k > 0 && Attached(s, d) && Passes(s, Parent(s, d), x, k - 1))
  }

  ghost predicate Inside(s: Inodes, d: nat, x: nat) {
    exists k: nat :: Passes(s, d, x, k)
  }

  /** Only x has another parent, or none, in r. */
  ghost predicate SameParents(s: Inodes, r: Inodes, x: nat) {
    forall d :: 0 <= d < |s| && d != x && Attached(s, d) ==> Attached(r, d) && Parent(r, d) == Parent(s, d)
  }

  lemma {:induction false} ClimbsMore(s: Inodes, d: nat, k: nat, m: nat)
    requires Climbs(s, d, k) && k <= m
    ensures Climbs(s, d, m)
    decreases k
  {
    if d != 0 {
      ClimbsMore(s, Parent(s, d), k - 1, m - 1);
    }
  }

  /** A way up that does not pass x stays. */
  lemma {:induction false} ClimbsApart(s: Inodes, r: Inodes, d: nat, x: nat, k: nat)
    requires Climbs(s, d, k) && !Passes(s, d, x, k) && SameParents(s, r, x)
    ensures Climbs(r, d, k)
    decreases k
  {
    if d != 0 {
      ClimbsApart(s, r, Parent(s, d), x, k - 1);
    }
  }

  /** If x moves to q, and q is not inside x, ways up that passed x go on from q. */
  lemma {:induction false} ClimbsMoved(s: Inodes, r: Inodes, d: nat, x: nat, k: nat, q: nat, m: nat)
    requires Climbs(s, d, k) && SameParents(s, r, x) && x != 0
    requires Attached(r, x) && Parent(r, x) == q && Climbs(r, q, m)
    ensures Climbs(r, d, k + m + 1)
    decreases k
  {
    if d == x {
      ClimbsMore(r, q, m, k + m);
    } else if d != 0 {
      ClimbsMoved(s, r, Parent(s, d), x, k - 1, q, m);
    }
  }

  /** If q is inside x, x leads nowhere: the way up from x comes back to x. */
  lemma {:induction false} LoopLeadsNowhere(s: Inodes, r: Inodes, x: nat, q: nat, j: nat, k: nat)
    requires SameParents(s, r, x) && x != 0 && Attached(r, x) && Parent(r, x) == q && Passes(s, q, x, j)
    ensures !Climbs(r, x, k)
    decreases k
  {
    if Climbs(r, x, k) {
      var rest := PassesDown(s, r, q, x, j, k - 1);
      LoopLeadsNowhere(s, r, x, q, j, rest);
    }
  }

  /** A way up that passes x is also a way up from x, no longer. */
  lemma {:induction false} PassesDown(s: Inodes, r: Inodes, d: nat, x: nat, j: nat, k: nat) returns (rest: nat)
    requires SameParents(s, r, x) && Passes(s, d, x, j) && Climbs(r, d, k) && x != 0
    ensures rest <= k && Climbs(r, x, rest)
    decreases j
  {
    if d == x {
      rest := k;
    } else {
      rest := PassesDown(s, r, Parent(s, d), x, j - 1, k - 1);
    }
  }

  lemma {:induction false} RootedApart(s: Inodes, r: Inodes, x: nat)
    requires Rooted(s) && |s| <= |r| && SameParents(s, r, x) && x != 0 && !Attached(r, x)
    requires forall d :: 0 <= d < |s| && Attached(s, d) && d != 0 ==> Parent(s, d) != x
    requires forall d :: 0 <= d < |r| && Attached(r, d) ==> d < |s| && Attached(s, d)
    ensures Rooted(r)
  {
    forall d | 0 <= d < |r| && Attached(r, d)
      ensures Reaches(r, d)
    {
      assert Reaches(s, d);
      var k: nat :| Climbs(s, d, k);
      NeverPasses(s, d, x, k);
      ClimbsApart(s, r, d, x, k);
    }
  }

  lemma {:induction false} NeverPasses(s: Inodes, d: nat, x: nat, k: nat)
    requires Climbs(s, d, k) && d != x && x != 0
    requires forall e :: 0 <= e < |s| && Attached(s, e) && e != 0 ==> Parent(s, e) != x
    ensures !Passes(s, d, x, k)
    decreases k
  {
    if d != 0 {
      NeverPasses(s, Parent(s, d), x, k - 1);
    }
  }

  /** A directory that had no parent gets one that leads to the root. */
  lemma {:induction false} RootedLinked(s: Inodes, r: Inodes, x: nat, q: nat)
    requires Rooted(s) && |s| <= |r| && SameParents(s, r, x) && x != 0 && !Attached(s, x)
    requires forall d :: 0 <= d < |r| && d != x && Attached(r, d) ==> d < |s| && Attached(s, d)
    requires Attached(r, x) ==> Parent(r, x) == q
    requires q < |s| && Attached(s, q)
    ensures Rooted(r)
  {
    forall d | 0 <= d < |r| && Attached(r, d)
      ensures Reaches(r, d)
    {
      var e := if d == x then q else d;
      assert Reaches(s, e);
      var k: nat :| Climbs(s, e, k);
      NeverPassesDetached(s, e, x, k);
      ClimbsApart(s, r, e, x, k);
      if d == x {
        assert Climbs(r, x, k + 1);
      }
    }
  }

  lemma {:induction false} NeverPassesDetached(s: Inodes, d: nat, x: nat, k: nat)
    requires Climbs(s, d, k) && !Attached(s, x)
    ensures !Passes(s, d, x, k)
    decreases k
  {
    if d != 0 {
      NeverPassesDetached(s, Parent(s, d), x, k - 1);
    }
  }

  /** A directory moves: the tree stays one exactly if it does not go inside itself. */
  lemma {:induction false} RootedMoved(s: Inodes, r: Inodes, x: nat, q: nat)
    requires Rooted(s) && |s| == |r| && SameParents(s, r, x) && x != 0 && Attached(s, x) && Attached(s, q)
    requires Attached(r, x) && Parent(r, x) == q
    requires forall d :: 0 <= d < |r| && Attached(r, d) ==> Attached(s, d)
    ensures Rooted(r) <==> !Inside(s, q, x)
  {
    if Inside(s, q, x) {
      var j: nat :| Passes(s, q, x, j);
      forall k: nat
        ensures !Climbs(r, x, k)
      {
        LoopLeadsNowhere(s, r, x, q, j, k);
      }
      assert !Reaches(r, x);
    } else {
      assert Reaches(s, q);
      var m: nat :| Climbs(s, q, m);
      assert !Passes(s, q, x, m);
      ClimbsApart(s, r, q, x, m);
      forall d | 0 <= d < |r| && Attached(r, d)
        ensures Reaches(r, d)
      {
        assert Reaches(s, d);
        var k: nat :| Climbs(s, d, k);
        ClimbsMoved(s, r, d, x, k, q, m);
      }
    }
  }

  // ---- Operations on a well-formed filesystem ----

  /** nlinks counts entries, and attached directories are a tree whose root is inode 0. */
  ghost predicate Valid(s: Inodes) {
    Linked(s) && Rooted(s)
  }

  /** The root directory alone. */
  function Root(): Inodes {
    [Inode(true, map["." := 0, ".." := 0], 2, false)]
  }

  lemma {:induction false} RootValid()
    ensures Valid(Root())
  {
    var s, e := Root(), map["." := 0, ".." := 0];
    assert Climbs(s, 0, 0);
    assert RefsTo(s, 1, 0) == RefsTo(s, 0, 0) + Count(e, 0);
    assert Names(e, 0) == {".", ".."};
  }

  /** CreateFile, CreateDirectory and the like: a new inode, linked. */
  function Create(s: Inodes, p: nat, name: string, dir: bool): Inodes
    requires p < |s|
  {
    LinkUnder(s + [Inode(dir, map[], 0, false)], p, |s|, name)
  }

  lemma {:induction false} PushLinked(s: Inodes, x: Inode)
    requires Linked(s) && x.entries == map[] && x.nlinks == 0
    ensures Linked(s + [x])
  {
    var r := s + [x];
    assert forall j :: 0 <= j < |s| ==> NodeOk(s, j) && r[j] == s[j];
    forall j | 0 <= j < |r|
      ensures NodeOk(r, j)
    {
      assert j < |s| ==> NodeOk(s, j);
    }
    forall d | 0 < d < |r| && Attached(r, d)
      ensures HasChild(r, Parent(r, d), d)
    {
      assert Attached(s, d) && HasChild(s, Parent(s, d), d);
      var n :| n in s[Parent(s, d)].entries && s[Parent(s, d)].entries[n] == d && Real(n);
      assert n in r[Parent(r, d)].entries;
    }
    forall q, n | 0 <= q < |r| && n in r[q].entries
      ensures NodeOk(r, q) && ChildOk(r, q, n) && OnlyName(r, q, n)
    {
      assert NodeOk(s, q) && ChildOk(s, q, n) && OnlyName(s, q, n);
    }
    forall i | 0 <= i < |r|
      ensures Excess(r, i) == 0
    {
      PushExcess(s, x, i);
    }
  }

  /** A name that is taken: the inode that had it has one link too many. */
  lemma {:induction false} TakenName(s: Inodes, p: nat, x: nat, name: string)
    requires Linked(s) && p < |s| && x < |s| && Real(name) && name in s[p].entries
    requires s[x].dir ==> s[x].entries == map[]
    ensures !CountsOk(LinkUnder(s, p, x, name))
  {
    assert NodeOk(s, p);
    var y, t := s[p].entries[name], DropEntry(s, p, name);
    assert s[p].entries[name := x] == (s[p].entries - {name})[name := x];
    assert SetEntry(s, p, name, x) == SetEntry(t, p, name, x);
    DropEntryExcess(s, p, name, y);
    LinkUnderExcess(t, p, x, name, y);
    assert Excess(LinkUnder(s, p, x, name), y) == 1;
  }

  /** The names "." and ".." of a directory that is not x: it is not itself there, or has another parent. */
  lemma {:induction false} DotsTaken(s: Inodes, p: nat, x: nat, name: string)
    requires Linked(s) && Attached(s, p) && x < |s| && x != p && !Real(name) && s[x].entries == map[]
    ensures !Linked(LinkUnder(s, p, x, name))
  {
    var r := LinkUnder(s, p, x, name);
    LinkUnderEntries(s, p, x, name, p);
    LinkUnderEntries(s, p, x, name, x);
    if name == "." {
      assert !NodeOk(r, p);
    } else if p != 0 {
      assert Attached(r, p) && Parent(r, p) == x;
      assert !HasChild(r, x, p);
    }
  }

  /** A new inode keeps counts and tree exactly if its name is new and not "." or "..". */
  lemma {:induction false} CreateValid(s: Inodes, p: nat, name: string, dir: bool)
    requires Valid(s) && Attached(s, p)
    ensures Valid(Create(s, p, name, dir)) <==> Real(name) && name !in s[p].entries
  {
    var x := Inode(dir, map[], 0, false);
    PushLinked(s, x);
    if !Real(name) {
      DotsTaken(s + [x], p, |s|, name);
    } else if name in s[p].entries {
      TakenName(s + [x], p, |s|, name);
    } else {
      CreateNew(s, p, name, dir);
    }
  }

  lemma {:induction false} CreateNew(s: Inodes, p: nat, name: string, dir: bool)
    requires Valid(s) && Attached(s, p) && Real(name) && name !in s[p].entries
    ensures Valid(Create(s, p, name, dir))
  {
    var t := s + [Inode(dir, map[], 0, false)];
    PushLinked(s, Inode(dir, map[], 0, false));
    LinkUnderLinked(t, p, |s|, name);
    LinkParents(t, p, |s|, name);
    var r := LinkUnder(t, p, |s|, name);
    forall d | 0 <= d < |s| && d != |s| && Attached(s, d)
      ensures Attached(r, d) && Parent(r, d) == Parent(s, d)
    {
      assert Attached(t, d);
    }
    RootedLinked(s, r, |s|, p);
  }

  /** Only x gets a parent. */
  lemma {:induction false} LinkParents(s: Inodes, p: nat, x: nat, name: string)
    requires Shape(s) && Linkable(s, p, x, name)
    ensures var r := LinkUnder(s, p, x, name);
            && SameParents(s, r, x) && (forall d :: 0 <= d < |r| && d != x && Attached(r, d) ==> Attached(s, d))
            && (Attached(r, x) <==> s[x].dir) && (s[x].dir ==> Parent(r, x) == p)
  {
    forall d | 0 <= d < |s|
      ensures d != x ==> (Attached(LinkUnder(s, p, x, name), d) <==> Attached(s, d))
      ensures d != x && Attached(s, d) ==> Parent(LinkUnder(s, p, x, name), d) == Parent(s, d)
    {
      LinkUnderEntries(s, p, x, name, d);
    }
    LinkUnderEntries(s, p, x, name, x);
    assert NodeOk(s, x);
  }

  /** Link: another name for a file. */
  function Link(s: Inodes, p: nat, t: nat, name: string): (Inodes, Outcome)
    requires p < |s| && t < |s|
  {
    if s[t].dir then (s, Eperm) else (LinkUnder(s, p, t, name), Done)
  }

  lemma {:induction false} LinkValid(s: Inodes, p: nat, t: nat, name: string)
    requires Valid(s) && Attached(s, p) && t < |s|
    ensures var (r, out) := Link(s, p, t, name);
            && (out != Done ==> r == s)
            && (out == Done ==> (Valid(r) <==> Real(name) && name !in s[p].entries))
  {
    if !s[t].dir {
      assert NodeOk(s, t);
      if !Real(name) {
        DotsTaken(s, p, t, name);
      } else if name in s[p].entries {
        TakenName(s, p, t, name);
      } else {
        LinkUnderLinked(s, p, t, name);
        LinkParents(s, p, t, name);
        RootedLinked(s, LinkUnder(s, p, t, name), t, p);
      }
    }
  }

  // ---- Names, kinds and counts after each operation ----

  /** Every name but one leads where it led. */
  ghost predicate OtherNamesSame(s: Inodes, r: Inodes, p: nat, name: string) {
    forall d: nat, n: string, i: nat :: d < |s| && !(d == p && n == name) ==> (Leads(r, d, n, i) <==> Leads(s, d, n, i))
  }

  /** A link is made exactly to what is not a directory; then the name leads to it and it has one link more. */
  lemma {:induction false} LinkMeans(s: Inodes, p: nat, t: nat, name: string)
    requires p < |s| && t < |s|
    ensures var (r, out) := Link(s, p, t, name);
            if s[t].dir then out == Eperm && r == s
            else
              && out == Done && |r| == |s| && Leads(r, p, name, t) && OtherNamesSame(s, r, p, name)
              && r[t].nlinks == s[t].nlinks + 1 && (forall i :: 0 <= i < |s| && i != t ==> r[i].nlinks == s[i].nlinks)
              && forall i :: 0 <= i < |s| ==> r[i].dir == s[i].dir && r[i].unlinked == s[i].unlinked
  {
    if !s[t].dir {
      forall i | 0 <= i < |s|
        ensures var r := LinkUnder(s, p, t, name);
                r[i].entries == (if i == p then s[i].entries[name := t] else s[i].entries)
                && r[i].dir == s[i].dir && r[i].unlinked == s[i].unlinked && r[i].nlinks == s[i].nlinks + if i == t then 1 else 0
      {
        LinkUnderEntries(s, p, t, name, i);
      }
    }
  }

  /** A new inode is of the kind that was asked for and has the name, and a directory its two own; no other name or kind changes. */
  lemma {:induction false} CreateMeans(s: Inodes, p: nat, name: string, dir: bool)
    requires p < |s|
    ensures var r, x := Create(s, p, name, dir), |s|;
            && |r| == |s| + 1 && Leads(r, p, name, x) && OtherNamesSame(s, r, p, name)
            && r[x].dir == dir && r[x].entries == (if dir then map["." := x, ".." := p] else map[]) && !r[x].unlinked
            && r[x].nlinks == (if dir then 2 else 1) && r[p].nlinks == s[p].nlinks + (if dir then 1 else 0)
            && (forall i :: 0 <= i < |s| && i != p ==> r[i].nlinks == s[i].nlinks)
            && forall i :: 0 <= i < |s| ==> r[i].dir == s[i].dir && r[i].unlinked == s[i].unlinked
  {
    var x, t := |s|, s + [Inode(dir, map[], 0, false)];
    forall i | 0 <= i <= |s|
      ensures var r := Create(s, p, name, dir);
              && r[i].dir == t[i].dir && r[i].unlinked == t[i].unlinked
              && (i < |s| ==> r[i].entries == if i == p then s[i].entries[name := x] else s[i].entries)
              && (i < |s| ==> r[i].nlinks == s[i].nlinks + if i == p && dir then 1 else 0)
    {
      LinkUnderEntries(t, p, x, name, i);
    }
    LinkUnderEntries(t, p, x, name, x);
    var none: map<string, nat> := map[];
    assert none["." := x][".." := p] == map["." := x, ".." := p];
  }

  /** What Unlink returns. */
  lemma {:induction false} UnlinkOutcome(s: Inodes, p: nat, name: string)
    requires Valid(s) && p < |s|
    ensures NodeOk(s, p)
    ensures var out := Unlink(s, p, name).1;
            && (out == Eperm <==> name == "." || name == "..")
            && (out == TypeError <==> Real(name) && name !in s[p].entries)
            && (out == Enotempty <==> Real(name) && name in s[p].entries && s[s[p].entries[name]].dir
                                      && exists n :: n in s[s[p].entries[name]].entries && Real(n))
            && out != Enoent
  {
    assert NodeOk(s, p);
  }

  /**
   A name that is unlinked is gone, and with it the ".." of a directory; no other name changes. The inode has one
   link less, and so has the directory that held a directory; a file is marked when it had only this one.
   */
  lemma {:induction false} UnlinkMeans(s: Inodes, p: nat, name: string)
    requires Valid(s) && p < |s| && NodeOk(s, p) && Unlink(s, p, name).1 == Done
    ensures name in s[p].entries && s[p].entries[name] < |s| && s[p].entries[name] != p
    ensures var r, x := Unlink(s, p, name).0, s[p].entries[name];
            && name !in r[p].entries && (s[x].dir ==> ".." !in r[x].entries)
            && (forall d: nat, n: string, i: nat :: d < |s| && !(d == p && n == name) && !(d == x && s[x].dir && n == "..") ==>
                  (Leads(r, d, n, i) <==> Leads(s, d, n, i)))
            && r[x].nlinks == s[x].nlinks - 1 && r[p].nlinks == s[p].nlinks - (if s[x].dir then 1 else 0)
            && (r[x].unlinked <==> s[x].unlinked || s[x].nlinks == 1)
            && (forall i :: 0 <= i < |s| && i != x && i != p ==> r[i].nlinks == s[i].nlinks)
            && (forall i :: 0 <= i < |s| && i != x ==> r[i].unlinked == s[i].unlinked)
            && forall i :: 0 <= i < |s| ==> r[i].dir == s[i].dir
  {
    var x := s[p].entries[name];
    UnlinkFromEntries(s, p, name, x);
    NotItself(s, p, name);
    forall i | 0 <= i < |s|
      ensures var r := Unlink(s, p, name).0;
              && r[i].dir == s[i].dir && (i != x ==> r[i].unlinked == s[i].unlinked)
              && r[i].entries == (var e := if i == p then s[i].entries - {name} else s[i].entries;
                                  if i == x && s[x].dir then e - {".."} else e)
              && r[i].nlinks == s[i].nlinks - (if i == x then 1 else if i == p && s[x].dir then 1 else 0)
    {
      UnlinkFromEntries(s, p, name, i);
    }
  }

  /** No directory is an entry of itself by another name than ".". */
  lemma {:induction false} NotItself(s: Inodes, p: nat, name: string)
    requires Valid(s) && Unlinkable(s, p, name)
    ensures s[p].entries[name] != p
  {
    assert NodeOk(s, p) && ChildOk(s, p, name);
    if s[p].entries[name] == p {
      assert Attached(s, p) && Parent(s, p) == p && p != 0 && Reaches(s, p);
      var k: nat :| Climbs(s, p, k);
      NeverUp(s, p, k);
    }
  }

  lemma {:induction false} NeverUp(s: Inodes, d: nat, k: nat)
    requires Attached(s, d) && Parent(s, d) == d && d != 0
    ensures !Climbs(s, d, k)
    decreases k
  {
    if k > 0 {
      NeverUp(s, d, k - 1);
    }
  }

  /** In the root, "a" is created twice: the first file has a link too many. */
  lemma {:induction false} CreateTwice()
    ensures var s := Create(Root(), 0, "a", false);
            Valid(s) && Attached(s, 0) && !Valid(Create(s, 0, "a", false))
  {
    RootValid();
    CreateValid(Root(), 0, "a", false);
    var s := Create(Root(), 0, "a", false);
    LinkUnderEntries(Root() + [Inode(false, map[], 0, false)], 0, 1, "a", 0);
    CreateValid(s, 0, "a", false);
  }

  /** IsEmpty: nothing but "." and "..". */
  predicate IsEmpty(s: Inodes, i: nat)
    requires i < |s|
  {
    forall n :: n in s[i].entries ==> !Real(n)
  }

  function MarkUnlinked(s: Inodes, i: nat): Inodes
    requires i < |s|
  {
    s[i := s[i].(unlinked := s[i].unlinked || s[i].nlinks == 0)]
  }

  /** Unlink; for a name that does not exist IsDirectory throws before anything was changed. */
  function Unlink(s: Inodes, p: nat, name: string): (r: (Inodes, Outcome))
    requires p < |s| && NodeOk(s, p)
    ensures |r.0| == |s|
  {
    if !Real(name) then (s, Eperm)
    else if name !in s[p].entries then (s, TypeError)
    else
      var x := s[p].entries[name];
      if s[x].dir && !IsEmpty(s, x) then (s, Enotempty) else (MarkUnlinked(UnlinkFrom(s, p, name), x), Done)
  }

  lemma {:induction false} SameClimb(s: Inodes, r: Inodes, d: nat, k: nat)
    requires |s| == |r| && Climbs(s, d, k) && forall i :: 0 <= i < |s| ==> r[i].entries == s[i].entries && r[i].dir == s[i].dir
    ensures Climbs(r, d, k)
    decreases k
  {
    if d != 0 {
      SameClimb(s, r, Parent(s, d), k - 1);
    }
  }

  /** Marks do not matter for the graph. */
  lemma {:induction false} MarkLinked(s: Inodes, x: nat)
    requires Linked(s) && x < |s|
    ensures Linked(MarkUnlinked(s, x)) && (Rooted(s) ==> Rooted(MarkUnlinked(s, x)))
  {
    var r := MarkUnlinked(s, x);
    forall i | 0 <= i < |r|
      ensures NodeOk(r, i) && Excess(r, i) == 0
    {
      assert NodeOk(s, i) && Excess(s, i) == 0;
      RefsSame(s, r, |s|, i);
    }
    forall d | 0 < d < |r| && Attached(r, d)
      ensures HasChild(r, Parent(r, d), d)
    {
      assert HasChild(s, Parent(s, d), d);
    }
    forall q, n | 0 <= q < |r| && n in r[q].entries
      ensures NodeOk(r, q) && ChildOk(r, q, n) && OnlyName(r, q, n)
    {
      assert NodeOk(s, q) && ChildOk(s, q, n) && OnlyName(s, q, n);
    }
    if Rooted(s) {
      forall d | 0 <= d < |r| && Attached(r, d)
        ensures Reaches(r, d)
      {
        assert Reaches(s, d);
        var k: nat :| Climbs(s, d, k);
        SameClimb(s, r, d, k);
      }
    }
  }

  /** Unlinking takes the parent of x only. */
  lemma {:induction false} UnlinkParents(s: Inodes, p: nat, name: string)
    requires Linked(s) && Unlinkable(s, p, name) && s[p].entries[name] < |s|
    ensures var r, x := UnlinkFrom(s, p, name), s[p].entries[name];
            && SameParents(s, r, x) && (forall d :: 0 <= d < |r| && Attached(r, d) ==> Attached(s, d)) && !Attached(r, x)
            && x != 0 && (s[x].dir ==> Attached(s, x) && Parent(s, x) == p)
  {
    var x := s[p].entries[name];
    forall d | 0 <= d < |s|
      ensures Attached(UnlinkFrom(s, p, name), d) ==> Attached(s, d)
      ensures d != x && Attached(s, d) ==> Attached(UnlinkFrom(s, p, name), d) && Parent(UnlinkFrom(s, p, name), d) == Parent(s, d)
    {
      UnlinkFromEntries(s, p, name, d);
    }
    UnlinkFromEntries(s, p, name, x);
    assert Attached(s, 0);
  }

  /** An empty directory is nobody's parent, and neither is a file. */
  lemma {:induction false} NobodysParent(s: Inodes, x: nat)
    requires Linked(s) && 0 < x < |s| && (s[x].dir ==> IsEmpty(s, x))
    ensures forall d :: 0 <= d < |s| && Attached(s, d) && d != 0 ==> Parent(s, d) != x
  {
    forall d | 0 <= d < |s| && Attached(s, d) && d != 0
      ensures Parent(s, d) != x
    {
      assert HasChild(s, Parent(s, d), d);
      assert NodeOk(s, x);
    }
  }

  lemma {:induction false} UnlinkValid(s: Inodes, p: nat, name: string)
    requires Valid(s) && p < |s|
    ensures NodeOk(s, p) && Valid(Unlink(s, p, name).0)
    ensures Unlink(s, p, name).1 != Done ==> Unlink(s, p, name).0 == s
    ensures Unlink(s, p, name).1 == Done <==> Unlinkable(s, p, name) && (var x := s[p].entries[name]; s[x].dir ==> IsEmpty(s, x))
  {
    assert NodeOk(s, p);
    if Unlink(s, p, name).1 == Done {
      var x := s[p].entries[name];
      var r := UnlinkFrom(s, p, name);
      UnlinkFromLinked(s, p, name);
      UnlinkParents(s, p, name);
      NobodysParent(s, x);
      RootedApart(s, r, x);
      MarkLinked(r, x);
    }
  }

  // ---- Rename ----

  /** unlink_from_dir and then link_under_dir of the same inode. */
  function Move(s: Inodes, p: nat, name: string, q: nat, newName: string): Inodes
    requires p < |s| && q < |s| && name in s[p].entries && s[p].entries[name] < |s|
  {
    LinkUnder(UnlinkFrom(s, p, name), q, s[p].entries[name], newName)
  }

  /** Rename within one filesystem. */
  function Rename(s: Inodes, p: nat, name: string, q: nat, newName: string): (Inodes, Outcome)
    requires p < |s| && q < |s| && NodeOk(s, p) && NodeOk(s, q)
  {
    if p == q && name == newName then (s, Done)
    else if name !in s[p].entries then (s, Enoent)
    else
      var (s1, out) := if newName in s[q].entries then Unlink(s, q, newName) else (s, Done);
      if out != Done then (s1, out) else (LinkUnder(UnlinkFrom(s1, p, name), q, s[p].entries[name], newName), Done)
  }

  lemma {:induction false} MoveLinked(s: Inodes, p: nat, name: string, q: nat, newName: string)
    requires Linked(s) && Unlinkable(s, p, name) && q < |s| && s[q].dir && Real(newName) && newName !in s[q].entries
    ensures s[p].entries[name] < |s| && Linked(Move(s, p, name, q, newName))
    ensures Linkable(UnlinkFrom(s, p, name), q, s[p].entries[name], newName)
  {
    UnlinkFromLinked(s, p, name);
    var x, t := s[p].entries[name], UnlinkFrom(s, p, name);
    UnlinkParents(s, p, name);
    UnlinkFromEntries(s, p, name, q);
    UnlinkFromEntries(s, p, name, x);
    LinkUnderLinked(t, q, x, newName);
  }

  /** What a move does to parents: x gets q, all others keep theirs. */
  lemma {:induction false} MoveParents(s: Inodes, p: nat, name: string, q: nat, newName: string)
    requires Linked(s) && Unlinkable(s, p, name) && q < |s| && s[q].dir && Real(newName) && newName !in s[q].entries
    requires s[p].entries[name] < |s|
    ensures var r, x := Move(s, p, name, q, newName), s[p].entries[name];
            && |r| == |s| && x != 0 && SameParents(s, r, x) && (s[x].dir ==> Attached(s, x) && Attached(r, x) && Parent(r, x) == q)
            && (forall d :: 0 <= d < |r| && Attached(r, d) ==> Attached(s, d))
  {
    var x, t := s[p].entries[name], UnlinkFrom(s, p, name);
    MoveLinked(s, p, name, q, newName);
    UnlinkParents(s, p, name);
    UnlinkFromLinked(s, p, name);
    UnlinkFromEntries(s, p, name, x);
    LinkParents(t, q, x, newName);
  }

  /** A move keeps the tree, unless a directory goes inside itself. */
  lemma {:induction false} MoveRooted(s: Inodes, p: nat, name: string, q: nat, newName: string)
    requires Valid(s) && Unlinkable(s, p, name) && Attached(s, q) && Real(newName) && newName !in s[q].entries
    ensures s[p].entries[name] < |s|
    ensures var r, x := Move(s, p, name, q, newName), s[p].entries[name];
            Linked(r) && (Rooted(r) <==> !(s[x].dir && Inside(s, q, x)))
  {
    MoveLinked(s, p, name, q, newName);
    MoveParents(s, p, name, q, newName);
    var r, x := Move(s, p, name, q, newName), s[p].entries[name];
    if s[x].dir {
      RootedMoved(s, r, x, q);
    } else {
      RootedLinked(s, r, x, q);
    }
  }

  /** Being inside a directory does not change when a leaf is unlinked. */
  lemma {:induction false} SamePasses(s: Inodes, r: Inodes, d: nat, x: nat, e: nat, k: nat)
    requires SameParents(s, r, e) && Attached(s, d) && d != e && |s| == |r|
    requires forall c :: 0 <= c < |r| && Attached(r, c) ==> Attached(s, c)
    requires forall c :: 0 <= c < |s| && Attached(s, c) && c != 0 ==> Parent(s, c) != e
    requires forall c :: 0 <= c < |s| && Attached(s, c) ==> Attached(s, Parent(s, c))
    ensures Passes(s, d, x, k) <==> Passes(r, d, x, k)
    decreases k
  {
    if d != x && d != 0 && k > 0 {
      SamePasses(s, r, Parent(s, d), x, e, k - 1);
    }
  }

  lemma {:induction false} ParentAttached(s: Inodes)
    requires Valid(s)
    ensures forall c :: 0 <= c < |s| && Attached(s, c) ==> Attached(s, Parent(s, c))
  {
    forall c | 0 <= c < |s| && Attached(s, c)
      ensures Attached(s, Parent(s, c))
    {
      assert Reaches(s, c);
      if c != 0 {
        var k: nat :| Climbs(s, c, k);
        assert Climbs(s, Parent(s, c), k - 1);
      }
    }
  }

  lemma {:induction false} SameInside(s: Inodes, r: Inodes, d: nat, x: nat, e: nat)
    requires Valid(s) && SameParents(s, r, e) && Attached(s, d) && d != e && |s| == |r|
    requires forall c :: 0 <= c < |r| && Attached(r, c) ==> Attached(s, c)
    requires forall c :: 0 <= c < |s| && Attached(s, c) && c != 0 ==> Parent(s, c) != e
    ensures Inside(s, d, x) <==> Inside(r, d, x)
  {
    ParentAttached(s);
    if Inside(s, d, x) {
      var k: nat :| Passes(s, d, x, k);
      SamePasses(s, r, d, x, e, k);
    }
    if Inside(r, d, x) {
      var k: nat :| Passes(r, d, x, k);
      SamePasses(s, r, d, x, e, k);
    }
  }

  /** Unlinking what has the new name does not touch what is to be renamed, nor where it goes. */
  lemma {:induction false} TargetRemoved(s: Inodes, p: nat, name: string, q: nat, newName: string, x: nat)
    requires Valid(s) && p < |s| && Attached(s, q) && Real(name) && !(p == q && name == newName)
    requires name in s[p].entries && x == s[p].entries[name] < |s| && newName in s[q].entries
    requires NodeOk(s, q) && Unlink(s, q, newName).1 == Done
    ensures var r := Unlink(s, q, newName).0;
            && |r| == |s| && name in r[p].entries && r[p].entries[name] == x && r[x].dir == s[x].dir
            && Attached(r, q) && Real(newName) && newName !in r[q].entries && (Inside(r, q, x) <==> Inside(s, q, x))
  {
    var e, t, r := s[q].entries[newName], UnlinkFrom(s, q, newName), Unlink(s, q, newName).0;
    UnlinkFromEntries(s, q, newName, p);
    UnlinkFromEntries(s, q, newName, q);
    UnlinkFromEntries(s, q, newName, x);
    UnlinkParents(s, q, newName);
    NobodysParent(s, e);
    assert q != e;
    assert Attached(t, q);
    forall c | 0 <= c < |s|
      ensures Attached(r, c) <==> Attached(t, c)
      ensures Attached(r, c) ==> Parent(r, c) == Parent(t, c)
    {
    }
    SameInside(s, r, q, x, e);
  }

  /** The directory that would be moved inside itself. */
  ghost predicate IntoItself(s: Inodes, p: nat, name: string, q: nat)
    requires p < |s|
  {
    name in s[p].entries && s[p].entries[name] < |s| && s[s[p].entries[name]].dir && Inside(s, q, s[p].entries[name])
  }

  /** The entries of UnlinkFrom, whatever the name. */
  lemma {:induction false} UnlinkFromRaw(s: Inodes, p: nat, name: string, i: nat)
    requires p < |s| && i < |s| && name in s[p].entries && s[p].entries[name] < |s|
    ensures var r, x := UnlinkFrom(s, p, name), s[p].entries[name];
            && r[i].dir == s[i].dir
            && r[i].entries == (var e := if i == p then s[i].entries - {name} else s[i].entries;
                                if i == x && s[x].dir then e - {".."} else e)
  {
  }

  /** A directory that has a name, or is the root, is linked a second time: it has two names then, or the root has one. */
  lemma {:induction false} SecondName(s: Inodes, t: Inodes, q: nat, x: nat, newName: string)
    requires Linked(s) && |t| == |s| && q < |s| && x < |s| && s[x].dir && t[x].dir && Real(newName) && newName !in s[q].entries
    requires forall d, n :: 0 <= d < |s| && Real(n) && n in s[d].entries ==> n in t[d].entries && t[d].entries[n] == s[d].entries[n]
    requires newName !in t[q].entries && (x == 0 || Attached(s, x))
    ensures !Linked(LinkUnder(t, q, x, newName))
  {
    var r := LinkUnder(t, q, x, newName);
    LinkUnderEntries(t, q, x, newName, q);
    LinkUnderEntries(t, q, x, newName, x);
    assert r[q].entries[newName] == x && r[x].dir && Parent(r, x) == q;
    if x != 0 {
      var pp := Parent(s, x);
      assert HasChild(s, pp, x);
      var n :| n in s[pp].entries && s[pp].entries[n] == x && Real(n);
      LinkUnderEntries(t, q, x, newName, pp);
      assert n in t[pp].entries;
      assert r[pp].entries[n] == x;
      if pp == q {
        assert !OnlyName(r, q, newName);
      } else {
        assert !ChildOk(r, pp, n);
      }
    } else {
      assert !ChildOk(r, q, newName);
    }
  }

  /** The one directory without a name to be linked again: an empty one renamed by its "." onto itself. Its count is wrong then. */
  lemma {:induction false} DotOntoItself(s: Inodes, p: nat, q: nat, newName: string)
    requires Linked(s) && p < |s| && q < |s| && s[p].dir && ".." !in s[p].entries && "." in s[p].entries
    requires Real(newName) && newName !in s[q].entries && p != q
    ensures !Linked(LinkUnder(UnlinkFrom(s, p, "."), q, p, newName))
  {
    assert NodeOk(s, p) && Excess(s, p) == 0;
    var s1 := DropEntry(s, p, ".");
    var s2 := AddLinks(s1, p, -1);
    var t := UnlinkFrom(s, p, ".");
    DropEntryExcess(s, p, ".", p);
    AddLinksExcess(s1, p, -1, p);
    assert s2[p].entries - {".."} == s2[p].entries;
    assert DropEntry(s2, p, "..") == s2;
    AddLinksExcess(s2, p, -1, p);
    LinkUnderExcess(t, q, p, newName, p);
    assert Excess(LinkUnder(t, q, p, newName), p) == -1;
  }

  /** Renaming "." or ".." always leaves the graph wrong. */
  lemma {:induction false} RenameDots(s: Inodes, p: nat, name: string, q: nat, newName: string)
    requires Valid(s) && Attached(s, p) && Attached(s, q) && !Real(name) && NodeOk(s, p) && NodeOk(s, q)
    requires !(p == q && name == newName) && Rename(s, p, name, q, newName).1 == Done
    ensures !Linked(Rename(s, p, name, q, newName).0)
  {
    var x := s[p].entries[name];
    var s1 := if newName in s[q].entries then Unlink(s, q, newName).0 else s;
    DotsTarget(s, p, name, q, newName, s1, x);
    if x != 0 && !Attached(s1, x) {
      DotOntoItself(s1, p, q, newName);
    } else {
      NamesStay(s1, p, name);
      SecondName(s1, UnlinkFrom(s1, p, name), q, x, newName);
    }
  }

  /** Unlinking "." or ".." leaves every other name, and adds none. */
  lemma {:induction false} NamesStay(s: Inodes, p: nat, name: string)
    requires Linked(s) && p < |s| && !Real(name)
    ensures var r := UnlinkFrom(s, p, name);
            && |r| == |s| && (forall i :: 0 <= i < |s| ==> r[i].dir == s[i].dir)
            && (forall d, n :: 0 <= d < |s| && n in r[d].entries ==> n in s[d].entries)
            && (forall d, n :: 0 <= d < |s| && Real(n) && n in s[d].entries ==> n in r[d].entries && r[d].entries[n] == s[d].entries[n])
  {
    assert NodeOk(s, p);
    if name in s[p].entries {
      forall i | 0 <= i < |s|
        ensures UnlinkFrom(s, p, name)[i].dir == s[i].dir
        ensures forall n :: n in UnlinkFrom(s, p, name)[i].entries ==> n in s[i].entries
        ensures forall n :: Real(n) && n in s[i].entries
                  ==> n in UnlinkFrom(s, p, name)[i].entries && UnlinkFrom(s, p, name)[i].entries[n] == s[i].entries[n]
      {
        UnlinkFromRaw(s, p, name, i);
      }
    }
  }

  /** What is left to be renamed when "." or ".." is, once the target is gone. */
  lemma {:induction false} DotsTarget(s: Inodes, p: nat, name: string, q: nat, newName: string, s1: Inodes, x: nat)
    requires Valid(s) && Attached(s, p) && Attached(s, q) && !Real(name) && NodeOk(s, p) && NodeOk(s, q)
    requires !(p == q && name == newName) && Rename(s, p, name, q, newName).1 == Done && x == s[p].entries[name]
    requires s1 == if newName in s[q].entries then Unlink(s, q, newName).0 else s
    ensures Linked(s1) && |s1| == |s| && x < |s| && s1[x].dir && Real(newName) && newName !in s1[q].entries
    ensures x != 0 && !Attached(s1, x) ==> name == "." && x == p && p != q && "." in s1[p].entries && ".." !in s1[p].entries
  {
    ParentAttached(s);
    assert Attached(s, x);
    if newName in s[q].entries {
      var e := s[q].entries[newName];
      UnlinkValid(s, q, newName);
      UnlinkFromEntries(s, q, newName, q);
      UnlinkFromEntries(s, q, newName, x);
      UnlinkParents(s, q, newName);
      NobodysParent(s, e);
      assert name == ".." && p != 0 ==> Parent(s, p) == x;
    }
  }

  /**
   Rename: an error changes nothing. A rename of any name but "." and ".." keeps all counts and entries
   consistent; it keeps the tree exactly if it does not move a directory inside itself. Neither is checked.
   */
  lemma {:induction false} RenameValid(s: Inodes, p: nat, name: string, q: nat, newName: string)
    requires Valid(s) && Attached(s, p) && Attached(s, q)
    ensures NodeOk(s, p) && NodeOk(s, q)
    ensures var (r, out) := Rename(s, p, name, q, newName);
            && out != TypeError && (out != Done ==> r == s) && (Real(name) ==> Linked(r))
            && (out == Done && !(p == q && name == newName) ==> (Valid(r) <==> Real(name) && !IntoItself(s, p, name, q)))
            && (out == Enoent <==> name !in s[p].entries && !(p == q && name == newName))
  {
    assert NodeOk(s, p) && NodeOk(s, q);
    if !(p == q && name == newName) && name in s[p].entries && !Real(name) {
      if newName in s[q].entries {
        UnlinkValid(s, q, newName);
      }
      if Rename(s, p, name, q, newName).1 == Done {
        RenameDots(s, p, name, q, newName);
      }
    } else if !(p == q && name == newName) && name in s[p].entries {
      var x := s[p].entries[name];
      if newName in s[q].entries {
        UnlinkValid(s, q, newName);
        if Unlink(s, q, newName).1 == Done {
          TargetRemoved(s, p, name, q, newName, x);
          MoveRooted(Unlink(s, q, newName).0, p, name, q, newName);
        }
      } else {
        assert NodeOk(s, q);
        MoveRooted(s, p, name, q, newName);
      }
    }
  }

  /** Where a name leads. */
  predicate Leads(s: Inodes, d: nat, n: string, i: nat) {
    d < |s| && n in s[d].entries && s[d].entries[n] == i
  }

  lemma {:induction false} MoveEntries(s: Inodes, p: nat, name: string, q: nat, newName: string, d: nat, n: string, i: nat)
    requires Unlinkable(s, p, name) && q < |s| && s[p].entries[name] < |s| && Real(n)
    ensures var r := Move(s, p, name, q, newName);
            Leads(r, d, n, i) <==> if d == q && n == newName then i == s[p].entries[name]
                                   else !(d == p && n == name) && Leads(s, d, n, i)
  {
    if d < |s| {
      UnlinkFromRaw(s, p, name, d);
      LinkUnderEntries(UnlinkFrom(s, p, name), q, s[p].entries[name], newName, d);
    }
  }

  lemma {:induction false} UnlinkEntries(s: Inodes, q: nat, newName: string, d: nat, n: string, i: nat)
    requires Linked(s) && q < |s| && NodeOk(s, q) && Unlink(s, q, newName).1 == Done && Real(n)
    ensures Leads(Unlink(s, q, newName).0, d, n, i) <==> !(d == q && n == newName) && Leads(s, d, n, i)
  {
    if d < |s| {
      UnlinkFromEntries(s, q, newName, d);
    }
  }

  /** A rename that is done: the new name leads where the old one led, which is gone; no other name changes. */
  lemma {:induction false} RenameMeans(s: Inodes, p: nat, name: string, q: nat, newName: string, d: nat, n: string, i: nat)
    requires Valid(s) && Attached(s, p) && Attached(s, q) && Real(name) && Real(n) && !(p == q && name == newName)
    requires NodeOk(s, p) && NodeOk(s, q) && Rename(s, p, name, q, newName).1 == Done
    ensures name in s[p].entries
    ensures var r := Rename(s, p, name, q, newName).0;
            Leads(r, d, n, i) <==> if d == q && n == newName then i == s[p].entries[name]
                                   else !(d == p && n == name) && Leads(s, d, n, i)
  {
    var x := s[p].entries[name];
    if newName in s[q].entries {
      UnlinkValid(s, q, newName);
      TargetRemoved(s, p, name, q, newName, x);
      var s1 := Unlink(s, q, newName).0;
      MoveEntries(s1, p, name, q, newName, d, n, i);
      UnlinkEntries(s, q, newName, d, n, i);
    } else {
      MoveEntries(s, p, name, q, newName, d, n, i);
    }
  }

  /** What Rename returns. */
  lemma {:induction false} RenameOutcome(s: Inodes, p: nat, name: string, q: nat, newName: string)
    requires Valid(s) && Attached(s, p) && Attached(s, q)
    ensures NodeOk(s, p) && NodeOk(s, q)
    ensures var out, goes := Rename(s, p, name, q, newName).1, name in s[p].entries && !(p == q && name == newName);
            && (out == Enoent <==> name !in s[p].entries && !(p == q && name == newName))
            && (out == Eperm <==> goes && (newName == "." || newName == ".."))
            && (out == Enotempty <==> goes && Real(newName) && newName in s[q].entries && s[s[q].entries[newName]].dir
                                      && exists n :: n in s[s[q].entries[newName]].entries && Real(n))
            && out != TypeError
  {
    assert NodeOk(s, p) && NodeOk(s, q);
    UnlinkOutcome(s, q, newName);
  }

  /** A rename changes no kind; only the inode that loses the new name, if it was its last, is marked. */
  lemma {:induction false} RenameKinds(s: Inodes, p: nat, name: string, q: nat, newName: string, i: nat)
    requires Valid(s) && Attached(s, p) && Attached(s, q) && NodeOk(s, p) && NodeOk(s, q) && i < |s|
    requires Rename(s, p, name, q, newName).1 == Done && !(p == q && name == newName)
    ensures var r := Rename(s, p, name, q, newName).0;
            && |r| == |s| && r[i].dir == s[i].dir
            && (r[i].unlinked <==> s[i].unlinked || (Leads(s, q, newName, i) && s[i].nlinks == 1))
  {
    var s1 := if newName in s[q].entries then Unlink(s, q, newName).0 else s;
    if newName in s[q].entries {
      UnlinkMark(s, q, newName, i);
    }
    MovedMark(s1, p, name, q, s[p].entries[name], newName, i);
  }

  lemma {:induction false} UnlinkMark(s: Inodes, p: nat, name: string, i: nat)
    requires Valid(s) && p < |s| && NodeOk(s, p) && Unlink(s, p, name).1 == Done && i < |s|
    ensures var r := Unlink(s, p, name).0;
            r[i].dir == s[i].dir && (r[i].unlinked <==> s[i].unlinked || (Leads(s, p, name, i) && s[i].nlinks == 1))
  {
    UnlinkMeans(s, p, name);
  }

  lemma {:induction false} MovedMark(s: Inodes, p: nat, name: string, q: nat, x: nat, newName: string, i: nat)
    requires p < |s| && q < |s| && x < |s| && i < |s|
    ensures var r := LinkUnder(UnlinkFrom(s, p, name), q, x, newName); r[i].dir == s[i].dir && r[i].unlinked == s[i].unlinked
  {
    LinkUnderEntries(UnlinkFrom(s, p, name), q, x, newName, i);
  }

  /** The root's own "." is renamed to "a": the root is an entry of itself. */
  lemma {:induction false} RenameOwnDot()
    ensures Valid(Root()) && NodeOk(Root(), 0) && Rename(Root(), 0, ".", 0, "a").1 == Done
    ensures Leads(Rename(Root(), 0, ".", 0, "a").0, 0, "a", 0) && !Valid(Rename(Root(), 0, ".", 0, "a").0)
  {
    RootValid();
    RenameValid(Root(), 0, ".", 0, "a");
    LinkUnderEntries(UnlinkFrom(Root(), 0, "."), 0, 0, "a", 0);
  }

  /** In the root, "a" is renamed to "a/b": the directory is its own parent, and leads nowhere. */
  lemma {:induction false} RenameIntoItself()
    ensures var s := Create(Root(), 0, "a", true);
            && Valid(s) && Attached(s, 0) && Attached(s, 1) && NodeOk(s, 0) && NodeOk(s, 1)
            && Rename(s, 0, "a", 1, "b").1 == Done && !Valid(Rename(s, 0, "a", 1, "b").0)
  {
    RootValid();
    CreateValid(Root(), 0, "a", true);
    var s := Create(Root(), 0, "a", true);
    PushLinked(Root(), Inode(true, map[], 0, false));
    LinkUnderEntries(Root() + [Inode(true, map[], 0, false)], 0, 1, "a", 0);
    LinkUnderEntries(Root() + [Inode(true, map[], 0, false)], 0, 1, "a", 1);
    assert "b" !in s[1].entries && s[0].entries["a"] == 1;
    assert Passes(s, 1, 1, 0);
    RenameValid(s, 0, "a", 1, "b");
  }

  // ---- Every run ----

  datatype Op =
    | CreateOp(p: nat, name: string, dir: bool)
    | LinkOp(p: nat, target: nat, name: string)
    | UnlinkOp(p: nat, name: string)
    | RenameOp(p: nat, name: string, q: nat, newName: string)

  /** What callers must see to: attached directories, new names for create and link, and no directory moved inside itself. */
  ghost predicate Allowed(s: Inodes, op: Op) {
    match op
    case CreateOp(p, name, _) => Attached(s, p) && Real(name) && name !in s[p].entries
    case LinkOp(p, t, name) => Attached(s, p) && t < |s| && Real(name) && name !in s[p].entries
    case UnlinkOp(p, name) => Attached(s, p)
    case RenameOp(p, name, q, newName) => Attached(s, p) && Attached(s, q) && Real(name) && !IntoItself(s, p, name, q)
  }

  ghost function Step(s: Inodes, op: Op): Inodes
    requires Valid(s) && Allowed(s, op)
  {
    match op
    case CreateOp(p, name, dir) => Create(s, p, name, dir)
    case LinkOp(p, t, name) => Link(s, p, t, name).0
    case UnlinkOp(p, name) => (assert NodeOk(s, p); Unlink(s, p, name).0)
    case RenameOp(p, name, q, newName) => (assert NodeOk(s, p) && NodeOk(s, q); Rename(s, p, name, q, newName).0)
  }

  lemma {:induction false} StepValid(s: Inodes, op: Op)
    requires Valid(s) && Allowed(s, op)
    ensures Valid(Step(s, op))
  {
    match op
    case CreateOp(p, name, dir) => CreateValid(s, p, name, dir);
    case LinkOp(p, t, name) => LinkValid(s, p, t, name);
    case UnlinkOp(p, name) => UnlinkValid(s, p, name);
    case RenameOp(p, name, q, newName) => RenameValid(s, p, name, q, newName);
  }

  ghost predicate Follows(s: Inodes, op: Op, t: Inodes) {
    Valid(s) ==> Allowed(s, op) && t == Step(s, op)
  }

  /** States that follow one another by allowed operations. */
  ghost predicate IsRun(states: seq<Inodes>, ops: seq<Op>) {
    && |states| == |ops| + 1 && states[0] == Root()
    && forall k :: 0 <= k < |ops| ==> Follows(states[k], ops[k], states[k + 1])
  }

  /** In every state of every run link counts are right and attached directories are a tree. */
  lemma {:induction false} RunValid(states: seq<Inodes>, ops: seq<Op>, k: nat)
    requires IsRun(states, ops) && k < |states|
    ensures Valid(states[k])
  {
    if k == 0 {
      RootValid();
    } else {
      RunValid(states, ops, k - 1);
      assert Follows(states[k - 1], ops[k - 1], states[k - 1 + 1]);
      StepValid(states[k - 1], ops[k - 1]);
    }
  }

  // ---- The filesystem ----

  class FileSystem {
    var inodes: seq<Inode>

    /** The root directory (PushInode without a parent). */
    constructor ()
      ensures inodes == Root() && Valid(inodes)
    {
      inodes := Root();
      RootValid();
    }

    method LinkUnderDir(parentid: nat, idx: nat, name: string)
      requires parentid < |inodes| && idx < |inodes|
      modifies this
      ensures inodes == LinkUnder(old(inodes), parentid, idx, name)
    {
      inodes := inodes[parentid := inodes[parentid].(entries := inodes[parentid].entries[name := idx])];
      inodes := inodes[idx := inodes[idx].(nlinks := inodes[idx].nlinks + 1)];
      if inodes[idx].dir {
        if "." !in inodes[idx].entries {
          inodes := inodes[idx := inodes[idx].(nlinks := inodes[idx].nlinks + 1)];
        }
        inodes := inodes[idx := inodes[idx].(entries := inodes[idx].entries["." := idx])];
        inodes := inodes[idx := inodes[idx].(entries := inodes[idx].entries[".." := parentid])];
        inodes := inodes[parentid := inodes[parentid].(nlinks := inodes[parentid].nlinks + 1)];
      }
    }

    method UnlinkFromDir(parentid: nat, name: string)
      requires parentid < |inodes| && NodeOk(inodes, parentid)
      modifies this
      ensures inodes == UnlinkFrom(old(inodes), parentid, name)
    {
      if name !in inodes[parentid].entries {
        return;
      }
      var idx := inodes[parentid].entries[name];
      inodes := inodes[parentid := inodes[parentid].(entries := inodes[parentid].entries - {name})];
      inodes := inodes[idx := inodes[idx].(nlinks := inodes[idx].nlinks - 1)];
      if inodes[idx].dir {
        inodes := inodes[idx := inodes[idx].(entries := inodes[idx].entries - {".."})];
        inodes := inodes[parentid := inodes[parentid].(nlinks := inodes[parentid].nlinks - 1)];
      }
    }

    /** CreateFile, CreateDirectory and the like, by PushInode. */
    method CreateNode(name: string, parentid: nat, dir: bool) returns (idx: nat)
      requires Valid(inodes) && Attached(inodes, parentid)
      modifies this
      ensures inodes == Create(old(inodes), parentid, name, dir)
      ensures Valid(inodes) <==> Real(name) && name !in old(inodes)[parentid].entries
      ensures idx == |old(inodes)| && Leads(inodes, parentid, name, idx) && inodes[idx].dir == dir
      ensures OtherNamesSame(old(inodes), inodes, parentid, name)
    {
      CreateValid(inodes, parentid, name, dir);
      CreateMeans(inodes, parentid, name, dir);
      idx := |inodes|;
      inodes := inodes + [Inode(dir, map[], 0, false)];
      LinkUnderDir(parentid, idx, name);
    }

    method LinkFile(parentid: nat, targetid: nat, name: string) returns (out: Outcome)
      requires Valid(inodes) && Attached(inodes, parentid) && targetid < |inodes|
      modifies this
      ensures (inodes, out) == Link(old(inodes), parentid, targetid, name)
      ensures if old(inodes)[targetid].dir then out == Eperm && inodes == old(inodes)
              else out == Done && Leads(inodes, parentid, name, targetid) && OtherNamesSame(old(inodes), inodes, parentid, name)
      ensures out == Done ==> (Valid(inodes) <==> Real(name) && name !in old(inodes)[parentid].entries)
    {
      LinkValid(inodes, parentid, targetid, name);
      LinkMeans(inodes, parentid, targetid, name);
      if inodes[targetid].dir {
        return Eperm;
      }
      LinkUnderDir(parentid, targetid, name);
      return Done;
    }

    /** IsEmpty: a look at every name. */
    method IsEmptyDir(idx: nat) returns (empty: bool)
      requires idx < |inodes|
      ensures empty == IsEmpty(inodes, idx)
    {
      var names := inodes[idx].entries.Keys;
      while names != {}
        invariant names <= inodes[idx].entries.Keys
        invariant forall n :: n in inodes[idx].entries && n !in names ==> !Real(n)
        decreases |names|
      {
        var name :| name in names;
        if name != "." && name != ".." {
          return false;
        }
        names := names - {name};
      }
      return true;
    }

    method UnlinkName(parentid: nat, name: string) returns (out: Outcome)
      requires Valid(inodes) && parentid < |inodes|
      modifies this
      ensures Valid(inodes) && NodeOk(old(inodes), parentid) && (inodes, out) == Unlink(old(inodes), parentid, name)
      ensures out != Done ==> inodes == old(inodes)
      ensures out == Done ==> name !in inodes[parentid].entries
    {
      UnlinkValid(inodes, parentid, name);
      if Unlink(inodes, parentid, name).1 == Done {
        UnlinkMeans(inodes, parentid, name);
      }
      if name == "." || name == ".." {
        return Eperm;
      }
      if name !in inodes[parentid].entries {
        return TypeError;
      }
      var idx := inodes[parentid].entries[name];
      if inodes[idx].dir {
        var empty := IsEmptyDir(idx);
        if !empty {
          return Enotempty;
        }
      }
      UnlinkFromDir(parentid, name);
      MarkIfUnlinked(idx);
      return Done;
    }

    /** A file without a name is kept while it is open. */
    method MarkIfUnlinked(idx: nat)
      requires idx < |inodes|
      modifies this
      ensures inodes == MarkUnlinked(old(inodes), idx)
    {
      assert inodes[idx := inodes[idx]] == inodes;
      if inodes[idx].nlinks == 0 {
        inodes := inodes[idx := inodes[idx].(unlinked := true)];
      }
    }

    method RenameNode(olddirid: nat, oldname: string, newdirid: nat, newname: string) returns (out: Outcome)
      requires Valid(inodes) && Attached(inodes, olddirid) && Attached(inodes, newdirid)
      modifies this
      ensures NodeOk(old(inodes), olddirid) && NodeOk(old(inodes), newdirid)
      ensures (inodes, out) == Rename(old(inodes), olddirid, oldname, newdirid, newname)
      ensures (Real(oldname) ==> Linked(inodes)) && (out != Done ==> inodes == old(inodes))
      ensures out == Done && !(olddirid == newdirid && oldname == newname) ==>
                (Valid(inodes) <==> Real(oldname) && !IntoItself(old(inodes), olddirid, oldname, newdirid))
    {
      RenameValid(inodes, olddirid, oldname, newdirid, newname);
      if olddirid == newdirid && oldname == newname {
        return Done;
      }
      if oldname !in inodes[olddirid].entries {
        return Enoent;
      }
      var idx := inodes[olddirid].entries[oldname];
      if newname in inodes[newdirid].entries {
        var ret := UnlinkName(newdirid, newname);
        if ret != Done {
          return ret;
        }
      }
      assert NodeOk(inodes, olddirid);
      UnlinkFromDir(olddirid, oldname);
      LinkUnderDir(newdirid, idx, newname);
      return Done;
    }
  }
}
