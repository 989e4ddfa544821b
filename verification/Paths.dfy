/**
 Paths of directories (lib/filesystem.js): GetFullPath prints the path of an attached directory by
 climbing to the root, SearchPath walks a path down from it.
 */
module Paths {
  import opened Directory

  // ---- Strings ----

  /** path.replace("//", "/"): the first double slash only. */
  function ReplaceFirst(s: string): string {
    if |s| < 2 then s
    else if s[0] == '/' && s[1] == '/' then s[1..]
    else [s[0]] + ReplaceFirst(s[1..])
  }

  /** path.split("/") */
  function Split(s: string): (r: seq<string>)
    ensures r != []
  {
    if s == "" then [""]
    else if s[0] == '/' then [""] + Split(s[1..])
    else
      var r := Split(s[1..]);
      [[s[0]] + r[0]] + r[1..]
  }

  function Trim(walk: seq<string>): seq<string> {
    var a := if walk != [] && walk[|walk| - 1] == "" then walk[..|walk| - 1] else walk;
    if a != [] && a[0] == "" then a[1..] else a
  }

  /** The names that SearchPath walks. */
  function Components(path: string): seq<string> {
    Trim(Split(ReplaceFirst(path)))
  }

  function Join(names: seq<string>): string {
    if names == [] then ""
    else if |names| == 1 then names[0]
    else names[0] + "/" + Join(names[1..])
  }

  /** A name as it can be in a path. */
  predicate Clean(n: string) {
    n != "" && '/' !in n
  }

  predicate AllClean(names: seq<string>) {
    forall k :: 0 <= k < |names| ==> Clean(names[k])
  }

  predicate NoDouble(s: string) {
    forall i :: 0 <= i < |s| - 1 ==> !(s[i] == '/' && s[i + 1] == '/')
  }

  lemma {:induction false} ReplaceNone(s: string)
    requires NoDouble(s)
    ensures ReplaceFirst(s) == s
  {
    if |s| >= 2 {
      assert !(s[0] == '/' && s[0 + 1] == '/');
      forall i | 0 <= i < |s[1..]| - 1
        ensures !(s[1..][i] == '/' && s[1..][i + 1] == '/')
      {
        assert !(s[i + 1] == '/' && s[i + 1 + 1] == '/');
      }
      ReplaceNone(s[1..]);
    }
  }

  lemma {:induction false} JoinSingle(names: seq<string>)
    requires AllClean(names)
    ensures NoDouble(Join(names)) && (names != [] ==> Join(names) != "" && Join(names)[0] != '/')
  {
    if |names| >= 2 {
      JoinSingle(names[1..]);
      var n, rest := names[0], Join(names[1..]);
      var s := n + "/" + rest;
      forall i | 0 <= i < |s| - 1
        ensures !(s[i] == '/' && s[i + 1] == '/')
      {
        if i < |n| {
          assert s[i] == n[i];
        } else if i > |n| {
          assert s[i] == rest[i - |n| - 1] && s[i + 1] == rest[i - |n| - 1 + 1];
        }
      }
      assert s[0] == n[0];
    }
  }

  lemma {:induction false} SplitName(n: string, rest: string)
    requires '/' !in n
    ensures Split(n) == [n] && Split(n + "/" + rest) == [n] + Split(rest)
  {
    if n == "" {
      assert n + "/" + rest == "/" + rest;
    } else {
      SplitName(n[1..], rest);
      var s := n + "/" + rest;
      assert s[0] == n[0] && s[1..] == n[1..] + "/" + rest;
      assert [n[0]] + n[1..] == n;
    }
  }

  lemma {:induction false} SplitJoin(names: seq<string>)
    requires names != [] && AllClean(names)
    ensures Split(Join(names)) == names
  {
    if |names| == 1 {
      SplitName(names[0], "");
    } else {
      SplitJoin(names[1..]);
      SplitName(names[0], Join(names[1..]));
    }
  }

  /** A path of clean names is walked name by name. */
  lemma {:induction false} ComponentsOfJoin(names: seq<string>)
    requires AllClean(names)
    ensures Components(Join(names)) == names
  {
    JoinSingle(names);
    ReplaceNone(Join(names));
    if names != [] {
      SplitJoin(names);
      assert Clean(names[0]) && Clean(names[|names| - 1]);
    }
  }

  /** Splitting takes a string apart at its slashes, and nothing else. */
  lemma {:induction false} SplitMeans(s: string)
    ensures Join(Split(s)) == s && forall k :: 0 <= k < |Split(s)| ==> '/' !in Split(s)[k]
  {
    if s != "" {
      SplitMeans(s[1..]);
      var r := Split(s[1..]);
      if s[0] == '/' {
        assert ([""] + r)[1..] == r;
        assert Join([""] + r) == "/" + Join(r);
      } else {
        JoinFirst(s[0], r);
      }
    }
  }

  lemma {:induction false} JoinFirst(c: char, r: seq<string>)
    requires r != []
    ensures Join([[c] + r[0]] + r[1..]) == [c] + Join(r)
  {
    var t := [[c] + r[0]] + r[1..];
    assert t[1..] == r[1..];
    if |r| > 1 {
      assert [c] + r[0] + "/" + Join(r[1..]) == [c] + (r[0] + "/" + Join(r[1..]));
    }
  }

  /** Only the first double slash is replaced. */
  lemma {:induction false} ReplaceOne(a: string, b: string)
    requires NoDouble(a + "/")
    ensures ReplaceFirst(a + "//" + b) == a + "/" + b
  {
    if a == "" {
      assert (a + "//" + b)[1..] == "/" + b;
    } else {
      var s := a + "//" + b;
      assert (a + "/")[0] == a[0] && (a + "/")[1] == s[1] && s[0] == a[0];
      assert !((a + "/")[0] == '/' && (a + "/")[0 + 1] == '/');
      assert s[1..] == a[1..] + "//" + b;
      NoDoubleTail(a);
      ReplaceOne(a[1..], b);
      assert [a[0]] + (a[1..] + "/" + b) == a + "/" + b;
    }
  }

  lemma {:induction false} NoDoubleTail(a: string)
    requires a != "" && NoDouble(a + "/")
    ensures NoDouble(a[1..] + "/")
  {
    var s, t := a + "/", a[1..] + "/";
    forall i | 0 <= i < |t| - 1
      ensures !(t[i] == '/' && t[i + 1] == '/')
    {
      assert t[i] == s[i + 1] && t[i + 1] == s[i + 1 + 1];
    }
  }

  /** The end of a path is no slash. */
  lemma {:induction false} JoinEnd(names: seq<string>)
    requires AllClean(names) && names != []
    ensures Join(names) != "" && Join(names)[|Join(names)| - 1] != '/' && NoDouble(Join(names) + "/") && Split(Join(names) + "/") == names + [""]
  {
    JoinSingle(names);
    var p := Join(names);
    if |names| == 1 {
      SplitName(names[0], "");
      assert names[0] + "/" + "" == names[0] + "/";
    } else {
      var rest := Join(names[1..]);
      JoinEnd(names[1..]);
      SplitName(names[0], rest + "/");
      assert p + "/" == names[0] + "/" + (rest + "/");
      assert p[|p| - 1] == rest[|rest| - 1];
      assert [names[0]] + (names[1..] + [""]) == names + [""];
    }
    forall i | 0 <= i < |p + "/"| - 1
      ensures !((p + "/")[i] == '/' && (p + "/")[i + 1] == '/')
    {
      if i < |p| - 1 {
        assert (p + "/")[i] == p[i] && (p + "/")[i + 1] == p[i + 1];
      } else {
        assert (p + "/")[i] == p[|p| - 1];
      }
    }
  }

  /** One slash before and one after the names do not matter. */
  lemma {:induction false} ComponentsAround(names: seq<string>)
    requires AllClean(names) && names != []
    ensures Components("/" + Join(names)) == names && Components(Join(names) + "/") == names
    ensures Components("/" + Join(names) + "/") == names && Components("") == [] && Components("/") == []
  {
    SlashFirst(names);
    SlashLast(names);
    SlashBoth(names);
    OnlySlash();
  }

  lemma {:induction false} OnlySlash()
    ensures Components("") == [] && Components("/") == []
  {
    assert ReplaceFirst("/") == "/" && Split("/") == ["", ""] && Split("") == [""];
  }

  lemma {:induction false} SlashFirst(names: seq<string>)
    requires AllClean(names) && names != []
    ensures Components("/" + Join(names)) == names
  {
    JoinSingle(names);
    SplitJoin(names);
    SlashBefore(Join(names));
    ReplaceNone("/" + Join(names));
    TrimAround(names);
  }

  lemma {:induction false} SlashLast(names: seq<string>)
    requires AllClean(names) && names != []
    ensures Components(Join(names) + "/") == names
  {
    JoinEnd(names);
    ReplaceNone(Join(names) + "/");
    TrimAround(names);
  }

  lemma {:induction false} SlashBoth(names: seq<string>)
    requires AllClean(names) && names != []
    ensures Components("/" + Join(names) + "/") == names
  {
    var p := Join(names) + "/";
    JoinSingle(names);
    JoinEnd(names);
    SlashBefore(p);
    ReplaceNone("/" + p);
    assert "/" + Join(names) + "/" == "/" + p;
    TrimAround(names);
  }

  lemma {:induction false} TrimAround(names: seq<string>)
    requires AllClean(names) && names != []
    ensures Trim([""] + names) == names && Trim(names + [""]) == names && Trim([""] + (names + [""])) == names
  {
    assert Clean(names[0]) && Clean(names[|names| - 1]);
    var a, b := [""] + names, [""] + (names + [""]);
    assert a[|a| - 1] == names[|names| - 1] && b[..|b| - 1] == a && a[1..] == names;
    assert (names + [""])[..|names|] == names;
  }

  lemma {:induction false} SlashBefore(p: string)
    requires NoDouble(p) && p != "" && p[0] != '/'
    ensures NoDouble("/" + p) && Split("/" + p) == [""] + Split(p)
  {
    var s := "/" + p;
    assert s[1..] == p;
    forall i | 0 <= i < |s| - 1
      ensures !(s[i] == '/' && s[i + 1] == '/')
    {
      if i > 0 {
        assert s[i] == p[i - 1] && s[i + 1] == p[i - 1 + 1];
      }
    }
  }

  /** One double slash is as good as a single one. */
  lemma {:induction false} ComponentsDouble(a: seq<string>, b: seq<string>)
    requires AllClean(a) && AllClean(b) && a != [] && b != []
    ensures Components(Join(a) + "//" + Join(b)) == a + b
  {
    JoinEnd(a);
    ReplaceOne(Join(a), Join(b));
    JoinBoth(a, b);
    SplitJoin(a + b);
    assert Clean((a + b)[0]) && Clean((a + b)[|a + b| - 1]);
  }

  lemma {:induction false} JoinBoth(a: seq<string>, b: seq<string>)
    requires a != [] && b != []
    ensures Join(a + b) == Join(a) + "/" + Join(b)
  {
    assert (a + b)[1..] == a[1..] + b;
    if |a| > 1 {
      JoinBoth(a[1..], b);
      assert a[0] + "/" + (Join(a[1..]) + "/" + Join(b)) == a[0] + "/" + Join(a[1..]) + "/" + Join(b);
    } else {
      assert a[1..] + b == b;
    }
  }

  // ---- Walking down ----

  function Search(s: Inodes, d: nat, name: string): int
    requires d < |s|
  {
    if name in s[d].entries then s[d].entries[name] else -1
  }

  /** Where the names lead from d, or -1. */
  function Walk(s: Inodes, d: nat, names: seq<string>): int
    requires d < |s| && forall i :: 0 <= i < |s| ==> NodeOk(s, i)
  {
    if names == [] then d
    else
      var up := Walk(s, d, names[..|names| - 1]);
      if up < 0 || up >= |s| then -1 else Search(s, up, names[|names| - 1])
  }

  lemma {:induction false} WalkInRange(s: Inodes, d: nat, names: seq<string>)
    requires d < |s| && forall i :: 0 <= i < |s| ==> NodeOk(s, i)
    ensures -1 <= Walk(s, d, names) < |s|
  {
    if names != [] {
      WalkInRange(s, d, names[..|names| - 1]);
      var up := Walk(s, d, names[..|names| - 1]);
      if up >= 0 {
        assert NodeOk(s, up);
      }
    }
  }

  /** Once a name is not found, the whole path is not. */
  lemma {:induction false} WalkLost(s: Inodes, d: nat, names: seq<string>, k: nat)
    requires d < |s| && (forall i :: 0 <= i < |s| ==> NodeOk(s, i)) && k <= |names| && Walk(s, d, names[..k]) == -1
    ensures Walk(s, d, names) == -1
  {
    if k < |names| {
      WalkLost(s, d, names[..|names| - 1], k) by {
        assert names[..|names| - 1][..k] == names[..k];
      }
    } else {
      assert names[..k] == names;
    }
  }

  // ---- Climbing up ----

  /** The name of a directory in its parent. */
  ghost function NameOf(s: Inodes, d: nat): (n: string)
    requires Linked(s) && d != 0 && Attached(s, d)
    ensures Parent(s, d) < |s| && Real(n) && Leads(s, Parent(s, d), n, d)
  {
    assert HasChild(s, Parent(s, d), d);
    var n :| n in s[Parent(s, d)].entries && s[Parent(s, d)].entries[n] == d && Real(n);
    n
  }

  /** The names on the way from the root to d. */
  ghost function Path(s: Inodes, d: nat, k: nat): seq<string>
    requires Linked(s) && Climbs(s, d, k)
    decreases k
  {
    if d == 0 then [] else Path(s, Parent(s, d), k - 1) + [NameOf(s, d)]
  }

  lemma {:induction false} PathDown(s: Inodes, d: nat, k: nat)
    requires Linked(s) && Climbs(s, d, k)
    ensures Walk(s, 0, Path(s, d, k)) == d
    decreases k
  {
    if d != 0 {
      PathDown(s, Parent(s, d), k - 1);
      var names := Path(s, d, k);
      assert names[..|names| - 1] == Path(s, Parent(s, d), k - 1) && names[|names| - 1] == NameOf(s, d);
    }
  }

  predicate AllReal(names: seq<string>) {
    forall k :: 0 <= k < |names| ==> Real(names[k])
  }

  /** Names other than "." and ".." that lead to a directory are its path. */
  lemma {:induction false} PathUp(s: Inodes, names: seq<string>, d: nat, k: nat)
    requires Linked(s) && AllReal(names) && d < |s| && Walk(s, 0, names) == d && Climbs(s, d, k)
    ensures Path(s, d, k) == names
    decreases k
  {
    if names != [] {
      var front, n := names[..|names| - 1], names[|names| - 1];
      var p := LastStep(s, names, d);
      NamedInParent(s, p, n, d);
      PathUp(s, front, p, k - 1);
      assert front + [n] == names;
    }
  }

  /** The directory in which the last name is looked up. */
  lemma {:induction false} LastStep(s: Inodes, names: seq<string>, d: nat) returns (p: nat)
    requires Shape(s) && names != [] && Walk(s, 0, names) == d
    ensures p < |s| && Walk(s, 0, names[..|names| - 1]) == p && Leads(s, p, names[|names| - 1], d)
  {
    var front := names[..|names| - 1];
    WalkInRange(s, 0, front);
    p := Walk(s, 0, front);
  }

  /** A directory is named in its parent, once. */
  lemma {:induction false} NamedInParent(s: Inodes, p: nat, n: string, d: nat)
    requires Linked(s) && p < |s| && Leads(s, p, n, d) && Real(n) && Attached(s, d)
    ensures d != 0 && Parent(s, d) == p && NameOf(s, d) == n
  {
    assert NodeOk(s, p) && ChildOk(s, p, n) && OnlyName(s, p, n);
  }

  // ---- GetFullPath and SearchPath ----

  /** No directory is its own parent, or the parent of its parent. */
  lemma {:induction false} NoShortLoop(s: Inodes, d: nat, k: nat)
    requires Climbs(s, d, k) && d != 0
    ensures Parent(s, d) != d && Attached(s, Parent(s, d)) && (Parent(s, d) != 0 ==> Parent(s, Parent(s, d)) != d)
    decreases k
  {
    var p := Parent(s, d);
    assert Climbs(s, p, k - 1);
    if p == d {
      NoShortLoop(s, d, k - 1);
    } else if p != 0 && Parent(s, p) == d {
      NoShortLoop(s, d, k - 2);
    }
  }

  /** Any entry of its parent that leads to a directory is its name. */
  lemma {:induction false} OneName(s: Inodes, d: nat, k: nat, n: string)
    requires Linked(s) && Climbs(s, d, k) && d != 0 && Leads(s, Parent(s, d), n, d)
    ensures n == NameOf(s, d)
  {
    var p := Parent(s, d);
    NoShortLoop(s, d, k);
    assert NodeOk(s, p) && OnlyName(s, p, n);
    assert Real(n);
  }

  /** The root is an entry of itself as "." and "..", and by no other name. */
  lemma {:induction false} RootNames(s: Inodes, n: string)
    requires Linked(s) && Leads(s, 0, n, 0)
    ensures !Real(n)
  {
    assert NodeOk(s, 0) && ChildOk(s, 0, n);
  }

  /** GetDirectoryName: the first entry of the parent, in any order, that leads to the directory. */
  method GetDirectoryName(s: Inodes, idx: nat, ghost k: nat) returns (name: string)
    requires Linked(s) && Climbs(s, idx, k)
    ensures idx != 0 ==> name == NameOf(s, idx)
    ensures idx == 0 ==> name in {".", ".."}
  {
    var parent := s[idx].entries[".."];
    ghost var n := if idx == 0 then ".." else NameOf(s, idx);
    var names := s[parent].entries.Keys;
    while true
      invariant names <= s[parent].entries.Keys && n in names
      decreases |names|
    {
      name :| name in names;
      if s[parent].entries[name] == idx {
        if idx == 0 {
          RootNames(s, name);
        } else {
          OneName(s, idx, k, name);
        }
        return;
      }
      names := names - {name};
    }
  }

  /** Each name with a slash before it. */
  function Slashed(names: seq<string>): string {
    if names == [] then "" else "/" + names[0] + Slashed(names[1..])
  }

  lemma {:induction false} SlashedIsJoin(names: seq<string>)
    ensures Slashed(names) == if names == [] then "" else "/" + Join(names)
  {
    if |names| >= 1 {
      SlashedIsJoin(names[1..]);
      if |names| >= 2 {
        assert "/" + names[0] + ("/" + Join(names[1..])) == "/" + (names[0] + "/" + Join(names[1..]));
      } else {
        assert "/" + names[0] + "" == "/" + names[0];
      }
    }
  }

  lemma {:induction false} SlashedMore(name: string, names: seq<string>)
    ensures Slashed([name] + names) == "/" + name + Slashed(names)
  {
    assert ([name] + names)[1..] == names;
  }

  lemma {:induction false} PathStep(s: Inodes, d: nat, k: nat, name: string, done: seq<string>)
    requires Linked(s) && Climbs(s, d, k) && d != 0 && name == NameOf(s, d)
    ensures Climbs(s, Parent(s, d), k - 1) && Path(s, d, k) + done == Path(s, Parent(s, d), k - 1) + ([name] + done)
  {
  }

  /** substring(1) */
  function Tail(path: string): string {
    if path == "" then "" else path[1..]
  }

  /** GetFullPath: the names from the root down; the way up ends there. */
  method GetFullPath(s: Inodes, idx: nat, ghost steps: nat) returns (path: string)
    requires Linked(s) && Climbs(s, idx, steps)
    ensures path == Join(Path(s, idx, steps))
  {
    path := "";
    var d := idx;
    ghost var k, done, all := steps, [], Path(s, idx, steps);
    assert all == all + done;
    while d != 0
      invariant Climbs(s, d, k) && all == Path(s, d, k) + done && path == Slashed(done)
      decreases k
    {
      var name := GetDirectoryName(s, d, k);
      PathStep(s, d, k, name, done);
      SlashedMore(name, done);
      path := "/" + name + path;
      done := [name] + done;
      d, k := s[d].entries[".."], k - 1;
    }
    assert Path(s, d, k) + done == done;
    SlashedIsJoin(done);
    path := Tail(path);
  }

  /** What SearchPath returns: the inode and its parent, or -1, and the name that was not found. */
  datatype Result = Result(id: int, parentid: int, missing: seq<string>)

  /** Name i is the first that is not found. */
  predicate FirstMissing(s: Inodes, walk: seq<string>, i: int)
    requires |s| > 0 && forall j :: 0 <= j < |s| ==> NodeOk(s, j)
  {
    0 <= i < |walk| && Walk(s, 0, walk[..i]) >= 0 && Walk(s, 0, walk[..i + 1]) == -1
  }

  method SearchPath(s: Inodes, path: string) returns (r: Result)
    requires |s| > 0 && forall i :: 0 <= i < |s| ==> NodeOk(s, i)
    ensures var walk := Components(path);
            && r.id == Walk(s, 0, walk)
            && r.parentid == (if walk == [] then -1 else Walk(s, 0, walk[..|walk| - 1]))
            && (r.id == -1 ==> exists i :: FirstMissing(s, walk, i) && r.missing == [walk[i]])
            && (r.id >= 0 ==> r.missing == [])
  {
    var walk := Components(path);
    var parentid, id: int := -1, 0;
    var i := 0;
    while i < |walk|
      invariant 0 <= i <= |walk| && 0 <= id < |s| && id == Walk(s, 0, walk[..i])
      invariant parentid == if i == 0 then -1 else Walk(s, 0, walk[..i - 1])
    {
      parentid := id;
      id := Search(s, parentid, walk[i]);
      assert walk[..i + 1][..i] == walk[..i];
      assert id == Walk(s, 0, walk[..i + 1]);
      assert NodeOk(s, parentid);
      if id == -1 {
        WalkLost(s, 0, walk, i + 1);
        assert FirstMissing(s, walk, i);
        if i < |walk| - 1 {
          assert walk[..|walk| - 1][..i + 1] == walk[..i + 1];
          WalkLost(s, 0, walk[..|walk| - 1], i + 1);
          return Result(-1, -1, [walk[i]]);
        }
        return Result(-1, parentid, [walk[i]]);
      }
      i := i + 1;
    }
    assert walk[..|walk|] == walk;
    return Result(id, parentid, []);
  }

  ghost predicate CleanNames(s: Inodes) {
    forall d, n :: 0 <= d < |s| && n in s[d].entries && Real(n) ==> Clean(n)
  }

  lemma {:induction false} PathClean(s: Inodes, d: nat, k: nat)
    requires Linked(s) && Climbs(s, d, k) && CleanNames(s)
    ensures AllClean(Path(s, d, k)) && AllReal(Path(s, d, k))
    decreases k
  {
    if d != 0 {
      PathClean(s, Parent(s, d), k - 1);
      assert Clean(NameOf(s, d));
    }
  }

  /** Searching for the path that is printed finds the directory. */
  lemma {:induction false} PrintThenSearch(s: Inodes, d: nat, k: nat)
    requires Linked(s) && Climbs(s, d, k) && CleanNames(s)
    ensures Walk(s, 0, Components(Join(Path(s, d, k)))) == d
  {
    PathClean(s, d, k);
    ComponentsOfJoin(Path(s, d, k));
    PathDown(s, d, k);
  }

  /** The path of a directory that was searched for is the one that was given. */
  lemma {:induction false} SearchThenPrint(s: Inodes, names: seq<string>, d: nat, k: nat)
    requires Linked(s) && AllReal(names) && AllClean(names) && d < |s|
    requires Walk(s, 0, Components(Join(names))) == d && Climbs(s, d, k)
    ensures Join(Path(s, d, k)) == Join(names)
  {
    ComponentsOfJoin(names);
    PathUp(s, names, d, k);
  }

  /** Every attached directory of a valid filesystem has a path, which leads back to it by way of its parent. */
  method FullPathRoundTrip(s: Inodes, d: nat) returns (path: string, r: Result)
    requires Valid(s) && Attached(s, d) && CleanNames(s)
    ensures exists k: nat :: Climbs(s, d, k) && path == Join(Path(s, d, k))
    ensures r == Result(d, if d == 0 then -1 else Parent(s, d), [])
  {
    ghost var k: nat :| Reaches(s, d) && Climbs(s, d, k);
    path := GetFullPath(s, d, k);
    PrintThenSearch(s, d, k);
    PathClean(s, d, k);
    ComponentsOfJoin(Path(s, d, k));
    if d != 0 {
      PathDown(s, Parent(s, d), k - 1);
      PathFront(s, d, k);
    }
    r := SearchPath(s, path);
  }

  lemma {:induction false} PathFront(s: Inodes, d: nat, k: nat)
    requires Linked(s) && Climbs(s, d, k) && d != 0
    ensures var path := Path(s, d, k); path != [] && path[..|path| - 1] == Path(s, Parent(s, d), k - 1)
  {
  }
}
