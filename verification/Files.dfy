/**
 File contents of the in-memory filesystem (lib/filesystem.js) and the read request of the 9P server
 (lib/9p.js). A file has an over-allocated buffer, no buffer, or a copy on storage.
 */
module Files {
  import opened Options
  import opened Numbers
  import opened Bytes

  /** Cut or filled with zeros. */
  function Resized(c: seq<byte>, n: nat): (r: seq<byte>)
    ensures |r| == n
  {
    if n <= |c| then c[..n] else c + Zeros(n - |c|)
  }

  /** Every byte of a resized file is the old one, or zero. */
  lemma {:induction false} ResizedMeans(c: seq<byte>, n: nat, k: nat)
    requires k < n
    ensures Resized(c, n)[k] == if k < |c| then c[k] else 0
  {
  }

  /** Resized to more than is needed, and cut. */
  lemma {:induction false} ResizedCut(c: seq<byte>, more: nat, n: nat)
    requires n <= more
    ensures Resized(c, more)[..n] == Resized(c, n)
  {
  }

  /** A buffer that has zeros after the file holds the file resized. */
  lemma {:induction false} ResizedIn(c: seq<byte>, buffer: seq<byte>, n: nat)
    requires |c| <= n <= |buffer| && buffer[..|c|] == c && forall k :: |c| <= k < |buffer| ==> buffer[k] == 0
    ensures buffer[..n] == Resized(c, n)
  {
    assert forall k :: 0 <= k < |c| ==> buffer[..|c|][k] == buffer[k];
  }

  /** What a write of `count` bytes makes of a file; a buffer may be shorter, or missing. */
  function Written(c: seq<byte>, offset: nat, count: nat, buffer: seq<byte>): (r: seq<byte>)
    ensures |r| == Max(|c|, offset + count)
  {
    var base := Resized(c, Max(|c|, offset + count));
    var n := Min(count, |buffer|);
    base[..offset] + buffer[..n] + base[offset + n..]
  }

  lemma {:induction false} NothingWritten(offset: nat, count: nat, buffer: seq<byte>)
    requires offset + count == 0
    ensures Written([], offset, count, buffer) == []
  {
  }

  /** A typed array's subarray: the bounds are cut to the array. */
  function Sub(s: seq<byte>, lo: nat, hi: nat): seq<byte>
    requires lo <= hi
  {
    s[Min(lo, |s|)..Min(hi, |s|)]
  }

  /** Every byte of a written file: from the buffer, from the old contents, or zero. */
  lemma {:induction false} WrittenMeans(c: seq<byte>, offset: nat, count: nat, buffer: seq<byte>, k: nat)
    requires k < |Written(c, offset, count, buffer)|
    ensures Written(c, offset, count, buffer)[k] ==
              if offset <= k < offset + count && k - offset < |buffer| then buffer[k - offset]
              else if k < |c| then c[k] else 0
  {
  }

  /** A write can be read back, and a second write of the same bytes changes nothing. */
  lemma {:induction false} WriteThenRead(c: seq<byte>, offset: nat, buffer: seq<byte>)
    ensures var r := Written(c, offset, |buffer|, buffer);
            r[offset..offset + |buffer|] == buffer && Written(r, offset, |buffer|, buffer) == r
  {
    var r := Written(c, offset, |buffer|, buffer);
    assert Resized(r, |r|) == r;
    assert r[offset..offset + |buffer|] == buffer;
  }

  /** Part of a file: all that is asked for of the file, then perhaps zeros, but no more than is asked for. */
  ghost predicate PartOf(c: seq<byte>, offset: nat, count: nat, part: seq<byte>) {
    && Sub(c, offset, offset + count) <= part && |part| <= count
    && forall k :: |Sub(c, offset, offset + count)| <= k < |part| ==> part[k] == 0
  }

  /** What is in a buffer that has only zeros after the file. */
  lemma {:induction false} SubOfBuffer(c: seq<byte>, buffer: seq<byte>, offset: nat, count: nat)
    requires c <= buffer && forall k :: |c| <= k < |buffer| ==> buffer[k] == 0
    ensures PartOf(c, offset, count, Sub(buffer, offset, offset + count))
  {
    var part := Sub(buffer, offset, offset + count);
    var n := |Sub(c, offset, offset + count)|;
    assert forall k :: 0 <= k < |part| ==> part[k] == buffer[offset + k];
    assert Sub(c, offset, offset + count) == part[..n];
    forall k | n <= k < |part|
      ensures part[k] == 0
    {
      assert part[k] == buffer[offset + k];
    }
  }

  /** A buffer that may be missing. */
  function Given(buffer: Option<seq<byte>>): seq<byte> {
    match buffer
    case Some(bytes) => bytes
    case None => []
  }

  datatype Op = WriteOp(offset: nat, count: nat, buffer: Option<seq<byte>>) | SizeOp(size: nat)

  function Apply(c: seq<byte>, op: Op): seq<byte> {
    match op
    case WriteOp(offset, count, buffer) => Written(c, offset, count, Given(buffer))
    case SizeOp(n) => Resized(c, n)
  }

  function After(c: seq<byte>, ops: seq<Op>): seq<byte> {
    if ops == [] then c else Apply(After(c, ops[..|ops| - 1]), ops[|ops| - 1])
  }

  class File {
    var size: nat
    /** inodedata */
    var data: array?<byte>
    /** The contents on storage, while the status is STATUS_ON_STORAGE. */
    var onStorage: bool
    var stored: seq<byte>

    /** The buffer holds the file, and only zeros beyond it. */
    ghost predicate Valid()
      reads this, data
    {
      if data != null then !onStorage && size <= data.Length && forall k :: size <= k < data.Length ==> data[k] == 0
      else if onStorage then |stored| == size
      else size == 0
    }

    ghost function Contents(): (c: seq<byte>)
      requires Valid()
      reads this, data
      ensures |c| == size
    {
      if data != null then data[..size] else if onStorage then stored else []
    }

    /** CreateFile: no data yet. */
    constructor ()
      ensures Valid() && Contents() == []
    {
      size, data, onStorage, stored := 0, null, false, [];
    }

    /** A file whose contents are on storage. */
    constructor OnStorage(contents: seq<byte>)
      ensures Valid() && Contents() == contents
    {
      size, data, onStorage, stored := |contents|, null, true, contents;
    }

    /** CreateBinaryFile and CreateTextFile. */
    constructor Binary(contents: seq<byte>)
      ensures Valid() && Contents() == contents && fresh(data)
    {
      var a := new byte[|contents|](i requires 0 <= i < |contents| => contents[i]);
      assert a[..] == contents;
      size, data, onStorage, stored := |contents|, a, false, [];
    }

    method GetBuffer() returns (buffer: array?<byte>)
      requires Valid()
      ensures data != null ==> buffer == data
      ensures data == null ==> (buffer == null <==> !onStorage) && (buffer != null ==> fresh(buffer) && buffer[..] == Contents())
    {
      if data != null {
        return data;
      }
      if !onStorage {
        return null;
      }
      var contents := stored;
      buffer := new byte[|contents|](i requires 0 <= i < |contents| => contents[i]);
      assert buffer[..] == contents;
    }

    /** get_data: what is asked for of the file, and zeros after its end only if the buffer has more. */
    method GetData(offset: nat, count: nat) returns (some: bool, part: seq<byte>)
      requires Valid()
      ensures some <==> data != null || onStorage
      ensures PartOf(Contents(), offset, count, part)
      ensures data == null || offset + count <= size ==> part == Sub(Contents(), offset, offset + count)
    {
      if data != null {
        SubOfBuffer(Contents(), data[..], offset, count);
        return true, Sub(data[..], offset, offset + count);
      }
      if onStorage {
        return true, Sub(stored, offset, offset + count);
      }
      return false, [];
    }

    method SetData(buffer: array<byte>)
      modifies this`data, this`onStorage
      ensures data == buffer && !onStorage
    {
      data := buffer;
      onStorage := false;
    }

    /** ChangeSize: the file is cut, or filled with zeros. */
    method ChangeSize(newsize: nat)
      requires Valid()
      modifies this
      ensures Valid() && size == newsize && Contents() == Resized(old(Contents()), newsize)
      ensures newsize == old(size) ==> unchanged(this)
      ensures newsize != old(size) ==> fresh(data) && data.Length == newsize
    {
      ghost var c := Contents();
      var some, temp := GetData(0, size);
      assert temp == c;
      if newsize == size {
        return;
      }
      var buffer := new byte[newsize](_ => 0);
      size := newsize;
      if some {
        var n := Min(|temp|, size);
        CopyTo(temp, n, buffer, 0);
      }
      SetData(buffer);
      assert buffer[..] == Resized(c, newsize);
    }

    /** The buffer that a write goes to: large enough, and half as much again if it has to be a new one. */
    method Reserve(end: nat) returns (buffer: array?<byte>)
      requires Valid()
      modifies this
      ensures buffer == null <==> end == 0 && old(data) == null && !old(onStorage)
      ensures buffer == null ==> unchanged(this)
      ensures buffer != null ==>
                && size == Max(old(size), end) && size <= buffer.Length && (buffer == old(data) || fresh(buffer))
                && buffer[..size] == Resized(old(Contents()), size)
                && (data == null || data == buffer)
                && forall k :: size <= k < buffer.Length ==> buffer[k] == 0
    {
      ghost var c := Contents();
      var b := GetBuffer();
      if b == null || b.Length < end {
        ChangeSize(end * 3 / 2);
        ResizedCut(c, end * 3 / 2, end);
        size := end;
        buffer := data;
      } else {
        if size < end {
          size := end;
        }
        ResizedIn(c, b[..], size);
        assert b[..][..size] == b[..size];
        buffer := b;
      }
    }

    /**
     Write: bytes of the buffer from offset on, zeros between the end of the file and offset. To write nothing
     at the start of a file that has no data throws, unless the buffer is missing too.
     */
    method Write(offset: nat, count: nat, buffer: Option<seq<byte>>) returns (thrown: bool)
      requires Valid()
      modifies this, data
      ensures Valid() && Contents() == Written(old(Contents()), offset, count, Given(buffer))
      ensures data == old(data) || fresh(data)
      ensures thrown <==> offset + count == 0 && old(data) == null && !old(onStorage) && buffer.Some?
    {
      ghost var c := Contents();
      var target := Reserve(offset + count);
      if target == null {
        NothingWritten(offset, count, Given(buffer));
        return buffer.Some?;
      }
      Store(target, offset, count, Given(buffer), c);
      return false;
    }

    /** The bytes of a write go to the buffer, which becomes the file's. */
    method Store(target: array<byte>, offset: nat, count: nat, buffer: seq<byte>, ghost c: seq<byte>)
      requires size == Max(|c|, offset + count) <= target.Length && target[..size] == Resized(c, size)
      requires forall k :: size <= k < target.Length ==> target[k] == 0
      modifies this`data, this`onStorage, target
      ensures Valid() && Contents() == Written(c, offset, count, buffer) && data == target
    {
      PutInto(c, target, offset, count, buffer);
      SetData(target);
    }

    /** Any sequence of operations acts on the file as on a sequence of bytes. */
    method Run(ops: seq<Op>)
      requires Valid()
      modifies this, data
      ensures Valid() && Contents() == After(old(Contents()), ops)
      ensures data == old(data) || data == null || fresh(data)
    {
      if ops == [] {
        return;
      }
      var op := ops[|ops| - 1];
      Run(ops[..|ops| - 1]);
      match op
      case WriteOp(offset, count, buffer) => var _ := Write(offset, count, buffer);
      case SizeOp(n) => ChangeSize(n);
    }

    /** The read request: what is in the file from offset on, as much as was asked for and fits the reply. */
    method ReadRequest(offset: nat, requested: nat, room: nat) returns (count: nat, part: seq<byte>)
      requires Valid()
      ensures count == |part| && part == if offset > size then [] else Contents()[offset..Min(offset + Min(requested, room), size)]
    {
      var n: int := Min(requested, room);
      if size < offset + n {
        n := size - offset;
      }
      if offset > size {
        n := 0;
      }
      var some: bool;
      some, part := GetData(offset, n);
      assert Sub(Contents(), offset, offset + n) == Sub(Contents(), offset, offset + Min(requested, room));
      count := n;
    }
  }

  /** The bytes of a write, put into a buffer that holds the file already. */
  method PutInto(ghost c: seq<byte>, target: array<byte>, offset: nat, count: nat, buffer: seq<byte>)
    requires var n := Max(|c|, offset + count); n <= target.Length && target[..n] == Resized(c, n)
    modifies target
    ensures target[..Max(|c|, offset + count)] == Written(c, offset, count, buffer)
    ensures forall k :: Max(|c|, offset + count) <= k < target.Length ==> target[k] == old(target[k])
  {
    CopyTo(buffer, Min(count, |buffer|), target, offset);
  }

  /** The first n bytes of the buffer, from index offset of the data on. */
  method CopyTo(buffer: seq<byte>, n: nat, data: array<byte>, offset: nat)
    requires n <= |buffer| && offset + n <= data.Length
    modifies data
    ensures forall k :: 0 <= k < data.Length ==> data[k] == if offset <= k < offset + n then buffer[k - offset] else old(data[k])
  {
    var i := 0;
    while i < n
      invariant 0 <= i <= n
      invariant forall k :: 0 <= k < data.Length ==> data[k] == if offset <= k < offset + i then buffer[k - offset] else old(data[k])
    {
      data[offset + i] := buffer[i];
      i := i + 1;
    }
  }
}
