/** An optional value. */
module Options {
  datatype Option<T> = None | Some(value: T)
}

module Numbers {
  function Min(a: int, b: int): int {
    if a < b then a else b
  }

  function Max(a: int, b: int): int {
    if a < b then b else a
  }
}

module Sequences {
  /** A part put over a sequence in its place; nothing else changes. */
  function Splice<T>(s: seq<T>, at: nat, part: seq<T>): (r: seq<T>)
    requires at + |part| <= |s|
    ensures |r| == |s|
  {
    s[..at] + part + s[at + |part|..]
  }
}

/** Bytes, shared by the modules that model byte buffers. */
module Bytes {
  type byte = b: int | 0 <= b < 256

  function Zeros(n: nat): (z: seq<byte>)
    ensures |z| == n && forall i :: 0 <= i < n ==> z[i] == 0
  {
    if n == 0 then [] else Zeros(n - 1) + [0]
  }

  /** The number that bytes are, the low one first. */
  function ValueOf(bytes: seq<byte>): nat {
    if bytes == [] then 0 else bytes[0] + 256 * ValueOf(bytes[1..])
  }

  /** The bytes of a text in ASCII. */
  function Ascii(text: string): (bytes: seq<byte>)
    requires forall k :: 0 <= k < |text| ==> text[k] < 128 as char
    ensures |bytes| == |text| && forall k :: 0 <= k < |text| ==> bytes[k] == text[k] as int
  {
    if text == "" then [] else Ascii(text[..|text| - 1]) + [text[|text| - 1] as int]
  }

  lemma {:induction false} SliceOfSlice(s: seq<byte>, a: nat, b: nat, lo: nat, hi: nat)
    requires a <= b <= |s| && lo <= hi <= b - a
    ensures s[a..b][lo..hi] == s[a + lo..a + hi]
  {
    var x, y := s[a..b][lo..hi], s[a + lo..a + hi];
    forall k | 0 <= k < |x|
      ensures x[k] == y[k]
    {
      assert x[k] == s[a..b][lo + k];
    }
  }
}
