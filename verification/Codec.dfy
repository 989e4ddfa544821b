/** The 9P message codec (lib/marshall.js): values written to and read from a buffer by a list of types. */
module Codec {
  import opened Numbers
  import opened Sequences
  import opened Bytes

  datatype Type = W | D | H | B | S | Q | Unknown

  /**
   Numbers, strings as their encoded bytes, and the ids of files. Where a buffer ends before a number
   there is no number, and an id may lack some of its parts.
   */
  datatype Value =
    | Num(n: int)
    | Str(bytes: seq<byte>)
    | Qid(kind: int, version: int, path: int)
    | NoNum
    | PartQid(parts: seq<Value>)

  predicate Typed(t: Type, v: Value) {
    match t
    case S => v.Str?
    case Q => v.Qid?
    case Unknown => true
    case _ => v.Num?
  }

  /** The values that are read back as they were written. */
  predicate InRange(t: Type, v: Value)
    requires Typed(t, v)
  {
    match t
    case W => 0 <= v.n < 0x1_0000_0000
    case D => 0 <= v.n < 0x1_0000_0000
    case H => 0 <= v.n < 0x1_0000
    case B => 0 <= v.n < 0x100
    case S => |v.bytes| < 0x1_0000
    case Q => 0 <= v.kind < 0x100 && 0 <= v.version < 0x1_0000_0000 && 0 <= v.path < 0x1_0000_0000
    case Unknown => false
  }

  // ---- What is written ----

  function Word(n: int): (r: seq<byte>)
    ensures |r| == 4
  {
    [n % 0x100, n / 0x100 % 0x100, n / 0x1_0000 % 0x100, n / 0x100_0000 % 0x100]
  }

  function Half(n: int): (r: seq<byte>)
    ensures |r| == 2
  {
    [n % 0x100, n / 0x100 % 0x100]
  }

  function EncodeItem(t: Type, v: Value): seq<byte>
    requires Typed(t, v)
  {
    match t
    case W => Word(v.n)
    case D => Word(v.n) + [0, 0, 0, 0]
    case H => Half(v.n)
    case B => [v.n % 0x100]
    case S => Half(|v.bytes|) + v.bytes
    case Q => [v.kind % 0x100] + Word(v.version) + (Word(v.path) + [0, 0, 0, 0])
    case Unknown => []
  }

  predicate AllTyped(types: seq<Type>, values: seq<Value>) {
    |types| == |values| && forall k :: 0 <= k < |types| ==> Typed(types[k], values[k])
  }

  function Items(types: seq<Type>, values: seq<Value>): (items: seq<seq<byte>>)
    requires AllTyped(types, values)
    ensures |items| == |types| && forall k :: 0 <= k < |types| ==> items[k] == EncodeItem(types[k], values[k])
  {
    if types == [] then [] else [EncodeItem(types[0], values[0])] + Items(types[1..], values[1..])
  }

  function Flat(items: seq<seq<byte>>): seq<byte> {
    if items == [] then [] else items[0] + Flat(items[1..])
  }

  function Encode(types: seq<Type>, values: seq<Value>): seq<byte>
    requires AllTyped(types, values)
  {
    Flat(Items(types, values))
  }

  // ---- What is read ----

  function Number(s: seq<byte>): int
    requires |s| >= 4
  {
    var b1: int, b2: int, b3: int := s[1], s[2], s[3];
    s[0] + b1 * 0x100 + b2 * 0x1_0000 + b3 * 0x100_0000
  }

  function HalfNumber(s: seq<byte>): nat
    requires |s| >= 2
  {
    var b1: int := s[1];
    s[0] + b1 * 0x100
  }

  /** How many bytes an item takes, and whether they are there. */
  function ItemSize(t: Type, s: seq<byte>): nat {
    match t
    case W => 4
    case D => 8
    case H => 2
    case B => 1
    case S => if |s| < 2 then 2 else 2 + HalfNumber(s)
    case Q => 13
    case Unknown => 0
  }

  function DecodeItem(t: Type, s: seq<byte>): seq<Value>
    requires ItemSize(t, s) <= |s|
  {
    match t
    case W => [Num(Number(s))]
    case D => [Num(Number(s))]
    case H => [Num(HalfNumber(s))]
    case B => [Num(s[0])]
    case S => [Str(s[2..2 + HalfNumber(s)])]
    case Q => [Qid(s[0], Number(s[1..]), Number(s[5..]))]
    case Unknown => []
  }

  predicate Holds(types: seq<Type>, s: seq<byte>) {
    types == [] || (ItemSize(types[0], s) <= |s| && Holds(types[1..], s[ItemSize(types[0], s)..]))
  }

  function Decode(types: seq<Type>, s: seq<byte>): seq<Value>
    requires Holds(types, s)
  {
    if types == [] then [] else DecodeItem(types[0], s) + Decode(types[1..], s[ItemSize(types[0], s)..])
  }

  function Size(types: seq<Type>, s: seq<byte>): (n: nat)
    requires Holds(types, s)
    ensures n <= |s|
  {
    if types == [] then 0
    else ItemSize(types[0], s) + Size(types[1..], s[ItemSize(types[0], s)..])
  }

  // ---- Round trip ----

  lemma {:induction false} Quotient2(n: int, q: int, r: int)
    requires n == 0x1_0000 * q + r && 0 <= r < 0x1_0000
    ensures n / 0x1_0000 == q
  {
  }

  lemma {:induction false} Quotient3(n: int, q: int, r: int)
    requires n == 0x100_0000 * q + r && 0 <= r < 0x100_0000
    ensures n / 0x100_0000 == q
  {
  }

  lemma {:induction false} Remainder4(n: int, q: int, r: int)
    requires n == 0x1_0000_0000 * q + r && 0 <= r < 0x1_0000_0000
    ensures n % 0x1_0000_0000 == r
  {
  }

  /** The four low digits of a number. */
  lemma {:induction false} Digits(n: int)
    ensures var a := n / 0x100; var b := a / 0x100; var c := b / 0x100;
            && n / 0x1_0000 == b && n / 0x100_0000 == c
            && n % 0x1_0000_0000 == n % 0x100 + a % 0x100 * 0x100 + b % 0x100 * 0x1_0000 + c % 0x100 * 0x100_0000
  {
    var a := n / 0x100;
    var b := a / 0x100;
    var c := b / 0x100;
    var two := a % 0x100 * 0x100 + n % 0x100;
    var three := b % 0x100 * 0x1_0000 + two;
    Quotient2(n, b, two);
    Quotient3(n, c, three);
    Remainder4(n, c / 0x100, c % 0x100 * 0x100_0000 + three);
  }

  lemma {:induction false} WordRoundTrip(n: int, rest: seq<byte>)
    ensures Number(Word(n) + rest) == n % 0x1_0000_0000
  {
    Digits(n);
    var s, w := Word(n) + rest, Word(n);
    assert s[0] == w[0] && s[1] == w[1] && s[2] == w[2] && s[3] == w[3];
  }

  lemma {:induction false} HalfRoundTrip(n: int, rest: seq<byte>)
    ensures HalfNumber(Half(n) + rest) == n % 0x1_0000
  {
    var s := Half(n) + rest;
    assert s[0] == n % 0x100 && s[1] == n / 0x100 % 0x100;
  }

  lemma {:induction false} QidItem(v: Value, rest: seq<byte>)
    requires v.Qid?
    ensures var s := EncodeItem(Q, v) + rest;
            |s| >= 13 && s[0] == v.kind % 0x100
            && Number(s[1..]) == v.version % 0x1_0000_0000 && Number(s[5..]) == v.path % 0x1_0000_0000
            && s[13..] == rest
  {
    var s := EncodeItem(Q, v) + rest;
    var tail := Word(v.path) + [0, 0, 0, 0] + rest;
    assert s[1..] == Word(v.version) + tail;
    assert s[5..] == Word(v.path) + ([0, 0, 0, 0] + rest);
    WordRoundTrip(v.version, tail);
    WordRoundTrip(v.path, [0, 0, 0, 0] + rest);
  }

  lemma {:induction false} StringItem(v: Value, rest: seq<byte>)
    requires v.Str?
    ensures var s := EncodeItem(S, v) + rest; var n := |v.bytes| % 0x1_0000;
            |s| >= 2 && HalfNumber(s) == n && 2 + n <= |s| && s[2..2 + n] == v.bytes[..n]
            && (n == |v.bytes| ==> s[2 + n..] == rest)
  {
    var s := EncodeItem(S, v) + rest;
    assert s == Half(|v.bytes|) + (v.bytes + rest);
    HalfRoundTrip(|v.bytes|, v.bytes + rest);
  }

  /** The item v, written and followed by other bytes: it is read back exactly if it is in range, and no more is read. */
  ghost predicate ItemTrip(t: Type, v: Value, s: seq<byte>, rest: seq<byte>)
    requires Typed(t, v)
  {
    && ItemSize(t, s) <= |s|
    && (InRange(t, v) ==> DecodeItem(t, s) == [v] && s[ItemSize(t, s)..] == rest && ItemSize(t, s) == |EncodeItem(t, v)|)
    && (!InRange(t, v) ==> DecodeItem(t, s) != [v])
    && |DecodeItem(t, s)| == if t == Unknown then 0 else 1
  }

  lemma {:induction false} WordTrip(v: Value, rest: seq<byte>)
    requires v.Num?
    ensures ItemTrip(W, v, EncodeItem(W, v) + rest, rest)
  {
    WordRoundTrip(v.n, rest);
    assert (Word(v.n) + rest)[4..] == rest;
  }

  lemma {:induction false} DoubleTrip(v: Value, rest: seq<byte>)
    requires v.Num?
    ensures ItemTrip(D, v, EncodeItem(D, v) + rest, rest)
  {
    var s := Word(v.n) + [0, 0, 0, 0] + rest;
    assert s == Word(v.n) + ([0, 0, 0, 0] + rest) && s[8..] == rest;
    WordRoundTrip(v.n, [0, 0, 0, 0] + rest);
  }

  lemma {:induction false} SmallTrip(t: Type, v: Value, rest: seq<byte>)
    requires v.Num? && (t == H || t == B)
    ensures ItemTrip(t, v, EncodeItem(t, v) + rest, rest)
  {
    if t == H {
      HalfRoundTrip(v.n, rest);
    }
  }

  lemma {:induction false} StringTrip(v: Value, rest: seq<byte>)
    requires v.Str?
    ensures ItemTrip(S, v, EncodeItem(S, v) + rest, rest)
  {
    StringItem(v, rest);
  }

  lemma {:induction false} QidTrip(v: Value, rest: seq<byte>)
    requires v.Qid?
    ensures ItemTrip(Q, v, EncodeItem(Q, v) + rest, rest)
  {
    QidItem(v, rest);
  }

  lemma {:induction false} ItemRoundTrip(t: Type, v: Value, rest: seq<byte>)
    requires Typed(t, v)
    ensures ItemTrip(t, v, EncodeItem(t, v) + rest, rest)
  {
    match t
    case S => StringTrip(v, rest);
    case Q => QidTrip(v, rest);
    case Unknown =>
    case H => SmallTrip(t, v, rest);
    case B => SmallTrip(t, v, rest);
    case W => WordTrip(v, rest);
    case D => DoubleTrip(v, rest);
  }

  /** What is read is the values, and all of what was written. */
  ghost predicate ReadsBack(types: seq<Type>, values: seq<Value>, s: seq<byte>, n: nat) {
    Holds(types, s) && Decode(types, s) == values && Size(types, s) == n
  }

  lemma {:induction false} DecodeCount(types: seq<Type>, s: seq<byte>)
    requires Holds(types, s)
    ensures |Decode(types, s)| <= |types|
  {
    if types != [] {
      DecodeCount(types[1..], s[ItemSize(types[0], s)..]);
    }
  }

  ghost predicate AllInRange(types: seq<Type>, values: seq<Value>)
    requires AllTyped(types, values)
  {
    forall k :: 0 <= k < |types| ==> InRange(types[k], values[k])
  }

  lemma {:induction false} GoodHead(types: seq<Type>, v: Value, values: seq<Value>, s: seq<byte>, after: seq<byte>, n: nat)
    requires types != [] && ItemSize(types[0], s) <= |s| && DecodeItem(types[0], s) == [v] && s[ItemSize(types[0], s)..] == after
    ensures ReadsBack(types, [v] + values, s, ItemSize(types[0], s) + n) <==> ReadsBack(types[1..], values, after, n)
  {
    if Holds(types[1..], after) {
      var more := Decode(types[1..], after);
      assert Decode(types, s) == [v] + more;
      assert ([v] + more)[1..] == more && ([v] + values)[1..] == values;
    }
  }

  lemma {:induction false} BadHead(types: seq<Type>, values: seq<Value>, s: seq<byte>, n: nat)
    requires types != [] && |values| == |types| && ItemSize(types[0], s) <= |s| && DecodeItem(types[0], s) != [values[0]]
    requires |DecodeItem(types[0], s)| <= 1
    ensures !ReadsBack(types, values, s, n)
  {
    if Holds(types, s) {
      var item, tail := DecodeItem(types[0], s), s[ItemSize(types[0], s)..];
      DecodeCount(types[1..], tail);
      assert Decode(types, s) == item + Decode(types[1..], tail);
      assert |item| == 1 ==> Decode(types, s)[0] == item[0] && item == [item[0]];
    }
  }

  /** Unmarshall returns what Marshall wrote, and reads just that, exactly if all types are known and all values in range. */
  lemma {:induction false} RoundTrip(types: seq<Type>, values: seq<Value>, rest: seq<byte>)
    requires AllTyped(types, values)
    ensures ReadsBack(types, values, Encode(types, values) + rest, |Encode(types, values)|) <==> AllInRange(types, values)
  {
    if types != [] {
      var t, v, after := types[0], values[0], Encode(types[1..], values[1..]) + rest;
      var s := EncodeItem(t, v) + after;
      assert Encode(types, values) + rest == s;
      ItemRoundTrip(t, v, after);
      RoundTrip(types[1..], values[1..], rest);
      AllInRangeSplit(types, values);
      if InRange(t, v) {
        GoodHead(types, v, values[1..], s, after, |Encode(types[1..], values[1..])|);
        assert values == [v] + values[1..];
      } else {
        BadHead(types, values, s, |Encode(types, values)|);
      }
    }
  }

  lemma {:induction false} AllInRangeSplit(types: seq<Type>, values: seq<Value>)
    requires AllTyped(types, values) && types != []
    ensures AllInRange(types, values) <==> InRange(types[0], values[0]) && AllInRange(types[1..], values[1..])
  {
    if InRange(types[0], values[0]) && AllInRange(types[1..], values[1..]) {
      forall k | 0 <= k < |types|
        ensures InRange(types[k], values[k])
      {
        if k > 0 {
          assert InRange(types[1..][k - 1], values[1..][k - 1]);
        }
      }
    }
    if AllInRange(types, values) {
      forall k | 0 <= k < |types| - 1
        ensures InRange(types[1..][k], values[1..][k])
      {
        assert InRange(types[k + 1], values[k + 1]);
      }
    }
  }

  // ---- The format on the wire ----

  lemma {:induction false} ValueOfTwo(s: seq<byte>)
    requires |s| == 2
    ensures ValueOf(s) == s[0] + 0x100 * (s[1] as int)
  {
    assert ValueOf(s[1..]) == s[1] + 256 * ValueOf(s[1..][1..]);
  }

  lemma {:induction false} ValueOfFour(s: seq<byte>)
    requires |s| == 4
    ensures ValueOf(s) == s[0] + 0x100 * (s[1] as int) + 0x1_0000 * (s[2] as int) + 0x100_0000 * (s[3] as int)
  {
    ValueOfTwo(s[2..]);
    assert s[1..][1..] == s[2..];
    assert ValueOf(s[1..]) == s[1] + 256 * ValueOf(s[2..]);
  }

  /** Zeros above do not change a number. */
  lemma {:induction false} ValueOfPadded(s: seq<byte>, n: nat)
    ensures ValueOf(s + Zeros(n)) == ValueOf(s)
  {
    if s == [] {
      assert s + Zeros(n) == Zeros(n);
      ValueOfZeros(Zeros(n));
    } else {
      ValueOfPadded(s[1..], n);
      assert (s + Zeros(n))[1..] == s[1..] + Zeros(n);
    }
  }

  lemma {:induction false} ValueOfZeros(s: seq<byte>)
    requires forall k :: 0 <= k < |s| ==> s[k] == 0
    ensures ValueOf(s) == 0
  {
    if s != [] {
      ValueOfZeros(s[1..]);
    }
  }

  lemma {:induction false} WordWire(n: int)
    ensures ValueOf(Word(n)) == n % 0x1_0000_0000
  {
    ValueOfFour(Word(n));
    Digits(n);
  }

  lemma {:induction false} HalfWire(n: int)
    ensures ValueOf(Half(n)) == n % 0x1_0000
  {
    ValueOfTwo(Half(n));
  }

  lemma {:induction false} DoubleWire(n: int)
    ensures ValueOf(Word(n) + [0, 0, 0, 0]) == n % 0x1_0000_0000
  {
    WordWire(n);
    ValueOfPadded(Word(n), 4);
    assert Zeros(4) == [0, 0, 0, 0];
  }

  /**
   What is on the wire for an item: numbers of 1, 2, 4 or 8 bytes, low byte first, of which those of 8 have only 32 bits;
   a string with its length before it; an id as its type, its version and its path.
   */
  lemma {:induction false} ItemWire(t: Type, v: Value)
    requires Typed(t, v)
    ensures var e := EncodeItem(t, v);
            match t
            case W => |e| == 4 && ValueOf(e) == v.n % 0x1_0000_0000
            case D => |e| == 8 && ValueOf(e) == v.n % 0x1_0000_0000
            case H => |e| == 2 && ValueOf(e) == v.n % 0x1_0000
            case B => |e| == 1 && ValueOf(e) == v.n % 0x100
            case S => |e| == 2 + |v.bytes| && ValueOf(e[..2]) == |v.bytes| % 0x1_0000 && e[2..] == v.bytes
            case Q => && |e| == 13 && ValueOf(e[..1]) == v.kind % 0x100 && ValueOf(e[1..5]) == v.version % 0x1_0000_0000
                      && ValueOf(e[5..]) == v.path % 0x1_0000_0000
            case Unknown => e == []
  {
    match t
    case W => WordWire(v.n);
    case D => DoubleWire(v.n);
    case H => HalfWire(v.n);
    case B => ByteWire(v.n);
    case S =>
      HalfWire(|v.bytes|);
      assert EncodeItem(t, v)[..2] == Half(|v.bytes|);
    case Q => QidWire(v);
    case Unknown =>
  }

  lemma {:induction false} ByteWire(n: int)
    ensures ValueOf([n % 0x100]) == n % 0x100
  {
    var one: seq<byte> := [n % 0x100];
    assert one[1..] == [];
  }

  lemma {:induction false} QidWire(v: Value)
    requires v.Qid?
    ensures var e := EncodeItem(Q, v);
            && |e| == 13 && ValueOf(e[..1]) == v.kind % 0x100 && ValueOf(e[1..5]) == v.version % 0x1_0000_0000
            && ValueOf(e[5..]) == v.path % 0x1_0000_0000
  {
    var e := EncodeItem(Q, v);
    assert e[..1] == [v.kind % 0x100] && e[1..5] == Word(v.version) && e[5..] == Word(v.path) + [0, 0, 0, 0];
    ByteWire(v.kind);
    WordWire(v.version);
    DoubleWire(v.path);
  }

  /** What is read from bytes that are there: a number of 8 bytes is read from its low 4. */
  lemma {:induction false} DecodeWire(t: Type, s: seq<byte>)
    requires ItemSize(t, s) <= |s|
    ensures match t
            case W => ItemSize(t, s) == 4 && DecodeItem(t, s) == [Num(ValueOf(s[..4]))]
            case D => ItemSize(t, s) == 8 && DecodeItem(t, s) == [Num(ValueOf(s[..4]))]
            case H => ItemSize(t, s) == 2 && DecodeItem(t, s) == [Num(ValueOf(s[..2]))]
            case B => ItemSize(t, s) == 1 && DecodeItem(t, s) == [Num(s[0])]
            case S => ItemSize(t, s) == 2 + ValueOf(s[..2]) && DecodeItem(t, s) == [Str(s[2..2 + ValueOf(s[..2])])]
            case Q => ItemSize(t, s) == 13 && DecodeItem(t, s) == [Qid(s[0], ValueOf(s[1..5]), ValueOf(s[5..9]))]
            case Unknown => ItemSize(t, s) == 0 && DecodeItem(t, s) == []
  {
    if t == W || t == D {
      ValueOfFour(s[..4]);
    } else if t == H || t == S {
      ValueOfTwo(s[..2]);
    } else if t == Q {
      ValueOfFour(s[1..5]);
      ValueOfFour(s[5..9]);
    }
  }

  // ---- Marshall ----

  /** Bytes put over a buffer in their place; those past its end are dropped, as a typed array does. */
  function Over(s: seq<byte>, at: nat, part: seq<byte>): (r: seq<byte>)
    ensures |r| == |s|
  {
    if at >= |s| then s else Splice(s, at, part[..Min(|part|, |s| - at)])
  }

  lemma {:induction false} OverAt(s: seq<byte>, at: nat, part: seq<byte>, k: nat)
    requires k < |s|
    ensures Over(s, at, part)[k] == if at <= k < at + |part| then part[k - at] else s[k]
  {
  }

  lemma {:induction false} OverBoth(s: seq<byte>, at: nat, a: seq<byte>, b: seq<byte>, k: nat)
    requires k < |s|
    ensures Over(Over(s, at, a), at + |a|, b)[k] == Over(s, at, a + b)[k]
  {
    OverAt(s, at, a, k);
    OverAt(Over(s, at, a), at + |a|, b, k);
    OverAt(s, at, a + b, k);
  }

  lemma {:induction false} OverTwice(s: seq<byte>, at: nat, a: seq<byte>, b: seq<byte>)
    ensures Over(Over(s, at, a), at + |a|, b) == Over(s, at, a + b)
  {
    forall k | 0 <= k < |s|
      ensures Over(Over(s, at, a), at + |a|, b)[k] == Over(s, at, a + b)[k]
    {
      OverBoth(s, at, a, b, k);
    }
  }

  lemma {:induction false} OverInside(s: seq<byte>, at: nat, part: seq<byte>)
    requires at + |part| <= |s|
    ensures Over(s, at, part) == Splice(s, at, part)
  {
    assert part[..|part|] == part;
  }

  /** What is put over other bytes in the same place hides them. */
  lemma {:induction false} OverAgain(s: seq<byte>, at: nat, a: seq<byte>, b: seq<byte>)
    requires |a| <= |b| && at + |b| <= |s|
    ensures Splice(Over(s, at, a), at, b) == Over(s, at, b)
  {
    var once := Over(s, at, a);
    forall k | 0 <= k < |s|
      ensures Splice(once, at, b)[k] == Over(s, at, b)[k]
    {
      OverAt(s, at, a, k);
      OverAt(s, at, b, k);
    }
  }

  method Put(struct: array<byte>, i: nat, b: byte)
    modifies struct
    ensures struct[..] == Over(old(struct[..]), i, [b])
  {
    if i < struct.Length {
      struct[i] := b;
    }
  }

  /** Two bytes, one after the other. */
  method PutTwo(struct: array<byte>, i: nat, a: byte, b: byte)
    modifies struct
    ensures struct[..] == Over(old(struct[..]), i, [a, b])
  {
    OverTwice(struct[..], i, [a], [b]);
    assert [a] + [b] == [a, b];
    Put(struct, i, a);
    Put(struct, i + 1, b);
  }

  method PutWord(n: int, struct: array<byte>, offset: nat)
    modifies struct
    ensures struct[..] == Over(old(struct[..]), offset, Word(n))
  {
    var low, high := Half(n), Half(n / 0x1_0000);
    OverTwice(struct[..], offset, low, high);
    WordIsHalves(n);
    PutTwo(struct, offset, low[0], low[1]);
    PutTwo(struct, offset + 2, high[0], high[1]);
  }

  lemma {:induction false} WordIsHalves(n: int)
    ensures Word(n) == Half(n) + Half(n / 0x1_0000)
  {
    Digits(n);
    Digits(n / 0x1_0000);
  }

  method PutDouble(n: int, struct: array<byte>, offset: nat)
    modifies struct
    ensures struct[..] == Over(old(struct[..]), offset, Word(n) + [0, 0, 0, 0])
  {
    OverTwice(struct[..], offset, Word(n), [0, 0, 0, 0]);
    PutWord(n, struct, offset);
    PutWord(0, struct, offset + 4);
  }

  /** A string: its length is set after its bytes, which have to fit; a typed array's `set` throws if they do not. */
  method PutString(bytes: seq<byte>, struct: array<byte>, start: nat) returns (thrown: bool)
    modifies struct
    ensures thrown <==> start + 2 + |bytes| > struct.Length
    ensures struct[..] == Over(old(struct[..]), start, if thrown then [0, 0] else Half(|bytes|) + bytes)
  {
    PutTwo(struct, start, 0, 0);
    if start + 2 + |bytes| > struct.Length {
      return true;
    }
    OverAgain(old(struct[..]), start, [0, 0], Half(|bytes|) + bytes);
    FillString(bytes, struct, start);
    return false;
  }

  method FillString(bytes: seq<byte>, struct: array<byte>, start: nat)
    requires start + 2 + |bytes| <= struct.Length
    modifies struct
    ensures struct[..] == Splice(old(struct[..]), start, Half(|bytes|) + bytes)
  {
    var length := |bytes|;
    var i := 0;
    while i < |bytes|
      invariant 0 <= i <= |bytes|
      invariant forall k :: 0 <= k < struct.Length ==>
                  struct[k] == if start + 2 <= k < start + 2 + i then bytes[k - start - 2] else old(struct[k])
    {
      struct[start + 2 + i] := bytes[i];
      i := i + 1;
    }
    struct[start] := length % 0x100;
    struct[start + 1] := length / 0x100 % 0x100;
  }

  lemma {:induction false} FlatSplit(items: seq<seq<byte>>, i: nat)
    requires i <= |items|
    ensures Flat(items) == Flat(items[..i]) + Flat(items[i..])
  {
    if i > 0 {
      FlatSplit(items[1..], i - 1);
      assert items[1..][..i - 1] == items[..i][1..] && items[1..][i - 1..] == items[i..];
    }
  }

  lemma {:induction false} FlatNext(items: seq<seq<byte>>, i: nat)
    requires i < |items|
    ensures Flat(items[..i + 1]) == Flat(items[..i]) + items[i]
  {
    var front := items[..i + 1];
    FlatSplit(front, i);
    var one := [items[i]];
    assert front[..i] == items[..i] && front[i..] == one;
    assert |one[1..]| == 0;
  }

  /** The first i items. */
  function Prefix(items: seq<seq<byte>>, i: nat): seq<byte>
    requires i <= |items|
  {
    if i == 0 then [] else Prefix(items, i - 1) + items[i - 1]
  }

  lemma {:induction false} PrefixIsFlat(items: seq<seq<byte>>, i: nat)
    requires i <= |items|
    ensures Prefix(items, i) == Flat(items[..i])
  {
    if i > 0 {
      PrefixIsFlat(items, i - 1);
      FlatNext(items, i - 1);
    } else {
      var none: seq<seq<byte>> := items[..0];
      assert none == [];
    }
  }

  lemma {:induction false} PrefixIsAll(items: seq<seq<byte>>)
    ensures Prefix(items, |items|) == Flat(items)
  {
    PrefixIsFlat(items, |items|);
    assert items[..|items|] == items;
  }

  lemma {:induction false} PrefixGrows(items: seq<seq<byte>>, i: nat, j: nat)
    requires i <= j <= |items|
    ensures |Prefix(items, i)| <= |Prefix(items, j)|
    decreases j
  {
    if i < j {
      PrefixGrows(items, i, j - 1);
    }
  }

  const QID_TYPES: seq<Type> := [B, W, D]

  function QidValues(v: Value): seq<Value>
    requires v.Qid?
  {
    [Num(v.kind), Num(v.version), Num(v.path)]
  }

  /** The nested call writes what an item of type "Q" is. */
  lemma {:induction false} QidIsNested(v: Value)
    requires v.Qid?
    ensures AllTyped(QID_TYPES, QidValues(v)) && Encode(QID_TYPES, QidValues(v)) == EncodeItem(Q, v)
  {
    var ts, vs := QID_TYPES, QidValues(v);
    assert ts[1..] == [W, D] && vs[1..] == [Num(v.version), Num(v.path)];
    assert ts[1..][1..] == [D] && vs[1..][1..] == [Num(v.path)];
    var items := Items(ts, vs);
    assert items == [[v.kind % 0x100], Word(v.version), Word(v.path) + [0, 0, 0, 0]];
    var last: seq<seq<byte>> := items[1..][1..];
    assert last == [items[2]] && |last[1..]| == 0;
    assert Flat(items[1..]) == items[1] + Flat(items[1..][1..]);
    assert Flat(items[1..][1..]) == items[2] + Flat([]);
  }

  /** Types with "Q" among them call Marshall once more. */
  function Depth(types: seq<Type>): nat {
    if Q in types then 1 else 0
  }

  /** The item is a string that does not fit a buffer of some length. */
  predicate Throws(t: Type, v: Value, offset: nat, length: nat)
    requires Typed(t, v)
  {
    t == S && offset + 2 + |v.bytes| > length
  }

  method MarshallItem(t: Type, v: Value, struct: array<byte>, offset: nat) returns (n: nat, thrown: bool)
    requires Typed(t, v)
    modifies struct
    ensures thrown <==> Throws(t, v, offset, struct.Length)
    ensures !thrown ==> n == |EncodeItem(t, v)|
    ensures struct[..] == Over(old(struct[..]), offset, if thrown then [0, 0] else EncodeItem(t, v))
    decreases Depth([t]), 0
  {
    thrown := false;
    match t
    case W =>
      PutWord(v.n, struct, offset);
      n := 4;
    case D =>
      PutDouble(v.n, struct, offset);
      n := 8;
    case H =>
      PutTwo(struct, offset, v.n % 0x100, v.n / 0x100 % 0x100);
      n := 2;
    case B =>
      Put(struct, offset, v.n % 0x100);
      n := 1;
    case S =>
      thrown := PutString(v.bytes, struct, offset);
      n := 2 + |v.bytes|;
    case Q =>
      QidIsNested(v);
      var size, inner, _ := Marshall(QID_TYPES, QidValues(v), struct, offset);
      n := 13;
    case Unknown =>
      n := 0;
  }

  /** Item i is a string that does not fit. */
  predicate ThrowsAt(types: seq<Type>, values: seq<Value>, items: seq<seq<byte>>, start: nat, length: nat, i: nat)
    requires AllTyped(types, values) && |items| == |types|
  {
    i < |types| && Throws(types[i], values[i], start + |Prefix(items, i)|, length)
  }

  /** The first i items are in the buffer, and none of them was too long. */
  ghost predicate Wrote(types: seq<Type>, values: seq<Value>, items: seq<seq<byte>>, start: nat, before: seq<byte>, after: seq<byte>, i: nat)
    requires AllTyped(types, values) && |items| == |types|
  {
    && i <= |types| && after == Over(before, start, Prefix(items, i))
    && forall k :: 0 <= k < i ==> !ThrowsAt(types, values, items, start, |before|, k)
  }

  /** The first i items are in the buffer, and zeros for the length of the next, which is too long. */
  ghost predicate Broke(types: seq<Type>, values: seq<Value>, items: seq<seq<byte>>, start: nat, before: seq<byte>, after: seq<byte>, i: nat)
    requires AllTyped(types, values) && |items| == |types|
  {
    && ThrowsAt(types, values, items, start, |before|, i) && after == Over(before, start, Prefix(items, i) + [0, 0])
    && forall k :: 0 <= k < i ==> !ThrowsAt(types, values, items, start, |before|, k)
  }

  lemma {:induction false} WroteFirst(types: seq<Type>, values: seq<Value>, items: seq<seq<byte>>, start: nat, before: seq<byte>)
    requires AllTyped(types, values) && |items| == |types|
    ensures Wrote(types, values, items, start, before, before, 0)
  {
    assert Over(before, start, []) == before;
  }

  lemma {:induction false} WroteNext(types: seq<Type>, values: seq<Value>, items: seq<seq<byte>>, start: nat, before: seq<byte>, now: seq<byte>,
                                     i: nat, after: seq<byte>, thrown: bool)
    requires AllTyped(types, values) && i < |types| == |items| && Wrote(types, values, items, start, before, now, i)
    requires thrown == ThrowsAt(types, values, items, start, |before|, i)
    requires after == Over(now, start + |Prefix(items, i)|, if thrown then [0, 0] else items[i])
    ensures thrown ==> Broke(types, values, items, start, before, after, i)
    ensures !thrown ==> Wrote(types, values, items, start, before, after, i + 1)
  {
    if thrown {
      OverTwice(before, start, Prefix(items, i), [0, 0]);
    } else {
      OverTwice(before, start, Prefix(items, i), items[i]);
    }
  }

  /** What Marshall leaves: all items, or those before a string that does not fit. */
  ghost predicate Marshalled(types: seq<Type>, values: seq<Value>, items: seq<seq<byte>>, start: nat, before: seq<byte>, after: seq<byte>,
                             size: nat, thrown: bool, bad: nat)
    requires AllTyped(types, values) && |items| == |types|
  {
    if thrown then Broke(types, values, items, start, before, after, bad) && start + |Flat(items)| > |before|
    else
      && Wrote(types, values, items, start, before, after, |types|)
      && size == |Flat(items)| && after == Over(before, start, Flat(items))
      && (start + |Flat(items)| <= |before| ==> after == Splice(before, start, Flat(items)))
  }

  lemma {:induction false} MarshalledAll(types: seq<Type>, values: seq<Value>, items: seq<seq<byte>>, start: nat, before: seq<byte>, after: seq<byte>, bad: nat)
    requires AllTyped(types, values) && |items| == |types| && Wrote(types, values, items, start, before, after, |types|)
    ensures Marshalled(types, values, items, start, before, after, |Prefix(items, |types|)|, false, bad)
  {
    PrefixIsAll(items);
    if start + |Flat(items)| <= |before| {
      OverInside(before, start, Flat(items));
    }
  }

  /** With room for all of it no string is too long. */
  lemma {:induction false} MarshalledPart(types: seq<Type>, values: seq<Value>, items: seq<seq<byte>>, start: nat, before: seq<byte>, after: seq<byte>,
                                          size: nat, i: nat)
    requires AllTyped(types, values) && |items| == |types| && Broke(types, values, items, start, before, after, i)
    requires items[i] == EncodeItem(types[i], values[i])
    ensures Marshalled(types, values, items, start, before, after, size, true, i)
  {
    PrefixIsAll(items);
    PrefixGrows(items, i + 1, |items|);
  }

  /** One turn of the loop of Marshall. */
  method MarshallNext(types: seq<Type>, values: seq<Value>, struct: array<byte>, start: nat, i: nat, size: nat, ghost items: seq<seq<byte>>, ghost before: seq<byte>)
    returns (next: nat, thrown: bool)
    requires AllTyped(types, values) && i < |types| == |items| && items[i] == EncodeItem(types[i], values[i])
    requires size == |Prefix(items, i)| && Wrote(types, values, items, start, before, struct[..], i)
    modifies struct
    ensures thrown ==> Marshalled(types, values, items, start, before, struct[..], next, true, i)
    ensures !thrown ==> next == |Prefix(items, i + 1)| && Wrote(types, values, items, start, before, struct[..], i + 1)
    decreases Depth(types), 1
  {
    ghost var now := struct[..];
    var n;
    n, thrown := MarshallItem(types[i], values[i], struct, start + size);
    WroteNext(types, values, items, start, before, now, i, struct[..], thrown);
    next := size + n;
    if thrown {
      MarshalledPart(types, values, items, start, before, struct[..], next, i);
    }
  }

  /** The loop of Marshall. */
  method MarshallItems(types: seq<Type>, values: seq<Value>, struct: array<byte>, start: nat, ghost items: seq<seq<byte>>)
    returns (size: nat, thrown: bool, ghost bad: nat)
    requires AllTyped(types, values) && |items| == |types|
    requires forall k :: 0 <= k < |types| ==> items[k] == EncodeItem(types[k], values[k])
    modifies struct
    ensures Marshalled(types, values, items, start, old(struct[..]), struct[..], size, thrown, bad)
    decreases Depth(types), 2
  {
    size, thrown, bad := 0, false, 0;
    var i := 0;
    ghost var before := struct[..];
    WroteFirst(types, values, items, start, before);
    while i < |types|
      invariant 0 <= i <= |types| && size == |Prefix(items, i)| && Wrote(types, values, items, start, before, struct[..], i)
    {
      size, thrown := MarshallNext(types, values, struct, start, i, size, items, before);
      if thrown {
        bad := i;
        return;
      }
      i := i + 1;
    }
    MarshalledAll(types, values, items, start, before, struct[..], bad);
  }

  /**
   Marshall writes the encoded values, and no byte outside of them or of the buffer. It throws exactly at
   the first string that does not fit; all items before it are written then, and zeros for its length.
   */
  method Marshall(types: seq<Type>, values: seq<Value>, struct: array<byte>, start: nat)
    returns (size: nat, thrown: bool, ghost bad: nat)
    requires AllTyped(types, values)
    modifies struct
    ensures Marshalled(types, values, Items(types, values), start, old(struct[..]), struct[..], size, thrown, bad)
    decreases Depth(types), 3
  {
    size, thrown, bad := MarshallItems(types, values, struct, start, Items(types, values));
  }

  /** A call with room for the message: all of it is written. */
  method MarshallInRoom(types: seq<Type>, values: seq<Value>, struct: array<byte>, start: nat) returns (size: nat)
    requires AllTyped(types, values) && start + |Encode(types, values)| <= struct.Length
    modifies struct
    ensures size == |Encode(types, values)| && struct[..] == Splice(old(struct[..]), start, Encode(types, values))
  {
    var thrown;
    ghost var bad;
    size, thrown, bad := Marshall(types, values, struct, start);
    MarshalledInRoom(types, values, start, old(struct[..]), struct[..], size, thrown, bad);
  }

  lemma {:induction false} MarshalledInRoom(types: seq<Type>, values: seq<Value>, start: nat, before: seq<byte>, after: seq<byte>, size: nat, thrown: bool, bad: nat)
    requires AllTyped(types, values) && start + |Encode(types, values)| <= |before|
    requires Marshalled(types, values, Items(types, values), start, before, after, size, thrown, bad)
    ensures !thrown && size == |Encode(types, values)| && after == Splice(before, start, Encode(types, values))
  {
  }

  // ---- Unmarshall ----

  /** An offset, or NaN. */
  datatype Cursor = At(n: nat) | Lost {
    function Moved(k: nat): Cursor {
      if At? then At(n + k) else Lost
    }

    predicate Inside(struct: seq<byte>) {
      At? && n <= |struct|
    }

    /** What is left of the buffer. */
    function Left(struct: seq<byte>): seq<byte> {
      if Inside(struct) then struct[n..] else []
    }
  }

  function Byte(s: seq<byte>, k: nat): int {
    if k < |s| then s[k] else 0
  }

  /** A number of 1, 2 or 4 bytes: those that are missing count as 0, but without the first there is none. */
  function Read(s: seq<byte>, width: nat): (v: Value)
    ensures s != [] ==> v.Num? && v.n >= 0
  {
    if s == [] then NoNum
    else if width == 1 then Num(s[0])
    else if width == 2 then Num(s[0] + Byte(s, 1) * 0x100)
    else Num(s[0] + Byte(s, 1) * 0x100 + Byte(s, 2) * 0x1_0000 + Byte(s, 3) * 0x100_0000)
  }

  /** A number at the end of a buffer is that of the bytes that are there. */
  lemma {:induction false} ReadWire(s: seq<byte>, width: nat)
    requires s != [] && (width == 1 || width == 2 || width == 4)
    ensures Read(s, width) == Num(ValueOf(s[..Min(width, |s|)]))
  {
    var part := s[..Min(width, |s|)];
    var whole := part + Zeros(width - |part|);
    ValueOfPadded(part, width - |part|);
    if width == 1 {
      assert whole[1..] == [];
    } else if width == 2 {
      ValueOfTwo(whole);
    } else {
      ValueOfFour(whole);
    }
  }

  function Drop(s: seq<byte>, k: nat): seq<byte> {
    if k <= |s| then s[k..] else []
  }

  function QidOf(kind: Value, version: Value, path: Value): Value {
    if kind.Num? && version.Num? && path.Num? then Qid(kind.n, version.n, path.n) else PartQid([kind, version, path])
  }

  /** The value that is read from what is left of the buffer. A string is cut where that ends. */
  function ItemValue(t: Type, s: seq<byte>): seq<Value> {
    match t
    case W => [Read(s, 4)]
    case D => [Read(s, 4)]
    case H => [Read(s, 2)]
    case B => [Read(s, 1)]
    case S =>
      var length, rest := Read(s, 2), Drop(s, 2);
      [Str(if length.Num? then rest[..Min(length.n, |rest|)] else [])]
    case Q => [QidOf(Read(s, 1), Read(Drop(s, 1), 4), Read(Drop(s, 5), 4))]
    case Unknown => []
  }

  /** The cursor after an item: it is lost at a string without a length. */
  function ItemEnd(t: Type, s: seq<byte>, c: Cursor): Cursor {
    match t
    case W => c.Moved(4)
    case D => c.Moved(8)
    case H => c.Moved(2)
    case B => c.Moved(1)
    case S => if Read(s, 2).Num? then c.Moved(2 + Read(s, 2).n) else Lost
    case Q => c.Moved(13)
    case Unknown => c
  }

  /** The values from a cursor on, wherever that is, and the cursor after them. */
  function ReadAll(types: seq<Type>, struct: seq<byte>, c: Cursor): (seq<Value>, Cursor) {
    if types == [] then ([], c)
    else
      var rest := ReadAll(types[1..], struct, ItemEnd(types[0], c.Left(struct), c));
      (ItemValue(types[0], c.Left(struct)) + rest.0, rest.1)
  }

  lemma {:induction false} LeftMoved(struct: seq<byte>, c: Cursor, k: nat)
    ensures c.Moved(k).Left(struct) == Drop(c.Left(struct), k)
  {
  }

  /** A number that is there is read as Decode does. */
  lemma {:induction false} ReadWhole(s: seq<byte>)
    ensures |s| >= 4 ==> Read(s, 4) == Num(Number(s))
    ensures |s| >= 2 ==> Read(s, 2) == Num(HalfNumber(s))
  {
  }

  /** An item whose bytes are all there is read as Decode does. */
  lemma {:induction false} ReadItemWhole(t: Type, s: seq<byte>, c: Cursor)
    requires ItemSize(t, s) <= |s|
    ensures ItemValue(t, s) == DecodeItem(t, s) && ItemEnd(t, s, c) == c.Moved(ItemSize(t, s))
  {
    ReadWhole(s);
    if t == Q {
      ReadWhole(s[1..]);
      ReadWhole(s[5..]);
    }
    if t == S {
      var n := HalfNumber(s);
      assert s[2..][..n] == s[2..2 + n];
    }
  }

  /** The cursor does not go back, and an item whose bytes are not all there moves it past the end. */
  lemma {:induction false} ItemEndInside(t: Type, struct: seq<byte>, c: Cursor)
    ensures ItemEnd(t, c.Left(struct), c).Inside(struct) <==> c.Inside(struct) && ItemSize(t, c.Left(struct)) <= |c.Left(struct)|
  {
    ReadWhole(c.Left(struct));
  }

  /** A message that is all there is read as Decode does. */
  lemma {:induction false} ReadAllWhole(types: seq<Type>, struct: seq<byte>, c: Cursor)
    requires c.Inside(struct) && Holds(types, c.Left(struct))
    ensures ReadAll(types, struct, c).0 == Decode(types, c.Left(struct))
    ensures ReadAll(types, struct, c).1 == c.Moved(Size(types, c.Left(struct)))
    decreases |types|
  {
    if types != [] {
      var s, n := c.Left(struct), ItemSize(types[0], c.Left(struct));
      LeftMoved(struct, c, n);
      ReadItemWhole(types[0], s, c);
      ReadAllWhole(types[1..], struct, c.Moved(n));
    }
  }

  /** The buffer holds the whole message exactly if the cursor is inside of it afterwards. */
  lemma {:induction false} CutIsSeen(types: seq<Type>, struct: seq<byte>, c: Cursor)
    ensures c.Inside(struct) && Holds(types, c.Left(struct)) <==> ReadAll(types, struct, c).1.Inside(struct)
  {
    if types != [] {
      var s, next := c.Left(struct), ItemEnd(types[0], c.Left(struct), c);
      ItemEndInside(types[0], struct, c);
      CutIsSeen(types[1..], struct, next);
      if next.Inside(struct) {
        ReadItemWhole(types[0], s, c);
        LeftMoved(struct, c, ItemSize(types[0], s));
      }
    }
  }

  /** After i types: what was read and what is left to read is all there is. */
  ghost predicate Remains(types: seq<Type>, struct: seq<byte>, i: nat, c: Cursor, output: seq<Value>, all: (seq<Value>, Cursor)) {
    i <= |types| && all.0 == output + ReadAll(types[i..], struct, c).0 && all.1 == ReadAll(types[i..], struct, c).1
  }

  lemma {:induction false} RemainsNext(types: seq<Type>, struct: seq<byte>, i: nat, c: Cursor, output: seq<Value>, all: (seq<Value>, Cursor))
    requires i < |types| && Remains(types, struct, i, c, output, all)
    ensures Remains(types, struct, i + 1, ItemEnd(types[i], c.Left(struct), c), output + ItemValue(types[i], c.Left(struct)), all)
  {
    var ts := types[i..];
    assert ts[0] == types[i] && ts[1..] == types[i + 1..];
    Regrouped(output, ItemValue(types[i], c.Left(struct)), ReadAll(ts[1..], struct, ItemEnd(types[i], c.Left(struct), c)).0);
  }

  lemma {:induction false} Regrouped(a: seq<Value>, b: seq<Value>, c: seq<Value>)
    ensures a + (b + c) == a + b + c
  {
  }

  class State {
    var offset: Cursor

    constructor (offset: nat)
      ensures this.offset == At(offset)
    {
      this.offset := At(offset);
    }
  }

  /** The nested call reads what an item of type "Q" is. */
  lemma {:induction false} QidReads(struct: seq<byte>, c: Cursor)
    ensures var (values, next), s := ReadAll(QID_TYPES, struct, c), c.Left(struct);
            values == [Read(s, 1), Read(Drop(s, 1), 4), Read(Drop(s, 5), 4)] && next == c.Moved(13)
  {
    LeftMoved(struct, c, 1);
    LeftMoved(struct, c, 5);
    var s := c.Left(struct);
    var a, b, d := Read(s, 1), Read(Drop(s, 1), 4), Read(Drop(s, 5), 4);
    var ts := QID_TYPES;
    assert ts[1..] == [W, D] && ts[1..][1..] == [D] && ts[1..][1..][1..] == [];
    assert ReadAll([], struct, c.Moved(13)) == ([], c.Moved(13));
    assert ReadAll([D], struct, c.Moved(5)).0 == [d] && ReadAll([D], struct, c.Moved(5)).1 == c.Moved(13);
    assert ReadAll([W, D], struct, c.Moved(1)).0 == [b, d] && ReadAll([W, D], struct, c.Moved(1)).1 == c.Moved(13);
  }

  method UnmarshallItem(t: Type, struct: seq<byte>, state: State) returns (output: seq<Value>)
    modifies state
    ensures output == ItemValue(t, old(state.offset).Left(struct))
    ensures state.offset == ItemEnd(t, old(state.offset).Left(struct), old(state.offset))
    decreases Depth([t]), 0
  {
    var offset := state.offset;
    var s := offset.Left(struct);
    match t
    case W =>
      output, state.offset := [Read(s, 4)], offset.Moved(4);
    case D =>
      output, state.offset := [Read(s, 4)], offset.Moved(8);
    case H =>
      output, state.offset := [Read(s, 2)], offset.Moved(2);
    case B =>
      output, state.offset := [Read(s, 1)], offset.Moved(1);
    case S =>
      var length, rest := Read(s, 2), Drop(s, 2);
      if length.Num? {
        output, state.offset := [Str(rest[..Min(length.n, |rest|)])], offset.Moved(2 + length.n);
      } else {
        output, state.offset := [Str([])], Lost;
      }
    case Q =>
      QidReads(struct, offset);
      var qid := Unmarshall(QID_TYPES, struct, state);
      output := [QidOf(qid[0], qid[1], qid[2])];
    case Unknown =>
      output := [];
  }

  /**
   Unmarshall reads the values from the offset of the state on, which it moves past them. It does so for
   any buffer; if that holds the whole message the values are the decoded ones.
   */
  method Unmarshall(types: seq<Type>, struct: seq<byte>, state: State) returns (output: seq<Value>)
    modifies state
    ensures output == ReadAll(types, struct, old(state.offset)).0 && state.offset == ReadAll(types, struct, old(state.offset)).1
    ensures old(state.offset).Inside(struct) && Holds(types, old(state.offset).Left(struct)) ==>
              && output == Decode(types, old(state.offset).Left(struct))
              && state.offset == old(state.offset).Moved(Size(types, old(state.offset).Left(struct)))
    ensures old(state.offset).Inside(struct) ==> (state.offset.Inside(struct) <==> Holds(types, old(state.offset).Left(struct)))
    decreases Depth(types), 1
  {
    output := [];
    var i := 0;
    ghost var all := ReadAll(types, struct, state.offset);
    assert types[0..] == types;
    while i < |types|
      invariant 0 <= i <= |types| && Remains(types, struct, i, state.offset, output, all)
    {
      RemainsNext(types, struct, i, state.offset, output, all);
      var item := UnmarshallItem(types[i], struct, state);
      output := output + item;
      i := i + 1;
    }
    assert types[i..] == [];
    CutIsSeen(types, struct, old(state.offset));
    if state.offset.Inside(struct) {
      ReadAllWhole(types, struct, old(state.offset));
    }
  }
}
