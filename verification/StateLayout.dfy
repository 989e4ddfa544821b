/**
 The table of CPU state fields (gen/state_layout.js): the ranges that a core switch copies, and the
 spans that INIT keeps.
 */
module StateLayout {
  import opened Options

  datatype Owner = Core | Cache | Scratch | Shared

  /** A row of the table; `range` names the snapshot range of core state, `keep` marks what INIT leaves alone. */
  datatype Field = Field(offset: nat, size: nat, owner: Owner, range: Option<string>, keep: bool) {
    function End(): nat {
      offset + size
    }

    predicate Has(p: int) {
      offset <= p < End()
    }
  }

  /** The bytes from start up to end. */
  datatype Span = Span(start: nat, end: nat) {
    predicate Has(p: int) {
      start <= p < end
    }

    predicate Within(outer: Span) {
      outer.start <= start && end <= outer.end
    }
  }

  const SIZE: nat := 4096

  /** validate: what is checked of every row of the table, sorted by offset. */
  predicate Valid(fields: seq<Field>) {
    && (forall i :: 0 <= i < |fields| ==>
          && fields[i].size > 0 && 64 <= fields[i].offset && fields[i].End() <= SIZE
          && (fields[i].owner == Core || (fields[i].range == None && !fields[i].keep)))
    && (forall i :: 0 < i < |fields| ==> fields[i - 1].End() <= fields[i].offset)
  }

  lemma {:induction false} FieldOrder(fields: seq<Field>, i: nat, j: nat)
    requires Valid(fields) && i < j < |fields|
    ensures fields[i].End() <= fields[j].offset
    decreases j
  {
    if i < j - 1 {
      FieldOrder(fields, i, j - 1);
    }
  }

  // ---- core_ranges ----

  /** The variables of the loop of core_ranges. */
  datatype Scan = Scan(ranges: seq<Span>, current: Option<Span>, range: Option<string>) {
    function All(): seq<Span> {
      if current.Some? then ranges + [current.value] else ranges
    }
  }

  function ScanField(s: Scan, f: Field): Scan {
    if f.owner == Core then
      if s.current.Some? && s.range == f.range then
        s.(current := Some(s.current.value.(end := f.End())))
      else Scan(s.All(), Some(Span(f.offset, f.End())), f.range)
    else s.(ranges := s.All(), current := None)
  }

  function ScanTo(fields: seq<Field>, n: nat): Scan
    requires n <= |fields|
  {
    if n == 0 then Scan([], None, None) else ScanField(ScanTo(fields, n - 1), fields[n - 1])
  }

  function Ranges(fields: seq<Field>): seq<Span> {
    ScanTo(fields, |fields|).All()
  }

  /** The number of the range that field j goes to. */
  function RangeOf(fields: seq<Field>, j: nat): nat
    requires j < |fields|
  {
    |ScanTo(fields, j + 1).ranges|
  }

  /** Ranges in ascending order that do not overlap. */
  predicate Ordered(spans: seq<Span>) {
    && (forall k :: 0 <= k < |spans| ==> spans[k].start < spans[k].end)
    && (forall k :: 0 < k < |spans| ==> spans[k - 1].end <= spans[k].start)
  }

  lemma {:induction false} SpanOrder(spans: seq<Span>, i: nat, j: nat)
    requires Ordered(spans) && i < j < |spans|
    ensures spans[i].end <= spans[j].start
    decreases j
  {
    if i < j - 1 {
      SpanOrder(spans, i, j - 1);
    }
  }

  /** Where field n - 1 ends. */
  function Reach(fields: seq<Field>, n: nat): nat
    requires n <= |fields|
  {
    if n == 0 then 0 else fields[n - 1].End()
  }

  /** A step changes the last range or adds one, and only for core state. */
  lemma {:induction false} ScanFieldAll(s: Scan, f: Field)
    ensures |s.All()| <= |ScanField(s, f).All()| <= |s.All()| + 1
    ensures forall k :: 0 <= k < |s.ranges| ==> ScanField(s, f).All()[k] == s.All()[k]
    ensures f.owner != Core ==> ScanField(s, f).All() == s.All()
    ensures f.owner == Core ==>
              if s.current.Some? && s.range == f.range then ScanField(s, f).All() == s.ranges + [Span(s.current.value.start, f.End())]
              else ScanField(s, f).All() == s.All() + [Span(f.offset, f.End())]
  {
  }

  lemma {:induction false} ScanOrdered(fields: seq<Field>, n: nat)
    requires Valid(fields) && n <= |fields|
    ensures Ordered(ScanTo(fields, n).All())
    ensures forall k :: 0 <= k < |ScanTo(fields, n).All()| ==> ScanTo(fields, n).All()[k].end <= Reach(fields, n)
    ensures ScanTo(fields, n).current.Some? ==>
              ScanTo(fields, n).current.value.end == Reach(fields, n) && n > 0 && fields[n - 1].owner == Core
              && ScanTo(fields, n).range == fields[n - 1].range
    ensures n > 0 && fields[n - 1].owner == Core ==> ScanTo(fields, n).current.Some?
  {
    if n > 0 {
      ScanOrdered(fields, n - 1);
      var s, f, now := ScanTo(fields, n - 1), fields[n - 1], ScanTo(fields, n).All();
      ScanFieldAll(s, f);
      forall k | 0 <= k < |now|
        ensures now[k].start < now[k].end <= f.End() && (0 < k ==> now[k - 1].end <= now[k].start)
      {
        assert 0 < k < |s.All()| ==> s.All()[k - 1].end <= s.All()[k].start;
        assert k < |s.All()| ==> s.All()[k].start < s.All()[k].end;
      }
    }
  }

  /** One step keeps the ranges, but that the last one may grow. */
  lemma {:induction false} StepKeeps(s: Scan, f: Field, k: nat)
    requires k < |s.All()| && (s.current.Some? ==> s.current.value.end <= f.End())
    ensures |s.All()| <= |ScanField(s, f).All()| && |s.ranges| <= |ScanField(s, f).ranges|
    ensures s.All()[k].Within(ScanField(s, f).All()[k]) && s.All()[k].start == ScanField(s, f).All()[k].start
  {
    ScanFieldAll(s, f);
  }

  /** The ranges made so far do not change, but that the last one may grow. */
  lemma {:induction false} ScanKeeps(fields: seq<Field>, n: nat, m: nat, k: nat)
    requires Valid(fields) && n <= m <= |fields| && k < |ScanTo(fields, n).All()|
    ensures |ScanTo(fields, n).All()| <= |ScanTo(fields, m).All()|
    ensures ScanTo(fields, n).All()[k].Within(ScanTo(fields, m).All()[k])
    ensures ScanTo(fields, n).All()[k].start == ScanTo(fields, m).All()[k].start
    ensures |ScanTo(fields, n).ranges| <= |ScanTo(fields, m).ranges|
    decreases m
  {
    if n < m {
      ScanKeeps(fields, n, m - 1, k);
      ScanOrdered(fields, m - 1);
      assert Reach(fields, m - 1) <= fields[m - 1].End();
      StepKeeps(ScanTo(fields, m - 1), fields[m - 1], k);
    }
  }

  /** Every core field is whole in the range of its number. */
  lemma {:induction false} CoreFieldCovered(fields: seq<Field>, j: nat)
    requires Valid(fields) && j < |fields| && fields[j].owner == Core
    ensures RangeOf(fields, j) < |Ranges(fields)|
    ensures Span(fields[j].offset, fields[j].End()).Within(Ranges(fields)[RangeOf(fields, j)])
  {
    ScanOrdered(fields, j);
    ScanOrdered(fields, j + 1);
    var s := ScanTo(fields, j);
    ScanFieldAll(s, fields[j]);
    assert s.current.Some? ==> s.All()[|s.ranges|] == s.current.value && s.current.value.start < s.current.value.end;
    assert Span(fields[j].offset, fields[j].End()).Within(ScanTo(fields, j + 1).All()[RangeOf(fields, j)]);
    ScanKeeps(fields, j + 1, |fields|, RangeOf(fields, j));
  }

  /** No byte of a field that is not core state is in a range. */
  lemma {:induction false} OthersAvoided(fields: seq<Field>, n: nat, j: nat, k: nat)
    requires Valid(fields) && j < n <= |fields| && fields[j].owner != Core && k < |ScanTo(fields, n).All()|
    ensures ScanTo(fields, n).All()[k].end <= fields[j].offset || fields[j].End() <= ScanTo(fields, n).All()[k].start
    ensures k == |ScanTo(fields, n).ranges| ==> fields[j].End() <= ScanTo(fields, n).All()[k].start
    decreases n
  {
    if j < n - 1 {
      FieldOrder(fields, j, n - 1);
      if k < |ScanTo(fields, n - 1).All()| {
        OthersAvoided(fields, n - 1, j, k);
      }
      AvoidStep(ScanTo(fields, n - 1), fields[n - 1], fields[j].offset, fields[j].End(), k);
    } else {
      ScanOrdered(fields, n - 1);
      assert ScanTo(fields, n).All() == ScanTo(fields, n - 1).All();
    }
  }

  /** A later field adds no byte before it to a range. */
  lemma {:induction false} AvoidStep(s: Scan, f: Field, lo: nat, hi: nat, k: nat)
    requires k < |ScanField(s, f).All()| && hi <= f.offset
    requires k < |s.All()| ==> s.All()[k].end <= lo || hi <= s.All()[k].start
    requires k == |s.ranges| < |s.All()| ==> hi <= s.All()[k].start
    ensures ScanField(s, f).All()[k].end <= lo || hi <= ScanField(s, f).All()[k].start
    ensures k == |ScanField(s, f).ranges| ==> hi <= ScanField(s, f).All()[k].start
  {
    ScanFieldAll(s, f);
  }

  /** Fields of the same range have the same range name. */
  lemma {:induction false} SameRangeSameName(fields: seq<Field>, i: nat, j: nat)
    requires Valid(fields) && i <= j < |fields| && fields[i].owner == Core && fields[j].owner == Core
    requires RangeOf(fields, i) == RangeOf(fields, j)
    ensures fields[i].range == fields[j].range
    decreases j
  {
    if i < j {
      JoinsRange(fields, i, j);
      SameRangeSameName(fields, i, j - 1);
    }
  }

  /** There is an open range just after core state. */
  lemma {:induction false} OpenAfterCore(fields: seq<Field>, n: nat)
    requires n <= |fields|
    ensures ScanTo(fields, n).current.Some? <==> n > 0 && fields[n - 1].owner == Core
    ensures ScanTo(fields, n).current.Some? ==> ScanTo(fields, n).range == fields[n - 1].range
  {
  }

  /** A field of the range of an earlier one comes after a field of that range with its name. */
  lemma {:induction false} JoinsRange(fields: seq<Field>, i: nat, j: nat)
    requires i < j < |fields| && fields[i].owner == Core && fields[j].owner == Core && RangeOf(fields, i) == RangeOf(fields, j)
    ensures fields[j - 1].owner == Core && fields[j - 1].range == fields[j].range && RangeOf(fields, j - 1) == RangeOf(fields, i)
  {
    OpenAfterCore(fields, i + 1);
    ScanGrows(fields, i + 1, j);
    ScanStepGrows(ScanTo(fields, j), fields[j]);
    SameRangeStep(ScanTo(fields, j), fields[j], RangeOf(fields, i));
    OpenAfterCore(fields, j);
  }

  lemma {:induction false} ScanStepGrows(s: Scan, f: Field)
    ensures |s.All()| <= |ScanField(s, f).All()| && |s.ranges| <= |ScanField(s, f).ranges|
  {
  }

  lemma {:induction false} ScanGrows(fields: seq<Field>, n: nat, m: nat)
    requires n <= m <= |fields|
    ensures |ScanTo(fields, n).All()| <= |ScanTo(fields, m).All()| && |ScanTo(fields, n).ranges| <= |ScanTo(fields, m).ranges|
    decreases m
  {
    if n < m {
      ScanGrows(fields, n, m - 1);
      ScanStepGrows(ScanTo(fields, m - 1), fields[m - 1]);
    }
  }

  /** A core field that is added to range r, which was there before. */
  lemma {:induction false} SameRangeStep(s: Scan, f: Field, r: nat)
    requires f.owner == Core && |ScanField(s, f).ranges| == r && |s.ranges| <= r < |s.All()|
    ensures s.current.Some? && s.range == f.range && |s.ranges| == r
  {
  }

  /** A field that follows one with the same name directly in the table is in its range. */
  lemma {:induction false} NextField(fields: seq<Field>, j: nat)
    requires Valid(fields) && 0 < j < |fields| && fields[j - 1].owner == Core && fields[j].owner == Core
    ensures RangeOf(fields, j) == if fields[j - 1].range == fields[j].range then RangeOf(fields, j - 1) else RangeOf(fields, j - 1) + 1
  {
    ScanOrdered(fields, j);
  }

  ghost predicate CoreByte(fields: seq<Field>, p: int) {
    exists j :: 0 <= j < |fields| && fields[j].owner == Core && fields[j].Has(p)
  }

  ghost predicate OtherByte(fields: seq<Field>, p: int) {
    exists j :: 0 <= j < |fields| && fields[j].owner != Core && fields[j].Has(p)
  }

  predicate InSome(spans: seq<Span>, p: int) {
    exists k :: 0 <= k < |spans| && spans[k].Has(p)
  }

  predicate InsideOne(span: Span, ranges: seq<Span>) {
    exists k :: 0 <= k < |ranges| && span.Within(ranges[k])
  }

  /** The ranges hold every byte of core state, and none of anything else. */
  lemma {:induction false} RangesAreTheCoreState(fields: seq<Field>, p: int)
    requires Valid(fields)
    ensures CoreByte(fields, p) ==> InSome(Ranges(fields), p)
    ensures OtherByte(fields, p) ==> !InSome(Ranges(fields), p)
  {
    if CoreByte(fields, p) {
      var j :| 0 <= j < |fields| && fields[j].owner == Core && fields[j].Has(p);
      CoreFieldCovered(fields, j);
      assert Ranges(fields)[RangeOf(fields, j)].Has(p);
    }
    if OtherByte(fields, p) {
      var j :| 0 <= j < |fields| && fields[j].owner != Core && fields[j].Has(p);
      forall k | 0 <= k < |Ranges(fields)|
        ensures !Ranges(fields)[k].Has(p)
      {
        OthersAvoided(fields, |fields|, j, k);
      }
    }
  }

  method CoreRanges(fields: seq<Field>) returns (r: seq<Span>)
    requires Valid(fields)
    ensures r == Ranges(fields) && Ordered(r) && forall k :: 0 <= k < |r| ==> r[k].end <= SIZE
  {
    var ranges: seq<Span>, current: Option<Span>, range: Option<string> := [], None, None;
    var i := 0;
    while i < |fields|
      invariant 0 <= i <= |fields|
      invariant Scan(ranges, current, range) == ScanTo(fields, i)
    {
      var f := fields[i];
      if f.owner == Core {
        if current.Some? && f.range != range {
          ranges := ranges + [current.value];
          current := None;
        }
        if current.Some? {
          current := Some(current.value.(end := f.offset + f.size));
        } else {
          current := Some(Span(f.offset, f.offset + f.size));
        }
        range := f.range;
      } else if current.Some? {
        ranges := ranges + [current.value];
        current := None;
      }
      i := i + 1;
    }
    ScanOrdered(fields, |fields|);
    if current.Some? {
      ranges := ranges + [current.value];
    }
    return ranges;
  }

  // ---- init_preserved ----

  function KeptTo(fields: seq<Field>, n: nat): seq<Span>
    requires n <= |fields|
  {
    if n == 0 then []
    else
      var kept, f := KeptTo(fields, n - 1), fields[n - 1];
      if !f.keep then kept
      else if kept != [] && kept[|kept| - 1].end == f.offset then
        kept[..|kept| - 1] + [Span(kept[|kept| - 1].start, f.End())]
      else kept + [Span(f.offset, f.End())]
  }

  function Kept(fields: seq<Field>): seq<Span> {
    KeptTo(fields, |fields|)
  }

  ghost predicate KeptByte(fields: seq<Field>, n: nat, p: int)
    requires n <= |fields|
  {
    exists j :: 0 <= j < n && fields[j].keep && fields[j].Has(p)
  }

  /** The spans in order, the last of which ends with the last kept field. */
  lemma {:induction false} KeptOrdered(fields: seq<Field>, n: nat)
    requires Valid(fields) && n <= |fields|
    ensures forall k :: 0 <= k < |KeptTo(fields, n)| ==> KeptTo(fields, n)[k].start < KeptTo(fields, n)[k].end <= Reach(fields, n)
    ensures n > 0 && fields[n - 1].keep ==> KeptTo(fields, n) != [] && KeptTo(fields, n)[|KeptTo(fields, n)| - 1].end == Reach(fields, n)
  {
    if n > 0 {
      KeptOrdered(fields, n - 1);
    }
  }

  /** The spans are exactly the bytes of the fields marked to be kept. */
  lemma {:induction false} KeptMeans(fields: seq<Field>, n: nat, p: int)
    requires Valid(fields) && n <= |fields|
    ensures InSome(KeptTo(fields, n), p) <==> KeptByte(fields, n, p)
  {
    if n > 0 {
      KeptMeans(fields, n - 1, p);
      var kept, f, now := KeptTo(fields, n - 1), fields[n - 1], KeptTo(fields, n);
      KeptByteNext(fields, n, p);
      if !f.keep {
      } else if kept != [] && kept[|kept| - 1].end == f.offset {
        var last := |kept| - 1;
        KeptOrdered(fields, n - 1);
        assert now[last].Has(p) <==> kept[last].Has(p) || f.Has(p);
        assert forall k :: 0 <= k < last ==> now[k] == kept[k];
      } else {
        assert now[|kept|] == Span(f.offset, f.End());
        assert forall k :: 0 <= k < |kept| ==> now[k] == kept[k];
        assert now[|kept|].Has(p) <==> f.Has(p);
      }
    }
  }

  lemma {:induction false} KeptByteNext(fields: seq<Field>, n: nat, p: int)
    requires 0 < n <= |fields|
    ensures KeptByte(fields, n, p) <==> KeptByte(fields, n - 1, p) || (fields[n - 1].keep && fields[n - 1].Has(p))
  {
  }

  /** Kept fields that touch have the same range name. */
  predicate Fits(fields: seq<Field>) {
    forall i :: 0 < i < |fields| ==>
      (fields[i - 1].keep && fields[i].keep && fields[i - 1].End() == fields[i].offset ==>
         fields[i - 1].range == fields[i].range)
  }

  /** The last kept span is in the range of the last kept field, if touching fields have the same name. */
  lemma {:induction false} KeptSpansFit(fields: seq<Field>, n: nat, k: nat)
    requires Valid(fields) && n <= |fields| && Fits(fields) && k < |KeptTo(fields, n)|
    ensures InsideOne(KeptTo(fields, n)[k], Ranges(fields))
    ensures n > 0 && fields[n - 1].keep && k == |KeptTo(fields, n)| - 1 ==>
              RangeOf(fields, n - 1) < |Ranges(fields)|
              && KeptTo(fields, n)[k].Within(Ranges(fields)[RangeOf(fields, n - 1)])
  {
    var kept, f := KeptTo(fields, n - 1), fields[n - 1];
    KeptOrdered(fields, n - 1);
    if k < |kept| {
      KeptSpansFit(fields, n - 1, k);
    }
    if f.keep && k == |KeptTo(fields, n)| - 1 {
      CoreFieldCovered(fields, n - 1);
      if kept != [] && kept[|kept| - 1].end == f.offset {
        TouchesPrevious(fields, n - 1);
        NextField(fields, n - 1);
      }
      assert KeptTo(fields, n)[k].Within(Ranges(fields)[RangeOf(fields, n - 1)]);
    }
  }

  /** A span that ends where field n begins ends with field n - 1. */
  lemma {:induction false} TouchesPrevious(fields: seq<Field>, n: nat)
    requires Valid(fields) && n < |fields| && KeptTo(fields, n) != []
    requires KeptTo(fields, n)[|KeptTo(fields, n)| - 1].end == fields[n].offset
    ensures n > 0 && fields[n - 1].keep && fields[n - 1].End() == fields[n].offset
  {
    KeptOrdered(fields, n);
    KeptOrdered(fields, n - 1);
  }

  /** A span is never taken apart again. */
  lemma {:induction false} KeptKeeps(fields: seq<Field>, n: nat, m: nat, k: nat)
    requires Valid(fields) && n <= m <= |fields| && k < |KeptTo(fields, n)|
    ensures k < |KeptTo(fields, m)| && KeptTo(fields, n)[k].Within(KeptTo(fields, m)[k])
    decreases m
  {
    if n < m {
      KeptKeeps(fields, n, m - 1, k);
      KeptOrdered(fields, m - 1);
    }
  }

  /** Every kept span is inside one range exactly if kept fields that touch have the same range name. */
  lemma {:induction false} InsideOneRange(fields: seq<Field>)
    requires Valid(fields)
    ensures (forall k :: 0 <= k < |Kept(fields)| ==> InsideOne(Kept(fields)[k], Ranges(fields))) <==> Fits(fields)
  {
    if Fits(fields) {
      forall k | 0 <= k < |Kept(fields)|
        ensures InsideOne(Kept(fields)[k], Ranges(fields))
      {
        KeptSpansFit(fields, |fields|, k);
      }
    } else {
      var i :| 0 < i < |fields| && fields[i - 1].keep && fields[i].keep
        && fields[i - 1].End() == fields[i].offset && fields[i - 1].range != fields[i].range;
      SplitSpan(fields, i);
    }
  }

  lemma {:induction false} SplitSpan(fields: seq<Field>, i: nat)
    requires Valid(fields) && 0 < i < |fields| && fields[i - 1].keep && fields[i].keep
    requires fields[i - 1].End() == fields[i].offset && fields[i - 1].range != fields[i].range
    ensures exists k :: 0 <= k < |Kept(fields)| && !InsideOne(Kept(fields)[k], Ranges(fields))
  {
    KeptOrdered(fields, i);
    var k := |KeptTo(fields, i)| - 1;
    KeptKeeps(fields, i + 1, |fields|, k);
    var span := Kept(fields)[k];
    assert span.Has(fields[i].offset - 1) && span.Has(fields[i].offset);
    CoreFieldCovered(fields, i - 1);
    CoreFieldCovered(fields, i);
    NextField(fields, i);
    ScanOrdered(fields, |fields|);
    var ranges := Ranges(fields);
    var a := RangeOf(fields, i - 1);
    forall r | 0 <= r < |ranges|
      ensures !span.Within(ranges[r])
    {
      if r < a {
        SpanOrder(ranges, r, a);
      } else if r > a + 1 {
        SpanOrder(ranges, a + 1, r);
      }
    }
  }

  method InitPreserved(fields: seq<Field>) returns (kept: seq<Span>)
    requires Valid(fields)
    ensures kept == Kept(fields)
  {
    kept := [];
    var i := 0;
    while i < |fields|
      invariant 0 <= i <= |fields| && kept == KeptTo(fields, i)
    {
      var f := fields[i];
      if f.keep {
        var last := |kept| - 1;
        if kept != [] && kept[last].end == f.offset {
          kept := kept[..last] + [kept[last].(end := kept[last].end + f.size)];
        } else {
          kept := kept + [Span(f.offset, f.offset + f.size)];
        }
      }
      i := i + 1;
    }
  }
}
