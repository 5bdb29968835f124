/**
 Reading a storage file while skipping the records marked obsolete, in buffers of any size and with
 short reads of the file.
 */
module StorageReader {
  import opened Types

  newtype byte = x: int | 0 <= x < 256

  /** A record to skip: where it starts and how many bytes it takes. */
  datatype Range = Range(start: nat, size: nat)

  // ---------------------------------------------------------------- what should be read

  predicate Covers(r: Range, i: nat) {
    r.start <= i < r.start + r.size
  }

  predicate Skipped(ranges: seq<Range>, i: nat) {
    exists k :: 0 <= k < |ranges| && Covers(ranges[k], i)
  }

  /** The bytes from position `i` on that no range covers. */
  function AliveBytes(data: seq<byte>, ranges: seq<Range>, i: nat): seq<byte>
    decreases |data| - i
  {
    if i >= |data| then []
    else (if Skipped(ranges, i) then [] else [data[i]]) + AliveBytes(data, ranges, i + 1)
  }

  /** The records start inside the file and do not overlap; the last may run past the end. */
  ghost predicate Disjoint(total: nat, ranges: seq<Range>) {
    && (forall k :: 0 <= k < |ranges| ==> ranges[k].start < total && ranges[k].size > 0)
    && (forall k, l :: 0 <= k < |ranges| && 0 <= l < |ranges| && k != l ==>
          ranges[k].start + ranges[k].size <= ranges[l].start || ranges[l].start + ranges[l].size <= ranges[k].start)
  }

  // ---------------------------------------------------------------- the reader's order

  /** Highest start first, so that the next record to skip is the last. */
  function InsertRange(ranges: seq<Range>, r: Range): seq<Range> {
    if ranges == [] then [r]
    else if ranges[0].start <= r.start then [r] + ranges
    else [ranges[0]] + InsertRange(ranges[1..], r)
  }

  function SortRanges(ranges: seq<Range>): seq<Range> {
    if ranges == [] then [] else InsertRange(SortRanges(ranges[1..]), ranges[0])
  }

  /** Descending and disjoint, all at or after `offset`. */
  ghost predicate Descending(total: nat, ranges: seq<Range>, offset: nat) {
    && (forall k :: 0 <= k < |ranges| ==> offset <= ranges[k].start < total)
    && (forall k, l :: 0 <= k < l < |ranges| ==> ranges[l].start + ranges[l].size <= ranges[k].start)
  }

  lemma {:induction false} InsertMembers(ranges: seq<Range>, r: Range)
    ensures multiset(InsertRange(ranges, r)) == multiset(ranges) + multiset{r}
  {
    if ranges != [] && ranges[0].start > r.start {
      InsertMembers(ranges[1..], r);
      assert ranges == [ranges[0]] + ranges[1..];
    }
  }

  lemma {:induction false} SortMembers(ranges: seq<Range>)
    ensures multiset(SortRanges(ranges)) == multiset(ranges)
  {
    if ranges != [] {
      SortMembers(ranges[1..]);
      InsertMembers(SortRanges(ranges[1..]), ranges[0]);
      assert ranges == [ranges[0]] + ranges[1..];
    }
  }

  ghost predicate AllBelow(ranges: seq<Range>, bound: nat) {
    forall k :: 0 <= k < |ranges| ==> ranges[k].start + ranges[k].size <= bound
  }

  lemma PrependDescends(total: nat, r: Range, rest: seq<Range>)
    requires Descending(total, rest, 0) && AllBelow(rest, r.start) && r.start < total
    ensures Descending(total, [r] + rest, 0)
  {
    var s := [r] + rest;
    forall k, l | 0 <= k < l < |s| ensures s[l].start + s[l].size <= s[k].start {
      assert s[l] == rest[l - 1] && (k > 0 ==> s[k] == rest[k - 1]);
    }
  }

  lemma InsertBelow(ranges: seq<Range>, r: Range, bound: nat)
    requires AllBelow(ranges, bound) && r.start + r.size <= bound
    ensures AllBelow(InsertRange(ranges, r), bound)
  {
    InsertMembers(ranges, r);
    var s := InsertRange(ranges, r);
    forall k | 0 <= k < |s| ensures s[k].start + s[k].size <= bound {
      assert s[k] in multiset(s);
      assert s[k] in multiset(ranges) || s[k] == r;
    }
  }

  lemma {:induction false} InsertDescends(total: nat, ranges: seq<Range>, r: Range)
    requires Descending(total, ranges, 0) && r.start < total && r.size > 0
    requires forall k :: 0 <= k < |ranges| ==>
      ranges[k].start + ranges[k].size <= r.start || r.start + r.size <= ranges[k].start
    ensures Descending(total, InsertRange(ranges, r), 0)
  {
    if ranges == [] || ranges[0].start <= r.start {
      PrependDescends(total, r, ranges);
      assert ranges == [] ==> [r] + ranges == [r];
    } else {
      InsertDescends(total, ranges[1..], r);
      InsertBelow(ranges[1..], r, ranges[0].start);
      PrependDescends(total, ranges[0], InsertRange(ranges[1..], r));
    }
  }

  lemma {:induction false} SortDescends(total: nat, ranges: seq<Range>)
    requires Disjoint(total, ranges)
    ensures Descending(total, SortRanges(ranges), 0)
  {
    if ranges != [] {
      var rest := SortRanges(ranges[1..]);
      SortDescends(total, ranges[1..]);
      SortMembers(ranges[1..]);
      forall k | 0 <= k < |rest|
        ensures rest[k].start + rest[k].size <= ranges[0].start || ranges[0].start + ranges[0].size <= rest[k].start
      {
        assert rest[k] in multiset(ranges[1..]);
        var l :| 0 <= l < |ranges[1..]| && ranges[1..][l] == rest[k];
        assert ranges[l + 1] == rest[k];
      }
      InsertDescends(total, rest, ranges[0]);
    }
  }

  // ---------------------------------------------------------------- what is left to read

  /** What a reader at `offset` has left, record by record. */
  ghost function Remaining(data: seq<byte>, ranges: seq<Range>, offset: nat): seq<byte>
    requires Descending(|data|, ranges, offset) && offset <= |data|
  {
    if ranges == [] then data[offset..]
    else
      var r, front := ranges[|ranges| - 1], ranges[..|ranges| - 1];
      data[offset..r.start] + Remaining(data, front, Min(r.start + r.size, |data|))
  }

  lemma {:induction false} NothingSkipped(data: seq<byte>, ranges: seq<Range>, i: nat, j: nat)
    requires i <= j <= |data| && forall k | i <= k < j :: !Skipped(ranges, k)
    ensures AliveBytes(data, ranges, i) == data[i..j] + AliveBytes(data, ranges, j)
    decreases j - i
  {
    hide Skipped;
    if i < j {
      NothingSkipped(data, ranges, i + 1, j);
      var rest := AliveBytes(data, ranges, j);
      assert data[i..j] + rest == [data[i]] + (data[i + 1..j] + rest);
    }
  }

  lemma {:induction false} AllSkipped(data: seq<byte>, ranges: seq<Range>, i: nat, j: nat)
    requires i <= j <= |data| && forall k | i <= k < j :: Skipped(ranges, k)
    ensures AliveBytes(data, ranges, i) == AliveBytes(data, ranges, j)
    decreases j - i
  {
    hide Skipped;
    if i < j { AllSkipped(data, ranges, i + 1, j); }
  }

  lemma {:induction false} SameSkipped(data: seq<byte>, a: seq<Range>, b: seq<Range>, i: nat)
    requires i <= |data| && forall k | i <= k < |data| :: Skipped(a, k) <==> Skipped(b, k)
    ensures AliveBytes(data, a, i) == AliveBytes(data, b, i)
    decreases |data| - i
  {
    hide Skipped;
    if i < |data| {
      SameSkipped(data, a, b, i + 1);
      assert Skipped(a, i) <==> Skipped(b, i);
    }
  }

  lemma AheadNotSkipped(total: nat, ranges: seq<Range>, offset: nat, i: nat)
    requires Descending(total, ranges, offset) && ranges != [] && offset <= i < ranges[|ranges| - 1].start
    ensures !Skipped(ranges, i)
  {
    forall k | 0 <= k < |ranges| ensures !Covers(ranges[k], i) {}
  }

  lemma FrontSkips(ranges: seq<Range>, i: nat)
    requires ranges != [] && !Covers(ranges[|ranges| - 1], i)
    ensures Skipped(ranges, i) <==> Skipped(ranges[..|ranges| - 1], i)
  {
    var front := ranges[..|ranges| - 1];
    if k :| 0 <= k < |ranges| && Covers(ranges[k], i) {
      assert Covers(front[k], i);
    }
    if k :| 0 <= k < |front| && Covers(front[k], i) {
      assert Covers(ranges[k], i);
    }
  }

  lemma AliveAround(data: seq<byte>, ranges: seq<Range>, offset: nat, end: nat)
    requires Descending(|data|, ranges, offset) && ranges != []
    requires end == Min(ranges[|ranges| - 1].start + ranges[|ranges| - 1].size, |data|)
    ensures AliveBytes(data, ranges, offset) ==
      data[offset..ranges[|ranges| - 1].start] + AliveBytes(data, ranges[..|ranges| - 1], end)
  {
    hide Skipped, AliveBytes;
    var r, front := ranges[|ranges| - 1], ranges[..|ranges| - 1];
    forall i | offset <= i < r.start ensures !Skipped(ranges, i) { AheadNotSkipped(|data|, ranges, offset, i); }
    NothingSkipped(data, ranges, offset, r.start);
    forall i | r.start <= i < end ensures Skipped(ranges, i) { LastSkips(ranges, i); }
    AllSkipped(data, ranges, r.start, end);
    forall i | end <= i < |data| ensures Skipped(ranges, i) <==> Skipped(front, i) { FrontSkips(ranges, i); }
    SameSkipped(data, ranges, front, end);
  }

  lemma LastSkips(ranges: seq<Range>, i: nat)
    requires ranges != [] && Covers(ranges[|ranges| - 1], i)
    ensures Skipped(ranges, i)
  {}

  /** The reader's remaining bytes are the bytes no range covers. */
  lemma {:induction false} RemainingIsAlive(data: seq<byte>, ranges: seq<Range>, offset: nat)
    requires Descending(|data|, ranges, offset) && offset <= |data|
    ensures Remaining(data, ranges, offset) == AliveBytes(data, ranges, offset)
    decreases |ranges|
  {
    if ranges == [] {
      NothingSkipped(data, ranges, offset, |data|);
    } else {
      var r, front := ranges[|ranges| - 1], ranges[..|ranges| - 1];
      var end := Min(r.start + r.size, |data|);
      RemainingIsAlive(data, front, end);
      hide AliveBytes;
      AliveAround(data, ranges, offset, end);
    }
  }

  // ---------------------------------------------------------------- how much is left

  /** The bytes the ranges take, the last one clipped at the end of the file. */
  function ObsoleteBytes(total: nat, ranges: seq<Range>): int {
    if ranges == [] then 0
    else ObsoleteBytes(total, ranges[..|ranges| - 1]) + ClippedSize(total, ranges[|ranges| - 1])
  }

  function ClippedSize(total: nat, r: Range): int {
    if r.size < total - r.start then r.size else total - r.start
  }

  lemma {:induction false} RemainingLength(data: seq<byte>, ranges: seq<Range>, offset: nat)
    requires Descending(|data|, ranges, offset) && offset <= |data|
    ensures |Remaining(data, ranges, offset)| == |data| - offset - ObsoleteBytes(|data|, ranges)
    decreases |ranges|
  {
    if ranges != [] {
      var r, front := ranges[|ranges| - 1], ranges[..|ranges| - 1];
      RemainingLength(data, front, Min(r.start + r.size, |data|));
    }
  }

  lemma {:induction false} ObsoleteFirst(total: nat, r: Range, rest: seq<Range>)
    ensures ObsoleteBytes(total, [r] + rest) == ClippedSize(total, r) + ObsoleteBytes(total, rest)
    decreases |rest|
  {
    if rest == [] {
      assert [r] + rest == [r] && [r][..0] == [];
    } else {
      var front := rest[..|rest| - 1];
      ObsoleteFirst(total, r, front);
      assert ([r] + rest)[..|rest|] == [r] + front;
    }
  }

  lemma {:induction false} InsertObsolete(total: nat, ranges: seq<Range>, r: Range)
    ensures ObsoleteBytes(total, InsertRange(ranges, r)) == ObsoleteBytes(total, ranges) + ClippedSize(total, r)
  {
    if ranges == [] {
      ObsoleteFirst(total, r, []);
      assert [r] + [] == [r];
    } else if ranges[0].start <= r.start {
      ObsoleteFirst(total, r, ranges);
    } else {
      InsertObsolete(total, ranges[1..], r);
      ObsoleteFirst(total, ranges[0], InsertRange(ranges[1..], r));
      ObsoleteFirst(total, ranges[0], ranges[1..]);
      assert ranges == [ranges[0]] + ranges[1..];
    }
  }

  lemma {:induction false} SortObsolete(total: nat, ranges: seq<Range>)
    ensures ObsoleteBytes(total, SortRanges(ranges)) == ObsoleteBytes(total, ranges)
  {
    if ranges != [] {
      SortObsolete(total, ranges[1..]);
      InsertObsolete(total, SortRanges(ranges[1..]), ranges[0]);
      ObsoleteFirst(total, ranges[0], ranges[1..]);
      assert ranges == [ranges[0]] + ranges[1..];
    }
  }

  lemma SortSkips(ranges: seq<Range>, i: nat)
    ensures Skipped(SortRanges(ranges), i) <==> Skipped(ranges, i)
  {
    var sorted := SortRanges(ranges);
    SortMembers(ranges);
    if Skipped(ranges, i) {
      var k :| 0 <= k < |ranges| && Covers(ranges[k], i);
      assert ranges[k] in multiset(sorted);
      var l :| 0 <= l < |sorted| && sorted[l] == ranges[k];
      assert Covers(sorted[l], i);
    }
    if Skipped(sorted, i) {
      var k :| 0 <= k < |sorted| && Covers(sorted[k], i);
      assert sorted[k] in multiset(ranges);
      var l :| 0 <= l < |ranges| && ranges[l] == sorted[k];
      assert Covers(ranges[l], i);
    }
  }

  // ---------------------------------------------------------------- the reader

  /** A read of the file delivers any number of bytes up to what is asked for, and none only if none is asked for. */
  method ReadSize(want: nat) returns (size: nat)
    ensures size <= want && (size == 0 <==> want == 0)
  {
    if want == 0 {
      size := 0;
    } else {
      size :| 1 <= size <= want;
    }
  }

  class AccountStorageReader {
    const data: seq<byte>
    const numAliveBytes: int
    var obsolete: seq<Range>
    var offset: nat

    ghost predicate Valid()
      reads this
    {
      offset <= |data| && Descending(|data|, obsolete, offset)
    }

    /** The alive bytes not delivered yet. */
    ghost function Left(): seq<byte>
      requires Valid()
      reads this
    {
      Remaining(data, obsolete, offset)
    }

    constructor (data: seq<byte>, ranges: seq<Range>)
      requires Disjoint(|data|, ranges)
      ensures Valid() && this.data == data && Left() == AliveBytes(data, ranges, 0)
      ensures numAliveBytes == |Left()|
    {
      this.data := data;
      numAliveBytes := |data| - ObsoleteBytes(|data|, ranges);
      obsolete := SortRanges(ranges);
      offset := 0;
      new;
      SortDescends(|data|, ranges);
      RemainingIsAlive(data, obsolete, 0);
      RemainingLength(data, obsolete, 0);
      SortObsolete(|data|, ranges);
      forall i | 0 <= i < |data| ensures Skipped(obsolete, i) <==> Skipped(ranges, i) { SortSkips(ranges, i); }
      SameSkipped(data, obsolete, ranges, 0);
    }

    /** Fills the buffer with the next alive bytes, as many as there are. */
    method Read(buf: array<byte>) returns (total: nat)
      requires Valid()
      modifies `obsolete, `offset, buf
      ensures Valid()
      ensures total == if buf.Length < |old(Left())| then buf.Length else |old(Left())|
      ensures buf[..total] + Left() == old(Left())
      ensures buf[total..] == old(buf[total..])
    {
      hide Remaining, Descending;
      total := 0;
      while total < buf.Length
        invariant Valid() && total <= buf.Length
        invariant buf[..total] + Left() == old(Left())
        invariant forall i :: total <= i < buf.Length ==> buf[i] == old(buf[i])
        decreases buf.Length - total, |obsolete|
      {
        StartsAhead(data, obsolete, offset);
        if obsolete != [] && offset == obsolete[|obsolete| - 1].start {
          SkipsNext(data, obsolete, offset);
          offset := offset + ClippedSize(|data|, obsolete[|obsolete| - 1]);
          obsolete := obsolete[..|obsolete| - 1];
          continue;
        }
        var end := if obsolete != [] then obsolete[|obsolete| - 1].start else |data|;
        var size := ReadSize(Min(buf.Length - total, end - offset));
        if size == 0 { break; }
        Deliver(buf, total, size);
        total := total + size;
      }
    }

    /** Copies bytes up to the next record to skip. */
    method Deliver(buf: array<byte>, total: nat, size: nat)
      requires Valid() && total + size <= buf.Length && offset + size <= |data|
      requires obsolete != [] ==> offset + size <= obsolete[|obsolete| - 1].start
      modifies `offset, buf
      ensures Valid() && buf[..total + size] + Left() == old(buf[..total] + Left())
      ensures forall i :: total + size <= i < buf.Length ==> buf[i] == old(buf[i])
    {
      hide Remaining, Descending;
      Delivers(data, obsolete, offset, size);
      Regroup(buf[..total], data[offset..offset + size], Remaining(data, obsolete, offset + size));
      Copy(buf, total, data[offset..offset + size]);
      offset := offset + size;
    }
  }

  lemma Regroup(a: seq<byte>, b: seq<byte>, c: seq<byte>)
    ensures a + (b + c) == (a + b) + c
  {}

  method Copy(buf: array<byte>, at: nat, bytes: seq<byte>)
    requires at + |bytes| <= buf.Length
    modifies buf
    ensures buf[..at + |bytes|] == old(buf[..at]) + bytes
    ensures forall i :: at + |bytes| <= i < buf.Length ==> buf[i] == old(buf[i])
  {
    forall i | 0 <= i < |bytes| { buf[at + i] := bytes[i]; }
  }

  /** The next record to skip is ahead; with none ahead and nothing to read, nothing is left. */
  lemma StartsAhead(data: seq<byte>, ranges: seq<Range>, offset: nat)
    requires Descending(|data|, ranges, offset) && offset <= |data|
    ensures ranges != [] ==> offset <= ranges[|ranges| - 1].start < |data|
    ensures ranges == [] ==> Remaining(data, ranges, offset) == data[offset..]
  {}

  lemma SkipsNext(data: seq<byte>, ranges: seq<Range>, offset: nat)
    requires Descending(|data|, ranges, offset) && ranges != [] && offset == ranges[|ranges| - 1].start &&
      offset <= |data|
    ensures var next, front := offset + ClippedSize(|data|, ranges[|ranges| - 1]), ranges[..|ranges| - 1];
      && offset <= next <= |data| && Descending(|data|, front, next)
      && Remaining(data, ranges, offset) == Remaining(data, front, next)
  {
    assert data[offset..offset] == [];
  }

  /** Reading up to the next record to skip takes the first of the remaining bytes. */
  lemma Delivers(data: seq<byte>, ranges: seq<Range>, offset: nat, size: nat)
    requires Descending(|data|, ranges, offset) && offset + size <= |data|
    requires ranges != [] ==> offset + size <= ranges[|ranges| - 1].start
    ensures Descending(|data|, ranges, offset + size)
    ensures Remaining(data, ranges, offset) == data[offset..offset + size] + Remaining(data, ranges, offset + size)
  {
    if ranges != [] {
      var r := ranges[|ranges| - 1];
      assert data[offset..r.start] == data[offset..offset + size] + data[offset + size..r.start];
    } else {
      assert data[offset..] == data[offset..offset + size] + data[offset + size..];
    }
  }

  function Sum(sizes: seq<nat>): nat {
    if sizes == [] then 0 else Sum(sizes[..|sizes| - 1]) + sizes[|sizes| - 1]
  }

  /** Whatever the sizes of the buffers, what they receive is the start of the alive bytes, and all of them
      once the buffers are large enough. */
  method ReadBuffers(reader: AccountStorageReader, sizes: seq<nat>) returns (out: seq<byte>)
    requires reader.Valid()
    modifies reader
    ensures reader.Valid()
    ensures out + reader.Left() == old(reader.Left())
    ensures |out| == if Sum(sizes) < |old(reader.Left())| then Sum(sizes) else |old(reader.Left())|
  {
    hide Remaining, Descending;
    out := [];
    var i := 0;
    while i < |sizes|
      invariant 0 <= i <= |sizes| && reader.Valid()
      invariant out + reader.Left() == old(reader.Left())
      invariant |out| == Min(Sum(sizes[..i]), |old(reader.Left())|)
    {
      var buf := new byte[sizes[i]];
      ghost var left := reader.Left();
      var n := reader.Read(buf);
      Regroup(out, buf[..n], reader.Left());
      out := out + buf[..n];
      assert sizes[..i + 1][..i] == sizes[..i];
      i := i + 1;
    }
    assert sizes[..i] == sizes;
  }
}
