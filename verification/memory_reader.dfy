/**
 * The segmented padded reader of librgb/memory_reader.py: `get_padded_bytes`
 * returns exactly `count` bytes starting at `address`, stitched from the
 * database's segments and zero wherever no readable segment supplies a byte.
 *
 * The IDA API is replaced by values: the segment table is a sequence of
 * `Segment`s in `getnseg` order, and `GetManyBytes` reads from a `Database`
 * that says, per address, which byte is stored and whether it is loaded.
 */
module MemoryReader {
  import opened Base

  /** One entry of IDA's segment table: `startEA`, `endEA` and whether its type is `SEG_XTRN`. */
  datatype Segment = Segment(startEA: int, endEA: int, isXtrn: bool)

  /** The `MemoryRange` record: the half-open address range `[start, end)`. */
  datatype MemoryRange = MemoryRange(start: int, end: int) {
    function Length(): int { end - start }
    predicate Contains(a: int) { start <= a < end }
  }

  /** The IDA database as `GetManyBytes` sees it. */
  datatype Database = Database(byteAt: int -> byte, isLoaded: int -> bool)

  /** IDA's `GetManyBytes(ea, size)`: the bytes, or `None` when one of them is not loaded. */
  function GetManyBytes(db: Database, ea: int, size: nat): Option<seq<byte>>
  {
    if forall a | ea <= a < ea + size :: db.isLoaded(a)
    then var byteAt := db.byteAt; Some(seq(size, k => byteAt(ea + k)))
    else None
  }

  // ---------------------------------------------------------------------------
  // Segment filtering (memory_reader.py:29-37)

  /** The readable ranges: every non-`SEG_XTRN` segment, in enumeration order. */
  function KeptRanges(segments: seq<Segment>): (r: seq<MemoryRange>)
    ensures |r| <= |segments|
    ensures (forall i :: 0 <= i < |segments| ==> !segments[i].isXtrn) ==> |r| == |segments|
  {
    if segments == [] then []
    else
      var last := segments[|segments| - 1];
      KeptRanges(segments[..|segments| - 1])
        + (if last.isXtrn then [] else [MemoryRange(last.startEA, last.endEA)])
  }

  /** Filtering distributes over concatenation, so kept segments stay in their order. */
  lemma {:induction false} KeptRangesAppend(a: seq<Segment>, b: seq<Segment>)
    ensures KeptRanges(a + b) == KeptRanges(a) + KeptRanges(b)
    decreases |b|
  {
    if b == [] {
      assert a + b == a;
    } else {
      var b' := b[..|b| - 1];
      assert (a + b)[..|a + b| - 1] == a + b';
      KeptRangesAppend(a, b');
    }
  }

  /** Every kept range is a non-`SEG_XTRN` segment, and every such segment is kept. */
  lemma {:induction false} KeptRangesMembers(segments: seq<Segment>, r: MemoryRange)
    ensures r in KeptRanges(segments) <==>
            exists s :: s in segments && !s.isXtrn && r == MemoryRange(s.startEA, s.endEA)
    decreases |segments|
  {
    if segments != [] {
      var init := segments[..|segments| - 1];
      var last := segments[|segments| - 1];
      KeptRangesMembers(init, r);
      assert segments == init + [last];
      if r in KeptRanges(segments) && r !in KeptRanges(init) {
        assert !last.isXtrn && r == MemoryRange(last.startEA, last.endEA);
      }
      if s :| s in segments && !s.isXtrn && r == MemoryRange(s.startEA, s.endEA) {
        if s !in init {
          assert s == last;
        }
      }
    }
  }

  /** The `for` loop that builds `valid_memory_ranges`. */
  method ValidMemoryRanges(segments: seq<Segment>) returns (ranges: seq<MemoryRange>)
    ensures ranges == KeptRanges(segments)
  {
    ranges := [];
    for i := 0 to |segments|
      invariant ranges == KeptRanges(segments[..i])
    {
      assert segments[..i + 1][..i] == segments[..i];
      var segment := segments[i];
      if segment.isXtrn {
        continue;
      }
      ranges := ranges + [MemoryRange(segment.startEA, segment.endEA)];
    }
    assert segments[..|segments|] == segments;
  }

  // ---------------------------------------------------------------------------
  // First-match intersection (memory_reader.py:43-49)

  /** The candidate intersection the inner loop computes for one memory range. */
  function Meet(current: MemoryRange, range: MemoryRange): MemoryRange
  {
    MemoryRange(if current.start < range.start then range.start else current.start,
                if current.end < range.end then current.end else range.end)
  }

  /** The inner loop's test `end > start`. */
  predicate Overlaps(current: MemoryRange, range: MemoryRange)
  {
    Meet(current, range).end > Meet(current, range).start
  }

  /** The intersection with the first range, in order, that overlaps `current`. */
  function FirstMeet(current: MemoryRange, ranges: seq<MemoryRange>): (r: Option<MemoryRange>)
    ensures r.Some? ==> current.start <= r.value.start < r.value.end <= current.end
  {
    if ranges == [] then None
    else if Overlaps(current, ranges[0]) then Some(Meet(current, ranges[0]))
    else FirstMeet(current, ranges[1..])
  }

  /** There is no intersection exactly when no range overlaps `current`. */
  lemma {:induction false} FirstMeetNone(current: MemoryRange, ranges: seq<MemoryRange>)
    ensures FirstMeet(current, ranges).None? <==>
            forall j :: 0 <= j < |ranges| ==> !Overlaps(current, ranges[j])
    decreases |ranges|
  {
    if ranges != [] && !Overlaps(current, ranges[0]) {
      FirstMeetNone(current, ranges[1..]);
      forall j | 0 < j < |ranges| ensures ranges[j] == ranges[1..][j - 1] {
      }
    }
  }

  /**
   * First-match priority: `FirstMeet` is the intersection with the least index
   * whose range overlaps `current`.
   */
  lemma {:induction false} FirstMeetIsFirstMatch(current: MemoryRange, ranges: seq<MemoryRange>)
    requires FirstMeet(current, ranges).Some?
    ensures exists k :: 0 <= k < |ranges| && Overlaps(current, ranges[k])
                        && (forall j :: 0 <= j < k ==> !Overlaps(current, ranges[j]))
                        && FirstMeet(current, ranges).value == Meet(current, ranges[k])
    decreases |ranges|
  {
    if !Overlaps(current, ranges[0]) {
      var rest := ranges[1..];
      FirstMeetIsFirstMatch(current, rest);
      var k :| 0 <= k < |rest| && Overlaps(current, rest[k])
               && (forall j :: 0 <= j < k ==> !Overlaps(current, rest[j]))
               && FirstMeet(current, rest).value == Meet(current, rest[k]);
      forall j | 0 <= j < k + 1 ensures !Overlaps(current, ranges[j]) {
        if j > 0 { assert ranges[j] == rest[j - 1]; }
      }
      assert ranges[k + 1] == rest[k];
    }
  }

  /** The intersection lies inside both ranges and is not empty. */
  lemma FirstMeetInside(current: MemoryRange, ranges: seq<MemoryRange>)
    requires FirstMeet(current, ranges).Some?
    ensures var m := FirstMeet(current, ranges).value;
            current.start <= m.start < m.end <= current.end
            && exists k :: 0 <= k < |ranges| && ranges[k].start <= m.start && m.end <= ranges[k].end
  {
    FirstMeetIsFirstMatch(current, ranges);
  }

  /** The inner `for ... break` loop of `get_padded_bytes`. */
  method FindIntersection(current: MemoryRange, ranges: seq<MemoryRange>)
    returns (intersection: Option<MemoryRange>)
    ensures intersection == FirstMeet(current, ranges)
  {
    intersection := None;
    var i := 0;
    while i < |ranges|
      invariant 0 <= i <= |ranges|
      invariant FirstMeet(current, ranges) == FirstMeet(current, ranges[i..])
    {
      assert ranges[i..][1..] == ranges[i + 1..];
      var memoryRange := ranges[i];
      var start := if current.start < memoryRange.start then memoryRange.start else current.start;
      var end := if current.end < memoryRange.end then current.end else memoryRange.end;
      if end > start {
        intersection := Some(MemoryRange(start, end));
        return;
      }
      i := i + 1;
    }
  }

  // ---------------------------------------------------------------------------
  // One round of the worklist loop (memory_reader.py:41-76)

  /** The splice `result[0:lo] + chunk + result[lo + len(chunk):]`. */
  function Splice(result: seq<byte>, lo: nat, chunk: seq<byte>): (r: seq<byte>)
    requires lo + |chunk| <= |result|
    ensures |r| == |result|
    ensures forall i :: lo <= i < lo + |chunk| ==> r[i] == chunk[i - lo]
    ensures forall i :: 0 <= i < |result| && !(lo <= i < lo + |chunk|) ==> r[i] == result[i]
  {
    result[..lo] + chunk + result[lo + |chunk|..]
  }

  /** `current` lies inside the requested window `[address, address + count)`. */
  predicate Within(current: MemoryRange, address: int, count: nat)
  {
    address <= current.start <= current.end <= address + count
  }

  /**
   * Handles one popped range: find the first overlapping readable range, fetch the
   * intersection, splice it in and return the two leftover pieces. When nothing
   * overlaps, or the fetch fails, the buffer is unchanged and nothing is left over.
   */
  method ProcessRange(ranges: seq<MemoryRange>, db: Database, address: int, count: nat,
                      current: MemoryRange, result: seq<byte>)
    returns (newResult: seq<byte>, leftovers: seq<MemoryRange>)
    requires |result| == count && Within(current, address, count)
    ensures |newResult| == count
    ensures FirstMeet(current, ranges).None? ==> newResult == result && leftovers == []
    ensures FirstMeet(current, ranges).Some? ==>
              var m := FirstMeet(current, ranges).value;
              match GetManyBytes(db, m.start, m.end - m.start)
              case None => newResult == result && leftovers == []
              case Some(chunk) =>
                && (forall i :: 0 <= i < count && m.Contains(address + i) ==> newResult[i] == db.byteAt(address + i))
                && (forall i :: 0 <= i < count && !m.Contains(address + i) ==> newResult[i] == result[i])
                && leftovers == [MemoryRange(current.start, m.start), MemoryRange(m.end, current.end)]
  {
    var intersection := FindIntersection(current, ranges);
    if intersection.None? {
      return result, [];
    }
    var m := intersection.value;
    FirstMeetInside(current, ranges);
    var chunk := GetManyBytes(db, m.start, m.end - m.start);
    if chunk.None? {
      return result, [];
    }
    newResult := Splice(result, m.start - address, chunk.value);
    // Both guards hold for every leftover: they compare the bound method
    // `length` with 0, which Python 2 orders above every number.
    leftovers := [MemoryRange(current.start, m.start)];
    leftovers := leftovers + [MemoryRange(m.end, current.end)];
  }

  // ---------------------------------------------------------------------------
  // The whole read (memory_reader.py:25-79)

  /** Some readable range contains address `a`. */
  ghost predicate Covered(ranges: seq<MemoryRange>, a: int)
  {
    exists j :: 0 <= j < |ranges| && ranges[j].Contains(a)
  }

  /** Some range still on the worklist contains address `a`. */
  ghost predicate Pending(work: seq<MemoryRange>, a: int)
  {
    exists j :: 0 <= j < |work| && work[j].Contains(a)
  }

  /** Every covered byte of the window is loaded, so no fetch can fail. */
  ghost predicate AllLoaded(ranges: seq<MemoryRange>, db: Database, address: int, count: nat)
  {
    forall a :: address <= a < address + count && Covered(ranges, a) ==> db.isLoaded(a)
  }

  /** What the read returns when no fetch fails: stored bytes where covered, zero elsewhere. */
  ghost function Expected(ranges: seq<MemoryRange>, db: Database, address: int, count: nat): (r: seq<byte>)
    ensures |r| == count
  {
    var byteAt := db.byteAt;
    seq(count, i => if Covered(ranges, address + i) then byteAt(address + i) else 0)
  }

  ghost predicate Disjoint(a: MemoryRange, b: MemoryRange)
  {
    a.end <= b.start || b.end <= a.start || a.start >= a.end || b.start >= b.end
  }

  /** Sum of the lengths of the unresolved ranges. */
  function TotalLength(work: seq<MemoryRange>): int
  {
    if work == [] then 0 else TotalLength(work[..|work| - 1]) + work[|work| - 1].Length()
  }

  lemma {:induction false} TotalLengthNonNegative(work: seq<MemoryRange>)
    requires forall j :: 0 <= j < |work| ==> work[j].start <= work[j].end
    ensures TotalLength(work) >= 0
    decreases |work|
  {
    if work != [] {
      TotalLengthNonNegative(work[..|work| - 1]);
    }
  }

  /** The loop invariant of `GetPaddedBytes`, over the worklist and the buffer. */
  ghost predicate ReadInvariant(ranges: seq<MemoryRange>, db: Database, address: int, count: nat,
                                loaded: bool, work: seq<MemoryRange>, result: seq<byte>)
  {
    && |result| == count
    && (forall j :: 0 <= j < |work| ==> Within(work[j], address, count))
    && (forall j, k :: 0 <= j < k < |work| ==> Disjoint(work[j], work[k]))
    // bytes still waiting on the worklist have not been written yet
    && (forall i :: 0 <= i < count && Pending(work, address + i) ==> result[i] == 0)
    && (forall i :: 0 <= i < count && !Covered(ranges, address + i) ==> result[i] == 0)
    && (forall i :: 0 <= i < count ==> result[i] == 0 || result[i] == db.byteAt(address + i))
    && (loaded ==> forall i :: 0 <= i < count && Covered(ranges, address + i) ==>
          result[i] == db.byteAt(address + i) || Pending(work, address + i))
  }

  /**
   * Reads `count` bytes at `address`. The result always has `count` bytes; a byte no
   * kept segment covers is 0; every other byte is 0 or the stored byte; and when no
   * fetch fails, every covered byte is the stored byte.
   */
  method GetPaddedBytes(segments: seq<Segment>, db: Database, address: int, count: nat)
    returns (result: seq<byte>)
    ensures |result| == count
    ensures forall i :: 0 <= i < count && !Covered(KeptRanges(segments), address + i) ==> result[i] == 0
    ensures forall i :: 0 <= i < count ==> result[i] == 0 || result[i] == db.byteAt(address + i)
    ensures AllLoaded(KeptRanges(segments), db, address, count) ==>
              result == Expected(KeptRanges(segments), db, address, count)
  {
    result := Zeros(count);
    var work := [MemoryRange(address, address + count)];
    var ranges := ValidMemoryRanges(segments);
    ghost var loaded := AllLoaded(ranges, db, address, count);

    while |work| > 0
      invariant ReadInvariant(ranges, db, address, count, loaded, work, result)
      decreases TotalLength(work), |work|
    {
      var current := work[|work| - 1];
      var rest := work[..|work| - 1];
      assert work == rest + [current];
      assert forall j :: 0 <= j < |rest| ==> rest[j] == work[j];
      TotalLengthNonNegative(rest);
      var newResult, leftovers := ProcessRange(ranges, db, address, count, current, result);
      ghost var measure := TotalLength(work);
      if leftovers == [] {
        StepWithoutSplice(ranges, db, address, count, loaded, rest, current, result);
        assert newResult == result;
        assert rest + leftovers == rest;
      } else {
        var m := FirstMeet(current, ranges).value;
        StepWithSplice(ranges, db, address, count, loaded, rest, current, result, newResult);
        assert leftovers == [MemoryRange(current.start, m.start), MemoryRange(m.end, current.end)];
      }
      work := rest + leftovers;
      result := newResult;
      assert TotalLength(work) < measure || (TotalLength(work) == measure && |work| < |rest| + 1);
    }
    if loaded {
      forall i | 0 <= i < count
        ensures result[i] == Expected(ranges, db, address, count)[i]
      {
      }
    }
  }

  lemma TotalLengthAppend(work: seq<MemoryRange>, r: MemoryRange)
    ensures TotalLength(work + [r]) == TotalLength(work) + r.Length()
  {
    assert (work + [r])[..|work|] == work;
  }

  /** An address in `current` that some readable range covers makes `current` overlap it. */
  lemma CoveredMeansOverlap(ranges: seq<MemoryRange>, current: MemoryRange, a: int)
    requires current.Contains(a) && Covered(ranges, a)
    ensures FirstMeet(current, ranges).Some?
  {
    var j :| 0 <= j < |ranges| && ranges[j].Contains(a);
    assert Overlaps(current, ranges[j]);
    FirstMeetNone(current, ranges);
  }

  /** When every covered byte is loaded, fetching the chosen intersection cannot fail. */
  lemma LoadedFetchSucceeds(ranges: seq<MemoryRange>, db: Database, address: int, count: nat,
                            current: MemoryRange)
    requires AllLoaded(ranges, db, address, count) && Within(current, address, count)
    requires FirstMeet(current, ranges).Some?
    ensures var m := FirstMeet(current, ranges).value;
            GetManyBytes(db, m.start, m.end - m.start).Some?
  {
    var m := FirstMeet(current, ranges).value;
    FirstMeetInside(current, ranges);
    var k :| 0 <= k < |ranges| && ranges[k].start <= m.start && m.end <= ranges[k].end;
    forall a | m.start <= a < m.start + (m.end - m.start)
      ensures db.isLoaded(a)
    {
      assert ranges[k].Contains(a);
    }
  }

  /** A round that splices nothing keeps the invariant on the rest of the worklist. */
  lemma StepWithoutSplice(ranges: seq<MemoryRange>, db: Database, address: int, count: nat,
                          loaded: bool, rest: seq<MemoryRange>, current: MemoryRange,
                          result: seq<byte>)
    requires loaded == AllLoaded(ranges, db, address, count)
    requires ReadInvariant(ranges, db, address, count, loaded, rest + [current], result)
    requires FirstMeet(current, ranges).Some? ==>
               var m := FirstMeet(current, ranges).value;
               GetManyBytes(db, m.start, m.end - m.start).None?
    ensures ReadInvariant(ranges, db, address, count, loaded, rest, result)
    ensures TotalLength(rest) <= TotalLength(rest + [current])
  {
    var work := rest + [current];
    assert Within(work[|rest|], address, count);
    TotalLengthAppend(rest, current);
    forall j | 0 <= j < |rest| ensures Within(rest[j], address, count) {
      assert rest[j] == work[j];
    }
    forall j, k | 0 <= j < k < |rest| ensures Disjoint(rest[j], rest[k]) {
      assert rest[j] == work[j] && rest[k] == work[k];
    }
    forall i | 0 <= i < count && Pending(rest, address + i) ensures result[i] == 0 {
      var j :| 0 <= j < |rest| && rest[j].Contains(address + i);
      assert work[j] == rest[j];
    }
    if loaded {
      forall i | 0 <= i < count && Covered(ranges, address + i)
        ensures result[i] == db.byteAt(address + i) || Pending(rest, address + i)
      {
        if result[i] != db.byteAt(address + i) {
          var j :| 0 <= j < |work| && work[j].Contains(address + i);
          if j == |rest| {
            CoveredMeansOverlap(ranges, current, address + i);
            LoadedFetchSucceeds(ranges, db, address, count, current);
            assert false;
          }
          assert rest[j] == work[j];
        }
      }
    }
  }

  /**
   * Replacing the last range of the worklist by what lies left and right of `m`
   * keeps the ranges inside the window and pairwise disjoint, leaves pending
   * exactly the bytes that were pending outside `m`, and shrinks the total length.
   */
  lemma SpliceWorklist(rest: seq<MemoryRange>, current: MemoryRange, m: MemoryRange, address: int, count: nat)
    requires forall j :: 0 <= j < |rest + [current]| ==> Within((rest + [current])[j], address, count)
    requires forall j, k :: 0 <= j < k < |rest + [current]| ==>
      Disjoint((rest + [current])[j], (rest + [current])[k])
    requires current.start <= m.start < m.end <= current.end
    ensures var work := rest + [MemoryRange(current.start, m.start), MemoryRange(m.end, current.end)];
      && (forall j :: 0 <= j < |work| ==> Within(work[j], address, count))
      && (forall j, k :: 0 <= j < k < |work| ==> Disjoint(work[j], work[k]))
      && (forall a :: Pending(work, a) <==> Pending(rest + [current], a) && !m.Contains(a))
      && TotalLength(work) < TotalLength(rest + [current])
  {
    var before := rest + [current];
    var r1, r2 := MemoryRange(current.start, m.start), MemoryRange(m.end, current.end);
    var work := rest + [r1, r2];
    assert Within(before[|rest|], address, count);
    assert work == (rest + [r1]) + [r2];
    TotalLengthAppend(rest, current);
    TotalLengthAppend(rest, r1);
    TotalLengthAppend(rest + [r1], r2);
    forall j | 0 <= j < |work| ensures Within(work[j], address, count) {
      if j < |rest| { assert work[j] == before[j]; }
    }
    forall j, k | 0 <= j < k < |work| ensures Disjoint(work[j], work[k]) {
      if k < |rest| {
        assert work[j] == before[j] && work[k] == before[k];
      } else if j < |rest| {
        assert work[j] == before[j] && Disjoint(before[j], before[|rest|]);
      }
    }
    forall a ensures Pending(work, a) <==> Pending(before, a) && !m.Contains(a) {
      if Pending(work, a) {
        var j :| 0 <= j < |work| && work[j].Contains(a);
        if j < |rest| {
          assert work[j] == before[j] && Disjoint(before[j], before[|rest|]);
        } else {
          assert before[|rest|].Contains(a);
        }
      }
      if Pending(before, a) && !m.Contains(a) {
        var j :| 0 <= j < |before| && before[j].Contains(a);
        if j < |rest| {
          assert work[j] == before[j];
        } else if a < m.start {
          assert work[|rest|] == r1;
        } else {
          assert work[|rest| + 1] == r2;
        }
      }
    }
  }

  /** A round that splices the intersection `m` keeps the invariant on `rest` plus the leftovers. */
  lemma StepWithSplice(ranges: seq<MemoryRange>, db: Database, address: int, count: nat,
                       loaded: bool, rest: seq<MemoryRange>, current: MemoryRange,
                       result: seq<byte>, newResult: seq<byte>)
    requires loaded == AllLoaded(ranges, db, address, count)
    requires ReadInvariant(ranges, db, address, count, loaded, rest + [current], result)
    requires FirstMeet(current, ranges).Some?
    requires |newResult| == count
    requires var m := FirstMeet(current, ranges).value;
      && (forall i :: 0 <= i < count && m.Contains(address + i) ==> newResult[i] == db.byteAt(address + i))
      && (forall i :: 0 <= i < count && !m.Contains(address + i) ==> newResult[i] == result[i])
    ensures var m := FirstMeet(current, ranges).value;
      var work := rest + [MemoryRange(current.start, m.start), MemoryRange(m.end, current.end)];
      && ReadInvariant(ranges, db, address, count, loaded, work, newResult)
      && TotalLength(work) < TotalLength(rest + [current])
  {
    var before := rest + [current];
    var m := FirstMeet(current, ranges).value;
    FirstMeetInside(current, ranges);
    var k0 :| 0 <= k0 < |ranges| && ranges[k0].start <= m.start && m.end <= ranges[k0].end;
    var work := rest + [MemoryRange(current.start, m.start), MemoryRange(m.end, current.end)];
    SpliceWorklist(rest, current, m, address, count);
    forall i | 0 <= i < count && Pending(work, address + i) ensures newResult[i] == 0 {
      assert Pending(before, address + i);
    }
    forall i | 0 <= i < count && !Covered(ranges, address + i) ensures newResult[i] == 0 {
      if m.Contains(address + i) {
        assert ranges[k0].Contains(address + i);
      }
    }
  }
}
