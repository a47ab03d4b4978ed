/** How the ranges of an I/O block share one buffer: com/modbus/modbusioblock.cpp, modbuspoll.cpp and
    modbusconnection.cpp. Sizes and offsets are 32-bit unsigned numbers. */
module ModbusLayout {
  import opened Arith
  import opened Seqs
  import opened ModbusAddress

  function RegisterSize(f: Function): (n: nat)
    ensures n == 1 || n == 2
  {
    match f
    case DiscreteInput => 1
    case Coil => 1
    case InputRegister => 2
    case HoldingRegister => 2
  }

  // The bytes a range really takes.
  function Extent(r: Range): nat {
    RegisterSize(r.function_) * r.count
  }

  function Total(ranges: seq<Range>): nat {
    if ranges == [] then 0 else Extent(ranges[0]) + Total(ranges[1..])
  }

  lemma {:induction false} TotalAppend(ranges: seq<Range>, r: Range)
    ensures Total(ranges + [r]) == Total(ranges) + Extent(r)
  {
    AppendTail(ranges, [r]);
    if ranges != [] {
      TotalAppend(ranges[1..], r);
    }
  }

  // The unsigned sum, for every order of wrapping around.
  function Advance(index: nat, r: Range): (next: nat)
    ensures next < UINT32
  {
    (index + Extent(r) % UINT32) % UINT32
  }

  lemma AdvanceIs(index: nat, r: Range)
    ensures Advance(index, r) == (index + Extent(r)) % UINT32
  {
    var e := Extent(r);
    ModMulAdd(index + e % UINT32, e / UINT32, UINT32);
    assert e == e % UINT32 + e / UINT32 * UINT32;
  }

  lemma ModAdd(total: nat, e: nat)
    ensures (total % UINT32 + e) % UINT32 == (total + e) % UINT32
  {
    ModMulAdd(total % UINT32 + e, total / UINT32, UINT32);
    assert total == total % UINT32 + total / UINT32 * UINT32;
  }

  // ---------------------------------------------------------------- calls into the Modbus library

  // A range that is transferred from or to the buffer at an offset.
  datatype Call = Call(range: Range, offset: nat) {
    function End(): nat {
      offset + Extent(range)
    }
  }

  function Transferred(calls: seq<Call>): (ranges: seq<Range>)
    ensures |ranges| == |calls|
  {
    seq(|calls|, k requires 0 <= k < |calls| => calls[k].range)
  }

  // The slices follow each other from the one offset to the other.
  predicate Tiles(calls: seq<Call>, from: nat, end: nat) {
    if calls == [] then from == end
    else calls[0].offset == from && Tiles(calls[1..], calls[0].End(), end)
  }

  function Covering(calls: seq<Call>, byte: nat): nat {
    if calls == [] then 0
    else (if calls[0].offset <= byte < calls[0].End() then 1 else 0) + Covering(calls[1..], byte)
  }

  lemma {:induction false} TilesForward(calls: seq<Call>, from: nat, end: nat)
    requires Tiles(calls, from, end)
    ensures from <= end
  {
    if calls != [] {
      TilesForward(calls[1..], calls[0].End(), end);
    }
  }

  // Slices that tile do not overlap and leave no byte out.
  lemma {:induction false} EachByteOnce(calls: seq<Call>, from: nat, end: nat, byte: nat)
    requires Tiles(calls, from, end)
    ensures Covering(calls, byte) == if from <= byte < end then 1 else 0
  {
    if calls != [] {
      TilesForward(calls[1..], calls[0].End(), end);
      EachByteOnce(calls[1..], calls[0].End(), end, byte);
    }
  }

  // The slices follow each other and stay in the buffer.
  predicate Consecutive(calls: seq<Call>, from: nat, size: nat) {
    calls == [] ||
    (calls[0].offset == from && calls[0].End() <= size && Consecutive(calls[1..], calls[0].End(), size))
  }

  // The end of the first range that does not fit looks small, because it has wrapped around.
  predicate WrapsAtFirstMisfit(ranges: seq<Range>, size: nat, index: nat) {
    ranges != [] &&
    var end := index + Extent(ranges[0]);
    if end <= size then WrapsAtFirstMisfit(ranges[1..], size, end) else end % UINT32 <= size
  }

  // Where the k-th range begins when all before it are there in full
  function Begin(ranges: seq<Range>, k: nat): nat
    requires k <= |ranges|
  {
    if k == 0 then 0 else Extent(ranges[0]) + Begin(ranges[1..], k - 1)
  }

  // A bit takes one byte of the buffer and a register two.
  lemma ExtentsOfFunctions(start: nat, count: nat)
    ensures Extent(Range(Coil, start, count)) == Extent(Range(DiscreteInput, start, count)) == count
    ensures Extent(Range(HoldingRegister, start, count)) == Extent(Range(InputRegister, start, count)) == count + count
  {
  }

  // ---------------------------------------------------------------- reading a block

  // The loop of readOneBlock from dataIndex on.
  function ReadCalls(ranges: seq<Range>, readSize: nat, index: nat): (calls: seq<Call>)
    ensures |calls| <= |ranges|
  {
    if ranges == [] then []
    else
      var next := Advance(index, ranges[0]);
      if next > readSize then []
      else [Call(ranges[0], index)] + ReadCalls(ranges[1..], readSize, next)
  }

  lemma {:induction false} ReadCallsTile(ranges: seq<Range>, index: nat)
    requires index + Total(ranges) < UINT32
    ensures var calls := ReadCalls(ranges, index + Total(ranges), index);
            Transferred(calls) == ranges && Tiles(calls, index, index + Total(ranges))
  {
    if ranges != [] {
      var next := index + Extent(ranges[0]);
      AdvanceIs(index, ranges[0]);
      SmallMod(next, UINT32);
      ReadCallsTile(ranges[1..], next);
      var rest := ReadCalls(ranges[1..], next + Total(ranges[1..]), next);
      var calls := [Call(ranges[0], index)] + rest;
      assert calls[1..] == rest;
      assert Transferred(calls) == [ranges[0]] + Transferred(rest);
    }
  }

  lemma {:induction false} TilesTotal(calls: seq<Call>, from: nat, end: nat)
    requires Tiles(calls, from, end)
    ensures end == from + Total(Transferred(calls))
  {
    if calls != [] {
      TilesTotal(calls[1..], calls[0].End(), end);
      assert Transferred(calls)[1..] == Transferred(calls[1..]);
    }
  }

  // Every range is read into its own slice, and the slices tile the cache, exactly when the recorded size has not
  // wrapped around. Then the overflow break is never taken.
  lemma ReadsTileTheCache(ranges: seq<Range>)
    ensures var readSize := Total(ranges) % UINT32;
            var calls := ReadCalls(ranges, readSize, 0);
            Transferred(calls) == ranges && Tiles(calls, 0, readSize) <==> Total(ranges) < UINT32
  {
    var readSize := Total(ranges) % UINT32;
    var calls := ReadCalls(ranges, readSize, 0);
    if Total(ranges) < UINT32 {
      SmallMod(Total(ranges), UINT32);
      ReadCallsTile(ranges, 0);
    } else if Tiles(calls, 0, readSize) {
      TilesTotal(calls, 0, readSize);
    }
  }

  // No read leaves the cache, whatever its size, exactly when nothing wraps where they end.
  lemma {:induction false} ReadsStayInCache(ranges: seq<Range>, size: nat, index: nat)
    requires index <= size < UINT32
    ensures Consecutive(ReadCalls(ranges, size, index), index, size) <==> !WrapsAtFirstMisfit(ranges, size, index)
  {
    if ranges != [] {
      var end := index + Extent(ranges[0]);
      AdvanceIs(index, ranges[0]);
      if end <= size {
        SmallMod(end, UINT32);
        ReadsStayInCache(ranges[1..], size, end);
        assert ReadCalls(ranges, size, index)[1..] == ReadCalls(ranges[1..], size, end);
      }
    }
  }

  // Each read goes to where its range begins, and reading ends at the first range that does not fit.
  lemma {:induction false} ReadCallsAt(ranges: seq<Range>, size: nat, index: nat, k: nat)
    requires index <= size < UINT32 && !WrapsAtFirstMisfit(ranges, size, index) && k < |ranges|
    ensures var calls, at := ReadCalls(ranges, size, index), index + Begin(ranges, k);
            && (k < |calls| <==> at + Extent(ranges[k]) <= size)
            && (k < |calls| ==> calls[k] == Call(ranges[k], at))
    decreases k
  {
    var end := index + Extent(ranges[0]);
    AdvanceIs(index, ranges[0]);
    if end <= size {
      SmallMod(end, UINT32);
      if k > 0 {
        ReadCallsAt(ranges[1..], size, end, k - 1);
      }
    } else if k > 0 {
      BeginGrows(ranges, k);
    }
  }

  lemma BeginGrows(ranges: seq<Range>, k: nat)
    requires 0 < k <= |ranges|
    ensures Begin(ranges, k) >= Extent(ranges[0])
  {
  }

  // ---------------------------------------------------------------- writing a block

  // The loop of writeData from dataIndex on; a range that does not fit any more is cut short.
  function WriteCalls(ranges: seq<Range>, size: nat, index: nat): (calls: seq<Call>)
    requires index <= size
    ensures |calls| <= |ranges|
  {
    if ranges == [] then []
    else
      var r := ranges[0];
      var next := Advance(index, r);
      if next > size then [Call(r.(count := (size - index) / RegisterSize(r.function_)), index)]
      else [Call(r, index)] + WriteCalls(ranges[1..], size, next)
  }

  // What writeData returns.
  function WrittenBytes(ranges: seq<Range>, size: nat, index: nat): (end: nat)
    requires index <= size
    ensures end <= size
  {
    if ranges == [] then index
    else
      var next := Advance(index, ranges[0]);
      if next > size then index else WrittenBytes(ranges[1..], size, next)
  }

  lemma CutShort(r: Range, size: nat, index: nat)
    requires index <= size < index + Extent(r)
    ensures var cut := (size - index) / RegisterSize(r.function_);
            && cut < r.count && index + Extent(r.(count := cut)) <= size
            && index + Extent(r.(count := cut + 1)) > size
  {
  }

  // Writes are consecutive and never leave the given buffer, exactly when nothing wraps where they end.
  lemma {:induction false} WritesStayInBuffer(ranges: seq<Range>, size: nat, index: nat)
    requires index <= size < UINT32
    ensures Consecutive(WriteCalls(ranges, size, index), index, size) <==> !WrapsAtFirstMisfit(ranges, size, index)
  {
    if ranges != [] {
      var r := ranges[0];
      var end := index + Extent(r);
      AdvanceIs(index, r);
      if end <= size {
        SmallMod(end, UINT32);
        WritesStayInBuffer(ranges[1..], size, end);
        assert WriteCalls(ranges, size, index)[1..] == WriteCalls(ranges[1..], size, end);
      } else {
        CutShort(r, size, index);
      }
    }
  }

  // The range goes out in full, or cut short to as many registers as there is room for.
  predicate FillsRoom(c: Call, r: Range, at: nat, size: nat) {
    && c.offset == at && c.range == r.(count := c.range.count) && c.End() <= size
    && if at + Extent(r) <= size then c.range.count == r.count
       else c.range.count < r.count && at + Extent(r.(count := c.range.count + 1)) > size
  }

  lemma WriteFirst(ranges: seq<Range>, size: nat, index: nat)
    requires index <= size < UINT32 && !WrapsAtFirstMisfit(ranges, size, index) && ranges != []
    ensures var calls, end := WriteCalls(ranges, size, index), index + Extent(ranges[0]);
            && calls != [] && FillsRoom(calls[0], ranges[0], index, size)
            && (end > size ==> |calls| == 1)
            && (end <= size ==> !WrapsAtFirstMisfit(ranges[1..], size, end))
            && (end <= size ==> calls[1..] == WriteCalls(ranges[1..], size, end))
  {
    var end := index + Extent(ranges[0]);
    AdvanceIs(index, ranges[0]);
    if end <= size {
      SmallMod(end, UINT32);
    } else {
      CutShort(ranges[0], size, index);
    }
  }

  // Each range goes out from where it begins, in full as long as it fits; the first that does not is cut short to
  // what there is room for, and nothing follows it.  The bytes reported are those of the ranges sent in full.
  lemma {:induction false} WriteCallsAt(ranges: seq<Range>, size: nat, index: nat, k: nat)
    requires index <= size < UINT32 && !WrapsAtFirstMisfit(ranges, size, index) && k < |ranges|
    ensures var calls, at := WriteCalls(ranges, size, index), index + Begin(ranges, k);
            && (k < |calls| <==> at <= size)
            && (k < |calls| ==> FillsRoom(calls[k], ranges[k], at, size))
    decreases k
  {
    WriteFirst(ranges, size, index);
    if k > 0 {
      BeginGrows(ranges, k);
      if index + Extent(ranges[0]) <= size {
        WriteCallsAt(ranges[1..], size, index + Extent(ranges[0]), k - 1);
      }
    }
  }

  lemma {:induction false} WrittenInFull(ranges: seq<Range>, size: nat, index: nat, k: nat)
    requires index <= size < UINT32 && !WrapsAtFirstMisfit(ranges, size, index)
    requires k <= |ranges| && index + Begin(ranges, k) <= size
    requires k == |ranges| || index + Begin(ranges, k) + Extent(ranges[k]) > size
    ensures WrittenBytes(ranges, size, index) == index + Begin(ranges, k)
    decreases k
  {
    if ranges != [] {
      var end := index + Extent(ranges[0]);
      AdvanceIs(index, ranges[0]);
      if k > 0 {
        BeginGrows(ranges, k);
        SmallMod(end, UINT32);
        WrittenInFull(ranges[1..], size, end, k - 1);
      }
    }
  }

  lemma {:induction false} SmallTotalNeverWraps(ranges: seq<Range>, size: nat, index: nat)
    requires index + Total(ranges) < UINT32
    ensures !WrapsAtFirstMisfit(ranges, size, index)
  {
    if ranges != [] {
      var end := index + Extent(ranges[0]);
      SmallMod(end, UINT32);
      SmallTotalNeverWraps(ranges[1..], size, end);
    }
  }

  lemma TransferredTail(r: Range, index: nat, rest: seq<Call>, ranges: seq<Range>)
    requires ranges != [] && ranges[0] == r
    ensures Transferred([Call(r, index)] + rest) == ranges <==> Transferred(rest) == ranges[1..]
  {
    var all := Transferred([Call(r, index)] + rest);
    assert all == [r] + Transferred(rest);
    assert all[1..] == Transferred(rest);
    assert ranges == [ranges[0]] + ranges[1..];
  }

  // All ranges go out in full exactly when they fit, and then all their bytes are reported as written.
  lemma {:induction false} AllSentIfTheyFit(ranges: seq<Range>, size: nat, index: nat)
    requires index <= size < UINT32 && !WrapsAtFirstMisfit(ranges, size, index)
    ensures Transferred(WriteCalls(ranges, size, index)) == ranges <==> index + Total(ranges) <= size
    ensures index + Total(ranges) <= size ==> WrittenBytes(ranges, size, index) == index + Total(ranges)
  {
    if ranges != [] {
      var r := ranges[0];
      var end := index + Extent(r);
      AdvanceIs(index, r);
      if end <= size {
        SmallMod(end, UINT32);
        AllSentIfTheyFit(ranges[1..], size, end);
        TransferredTail(r, index, WriteCalls(ranges[1..], size, end), ranges);
      } else {
        CutShort(r, size, index);
        var cut := r.(count := (size - index) / RegisterSize(r.function_));
        assert WriteCalls(ranges, size, index) == [Call(cut, index)];
        assert Transferred([Call(cut, index)])[0] == cut;
      }
    }
  }

  // A buffer of the recorded send size takes all ranges, unless that size has wrapped around.
  lemma RecordedSizeSuffices(ranges: seq<Range>, size: nat)
    requires Total(ranges) < UINT32 && Total(ranges) % UINT32 <= size < UINT32
    ensures var calls := WriteCalls(ranges, size, 0);
            Transferred(calls) == ranges && Consecutive(calls, 0, size)
    ensures WrittenBytes(ranges, size, 0) == Total(ranges)
  {
    SmallMod(Total(ranges), UINT32);
    SmallTotalNeverWraps(ranges, size, 0);
    AllSentIfTheyFit(ranges, size, 0);
    WritesStayInBuffer(ranges, size, 0);
  }

  // ---------------------------------------------------------------- the block and its two users

  type Byte = int

  // What a read returns: the bytes of its slice, or an error that leaves the slice alone.
  datatype Answer = Failed | Success(bytes: seq<Byte>)

  predicate Fits(ranges: seq<Range>, answers: seq<Answer>) {
    |answers| == |ranges| &&
    forall k :: 0 <= k < |ranges| && answers[k].Success? ==> |answers[k].bytes| == Extent(ranges[k])
  }

  function Slice(cache: seq<Byte>, r: Range, answer: Answer): (bytes: seq<Byte>)
    requires Extent(r) <= |cache| && (answer.Success? ==> |answer.bytes| == Extent(r))
    ensures |bytes| == Extent(r)
  {
    if answer.Failed? then cache[..Extent(r)] else answer.bytes
  }

  // A cache after reading: slice by slice the answer or what was there, up to the first range without room.
  function Overlaid(cache: seq<Byte>, ranges: seq<Range>, answers: seq<Answer>): (r: seq<Byte>)
    requires Fits(ranges, answers)
    ensures |r| == |cache|
    decreases |ranges|
  {
    if ranges == [] || Extent(ranges[0]) > |cache| then cache
    else
      Slice(cache, ranges[0], answers[0]) + Overlaid(cache[Extent(ranges[0])..], ranges[1..], answers[1..])
  }

  // What the library returns for one call: a failure is -1.
  function Returned(c: Call, answer: Answer): int {
    if answer.Failed? then -1 else c.range.count
  }

  // nrVals
  function Sum(calls: seq<Call>, answers: seq<Answer>): int
    requires |calls| <= |answers|
  {
    if calls == [] then 0 else Returned(calls[0], answers[0]) + Sum(calls[1..], answers[1..])
  }

  lemma {:induction false} SumAppend(calls: seq<Call>, c: Call, answers: seq<Answer>)
    requires |calls| < |answers|
    ensures Sum(calls + [c], answers) == Sum(calls, answers) + Returned(c, answers[|calls|])
  {
    AppendTail(calls, [c]);
    if calls != [] {
      SumAppend(calls[1..], c, answers[1..]);
    }
  }

  function Joined(answers: seq<Answer>): seq<Byte> {
    if answers == [] then []
    else (if answers[0].Failed? then [] else answers[0].bytes) + Joined(answers[1..])
  }

  // When every read succeeds the cache is exactly the answers in order.
  lemma {:induction false} AllReadMeansJoined(cache: seq<Byte>, ranges: seq<Range>, answers: seq<Answer>)
    requires Fits(ranges, answers) && Total(ranges) == |cache|
    requires forall k :: 0 <= k < |answers| ==> answers[k].Success?
    ensures Overlaid(cache, ranges, answers) == Joined(answers)
    decreases |ranges|
  {
    if ranges != [] {
      AllReadMeansJoined(cache[Extent(ranges[0])..], ranges[1..], answers[1..]);
    }
  }

  predicate HasPart(all: seq<Byte>, at: nat, part: seq<Byte>) {
    at + |part| <= |all| && all[at..at + |part|] == part
  }

  lemma PartBehind(first: seq<Byte>, rest: seq<Byte>, at: nat, part: seq<Byte>)
    ensures HasPart(rest, at, part) ==> HasPart(first + rest, |first| + at, part)
    ensures HasPart(first + rest, 0, first)
  {
    if HasPart(rest, at, part) {
      assert (first + rest)[|first| + at..|first| + at + |part|] == rest[at..at + |part|];
    }
  }

  lemma PartOf(all: seq<Byte>, first: nat, at: nat, size: nat)
    requires first + at + size <= |all|
    ensures all[first..][at..at + size] == all[first + at..first + at + size]
  {
  }

  // What an answer makes of the slice that begins at an offset: a failed read leaves it alone.
  function AnswerAt(cache: seq<Byte>, at: nat, size: nat, answer: Answer): seq<Byte>
    requires at + size <= |cache|
  {
    match answer
    case Failed => cache[at..at + size]
    case Success(bytes) => bytes
  }

  lemma OverlaidFirst(cache: seq<Byte>, ranges: seq<Range>, answers: seq<Answer>)
    requires Fits(ranges, answers) && ranges != [] && Extent(ranges[0]) <= |cache|
    ensures Fits(ranges[1..], answers[1..])
    ensures Overlaid(cache, ranges, answers) ==
            AnswerAt(cache, 0, Extent(ranges[0]), answers[0])
            + Overlaid(cache[Extent(ranges[0])..], ranges[1..], answers[1..])
    ensures |AnswerAt(cache, 0, Extent(ranges[0]), answers[0])| == Extent(ranges[0])
  {
  }

  lemma AnswerBehind(cache: seq<Byte>, first: nat, at: nat, size: nat, answer: Answer)
    requires first + at + size <= |cache|
    ensures AnswerAt(cache[first..], at, size, answer) == AnswerAt(cache, first + at, size, answer)
  {
    PartOf(cache, first, at, size);
  }

  // The slice of the k-th range holds what its answer makes of it.
  predicate Answered(cache: seq<Byte>, now: seq<Byte>, ranges: seq<Range>, answers: seq<Answer>, k: nat)
    requires k < |ranges| == |answers| && Begin(ranges, k) + Extent(ranges[k]) <= |cache|
  {
    HasPart(now, Begin(ranges, k), AnswerAt(cache, Begin(ranges, k), Extent(ranges[k]), answers[k]))
  }

  lemma AnsweredBehind(cache: seq<Byte>, slice: seq<Byte>, later: seq<Byte>, ranges: seq<Range>, answers: seq<Answer>,
                       k: nat)
    requires 0 < k < |ranges| == |answers| && Begin(ranges, k) + Extent(ranges[k]) <= |cache|
    requires |slice| == Extent(ranges[0]) <= |cache|
    requires Answered(cache[Extent(ranges[0])..], later, ranges[1..], answers[1..], k - 1)
    ensures Answered(cache, slice + later, ranges, answers, k)
  {
    var at, size := Begin(ranges[1..], k - 1), Extent(ranges[k]);
    AnswerBehind(cache, |slice|, at, size, answers[k]);
    PartBehind(slice, later, at, AnswerAt(cache, |slice| + at, size, answers[k]));
  }

  // A slice of the cache is the answer, or what it was when its read failed ...
  lemma {:induction false} OverlaidAt(cache: seq<Byte>, ranges: seq<Range>, answers: seq<Answer>, k: nat)
    requires Fits(ranges, answers) && k < |ranges| && Begin(ranges, k) + Extent(ranges[k]) <= |cache|
    ensures Answered(cache, Overlaid(cache, ranges, answers), ranges, answers, k)
    decreases k
  {
    if k > 0 { BeginGrows(ranges, k); }
    OverlaidFirst(cache, ranges, answers);
    var slice := AnswerAt(cache, 0, Extent(ranges[0]), answers[0]);
    var later := Overlaid(cache[Extent(ranges[0])..], ranges[1..], answers[1..]);
    if k == 0 {
      PartBehind(slice, later, 0, []);
    } else {
      OverlaidAt(cache[Extent(ranges[0])..], ranges[1..], answers[1..], k - 1);
      AnsweredBehind(cache, slice, later, ranges, answers, k);
    }
  }

  // ... and behind the slices that fit nothing changes.
  lemma {:induction false} OverlaidBehind(cache: seq<Byte>, ranges: seq<Range>, answers: seq<Answer>, k: nat)
    requires Fits(ranges, answers) && k <= |ranges| && Begin(ranges, k) <= |cache|
    requires k == |ranges| || Begin(ranges, k) + Extent(ranges[k]) > |cache|
    ensures Overlaid(cache, ranges, answers)[Begin(ranges, k)..] == cache[Begin(ranges, k)..]
    decreases k
  {
    if k > 0 {
      BeginGrows(ranges, k);
      var first, at := Extent(ranges[0]), Begin(ranges[1..], k - 1);
      var slice, rest := Slice(cache, ranges[0], answers[0]), Overlaid(cache[first..], ranges[1..], answers[1..]);
      OverlaidBehind(cache[first..], ranges[1..], answers[1..], k - 1);
      assert (slice + rest)[first + at..] == rest[at..];
      assert cache[first..][at..] == cache[first + at..];
    }
  }

  class IOBlock {
    var readRanges: seq<Range>
    var sendRanges: seq<Range>
    var cache: array?<Byte>
    var readSize: nat
    var sendSize: nat

    // The recorded sizes are those of the ranges, and the cache has the read size.
    ghost predicate Valid()
      reads this
    {
      && readSize == Total(readRanges) % UINT32
      && sendSize == Total(sendRanges) % UINT32
      && (cache != null ==> cache.Length == readSize)
    }

    constructor ()
      ensures Valid() && readRanges == [] && sendRanges == [] && cache == null
    {
      readRanges, sendRanges, cache, readSize, sendSize := [], [], null, 0, 0;
    }

    method AllocCache()
      requires Valid()
      modifies this`cache
      ensures Valid() && cache != null && fresh(cache)
      ensures forall k :: 0 <= k < cache.Length ==> cache[k] == 0
    {
      cache := new Byte[readSize](_ => 0);
    }

    // A cache that is there already is replaced by one that has room for the new range too.
    method AddNewRead(r: Range)
      requires Valid()
      modifies this`readRanges, this`readSize, this`cache
      ensures Valid() && readRanges == old(readRanges) + [r]
      ensures (cache == null) == (old(cache) == null)
      ensures cache != null ==> fresh(cache) && forall k :: 0 <= k < cache.Length ==> cache[k] == 0
    {
      TotalAppend(readRanges, r);
      AdvanceIs(readSize, r);
      ModAdd(Total(readRanges), Extent(r));
      readRanges := readRanges + [r];
      readSize := Advance(readSize, r);
      if cache != null {
        cache := null;
        AllocCache();
      }
    }

    method AddNewSend(r: Range)
      requires Valid()
      modifies this`sendRanges, this`sendSize
      ensures Valid() && sendRanges == old(sendRanges) + [r]
    {
      TotalAppend(sendRanges, r);
      AdvanceIs(sendSize, r);
      ModAdd(Total(sendRanges), Extent(r));
      sendRanges := sendRanges + [r];
      sendSize := Advance(sendSize, r);
    }
  }

  // One read changes its slice of the cache only.
  ghost predicate IsFilled(was: seq<Byte>, now: seq<Byte>, index: nat, r: Range, answer: Answer)
    requires index + Extent(r) <= |was| && (answer.Success? ==> |answer.bytes| == Extent(r))
  {
    |now| == |was| && now[..index] == was[..index] &&
    now[index..] == Slice(was[index..], r, answer) + was[index + Extent(r)..]
  }

  // One call of the library, which reads into the cache; of a read beyond its end, the bytes inside are kept.
  method Fill(cache: array<Byte>, c: Call, answer: Answer) returns (value: int)
    requires answer.Success? ==> |answer.bytes| == Extent(c.range)
    modifies cache
    ensures value == Returned(c, answer)
    ensures c.End() <= cache.Length ==> IsFilled(old(cache[..]), cache[..], c.offset, c.range, answer)
  {
    if answer.Failed? {
      return -1;
    }
    forall j | 0 <= j < |answer.bytes| && c.offset + j < cache.Length {
      cache[c.offset + j] := answer.bytes[j];
    }
    return c.range.count;
  }

  lemma SplitAt(all: seq<Byte>, index: nat, before: seq<Byte>, slice: seq<Byte>, after: seq<Byte>)
    requires index <= |all| && all[..index] == before && all[index..] == slice + after
    ensures all[..index + |slice|] == before + slice && all[index + |slice|..] == after
  {
    assert all == before + (slice + after);
  }

  lemma SameEnd(a: seq<Byte>, b: seq<Byte>, index: nat, next: nat)
    requires index <= next <= |a| == |b| && a[index..] == b[index..]
    ensures a[next..] == b[next..]
  {
    assert a[next..] == a[index..][next - index..];
    assert b[next..] == b[index..][next - index..];
  }

  // Up to the index the new bytes, with what is still to come, make the whole; behind it nothing has changed.
  ghost predicate Growing(was: seq<Byte>, now: seq<Byte>, index: nat, later: seq<Byte>, whole: seq<Byte>) {
    index <= |was| == |now| && now[index..] == was[index..] && now[..index] + later == whole
  }

  lemma GrowingStep(was: seq<Byte>, before: seq<Byte>, now: seq<Byte>, index: nat, next: nat, slice: seq<Byte>,
                    later: seq<Byte>, whole: seq<Byte>)
    requires Growing(was, before, index, slice + later, whole)
    requires index <= next <= |was| == |now| && |slice| == next - index
    requires now[..index] == before[..index] && now[index..] == slice + before[next..]
    ensures Growing(was, now, next, later, whole)
  {
    SameEnd(before, was, index, next);
    SplitAt(now, index, before[..index], slice, was[next..]);
    AppendAssoc(before[..index], slice, later);
  }

  // What the ranges from the k-th on make of the old bytes behind the index
  function Later(was: seq<Byte>, index: nat, ranges: seq<Range>, answers: seq<Answer>, k: nat): seq<Byte>
    requires Fits(ranges, answers) && k <= |ranges| && index <= |was|
  {
    Overlaid(was[index..], ranges[k..], answers[k..])
  }

  lemma LaterStep(was: seq<Byte>, index: nat, next: nat, ranges: seq<Range>, answers: seq<Answer>, k: nat)
    requires Fits(ranges, answers) && k < |ranges| && next == index + Extent(ranges[k]) <= |was|
    ensures Later(was, index, ranges, answers, k) ==
            Slice(was[index..], ranges[k], answers[k]) + Later(was, next, ranges, answers, k + 1)
  {
    assert ranges[k..][1..] == ranges[k + 1..] && answers[k..][1..] == answers[k + 1..];
    assert was[index..][Extent(ranges[k])..] == was[next..];
  }

  // The cache while the k-th range is next: answers in front of the index, as before behind it.
  ghost predicate Underway(was: seq<Byte>, now: seq<Byte>, index: nat, ranges: seq<Range>, answers: seq<Answer>, k: nat)
    requires Fits(ranges, answers) && k <= |ranges|
  {
    index <= |was| && Growing(was, now, index, Later(was, index, ranges, answers, k), Overlaid(was, ranges, answers))
  }

  lemma UnderwayStep(was: seq<Byte>, before: seq<Byte>, now: seq<Byte>, index: nat, next: nat, ranges: seq<Range>,
                     answers: seq<Answer>, k: nat)
    requires Fits(ranges, answers) && k < |ranges| && next == index + Extent(ranges[k]) <= |was|
    requires Underway(was, before, index, ranges, answers, k)
    requires IsFilled(before, now, index, ranges[k], answers[k])
    ensures Underway(was, now, next, ranges, answers, k + 1)
  {
    LaterStep(was, index, next, ranges, answers, k);
    GrowingStep(was, before, now, index, next, Slice(was[index..], ranges[k], answers[k]),
                Later(was, next, ranges, answers, k + 1), Overlaid(was, ranges, answers));
  }

  lemma UnderwayEnd(was: seq<Byte>, now: seq<Byte>, index: nat, ranges: seq<Range>, answers: seq<Answer>, k: nat)
    requires Fits(ranges, answers) && k <= |ranges|
    requires Underway(was, now, index, ranges, answers, k)
    requires k == |ranges| || index + Extent(ranges[k]) > |was|
    ensures now == Overlaid(was, ranges, answers)
  {
    assert now == now[..index] + now[index..];
  }

  // One pass of the loop when the k-th range is next
  lemma ReadStep(ranges: seq<Range>, size: nat, index: nat, k: nat)
    requires k < |ranges| && index <= size < UINT32
    ensures var next, end := Advance(index, ranges[k]), index + Extent(ranges[k]);
            && ReadCalls(ranges[k..], size, index) ==
               (if next > size then [] else [Call(ranges[k], index)] + ReadCalls(ranges[k + 1..], size, next))
            && (end <= size ==> next == end)
  {
    assert ranges[k..][1..] == ranges[k + 1..];
    if index + Extent(ranges[k]) <= size {
      AdvanceFits(index, ranges[k]);
    }
  }

  lemma WrapsStep(ranges: seq<Range>, size: nat, index: nat, k: nat)
    requires k < |ranges| && index <= size < UINT32
    ensures var next, end := Advance(index, ranges[k]), index + Extent(ranges[k]);
            && (end <= size ==> next == end)
            && WrapsAtFirstMisfit(ranges[k..], size, index) ==
               (if end <= size then WrapsAtFirstMisfit(ranges[k + 1..], size, next) else next <= size)
  {
    assert ranges[k..][1..] == ranges[k + 1..];
    AdvanceIs(index, ranges[k]);
    if index + Extent(ranges[k]) <= size {
      AdvanceFits(index, ranges[k]);
    }
  }

  // Whether the cache was left, when the k-th range is next
  ghost predicate LeftSoFar(ranges: seq<Range>, size: nat, index: nat, k: nat, outside: bool)
    requires k <= |ranges|
  {
    (outside || WrapsAtFirstMisfit(ranges[k..], size, index)) == WrapsAtFirstMisfit(ranges, size, 0)
  }

  lemma LeftStep(ranges: seq<Range>, size: nat, index: nat, k: nat, outside: bool)
    requires k < |ranges| && index <= size < UINT32
    requires LeftSoFar(ranges, size, index, k, outside) && (outside ==> WrapsAtFirstMisfit(ranges, size, 0))
    ensures var next, end := Advance(index, ranges[k]), index + Extent(ranges[k]);
            && (next > size ==> (outside <==> WrapsAtFirstMisfit(ranges, size, 0)))
            && (next <= size ==> LeftSoFar(ranges, size, next, k + 1, outside || end > size))
            && (next <= size && (outside || end > size) ==> WrapsAtFirstMisfit(ranges, size, 0))
  {
    WrapsStep(ranges, size, index, k);
  }

  // The calls made and what they returned, when the k-th range is next
  ghost predicate CalledSoFar(ranges: seq<Range>, answers: seq<Answer>, size: nat, index: nat, calls: seq<Call>,
                              values: int)
    requires |calls| <= |ranges| == |answers|
  {
    && calls + ReadCalls(ranges[|calls|..], size, index) == ReadCalls(ranges, size, 0)
    && values == Sum(calls, answers)
  }

  lemma CalledStep(ranges: seq<Range>, answers: seq<Answer>, size: nat, index: nat, calls: seq<Call>, values: int)
    requires |calls| < |ranges| == |answers| && index <= size < UINT32
    requires CalledSoFar(ranges, answers, size, index, calls, values)
    ensures var c := Call(ranges[|calls|], index);
            var next := Advance(index, c.range);
            if next > size then calls == ReadCalls(ranges, size, 0)
            else CalledSoFar(ranges, answers, size, next, calls + [c], values + Returned(c, answers[|calls|]))
  {
    var k := |calls|;
    var c := Call(ranges[k], index);
    var next := Advance(index, c.range);
    ReadStep(ranges, size, index, k);
    if next <= size {
      AppendAssoc(calls, [c], ReadCalls(ranges[k + 1..], size, next));
      SumAppend(calls, c, answers);
    } else {
      assert calls + [] == calls;
    }
  }

  // The cache, and whether it was left, when the k-th range is next
  ghost predicate CachedSoFar(ranges: seq<Range>, answers: seq<Answer>, was: seq<Byte>, now: seq<Byte>, index: nat,
                              k: nat, outside: bool)
    requires Fits(ranges, answers) && k <= |ranges|
  {
    && |now| == |was|
    && LeftSoFar(ranges, |was|, index, k, outside) && (outside ==> WrapsAtFirstMisfit(ranges, |was|, 0))
    && (!outside ==> Underway(was, now, index, ranges, answers, k))
  }

  lemma AdvanceFits(index: nat, range: Range)
    requires index + Extent(range) < UINT32
    ensures Advance(index, range) == index + Extent(range)
  {
    AdvanceIs(index, range);
    SmallMod(index + Extent(range), UINT32);
  }

  lemma CachedStep(ranges: seq<Range>, answers: seq<Answer>, was: seq<Byte>, before: seq<Byte>, now: seq<Byte>,
                   index: nat, k: nat, outside: bool)
    requires Fits(ranges, answers) && k < |ranges| && index <= |was| < UINT32 && |now| == |was|
    requires CachedSoFar(ranges, answers, was, before, index, k, outside)
    requires index + Extent(ranges[k]) <= |was| ==> IsFilled(before, now, index, ranges[k], answers[k])
    ensures var next, left := Advance(index, ranges[k]), outside || index + Extent(ranges[k]) > |was|;
            next <= |was| ==> CachedSoFar(ranges, answers, was, now, next, k + 1, left)
  {
    LeftStep(ranges, |was|, index, k, outside);
    if !outside && index + Extent(ranges[k]) <= |was| {
      AdvanceFits(index, ranges[k]);
      UnderwayStep(was, before, now, index, Advance(index, ranges[k]), ranges, answers, k);
    }
  }

  lemma CachedEnd(ranges: seq<Range>, answers: seq<Answer>, was: seq<Byte>, now: seq<Byte>, index: nat, k: nat,
                  outside: bool)
    requires Fits(ranges, answers) && k <= |ranges| && index <= |was| < UINT32
    requires CachedSoFar(ranges, answers, was, now, index, k, outside)
    requires k == |ranges| || Advance(index, ranges[k]) > |was|
    ensures outside <==> WrapsAtFirstMisfit(ranges, |was|, 0)
    ensures !outside ==> now == Overlaid(was, ranges, answers)
  {
    if k < |ranges| {
      LeftStep(ranges, |was|, index, k, outside);
      ReadStep(ranges, |was|, index, k);
    }
    if !outside {
      UnderwayEnd(was, now, index, ranges, answers, k);
    }
  }

  lemma ReadingStarts(ranges: seq<Range>, answers: seq<Answer>, was: seq<Byte>)
    requires Fits(ranges, answers)
    ensures CalledSoFar(ranges, answers, |was|, 0, [], 0) && CachedSoFar(ranges, answers, was, was, 0, 0, false)
  {
    assert ranges[0..] == ranges && answers[0..] == answers && was[0..] == was && was[..0] == [];
  }

  lemma CalledAll(ranges: seq<Range>, answers: seq<Answer>, size: nat, index: nat, calls: seq<Call>, values: int)
    requires |calls| == |ranges| == |answers| && CalledSoFar(ranges, answers, size, index, calls, values)
    ensures calls == ReadCalls(ranges, size, 0)
  {
    assert calls + [] == calls;
  }

  // readOneBlock: the answers of the device are given, the calls made and the sum of what they return come back.
  // outside says that a read has gone beyond the cache, into memory that is no part of it.
  method ReadOneBlock(block: IOBlock, answers: seq<Answer>) returns (calls: seq<Call>, values: int, ghost outside: bool)
    requires block.Valid() && block.cache != null && Fits(block.readRanges, answers)
    modifies block.cache
    ensures calls == ReadCalls(block.readRanges, block.readSize, 0)
    ensures values == Sum(calls, answers)
    ensures outside <==> WrapsAtFirstMisfit(block.readRanges, block.readSize, 0)
    ensures !outside ==> block.cache[..] == Overlaid(old(block.cache[..]), block.readRanges, answers)
  {
    var ranges, cache, size := block.readRanges, block.cache, block.readSize;
    ghost var was := cache[..];
    calls, values, outside := [], 0, false;
    var index, k := 0, 0;
    ReadingStarts(ranges, answers, was);
    while k < |ranges|
      invariant k == |calls| <= |ranges| && 0 <= index <= size
      invariant CalledSoFar(ranges, answers, size, index, calls, values)
      invariant CachedSoFar(ranges, answers, was, cache[..], index, k, outside)
    {
      var c := Call(ranges[k], index);
      var next := Advance(index, c.range);
      CalledStep(ranges, answers, size, index, calls, values);
      if next > size {
        CachedEnd(ranges, answers, was, cache[..], index, k, outside);
        return;
      }
      ghost var before := cache[..];
      var value := Fill(cache, c, answers[k]);
      CachedStep(ranges, answers, was, before, cache[..], index, k, outside);
      outside := outside || c.End() > size;
      calls, values := calls + [c], values + value;
      index, k := next, k + 1;
    }
    CalledAll(ranges, answers, size, index, calls, values);
    CachedEnd(ranges, answers, was, cache[..], index, k, outside);
  }

  // writeData: the calls made for a buffer of the given size, and the bytes reported as written.
  method WriteData(block: IOBlock, size: nat) returns (calls: seq<Call>, index: nat)
    requires block.Valid() && size < UINT32
    ensures calls == WriteCalls(block.sendRanges, size, 0)
    ensures index == WrittenBytes(block.sendRanges, size, 0)
    ensures Total(block.sendRanges) < UINT32 ==> Consecutive(calls, 0, size)
    ensures Total(block.sendRanges) < UINT32 && block.sendSize <= size ==>
              Transferred(calls) == block.sendRanges && index == Total(block.sendRanges)
  {
    var sendRanges := block.sendRanges;
    calls, index := [], 0;
    for k := 0 to |sendRanges|
      invariant index <= size
      invariant calls + WriteCalls(sendRanges[k..], size, index) == WriteCalls(sendRanges, size, 0)
      invariant WrittenBytes(sendRanges[k..], size, index) == WrittenBytes(sendRanges, size, 0)
    {
      assert sendRanges[k..][1..] == sendRanges[k + 1..];
      var next := Advance(index, sendRanges[k]);
      if next > size {
        var most := (size - index) / RegisterSize(sendRanges[k].function_);
        calls := calls + [Call(sendRanges[k].(count := most), index)];
        break;
      }
      AppendAssoc(calls, [Call(sendRanges[k], index)], WriteCalls(sendRanges[k + 1..], size, next));
      calls := calls + [Call(sendRanges[k], index)];
      index := next;
    }
    if Total(sendRanges) < UINT32 {
      SmallTotalNeverWraps(sendRanges, size, 0);
      WritesStayInBuffer(sendRanges, size, 0);
      if block.sendSize <= size {
        RecordedSizeSuffices(sendRanges, size);
      }
    }
  }

  // The range `h10..5`: it is read as one of 2^32 - 4 registers, so its size wraps around.
  const BACKWARD := Item(HoldingRegister, Lower, 10, 5, true)

  lemma BackwardRangeWraps()
    ensures var ranges := Ranges(ModbusAddress.Written([BACKWARD]), -1);
            ranges == [Range(HoldingRegister, 10, UINT32 - 4)] && Total(ranges) >= UINT32
  {
    ReadsBack([BACKWARD]);
    DivModUnique(-4, UINT32, -1, UINT32 - 4);
    OneRange(BACKWARD);
  }

  lemma OneRange(item: Item)
    ensures Meanings([item]) == [item.Meaning()]
    ensures Total([item.Meaning()]) == Extent(item.Meaning())
  {
    assert [item][1..] == [] && [item.Meaning()][1..] == [];
  }
}
