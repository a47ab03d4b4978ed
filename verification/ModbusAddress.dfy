/** The address lists of com/modbus/modbuslayer.cpp: ranges `[cdhi]start[..stop]` joined by commas. */
module ModbusAddress {
  import opened Arith
  import opened Seqs
  import opened CStrings

  datatype Function = DiscreteInput | Coil | InputRegister | HoldingRegister

  // SAddrRange
  datatype Range = Range(function_: Function, start: nat, count: nat)

  predicate IsLetter(c: char) {
    c in "cCdDhHiI"
  }

  function Letter(c: char): Function {
    if c == 'd' || c == 'D' then DiscreteInput
    else if c == 'c' || c == 'C' then Coil
    else if c == 'i' || c == 'I' then InputRegister
    else HoldingRegister
  }

  // decodeFunction: what is read at the index, and the index behind it.
  function DecodeFunction(text: string, i: nat): (r: (Function, nat))
    requires i <= |text|
    ensures i <= r.1 <= i + 1 && r.1 <= |text|
  {
    if i < |text| && IsLetter(text[i]) then (Letter(text[i]), i + 1) else (HoldingRegister, i)
  }

  function FindNextStartAddress(text: string, start: nat): (i: int)
    requires start <= |text|
    ensures i == -1 || start <= i < |text|
  {
    if start == 0 && text != [] && (IsDigit(text[0]) || IsLetter(text[0])) then 0
    else
      var tail := text[start..];
      var comma := Find(tail, ",");
      if comma >= 0 && comma < |tail| - 1 then start + comma + 1 else -1
  }

  function FindNextStopAddress(text: string, start: nat): (i: nat)
    requires start <= |text|
    ensures start <= i <= |text|
  {
    var tail := text[start..];
    var comma, dot := Find(tail, ","), Find(tail, ".");
    if comma >= 0 && dot >= 0 then
      if dot < comma && dot < |tail| - 2 then start + dot + 2 else start
    else if dot >= 0 && dot < |tail| - 2 then start + dot + 2
    else start
  }

  // The subtraction is one of 32-bit unsigned numbers.
  function Count(start: nat, stop: nat): (n: nat)
    ensures n < UINT32
  {
    (stop - start + 1) % UINT32
  }

  // The count of a range written backwards wraps around, and so does that of all 2^32 addresses.
  lemma CountIs(start: nat, stop: nat)
    requires start <= UINT32_MAX && stop <= UINT32_MAX
    ensures Count(start, stop) ==
            if stop - start + 1 < 0 then stop - start + 1 + UINT32
            else if stop - start + 1 < UINT32 then stop - start + 1 else 0
  {
    if stop - start + 1 < 0 {
      DivModUnique(stop - start + 1, UINT32, -1, stop - start + 1 + UINT32);
    } else if stop - start + 1 < UINT32 {
      SmallMod(stop - start + 1, UINT32);
    }
  }

  // One range, whose address starts at i: what it says, and where its last number starts.
  function ReadRange(text: string, i: nat): (r: (Range, nat))
    requires i <= |text|
    ensures i <= r.1 <= |text|
    ensures r.0.start < UINT32 && r.0.count < UINT32
  {
    var (f, first) := DecodeFunction(text, i);
    var start := Strtoul(text[first..]);
    var last := FindNextStopAddress(text, first);
    (Range(f, start, Count(start, Strtoul(text[last..]))), last)
  }

  // The ranges found when strIndex is `index` at the loop's guard.
  function Ranges(text: string, index: int): seq<Range>
    requires -1 <= index <= |text|
    decreases |text| - index
  {
    if index >= |text| - 1 then []
    else
      var i := FindNextStartAddress(text, index + 1);
      if i < 0 then []
      else
        var (range, last) := ReadRange(text, i);
        [range] + Ranges(text, last)
  }

  lemma RangesStep(text: string, index: int)
    requires -1 <= index < |text| - 1
    ensures var i := FindNextStartAddress(text, index + 1);
            Ranges(text, index) ==
            if i < 0 then [] else [ReadRange(text, i).0] + Ranges(text, ReadRange(text, i).1)
  {
  }

  // ---------------------------------------------------------------- the printer

  // The letter of a function
  datatype Case = Lower | Upper | NoLetter

  // How a range may be written: any letter case, no letter for holding registers, no stop when it is the start.
  datatype Item = Item(function_: Function, letterCase: Case, start: nat, stop: nat, dotted: bool) {

    predicate Valid() {
      && (letterCase == NoLetter ==> function_ == HoldingRegister)
      && start <= UINT32_MAX && stop <= UINT32_MAX
      && (dotted || stop == start)
    }

    function Prefix(): string {
      match (function_, letterCase)
      case (_, NoLetter) => ""
      case (DiscreteInput, Lower) => "d" case (DiscreteInput, Upper) => "D"
      case (Coil, Lower) => "c" case (Coil, Upper) => "C"
      case (InputRegister, Lower) => "i" case (InputRegister, Upper) => "I"
      case (HoldingRegister, Lower) => "h" case (HoldingRegister, Upper) => "H"
    }

    function Numbers(): string {
      if dotted then Decimal(start) + (".." + Decimal(stop)) else Decimal(start)
    }

    function Text(): string {
      Prefix() + Numbers()
    }

    function Meaning(): Range {
      Range(function_, start, Count(start, stop))
    }
  }

  function Written(items: seq<Item>): string {
    if items == [] then []
    else if |items| == 1 then items[0].Text()
    else items[0].Text() + ("," + Written(items[1..]))
  }

  function Meanings(items: seq<Item>): seq<Range> {
    if items == [] then [] else [items[0].Meaning()] + Meanings(items[1..])
  }

  predicate AllValid(items: seq<Item>) {
    forall k :: 0 <= k < |items| ==> items[k].Valid()
  }

  // ---------------------------------------------------------------- reading what was written

  // What may stand behind a range.
  predicate EndsRange(after: string) {
    after == [] || (after[0] == ',' && |after| > 1)
  }

  lemma DecimalHas(n: nat)
    ensures ',' !in Decimal(n) && '.' !in Decimal(n)
    ensures IsDigit(Decimal(n)[0])
  {
    DecimalDigits(n, ',');
    DecimalDigits(n, '.');
    DecimalDigits(n, Decimal(n)[0]);
  }

  lemma CommaBehind(number: string, after: string)
    requires ',' !in number && EndsRange(after)
    ensures Find(number + after, ",") == if after == [] then -1 else |number|
  {
    FindSkip(number, ",", after);
  }

  // Where the first dot and the first comma of a range with dots are.
  lemma MarksOfDotted(start: nat, stop: nat, after: string)
    ensures var text := Decimal(start) + (".." + (Decimal(stop) + after));
            Find(text, ".") == |Decimal(start)| &&
            (Find(text, ",") < 0 || Find(text, ",") > |Decimal(start)|)
  {
    var number, rest := Decimal(start), ".." + (Decimal(stop) + after);
    DecimalHas(start);
    FindSkip(number, ".", rest);
    assert "." <= rest;
    FindSkip(number, ",", rest);
    assert rest[0] == '.' && !("," <= rest);
  }

  // The stop address of a range with dots is behind them.
  lemma StopOfDotted(text: string, i: nat, start: nat, stop: nat, after: string)
    requires i <= |text| && text[i..] == Decimal(start) + (".." + (Decimal(stop) + after))
    ensures FindNextStopAddress(text, i) == i + |Decimal(start)| + 2
    ensures text[FindNextStopAddress(text, i)..] == Decimal(stop) + after
  {
    var skipped := |Decimal(start)| + 2;
    MarksOfDotted(start, stop, after);
    assert text[i..][skipped..] == Decimal(stop) + after;
    assert text[i + skipped..] == text[i..][skipped..];
  }

  lemma StopOfPlain(text: string, i: nat, start: nat, after: string)
    requires i <= |text| && text[i..] == Decimal(start) + after
    requires EndsRange(after)
    ensures FindNextStopAddress(text, i) == i
  {
    DecimalHas(start);
    CommaBehind(Decimal(start), after);
    FindSkip(Decimal(start), ".", after);
  }

  lemma NumbersReadBack(text: string, i: nat, item: Item, after: string) returns (last: nat)
    requires item.Valid() && EndsRange(after)
    requires i <= |text| && text[i..] == item.Numbers() + after
    ensures last == FindNextStopAddress(text, i)
    ensures Strtoul(text[i..]) == item.start
    ensures text[last..] == Decimal(item.stop) + after
    ensures Strtoul(text[last..]) == item.stop
  {
    last := FindNextStopAddress(text, i);
    if item.dotted {
      var rest := ".." + (Decimal(item.stop) + after);
      AppendAssoc("..", Decimal(item.stop), after);
      AppendAssoc(Decimal(item.start), ".." + Decimal(item.stop), after);
      StopOfDotted(text, i, item.start, item.stop, after);
      StrtoulPrinted(item.start, rest);
    } else {
      StopOfPlain(text, i, item.start, after);
      StrtoulPrinted(item.start, after);
    }
    StrtoulPrinted(item.stop, after);
  }

  // The letter of a function is read back as that function, in either case, and no letter as holding registers.
  lemma PrefixReadBack(text: string, i: nat, item: Item, rest: string)
    requires item.Valid() && i <= |text| && text[i..] == item.Prefix() + rest && rest != [] && IsDigit(rest[0])
    ensures DecodeFunction(text, i) == (item.function_, i + |item.Prefix()|)
    ensures text[i + |item.Prefix()|..] == rest
  {
    assert i < |text| && text[i] == text[i..][0];
    assert text[i + |item.Prefix()|..] == text[i..][|item.Prefix()|..];
  }

  lemma RangeReadBack(text: string, i: nat, item: Item, after: string)
    requires item.Valid() && EndsRange(after)
    requires i <= |text| && text[i..] == item.Text() + after
    ensures ReadRange(text, i).0 == item.Meaning()
    ensures text[ReadRange(text, i).1..] == Decimal(item.stop) + after
  {
    AppendAssoc(item.Prefix(), item.Numbers(), after);
    NumbersStart(item, after);
    PrefixReadBack(text, i, item, item.Numbers() + after);
    var _ := NumbersReadBack(text, i + |item.Prefix()|, item, after);
    ReadRangeIs(text, i, item.function_, i + |item.Prefix()|);
  }

  lemma ReadRangeIs(text: string, i: nat, f: Function, first: nat)
    requires i <= |text| && DecodeFunction(text, i) == (f, first)
    ensures var start, last := Strtoul(text[first..]), FindNextStopAddress(text, first);
            ReadRange(text, i) == (Range(f, start, Count(start, Strtoul(text[last..]))), last)
  {
  }

  lemma NumbersStart(item: Item, after: string)
    ensures item.Numbers() + after != [] && IsDigit((item.Numbers() + after)[0])
  {
    DecimalHas(item.start);
  }

  // From the last number of a range the search goes on behind the next comma.
  lemma NextStart(text: string, last: nat, stop: nat, after: string)
    requires EndsRange(after)
    requires last <= |text| && text[last..] == Decimal(stop) + after
    ensures last < |text|
    ensures after == [] ==> last == |text| - 1 || FindNextStartAddress(text, last + 1) == -1
    ensures after != [] ==>
      last < |text| - 1 &&
      var i := FindNextStartAddress(text, last + 1);
      i > last && text[i..] == after[1..]
  {
    DecimalHas(stop);
    AppendTail(Decimal(stop), after);
    assert text[last + 1..] == text[last..][1..];
    if last + 1 < |text| {
      CommaNext(text, last + 1, Decimal(stop)[1..], after);
    }
  }

  // What the search finds behind the digits that are left of a number
  lemma CommaNext(text: string, start: nat, number: string, after: string)
    requires EndsRange(after) && ',' !in number
    requires 0 < start <= |text| && text[start..] == number + after
    ensures after == [] ==> FindNextStartAddress(text, start) == -1
    ensures after != [] ==>
      var i := FindNextStartAddress(text, start);
      i >= start && text[i..] == after[1..]
  {
    CommaBehind(number, after);
    if after != [] {
      assert text[start + |number| + 1..] == text[start..][|number| + 1..];
    }
  }

  lemma {:induction false} ReadsBackFrom(text: string, i: nat, items: seq<Item>)
    requires items != [] && AllValid(items)
    requires i <= |text| && text[i..] == Written(items)
    ensures [ReadRange(text, i).0] + Ranges(text, ReadRange(text, i).1) == Meanings(items)
    decreases |items|
  {
    var rest := items[1..];
    var after := if rest == [] then [] else "," + Written(rest);
    assert text[i..] == items[0].Text() + after;
    if rest != [] {
      WrittenStarts(rest);
    }
    RangeReadBack(text, i, items[0], after);
    var last := ReadRange(text, i).1;
    NextStart(text, last, items[0].stop, after);
    if last < |text| - 1 {
      RangesStep(text, last);
    }
    if rest != [] {
      assert after[1..] == Written(rest);
      ReadsBackFrom(text, FindNextStartAddress(text, last + 1), rest);
    }
  }

  lemma WrittenStarts(items: seq<Item>)
    requires items != [] && AllValid(items)
    ensures Written(items) != []
    ensures IsDigit(Written(items)[0]) || IsLetter(Written(items)[0])
  {
    var item := items[0];
    DecimalHas(item.start);
    assert |item.Numbers()| > 0 && item.Numbers()[0] == Decimal(item.start)[0];
    assert Written(items)[0] == item.Text()[0];
    assert item.Prefix() == [] ==> item.Text() == item.Numbers();
  }

  // The parser inverts every way of writing every list of ranges.
  lemma ReadsBack(items: seq<Item>)
    requires AllValid(items)
    ensures Ranges(Written(items), -1) == Meanings(items)
  {
    if items != [] {
      var text := Written(items);
      WrittenStarts(items);
      assert text[0..] == text;
      ReadsBackFrom(text, 0, items);
    }
  }

  // ---------------------------------------------------------------- every string

  function Commas(text: string): nat {
    if text == [] then 0 else (if text[0] == ',' then 1 else 0) + Commas(text[1..])
  }

  lemma {:induction false} CommasSplit(text: string, k: nat)
    requires k <= |text|
    ensures Commas(text) == Commas(text[..k]) + Commas(text[k..])
  {
    if k == 0 {
      assert text[0..] == text;
    } else {
      CommasSplit(text[1..], k - 1);
      assert text[1..][..k - 1] == text[..k][1..] && text[1..][k - 1..] == text[k..];
    }
  }

  lemma {:induction false} FoundIsThere(text: string)
    ensures Find(text, ",") >= 0 ==> Find(text, ",") < |text| && text[Find(text, ",")] == ','
  {
    if text != [] && !("," <= text) {
      FoundIsThere(text[1..]);
    }
  }

  // A start address that is not at the front costs a comma.
  lemma StartCostsComma(text: string, start: nat, last: nat)
    requires start <= |text|
    requires 0 <= FindNextStartAddress(text, start) <= last <= |text|
    ensures Commas(text[last..]) <= Commas(text[start..])
    ensures start > 0 ==> Commas(text[last..]) + 1 <= Commas(text[start..])
  {
    var tail := text[start..];
    CommasSplit(tail, last - start);
    assert tail[last - start..] == text[last..];
    if start > 0 {
      var comma := Find(tail, ",");
      FoundIsThere(tail);
      var skipped := tail[..last - start];
      CommasSplit(skipped, comma);
      assert skipped[comma..][0] == ',';
    }
  }

  lemma CommasBehind(text: string, k: nat)
    requires k <= |text|
    ensures k < |text| ==> Commas(text[k + 1..]) <= Commas(text[k..])
  {
    if k < |text| {
      assert text[k..][1..] == text[k + 1..];
    }
  }

  lemma {:induction false} RangesBoundedFrom(text: string, index: int)
    requires -1 <= index <= |text|
    ensures index < |text| ==> |Ranges(text, index)| <= Commas(text[index + 1..]) + (if index < 0 then 1 else 0)
    decreases |text| - index
  {
    if index < |text| - 1 {
      var i := FindNextStartAddress(text, index + 1);
      if i >= 0 {
        var last := ReadRange(text, i).1;
        RangesBoundedFrom(text, last);
        assert |Ranges(text, index)| == 1 + |Ranges(text, last)|;
        StartCostsComma(text, index + 1, last);
        CommasBehind(text, last);
      }
    }
  }

  // Whatever the string, there is at most one range more than there are commas.
  lemma RangesBounded(text: string)
    ensures |Ranges(text, -1)| <= Commas(text) + 1
  {
    RangesBoundedFrom(text, -1);
    assert text[0..] == text;
  }

  // The ranges collected when strIndex is `index` at the loop's guard
  ghost predicate ReadSoFar(text: string, index: int, ranges: seq<Range>)
    requires -1 <= index <= |text|
  {
    ranges + Ranges(text, index) == Ranges(text, -1)
  }

  lemma ReadOne(text: string, index: int, ranges: seq<Range>)
    requires -1 <= index < |text| - 1 && ReadSoFar(text, index, ranges)
    ensures var i := FindNextStartAddress(text, index + 1);
            if i < 0 then ranges == Ranges(text, -1)
            else ReadSoFar(text, ReadRange(text, i).1, ranges + [ReadRange(text, i).0])
  {
    var i := FindNextStartAddress(text, index + 1);
    RangesStep(text, index);
    if i >= 0 {
      AppendAssoc(ranges, [ReadRange(text, i).0], Ranges(text, ReadRange(text, i).1));
    }
  }

  // The loop that fills mRead, and again mSend; their fixed size is the caller's concern, and commas bound it.
  method ReadAddresses(text: string) returns (ranges: seq<Range>)
    ensures ranges == Ranges(text, -1)
    ensures |ranges| <= Commas(text) + 1
  {
    ranges := [];
    var index := -1;
    RangesBounded(text);
    while index < |text| - 1
      invariant -1 <= index <= |text| && ReadSoFar(text, index, ranges)
    {
      ReadOne(text, index, ranges);
      index := index + 1;
      index := FindNextStartAddress(text, index);
      if index < 0 {
        return;
      }
      ghost var i := index;
      var decoded := DecodeFunction(text, index);
      index := decoded.1;
      var start := Strtoul(text[index..]);
      index := FindNextStopAddress(text, index);
      ranges := ranges + [Range(decoded.0, start, Count(start, Strtoul(text[index..])))];
      ReadRangeIs(text, i, decoded.0, decoded.1);
    }
  }
}
