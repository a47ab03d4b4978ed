/** The typed-value codec of com/modbus/modbuslayer.cpp: values travel as their memory bytes, with the 16-bit
    words of longer types in reverse order. */
module ModbusCodec {
  import opened Arith
  import opened Seqs

  type Byte = int

  datatype DataType =
    | BOOL | SINT | USINT | BYTE
    | INT | UINT | WORD
    | DINT | UDINT | DWORD | REAL
    | LINT | ULINT | LWORD | LREAL
    | Unsupported

  // An unsupported type is skipped on both ways.
  function Size(t: DataType): (n: nat)
    ensures n <= 2 || n == 4 || n == 8
  {
    match t
    case BOOL => 1 case SINT => 1 case USINT => 1 case BYTE => 1
    case INT => 2 case UINT => 2 case WORD => 2
    case DINT => 4 case UDINT => 4 case DWORD => 4 case REAL => 4
    case LINT => 8 case ULINT => 8 case LWORD => 8 case LREAL => 8
    case Unsupported => 0
  }

  // A value is its bytes in memory order.
  datatype Value = Value(dataType: DataType, bytes: seq<Byte>)

  predicate WellTyped(v: Value) {
    |v.bytes| == Size(v.dataType)
  }

  predicate AllWellTyped(vs: seq<Value>) {
    forall i :: 0 <= i < |vs| ==> WellTyped(vs[i])
  }

  // ---------------------------------------------------------------- word order

  function SwapWords(b: seq<Byte>): (r: seq<Byte>)
    requires |b| % 2 == 0
    ensures |r| == |b|
  {
    if b == [] then [] else SwapWords(b[2..]) + b[..2]
  }

  // convertFBOutput when enough bytes are there
  function Convert(b: seq<Byte>): (r: seq<Byte>)
    requires |b| <= 2 || |b| % 2 == 0
    ensures |r| == |b|
  {
    if |b| > 2 then SwapWords(b) else b
  }

  lemma {:induction false} SwapWordsConcat(a: seq<Byte>, b: seq<Byte>)
    requires |a| % 2 == 0 && |b| % 2 == 0
    ensures SwapWords(a + b) == SwapWords(b) + SwapWords(a)
  {
    if a == [] {
      assert a + b == b;
    } else {
      assert (a + b)[2..] == a[2..] + b && (a + b)[..2] == a[..2];
      SwapWordsConcat(a[2..], b);
      AppendAssoc(SwapWords(b), SwapWords(a[2..]), a[..2]);
    }
  }

  lemma {:induction false} SwapWordsTwice(b: seq<Byte>)
    requires |b| % 2 == 0
    ensures SwapWords(SwapWords(b)) == b
  {
    if b != [] {
      SwapWordsConcat(SwapWords(b[2..]), b[..2]);
      SwapWordsTwice(b[2..]);
      assert SwapWords(b[..2]) == b[..2] by { assert b[..2][2..] == [] && b[..2][..2] == b[..2]; }
      assert b == b[..2] + b[2..];
    }
  }

  lemma {:induction false} SwapWordsAt(b: seq<Byte>, k: nat)
    requires |b| % 2 == 0 && 2 * k + 2 <= |b|
    ensures SwapWords(b)[2 * k] == b[|b| - 2 * k - 2] && SwapWords(b)[2 * k + 1] == b[|b| - 2 * k - 1]
  {
    if 2 * k + 2 < |b| { SwapWordsAt(b[2..], k); }
  }

  lemma ConvertTwice(b: seq<Byte>)
    requires |b| <= 2 || |b| % 2 == 0
    ensures Convert(Convert(b)) == b
  {
    if |b| > 2 { SwapWordsTwice(b); }
  }

  // On the wire the words of a longer value lie in reverse order and the bytes of each word in their own; a short
  // value travels as it is.
  lemma ConvertAt(b: seq<Byte>, k: nat)
    requires |b| > 2 && |b| % 2 == 0 && 2 * k + 2 <= |b|
    ensures Convert(b)[2 * k..2 * k + 2] == b[|b| - 2 * k - 2..|b| - 2 * k]
  {
    SwapWordsAt(b, k);
  }

  lemma ConvertShort(b: seq<Byte>)
    requires |b| <= 2
    ensures Convert(b) == b
  {
  }

  // A value takes the bytes of the width that IEC 61131-3 gives its type, and a truth value takes one.
  lemma SizesOfTypes(t: DataType)
    ensures Size(t) == 1 <==> t.BOOL? || t.SINT? || t.USINT? || t.BYTE?
    ensures Size(t) == 2 <==> t.INT? || t.UINT? || t.WORD?
    ensures Size(t) == 4 <==> t.DINT? || t.UDINT? || t.DWORD? || t.REAL?
    ensures Size(t) == 8 <==> t.LINT? || t.ULINT? || t.LWORD? || t.LREAL?
    ensures Size(t) == 0 <==> t.Unsupported?
  {
  }

  // ---------------------------------------------------------------- lists of values

  function Encode(vs: seq<Value>): seq<Byte>
    requires AllWellTyped(vs)
  {
    if vs == [] then [] else (assert WellTyped(vs[0]); Convert(vs[0].bytes)) + Encode(vs[1..])
  }

  function Types(vs: seq<Value>): (ts: seq<DataType>)
    ensures |ts| == |vs|
  {
    if vs == [] then [] else [vs[0].dataType] + Types(vs[1..])
  }

  function Total(ts: seq<DataType>): nat {
    if ts == [] then 0 else Size(ts[0]) + Total(ts[1..])
  }

  function Zeros(n: nat): (r: seq<Byte>)
    ensures |r| == n
  {
    seq(n, _ => 0)
  }

  // A value at index `at` is taken from the buffer, filled up to `fill`: the room left is computed in
  // unsigned 32-bit arithmetic.
  predicate Taken(fill: int, at: nat, t: DataType) {
    0 < Size(t) <= (fill - at) % UINT32
  }

  // Some value is taken from beyond the end of the buffer.
  predicate Overruns(cap: nat, fill: int, at: nat, ts: seq<DataType>)
    decreases |ts|
  {
    ts != [] &&
    ((Taken(fill, at, ts[0]) && at + Size(ts[0]) > cap) || Overruns(cap, fill, at + Size(ts[0]), ts[1..]))
  }

  function Read(buffer: seq<Byte>, fill: int, at: nat, t: DataType): (r: seq<Byte>)
    requires Taken(fill, at, t) ==> at + Size(t) <= |buffer|
    ensures |r| == Size(t)
  {
    if Taken(fill, at, t) then Convert(buffer[at..at + Size(t)]) else Zeros(Size(t))
  }

  function Decode(buffer: seq<Byte>, fill: int, at: nat, ts: seq<DataType>): seq<Value>
    requires !Overruns(|buffer|, fill, at, ts)
    decreases |ts|
  {
    if ts == [] then []
    else [Value(ts[0], Read(buffer, fill, at, ts[0]))] + Decode(buffer, fill, at + Size(ts[0]), ts[1..])
  }

  lemma {:induction false} RoomForAll(cap: nat, fill: int, at: nat, ts: seq<DataType>)
    requires at + Total(ts) <= cap
    ensures !Overruns(cap, fill, at, ts)
    decreases |ts|
  {
    if ts != [] { RoomForAll(cap, fill, at + Size(ts[0]), ts[1..]); }
  }

  lemma {:induction false} EncodeLength(vs: seq<Value>)
    requires AllWellTyped(vs)
    ensures |Encode(vs)| == Total(Types(vs)) <= 8 * |vs|
  {
    if vs != [] {
      EncodeLength(vs[1..]);
      assert Types(vs)[1..] == Types(vs[1..]);
    }
  }

  lemma Sliced(buffer: seq<Byte>, at: nat, fill: nat, a: seq<Byte>, b: seq<Byte>)
    requires at <= fill <= |buffer| && buffer[at..fill] == a + b
    ensures at + |a| + |b| == fill && buffer[at..at + |a|] == a && buffer[at + |a|..fill] == b
  {
    assert |buffer[at..fill]| == |a + b|;
    assert buffer[at..at + |a|] == buffer[at..fill][..|a|];
    assert buffer[at + |a|..fill] == buffer[at..fill][|a|..];
  }

  // The bytes of one value are read back from where they were written.
  lemma ReadConverted(v: Value, rest: seq<Byte>, buffer: seq<Byte>, at: nat, fill: nat)
    requires WellTyped(v) && at <= fill <= |buffer| && fill < UINT32
    requires buffer[at..fill] == Convert(v.bytes) + rest
    ensures at + Size(v.dataType) <= fill && buffer[at + Size(v.dataType)..fill] == rest
    ensures Read(buffer, fill, at, v.dataType) == v.bytes
  {
    Sliced(buffer, at, fill, Convert(v.bytes), rest);
    ConvertTwice(v.bytes);
    SmallMod(fill - at, UINT32);
  }

  lemma TypesFirst(vs: seq<Value>)
    requires vs != []
    ensures Types(vs) == [vs[0].dataType] + Types(vs[1..]) && Types(vs)[1..] == Types(vs[1..])
    ensures Total(Types(vs)) == Size(vs[0].dataType) + Total(Types(vs[1..]))
  {
  }

  lemma DecodeFirst(vs: seq<Value>, buffer: seq<Byte>, fill: int, at: nat)
    requires vs != [] && at + Size(vs[0].dataType) <= |buffer|
    requires Read(buffer, fill, at, vs[0].dataType) == vs[0].bytes
    requires !Overruns(|buffer|, fill, at + Size(vs[0].dataType), Types(vs[1..]))
    requires Decode(buffer, fill, at + Size(vs[0].dataType), Types(vs[1..])) == vs[1..]
    ensures Total(Types(vs)) == Size(vs[0].dataType) + Total(Types(vs[1..]))
    ensures !Overruns(|buffer|, fill, at, Types(vs))
    ensures Decode(buffer, fill, at, Types(vs)) == vs
  {
    TypesFirst(vs);
    assert vs == [vs[0]] + vs[1..];
  }

  // Decoding what was encoded, with the types of the values, gives back the values, bit for bit, and
  // consumes exactly the bytes produced.
  lemma {:induction false} DecodeEncode(vs: seq<Value>, buffer: seq<Byte>, at: nat, fill: nat)
    requires AllWellTyped(vs)
    requires fill == at + |Encode(vs)| <= |buffer| && fill < UINT32
    requires buffer[at..fill] == Encode(vs)
    ensures at + Total(Types(vs)) == fill && !Overruns(|buffer|, fill, at, Types(vs))
    ensures Decode(buffer, fill, at, Types(vs)) == vs
    decreases |vs|
  {
    if vs == [] {
      EncodeLength(vs);
    } else {
      assert WellTyped(vs[0]);
      ReadConverted(vs[0], Encode(vs[1..]), buffer, at, fill);
      DecodeEncode(vs[1..], buffer, at + Size(vs[0].dataType), fill);
      DecodeFirst(vs, buffer, fill, at);
    }
  }

  // ---------------------------------------------------------------- short replies

  function Offset(ts: seq<DataType>, i: nat): nat
    requires i <= |ts|
  {
    if i == 0 then 0 else Size(ts[0]) + Offset(ts[1..], i - 1)
  }

  lemma {:induction false} OffsetWithin(ts: seq<DataType>, i: nat)
    requires i < |ts|
    ensures Offset(ts, i) + Size(ts[i]) <= Total(ts)
    decreases |ts|
  {
    if i > 0 { OffsetWithin(ts[1..], i - 1); }
  }

  predicate Holds(bytes: seq<Byte>, at: nat, part: seq<Byte>) {
    at + |part| <= |bytes| && bytes[at..at + |part|] == part
  }

  lemma HoldsBehind(first: seq<Byte>, rest: seq<Byte>, at: nat, part: seq<Byte>)
    ensures Holds(rest, at, part) ==> Holds(first + rest, |first| + at, part)
    ensures Holds(first + rest, 0, first)
  {
    if Holds(rest, at, part) {
      assert (first + rest)[|first| + at..|first| + at + |part|] == rest[at..at + |part|];
    }
  }

  lemma OffsetNext(vs: seq<Value>, i: nat)
    requires i < |vs|
    ensures Offset(Types(vs), i) == if i == 0 then 0 else Size(vs[0].dataType) + Offset(Types(vs[1..]), i - 1)
  {
    TypesFirst(vs);
  }

  lemma EncodeFirst(vs: seq<Value>)
    requires AllWellTyped(vs) && vs != []
    ensures WellTyped(vs[0]) && Encode(vs) == Convert(vs[0].bytes) + Encode(vs[1..])
    ensures |Convert(vs[0].bytes)| == Size(vs[0].dataType)
  {
    assert WellTyped(vs[0]);
  }

  // On the wire the bytes of each value lie at the sum of the sizes before it.
  lemma {:induction false} EncodeAt(vs: seq<Value>, i: nat)
    requires AllWellTyped(vs) && i < |vs|
    ensures WellTyped(vs[i]) && Holds(Encode(vs), Offset(Types(vs), i), Convert(vs[i].bytes))
    decreases i
  {
    EncodeFirst(vs);
    OffsetNext(vs, i);
    var first, rest := Convert(vs[0].bytes), Encode(vs[1..]);
    if i == 0 {
      HoldsBehind(first, rest, 0, []);
    } else {
      EncodeAt(vs[1..], i - 1);
      HoldsBehind(first, rest, Offset(Types(vs[1..]), i - 1), Convert(vs[1..][i - 1].bytes));
    }
  }

  lemma {:induction false} DecodeAt(buffer: seq<Byte>, fill: int, at: nat, ts: seq<DataType>, i: nat)
    requires !Overruns(|buffer|, fill, at, ts) && i < |ts|
    ensures |Decode(buffer, fill, at, ts)| == |ts|
    ensures Taken(fill, at + Offset(ts, i), ts[i]) ==> at + Offset(ts, i) + Size(ts[i]) <= |buffer|
    ensures Decode(buffer, fill, at, ts)[i] == Value(ts[i], Read(buffer, fill, at + Offset(ts, i), ts[i]))
    decreases |ts|
  {
    DecodeLength(buffer, fill, at, ts);
    if i == 0 {
    } else {
      DecodeAt(buffer, fill, at + Size(ts[0]), ts[1..], i - 1);
    }
  }

  lemma {:induction false} DecodeLength(buffer: seq<Byte>, fill: int, at: nat, ts: seq<DataType>)
    requires !Overruns(|buffer|, fill, at, ts)
    ensures |Decode(buffer, fill, at, ts)| == |ts|
    decreases |ts|
  {
    if ts != [] { DecodeLength(buffer, fill, at + Size(ts[0]), ts[1..]); }
  }

  // Every value the reply does not cover reads as zero.
  ghost predicate ZeroFills(buffer: seq<Byte>, fill: nat, ts: seq<DataType>)
    requires Total(ts) <= |buffer|
  {
    RoomForAll(|buffer|, fill, 0, ts);
    DecodeLength(buffer, fill, 0, ts);
    forall i | 0 <= i < |ts| && Offset(ts, i) + Size(ts[i]) > fill ::
      Decode(buffer, fill, 0, ts)[i].bytes == Zeros(Size(ts[i]))
  }

  // No value starts beyond the end of the reply.
  predicate NoneBeyond(fill: nat, ts: seq<DataType>) {
    forall i | 0 <= i < |ts| && Size(ts[i]) > 0 :: Offset(ts, i) <= fill
  }

  function Ones(n: nat): (r: seq<Byte>)
    ensures |r| == n
  {
    seq(n, _ => 1)
  }

  lemma {:induction false} ConvertOnes(b: seq<Byte>)
    requires |b| > 0 && (|b| <= 2 || |b| % 2 == 0) && forall k :: 0 <= k < |b| ==> b[k] == 1
    ensures Convert(b)[0] == 1
  {
    if |b| > 2 {
      SwapWordsAt(b, 0);
    }
  }

  lemma CutOffReadsZero(buffer: seq<Byte>, fill: nat, ts: seq<DataType>)
    requires fill < UINT32 && Total(ts) == |buffer| && NoneBeyond(fill, ts)
    ensures ZeroFills(buffer, fill, ts)
  {
    RoomForAll(|buffer|, fill, 0, ts);
    DecodeLength(buffer, fill, 0, ts);
    forall i | 0 <= i < |ts| && Offset(ts, i) + Size(ts[i]) > fill
      ensures Decode(buffer, fill, 0, ts)[i].bytes == Zeros(Size(ts[i]))
    {
      DecodeAt(buffer, fill, 0, ts, i);
      if Size(ts[i]) > 0 { SmallMod(fill - Offset(ts, i), UINT32); }
    }
  }

  lemma BeyondReadsOldBytes(fill: nat, ts: seq<DataType>, i: nat)
    requires Total(ts) < UINT32 - 8 && i < |ts| && Size(ts[i]) > 0 && Offset(ts, i) > fill
    ensures !Overruns(Total(ts), fill, 0, ts) && |Decode(Ones(Total(ts)), fill, 0, ts)| == |ts|
    ensures Decode(Ones(Total(ts)), fill, 0, ts)[i].bytes != Zeros(Size(ts[i]))
  {
    var buffer, at := Ones(Total(ts)), Offset(ts, i);
    RoomForAll(Total(ts), fill, 0, ts);
    OffsetWithin(ts, i);
    DecodeAt(buffer, fill, 0, ts, i);
    DivModUnique(fill - at, UINT32, -1, fill - at + UINT32);
    ConvertOnes(buffer[at..at + Size(ts[i])]);
    assert Zeros(Size(ts[i]))[0] == 0;
  }

  // A value cut off by the end of the reply reads as zero.  For one that starts beyond it the
  // subtraction wraps around and old bytes of the buffer are read; so missing values are zero,
  // whatever the buffer held before, exactly if none starts beyond the reply.
  lemma ZeroFillExactly(fill: nat, ts: seq<DataType>)
    requires fill < UINT32 && Total(ts) < UINT32 - 8
    ensures (forall buffer | |buffer| == Total(ts) :: ZeroFills(buffer, fill, ts)) <==> NoneBeyond(fill, ts)
  {
    if NoneBeyond(fill, ts) {
      forall buffer | |buffer| == Total(ts) ensures ZeroFills(buffer, fill, ts) {
        CutOffReadsZero(buffer, fill, ts);
      }
    } else {
      var i :| 0 <= i < |ts| && Size(ts[i]) > 0 && Offset(ts, i) > fill;
      BeyondReadsOldBytes(fill, ts, i);
      assert Offset(ts, i) + Size(ts[i]) > fill;
      assert !ZeroFills(Ones(Total(ts)), fill, ts);
    }
  }

  // Every value with a size begins inside the reply or ends inside the buffer.
  predicate WithinReach(cap: nat, fill: nat, at: nat, ts: seq<DataType>) {
    forall i | 0 <= i < |ts| && Size(ts[i]) > 0 :: at + Offset(ts, i) <= fill || at + Offset(ts, i) + Size(ts[i]) <= cap
  }

  lemma WithinReachNext(cap: nat, fill: nat, at: nat, ts: seq<DataType>)
    requires ts != []
    ensures WithinReach(cap, fill, at, ts) <==>
            && (Size(ts[0]) > 0 ==> at <= fill || at + Size(ts[0]) <= cap)
            && WithinReach(cap, fill, at + Size(ts[0]), ts[1..])
  {
    if WithinReach(cap, fill, at, ts) {
      forall i | 0 <= i < |ts[1..]| && Size(ts[1..][i]) > 0
        ensures at + Size(ts[0]) + Offset(ts[1..], i) <= fill
                || at + Size(ts[0]) + Offset(ts[1..], i) + Size(ts[1..][i]) <= cap
      {
        assert Offset(ts, i + 1) == Size(ts[0]) + Offset(ts[1..], i);
      }
    }
  }

  // Outputs that need more room than the receive buffer has: the code reads beyond it exactly if one of
  // them begins beyond the reply and does not end inside the buffer.
  lemma {:induction false} OverrunsExactly(cap: nat, fill: nat, at: nat, ts: seq<DataType>)
    requires fill <= cap && fill < UINT32 && at + Total(ts) < UINT32 - 8
    ensures Overruns(cap, fill, at, ts) <==> !WithinReach(cap, fill, at, ts)
    decreases |ts|
  {
    if ts != [] {
      WithinReachNext(cap, fill, at, ts);
      OverrunsExactly(cap, fill, at + Size(ts[0]), ts[1..]);
      if at <= fill {
        SmallMod(fill - at, UINT32);
      } else {
        DivModUnique(fill - at, UINT32, -1, fill - at + UINT32);
      }
    }
  }

  // ---------------------------------------------------------------- in place

  method ConvertFBOutput(source: array<Byte>, at: nat, size: nat, dataSize: int) returns (r: array<Byte>)
    requires (size <= dataSize ==> at + size <= source.Length) && (size <= 2 || size % 2 == 0)
    ensures fresh(r)
    ensures r[..] == if size <= dataSize then Convert(source[at..at + size]) else Zeros(size)
  {
    r := new Byte[size](_ => 0);
    if size <= dataSize {
      ghost var b := source[at..at + size];
      if size > 2 {
        ReverseWords(source, at, r);
      } else {
        var j := 0;
        while j < size
          invariant j <= size && source[at..at + size] == b
          invariant forall k :: 0 <= k < j ==> r[k] == b[k]
        {
          r[j] := source[at + j];
          j := j + 1;
        }
      }
      assert r[..] == Convert(b);
    }
  }

  method ReverseWords(source: array<Byte>, at: nat, r: array<Byte>)
    requires at + r.Length <= source.Length && r.Length % 2 == 0 && r != source
    modifies r
    ensures r[..] == SwapWords(source[at..at + r.Length])
  {
    ghost var b := source[at..at + r.Length];
    var words := r.Length / 2;
    var i := 0;
    while i < words
      invariant i <= words && source[at..at + r.Length] == b
      invariant forall k :: 0 <= k < 2 * i ==> r[k] == SwapWords(b)[k]
    {
      SwapWordsAt(b, i);
      var from := at + 2 * (words - 1 - i);
      r[2 * i] := source[from];
      r[2 * i + 1] := source[from + 1];
      i := i + 1;
    }
  }

  // The bytes written while the i-th value is next
  ghost predicate EncodedSoFar(vs: seq<Value>, i: nat, done: seq<Byte>)
    requires i <= |vs| && AllWellTyped(vs)
  {
    |done| <= 8 * i && done + Encode(vs[i..]) == Encode(vs)
  }

  lemma EncodedStep(vs: seq<Value>, i: nat, done: seq<Byte>)
    requires i < |vs| && AllWellTyped(vs) && EncodedSoFar(vs, i, done)
    ensures WellTyped(vs[i]) && EncodedSoFar(vs, i + 1, done + Convert(vs[i].bytes))
  {
    assert vs[i..][1..] == vs[i + 1..] && WellTyped(vs[i]);
    AppendAssoc(done, Convert(vs[i].bytes), Encode(vs[i + 1..]));
  }

  // sendData provides eight bytes per value.
  method ConvertDataInput(vs: seq<Value>, out: array<Byte>) returns (outLength: nat)
    requires AllWellTyped(vs) && out.Length >= 8 * |vs|
    modifies out
    ensures outLength == |Encode(vs)| <= out.Length && out[..outLength] == Encode(vs)
  {
    outLength := 0;
    var i := 0;
    assert vs[0..] == vs;
    while i < |vs|
      invariant i <= |vs| && outLength <= 8 * i && EncodedSoFar(vs, i, out[..outLength])
    {
      EncodedStep(vs, i, out[..outLength]);
      AppendValue(vs[i], out, outLength);
      outLength := outLength + |vs[i].bytes|;
      i := i + 1;
    }
    assert out[..outLength] + [] == out[..outLength];
  }

  method AppendValue(v: Value, out: array<Byte>, at: nat)
    requires WellTyped(v) && at + |v.bytes| <= out.Length
    modifies out
    ensures out[..at + |v.bytes|] == old(out[..at]) + Convert(v.bytes)
  {
    var n := |v.bytes|;
    var value := new Byte[n](k requires 0 <= k < n => v.bytes[k]);
    assert value[0..n] == v.bytes;
    var bytes := ConvertFBOutput(value, 0, n, n);
    Store(out, at, bytes);
  }

  method Store(out: array<Byte>, at: nat, bytes: array<Byte>)
    requires at + bytes.Length <= out.Length && out != bytes
    modifies out
    ensures out[..at + bytes.Length] == old(out[..at]) + bytes[..]
  {
    var k := 0;
    while k < bytes.Length
      invariant k <= bytes.Length && out[..at + k] == old(out[..at]) + bytes[..k]
    {
      out[at + k] := bytes[k];
      k := k + 1;
    }
  }

  // The values read while the i-th output is next
  ghost predicate DecodedSoFar(buffer: seq<Byte>, fill: int, ts: seq<DataType>, at: nat, i: nat, vs: seq<Value>)
    requires i <= |ts|
  {
    && Overruns(|buffer|, fill, at, ts[i..]) == Overruns(|buffer|, fill, 0, ts)
    && (!Overruns(|buffer|, fill, 0, ts) ==> vs + Decode(buffer, fill, at, ts[i..]) == Decode(buffer, fill, 0, ts))
  }

  lemma OverrunsNext(cap: nat, fill: int, at: nat, ts: seq<DataType>, i: nat)
    requires i < |ts|
    ensures Overruns(cap, fill, at, ts[i..]) ==
            ((Taken(fill, at, ts[i]) && at + Size(ts[i]) > cap) || Overruns(cap, fill, at + Size(ts[i]), ts[i + 1..]))
  {
    assert ts[i..][1..] == ts[i + 1..];
  }

  lemma DecodeNext(buffer: seq<Byte>, fill: int, at: nat, ts: seq<DataType>, i: nat)
    requires i < |ts| && !Overruns(|buffer|, fill, at, ts[i..])
    ensures !Overruns(|buffer|, fill, at + Size(ts[i]), ts[i + 1..])
    ensures Taken(fill, at, ts[i]) ==> at + Size(ts[i]) <= |buffer|
    ensures Decode(buffer, fill, at, ts[i..]) ==
            [Value(ts[i], Read(buffer, fill, at, ts[i]))] + Decode(buffer, fill, at + Size(ts[i]), ts[i + 1..])
  {
    assert ts[i..][1..] == ts[i + 1..];
  }

  lemma DecodedStep(buffer: seq<Byte>, fill: int, ts: seq<DataType>, at: nat, i: nat, vs: seq<Value>)
    requires i < |ts| && DecodedSoFar(buffer, fill, ts, at, i, vs)
    ensures Taken(fill, at, ts[i]) && at + Size(ts[i]) > |buffer| ==> Overruns(|buffer|, fill, 0, ts)
    ensures (Taken(fill, at, ts[i]) ==> at + Size(ts[i]) <= |buffer|) ==>
              DecodedSoFar(buffer, fill, ts, at + Size(ts[i]), i + 1,
                           vs + [Value(ts[i], Read(buffer, fill, at, ts[i]))])
  {
    OverrunsNext(|buffer|, fill, at, ts, i);
    if !Overruns(|buffer|, fill, 0, ts) {
      DecodeNext(buffer, fill, at, ts, i);
      AppendAssoc(vs, [Value(ts[i], Read(buffer, fill, at, ts[i]))],
                  Decode(buffer, fill, at + Size(ts[i]), ts[i + 1..]));
    }
  }

  // processInterrupt for a connected client with these output types.  outside says that a value was taken from
  // beyond the buffer; then nothing is known about the values.
  method ProcessInterrupt(buffer: array<Byte>, fill: int, ts: seq<DataType>)
    returns (vs: seq<Value>, ghost outside: bool)
    ensures outside <==> Overruns(buffer.Length, fill, 0, ts)
    ensures !outside ==> vs == Decode(buffer[..], fill, 0, ts)
  {
    vs := [];
    var at: nat := 0;
    var i := 0;
    ghost var b := buffer[..];
    assert ts[0..] == ts;
    while i < |ts|
      invariant i <= |ts| && buffer[..] == b && DecodedSoFar(b, fill, ts, at, i, vs)
    {
      var t := ts[i];
      DecodedStep(b, fill, ts, at, i, vs);
      if Taken(fill, at, t) && at + Size(t) > buffer.Length {
        return vs, true;
      }
      var v := ReadValue(buffer, fill, at, t);
      vs := vs + [v];
      at := at + Size(t);
      i := i + 1;
    }
    assert vs + [] == vs;
    outside := false;
  }

  // An output of an unsupported type is skipped.
  method ReadValue(buffer: array<Byte>, fill: int, at: nat, t: DataType) returns (v: Value)
    requires Taken(fill, at, t) ==> at + Size(t) <= buffer.Length
    ensures v == Value(t, Read(buffer[..], fill, at, t))
  {
    if Size(t) == 0 {
      return Value(t, []);
    }
    var bytes := ConvertFBOutput(buffer, at, Size(t), (fill - at) % UINT32);
    if Taken(fill, at, t) {
      assert buffer[..][at..at + Size(t)] == buffer[at..at + Size(t)];
    }
    v := Value(t, bytes[..]);
  }
}
