/** The C string functions the parsers are written with. A string is the characters before its NUL, and a position
    that the library would return as a pointer is an offset, or -1 for the null pointer. */
module CStrings {
  import opened Seqs

  const NUL := '\0'

  const UINT32_MAX: nat := 0xFFFF_FFFF

  // strstr, and strchr when the needle has one character.
  function Find(text: string, needle: string): (i: int)
    ensures -1 <= i <= |text|
    ensures i >= 0 ==> i + |needle| <= |text|
  {
    if needle <= text then 0
    else if text == [] then -1
    else
      var rest := Find(text[1..], needle);
      if rest < 0 then -1 else rest + 1
  }

  // A needle is not found before its first character occurs.
  lemma {:induction false} FindSkip(before: string, needle: string, after: string)
    requires needle != [] && needle[0] !in before
    ensures Find(before + after, needle) == if Find(after, needle) < 0 then -1 else |before| + Find(after, needle)
  {
    AppendTail(before, after);
    if before != [] {
      assert needle[0] != before[0];
      FindSkip(before[1..], needle, after);
    }
  }

  lemma {:induction false} FoundAt(text: string, needle: string)
    ensures var i := Find(text, needle); i >= 0 ==> text[i..i + |needle|] == needle
  {
    if !(needle <= text) && text != [] {
      FoundAt(text[1..], needle);
    }
  }

  lemma {:induction false} FindNone(text: string, c: char)
    ensures Find(text, [c]) < 0 <==> c !in text
  {
    if text != [] {
      FindNone(text[1..], c);
      assert text == [text[0]] + text[1..];
    }
  }

  predicate IsDigit(c: char) {
    '0' <= c <= '9'
  }

  function Digit(c: char): (d: nat)
    requires IsDigit(c)
    ensures d < 10
  {
    (c - '0') as nat
  }

  // std::to_string of an unsigned number
  function Decimal(n: nat): (s: string)
    ensures s != []
  {
    var digit := [('0' as nat + n % 10) as char];
    if n < 10 then digit else Decimal(n / 10) + digit
  }

  // The digits of strtoul in base 10, with value acc read so far; past 32 bits it saturates and stops.
  function ReadDigits(acc: nat, text: string): (n: nat)
    requires acc <= UINT32_MAX
    ensures n <= UINT32_MAX
    decreases |text|
  {
    if text == [] || !IsDigit(text[0]) then acc
    else
      var d := Digit(text[0]);
      if acc > UINT32_MAX / 10 || (acc == UINT32_MAX / 10 && d > UINT32_MAX % 10) then UINT32_MAX
      else ReadDigits(10 * acc + d, text[1..])
  }

  function Strtoul(text: string): (n: nat)
    ensures n <= UINT32_MAX
  {
    ReadDigits(0, text)
  }

  lemma {:induction false} DecimalDigits(n: nat, c: char)
    ensures c in Decimal(n) ==> IsDigit(c)
  {
    if n >= 10 {
      DecimalDigits(n / 10, c);
    }
  }

  // Reading starts with the printed number and goes on behind it.
  lemma {:induction false} ReadPrinted(n: nat, after: string)
    requires n <= UINT32_MAX
    ensures ReadDigits(0, Decimal(n) + after) == ReadDigits(n, after)
  {
    var digit := [('0' as nat + n % 10) as char];
    assert IsDigit(digit[0]) && Digit(digit[0]) == n % 10;
    AppendTail(digit, after);
    if n >= 10 {
      AppendAssoc(Decimal(n / 10), digit, after);
      ReadPrinted(n / 10, digit + after);
    }
  }

  // strtoul inverts to_string for every 32-bit number that is not followed by another digit.
  lemma StrtoulPrinted(n: nat, after: string)
    requires n <= UINT32_MAX
    requires after == [] || !IsDigit(after[0])
    ensures Strtoul(Decimal(n) + after) == n
  {
    ReadPrinted(n, after);
  }

  predicate AllDigits(text: string) {
    forall i :: 0 <= i < |text| ==> IsDigit(text[i])
  }

  lemma {:induction false} ReadOneMore(acc: nat, text: string, c: char, after: string)
    requires acc <= UINT32_MAX && AllDigits(text) && IsDigit(c) && (after == [] || !IsDigit(after[0]))
    ensures ReadDigits(acc, text + ([c] + after)) ==
            var n := 10 * ReadDigits(acc, text) + Digit(c); if n <= UINT32_MAX then n else UINT32_MAX
    decreases |text|
  {
    AppendTail(text, [c] + after);
    if text == [] {
      AppendTail([c], after);
      assert ReadDigits(acc, text) == acc;
    } else {
      assert IsDigit(text[0]);
      var d := Digit(text[0]);
      if !(acc > UINT32_MAX / 10 || (acc == UINT32_MAX / 10 && d > UINT32_MAX % 10)) {
        ReadOneMore(10 * acc + d, text[1..], c, after);
      }
    }
  }

  // strtoul reads digits in base 10, the most significant one first, saturates at 32 bits, and stops at the first
  // character that is no digit.
  lemma StrtoulReads(text: string, c: char, after: string)
    requires AllDigits(text) && IsDigit(c) && (after == [] || !IsDigit(after[0]))
    ensures Strtoul(text + ([c] + after)) ==
            var n := 10 * Strtoul(text) + Digit(c); if n <= UINT32_MAX then n else UINT32_MAX
    ensures Strtoul(after) == 0
  {
    ReadOneMore(0, text, c, after);
  }
}
