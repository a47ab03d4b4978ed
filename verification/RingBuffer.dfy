/** The bounded event queue of core/include/forte/util/ringbuf.h.  Both indices only ever grow, modulo the
    width of a machine word, and address the slots through a mask. */
module RingBuffer {
  import opened Arith

  const WORD: nat := 0x1_0000_0000_0000_0000

  // A divisor of the word, that is a power of two, whose mask is its predecessor.
  predicate SlotCount(size: nat) {
    0 < size < WORD && WORD % size == 0
  }

  lemma MaskOfWrapped(n: nat, size: nat)
    requires SlotCount(size)
    ensures (n % WORD) % size == n % size
  {
    var k := (n / WORD) * (WORD / size);
    assert n == n % WORD + k * size by {
      assert WORD == (WORD / size) * size;
      assert (n / WORD) * WORD == k * size by {
        assert (n / WORD) * ((WORD / size) * size) == k * size;
      }
    }
    MulLe(0, n / WORD, WORD / size);
    ModMulAdd(n % WORD, k, size);
  }

  lemma WrappedSum(a: nat, b: nat)
    ensures (a % WORD + b) % WORD == (a + b) % WORD
  {
    var r := a % WORD + b;
    assert a + b == r + (a / WORD) * WORD;
    ModMulAdd(r, a / WORD, WORD);
  }

  // Indices less than a word apart are equal exactly if their wrapped values are.
  lemma WrappedEqual(a: nat, b: nat)
    requires a <= b < a + WORD
    ensures a % WORD == b % WORD <==> a == b
  {
    if a % WORD == b % WORD {
      var q := b / WORD - a / WORD;
      assert b - a == q * WORD;
      MulLe(1, q, WORD);
      MulLe(q, -1, WORD);
    }
  }

  function Slot(k: nat, size: nat): (r: nat)
    requires size > 0
    ensures r < size
  {
    k % size
  }

  lemma SlotsDistinct(a: nat, b: nat, size: nat)
    requires size > 0 && a < b < a + size
    ensures Slot(a, size) != Slot(b, size)
  {
    if a % size == b % size {
      var q := b / size - a / size;
      assert b - a == q * size;
      MulLe(1, q, size);
      MulLe(q, 0, size);
    }
  }

  // The elements pushed as number first, first + 1, ..., next - 1.
  function Window<T>(d: seq<T>, first: nat, next: nat): seq<T>
    requires |d| > 0 && first <= next
  {
    seq(next - first, i requires 0 <= i < next - first => d[Slot(first + i, |d|)])
  }

  lemma WindowPush<T>(d: seq<T>, first: nat, next: nat, elem: T)
    requires |d| > 0 && first <= next < first + |d|
    ensures Window(d[Slot(next, |d|) := elem], first, next + 1) == Window(d, first, next) + [elem]
  {
    var w, was := Window(d[Slot(next, |d|) := elem], first, next + 1), Window(d, first, next);
    forall i | 0 <= i < |was| ensures w[i] == was[i] {
      SlotsDistinct(first + i, next, |d|);
    }
    assert w[next - first] == elem by { assert first + (next - first) == next; }
  }

  lemma WindowPop<T>(d: seq<T>, first: nat, next: nat)
    requires |d| > 0 && first < next
    ensures Window(d, first, next) == [d[Slot(first, |d|)]] + Window(d, first + 1, next)
  {
    var w := Window(d, first + 1, next);
    forall i | 0 <= i < |w| ensures w[i] == d[Slot(first + (i + 1), |d|)] {
      assert first + 1 + i == first + (i + 1);
    }
  }

  class RingBuffer<T(0)> {
    const size: nat
    const data: array<T>
    var pushIndex: nat
    var popIndex: nat
    ghost var pushed: nat  // how often push and pop succeeded since the last clear
    ghost var popped: nat

    ghost predicate Valid()
      reads this
    {
      && SlotCount(size) && data.Length == size
      && pushIndex == pushed % WORD && popIndex == popped % WORD
      && popped <= pushed < popped + size
    }

    ghost function Contents(): seq<T>
      requires Valid()
      reads this, data
    {
      Window(data[..], popped, pushed)
    }

    constructor (n: nat)
      requires SlotCount(n)
      ensures Valid() && Contents() == [] && size == n && fresh(data)
    {
      size := n;
      data := new T[n];
      pushIndex, popIndex, pushed, popped := 0, 0, 0, 0;
    }

    method IsEmpty() returns (empty: bool)
      requires Valid()
      ensures empty <==> Contents() == []
    {
      WrappedEqual(popped, pushed);
      empty := popIndex == pushIndex;
    }

    // One slot always stays free.
    method IsFull() returns (full: bool)
      requires Valid()
      ensures full <==> |Contents()| == size - 1
    {
      WrappedSum(popped, size - 1);
      WrappedEqual(pushed, popped + size - 1);
      full := pushIndex == (popIndex + (size - 1)) % WORD;
    }

    method Push(elem: T) returns (ok: bool)
      requires Valid()
      modifies this, data
      ensures Valid()
      ensures ok <==> |old(Contents())| < size - 1
      ensures Contents() == if ok then old(Contents()) + [elem] else old(Contents())
    {
      var full := IsFull();
      if full {
        return false;
      }
      MaskOfWrapped(pushed, size);
      WindowPush(data[..], popped, pushed, elem);
      ghost var was := data[..];
      data[pushIndex % size] := elem;
      assert data[..] == was[Slot(pushed, size) := elem];
      WrappedSum(pushed, 1);
      pushIndex := (pushIndex + 1) % WORD;
      pushed := pushed + 1;
      return true;
    }

    method Pop() returns (ok: bool, elem: T)
      requires Valid()
      modifies this
      ensures Valid()
      ensures ok <==> old(Contents()) != []
      ensures ok ==> old(Contents()) == [elem] + Contents()
      ensures !ok ==> Contents() == []
    {
      elem := data[0];
      var empty := IsEmpty();
      if empty {
        return false, elem;
      }
      MaskOfWrapped(popped, size);
      WindowPop(data[..], popped, pushed);
      elem := data[popIndex % size];
      WrappedSum(popped, 1);
      popIndex := (popIndex + 1) % WORD;
      popped := popped + 1;
      ok := true;
    }

    method Clear()
      requires Valid()
      modifies this
      ensures Valid() && Contents() == []
    {
      popIndex, pushIndex := 0, 0;
      pushed, popped := 0, 0;
    }
  }
}
