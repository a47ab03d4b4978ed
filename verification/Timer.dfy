/** The tick-driven timer of core/src/timerha.cpp: a sorted list of timed entries, a list of entries
    waiting to be added and a list of function blocks waiting to be removed.  The class at the end
    works in place as the source does; everything before it is the specification it is proved
    against and the laws of that specification. */
module Timer {
  import opened Arith
  import opened Seqs

  type FbId = int

  // interval 0 is the one-shot indicator
  datatype Entry = Entry(fb: FbId, timeOut: nat, interval: nat)

  const ONE_SHOT: nat := 0

  datatype State = State(time: nat, timed: seq<Entry>, adds: seq<Entry>, removals: seq<FbId>)

  // ---------------------------------------------------------------- durations to ticks

  // Division of the signed 64-bit source truncates toward zero; the result is narrowed to 32 bits.
  function IntervalToTicks(duration: int, unit: nat): nat
    requires unit > 0
  {
    var ticks := if duration >= 0 then duration / unit else -(-duration / unit);
    if ticks > 0 then ticks % UINT32 else 1
  }

  // A periodic registration keeps its period, and is not mistaken for a one-shot, exactly for
  // durations below 2^32 ticks, resp. those that are no positive multiple of 2^32 ticks.
  lemma IntervalExact(duration: int, unit: nat)
    requires unit > 0
    ensures IntervalToTicks(duration, unit) == ONE_SHOT <==>
            duration >= UINT32 * unit && (duration / unit) % UINT32 == 0
    ensures duration >= unit ==>
              (IntervalToTicks(duration, unit) == duration / unit <==> duration < UINT32 * unit)
    ensures duration < unit ==> IntervalToTicks(duration, unit) == 1
  {
    if duration >= 0 {
      QuotientGe(duration, UINT32, unit);
      QuotientGe(duration, 1, unit);
      if duration / unit < UINT32 { SmallMod(duration / unit, UINT32); }
    }
  }

  // The quotient loses multiples of 2^32 and nothing else.
  lemma IntervalNarrows(duration: int, unit: nat) returns (k: nat)
    requires 0 < unit <= duration
    ensures duration / unit == IntervalToTicks(duration, unit) + k * UINT32 && IntervalToTicks(duration, unit) < UINT32
  {
    QuotientGe(duration, 1, unit);
    k := (duration / unit) / UINT32;
  }

  // ---------------------------------------------------------------- the sorted list

  predicate Sorted(l: seq<Entry>) {
    forall i, j :: 0 <= i < j < |l| ==> l[i].timeOut <= l[j].timeOut
  }

  predicate AllAfter(l: seq<Entry>, t: nat) {
    forall i :: 0 <= i < |l| ==> t < l[i].timeOut
  }

  // The number of leading entries that time out at t or before.
  function UpperBound(l: seq<Entry>, t: nat): (r: nat)
    ensures r <= |l|
  {
    if l == [] || t < l[0].timeOut then 0 else 1 + UpperBound(l[1..], t)
  }

  function Insert(l: seq<Entry>, e: Entry): seq<Entry> {
    var u := UpperBound(l, e.timeOut);
    l[..u] + [e] + l[u..]
  }

  function Remove(l: seq<Entry>, fb: FbId): seq<Entry> {
    if l == [] then [] else if l[0].fb == fb then Remove(l[1..], fb) else [l[0]] + Remove(l[1..], fb)
  }

  function RemoveEach(l: seq<Entry>, fbs: seq<FbId>): seq<Entry>
    decreases |fbs|
  {
    if fbs == [] then l else RemoveEach(Remove(l, fbs[0]), fbs[1..])
  }

  // ---------------------------------------------------------------- one tick

  // What firing these entries at `now` puts back into the list.
  function Rearmed(es: seq<Entry>, now: nat): seq<Entry> {
    if es == [] then []
    else if es[0].interval == ONE_SHOT then Rearmed(es[1..], now)
    else [es[0].(timeOut := now + es[0].interval)] + Rearmed(es[1..], now)
  }

  function InsertAll(l: seq<Entry>, es: seq<Entry>): seq<Entry>
    decreases |es|
  {
    if es == [] then l else InsertAll(Insert(l, es[0]), es[1..])
  }

  function Fbs(es: seq<Entry>): seq<FbId> {
    if es == [] then [] else [es[0].fb] + Fbs(es[1..])
  }

  // Added entries that are already due fire at once; the others enter the list as they are.
  function LateAdds(adds: seq<Entry>, now: nat): seq<Entry> {
    if adds == [] then []
    else if adds[0].timeOut <= now then [adds[0]] + LateAdds(adds[1..], now)
    else LateAdds(adds[1..], now)
  }

  function Merged(adds: seq<Entry>, now: nat): seq<Entry> {
    if adds == [] then []
    else (if adds[0].timeOut <= now then Rearmed([adds[0]], now) else [adds[0]]) + Merged(adds[1..], now)
  }

  function Kept(s: State): seq<Entry> {
    RemoveEach(s.timed, s.removals)
  }

  // The entries fired at `now`, and the list with their re-armed versions put back.
  function Due(l: seq<Entry>, now: nat): seq<Entry> {
    l[..UpperBound(l, now)]
  }

  function AfterDue(l: seq<Entry>, now: nat): seq<Entry> {
    InsertAll(l[UpperBound(l, now)..], Rearmed(Due(l, now), now))
  }

  // removals, then the due prefix of the list, then the additions
  function Tick(s: State): State {
    var now := s.time + 1;
    State(now, InsertAll(AfterDue(Kept(s), now), Merged(s.adds, now)), [], [])
  }

  function Fired(s: State): seq<FbId> {
    var now := s.time + 1;
    Fbs(Due(Kept(s), now)) + Fbs(LateAdds(s.adds, now))
  }

  ghost predicate Inv(s: State) {
    Sorted(s.timed) && AllAfter(s.timed, s.time)
  }

  // ---------------------------------------------------------------- sortedness is kept

  lemma {:induction false} UpperBoundSplits(l: seq<Entry>, t: nat)
    requires Sorted(l)
    ensures forall i :: 0 <= i < UpperBound(l, t) ==> l[i].timeOut <= t
    ensures AllAfter(l[UpperBound(l, t)..], t)
  {
    if l != [] && l[0].timeOut <= t {
      UpperBoundSplits(l[1..], t);
      assert l[1..][UpperBound(l[1..], t)..] == l[UpperBound(l, t)..];
    }
  }

  lemma InsertKeeps(l: seq<Entry>, e: Entry, t: nat)
    requires Sorted(l)
    ensures Sorted(Insert(l, e))
    ensures AllAfter(l, t) && t < e.timeOut ==> AllAfter(Insert(l, e), t)
  {
    UpperBoundSplits(l, e.timeOut);
    var u := UpperBound(l, e.timeOut);
    forall i | u <= i < |l| ensures e.timeOut < l[i].timeOut { assert l[i] == l[u..][i - u]; }
  }

  lemma {:induction false} InsertAllKeeps(l: seq<Entry>, es: seq<Entry>, t: nat)
    requires Sorted(l)
    ensures Sorted(InsertAll(l, es))
    ensures AllAfter(l, t) && AllAfter(es, t) ==> AllAfter(InsertAll(l, es), t)
    decreases |es|
  {
    if es != [] {
      InsertKeeps(l, es[0], t);
      InsertAllKeeps(Insert(l, es[0]), es[1..], t);
    }
  }

  lemma {:induction false} RemoveSubset(l: seq<Entry>, fb: FbId, e: Entry)
    ensures e in Remove(l, fb) <==> e in l && e.fb != fb
  {
    if l != [] {
      RemoveSubset(l[1..], fb, e);
      assert e in l <==> e == l[0] || e in l[1..];
    }
  }

  lemma {:induction false} RemoveKeeps(l: seq<Entry>, fb: FbId, t: nat)
    requires Sorted(l) && AllAfter(l, t)
    ensures Sorted(Remove(l, fb)) && AllAfter(Remove(l, fb), t)
  {
    if l != [] {
      RemoveKeeps(l[1..], fb, t);
      var r := Remove(l[1..], fb);
      forall i | 0 <= i < |r| ensures l[0].timeOut <= r[i].timeOut {
        RemoveSubset(l[1..], fb, r[i]);
      }
    }
  }

  lemma {:induction false} RemoveEachKeeps(l: seq<Entry>, fbs: seq<FbId>, t: nat)
    requires Sorted(l) && AllAfter(l, t)
    ensures Sorted(RemoveEach(l, fbs)) && AllAfter(RemoveEach(l, fbs), t)
    decreases |fbs|
  {
    if fbs != [] {
      RemoveKeeps(l, fbs[0], t);
      RemoveEachKeeps(Remove(l, fbs[0]), fbs[1..], t);
    }
  }

  lemma {:induction false} RearmedLater(es: seq<Entry>, now: nat)
    ensures AllAfter(Rearmed(es, now), now)
  {
    if es != [] { RearmedLater(es[1..], now); }
  }

  lemma {:induction false} MergedLater(adds: seq<Entry>, now: nat)
    ensures AllAfter(Merged(adds, now), now)
  {
    if adds != [] {
      RearmedLater([adds[0]], now);
      MergedLater(adds[1..], now);
    }
  }

  lemma AfterDueKeeps(l: seq<Entry>, now: nat)
    requires Sorted(l)
    ensures Sorted(AfterDue(l, now)) && AllAfter(AfterDue(l, now), now)
  {
    UpperBoundSplits(l, now);
    RearmedLater(Due(l, now), now);
    InsertAllKeeps(l[UpperBound(l, now)..], Rearmed(Due(l, now), now), now);
  }

  // After every tick the list is sorted and holds only timeouts strictly in the future.
  lemma TickKeepsInv(s: State)
    requires Inv(s)
    ensures Inv(Tick(s))
  {
    var now := s.time + 1;
    RemoveEachKeeps(s.timed, s.removals, s.time);
    AfterDueKeeps(Kept(s), now);
    MergedLater(s.adds, now);
    InsertAllKeeps(AfterDue(Kept(s), now), Merged(s.adds, now), now);
  }

  // ---------------------------------------------------------------- the list is a calendar queue

  // The entries that time out at t, in list order.
  function At(l: seq<Entry>, t: nat): seq<Entry> {
    if l == [] then [] else if l[0].timeOut == t then [l[0]] + At(l[1..], t) else At(l[1..], t)
  }

  lemma {:induction false} AtConcat(a: seq<Entry>, b: seq<Entry>, t: nat)
    ensures At(a + b, t) == At(a, t) + At(b, t)
  {
    AppendTail(a, b);
    if a != [] {
      AtConcat(a[1..], b, t);
      AppendAssoc([a[0]], At(a[1..], t), At(b, t));
    }
  }

  lemma {:induction false} AtNone(l: seq<Entry>, t: nat)
    requires forall i :: 0 <= i < |l| ==> l[i].timeOut != t
    ensures At(l, t) == []
  {
    if l != [] { AtNone(l[1..], t); }
  }

  lemma {:induction false} AtAll(l: seq<Entry>, t: nat)
    requires forall i :: 0 <= i < |l| ==> l[i].timeOut == t
    ensures At(l, t) == l
  {
    if l != [] { AtAll(l[1..], t); }
  }

  lemma AtParts(a: seq<Entry>, e: Entry, b: seq<Entry>, t: nat)
    ensures At(a + [e] + b, t) == At(a, t) + At([e], t) + At(b, t)
    ensures At(a + b, t) == At(a, t) + At(b, t)
  {
    AtConcat(a + [e], b, t);
    AtConcat(a, [e], t);
    AtConcat(a, b, t);
  }

  lemma NoneBeyond(l: seq<Entry>, t: nat)
    requires Sorted(l)
    ensures At(l[UpperBound(l, t)..], t) == []
  {
    UpperBoundSplits(l, t);
    AtNone(l[UpperBound(l, t)..], t);
  }

  lemma InsertAt(l: seq<Entry>, e: Entry, t: nat)
    requires Sorted(l)
    ensures At(Insert(l, e), t) == At(l, t) + At([e], t)
  {
    var u := UpperBound(l, e.timeOut);
    AtParts(l[..u], e, l[u..], t);
    assert l[..u] + l[u..] == l;
    if t == e.timeOut { NoneBeyond(l, t); }
  }

  lemma {:induction false} InsertAllAt(l: seq<Entry>, es: seq<Entry>, t: nat)
    requires Sorted(l)
    ensures At(InsertAll(l, es), t) == At(l, t) + At(es, t)
    decreases |es|
  {
    if es != [] {
      InsertKeeps(l, es[0], t);
      InsertAt(l, es[0], t);
      InsertAllAt(Insert(l, es[0]), es[1..], t);
      assert es == [es[0]] + es[1..];
      AtConcat([es[0]], es[1..], t);
    }
  }

  lemma DueIsAt(l: seq<Entry>, now: nat)
    requires Sorted(l) && now > 0 && AllAfter(l, now - 1)
    ensures Due(l, now) == At(l, now)
    ensures forall i :: 0 <= i < |Due(l, now)| ==> Due(l, now)[i].timeOut == now
  {
    var u := UpperBound(l, now);
    UpperBoundSplits(l, now);
    assert l == l[..u] + l[u..];
    AtConcat(l[..u], l[u..], now);
    AtAll(l[..u], now);
    AtNone(l[u..], now);
  }

  lemma AfterDueAt(l: seq<Entry>, now: nat, t: nat)
    requires Sorted(l) && 0 < now < t && AllAfter(l, now - 1)
    ensures At(AfterDue(l, now), t) == At(l, t) + At(Rearmed(At(l, now), now), t)
  {
    var u := UpperBound(l, now);
    DueIsAt(l, now);
    InsertAllAt(l[u..], Rearmed(Due(l, now), now), t);
    assert l == l[..u] + l[u..];
    AtConcat(l[..u], l[u..], t);
    AtNone(l[..u], t);
    assert At(l, t) == At(l[u..], t);
  }

  // The entries that stay keep their order.
  lemma {:induction false} RemoveInOrder(a: seq<Entry>, b: seq<Entry>, fb: FbId)
    ensures Remove(a + b, fb) == Remove(a, fb) + Remove(b, fb)
    ensures |a| == 1 ==> Remove(a, fb) == if a[0].fb == fb then [] else a
  {
    AppendTail(a, b);
    if a != [] {
      RemoveInOrder(a[1..], b, fb);
      AppendAssoc([a[0]], Remove(a[1..], fb), Remove(b, fb));
    }
  }

  // What waits for time t and is not removed, in list order
  function Waiting(l: seq<Entry>, gone: seq<FbId>, t: nat): seq<Entry> {
    if l == [] then []
    else (if l[0].timeOut == t && l[0].fb !in gone then [l[0]] else []) + Waiting(l[1..], gone, t)
  }

  // The entries that come back to time t when these fire at `now`, in firing order
  function Returning(es: seq<Entry>, now: nat, t: nat): seq<Entry> {
    if es == [] then []
    else
      (if es[0].interval > 0 && now + es[0].interval == t then [Entry(es[0].fb, t, es[0].interval)] else [])
      + Returning(es[1..], now, t)
  }

  // The additions that come to time t, in registration order: one that is late fires first.
  function Arriving(adds: seq<Entry>, now: nat, t: nat): seq<Entry> {
    if adds == [] then []
    else
      (if adds[0].timeOut <= now then Returning([adds[0]], now, t) else if adds[0].timeOut == t then [adds[0]] else [])
      + Arriving(adds[1..], now, t)
  }

  function Late(adds: seq<Entry>, now: nat): seq<FbId> {
    if adds == [] then [] else (if adds[0].timeOut <= now then [adds[0].fb] else []) + Late(adds[1..], now)
  }

  lemma {:induction false} WaitingWithout(l: seq<Entry>, fb: FbId, gone: seq<FbId>, t: nat)
    ensures Waiting(Remove(l, fb), gone, t) == Waiting(l, [fb] + gone, t)
  {
    if l != [] {
      WaitingWithout(l[1..], fb, gone, t);
      assert ([l[0]] + Remove(l[1..], fb))[1..] == Remove(l[1..], fb);
    }
  }

  lemma {:induction false} WaitingAll(l: seq<Entry>, t: nat)
    ensures Waiting(l, [], t) == At(l, t)
  {
    if l != [] { WaitingAll(l[1..], t); }
  }

  lemma {:induction false} RemainingAt(l: seq<Entry>, gone: seq<FbId>, t: nat)
    ensures At(RemoveEach(l, gone), t) == Waiting(l, gone, t)
    decreases |gone|
  {
    if gone == [] {
      WaitingAll(l, t);
    } else {
      RemainingAt(Remove(l, gone[0]), gone[1..], t);
      WaitingWithout(l, gone[0], gone[1..], t);
      assert [gone[0]] + gone[1..] == gone;
    }
  }

  lemma {:induction false} RearmedAt(es: seq<Entry>, now: nat, t: nat)
    ensures At(Rearmed(es, now), t) == Returning(es, now, t)
  {
    if es != [] {
      RearmedAt(es[1..], now, t);
      var first := es[0].(timeOut := now + es[0].interval);
      assert ([first] + Rearmed(es[1..], now))[1..] == Rearmed(es[1..], now);
    }
  }

  lemma {:induction false} MergedAt(adds: seq<Entry>, now: nat, t: nat)
    requires t > now
    ensures At(Merged(adds, now), t) == Arriving(adds, now, t)
    ensures Fbs(LateAdds(adds, now)) == Late(adds, now)
  {
    if adds != [] {
      var a := adds[0];
      MergedAt(adds[1..], now, t);
      AtConcat(if a.timeOut <= now then Rearmed([a], now) else [a], Merged(adds[1..], now), t);
      RearmedAt([a], now, t);
      assert ([a] + LateAdds(adds[1..], now))[1..] == LateAdds(adds[1..], now);
    }
  }

  lemma {:induction false} FbsAre(es: seq<Entry>)
    ensures Fbs(es) == seq(|es|, i requires 0 <= i < |es| => es[i].fb)
  {
    if es != [] { FbsAre(es[1..]); }
  }

  lemma QueuesAfterTick(s: State, t: nat)
    requires Inv(s) && t > s.time + 1
    ensures var now, kept := s.time + 1, Kept(s);
            && Fired(s) == Fbs(At(kept, now)) + Fbs(LateAdds(s.adds, now))
            && At(Tick(s).timed, t) == At(kept, t) + At(Rearmed(At(kept, now), now), t) + At(Merged(s.adds, now), t)
  {
    var now := s.time + 1;
    RemoveEachKeeps(s.timed, s.removals, s.time);
    DueIsAt(Kept(s), now);
    AfterDueKeeps(Kept(s), now);
    AfterDueAt(Kept(s), now, t);
    InsertAllAt(AfterDue(Kept(s), now), Merged(s.adds, now), t);
  }

  // One tick fires exactly the entries due now that are not removed, ties in the order in which they entered the
  // list, then the late additions; and the queue of every later time is what was waiting in it and is not removed,
  // then the entries that come back, in firing order, then the additions, in registration order.
  lemma TickIsCalendarQueue(s: State, t: nat)
    requires Inv(s) && t > s.time + 1
    ensures var now := s.time + 1;
            var due := Waiting(s.timed, s.removals, now);
            && Fired(s) == seq(|due|, i requires 0 <= i < |due| => due[i].fb) + Late(s.adds, now)
            && At(Tick(s).timed, t) ==
               Waiting(s.timed, s.removals, t) + Returning(due, now, t) + Arriving(s.adds, now, t)
  {
    var now := s.time + 1;
    QueuesAfterTick(s, t);
    RemainingAt(s.timed, s.removals, now);
    RemainingAt(s.timed, s.removals, t);
    RearmedAt(Waiting(s.timed, s.removals, now), now, t);
    MergedAt(s.adds, now, t);
    FbsAre(Waiting(s.timed, s.removals, now));
  }

  // ---------------------------------------------------------------- the schedule in closed form

  // The fire times of a registration whose first time is e.timeOut: that one, and if it is
  // periodic every interval after it.
  predicate DueAt(e: Entry, n: nat) {
    if e.interval == ONE_SHOT then n == e.timeOut
    else e.timeOut <= n && (n - e.timeOut) % e.interval == 0
  }

  function Count(l: seq<Entry>, f: FbId, n: nat): nat {
    if l == [] then 0 else (if l[0].fb == f && DueAt(l[0], n) then 1 else 0) + Count(l[1..], f, n)
  }

  function Occurrences(fbs: seq<FbId>, f: FbId): nat {
    if fbs == [] then 0 else (if fbs[0] == f then 1 else 0) + Occurrences(fbs[1..], f)
  }

  lemma {:induction false} CountConcat(a: seq<Entry>, b: seq<Entry>, f: FbId, n: nat)
    ensures Count(a + b, f, n) == Count(a, f, n) + Count(b, f, n)
  {
    AppendTail(a, b);
    if a != [] {
      CountConcat(a[1..], b, f, n);
    }
  }

  lemma {:induction false} OccurrencesConcat(a: seq<FbId>, b: seq<FbId>, f: FbId)
    ensures Occurrences(a + b, f) == Occurrences(a, f) + Occurrences(b, f)
  {
    AppendTail(a, b);
    if a != [] {
      OccurrencesConcat(a[1..], b, f);
    }
  }

  lemma {:induction false} CountInsertAll(l: seq<Entry>, es: seq<Entry>, f: FbId, n: nat)
    ensures Count(InsertAll(l, es), f, n) == Count(l, f, n) + Count(es, f, n)
    decreases |es|
  {
    if es != [] {
      var u := UpperBound(l, es[0].timeOut);
      CountConcat(l[..u] + [es[0]], l[u..], f, n);
      CountConcat(l[..u], [es[0]], f, n);
      CountConcat(l[..u], l[u..], f, n);
      assert l[..u] + l[u..] == l;
      CountInsertAll(Insert(l, es[0]), es[1..], f, n);
    }
  }

  lemma {:induction false} CountRemove(l: seq<Entry>, fb: FbId, f: FbId, n: nat)
    ensures Count(Remove(l, fb), f, n) == if f == fb then 0 else Count(l, f, n)
  {
    if l != [] {
      CountRemove(l[1..], fb, f, n);
      var h := if l[0].fb == fb then [] else [l[0]];
      CountConcat(h, Remove(l[1..], fb), f, n);
    }
  }

  lemma {:induction false} CountRemoveEach(l: seq<Entry>, fbs: seq<FbId>, f: FbId, n: nat)
    ensures Count(RemoveEach(l, fbs), f, n) == if f in fbs then 0 else Count(l, f, n)
    decreases |fbs|
  {
    if fbs != [] {
      CountRemove(l, fbs[0], f, n);
      CountRemoveEach(Remove(l, fbs[0]), fbs[1..], f, n);
    }
  }

  lemma CountNone(l: seq<Entry>, f: FbId, n: nat)
    requires forall i :: 0 <= i < |l| ==> l[i].fb != f || n < l[i].timeOut
    ensures Count(l, f, n) == 0
  {
  }

  // Re-arming an entry that fires now leaves its later fire times unchanged.
  lemma RearmKeepsSchedule(e: Entry, now: nat, n: nat)
    requires e.timeOut == now < n
    ensures e.interval == ONE_SHOT ==> !DueAt(e, n)
    ensures e.interval != ONE_SHOT ==> DueAt(e.(timeOut := now + e.interval), n) == DueAt(e, n)
  {
    if e.interval != ONE_SHOT {
      ModStep(n - now, e.interval);
      if n - now < e.interval { SmallMod(n - now, e.interval); }
    }
  }

  lemma {:induction false} CountRearmed(es: seq<Entry>, now: nat, f: FbId, n: nat)
    requires now < n && forall i :: 0 <= i < |es| ==> es[i].timeOut == now
    ensures Count(Rearmed(es, now), f, n) == Count(es, f, n)
  {
    if es != [] {
      RearmKeepsSchedule(es[0], now, n);
      CountRearmed(es[1..], now, f, n);
      var h := if es[0].interval != ONE_SHOT then [es[0].(timeOut := now + es[0].interval)] else [];
      CountConcat(h, Rearmed(es[1..], now), f, n);
    }
  }

  lemma {:induction false} FiredNow(es: seq<Entry>, now: nat, f: FbId)
    requires forall i :: 0 <= i < |es| ==> es[i].timeOut == now
    ensures Occurrences(Fbs(es), f) == Count(es, f, now)
  {
    if es != [] {
      FiredNow(es[1..], now, f);
      assert Fbs(es)[1..] == Fbs(es[1..]);
    }
  }

  // ---------------------------------------------------------------- a bag of registrations

  // The abstract timer: registrations are never changed by firing, only listed with the first time
  // they fire; a function block fires at tick n once for each of its registrations due at n.
  datatype Bag = Bag(time: nat, regs: seq<Entry>, adds: seq<Entry>, removals: seq<FbId>)

  // An addition merged at tick `now` first fires at its timeout or at `now`, whichever is later.
  function Starting(adds: seq<Entry>, now: nat): seq<Entry> {
    if adds == [] then []
    else [if adds[0].timeOut <= now then adds[0].(timeOut := now) else adds[0]] + Starting(adds[1..], now)
  }

  function BagTick(b: Bag): Bag {
    Bag(b.time + 1, RemoveEach(b.regs, b.removals) + Starting(b.adds, b.time + 1), [], [])
  }

  ghost predicate Refines(s: State, b: Bag) {
    && Inv(s)
    && s.time == b.time && s.adds == b.adds && s.removals == b.removals
    && forall f, n | n > s.time :: Count(s.timed, f, n) == Count(b.regs, f, n)
  }

  lemma {:induction false} CountMerged(adds: seq<Entry>, now: nat, f: FbId, n: nat)
    requires n > now
    ensures Count(Merged(adds, now), f, n) == Count(Starting(adds, now), f, n)
  {
    if adds != [] {
      CountMerged(adds[1..], now, f, n);
      var a := adds[0];
      var h := if a.timeOut <= now then Rearmed([a], now) else [a];
      var a' := if a.timeOut <= now then a.(timeOut := now) else a;
      CountConcat(h, Merged(adds[1..], now), f, n);
      CountConcat([a'], Starting(adds[1..], now), f, n);
      if a.timeOut <= now {
        assert Rearmed([a], now) == Rearmed([a'], now);
        CountRearmed([a'], now, f, n);
      }
    }
  }

  lemma {:induction false} LateAddsFire(adds: seq<Entry>, now: nat, f: FbId)
    ensures Occurrences(Fbs(LateAdds(adds, now)), f) == Count(Starting(adds, now), f, now)
  {
    if adds != [] {
      LateAddsFire(adds[1..], now, f);
      var a := adds[0];
      var a' := if a.timeOut <= now then a.(timeOut := now) else a;
      CountConcat([a'], Starting(adds[1..], now), f, now);
      if a.timeOut <= now {
        var fired := LateAdds(adds[1..], now);
        assert ([a] + fired)[1..] == fired;
        OccurrencesConcat([a.fb], Fbs(fired), f);
      } else {
        assert [] + LateAdds(adds[1..], now) == LateAdds(adds[1..], now);
      }
    }
  }

  // The firing and re-arming pass loses no later fire time ...
  lemma AfterDueCount(l: seq<Entry>, now: nat, f: FbId, n: nat)
    requires Sorted(l) && 0 < now < n && AllAfter(l, now - 1)
    ensures Count(AfterDue(l, now), f, n) == Count(l, f, n)
  {
    var u := UpperBound(l, now);
    DueIsAt(l, now);
    assert l == l[..u] + l[u..];
    CountConcat(l[..u], l[u..], f, n);
    CountRearmed(Due(l, now), now, f, n);
    CountInsertAll(l[u..], Rearmed(Due(l, now), now), f, n);
  }

  lemma LaterNotNow(l: seq<Entry>, now: nat, f: FbId)
    requires Sorted(l)
    ensures Count(l[UpperBound(l, now)..], f, now) == 0
  {
    UpperBoundSplits(l, now);
    CountNone(l[UpperBound(l, now)..], f, now);
  }

  lemma DueAlone(l: seq<Entry>, now: nat, f: FbId)
    requires Sorted(l)
    ensures Count(l, f, now) == Count(Due(l, now), f, now)
  {
    var u := UpperBound(l, now);
    LaterNotNow(l, now, f);
    CountConcat(l[..u], l[u..], f, now);
    assert l == l[..u] + l[u..];
  }

  // ... and fires what is due now.
  lemma DueCount(l: seq<Entry>, now: nat, f: FbId)
    requires Sorted(l) && 0 < now && AllAfter(l, now - 1)
    ensures Occurrences(Fbs(Due(l, now)), f) == Count(l, f, now)
  {
    DueIsAt(l, now);
    FiredNow(Due(l, now), now, f);
    DueAlone(l, now, f);
  }

  lemma TickCounts(s: State, b: Bag, f: FbId, n: nat)
    requires Refines(s, b) && n > s.time
    ensures n > s.time + 1 ==> Count(Tick(s).timed, f, n) == Count(BagTick(b).regs, f, n)
    ensures n == s.time + 1 ==> Occurrences(Fired(s), f) == Count(BagTick(b).regs, f, n)
  {
    var now := s.time + 1;
    RemoveEachKeeps(s.timed, s.removals, s.time);
    CountRemoveEach(s.timed, s.removals, f, n);
    CountRemoveEach(b.regs, b.removals, f, n);
    CountConcat(RemoveEach(b.regs, b.removals), Starting(b.adds, now), f, n);
    if n > now {
      AfterDueCount(Kept(s), now, f, n);
      CountInsertAll(AfterDue(Kept(s), now), Merged(s.adds, now), f, n);
      CountMerged(s.adds, now, f, n);
    } else {
      DueCount(Kept(s), now, f);
      OccurrencesConcat(Fbs(Due(Kept(s), now)), Fbs(LateAdds(s.adds, now)), f);
      LateAddsFire(s.adds, now, f);
    }
  }

  lemma TickRefines(s: State, b: Bag)
    requires Refines(s, b)
    ensures Refines(Tick(s), BagTick(b))
    ensures forall f :: Occurrences(Fired(s), f) == Count(BagTick(b).regs, f, s.time + 1)
  {
    TickKeepsInv(s);
    forall f, n | n > s.time + 1
      ensures Count(Tick(s).timed, f, n) == Count(BagTick(b).regs, f, n)
    {
      TickCounts(s, b, f, n);
    }
    forall f
      ensures Occurrences(Fired(s), f) == Count(BagTick(b).regs, f, s.time + 1)
    {
      TickCounts(s, b, f, s.time + 1);
    }
  }

  // ---------------------------------------------------------------- runs

  // Registration is append of an entry whose timeout was computed earlier (timerha.cpp:34-52), so
  // any entry may be appended at any time; unregistration and ticks interleave freely with it.
  datatype Op = Append(entry: Entry) | Unregister(fb: FbId) | NextTick

  function Step(s: State, op: Op): State {
    match op
    case Append(e) => s.(adds := s.adds + [e])
    case Unregister(f) => s.(removals := s.removals + [f])
    case NextTick => Tick(s)
  }

  function BagStep(b: Bag, op: Op): Bag {
    match op
    case Append(e) => b.(adds := b.adds + [e])
    case Unregister(f) => b.(removals := b.removals + [f])
    case NextTick => BagTick(b)
  }

  function Run(s: State, ops: seq<Op>): State
    decreases |ops|
  {
    if ops == [] then s else Run(Step(s, ops[0]), ops[1..])
  }

  // How often f fires at tick n during the run.
  function FiredAt(s: State, ops: seq<Op>, f: FbId, n: nat): nat
    decreases |ops|
  {
    if ops == [] then 0
    else (if ops[0].NextTick? && s.time + 1 == n then Occurrences(Fired(s), f) else 0)
         + FiredAt(Step(s, ops[0]), ops[1..], f, n)
  }

  function BagFiredAt(b: Bag, ops: seq<Op>, f: FbId, n: nat): nat
    decreases |ops|
  {
    if ops == [] then 0
    else (if ops[0].NextTick? && b.time + 1 == n then Count(BagTick(b).regs, f, n) else 0)
         + BagFiredAt(BagStep(b, ops[0]), ops[1..], f, n)
  }

  lemma StepRefines(s: State, b: Bag, op: Op)
    requires Refines(s, b)
    ensures Refines(Step(s, op), BagStep(b, op))
    ensures op.NextTick? ==> forall f :: Occurrences(Fired(s), f) == Count(BagTick(b).regs, f, s.time + 1)
  {
    if op.NextTick? { TickRefines(s, b); }
  }

  // Over every run the sorted list fires each function block at each tick exactly as often as
  // the bag of registrations does.
  lemma {:induction false} RunRefinesBag(s: State, b: Bag, ops: seq<Op>, f: FbId, n: nat)
    requires Refines(s, b)
    ensures FiredAt(s, ops, f, n) == BagFiredAt(b, ops, f, n)
    ensures Inv(Run(s, ops))
    decreases |ops|
  {
    if ops != [] {
      StepRefines(s, b, ops[0]);
      RunRefinesBag(Step(s, ops[0]), BagStep(b, ops[0]), ops[1..], f, n);
    }
  }

  function Ticks(ops: seq<Op>): nat {
    if ops == [] then 0 else (if ops[0].NextTick? then 1 else 0) + Ticks(ops[1..])
  }

  // The run neither registers nor unregisters f; other function blocks may do anything.
  predicate LeavesAlone(ops: seq<Op>, f: FbId) {
    forall i :: 0 <= i < |ops| ==>
      match ops[i] case Append(e) => e.fb != f case Unregister(g) => g != f case NextTick => true
  }

  // ---------------------------------------------------------------- one function block's future

  // Its fire times from the merged registrations and the pending additions.
  function Forecast(b: Bag, f: FbId, n: nat): nat {
    (if f in b.removals then 0 else Count(b.regs, f, n)) + Count(Starting(b.adds, b.time + 1), f, n)
  }

  lemma {:induction false} StartingConcat(a: seq<Entry>, e: Entry, now: nat)
    ensures Starting(a + [e], now) == Starting(a, now) + Starting([e], now)
  {
    AppendTail(a, [e]);
    if a != [] {
      StartingConcat(a[1..], e, now);
    }
  }

  // Operations on other function blocks and ticks leave the forecast of f for later ticks alone.
  lemma StepKeepsForecast(b: Bag, op: Op, f: FbId, n: nat)
    requires LeavesAlone([op], f) && n > BagStep(b, op).time
    ensures Forecast(BagStep(b, op), f, n) == Forecast(b, f, n)
  {
    assert [op][0] == op;
    match op
    case Append(e) =>
      StartingConcat(b.adds, e, b.time + 1);
      CountConcat(Starting(b.adds, b.time + 1), Starting([e], b.time + 1), f, n);
      assert e.fb != f;
    case Unregister(g) => assert g != f;
    case NextTick =>
      CountRemoveEach(b.regs, b.removals, f, n);
      CountConcat(RemoveEach(b.regs, b.removals), Starting(b.adds, b.time + 1), f, n);
  }

  // During a run that leaves f alone, f fires at each tick passed exactly as forecast at its start.
  lemma {:induction false} ForecastHolds(b: Bag, ops: seq<Op>, f: FbId, n: nat)
    requires LeavesAlone(ops, f)
    ensures BagFiredAt(b, ops, f, n) ==
            if b.time < n <= b.time + Ticks(ops) then Forecast(b, f, n) else 0
    decreases |ops|
  {
    if ops != [] {
      var b' := BagStep(b, ops[0]);
      assert LeavesAlone([ops[0]], f) by { assert [ops[0]][0] == ops[0]; }
      assert LeavesAlone(ops[1..], f);
      ForecastHolds(b', ops[1..], f, n);
      if ops[0].NextTick? && n == b.time + 1 {
        CountRemoveEach(b.regs, b.removals, f, n);
        CountConcat(RemoveEach(b.regs, b.removals), Starting(b.adds, b.time + 1), f, n);
      } else if n > b'.time {
        StepKeepsForecast(b, ops[0], f, n);
      }
    }
  }

  // A registration whose function block has no other one: none pending, and those in the list are
  // about to be removed.
  ghost predicate OnlyRegistration(s: State, e: Entry) {
    && (e.fb in s.removals || forall i :: 0 <= i < |s.timed| ==> s.timed[i].fb != e.fb)
    && forall i :: 0 <= i < |s.adds| ==> s.adds[i].fb != e.fb
  }

  lemma {:induction false} CountStartingNone(adds: seq<Entry>, now: nat, f: FbId, n: nat)
    requires forall i :: 0 <= i < |adds| ==> adds[i].fb != f
    ensures Count(Starting(adds, now), f, n) == 0
  {
    if adds != [] { CountStartingNone(adds[1..], now, f, n); }
  }

  // The exact schedule, whatever the other function blocks do: the first firing is at the timeout
  // or at the merging tick, whichever is later, and the later ones follow in steps of the interval.
  lemma ExactSchedule(s: State, e: Entry, ops: seq<Op>, n: nat)
    requires Inv(s) && OnlyRegistration(s, e) && LeavesAlone(ops, e.fb)
    requires s.time < n <= s.time + Ticks(ops)
    ensures var first := if e.timeOut <= s.time + 1 then s.time + 1 else e.timeOut;
            FiredAt(Step(s, Append(e)), ops, e.fb, n) ==
            if DueAt(e.(timeOut := first), n) then 1 else 0
  {
    var s1 := Step(s, Append(e));
    var b := Bag(s1.time, s1.timed, s1.adds, s1.removals);
    RunRefinesBag(s1, b, ops, e.fb, n);
    ForecastHolds(b, ops, e.fb, n);
    if e.fb !in s.removals { CountNone(s.timed, e.fb, n); }
    CountStartingNone(s.adds, s.time + 1, e.fb, n);
    StartingConcat(s.adds, e, s.time + 1);
    CountConcat(Starting(s.adds, s.time + 1), Starting([e], s.time + 1), e.fb, n);
  }

  // How often f fires in the whole run.
  function TotalFired(s: State, ops: seq<Op>, f: FbId): nat
    decreases |ops|
  {
    if ops == [] then 0
    else (if ops[0].NextTick? then Occurrences(Fired(s), f) else 0)
         + TotalFired(Step(s, ops[0]), ops[1..], f)
  }

  function SumFired(s: State, ops: seq<Op>, f: FbId, from: nat, upTo: nat): nat
    requires from <= upTo
    decreases upTo - from
  {
    if from == upTo then 0 else FiredAt(s, ops, f, upTo) + SumFired(s, ops, f, from, upTo - 1)
  }

  lemma {:induction false} SumFiredStep(s: State, ops: seq<Op>, f: FbId, from: nat, upTo: nat)
    requires ops != [] && s.time <= from <= upTo
    ensures SumFired(s, ops, f, from, upTo) ==
            (if ops[0].NextTick? && from <= s.time < upTo then Occurrences(Fired(s), f) else 0)
            + SumFired(Step(s, ops[0]), ops[1..], f, from, upTo)
    decreases upTo - from
  {
    if from != upTo { SumFiredStep(s, ops, f, from, upTo - 1); }
  }

  lemma {:induction false} NothingBefore(s: State, ops: seq<Op>, f: FbId, n: nat)
    requires n <= s.time
    ensures FiredAt(s, ops, f, n) == 0
    decreases |ops|
  {
    if ops != [] { NothingBefore(Step(s, ops[0]), ops[1..], f, n); }
  }

  lemma {:induction false} TotalIsSum(s: State, ops: seq<Op>, f: FbId)
    ensures TotalFired(s, ops, f) == SumFired(s, ops, f, s.time, s.time + Ticks(ops))
    decreases |ops|
  {
    if ops == [] {
    } else {
      var s' := Step(s, ops[0]);
      TotalIsSum(s', ops[1..], f);
      SumFiredStep(s, ops, f, s.time, s.time + Ticks(ops));
      if ops[0].NextTick? {
        SumFiredFrom(s', ops[1..], f, s.time, s.time + Ticks(ops));
      }
    }
  }

  lemma {:induction false} SumFiredFrom(s: State, ops: seq<Op>, f: FbId, from: nat, upTo: nat)
    requires from + 1 == s.time <= upTo
    ensures SumFired(s, ops, f, from, upTo) == SumFired(s, ops, f, s.time, upTo)
    decreases upTo
  {
    if upTo == s.time {
      NothingBefore(s, ops, f, upTo);
    } else {
      SumFiredFrom(s, ops, f, from, upTo - 1);
    }
  }

  lemma {:induction false} SumOfPeriodic(s: State, e: Entry, ops: seq<Op>, upTo: nat)
    requires Inv(s) && OnlyRegistration(s, e) && LeavesAlone(ops, e.fb)
    requires e.interval > 0 && e.timeOut == s.time + e.interval
    requires s.time <= upTo <= s.time + Ticks(ops)
    ensures SumFired(Step(s, Append(e)), ops, e.fb, s.time, upTo) == (upTo - s.time) / e.interval
    decreases upTo
  {
    if upTo == s.time {
      SmallMod(0, e.interval);
    } else {
      SumOfPeriodic(s, e, ops, upTo - 1);
      ExactSchedule(s, e, ops, upTo);
      DivStep(upTo - s.time, e.interval);
      ModStep(upTo - s.time, e.interval);
      if upTo < e.timeOut { SmallMod(upTo - s.time, e.interval); }
    }
  }

  // Registered at time t with interval i, a periodic function block fires floor((N - t) / i) times
  // by tick N, and fires at t + k exactly when i divides k.
  lemma PeriodicCount(s: State, fb: FbId, i: nat, ops: seq<Op>)
    requires i > 0
    requires var e := Entry(fb, s.time + i, i);
             Inv(s) && OnlyRegistration(s, e) && LeavesAlone(ops, fb)
    ensures var s1 := Step(s, Append(Entry(fb, s.time + i, i)));
            && TotalFired(s1, ops, fb) == Ticks(ops) / i
            && forall k | 0 < k <= Ticks(ops) ::
                 FiredAt(s1, ops, fb, s.time + k) == if k % i == 0 then 1 else 0
  {
    var e := Entry(fb, s.time + i, i);
    var s1 := Step(s, Append(e));
    TotalIsSum(s1, ops, fb);
    SumOfPeriodic(s, e, ops, s.time + Ticks(ops));
    forall k | 0 < k <= Ticks(ops)
      ensures FiredAt(s1, ops, fb, s.time + k) == if k % i == 0 then 1 else 0
    {
      ExactSchedule(s, e, ops, s.time + k);
      ModStep(k, i);
      if k < i { SmallMod(k, i); }
    }
  }

  lemma {:induction false} SumOfOneShot(s: State, e: Entry, ops: seq<Op>, upTo: nat)
    requires Inv(s) && OnlyRegistration(s, e) && LeavesAlone(ops, e.fb)
    requires e.interval == ONE_SHOT && e.timeOut > s.time
    requires s.time <= upTo <= s.time + Ticks(ops)
    ensures SumFired(Step(s, Append(e)), ops, e.fb, s.time, upTo) == if upTo >= e.timeOut then 1 else 0
    decreases upTo
  {
    if upTo > s.time {
      SumOfOneShot(s, e, ops, upTo - 1);
      ExactSchedule(s, e, ops, upTo);
    }
  }

  // A one-shot fires once, at t + i and nowhere else.
  lemma OneShotOnce(s: State, fb: FbId, i: nat, ops: seq<Op>)
    requires i > 0
    requires var e := Entry(fb, s.time + i, ONE_SHOT);
             Inv(s) && OnlyRegistration(s, e) && LeavesAlone(ops, fb)
    ensures var s1 := Step(s, Append(Entry(fb, s.time + i, ONE_SHOT)));
            && TotalFired(s1, ops, fb) == (if Ticks(ops) >= i then 1 else 0)
            && (Ticks(ops) >= i ==> FiredAt(s1, ops, fb, s.time + i) == 1)
  {
    var e := Entry(fb, s.time + i, ONE_SHOT);
    TotalIsSum(Step(s, Append(e)), ops, fb);
    SumOfOneShot(s, e, ops, s.time + Ticks(ops));
    if Ticks(ops) >= i { ExactSchedule(s, e, ops, s.time + i); }
  }

  // ---------------------------------------------------------------- unregistering

  lemma {:induction false} PendingFires(adds: seq<Entry>, now: nat, k: nat)
    requires k < |adds|
    ensures var a := adds[k];
            Count(Starting(adds, now), a.fb, if a.timeOut <= now then now else a.timeOut) > 0
  {
    if k > 0 { PendingFires(adds[1..], now, k - 1); }
  }

  function TicksOnly(k: nat): (r: seq<Op>)
    ensures |r| == k && Ticks(r) == k
    ensures forall i :: 0 <= i < |r| ==> r[i] == NextTick
  {
    if k == 0 then [] else [NextTick] + TicksOnly(k - 1)
  }

  lemma SilentWithoutAdds(s: State, f: FbId, ops: seq<Op>, n: nat)
    requires Inv(s) && LeavesAlone(ops, f) && forall i :: 0 <= i < |s.adds| ==> s.adds[i].fb != f
    ensures FiredAt(Step(s, Unregister(f)), ops, f, n) == 0
  {
    var s1 := Step(s, Unregister(f));
    var b := Bag(s1.time, s1.timed, s1.adds, s1.removals);
    RunRefinesBag(s1, b, ops, f, n);
    ForecastHolds(b, ops, f, n);
    CountStartingNone(s.adds, s.time + 1, f, n);
  }

  // A registration that is still waiting to be added fires at its timeout, or with the next tick.
  lemma PendingStillFires(s: State, f: FbId, i: nat) returns (ops: seq<Op>, n: nat)
    requires Inv(s) && i < |s.adds| && s.adds[i].fb == f
    ensures LeavesAlone(ops, f) && FiredAt(Step(s, Unregister(f)), ops, f, n) != 0
  {
    var s1 := Step(s, Unregister(f));
    var b := Bag(s1.time, s1.timed, s1.adds, s1.removals);
    var now, a := s.time + 1, s.adds[i];
    n := if a.timeOut <= now then now else a.timeOut;
    ops := TicksOnly(n - s.time);
    RunRefinesBag(s1, b, ops, f, n);
    ForecastHolds(b, ops, f, n);
    PendingFires(s.adds, now, i);
  }

  // Unregistering silences a function block for good exactly if none of its registrations is still
  // waiting to be added: removal reaches only entries already in the list.
  lemma UnregisterSilences(s: State, f: FbId)
    requires Inv(s)
    ensures (forall ops, n | LeavesAlone(ops, f) :: FiredAt(Step(s, Unregister(f)), ops, f, n) == 0)
            <==> (forall i :: 0 <= i < |s.adds| ==> s.adds[i].fb != f)
  {
    if i :| 0 <= i < |s.adds| && s.adds[i].fb == f {
      var ops, n := PendingStillFires(s, f, i);
    } else {
      forall ops, n | LeavesAlone(ops, f)
        ensures FiredAt(Step(s, Unregister(f)), ops, f, n) == 0
      {
        SilentWithoutAdds(s, f, ops, n);
      }
    }
  }

  // ---------------------------------------------------------------- a tick is two critical sections

  // The removals are taken under one lock and the additions under another, so other threads may register and
  // unregister in between.
  function FirstHalf(s: State): State {
    State(s.time + 1, AfterDue(Kept(s), s.time + 1), s.adds, [])
  }

  function SecondHalf(s: State): State {
    State(s.time, InsertAll(s.timed, Merged(s.adds, s.time)), [], s.removals)
  }

  function SplitTick(s: State, between: seq<Op>): State {
    SecondHalf(Run(FirstHalf(s), between))
  }

  function SplitFired(s: State, between: seq<Op>): seq<FbId> {
    Fbs(Due(Kept(s), s.time + 1)) + Fbs(LateAdds(Run(FirstHalf(s), between).adds, s.time + 1))
  }

  function Added(ops: seq<Op>): seq<Entry> {
    if ops == [] then [] else if ops[0].Append? then [ops[0].entry] + Added(ops[1..]) else Added(ops[1..])
  }

  function Removed(ops: seq<Op>): seq<FbId> {
    if ops == [] then [] else if ops[0].Unregister? then [ops[0].fb] + Removed(ops[1..]) else Removed(ops[1..])
  }

  function Appends(es: seq<Entry>): seq<Op> {
    if es == [] then [] else [Append(es[0])] + Appends(es[1..])
  }

  function Unregisters(fbs: seq<FbId>): seq<Op> {
    if fbs == [] then [] else [Unregister(fbs[0])] + Unregisters(fbs[1..])
  }

  lemma {:induction false} RunArrivals(s: State, ops: seq<Op>)
    requires Ticks(ops) == 0
    ensures Run(s, ops) == s.(adds := s.adds + Added(ops), removals := s.removals + Removed(ops))
    decreases |ops|
  {
    if ops != [] {
      RunArrivals(Step(s, ops[0]), ops[1..]);
      if ops[0].Append? {
        AppendAssoc(s.adds, [ops[0].entry], Added(ops[1..]));
      } else {
        AppendAssoc(s.removals, [ops[0].fb], Removed(ops[1..]));
      }
    }
  }

  lemma {:induction false} RunAppends(s: State, es: seq<Entry>)
    ensures Run(s, Appends(es)) == s.(adds := s.adds + es)
    decreases |es|
  {
    if es != [] {
      RunAppends(Step(s, Append(es[0])), es[1..]);
      AppendAssoc(s.adds, [es[0]], es[1..]);
      assert es == [es[0]] + es[1..];
    }
  }

  lemma {:induction false} RunUnregisters(s: State, fbs: seq<FbId>)
    ensures Run(s, Unregisters(fbs)) == s.(removals := s.removals + fbs)
    decreases |fbs|
  {
    if fbs != [] {
      RunUnregisters(Step(s, Unregister(fbs[0])), fbs[1..]);
      AppendAssoc(s.removals, [fbs[0]], fbs[1..]);
      assert fbs == [fbs[0]] + fbs[1..];
    }
  }

  // Whatever happens in between, the tick is as if it were one step: what was registered in between comes before
  // it, and what was unregistered in between comes after it.
  lemma SplitTickLinearizes(s: State, between: seq<Op>)
    requires Ticks(between) == 0
    ensures var before := Run(s, Appends(Added(between)));
            && SplitTick(s, between) == Run(Tick(before), Unregisters(Removed(between)))
            && SplitFired(s, between) == Fired(before)
  {
    var before := s.(adds := s.adds + Added(between));
    RunArrivals(FirstHalf(s), between);
    RunAppends(s, Added(between));
    RunUnregisters(Tick(before), Removed(between));
    assert [] + Removed(between) == Removed(between);
  }

  // An FB that is unregistered and registered again keeps just the new registration ...
  lemma ReregisteredOutside(s: State, e: Entry, ops: seq<Op>, n: nat)
    requires Inv(s) && LeavesAlone(ops, e.fb) && s.time < n <= s.time + Ticks(ops)
    requires forall i :: 0 <= i < |s.adds| ==> s.adds[i].fb != e.fb
    ensures var first := if e.timeOut <= s.time + 1 then s.time + 1 else e.timeOut;
            FiredAt(Step(Step(s, Unregister(e.fb)), Append(e)), ops, e.fb, n) ==
            if DueAt(e.(timeOut := first), n) then 1 else 0
  {
    ExactSchedule(Step(s, Unregister(e.fb)), e, ops, n);
  }

  // ... unless both fall between the two halves of one tick: then the new registration is merged by that tick and
  // removed by the next one, and the FB never fires again.
  lemma ReregisteredBetween(s: State, e: Entry, ops: seq<Op>, n: nat)
    requires Inv(s) && LeavesAlone(ops, e.fb)
    ensures FiredAt(SplitTick(s, [Unregister(e.fb), Append(e)]), ops, e.fb, n) == 0
  {
    var between := [Unregister(e.fb), Append(e)];
    var before := s.(adds := s.adds + [e]);
    var last := [Append(e)];
    assert last[1..] == [] && Added(last[1..]) == [] && Removed(last[1..]) == [] && Ticks(last) == 0;
    assert last[0] == Append(e) && [e] + [] == [e];
    assert Added(last) == [e] && Removed(last) == [];
    assert [e.fb] + [] == [e.fb];
    assert between[1..] == last && Ticks(between) == 0 && Added(between) == [e] && Removed(between) == [e.fb];
    RunArrivals(FirstHalf(s), between);
    assert SplitTick(s, between) == Step(Tick(before), Unregister(e.fb));
    TickKeepsInv(before);
    UnregisterSilences(Tick(before), e.fb);
  }

  // ---------------------------------------------------------------- the passes of one tick

  // The three passes, composed
  lemma TickPasses(s: State, kept: seq<Entry>, afterDue: seq<Entry>, timed: seq<Entry>)
    requires Inv(s)
    requires kept == RemoveEach(s.timed, s.removals)
    requires afterDue == AfterDue(kept, s.time + 1)
    requires timed == InsertAll(afterDue, Merged(s.adds, s.time + 1))
    ensures Tick(s) == State(s.time + 1, timed, [], []) && Sorted(timed) && AllAfter(timed, s.time + 1)
    ensures Fired(s) == Fbs(Due(kept, s.time + 1)) + Fbs(LateAdds(s.adds, s.time + 1))
  {
    TickKeepsInv(s);
  }

  lemma {:induction false} RearmedSnoc(es: seq<Entry>, e: Entry, now: nat)
    ensures Rearmed(es + [e], now) == Rearmed(es, now) + Rearmed([e], now)
    ensures Fbs(es + [e]) == Fbs(es) + [e.fb]
  {
    AppendTail(es, [e]);
    if es != [] {
      RearmedSnoc(es[1..], e, now);
      AppendAssoc([es[0].(timeOut := now + es[0].interval)], Rearmed(es[1..], now), Rearmed([e], now));
      AppendAssoc([es[0].fb], Fbs(es[1..]), [e.fb]);
    }
  }

  lemma {:induction false} MergedSnoc(es: seq<Entry>, e: Entry, now: nat)
    ensures Merged(es + [e], now) == Merged(es, now) + Merged([e], now)
    ensures LateAdds(es + [e], now) == if e.timeOut <= now then LateAdds(es, now) + [e] else LateAdds(es, now)
  {
    AppendTail(es, [e]);
    if es != [] {
      MergedSnoc(es[1..], e, now);
      var first := if es[0].timeOut <= now then Rearmed([es[0]], now) else [es[0]];
      AppendAssoc(first, Merged(es[1..], now), Merged([e], now));
      AppendAssoc([es[0]], LateAdds(es[1..], now), [e]);
    }
  }

  lemma {:induction false} InsertAllConcat(l: seq<Entry>, a: seq<Entry>, b: seq<Entry>)
    ensures InsertAll(l, a + b) == InsertAll(InsertAll(l, a), b)
    decreases |a|
  {
    AppendTail(a, b);
    if a != [] {
      InsertAllConcat(Insert(l, a[0]), a[1..], b);
    }
  }

  // The list and the started chains while the i-th addition is next
  ghost predicate MergedSoFar(was: seq<Entry>, before: seq<FbId>, adds: seq<Entry>, i: nat, now: nat,
                              timed: seq<Entry>, started: seq<FbId>)
    requires i <= |adds|
  {
    && timed == InsertAll(was, Merged(adds[..i], now))
    && started == before + Fbs(LateAdds(adds[..i], now))
  }

  lemma MergedStep(was: seq<Entry>, before: seq<FbId>, adds: seq<Entry>, i: nat, now: nat,
                   timed: seq<Entry>, started: seq<FbId>)
    requires i < |adds| && MergedSoFar(was, before, adds, i, now, timed, started)
    ensures var e := adds[i];
            if e.timeOut <= now
            then MergedSoFar(was, before, adds, i + 1, now, InsertAll(timed, Rearmed([e], now)), started + [e.fb])
            else MergedSoFar(was, before, adds, i + 1, now, Insert(timed, e), started)
  {
    var e := adds[i];
    assert adds[..i + 1] == adds[..i] + [e];
    MergedSnoc(adds[..i], e, now);
    RearmedSnoc(LateAdds(adds[..i], now), e, now);
    InsertAllConcat(was, Merged(adds[..i], now), Merged([e], now));
    MergedOne(e, now);
    assert InsertAll(timed, [e]) == Insert(timed, e);
    AppendAssoc(before, Fbs(LateAdds(adds[..i], now)), [e.fb]);
  }

  lemma MergedOne(e: Entry, now: nat)
    ensures Merged([e], now) == if e.timeOut <= now then Rearmed([e], now) else [e]
  {
  }

  // ---------------------------------------------------------------- the handler itself

  class TimerHandler {
    var forteTime: nat
    var timedFBs: seq<Entry>
    var addFBs: seq<Entry>
    var removeFBs: seq<FbId>
    var startedChains: seq<FbId>  // the event chains handed to the device, in order

    ghost function Abs(): State
      reads this
    {
      State(forteTime, timedFBs, addFBs, removeFBs)
    }

    ghost predicate Valid()
      reads this
    {
      Sorted(timedFBs) && AllAfter(timedFBs, forteTime)
    }

    constructor ()
      ensures Abs() == State(0, [], [], []) && Valid() && startedChains == []
    {
      forteTime, timedFBs, addFBs, removeFBs, startedChains := 0, [], [], [], [];
    }

    method RegisterOneShotTimedFB(fb: FbId, duration: int, unit: nat)
      requires unit > 0
      modifies this
      ensures Abs() == Step(old(Abs()), Append(Entry(fb, old(forteTime) + IntervalToTicks(duration, unit), ONE_SHOT)))
      ensures startedChains == old(startedChains)
    {
      var interval := IntervalToTicks(duration, unit);
      AddToAddFBList(Entry(fb, forteTime + interval, ONE_SHOT));
    }

    method RegisterPeriodicTimedFB(fb: FbId, duration: int, unit: nat)
      requires unit > 0
      modifies this
      ensures var interval := IntervalToTicks(duration, unit);
              Abs() == Step(old(Abs()), Append(Entry(fb, old(forteTime) + interval, interval)))
      ensures startedChains == old(startedChains)
    {
      var interval := IntervalToTicks(duration, unit);
      AddToAddFBList(Entry(fb, forteTime + interval, interval));
    }

    method AddToAddFBList(e: Entry)
      modifies this
      ensures Abs() == Step(old(Abs()), Append(e)) && startedChains == old(startedChains)
    {
      addFBs := addFBs + [e];
    }

    method UnregisterTimedFB(fb: FbId)
      modifies this
      ensures Abs() == Step(old(Abs()), Unregister(fb)) && startedChains == old(startedChains)
    {
      removeFBs := removeFBs + [fb];
    }

    // std::upper_bound on the timeouts
    method FindUpperBound(t: nat) returns (pos: nat)
      requires Sorted(timedFBs)
      ensures pos == UpperBound(timedFBs, t)
    {
      UpperBoundSplits(timedFBs, t);
      var hi := |timedFBs|;
      pos := 0;
      while pos < hi
        invariant pos <= UpperBound(timedFBs, t) <= hi <= |timedFBs|
      {
        var mid := (pos + hi) / 2;
        if t < timedFBs[mid].timeOut {
          hi := mid;
        } else {
          pos := mid + 1;
        }
      }
    }

    method AddTimedFBEntry(e: Entry)
      requires Sorted(timedFBs)
      modifies this`timedFBs
      ensures timedFBs == Insert(old(timedFBs), e) && Sorted(timedFBs)
    {
      var pos := FindUpperBound(e.timeOut);
      InsertKeeps(timedFBs, e, 0);
      timedFBs := timedFBs[..pos] + [e] + timedFBs[pos..];
    }

    method RemoveTimedFB(fb: FbId)
      modifies this`timedFBs
      ensures timedFBs == Remove(old(timedFBs), fb)
    {
      var kept: seq<Entry> := [];
      var i := 0;
      while i < |timedFBs|
        invariant i <= |timedFBs|
        invariant kept + Remove(timedFBs[i..], fb) == Remove(timedFBs, fb)
      {
        if timedFBs[i].fb != fb {
          kept := kept + [timedFBs[i]];
        }
        i := i + 1;
      }
      timedFBs := kept;
    }

    method TriggerTimedFB(e: Entry)
      requires Sorted(timedFBs)
      modifies this`timedFBs, this`startedChains
      ensures timedFBs == InsertAll(old(timedFBs), Rearmed([e], forteTime)) && Sorted(timedFBs)
      ensures startedChains == old(startedChains) + [e.fb]
    {
      startedChains := startedChains + [e.fb];
      if e.interval != ONE_SHOT {
        AddTimedFBEntry(e.(timeOut := forteTime + e.interval));
        assert InsertAll(timedFBs, []) == timedFBs;
      }
    }

    method ProcessTimedFBList()
      requires Sorted(timedFBs)
      modifies this`timedFBs, this`startedChains
      ensures timedFBs == AfterDue(old(timedFBs), forteTime)
      ensures startedChains == old(startedChains) + Fbs(Due(old(timedFBs), forteTime))
      ensures Sorted(timedFBs)
    {
      var last := FindUpperBound(forteTime);
      var triggered := timedFBs[..last];
      timedFBs := timedFBs[last..];
      ghost var rest := timedFBs;
      var i := 0;
      while i < |triggered|
        invariant i <= |triggered| && Sorted(timedFBs)
        invariant timedFBs == InsertAll(rest, Rearmed(triggered[..i], forteTime))
        invariant startedChains == old(startedChains) + Fbs(triggered[..i])
      {
        TriggerTimedFB(triggered[i]);
        RearmedSnoc(triggered[..i], triggered[i], forteTime);
        InsertAllConcat(rest, Rearmed(triggered[..i], forteTime), Rearmed([triggered[i]], forteTime));
        assert triggered[..i + 1] == triggered[..i] + [triggered[i]];
        i := i + 1;
      }
      assert triggered[..i] == triggered;
    }

    method ProcessAddList()
      requires Sorted(timedFBs)
      modifies this
      ensures timedFBs == InsertAll(old(timedFBs), Merged(old(addFBs), forteTime))
      ensures startedChains == old(startedChains) + Fbs(LateAdds(old(addFBs), forteTime))
      ensures addFBs == [] && forteTime == old(forteTime) && removeFBs == old(removeFBs)
    {
      var i := 0;
      while i < |addFBs|
        invariant i <= |addFBs| && addFBs == old(addFBs) && Sorted(timedFBs)
        invariant forteTime == old(forteTime) && removeFBs == old(removeFBs)
        invariant MergedSoFar(old(timedFBs), old(startedChains), addFBs, i, forteTime, timedFBs, startedChains)
      {
        var e := addFBs[i];
        MergedStep(old(timedFBs), old(startedChains), addFBs, i, forteTime, timedFBs, startedChains);
        if e.timeOut <= forteTime {
          TriggerTimedFB(e);
        } else {
          AddTimedFBEntry(e);
        }
        i := i + 1;
      }
      assert addFBs[..i] == addFBs;
      addFBs := [];
    }

    method ProcessRemoveList()
      modifies this
      ensures timedFBs == RemoveEach(old(timedFBs), old(removeFBs)) && removeFBs == []
      ensures forteTime == old(forteTime) && addFBs == old(addFBs) && startedChains == old(startedChains)
    {
      var i := 0;
      while i < |removeFBs|
        invariant i <= |removeFBs| && removeFBs == old(removeFBs)
        invariant forteTime == old(forteTime) && addFBs == old(addFBs) && startedChains == old(startedChains)
        invariant RemoveEach(timedFBs, removeFBs[i..]) == RemoveEach(old(timedFBs), removeFBs)
      {
        RemoveTimedFB(removeFBs[i]);
        assert removeFBs[i..][1..] == removeFBs[i + 1..];
        i := i + 1;
      }
      removeFBs := [];
    }

    method NextTick()
      requires Valid()
      modifies this
      ensures Abs() == Tick(old(Abs())) && Valid()
      ensures startedChains == old(startedChains) + Fired(old(Abs()))
    {
      ghost var s := Abs();
      RemoveEachKeeps(timedFBs, removeFBs, forteTime);
      forteTime := forteTime + 1;
      if removeFBs != [] {
        ProcessRemoveList();
      }
      ghost var kept := timedFBs;
      ProcessTimedFBList();
      ghost var afterDue := timedFBs;
      if addFBs != [] {
        ProcessAddList();
      }
      AppendAssoc(old(startedChains), Fbs(Due(kept, s.time + 1)), Fbs(LateAdds(s.adds, s.time + 1)));
      assert Abs() == State(s.time + 1, timedFBs, [], []);
      TickPasses(s, kept, afterDue, timedFBs);
    }
  }
}
