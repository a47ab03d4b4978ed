/** The event chain execution thread of core/src/ecet.cpp, first as the interleaving of its own atomic
    steps with those of the threads that start event chains, stop it and kill it, then as the code
    that moves events between the two ring buffers. */
module EventChain {
  import opened Options
  import opened Seqs
  import opened RingBuffer
  import opened Semaphores

  type Event = int

  // Where the thread is.  Blocked is the wait on the semaphore; Halted is after the end of run().
  datatype Pc = Top | CheckExternal | Transfer | Pop | Deliver(event: Event) | Blocked | Halted

  // capacities of the two lists and of the semaphore: 1 for the binary semaphore of the POSIX port
  datatype Config = Config(externalCap: nat, internalCap: nat, semLimit: nat)

  // pending counts the threads between their push (or stop) and the increment of the semaphore.
  datatype State = State(
    external: seq<Event>,
    events: seq<Event>,
    sem: nat,
    pending: nat,
    alive: bool,
    pc: Pc
  )

  // Delivery lets a function block add events of its own; which ones is not known here.
  datatype Action = Push(event: Event) | Increment | Thread(added: seq<Event>) | Stop | Kill | Start

  const INITIAL := State([], [], 0, 0, true, Top)

  // Of several events given to addEventEntry one after the other, the ones that enter the list q;
  // the rest is dropped.
  function Fitting(q: seq<Event>, es: seq<Event>, cap: nat): (r: seq<Event>)
    ensures r <= es && (|q| <= cap ==> |q| + |r| <= cap)
    ensures r == es || |q| + |r| >= cap
  {
    if |q| >= cap then [] else if |es| <= cap - |q| then es else es[..cap - |q|]
  }

  function ThreadStep(s: State, added: seq<Event>, c: Config): State {
    match s.pc
    case Top => s.(pc := if s.alive then CheckExternal else Halted)
    case CheckExternal => s.(pc := if s.external != [] then Transfer else Pop)
    case Transfer =>
      s.(events := s.events + Fitting(s.events, s.external, c.internalCap), external := [], pc := Pop)
    case Pop =>
      if s.events == [] then s.(pc := Blocked) else s.(events := s.events[1..], pc := Deliver(s.events[0]))
    case Deliver(_) => s.(events := s.events + Fitting(s.events, added, c.internalCap), pc := Top)
    case Blocked => if s.sem > 0 then s.(sem := s.sem - 1, pc := Top) else s
    case Halted => s
  }

  // An action that is not enabled leaves the state alone.
  function Next(s: State, a: Action, c: Config): State {
    match a
    case Push(e) =>
      if |s.external| < c.externalCap then s.(external := s.external + [e], pending := s.pending + 1) else s
    case Increment => if s.pending > 0 then s.(sem := Increased(s.sem, c.semLimit), pending := s.pending - 1) else s
    case Thread(added) => ThreadStep(s, added, c)
    case Stop => if s.alive then s.(alive := false, pending := s.pending + 1) else s
    case Kill =>
      var k := s.(external := [], events := []);
      if s.alive then k.(alive := false, pending := s.pending + 1) else k
    case Start => if !s.alive && s.pc.Halted? then s.(alive := true, pc := Top) else s
  }

  function Run(s: State, acts: seq<Action>, c: Config): State
    decreases |acts|
  {
    if acts == [] then s else Run(Next(s, acts[0], c), acts[1..], c)
  }

  // ---------------------------------------------------------------- what is seen of a run

  // Events given to the event list one after the other, by a transfer or by a function block, and the room it had
  datatype Batch = Batch(external: bool, events: seq<Event>, room: nat)

  function Room(s: State, c: Config): nat {
    if |s.events| <= c.internalCap then c.internalCap - |s.events| else 0
  }

  function BatchOf(s: State, a: Action, c: Config): Option<Batch> {
    if a.Thread? && s.pc.Transfer? then Some(Batch(true, s.external, Room(s, c)))
    else if a.Thread? && s.pc.Deliver? then Some(Batch(false, a.added, Room(s, c)))
    else None
  }

  function Before(b: Option<Batch>, rest: seq<Batch>): seq<Batch> {
    if b.Some? then [b.value] + rest else rest
  }

  function Batches(s: State, acts: seq<Action>, c: Config): seq<Batch>
    decreases |acts|
  {
    if acts == [] then [] else Before(BatchOf(s, acts[0], c), Batches(Next(s, acts[0], c), acts[1..], c))
  }

  // An external event is accepted if there is room for it.
  function AcceptedOf(s: State, a: Action, c: Config): seq<Event> {
    if a.Push? && |s.external| < c.externalCap then [a.event] else []
  }

  function Accepted(s: State, acts: seq<Action>, c: Config): seq<Event>
    decreases |acts|
  {
    if acts == [] then [] else AcceptedOf(s, acts[0], c) + Accepted(Next(s, acts[0], c), acts[1..], c)
  }

  // A function block receives an event.
  function DeliveredOf(s: State, a: Action, c: Config): seq<Event> {
    var next := Next(s, a, c);
    if s.pc.Pop? && next.pc.Deliver? then [next.pc.event] else []
  }

  function Delivered(s: State, acts: seq<Action>, c: Config): seq<Event>
    decreases |acts|
  {
    if acts == [] then [] else DeliveredOf(s, acts[0], c) + Delivered(Next(s, acts[0], c), acts[1..], c)
  }

  // The events of all transfers
  function Transferred(bs: seq<Batch>): seq<Event> {
    if bs == [] then [] else Moved(bs[0]) + Transferred(bs[1..])
  }

  function Moved(b: Batch): seq<Event> {
    if b.external then b.events else []
  }

  // Of a batch, the longest part from the front for which there was room
  function FirstOf(b: Batch): seq<Event> {
    if b.room < |b.events| then b.events[..b.room] else b.events
  }

  function Listed(bs: seq<Batch>): seq<Event> {
    if bs == [] then [] else FirstOf(bs[0]) + Listed(bs[1..])
  }

  // The same of the transfers only, or of the function blocks' own events only
  function ListedFrom(bs: seq<Batch>, external: bool): seq<Event> {
    if bs == [] then []
    else (if bs[0].external == external then FirstOf(bs[0]) else []) + ListedFrom(bs[1..], external)
  }

  predicate WithoutKill(acts: seq<Action>) {
    forall i :: 0 <= i < |acts| ==> !acts[i].Kill?
  }

  // ---------------------------------------------------------------- what every step keeps

  predicate Woken(s: State) {
    s.sem > 0 || s.pending > 0
  }

  ghost predicate Inv(s: State, c: Config) {
    && |s.external| <= c.externalCap && |s.events| <= c.internalCap
    && (s.pc.Pop? || s.pc.Blocked? ==> s.external != [] ==> Woken(s))
    && (s.pc.Blocked? ==> s.events == [])
    && (!s.alive && !s.pc.Top? && !s.pc.Halted? ==> Woken(s))
  }

  lemma NextKeeps(s: State, a: Action, c: Config)
    requires Inv(s, c) && c.semLimit > 0
    ensures Inv(Next(s, a, c), c)
  {
  }

  lemma {:induction false} RunKeeps(s: State, acts: seq<Action>, c: Config)
    requires Inv(s, c) && c.semLimit > 0
    ensures Inv(Run(s, acts, c), c)
    decreases |acts|
  {
    if acts != [] {
      NextKeeps(s, acts[0], c);
      RunKeeps(Next(s, acts[0], c), acts[1..], c);
    }
  }

  // ---------------------------------------------------------------- no event is lost, none is invented

  // What enters a queue and what leaves it, step by step
  lemma Through(before: seq<Event>, entered: seq<Event>, later: seq<Event>, gone: seq<Event>, between: seq<Event>,
                going: seq<Event>, after: seq<Event>)
    requires before + entered == gone + between && between + later == going + after
    ensures before + (entered + later) == gone + going + after
  {
    AppendAssoc(before, entered, later);
    AppendAssoc(gone, between, later);
    AppendAssoc(gone, going, after);
  }

  lemma Prepended(b: Option<Batch>, rest: seq<Batch>)
    ensures Transferred(Before(b, rest)) == (if b.Some? then Moved(b.value) else []) + Transferred(rest)
    ensures Listed(Before(b, rest)) == (if b.Some? then FirstOf(b.value) else []) + Listed(rest)
  {
    if b.Some? {
      assert ([b.value] + rest)[1..] == rest;
    }
  }

  lemma StepThrough(s: State, a: Action, c: Config)
    requires !a.Kill?
    ensures var b := BatchOf(s, a, c);
            && s.external + AcceptedOf(s, a, c) == (if b.Some? then Moved(b.value) else []) + Next(s, a, c).external
            && s.events + (if b.Some? then FirstOf(b.value) else []) == DeliveredOf(s, a, c) + Next(s, a, c).events
  {
    assert s.pc.Pop? && s.events != [] ==> s.events == [s.events[0]] + s.events[1..];
  }

  // Over every run without Kill, the external events that were waiting or accepted are those transferred and those
  // still waiting, in that order; and what was in the event list or entered it, batch by batch as far as there
  // was room, is what was delivered and what is still in it, in that order.
  lemma {:induction false} NothingLost(s: State, acts: seq<Action>, c: Config)
    requires WithoutKill(acts)
    ensures s.external + Accepted(s, acts, c) == Transferred(Batches(s, acts, c)) + Run(s, acts, c).external
    ensures s.events + Listed(Batches(s, acts, c)) == Delivered(s, acts, c) + Run(s, acts, c).events
    decreases |acts|
  {
    if acts != [] {
      var a, next, rest := acts[0], Next(s, acts[0], c), acts[1..];
      assert !a.Kill? && WithoutKill(rest);
      NothingLost(next, rest, c);
      StepThrough(s, a, c);
      var b := BatchOf(s, a, c);
      Prepended(b, Batches(next, rest, c));
      Through(s.external, AcceptedOf(s, a, c), Accepted(next, rest, c), if b.Some? then Moved(b.value) else [],
              next.external, Transferred(Batches(next, rest, c)), Run(next, rest, c).external);
      Through(s.events, if b.Some? then FirstOf(b.value) else [], Listed(Batches(next, rest, c)),
              DeliveredOf(s, a, c), next.events, Delivered(next, rest, c), Run(next, rest, c).events);
    }
  }

  lemma FromEmpty(s: State, acts: seq<Action>, c: Config)
    requires WithoutKill(acts) && s.external == [] && s.events == []
    ensures Accepted(s, acts, c) == Transferred(Batches(s, acts, c)) + Run(s, acts, c).external
    ensures Listed(Batches(s, acts, c)) == Delivered(s, acts, c) + Run(s, acts, c).events
  {
    NothingLost(s, acts, c);
    assert s.external + Accepted(s, acts, c) == Accepted(s, acts, c);
    assert s.events + Listed(Batches(s, acts, c)) == Listed(Batches(s, acts, c));
  }

  // Kill empties both lists: of what was accepted or listed before, nothing is transferred or delivered later.
  lemma KillForgets(s: State, acts: seq<Action>, c: Config)
    requires WithoutKill(acts)
    ensures var k := Next(s, Kill, c);
            && Accepted(k, acts, c) == Transferred(Batches(k, acts, c)) + Run(k, acts, c).external
            && Listed(Batches(k, acts, c)) == Delivered(k, acts, c) + Run(k, acts, c).events
  {
    FromEmpty(Next(s, Kill, c), acts, c);
  }

  // Whenever the thread sleeps and nobody is about to wake it, it is not stopped and both lists are empty.  So
  // without Kill every accepted event has been transferred, once and in the order of acceptance, and every event
  // for which the event list had room was delivered, once and in the order of entry.
  lemma NoLostWakeup(acts: seq<Action>, c: Config)
    requires c.semLimit > 0
    ensures var s := Run(INITIAL, acts, c);
            s.pc.Blocked? && s.sem == 0 && s.pending == 0 ==>
              && s.alive && s.external == [] && s.events == []
              && (WithoutKill(acts) ==>
                    && Accepted(INITIAL, acts, c) == Transferred(Batches(INITIAL, acts, c))
                    && Delivered(INITIAL, acts, c) == Listed(Batches(INITIAL, acts, c)))
  {
    assert Inv(INITIAL, c);
    RunKeeps(INITIAL, acts, c);
    if WithoutKill(acts) {
      FromEmpty(INITIAL, acts, c);
    }
  }

  // ---------------------------------------------------------------- external events among the others

  // The events of one kind, or those of the other, in order
  function Only(es: seq<Event>, kind: set<Event>, inside: bool): seq<Event> {
    if es == [] then [] else (if (es[0] in kind) == inside then [es[0]] else []) + Only(es[1..], kind, inside)
  }

  lemma {:induction false} OnlyConcat(a: seq<Event>, b: seq<Event>, kind: set<Event>, inside: bool)
    ensures Only(a + b, kind, inside) == Only(a, kind, inside) + Only(b, kind, inside)
  {
    AppendTail(a, b);
    if a != [] {
      OnlyConcat(a[1..], b, kind, inside);
      AppendAssoc(if (a[0] in kind) == inside then [a[0]] else [], Only(a[1..], kind, inside), Only(b, kind, inside));
    }
  }

  predicate AllOf(es: seq<Event>, kind: set<Event>, inside: bool) {
    forall i :: 0 <= i < |es| ==> (es[i] in kind) == inside
  }

  lemma {:induction false} OnlyAll(es: seq<Event>, kind: set<Event>, inside: bool, wanted: bool)
    requires AllOf(es, kind, inside)
    ensures Only(es, kind, wanted) == if inside == wanted then es else []
  {
    if es != [] {
      OnlyAll(es[1..], kind, inside, wanted);
      assert es == [es[0]] + es[1..];
    }
  }

  // Function blocks add none of the events that come from outside.
  predicate Told(acts: seq<Action>, outer: set<Event>) {
    && (forall i :: 0 <= i < |acts| && acts[i].Push? ==> acts[i].event in outer)
    && (forall i :: 0 <= i < |acts| && acts[i].Thread? ==> AllOf(acts[i].added, outer, false))
  }

  predicate ToldApart(bs: seq<Batch>, outer: set<Event>) {
    forall i :: 0 <= i < |bs| ==> AllOf(bs[i].events, outer, bs[i].external)
  }

  lemma {:induction false} BatchesToldApart(s: State, acts: seq<Action>, c: Config, outer: set<Event>)
    requires Told(acts, outer) && AllOf(s.external, outer, true)
    ensures ToldApart(Batches(s, acts, c), outer)
    decreases |acts|
  {
    if acts != [] {
      var a, next := acts[0], Next(s, acts[0], c);
      assert a.Push? ==> a.event in outer;
      assert a.Thread? ==> AllOf(a.added, outer, false);
      assert AllOf(next.external, outer, true);
      assert Told(acts[1..], outer);
      BatchesToldApart(next, acts[1..], c, outer);
    }
  }

  lemma {:induction false} OnlyListed(bs: seq<Batch>, outer: set<Event>, external: bool)
    requires ToldApart(bs, outer)
    ensures Only(Listed(bs), outer, external) == ListedFrom(bs, external)
  {
    if bs != [] {
      assert ToldApart(bs[1..], outer);
      OnlyListed(bs[1..], outer, external);
      OnlyConcat(FirstOf(bs[0]), Listed(bs[1..]), outer, external);
      assert AllOf(bs[0].events, outer, bs[0].external);
      OnlyAll(FirstOf(bs[0]), outer, bs[0].external, external);
    }
  }

  // Every transfer found room for the whole external list.
  predicate AlwaysRoom(bs: seq<Batch>) {
    forall i :: 0 <= i < |bs| && bs[i].external ==> |bs[i].events| <= bs[i].room
  }

  lemma AlwaysRoomNext(bs: seq<Batch>)
    requires bs != []
    ensures AlwaysRoom(bs) <==> (bs[0].external ==> |bs[0].events| <= bs[0].room) && AlwaysRoom(bs[1..])
  {
    forall i | 0 < i < |bs| ensures bs[i] == bs[1..][i - 1] {}
    if AlwaysRoom(bs) {
      forall i | 0 <= i < |bs| - 1 && bs[1..][i].external ensures |bs[1..][i].events| <= bs[1..][i].room {
        assert bs[i + 1] == bs[1..][i];
      }
    }
  }

  lemma SameParts(a: seq<Event>, a': seq<Event>, b: seq<Event>, b': seq<Event>)
    requires |a| <= |a'| && |b| <= |b'|
    ensures a + b == a' + b' <==> a == a' && b == b'
  {
    if a + b == a' + b' {
      assert |a + b| == |a' + b'|;
      assert a == (a + b)[..|a|] && a' == (a' + b')[..|a|];
      assert b == (a + b)[|a|..] && b' == (a' + b')[|a|..];
    }
  }

  lemma {:induction false} ListedIfRoom(bs: seq<Batch>)
    ensures ListedFrom(bs, true) == Transferred(bs) <==> AlwaysRoom(bs)
    ensures |ListedFrom(bs, true)| <= |Transferred(bs)|
  {
    if bs != [] {
      ListedIfRoom(bs[1..]);
      AlwaysRoomNext(bs);
      if bs[0].external {
        SameParts(FirstOf(bs[0]), Moved(bs[0]), ListedFrom(bs[1..], true), Transferred(bs[1..]));
        assert |FirstOf(bs[0])| == |bs[0].events| <==> |bs[0].events| <= bs[0].room;
      } else {
        assert [] + ListedFrom(bs[1..], true) == ListedFrom(bs[1..], true);
        assert [] + Transferred(bs[1..]) == Transferred(bs[1..]);
      }
    }
  }

  // At rest, the events from outside that were delivered are those of the transfers for which there was room, in
  // the order of acceptance, and they are all the accepted ones exactly if every transfer found room; and the
  // function blocks' own events that were delivered are those for which there was room when they were added.
  lemma EventsDelivered(acts: seq<Action>, c: Config, outer: set<Event>)
    requires c.semLimit > 0 && WithoutKill(acts) && Told(acts, outer)
    ensures var s, bs, delivered := Run(INITIAL, acts, c), Batches(INITIAL, acts, c), Delivered(INITIAL, acts, c);
            s.pc.Blocked? && s.sem == 0 && s.pending == 0 ==>
              && Only(delivered, outer, true) == ListedFrom(bs, true)
              && (Only(delivered, outer, true) == Accepted(INITIAL, acts, c) <==> AlwaysRoom(bs))
              && Only(delivered, outer, false) == ListedFrom(bs, false)
  {
    NoLostWakeup(acts, c);
    BatchesToldApart(INITIAL, acts, c, outer);
    OnlyListed(Batches(INITIAL, acts, c), outer, true);
    OnlyListed(Batches(INITIAL, acts, c), outer, false);
    ListedIfRoom(Batches(INITIAL, acts, c));
  }

  // ---------------------------------------------------------------- events are transferred soon

  predicate NoStopping(acts: seq<Action>) {
    forall i :: 0 <= i < |acts| ==> acts[i].Push? || acts[i].Increment? || acts[i].Thread?
  }

  function ThreadSteps(acts: seq<Action>): nat {
    if acts == [] then 0 else (if acts[0].Thread? then 1 else 0) + ThreadSteps(acts[1..])
  }

  // The steps the thread is away from its next transfer.
  function Distance(pc: Pc): nat {
    match pc
    case Transfer => 1
    case CheckExternal => 2
    case Top => 3
    case Deliver(_) => 4
    case Blocked => 4
    case Pop => 5
    case Halted => 0
  }

  ghost predicate Underway(s: State) {
    s.alive && !s.pc.Halted? && (s.pc.Pop? || s.pc.Blocked? ==> s.sem > 0)
  }

  lemma {:induction false} TransferredWithin(s: State, acts: seq<Action>, c: Config)
    requires NoStopping(acts) && (s.external != [] ==> Underway(s) && ThreadSteps(acts) >= Distance(s.pc))
    ensures s.external <= Transferred(Batches(s, acts, c))
    decreases |acts|
  {
    if s.external != [] && acts != [] {
      var a, next := acts[0], Next(s, acts[0], c);
      assert a.Push? || a.Increment? || a.Thread?;
      assert NoStopping(acts[1..]);
      Prepended(BatchOf(s, a, c), Batches(next, acts[1..], c));
      if !(a.Thread? && s.pc.Transfer?) {
        TransferredWithin(next, acts[1..], c);
      }
    }
  }

  // Once no increment is outstanding, five steps of the thread suffice for everything accepted so far to be
  // transferred, in that order, whatever the producers do meanwhile, unless it is stopped or killed.
  lemma TransferredSoon(before: seq<Action>, acts: seq<Action>, c: Config)
    requires c.semLimit > 0 && WithoutKill(before) && NoStopping(acts) && ThreadSteps(acts) >= 5
    ensures var s := Run(INITIAL, before, c);
            s.alive && s.pending == 0 && !s.pc.Halted? ==>
              Accepted(INITIAL, before, c)
              <= Transferred(Batches(INITIAL, before, c)) + Transferred(Batches(s, acts, c))
  {
    var s := Run(INITIAL, before, c);
    assert Inv(INITIAL, c);
    RunKeeps(INITIAL, before, c);
    FromEmpty(INITIAL, before, c);
    if s.alive && s.pending == 0 && !s.pc.Halted? {
      TransferredWithin(s, acts, c);
      PrefixBehind(Transferred(Batches(INITIAL, before, c)), s.external, Transferred(Batches(s, acts, c)));
    }
  }

  lemma PrefixBehind(a: seq<Event>, b: seq<Event>, c: seq<Event>)
    requires b <= c
    ensures a + b <= a + c
  {
  }

  // ---------------------------------------------------------------- the critical sections

  // startEventChain up to the end of its critical region: a full list drops the event.
  method PushExternal(external: RingBuffer<Event>, event: Event) returns (inserted: bool)
    requires external.Valid()
    modifies external, external.data
    ensures external.Valid()
    ensures inserted <==> |old(external.Contents())| < external.size - 1
    ensures external.Contents() == old(external.Contents()) + if inserted then [event] else []
    ensures forall s: State, c: Config ::
              s.external == old(external.Contents()) && c.externalCap == external.size - 1 ==>
                Next(s, Push(event), c).external == external.Contents()
  {
    inserted := external.Push(event);
  }

  method AddEventEntry(events: RingBuffer<Event>, event: Event)
    requires events.Valid()
    modifies events, events.data
    ensures events.Valid()
    ensures events.Contents() == old(events.Contents()) + Fitting(old(events.Contents()), [event], events.size - 1)
  {
    var ok := events.Push(event);
  }

  // Taking one event more from the front of the external list.
  lemma FittingNext(q: seq<Event>, taken: seq<Event>, event: Event, cap: nat)
    requires |q| <= cap
    ensures q + Fitting(q, taken + [event], cap) ==
            q + Fitting(q, taken, cap) + Fitting(q + Fitting(q, taken, cap), [event], cap)
  {
  }

  method TransferExternalEvents(external: RingBuffer<Event>, events: RingBuffer<Event>)
    requires external.Valid() && events.Valid() && external != events && external.data != events.data
    modifies external, events, events.data
    ensures external.Valid() && external.Contents() == [] && events.Valid()
    ensures events.Contents() ==
            old(events.Contents()) + Fitting(old(events.Contents()), old(external.Contents()), events.size - 1)
    ensures forall s: State, c: Config ::
              && s.external == old(external.Contents()) && s.events == old(events.Contents())
              && s.pc.Transfer? && c.internalCap == events.size - 1 ==>
                var next := Next(s, Thread([]), c);
                next.external == external.Contents() && next.events == events.Contents()
  {
    ghost var cap, all, q := events.size - 1, external.Contents(), events.Contents();
    ghost var taken: seq<Event> := [];
    var empty := external.IsEmpty();
    while !empty
      invariant external.Valid() && events.Valid() && (empty <==> external.Contents() == [])
      invariant all == taken + external.Contents()
      invariant events.Contents() == q + Fitting(q, taken, cap)
      decreases |external.Contents()|
    {
      var ok, event := external.Pop();
      AddEventEntry(events, event);
      FittingNext(q, taken, event, cap);
      AppendAssoc(taken, [event], external.Contents());
      taken := taken + [event];
      empty := external.IsEmpty();
    }
    assert taken == all;
  }
}
