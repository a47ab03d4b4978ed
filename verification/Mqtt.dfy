/** The MQTT handler thread and its clients, com/mqtt_paho: the wake-up protocol with the coalescing flag
    (MQTTHandler.cpp) and the client state machine driven by library callbacks (MQTTClient.cpp), as
    interleaved atomic steps. */
module Mqtt {
  import opened Semaphores

  datatype Layer = Layer(id: int, subscriber: bool)

  datatype ClientState = NotConnected | ConnectionAsked | Subscribing | AllSubscribed

  // The vectors of a client, up to order: removal partitions them and may reorder the rest.
  datatype Client = Client(state: ClientState, layers: multiset<Layer>, pending: multiset<Layer>)

  // ---------------------------------------------------------------- what the client's methods do

  function Without(ls: multiset<Layer>, l: Layer): multiset<Layer> {
    ls[l := 0]
  }

  // the subscribers among some layers, as often as they occur
  ghost predicate AreSubscribersOf(ls: multiset<Layer>, r: multiset<Layer>) {
    forall l :: r[l] == if l.subscriber then ls[l] else 0
  }

  ghost function SubscribersOf(ls: multiset<Layer>): (r: multiset<Layer>)
    ensures AreSubscribersOf(ls, r)
    decreases |ls|
  {
    if ls == multiset{} then multiset{}
    else
      var l :| l in ls;
      SubscribersOf(ls - multiset{l}) + if l.subscriber then multiset{l} else multiset{}
  }

  lemma SubscribersUnique(ls: multiset<Layer>, r: multiset<Layer>)
    requires AreSubscribersOf(ls, r)
    ensures r == SubscribersOf(ls)
  {
  }

  ghost function Reconnected(c: Client): Client {
    c.(state := NotConnected, pending := SubscribersOf(c.layers))
  }

  function Add(c: Client, l: Layer): Client {
    var c1 := c.(layers := c.layers + multiset{l});
    if !l.subscriber then c1
    else c1.(pending := c.pending + multiset{l}, state := if c.state.AllSubscribed? then Subscribing else c.state)
  }

  function Remove(c: Client, l: Layer): Client {
    c.(layers := Without(c.layers, l))
  }

  function Acknowledge(c: Client, l: Layer): Client {
    var pending := Without(c.pending, l);
    c.(pending := pending, state := if pending == multiset{} then AllSubscribed else c.state)
  }

  class MqttClient {
    var state: ClientState
    var layers: seq<Layer>
    var toResubscribe: seq<Layer>

    ghost function Abs(): Client
      reads this
    {
      Client(state, multiset(layers), multiset(toResubscribe))
    }

    // initClient with an accepted connection request
    constructor ()
      ensures Abs() == Client(ConnectionAsked, multiset{}, multiset{})
    {
      state, layers, toResubscribe := ConnectionAsked, [], [];
    }

    method Reconnect()
      modifies this
      ensures Abs() == Reconnected(old(Abs())) && layers == old(layers)
    {
      state := NotConnected;
      toResubscribe := [];
      var i := 0;
      while i < |layers|
        invariant i <= |layers| && layers == old(layers) && state == NotConnected
        invariant AreSubscribersOf(multiset(layers[..i]), multiset(toResubscribe))
      {
        assert layers[..i + 1] == layers[..i] + [layers[i]];
        if layers[i].subscriber {
          toResubscribe := toResubscribe + [layers[i]];
        }
        i := i + 1;
      }
      assert layers[..i] == layers;
      SubscribersUnique(multiset(layers), multiset(toResubscribe));
    }

    method AddLayer(l: Layer) returns (resume: bool)
      modifies this
      ensures Abs() == Add(old(Abs()), l)
      ensures resume <==> l.subscriber && old(state).AllSubscribed?
    {
      layers := layers + [l];
      if l.subscriber {
        toResubscribe := toResubscribe + [l];
        if state.AllSubscribed? {
          state := Subscribing;
          return true;
        }
      }
      return false;
    }

    method RemoveLayer(l: Layer)
      modifies this
      ensures Abs() == Remove(old(Abs()), l)
    {
      layers := Partitioned(layers, l);
    }

    // onSubscribeSucceed inside its critical region
    method SubscribeSucceed(l: Layer) returns (resume: bool)
      modifies this
      ensures Abs() == Acknowledge(old(Abs()), l) && resume == !state.AllSubscribed?
    {
      toResubscribe := Partitioned(toResubscribe, l);
      if toResubscribe == [] {
        state := AllSubscribed;
      }
      assert multiset(toResubscribe) == multiset{} <==> toResubscribe == [] by {
        if toResubscribe != [] { assert toResubscribe[0] in multiset(toResubscribe); }
      }
      resume := !state.AllSubscribed?;
    }
  }

  // removeLayerHelper: std::partition moves the other elements to the front, and the rest is erased.
  method Partitioned(ls: seq<Layer>, l: Layer) returns (r: seq<Layer>)
    ensures multiset(r) == Without(multiset(ls), l)
  {
    r := ls;
    var kept, i := 0, 0;
    while i < |r|
      invariant kept <= i <= |r| == |ls| && multiset(r) == multiset(ls)
      invariant l !in r[..kept] && forall k :: kept <= k < i ==> r[k] == l
    {
      if r[i] != l {
        r := r[kept := r[i]][i := r[kept]];
        kept := kept + 1;
      }
      i := i + 1;
    }
    assert r == r[..kept] + r[kept..];
    forall x | x in r[kept..] ensures x == l {}
    OnlyRest(r[..kept], r[kept..], l);
    r := r[..kept];
  }

  lemma OnlyRest(a: seq<Layer>, b: seq<Layer>, l: Layer)
    requires l !in a && forall x :: x in b ==> x == l
    ensures multiset(a) == Without(multiset(a + b), l)
  {
    assert multiset(a + b) == multiset(a) + multiset(b);
    forall x ensures multiset(a)[x] == Without(multiset(a + b), l)[x] {
      if x == l {
        assert x !in multiset(a);
      } else {
        assert x in multiset(b) <==> x in b;
        assert multiset(b)[x] == 0;
      }
    }
  }

  // ---------------------------------------------------------------- handler, clients and callers

  // A client and what is on its way to it: connect and subscribe calls the library has accepted but
  // not answered.  online is history: the connection is up.
  datatype Peer = Peer(
    client: Client,
    connects: nat,
    subscribes: multiset<Layer>,
    online: bool
  )

  // initClient under the client's lock: the library has accepted a connect call.
  const ASKED := Peer(Client(ConnectionAsked, multiset{}, multiset{}), 1, multiset{}, false)

  // Where the handler thread is.  Woken has passed the semaphore but not yet set the flag; Scan visits
  // the clients in order; Calling is the moment without the client's lock.
  datatype Pc =
    | Top | Waiting | Woken | Ready
    | Scan(next: nat, limit: nat, needSleep: bool)
    | Calling(next: nat, limit: nat, layer: Layer)
    | Halted

  // A new client can be called back before getClient lists it, and until then the handler does not
  // see it.  The callers of resumeSelfSuspend are counted by where they are: before the unlocked test
  // of the flag, past it, or inside the critical region after the increment.  owed records that a
  // request was completed since the last scan began.
  datatype State = State(
    peers: seq<Peer>,
    unlisted: seq<Peer>,
    sem: nat,
    flagEmpty: bool,
    testing: nat,
    passed: nat,
    inRegion: bool,
    alive: bool,
    pc: Pc,
    owed: bool
  )

  const INITIAL := State([], [], 0, true, 0, 0, false, true, Top, false)

  // A callback of the library, or a layer that opens or closes its connection.
  datatype Event =
    | ConnectSucceed | ConnectFail | ConnectionLost(unanswered: multiset<Layer>)
    | SubscribeSucceed(l: Layer) | SubscribeFail(l: Layer)
    | AddLayer(l: Layer) | RemoveLayer(l: Layer)

  datatype Action =
    | TestFlag | LockAndIncrement | ClearFlagAndUnlock
    | Handler(layer: Layer, accepted: bool)
    | AskClient | ListClient(k: nat) | OnUnlisted(k: nat, event: Event)
    | OnClient(i: nat, event: Event)
    | Disable

  function Put(s: State, i: nat, p: Peer, resume: bool): State
    requires i < |s.peers|
  {
    s.(peers := s.peers[i := p], testing := if resume then s.testing + 1 else s.testing)
  }

  // What runClient makes of a client when it keeps the lock; the library accepts a connect call or
  // not.
  function Visited(p: Peer, accepted: bool): Peer {
    match p.client.state
    case NotConnected =>
      if accepted then p.(client := p.client.(state := ConnectionAsked), connects := p.connects + 1) else p
    case Subscribing => p.(client := p.client.(state := AllSubscribed))
    case _ => p
  }

  // A subscribe call can be made for it.
  predicate Visitable(p: Peer) {
    p.client.state.Subscribing? && p.client.pending != multiset{}
  }

  // runClient up to the point where it returns or gives up the lock; `begin()` of the pending layers
  // is any of them.
  function RunClient(s: State, p: Peer, layer: Layer, accepted: bool): State
    requires s.pc.Scan? && s.pc.next < |s.peers|
  {
    if !Visitable(p) then
      Put(s.(pc := Scan(s.pc.next + 1, s.pc.limit, s.pc.needSleep)), s.pc.next, Visited(p, accepted), false)
    else if layer in p.client.pending then s.(pc := Calling(s.pc.next, s.pc.limit, layer))
    else s
  }

  function HandlerStep(s: State, layer: Layer, accepted: bool): State {
    match s.pc
    case Top => s.(pc := if s.alive then Waiting else Halted)
    case Waiting => if s.sem > 0 then s.(sem := s.sem - 1, pc := Woken) else s
    case Woken => if s.inRegion then s else s.(flagEmpty := true, pc := Ready)
    case Ready => if s.alive then s.(pc := Scan(0, |s.peers|, false), owed := false) else s.(pc := Halted)
    case Scan(next, limit, needSleep) =>
      if next >= limit || next >= |s.peers| then s.(pc := Top)
      else
        var p := s.peers[next];
        if p.client.state.AllSubscribed? || needSleep then s.(pc := Scan(next + 1, limit, needSleep))
        else RunClient(s, p, layer, accepted)
    case Calling(next, limit, l) =>
      if next >= |s.peers| then s
      else
        var p, back := s.peers[next], s.(pc := Scan(next + 1, limit, !accepted));
        if accepted then Put(back, next, p.(subscribes := p.subscribes + multiset{l}), false)
        else Put(back, next, p, true)
    case Halted => s
  }

  // An action that is not enabled leaves the state alone.
  ghost function Next(s: State, a: Action, semLimit: nat): State {
    match a
    case TestFlag =>
      if s.testing == 0 then s
      else if s.flagEmpty then s.(testing := s.testing - 1, passed := s.passed + 1)
      else s.(testing := s.testing - 1, owed := true)
    case LockAndIncrement =>
      if s.passed == 0 || s.inRegion then s
      else s.(passed := s.passed - 1, inRegion := true, sem := Increased(s.sem, semLimit))
    case ClearFlagAndUnlock => if s.inRegion then s.(flagEmpty := false, inRegion := false, owed := true) else s
    case Handler(layer, accepted) => HandlerStep(s, layer, accepted)
    case AskClient => s.(unlisted := s.unlisted + [ASKED])
    case ListClient(k) => if k < |s.unlisted| then Listed(s, k) else s
    case OnUnlisted(k, event) => if k < |s.unlisted| && IsConnection(event) then EarlyStep(s, k, event) else s
    case OnClient(i, event) => if i < |s.peers| then PeerStep(s, i, event) else s
    case Disable => if s.alive then s.(alive := false, testing := s.testing + 1) else s
  }

  // Nothing else can happen to a client that has no layers yet.
  predicate IsConnection(event: Event) {
    event.ConnectSucceed? || event.ConnectFail? || event.ConnectionLost?
  }

  // What an event makes of its client, and whether it asks the handler to resume.
  ghost function PeerNext(p: Peer, event: Event): (Peer, bool) {
    match event
    case ConnectSucceed =>
      if p.connects == 0 then (p, false)
      else (p.(client := p.client.(state := Subscribing), connects := p.connects - 1, online := true), true)
    case ConnectFail =>
      if p.connects == 0 then (p, false)
      else (p.(client := p.client.(state := NotConnected), connects := p.connects - 1, online := false), true)
    case ConnectionLost(unanswered) =>
      // some of the outstanding subscribe calls may never be answered
      (p.(client := Reconnected(p.client), subscribes := p.subscribes - unanswered, online := false), true)
    case SubscribeSucceed(l) =>
      // the callback reaches its client through the layer, so only while it is registered
      if Answerable(p, l)
      then (p.(client := Acknowledge(p.client, l), subscribes := p.subscribes - multiset{l}),
            !Acknowledge(p.client, l).state.AllSubscribed?)
      else (p, false)
    case SubscribeFail(l) =>
      if Answerable(p, l) then (p.(subscribes := p.subscribes - multiset{l}), true) else (p, false)
    case AddLayer(l) => (p.(client := Add(p.client, l)), l.subscriber && p.client.state.AllSubscribed?)
    case RemoveLayer(l) => (p.(client := Remove(p.client, l)), false)
  }

  predicate Answerable(p: Peer, l: Layer) {
    l in p.subscribes && l in p.client.layers
  }

  // An answer to this layer's call would follow the layer's null pointer to its client.
  predicate Orphaned(p: Peer, l: Layer) {
    l in p.subscribes && l !in p.client.layers
  }

  ghost function PeerStep(s: State, i: nat, event: Event): State
    requires i < |s.peers|
  {
    var (p, resume) := PeerNext(s.peers[i], event);
    Put(s, i, p, resume)
  }

  ghost function EarlyStep(s: State, k: nat, event: Event): State
    requires k < |s.unlisted|
  {
    var (p, resume) := PeerNext(s.unlisted[k], event);
    s.(unlisted := s.unlisted[k := p], testing := if resume then s.testing + 1 else s.testing)
  }

  // mClients.push_back: nobody is asked to resume.
  function Listed(s: State, k: nat): State
    requires k < |s.unlisted|
  {
    s.(peers := s.peers + [s.unlisted[k]], unlisted := s.unlisted[..k] + s.unlisted[k + 1..])
  }

  ghost function Run(s: State, acts: seq<Action>, semLimit: nat): State
    decreases |acts|
  {
    if acts == [] then s else Run(Next(s, acts[0], semLimit), acts[1..], semLimit)
  }

  // ---------------------------------------------------------------- wake-up

  predicate InFlight(s: State) {
    s.testing > 0 || s.passed > 0 || s.inRegion
  }

  predicate Wake(s: State) {
    s.sem > 0 || InFlight(s)
  }

  // The flag says "not empty" only while there is something to take or the handler has just taken it;
  // every completed request is still ahead of a scan; and the handler ends only when it is stopped.
  predicate FlagInv(s: State) {
    && (!s.flagEmpty || s.inRegion ==> s.sem > 0 || s.pc.Woken?)
    && (s.owed ==> s.sem > 0 || s.pc.Woken? || s.pc.Ready? || s.pc.Halted?)
    && (!s.alive && s.pc.Waiting? ==> Wake(s))
    && (s.pc.Halted? ==> !s.alive)
    && (s.pc.Calling? ==> s.pc.next < |s.peers|)
  }

  // Steps that neither take a request nor drop one
  lemma FlagFrame(s: State, s': State)
    requires FlagInv(s) && (s.pc.Scan? || s.pc.Calling?)
    requires s' == s.(pc := s'.pc, peers := s'.peers, testing := s'.testing)
    requires s'.pc.Top? || s'.pc.Scan? || (s'.pc.Calling? && s'.pc.next < |s'.peers|)
    ensures FlagInv(s')
  {
  }

  lemma RunClientFlag(s: State, p: Peer, layer: Layer, accepted: bool)
    requires FlagInv(s) && s.pc.Scan? && s.pc.next < |s.peers|
    ensures FlagInv(RunClient(s, p, layer, accepted))
  {
    FlagFrame(s, RunClient(s, p, layer, accepted));
  }

  lemma FlagAtVisit(s: State, layer: Layer, accepted: bool)
    requires FlagInv(s) && s.pc.Scan?
    ensures FlagInv(HandlerStep(s, layer, accepted))
  {
    if s.pc.next < |s.peers| {
      RunClientFlag(s, s.peers[s.pc.next], layer, accepted);
    }
  }

  lemma FlagAtHandler(s: State, layer: Layer, accepted: bool)
    requires FlagInv(s)
    ensures FlagInv(HandlerStep(s, layer, accepted))
  {
    match s.pc
    case Scan(_, _, _) => FlagAtVisit(s, layer, accepted);
    case Calling(_, _, _) => FlagFrame(s, HandlerStep(s, layer, accepted));
    case _ =>
  }

  lemma FlagInvKept(s: State, a: Action, semLimit: nat)
    requires FlagInv(s) && semLimit > 0
    ensures FlagInv(Next(s, a, semLimit))
  {
    match a
    case Handler(layer, accepted) => FlagAtHandler(s, layer, accepted);
    case _ =>
  }

  lemma {:induction false} RunKeepsFlag(s: State, acts: seq<Action>, semLimit: nat)
    requires FlagInv(s) && semLimit > 0
    ensures FlagInv(Run(s, acts, semLimit))
    decreases |acts|
  {
    if acts != [] {
      FlagInvKept(s, acts[0], semLimit);
      RunKeepsFlag(Next(s, acts[0], semLimit), acts[1..], semLimit);
    }
  }

  // A caller has its request completed: by its own increment, or because the flag says that there is one to take.
  predicate Completes(s: State, a: Action) {
    (a.TestFlag? && s.testing > 0 && !s.flagEmpty) || (a.ClearFlagAndUnlock? && s.inRegion)
  }

  // The handler begins a scan of all listed clients.
  predicate BeginsScanBy(s: State, a: Action) {
    a.Handler? && s.pc.Ready? && HandlerStep(s, a.layer, a.accepted).pc == Scan(0, |s.peers|, false)
  }

  // In the course of the run the handler begins such a scan.
  ghost predicate ScanBegins(s: State, acts: seq<Action>, semLimit: nat)
    decreases |acts|
  {
    acts != [] && (BeginsScanBy(s, acts[0]) || ScanBegins(Next(s, acts[0], semLimit), acts[1..], semLimit))
  }

  // Some request completed in the run is followed by no scan.
  ghost predicate Unserved(s: State, acts: seq<Action>, semLimit: nat)
    decreases |acts|
  {
    acts != [] &&
    var next := Next(s, acts[0], semLimit);
    (Completes(s, acts[0]) && !ScanBegins(next, acts[1..], semLimit)) || Unserved(next, acts[1..], semLimit)
  }

  // owed is what the run says.
  lemma {:induction false} OwedIsUnserved(s: State, acts: seq<Action>, semLimit: nat)
    ensures Run(s, acts, semLimit).owed <==>
            Unserved(s, acts, semLimit) || (s.owed && !ScanBegins(s, acts, semLimit))
    decreases |acts|
  {
    if acts != [] {
      var next := Next(s, acts[0], semLimit);
      OwedIsUnserved(next, acts[1..], semLimit);
      OwedStep(s, acts[0], semLimit);
    }
  }

  lemma OwedStep(s: State, a: Action, semLimit: nat)
    ensures Next(s, a, semLimit).owed <==> Completes(s, a) || (s.owed && !BeginsScanBy(s, a))
  {
    if !a.Handler? { assert !BeginsScanBy(s, a); }
  }

  // In every interleaving whatsoever: when the handler sleeps on an empty semaphore and no caller is in
  // flight, it is not being stopped, the flag says "empty", and every completed request was followed by a scan.
  lemma NoRequestLost(acts: seq<Action>, semLimit: nat)
    requires semLimit > 0
    ensures var s := Run(INITIAL, acts, semLimit);
            s.pc.Waiting? && !Wake(s) ==> s.alive && s.flagEmpty && !Unserved(INITIAL, acts, semLimit)
  {
    RunKeepsFlag(INITIAL, acts, semLimit);
    OwedIsUnserved(INITIAL, acts, semLimit);
  }

  // ---------------------------------------------------------------- requests are served soon

  predicate NoStopping(acts: seq<Action>) {
    forall i :: 0 <= i < |acts| ==> !acts[i].Disable?
  }

  predicate HandlerMoves(s: State, a: Action) {
    a.Handler? && HandlerStep(s, a.layer, a.accepted).pc != s.pc
  }

  // The steps of the handler in a run, without those in which it waits for a lock
  ghost function HandlerMovesIn(s: State, acts: seq<Action>, semLimit: nat): nat
    decreases |acts|
  {
    if acts == [] then 0
    else (if HandlerMoves(s, acts[0]) then 1 else 0) + HandlerMovesIn(Next(s, acts[0], semLimit), acts[1..], semLimit)
  }

  // The most steps the handler is away from the beginning of its next scan: two for each client left in
  // this one, and five from its end.
  function Distance(pc: Pc): nat {
    match pc
    case Ready => 1
    case Woken => 2
    case Waiting => 3
    case Top => 4
    case Scan(next, limit, _) => 5 + 2 * if next < limit then limit - next else 0
    case Calling(next, limit, _) => 6 + 2 * if next + 1 < limit then limit - next - 1 else 0
    case Halted => 0
  }

  // An action that begins no scan leaves the request to be served, and the handler comes nearer to it with
  // each of its moves.
  lemma RequestWaits(s: State, a: Action, semLimit: nat)
    requires FlagInv(s) && s.owed && s.alive && !a.Disable?
    ensures var s' := Next(s, a, semLimit);
            || BeginsScanBy(s, a)
            || (s'.owed && s'.alive && Distance(s'.pc) + (if HandlerMoves(s, a) then 1 else 0) <= Distance(s.pc))
  {
    if !a.Handler? {
      assert Next(s, a, semLimit).pc == s.pc;
    }
  }

  lemma {:induction false} ScanBeginsWithin(s: State, acts: seq<Action>, semLimit: nat)
    requires FlagInv(s) && semLimit > 0 && s.owed && s.alive && NoStopping(acts)
    requires HandlerMovesIn(s, acts, semLimit) >= Distance(s.pc)
    ensures ScanBegins(s, acts, semLimit)
    decreases |acts|
  {
    if acts != [] {
      FlagInvKept(s, acts[0], semLimit);
      RequestWaits(s, acts[0], semLimit);
      if !BeginsScanBy(s, acts[0]) {
        ScanBeginsWithin(Next(s, acts[0], semLimit), acts[1..], semLimit);
      }
    }
  }

  // A completed request is served: wherever the handler is and whatever everybody else does meanwhile, it
  // begins a scan within so many of its moves, unless it is stopped.
  lemma RequestReachesScan(before: seq<Action>, acts: seq<Action>, semLimit: nat)
    requires semLimit > 0 && Unserved(INITIAL, before, semLimit) && NoStopping(acts)
    ensures var s := Run(INITIAL, before, semLimit);
            s.alive && HandlerMovesIn(s, acts, semLimit) >= Distance(s.pc) ==> ScanBegins(s, acts, semLimit)
  {
    RunKeepsFlag(INITIAL, before, semLimit);
    OwedIsUnserved(INITIAL, before, semLimit);
    var s := Run(INITIAL, before, semLimit);
    if s.alive && HandlerMovesIn(s, acts, semLimit) >= Distance(s.pc) {
      ScanBeginsWithin(s, acts, semLimit);
    }
  }

  // And it can move: with a request outstanding it is held up only by a caller in the critical region.
  lemma HandlerCanMove(before: seq<Action>, semLimit: nat)
    requires semLimit > 0 && Unserved(INITIAL, before, semLimit)
    ensures var s := Run(INITIAL, before, semLimit);
            s.alive ==>
              ((exists layer, accepted :: HandlerMoves(s, Handler(layer, accepted))) <==> !(s.pc.Woken? && s.inRegion))
  {
    RunKeepsFlag(INITIAL, before, semLimit);
    OwedIsUnserved(INITIAL, before, semLimit);
    var s := Run(INITIAL, before, semLimit);
    if s.alive && !(s.pc.Woken? && s.inRegion) {
      var layer := Layer(0, true);
      if s.pc.Scan? && s.pc.next < |s.peers| && s.peers[s.pc.next].client.pending != multiset{} {
        layer :| layer in s.peers[s.pc.next].client.pending;
      }
      assert HandlerMoves(s, Handler(layer, true));
    }
  }

  // ---------------------------------------------------------------- nothing is left to do at rest

  // The client is where its next step comes from the library, or has none: all is subscribed, or an
  // answer that reaches it is outstanding.
  ghost predicate Settled(p: Peer) {
    match p.client.state
    case AllSubscribed => true
    case ConnectionAsked => p.connects > 0
    case Subscribing => p.client.pending != multiset{} && exists l :: Answerable(p, l)
    case NotConnected => false
  }

  ghost predicate SettledOrWake(s: State, j: nat) {
    j < |s.peers| ==> Settled(s.peers[j]) || Wake(s)
  }

  ghost predicate ScanInv(s: State) {
    match s.pc
    case Woken => true
    case Ready => true
    case Halted => true
    case Top => forall j: nat :: SettledOrWake(s, j)
    case Waiting => forall j: nat :: SettledOrWake(s, j)
    case Scan(next, limit, needSleep) =>
      && next <= limit <= |s.peers|
      && (needSleep ==> Wake(s))
      && (forall j: nat | j < next || limit <= j :: SettledOrWake(s, j))
    case Calling(next, limit, _) =>
      && next < limit <= |s.peers|
      && (forall j: nat | j < next || limit <= j :: SettledOrWake(s, j))
      && (Visitable(s.peers[next]) || SettledOrWake(s, next))
  }

  predicate AskedRightly(p: Peer) {
    p.client.state.ConnectionAsked? ==> p.connects > 0
  }

  // What can become of a client before it is listed
  predicate Bare(p: Peer) {
    && p.client.layers == multiset{} && p.client.pending == multiset{} && p.subscribes == multiset{}
    && !p.client.state.AllSubscribed? && AskedRightly(p)
  }

  ghost predicate UnlistedBare(s: State) {
    forall k: nat | k < |s.unlisted| :: Bare(s.unlisted[k])
  }

  ghost predicate ClientsInv(s: State) {
    (forall j: nat | j < |s.peers| :: AskedRightly(s.peers[j])) && UnlistedBare(s)
  }

  ghost predicate WakeInv(s: State) {
    FlagInv(s) && ClientsInv(s) && ScanInv(s)
  }

  // No wake-up is outstanding, and the handler will not come to the j-th client before it sleeps.
  predicate Unwatched(s: State, j: nat) {
    !Wake(s) &&
    match s.pc
    case Top => true
    case Waiting => true
    case Scan(next, limit, _) => j < next || limit <= j
    case Calling(next, limit, _) => j < next || limit <= j
    case _ => false
  }

  // The answer for this layer is the only one that a subscribing client can still get.
  ghost predicate OnlyAnswer(p: Peer, l: Layer) {
    p.client.state.Subscribing? && Answerable(p, l) && forall m :: Answerable(p, m) ==> m == l
  }

  // The handler visits a client that is not connected, and the library refuses the connect call.
  predicate RefusesConnect(s: State, accepted: bool) {
    && s.pc.Scan? && s.pc.next < s.pc.limit && s.pc.next < |s.peers| && !s.pc.needSleep
    && s.peers[s.pc.next].client.state.NotConnected? && !accepted
  }

  // The handler subscribes for a layer that has been removed meanwhile, and the client gets no other answer.
  ghost predicate CallsInVain(s: State, accepted: bool) {
    && s.pc.Calling? && s.pc.next < |s.peers| && accepted && Visitable(s.peers[s.pc.next])
    && s.pc.layer !in s.peers[s.pc.next].client.layers && forall m :: !Answerable(s.peers[s.pc.next], m)
  }

  // The four steps after which nobody turns to a client any more: it is listed when it was called back
  // already; the layer whose answer it waits for is removed; its connect call is refused; or the subscribe
  // call is made for a layer that has been removed meanwhile.
  ghost predicate Strands(s: State, a: Action) {
    match a
    case ListClient(k) =>
      k < |s.unlisted| && Unwatched(s, |s.peers|) && !s.unlisted[k].client.state.ConnectionAsked?
    case OnClient(i, RemoveLayer(l)) =>
      i < |s.peers| && Unwatched(s, i) && OnlyAnswer(s.peers[i], l)
    case Handler(_, accepted) => !Wake(s) && (RefusesConnect(s, accepted) || CallsInVain(s, accepted))
    case _ => false
  }

  // Writing one client keeps the scan invariant if it stays settled, is watched, or somebody is woken.
  lemma PutKeeps(s: State, i: nat, p: Peer, resume: bool)
    requires WakeInv(s) && i < |s.peers| && AskedRightly(p)
    requires resume || !Unwatched(s, i) || (Settled(s.peers[i]) ==> Settled(p))
    requires resume || ((Visitable(s.peers[i]) || Settled(s.peers[i])) ==> Visitable(p) || Settled(p))
    ensures WakeInv(Put(s, i, p, resume))
  {
    var s' := Put(s, i, p, resume);
    assert Wake(s) ==> Wake(s');
    forall j: nat | SettledOrWake(s, j) && (j != i || resume || Wake(s) || (Settled(s.peers[i]) ==> Settled(p)))
      ensures SettledOrWake(s', j)
    {
    }
  }

  lemma AddSettles(p: Peer, l: Layer)
    ensures var (p', resume) := PeerNext(p, AddLayer(l));
            && (Settled(p) ==> resume || Settled(p'))
            && (Visitable(p) ==> Visitable(p'))
  {
    var p' := PeerNext(p, AddLayer(l)).0;
    assert l in p'.client.pending || !l.subscriber;
    forall m | Answerable(p, m) ensures Answerable(p', m) {}
  }

  lemma RemoveSettles(p: Peer, l: Layer)
    requires Settled(p)
    ensures Settled(PeerNext(p, RemoveLayer(l)).0) <==> !OnlyAnswer(p, l)
  {
    var p' := PeerNext(p, RemoveLayer(l)).0;
    forall m ensures Answerable(p', m) <==> Answerable(p, m) && m != l {}
  }

  // An event leaves its client settled or asks for a wake-up, exactly unless it removes the layer of the only answer.
  lemma PeerNextSettles(p: Peer, event: Event)
    requires AskedRightly(p)
    ensures var (p', resume) := PeerNext(p, event);
            && AskedRightly(p')
            && (Settled(p) ==> (resume || Settled(p') <==> !(event.RemoveLayer? && OnlyAnswer(p, event.l))))
            && (resume || ((Visitable(p) || Settled(p)) ==> Visitable(p') || Settled(p')))
  {
    match event
    case AddLayer(l) => AddSettles(p, l);
    case RemoveLayer(l) => if Settled(p) { RemoveSettles(p, l); }
    case _ =>
  }

  // A client that is unsettled and unwatched breaks the invariant.
  lemma LeftAlone(s: State, j: nat)
    requires Unwatched(s, j) && j < |s.peers| && !Settled(s.peers[j])
    ensures !WakeInv(s)
  {
    assert !SettledOrWake(s, j);
  }

  lemma UnwatchedIsSettled(s: State, j: nat)
    requires WakeInv(s) && Unwatched(s, j) && j < |s.peers|
    ensures Settled(s.peers[j])
  {
    assert SettledOrWake(s, j);
  }

  lemma PeerStepExactly(s: State, i: nat, event: Event)
    requires WakeInv(s) && i < |s.peers|
    ensures WakeInv(PeerStep(s, i, event)) <==> !Strands(s, OnClient(i, event))
  {
    var (p, resume) := PeerNext(s.peers[i], event);
    PeerNextSettles(s.peers[i], event);
    if Unwatched(s, i) {
      UnwatchedIsSettled(s, i);
    }
    if Strands(s, OnClient(i, event)) {
      LeftAlone(PeerStep(s, i, event), i);
    } else {
      PutKeeps(s, i, p, resume);
    }
  }

  lemma BareStaysBare(p: Peer, event: Event)
    requires Bare(p) && IsConnection(event)
    ensures Bare(PeerNext(p, event).0)
  {
    assert SubscribersOf(p.client.layers) == multiset{};
  }

  // A step that loses no wake-up and leaves every other peer alone.
  lemma SettledFrame(s: State, s': State)
    requires Wake(s) ==> Wake(s')
    requires forall j: nat | j < |s'.peers| ::
               (j < |s.peers| && s'.peers[j] == s.peers[j]) || Settled(s'.peers[j])
    ensures forall j: nat :: SettledOrWake(s, j) ==> SettledOrWake(s', j)
  {
  }

  lemma EarlyStepKeeps(s: State, k: nat, event: Event)
    requires WakeInv(s) && k < |s.unlisted| && IsConnection(event)
    ensures WakeInv(EarlyStep(s, k, event))
  {
    BareStaysBare(s.unlisted[k], event);
    SettledFrame(s, EarlyStep(s, k, event));
  }

  lemma ListedBare(s: State, k: nat)
    requires UnlistedBare(s) && k < |s.unlisted|
    ensures UnlistedBare(Listed(s, k))
  {
    var s' := Listed(s, k);
    forall i: nat | i < |s'.unlisted| ensures Bare(s'.unlisted[i]) {
      assert s'.unlisted[i] == s.unlisted[if i < k then i else i + 1];
    }
  }

  // Listing keeps the invariant exactly if it finds the client still waiting for its connection, or a
  // wake-up or a scan that will reach it is still ahead.
  lemma ListingExactly(s: State, k: nat)
    requires WakeInv(s) && k < |s.unlisted|
    ensures WakeInv(Listed(s, k)) <==> s.unlisted[k].client.state.ConnectionAsked? || !Unwatched(s, |s.peers|)
  {
    var s' := Listed(s, k);
    var p, j := s.unlisted[k], |s.peers|;
    assert s'.peers[j] == p && Bare(p);
    assert forall l :: !Answerable(p, l);
    if Unwatched(s, j) && !p.client.state.ConnectionAsked? {
      LeftAlone(s', j);
    } else {
      forall i: nat | SettledOrWake(s, i) && i != j ensures SettledOrWake(s', i) {}
      ListedBare(s, k);
    }
  }

  lemma VisitSettles(p: Peer, accepted: bool)
    requires AskedRightly(p) && !Visitable(p) && (p.client.state.NotConnected? ==> accepted)
    ensures Settled(Visited(p, accepted)) && AskedRightly(Visited(p, accepted))
  {
  }

  lemma VisitedKeeps(s: State, accepted: bool)
    requires WakeInv(s) && s.pc.Scan? && s.pc.next < s.pc.limit && !s.pc.needSleep && !Visitable(s.peers[s.pc.next])
    requires Wake(s) || !RefusesConnect(s, accepted)
    ensures WakeInv(RunClient(s, s.peers[s.pc.next], Layer(0, true), accepted))
  {
    var p := s.peers[s.pc.next];
    if RefusesConnect(s, accepted) {
      assert Visited(p, accepted) == p;
    } else {
      VisitSettles(p, accepted);
    }
    SettledFrame(s, RunClient(s, p, Layer(0, true), accepted));
  }

  lemma RunClientExactly(s: State, layer: Layer, accepted: bool)
    requires WakeInv(s) && s.pc.Scan? && s.pc.next < s.pc.limit && !s.pc.needSleep
    ensures WakeInv(RunClient(s, s.peers[s.pc.next], layer, accepted)) <==> Wake(s) || !RefusesConnect(s, accepted)
  {
    var s' := RunClient(s, s.peers[s.pc.next], layer, accepted);
    if !Wake(s) && RefusesConnect(s, accepted) {
      LeftAlone(s', s.pc.next);
    } else if Visitable(s.peers[s.pc.next]) {
      SettledFrame(s, s');
    } else {
      VisitedKeeps(s, accepted);
    }
  }

  lemma CallExactly(s: State, layer: Layer, accepted: bool)
    requires WakeInv(s) && s.pc.Calling?
    ensures WakeInv(HandlerStep(s, layer, accepted)) <==> !Strands(s, Handler(layer, accepted))
  {
    var s' := HandlerStep(s, layer, accepted);
    var j := s.pc.next;
    var p, p' := s.peers[j], s'.peers[j];
    if Strands(s, Handler(layer, accepted)) {
      assert forall m :: Answerable(p', m) ==> Answerable(p, m) || m == s.pc.layer;
      LeftAlone(s', j);
    } else if accepted && !Wake(s) {
      CalledSettles(p, s.pc.layer);
      assert p' == p.(subscribes := p.subscribes + multiset{s.pc.layer});
      SettledFrame(s, s');
    } else {
      assert Wake(s');
    }
  }

  lemma CalledSettles(p: Peer, l: Layer)
    requires Visitable(p) || Settled(p)
    requires Visitable(p) ==> l in p.client.layers || exists m :: Answerable(p, m)
    ensures Settled(p.(subscribes := p.subscribes + multiset{l}))
  {
    var p' := p.(subscribes := p.subscribes + multiset{l});
    forall m | Answerable(p, m) ensures Answerable(p', m) {}
    if Visitable(p) && l in p.client.layers {
      assert Answerable(p', l);
    }
  }

  lemma ScanStepExactly(s: State, layer: Layer, accepted: bool)
    requires WakeInv(s) && s.pc.Scan?
    ensures WakeInv(HandlerStep(s, layer, accepted)) <==> Wake(s) || !RefusesConnect(s, accepted)
  {
    var next := s.pc.next;
    if next < s.pc.limit && !s.peers[next].client.state.AllSubscribed? && !s.pc.needSleep {
      RunClientExactly(s, layer, accepted);
    } else {
      FlagAtHandler(s, layer, accepted);
      SettledFrame(s, HandlerStep(s, layer, accepted));
    }
  }

  lemma HandlerStepExactly(s: State, layer: Layer, accepted: bool)
    requires WakeInv(s)
    ensures WakeInv(HandlerStep(s, layer, accepted)) <==> !Strands(s, Handler(layer, accepted))
  {
    FlagAtHandler(s, layer, accepted);
    match s.pc
    case Calling(_, _, _) => CallExactly(s, layer, accepted);
    case Scan(_, _, _) => ScanStepExactly(s, layer, accepted);
    case Top => SettledFrame(s, HandlerStep(s, layer, accepted));
    case _ =>
  }

  lemma CallerStepKeeps(s: State, s': State)
    requires WakeInv(s) && FlagInv(s') && s'.peers == s.peers && s'.pc == s.pc && ClientsInv(s')
    requires s.pc.Woken? || (Wake(s) ==> Wake(s'))
    ensures WakeInv(s')
  {
    if !s.pc.Woken? { SettledFrame(s, s'); }
  }

  // A step keeps the wake-up invariant exactly unless it strands a client.
  lemma NextKeepsExactly(s: State, a: Action, semLimit: nat)
    requires WakeInv(s) && semLimit > 0
    ensures WakeInv(Next(s, a, semLimit)) <==> !Strands(s, a)
  {
    var s' := Next(s, a, semLimit);
    FlagInvKept(s, a, semLimit);
    match a
    case Handler(layer, accepted) => HandlerStepExactly(s, layer, accepted);
    case TestFlag => CallerStepKeeps(s, s');
    case LockAndIncrement => CallerStepKeeps(s, s');
    case ClearFlagAndUnlock => CallerStepKeeps(s, s');
    case Disable => CallerStepKeeps(s, s');
    case AskClient => CallerStepKeeps(s, s');
    case ListClient(k) => if k < |s.unlisted| { ListingExactly(s, k); }
    case OnUnlisted(k, event) => if k < |s.unlisted| && IsConnection(event) { EarlyStepKeeps(s, k, event); }
    case OnClient(i, event) => if i < |s.peers| { PeerStepExactly(s, i, event); }
  }

  // No step of the run strands a client.
  ghost predicate Careful(s: State, acts: seq<Action>, semLimit: nat)
    decreases |acts|
  {
    acts != [] ==> !Strands(s, acts[0]) && Careful(Next(s, acts[0], semLimit), acts[1..], semLimit)
  }

  lemma {:induction false} RunKeeps(s: State, acts: seq<Action>, semLimit: nat)
    requires WakeInv(s) && semLimit > 0 && Careful(s, acts, semLimit)
    ensures WakeInv(Run(s, acts, semLimit))
    decreases |acts|
  {
    if acts != [] {
      NextKeepsExactly(s, acts[0], semLimit);
      RunKeeps(Next(s, acts[0], semLimit), acts[1..], semLimit);
    }
  }

  // In every interleaving without a stranding step: whenever the handler sleeps on an empty semaphore and no
  // caller is in flight, every listed client is settled: it has all subscribed, or an answer is on its way that
  // will reach it.
  lemma QuiescentMeansSettled(acts: seq<Action>, semLimit: nat)
    requires semLimit > 0 && Careful(INITIAL, acts, semLimit)
    ensures var s := Run(INITIAL, acts, semLimit);
            s.pc.Waiting? && !Wake(s) ==> forall j: nat | j < |s.peers| :: Settled(s.peers[j])
  {
    assert WakeInv(INITIAL);
    RunKeeps(INITIAL, acts, semLimit);
    var s := Run(INITIAL, acts, semLimit);
    if s.pc.Waiting? && !Wake(s) {
      forall j: nat | j < |s.peers| ensures Settled(s.peers[j]) {
        assert SettledOrWake(s, j);
      }
    }
  }

  // ---------------------------------------------------------------- subscriptions

  // After a loss exactly the registered subscribers are pending, as often as they are registered.
  lemma LossPends(p: Peer, unanswered: multiset<Layer>, l: Layer)
    ensures var (p', resume) := PeerNext(p, ConnectionLost(unanswered));
            && resume && p'.client.state == NotConnected && p'.client.layers == p.client.layers
            && p'.client.pending[l] == if l.subscriber then p.client.layers[l] else 0
  {
    assert AreSubscribersOf(p.client.layers, SubscribersOf(p.client.layers));
  }

  // The layers acknowledged since they were last registered and the connection was last lost, read off what
  // happens to the j-th listed client
  ghost function AckedBy(acked: set<Layer>, s: State, a: Action, j: nat): set<Layer> {
    match a
    case OnClient(i, AddLayer(l)) => if i == j then acked - {l} else acked
    case OnClient(i, ConnectionLost(_)) => if i == j then {} else acked
    case OnClient(i, SubscribeSucceed(l)) =>
      if i == j < |s.peers| && Answerable(s.peers[j], l) then acked + {l} else acked
    case _ => acked
  }

  ghost function AckedIn(acked: set<Layer>, s: State, acts: seq<Action>, semLimit: nat, j: nat): set<Layer>
    decreases |acts|
  {
    if acts == [] then acked
    else AckedIn(AckedBy(acked, s, acts[0], j), Next(s, acts[0], semLimit), acts[1..], semLimit, j)
  }

  predicate Subscribed(p: Peer, acked: set<Layer>) {
    && (p.client.state.AllSubscribed? ==> p.client.pending == multiset{})
    && (forall l | l in p.client.layers :: l.subscriber ==> l in p.client.pending || l in acked)
  }

  lemma AddedSubscribed(p: Peer, acked: set<Layer>, l: Layer)
    requires Subscribed(p, acked)
    ensures Subscribed(PeerNext(p, AddLayer(l)).0, acked - {l})
  {
    var p' := PeerNext(p, AddLayer(l)).0;
    forall m | m in p'.client.layers && m.subscriber ensures m in p'.client.pending || m in acked - {l} {
      assert m in p.client.layers || m == l;
    }
  }

  lemma AcknowledgedSubscribed(p: Peer, acked: set<Layer>, l: Layer)
    requires Subscribed(p, acked)
    ensures Subscribed(PeerNext(p, SubscribeSucceed(l)).0, if Answerable(p, l) then acked + {l} else acked)
  {
    var p' := PeerNext(p, SubscribeSucceed(l)).0;
    assert forall m :: m in p.client.pending && m != l ==> m in p'.client.pending;
  }

  lemma LostSubscribed(p: Peer, unanswered: multiset<Layer>)
    ensures Subscribed(PeerNext(p, ConnectionLost(unanswered)).0, {})
  {
    var p' := PeerNext(p, ConnectionLost(unanswered)).0;
    forall l | l in p'.client.layers && l.subscriber ensures l in p'.client.pending {
      LossPends(p, unanswered, l);
    }
  }

  lemma OtherSubscribed(p: Peer, acked: set<Layer>, event: Event)
    requires Subscribed(p, acked) && !event.AddLayer? && !event.SubscribeSucceed? && !event.ConnectionLost?
    ensures Subscribed(PeerNext(p, event).0, acked)
  {
  }

  // A callback or command keeps each registered subscriber pending or acknowledged.
  lemma PeerNextSubscribed(s: State, j: nat, acked: set<Layer>, event: Event)
    requires j < |s.peers| && Subscribed(s.peers[j], acked)
    ensures Subscribed(PeerNext(s.peers[j], event).0, AckedBy(acked, s, OnClient(j, event), j))
  {
    if event.AddLayer? {
      AddedSubscribed(s.peers[j], acked, event.l);
    } else if event.SubscribeSucceed? {
      AcknowledgedSubscribed(s.peers[j], acked, event.l);
    } else if event.ConnectionLost? {
      LostSubscribed(s.peers[j], event.unanswered);
    } else {
      OtherSubscribed(s.peers[j], acked, event);
    }
  }

  // Of the j-th client once it is listed; before that it has no layers.
  ghost predicate Follows(s: State, j: nat, acked: set<Layer>) {
    (j < |s.peers| ==> Subscribed(s.peers[j], acked)) && UnlistedBare(s)
  }

  // A step of the handler leaves the layers alone, and says that all is subscribed only if nothing is pending.
  lemma PutSubscribed(s: State, j: nat, acked: set<Layer>, i: nat, p: Peer, resume: bool)
    requires Follows(s, j, acked) && i < |s.peers|
    requires p.client.layers == s.peers[i].client.layers && p.client.pending == s.peers[i].client.pending
    requires p.client.state.AllSubscribed? ==> s.peers[i].client.state.AllSubscribed? || p.client.pending == multiset{}
    ensures Follows(Put(s, i, p, resume), j, acked)
  {
  }

  lemma RunClientSubscribed(s: State, j: nat, acked: set<Layer>, layer: Layer, accepted: bool)
    requires Follows(s, j, acked) && s.pc.Scan? && s.pc.next < |s.peers|
    ensures Follows(RunClient(s, s.peers[s.pc.next], layer, accepted), j, acked)
  {
    var next, p := s.pc.next, s.peers[s.pc.next];
    if !Visitable(p) {
      PutSubscribed(s.(pc := Scan(next + 1, s.pc.limit, s.pc.needSleep)), j, acked, next, Visited(p, accepted), false);
    }
  }

  lemma CallSubscribed(s: State, j: nat, acked: set<Layer>, layer: Layer, accepted: bool)
    requires Follows(s, j, acked) && s.pc.Calling? && s.pc.next < |s.peers|
    ensures Follows(HandlerStep(s, layer, accepted), j, acked)
  {
    var p, back := s.peers[s.pc.next], s.(pc := Scan(s.pc.next + 1, s.pc.limit, !accepted));
    PutSubscribed(back, j, acked, s.pc.next, p.(subscribes := p.subscribes + multiset{s.pc.layer}), false);
    PutSubscribed(back, j, acked, s.pc.next, p, true);
  }

  lemma ScanSubscribed(s: State, j: nat, acked: set<Layer>, layer: Layer, accepted: bool)
    requires Follows(s, j, acked) && s.pc.Scan?
    ensures Follows(HandlerStep(s, layer, accepted), j, acked)
  {
    if s.pc.next < |s.peers| {
      RunClientSubscribed(s, j, acked, layer, accepted);
    }
  }

  lemma HandlerStepSubscribed(s: State, j: nat, acked: set<Layer>, layer: Layer, accepted: bool)
    requires Follows(s, j, acked)
    ensures Follows(HandlerStep(s, layer, accepted), j, acked)
  {
    if s.pc.Scan? {
      ScanSubscribed(s, j, acked, layer, accepted);
    } else if s.pc.Calling? && s.pc.next < |s.peers| {
      CallSubscribed(s, j, acked, layer, accepted);
    }
  }

  lemma PeerStepSubscribed(s: State, j: nat, acked: set<Layer>, i: nat, event: Event)
    requires Follows(s, j, acked) && i < |s.peers|
    ensures Follows(PeerStep(s, i, event), j, AckedBy(acked, s, OnClient(i, event), j))
  {
    if i == j { PeerNextSubscribed(s, j, acked, event); }
  }

  lemma EarlyStepSubscribed(s: State, j: nat, acked: set<Layer>, k: nat, event: Event)
    requires Follows(s, j, acked) && k < |s.unlisted| && IsConnection(event)
    ensures Follows(EarlyStep(s, k, event), j, acked)
  {
    BareStaysBare(s.unlisted[k], event);
  }

  lemma ListedSubscribed(s: State, j: nat, acked: set<Layer>, k: nat)
    requires Follows(s, j, acked) && k < |s.unlisted|
    ensures Follows(Listed(s, k), j, acked)
  {
    var s' := Listed(s, k);
    ListedBare(s, k);
    if j == |s.peers| {
      assert s'.peers[j] == s.unlisted[k] && Bare(s.unlisted[k]);
    }
  }

  lemma NextSubscribed(s: State, j: nat, acked: set<Layer>, a: Action, semLimit: nat)
    requires Follows(s, j, acked)
    ensures Follows(Next(s, a, semLimit), j, AckedBy(acked, s, a, j))
  {
    match a
    case Handler(layer, accepted) => HandlerStepSubscribed(s, j, acked, layer, accepted);
    case OnClient(i, event) => if i < |s.peers| { PeerStepSubscribed(s, j, acked, i, event); }
    case OnUnlisted(k, event) =>
      if k < |s.unlisted| && IsConnection(event) { EarlyStepSubscribed(s, j, acked, k, event); }
    case ListClient(k) => if k < |s.unlisted| { ListedSubscribed(s, j, acked, k); }
    case _ =>
  }

  lemma {:induction false} RunSubscribed(s: State, j: nat, acked: set<Layer>, acts: seq<Action>, semLimit: nat)
    requires Follows(s, j, acked)
    ensures Follows(Run(s, acts, semLimit), j, AckedIn(acked, s, acts, semLimit, j))
    decreases |acts|
  {
    if acts != [] {
      NextSubscribed(s, j, acked, acts[0], semLimit);
      RunSubscribed(Next(s, acts[0], semLimit), j, AckedBy(acked, s, acts[0], j), acts[1..], semLimit);
    }
  }

  // From its i-th action on, a run neither registers the layer with the j-th client nor loses its connection.
  predicate LeavesAcked(acts: seq<Action>, i: nat, j: nat, l: Layer) {
    forall k | i <= k < |acts| && acts[k].OnClient? && acts[k].i == j ::
      acts[k].event != AddLayer(l) && !acts[k].event.ConnectionLost?
  }

  // The i-th action of the run acknowledges a call for the layer.
  ghost predicate AcknowledgedAt(s: State, acts: seq<Action>, semLimit: nat, j: nat, l: Layer, i: nat) {
    && i < |acts| && acts[i] == OnClient(j, SubscribeSucceed(l))
    && j < |Run(s, acts[..i], semLimit).peers| && Answerable(Run(s, acts[..i], semLimit).peers[j], l)
  }

  ghost predicate Acknowledged(s: State, acts: seq<Action>, semLimit: nat, j: nat, l: Layer) {
    exists i: nat :: AcknowledgedAt(s, acts, semLimit, j, l, i) && LeavesAcked(acts, i + 1, j, l)
  }

  lemma AcknowledgedNext(s: State, acts: seq<Action>, semLimit: nat, j: nat, l: Layer)
    requires acts != [] && Acknowledged(Next(s, acts[0], semLimit), acts[1..], semLimit, j, l)
    ensures Acknowledged(s, acts, semLimit, j, l)
  {
    var rest := acts[1..];
    var i: nat :| AcknowledgedAt(Next(s, acts[0], semLimit), rest, semLimit, j, l, i) && LeavesAcked(rest, i + 1, j, l);
    assert acts[..i + 1][1..] == rest[..i] && acts[i + 1] == rest[i];
    assert AcknowledgedAt(s, acts, semLimit, j, l, i + 1);
    forall k | i + 2 <= k < |acts| ensures acts[k] == rest[k - 1] {}
  }

  lemma AckedFirst(acked: set<Layer>, s: State, acts: seq<Action>, semLimit: nat, j: nat, l: Layer)
    requires acts != [] && l in AckedBy(acked, s, acts[0], j) && LeavesAcked(acts[1..], 0, j, l)
    ensures Acknowledged(s, acts, semLimit, j, l) || (l in acked && LeavesAcked(acts, 0, j, l))
  {
    var a, rest := acts[0], acts[1..];
    forall k | 1 <= k < |acts| ensures acts[k] == rest[k - 1] {}
    assert LeavesAcked(acts, 1, j, l);
    if a == OnClient(j, SubscribeSucceed(l)) && l !in acked {
      assert acts[..0] == [] && Run(s, [], semLimit) == s;
      assert AcknowledgedAt(s, acts, semLimit, j, l, 0);
    } else {
      assert a.OnClient? && a.i == j ==> a.event != AddLayer(l) && !a.event.ConnectionLost?;
    }
  }

  lemma {:induction false} AckedIsAcknowledged(
      acked: set<Layer>, s: State, acts: seq<Action>, semLimit: nat, j: nat, l: Layer)
    requires l in AckedIn(acked, s, acts, semLimit, j)
    ensures Acknowledged(s, acts, semLimit, j, l) || (l in acked && LeavesAcked(acts, 0, j, l))
    decreases |acts|
  {
    if acts != [] {
      var a, rest, now := acts[0], acts[1..], AckedBy(acked, s, acts[0], j);
      AckedIsAcknowledged(now, Next(s, a, semLimit), rest, semLimit, j, l);
      if Acknowledged(Next(s, a, semLimit), rest, semLimit, j, l) {
        AcknowledgedNext(s, acts, semLimit, j, l);
      } else {
        AckedFirst(acked, s, acts, semLimit, j, l);
      }
    }
  }

  // In every interleaving, a listed client that says all is subscribed has nothing pending, and each of its
  // registered subscribers had a call acknowledged after it was last registered and after the connection was last
  // lost.
  lemma AllSubscribedIsTrue(acts: seq<Action>, semLimit: nat, j: nat)
    ensures var s := Run(INITIAL, acts, semLimit);
            j < |s.peers| && s.peers[j].client.state.AllSubscribed? ==>
              && s.peers[j].client.pending == multiset{}
              && forall l | l in s.peers[j].client.layers && l.subscriber :: Acknowledged(INITIAL, acts, semLimit, j, l)
  {
    var s := Run(INITIAL, acts, semLimit);
    RunSubscribed(INITIAL, j, {}, acts, semLimit);
    if j < |s.peers| && s.peers[j].client.state.AllSubscribed? {
      forall l | l in s.peers[j].client.layers && l.subscriber ensures Acknowledged(INITIAL, acts, semLimit, j, l) {
        AckedIsAcknowledged({}, INITIAL, acts, semLimit, j, l);
      }
    }
  }

  // The handler has the subscribe call for the layer accepted.
  predicate Calls(s: State, a: Action, j: nat, l: Layer) {
    a.Handler? && a.accepted && s.pc.Calling? && s.pc.next == j && s.pc.layer == l
  }

  ghost predicate CallsIn(s: State, acts: seq<Action>, semLimit: nat, j: nat, l: Layer)
    decreases |acts|
  {
    acts != [] && (Calls(s, acts[0], j, l) || CallsIn(Next(s, acts[0], semLimit), acts[1..], semLimit, j, l))
  }

  ghost predicate Outstanding(s: State, j: nat, l: Layer) {
    j < |s.peers| && l in s.peers[j].subscribes
  }

  lemma VisitCallsNobody(s: State, layer: Layer, accepted: bool, j: nat, l: Layer)
    requires s.pc.Scan? && s.pc.next < |s.peers|
    ensures Outstanding(RunClient(s, s.peers[s.pc.next], layer, accepted), j, l) <==> Outstanding(s, j, l)
  {
    assert Visited(s.peers[s.pc.next], accepted).subscribes == s.peers[s.pc.next].subscribes;
  }

  lemma HandlerStepCalls(s: State, layer: Layer, accepted: bool, j: nat, l: Layer)
    ensures Outstanding(HandlerStep(s, layer, accepted), j, l) ==>
              Outstanding(s, j, l) || Calls(s, Handler(layer, accepted), j, l)
  {
    if s.pc.Scan? && s.pc.next < |s.peers| {
      VisitCallsNobody(s, layer, accepted, j, l);
    }
  }

  lemma HandlerKeepsUnlisted(s: State, layer: Layer, accepted: bool)
    ensures HandlerStep(s, layer, accepted).unlisted == s.unlisted
  {
  }

  lemma NextBare(s: State, a: Action, semLimit: nat)
    requires UnlistedBare(s)
    ensures UnlistedBare(Next(s, a, semLimit))
  {
    match a
    case Handler(layer, accepted) => HandlerKeepsUnlisted(s, layer, accepted);
    case OnUnlisted(k, event) => if k < |s.unlisted| && IsConnection(event) { BareStaysBare(s.unlisted[k], event); }
    case ListClient(k) => if k < |s.unlisted| { ListedBare(s, k); }
    case _ =>
  }

  lemma PeerNextCalls(p: Peer, event: Event, l: Layer)
    ensures l in PeerNext(p, event).0.subscribes ==> l in p.subscribes
  {
  }

  lemma NextCalls(s: State, a: Action, semLimit: nat, j: nat, l: Layer)
    requires UnlistedBare(s)
    ensures Outstanding(Next(s, a, semLimit), j, l) ==> Outstanding(s, j, l) || Calls(s, a, j, l)
  {
    match a
    case Handler(layer, accepted) => HandlerStepCalls(s, layer, accepted, j, l);
    case OnClient(i, event) => if i < |s.peers| { PeerNextCalls(s.peers[i], event, l); }
    case ListClient(k) => if k < |s.unlisted| { assert Bare(s.unlisted[k]); }
    case _ =>
  }

  // A call whose answer is outstanding was made by the handler, for that client and that layer.
  lemma {:induction false} OutstandingWasCalled(s: State, acts: seq<Action>, semLimit: nat, j: nat, l: Layer)
    requires UnlistedBare(s) && Outstanding(Run(s, acts, semLimit), j, l)
    ensures Outstanding(s, j, l) || CallsIn(s, acts, semLimit, j, l)
    decreases |acts|
  {
    if acts != [] {
      NextBare(s, acts[0], semLimit);
      NextCalls(s, acts[0], semLimit, j, l);
      OutstandingWasCalled(Next(s, acts[0], semLimit), acts[1..], semLimit, j, l);
    }
  }

  // The handler chooses a pending layer of a client that subscribes.
  lemma ChosenIsPending(s: State, layer: Layer, accepted: bool)
    requires s.pc.Scan? && HandlerStep(s, layer, accepted).pc.Calling?
    ensures var j := s.pc.next;
            && j < |s.peers| && s.peers[j].client.state.Subscribing? && layer in s.peers[j].client.pending
            && HandlerStep(s, layer, accepted).pc == Calling(j, s.pc.limit, layer)
  {
  }

  // ---------------------------------------------------------------- the state and the connection

  // The client claims a connection only while it has one.
  predicate Truthful(p: Peer) {
    p.client.state.Subscribing? || p.client.state.AllSubscribed? ==> p.online
  }

  // A late acknowledgement that leaves nothing pending while the connection is down.
  predicate StaleAck(p: Peer, event: Event) {
    event.SubscribeSucceed? && !p.online && Answerable(p, event.l) && Without(p.client.pending, event.l) == multiset{}
  }

  lemma TruthfulUnlessStale(p: Peer, event: Event)
    requires Truthful(p)
    ensures Truthful(PeerNext(p, event).0) <==> !StaleAck(p, event)
  {
  }

  ghost predicate AllTruthful(s: State) {
    && (forall j: nat | j < |s.peers| :: Truthful(s.peers[j]))
    && (forall k: nat | k < |s.unlisted| :: Truthful(s.unlisted[k]))
  }

  predicate Stale(s: State, a: Action) {
    a.OnClient? && a.i < |s.peers| && StaleAck(s.peers[a.i], a.event)
  }

  lemma VisitTruthful(s: State, layer: Layer, accepted: bool)
    requires AllTruthful(s) && s.pc.Scan? && s.pc.next < |s.peers|
    ensures AllTruthful(RunClient(s, s.peers[s.pc.next], layer, accepted))
  {
    assert Truthful(s.peers[s.pc.next]);
    assert Truthful(Visited(s.peers[s.pc.next], accepted));
  }

  lemma CallTruthful(s: State, layer: Layer, accepted: bool)
    requires AllTruthful(s) && s.pc.Calling? && s.pc.next < |s.peers|
    ensures AllTruthful(HandlerStep(s, layer, accepted))
  {
    var p := s.peers[s.pc.next];
    assert Truthful(p) && Truthful(p.(subscribes := p.subscribes + multiset{s.pc.layer}));
  }

  lemma HandlerStepTruthful(s: State, layer: Layer, accepted: bool)
    requires AllTruthful(s)
    ensures AllTruthful(HandlerStep(s, layer, accepted))
  {
    match s.pc
    case Scan(next, _, _) => if next < |s.peers| { VisitTruthful(s, layer, accepted); }
    case Calling(next, _, _) => if next < |s.peers| { CallTruthful(s, layer, accepted); }
    case _ =>
  }

  lemma PeerStepTruthful(s: State, i: nat, event: Event)
    requires AllTruthful(s) && i < |s.peers|
    ensures AllTruthful(PeerStep(s, i, event)) <==> !StaleAck(s.peers[i], event)
  {
    TruthfulUnlessStale(s.peers[i], event);
    assert PeerStep(s, i, event).peers[i] == PeerNext(s.peers[i], event).0;
  }

  // A step keeps every client's claim true exactly unless it delivers such an acknowledgement.
  lemma NextTruthfulExactly(s: State, a: Action, semLimit: nat)
    requires AllTruthful(s)
    ensures AllTruthful(Next(s, a, semLimit)) <==> !Stale(s, a)
  {
    match a
    case Handler(layer, accepted) => HandlerStepTruthful(s, layer, accepted);
    case OnClient(i, event) => if i < |s.peers| { PeerStepTruthful(s, i, event); }
    case OnUnlisted(k, event) => if k < |s.unlisted| { TruthfulUnlessStale(s.unlisted[k], event); }
    case _ =>
  }

  ghost predicate NeverStale(s: State, acts: seq<Action>, semLimit: nat)
    decreases |acts|
  {
    acts != [] ==> !Stale(s, acts[0]) && NeverStale(Next(s, acts[0], semLimit), acts[1..], semLimit)
  }

  lemma {:induction false} RunTruthful(s: State, acts: seq<Action>, semLimit: nat)
    requires AllTruthful(s) && NeverStale(s, acts, semLimit)
    ensures AllTruthful(Run(s, acts, semLimit))
    decreases |acts|
  {
    if acts != [] {
      NextTruthfulExactly(s, acts[0], semLimit);
      RunTruthful(Next(s, acts[0], semLimit), acts[1..], semLimit);
    }
  }

  // ---------------------------------------------------------------- answers and the layers they are for

  ghost predicate CallsRegistered(p: Peer) {
    forall l :: !Orphaned(p, l)
  }

  // Every unanswered call is for a registered layer, so that no callback follows a null pointer.
  ghost predicate NoneOrphaned(s: State) {
    && (forall j: nat | j < |s.peers| :: CallsRegistered(s.peers[j]))
    && (forall k: nat | k < |s.unlisted| :: s.unlisted[k].subscribes == multiset{})
  }

  // A layer is removed while a call for it is unanswered, or a call is made for a removed layer.
  predicate Orphans(s: State, a: Action) {
    match a
    case OnClient(i, RemoveLayer(l)) => i < |s.peers| && l in s.peers[i].subscribes
    case Handler(_, accepted) =>
      s.pc.Calling? && s.pc.next < |s.peers| && accepted && s.pc.layer !in s.peers[s.pc.next].client.layers
    case _ => false
  }

  lemma OrphanedBefore(p: Peer, event: Event, l: Layer)
    ensures Orphaned(PeerNext(p, event).0, l) ==> Orphaned(p, l) || (event == RemoveLayer(l) && l in p.subscribes)
  {
  }

  lemma PeerNextOrphans(p: Peer, event: Event)
    requires CallsRegistered(p)
    ensures CallsRegistered(PeerNext(p, event).0) <==> !(event.RemoveLayer? && event.l in p.subscribes)
  {
    var p' := PeerNext(p, event).0;
    if event.RemoveLayer? && event.l in p.subscribes {
      assert Orphaned(p', event.l);
    } else {
      forall l ensures !Orphaned(p', l) {
        OrphanedBefore(p, event, l);
      }
    }
  }

  lemma CallOrphans(s: State, layer: Layer, accepted: bool)
    requires NoneOrphaned(s) && s.pc.Calling? && s.pc.next < |s.peers|
    ensures NoneOrphaned(HandlerStep(s, layer, accepted)) <==> !Orphans(s, Handler(layer, accepted))
  {
    var p, p' := s.peers[s.pc.next], HandlerStep(s, layer, accepted).peers[s.pc.next];
    assert CallsRegistered(p);
    if Orphans(s, Handler(layer, accepted)) {
      assert Orphaned(p', s.pc.layer);
    } else {
      forall l ensures !Orphaned(p', l) {
        assert !Orphaned(p, l);
      }
    }
  }

  lemma VisitOrphansNone(s: State, layer: Layer, accepted: bool)
    requires NoneOrphaned(s) && s.pc.Scan? && s.pc.next < |s.peers|
    ensures NoneOrphaned(RunClient(s, s.peers[s.pc.next], layer, accepted))
  {
    var p := s.peers[s.pc.next];
    assert CallsRegistered(p);
    forall l ensures !Orphaned(Visited(p, accepted), l) {
      assert !Orphaned(p, l);
    }
  }

  lemma HandlerStepOrphans(s: State, layer: Layer, accepted: bool)
    requires NoneOrphaned(s)
    ensures NoneOrphaned(HandlerStep(s, layer, accepted)) <==> !Orphans(s, Handler(layer, accepted))
  {
    match s.pc
    case Scan(next, _, _) => if next < |s.peers| { VisitOrphansNone(s, layer, accepted); }
    case Calling(next, _, _) => if next < |s.peers| { CallOrphans(s, layer, accepted); }
    case _ =>
  }

  // A step keeps every answer able to reach its client exactly unless it orphans one.
  lemma NextOrphansExactly(s: State, a: Action, semLimit: nat)
    requires NoneOrphaned(s)
    ensures NoneOrphaned(Next(s, a, semLimit)) <==> !Orphans(s, a)
  {
    var s' := Next(s, a, semLimit);
    match a
    case Handler(layer, accepted) => HandlerStepOrphans(s, layer, accepted);
    case OnClient(i, event) =>
      if i < |s.peers| {
        PeerNextOrphans(s.peers[i], event);
        assert s'.peers[i] == PeerNext(s.peers[i], event).0;
      }
    case _ =>
  }

  ghost predicate NeverOrphans(s: State, acts: seq<Action>, semLimit: nat)
    decreases |acts|
  {
    acts != [] ==> !Orphans(s, acts[0]) && NeverOrphans(Next(s, acts[0], semLimit), acts[1..], semLimit)
  }

  // In every interleaving in which nobody does, every answer of the library reaches its client.
  lemma {:induction false} RunNeverOrphans(s: State, acts: seq<Action>, semLimit: nat)
    requires NoneOrphaned(s) && NeverOrphans(s, acts, semLimit)
    ensures NoneOrphaned(Run(s, acts, semLimit))
    decreases |acts|
  {
    if acts != [] {
      NextOrphansExactly(s, acts[0], semLimit);
      RunNeverOrphans(Next(s, acts[0], semLimit), acts[1..], semLimit);
    }
  }

  // ---------------------------------------------------------------- runs the code allows

  ghost predicate Reachable(s: State, semLimit: nat) {
    exists acts :: Run(INITIAL, acts, semLimit) == s
  }

  lemma {:induction false} RunSnoc(s: State, acts: seq<Action>, a: Action, semLimit: nat)
    ensures Run(s, acts + [a], semLimit) == Next(Run(s, acts, semLimit), a, semLimit)
    decreases |acts|
  {
    if acts == [] {
      assert acts + [a] == [a];
      assert Run(s, [a], semLimit) == Run(Next(s, a, semLimit), [a][1..], semLimit);
    } else {
      assert (acts + [a])[1..] == acts[1..] + [a];
      RunSnoc(Next(s, acts[0], semLimit), acts[1..], a, semLimit);
    }
  }

  lemma Step(s: State, a: Action, semLimit: nat) returns (s': State)
    requires Reachable(s, semLimit)
    ensures s' == Next(s, a, semLimit) && Reachable(s', semLimit)
  {
    s' := Next(s, a, semLimit);
    var acts :| Run(INITIAL, acts, semLimit) == s;
    RunSnoc(INITIAL, acts, a, semLimit);
  }

  // One caller gets its resume request through to a sleeping or scanning handler.
  lemma Resumes(s: State, semLimit: nat) returns (s': State)
    requires Reachable(s, semLimit) && semLimit > 0
    requires s.testing == 1 && s.passed == 0 && !s.inRegion && s.flagEmpty && s.sem == 0
    ensures Reachable(s', semLimit)
    ensures s' == s.(testing := 0, sem := 1, flagEmpty := false, owed := true)
  {
    s' := Step(s, TestFlag, semLimit);
    s' := Step(s', LockAndIncrement, semLimit);
    s' := Step(s', ClearFlagAndUnlock, semLimit);
  }

  // The handler takes the request and begins its scan.
  lemma BeginsScan(s: State, semLimit: nat) returns (s': State)
    requires Reachable(s, semLimit) && s.sem == 1 && !InFlight(s.(sem := 0)) && s.alive && (s.pc.Top? || s.pc.Waiting?)
    ensures Reachable(s', semLimit)
    ensures s' == s.(sem := 0, flagEmpty := true, owed := false, pc := Scan(0, |s.peers|, false))
  {
    var go := Handler(Layer(0, true), true);
    s' := s;
    if s.pc.Top? {
      s' := Step(s', go, semLimit);
    }
    s' := Step(s', go, semLimit);
    s' := Step(s', go, semLimit);
    s' := Step(s', go, semLimit);
  }

  // With every client visited the handler goes back to sleep.
  lemma Sleeps(s: State, semLimit: nat) returns (s': State)
    requires Reachable(s, semLimit) && s.pc.Scan? && s.pc.next >= s.pc.limit && s.alive
    ensures Reachable(s', semLimit) && s' == s.(pc := Waiting)
  {
    var go := Handler(Layer(0, true), true);
    s' := Step(s, go, semLimit);
    s' := Step(s', go, semLimit);
  }

  // A state at rest: the handler sleeps, nobody is about to wake it, and there is one client.
  predicate Resting(s: State) {
    s.pc.Waiting? && !Wake(s) && s.alive && s.flagEmpty && |s.peers| == 1
  }

  // If the library refuses the connect call after a failed attempt, the handler goes back to sleep with nobody about to
  // wake it, and the client is left unconnected.
  lemma RefusedConnectSleeps(semLimit: nat) returns (s: State)
    requires semLimit > 0
    ensures Reachable(s, semLimit) && Resting(s)
    ensures s.peers[0].client.state.NotConnected? && s.peers[0].connects == 0 && !Settled(s.peers[0])
  {
    assert Run(INITIAL, [], semLimit) == INITIAL;
    s := Step(INITIAL, AskClient, semLimit);
    s := Step(s, ListClient(0), semLimit);
    s := Step(s, OnClient(0, ConnectFail), semLimit);
    s := Resumes(s, semLimit);
    s := BeginsScan(s, semLimit);
    s := Step(s, Handler(Layer(0, true), false), semLimit);
    s := Sleeps(s, semLimit);
  }

  // The connection comes up before the new client is listed, and the handler's scan finds no client.  Then a
  // subscriber is registered: it is pending, no call was made for it, and nobody will wake the handler.
  lemma ListedTooLate(semLimit: nat, l: Layer) returns (s: State)
    requires semLimit > 0 && l.subscriber
    ensures Reachable(s, semLimit) && Resting(s)
    ensures s.peers[0].online && s.peers[0].client == Client(Subscribing, multiset{l}, multiset{l})
    ensures s.peers[0].subscribes == multiset{} && !Settled(s.peers[0])
  {
    assert Run(INITIAL, [], semLimit) == INITIAL;
    s := Step(INITIAL, AskClient, semLimit);
    s := Step(s, OnUnlisted(0, ConnectSucceed), semLimit);
    s := Resumes(s, semLimit);
    s := BeginsScan(s, semLimit);
    s := Sleeps(s, semLimit);
    s := Step(s, ListClient(0), semLimit);
    s := Step(s, OnClient(0, AddLayer(l)), semLimit);
  }

  // A listed client with one layer that waits for its connection.
  lemma Registers(semLimit: nat, l: Layer) returns (s: State)
    requires l.subscriber
    ensures Reachable(s, semLimit)
    ensures s == INITIAL.(peers := [Peer(Client(ConnectionAsked, multiset{l}, multiset{l}), 1, multiset{}, false)])
  {
    assert Run(INITIAL, [], semLimit) == INITIAL;
    s := Step(INITIAL, AskClient, semLimit);
    s := Step(s, ListClient(0), semLimit);
    assert s == INITIAL.(peers := [ASKED]);
    s := Step(s, OnClient(0, AddLayer(l)), semLimit);
    assert Add(ASKED.client, l) == Client(ConnectionAsked, multiset{l}, multiset{l});
  }

  // A connected client with one layer, and the scan that will visit it.
  lemma Connects(semLimit: nat, l: Layer) returns (s: State)
    requires semLimit > 0 && l.subscriber
    ensures Reachable(s, semLimit) && s.pc == Scan(0, 1, false) && !Wake(s) && s.alive && s.flagEmpty
    ensures s.peers == [Peer(Client(Subscribing, multiset{l}, multiset{l}), 0, multiset{}, true)]
  {
    s := Registers(semLimit, l);
    s := Step(s, OnClient(0, ConnectSucceed), semLimit);
    s := Resumes(s, semLimit);
    s := BeginsScan(s, semLimit);
  }

  // A connected client with one layer, whose subscribe call was made and is unanswered.
  lemma Subscribes(semLimit: nat, l: Layer) returns (s: State)
    requires semLimit > 0 && l.subscriber
    ensures Reachable(s, semLimit) && Resting(s)
    ensures s.peers[0] == Peer(Client(Subscribing, multiset{l}, multiset{l}), 0, multiset{l}, true)
  {
    s := Connects(semLimit, l);
    assert Visitable(s.peers[0]) && l in s.peers[0].client.pending;
    s := Step(s, Handler(l, true), semLimit);
    s := Step(s, Handler(l, true), semLimit);
    s := Sleeps(s, semLimit);
  }

  // A second subscriber is registered while the first is unanswered, and then the first is removed: its answer
  // reaches nobody, so the second is never subscribed.
  lemma RemovedWhileUnanswered(semLimit: nat, l: Layer, m: Layer) returns (s: State)
    requires semLimit > 0 && l.subscriber && m.subscriber && l != m
    ensures Reachable(s, semLimit) && Resting(s)
    ensures s.peers[0].online && s.peers[0].client.state.Subscribing? && s.peers[0].client.layers == multiset{m}
    ensures m in s.peers[0].client.pending && m !in s.peers[0].subscribes
    ensures forall k :: !Answerable(s.peers[0], k)
    ensures Orphaned(s.peers[0], l)
  {
    s := Subscribes(semLimit, l);
    s := Step(s, OnClient(0, AddLayer(m)), semLimit);
    s := Step(s, OnClient(0, RemoveLayer(l)), semLimit);
    assert s.peers[0].client.layers == multiset{m};
  }

  // The layer is removed after the handler has chosen it and before it makes the call.
  lemma CalledAfterRemoval(semLimit: nat, l: Layer) returns (s: State)
    requires semLimit > 0 && l.subscriber
    ensures Reachable(s, semLimit) && Resting(s)
    ensures s.peers[0].online && s.peers[0].client == Client(Subscribing, multiset{}, multiset{l})
    ensures s.peers[0].subscribes == multiset{l} && Orphaned(s.peers[0], l) && !Settled(s.peers[0])
  {
    s := Connects(semLimit, l);
    assert Visitable(s.peers[0]) && l in s.peers[0].client.pending;
    s := Step(s, Handler(l, true), semLimit);
    s := Step(s, OnClient(0, RemoveLayer(l)), semLimit);
    assert s.peers[0].client.layers == multiset{};
    s := Step(s, Handler(l, true), semLimit);
    s := Sleeps(s, semLimit);
  }

  // An acknowledgement that arrives after the connection was lost makes a client without a
  // connection claim that all is subscribed.
  lemma StaleAckLies(semLimit: nat) returns (s: State)
    requires semLimit > 0
    ensures Reachable(s, semLimit) && |s.peers| == 1
    ensures s.peers[0].client.state.AllSubscribed? && !s.peers[0].online && s.peers[0].connects == 0
  {
    var l := Layer(0, true);
    s := Subscribes(semLimit, l);
    s := Step(s, OnClient(0, ConnectionLost(multiset{})), semLimit);
    assert SubscribersOf(multiset{l}) == multiset{l};
    assert s.peers[0].client == Client(NotConnected, multiset{l}, multiset{l});
    s := Step(s, OnClient(0, SubscribeSucceed(l)), semLimit);
  }
}
