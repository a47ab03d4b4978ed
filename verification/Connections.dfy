/** The connection graph of one resource: data inputs with plain, delegating and gathering
    connections (dataconn.cpp, gatherdataconn.cpp), in-out pins whose value pointer is pushed down a
    tree (inoutdataconn.cpp, funcbloc.cpp), and the reference counts both of them keep. */
module Connections {
  import opened Forest
  import opened Management
  import opened Options
  import opened Seqs

  type FbId = int
  type VarId = int
  type Member = seq<string>

  // ---------------------------------------------------------------- data inputs

  // A connection object is known by its source: the output port (or in-out port) of a block and, for
  // a delegating connection, the member of it that is read.
  datatype Source = Source(fb: FbId, inOut: bool, port: nat, via: Option<Member>)

  // What a data input's connection pointer leads to.  A gathering connection belongs to one pin and
  // lists the members of the pin's struct that have a source.
  datatype Input =
    | Unconnected
    | Direct(source: Source)
    | Gathering(members: seq<(Member, Source)>)

  predicate HasMember(ms: seq<(Member, Source)>, m: Member) {
    ms != [] && (ms[0].0 == m || HasMember(ms[1..], m))
  }

  predicate DistinctMembers(ms: seq<(Member, Source)>) {
    ms != [] ==> !HasMember(ms[1..], ms[0].0) && DistinctMembers(ms[1..])
  }

  predicate WellFormed(pin: Input) {
    pin.Gathering? ==> pin.members != [] && DistinctMembers(pin.members)
  }

  function Erase(ms: seq<(Member, Source)>, m: Member): seq<(Member, Source)> {
    if ms == [] then [] else if ms[0].0 == m then Erase(ms[1..], m) else [ms[0]] + Erase(ms[1..], m)
  }

  // connectDI for a plain connection: a delegating connection is a new object every time, so only a
  // connection without `via` can find itself already there.
  function PlainConnect(pin: Input, c: Source): (Input, Response) {
    match pin
    case Unconnected => (Direct(c), Ready)
    case Direct(d) => if d == c && c.via.None? then (pin, Ready) else (pin, InvalidState)
    case Gathering(_) => (pin, InvalidState)
  }

  // establishGatheringConnection and addMemberConnection
  function MemberConnect(pin: Input, m: Member, c: Source): (Input, Response) {
    match pin
    case Unconnected => (Gathering([(m, c)]), Ready)
    case Direct(_) => (pin, InvalidState)
    case Gathering(ms) => if HasMember(ms, m) then (pin, InvalidState) else (Gathering(ms + [(m, c)]), Ready)
  }

  // removeMemberConnection; an emptied gathering connection is deleted
  function MemberDisconnect(pin: Input, m: Member): (Input, Response) {
    if !pin.Gathering? || !HasMember(pin.members, m) then (pin, NoSuchObject)
    else
      var rest := Erase(pin.members, m);
      (if rest == [] then Unconnected else Gathering(rest), Ready)
  }

  // The sources of the members, as a partial map.
  ghost function Attached(pin: Input): map<Member, Source> {
    if pin.Gathering? then AsMap(pin.members) else map[]
  }

  ghost function AsMap(ms: seq<(Member, Source)>): map<Member, Source> {
    if ms == [] then map[] else AsMap(ms[1..])[ms[0].0 := ms[0].1]
  }

  lemma {:induction false} AppendMember(ms: seq<(Member, Source)>, m: Member, c: Source)
    requires !HasMember(ms, m) && DistinctMembers(ms)
    ensures AsMap(ms + [(m, c)]) == AsMap(ms)[m := c] && DistinctMembers(ms + [(m, c)])
    ensures Erase(ms + [(m, c)], m) == ms
    ensures forall n :: HasMember(ms + [(m, c)], n) <==> HasMember(ms, n) || n == m
  {
    if ms == [] {
      assert ms + [(m, c)] == [(m, c)];
      assert forall n :: HasMember([(m, c)], n) <==> n == m || HasMember([], n);
    } else {
      assert (ms + [(m, c)])[1..] == ms[1..] + [(m, c)];
      AppendMember(ms[1..], m, c);
    }
  }

  lemma {:induction false} InAsMap(ms: seq<(Member, Source)>, m: Member)
    ensures m in AsMap(ms) <==> HasMember(ms, m)
  {
    if ms != [] { InAsMap(ms[1..], m); }
  }

  lemma {:induction false} EraseMember(ms: seq<(Member, Source)>, m: Member)
    requires DistinctMembers(ms)
    ensures AsMap(Erase(ms, m)) == AsMap(ms) - {m} && DistinctMembers(Erase(ms, m))
    ensures forall n :: HasMember(Erase(ms, m), n) <==> HasMember(ms, n) && n != m
  {
    if ms != [] {
      EraseMember(ms[1..], m);
      var rest := Erase(ms[1..], m);
      if ms[0].0 == m {
        assert Erase(ms, m) == rest;
        assert AsMap(ms[1..]) - {m} == AsMap(ms) - {m};
      } else {
        assert Erase(ms, m)[1..] == rest;
      }
    }
  }

  // Both commands keep the pin well formed and act on the attached members as a partial map: a
  // member gets a source exactly if it has none and the pin carries no plain connection, and it
  // loses it exactly if it has one.
  lemma GatheringIsPartialMap(pin: Input, m: Member, c: Source)
    requires WellFormed(pin)
    ensures var (pin', r) := MemberConnect(pin, m, c);
            && WellFormed(pin')
            && (r == Ready <==> !pin.Direct? && m !in Attached(pin))
            && (r == Ready ==> Attached(pin') == Attached(pin)[m := c])
            && (r != Ready ==> pin' == pin)
    ensures var (pin', r) := MemberDisconnect(pin, m);
            && WellFormed(pin')
            && (r == Ready <==> m in Attached(pin))
            && Attached(pin') == Attached(pin) - {m}
            && (r != Ready ==> pin' == pin)
    ensures pin.Gathering? <==> Attached(pin) != map[]
  {
    if pin.Gathering? {
      var ms := pin.members;
      InAsMap(ms, m);
      InAsMap(ms, ms[0].0);
      EraseMember(ms, m);
      if !HasMember(ms, m) { AppendMember(ms, m, c); }
    } else {
      assert AsMap([(m, c)][1..]) == map[];
    }
    if pin.Gathering? {
      var ms := pin.members;
      assert !HasMember(ms, m) ==> AsMap(ms) - {m} == AsMap(ms);
    }
  }

  // Attaching a member and detaching it again gives back the very pin.
  lemma AttachDetachRestores(pin: Input, m: Member, c: Source)
    requires WellFormed(pin) && MemberConnect(pin, m, c).1 == Ready
    ensures MemberDisconnect(MemberConnect(pin, m, c).0, m) == (pin, Ready)
  {
    if pin.Gathering? {
      AppendMember(pin.members, m, c);
    } else {
      assert [(m, c)] == [] + [(m, c)];
      AppendMember([], m, c);
    }
  }

  // ---------------------------------------------------------------- in-out pins

  // A data input or an in-out pin of a function block.  The out connection of an in-out pin is
  // known by the same pair.
  datatype Point = Point(fb: FbId, port: nat)

  type Edges = map<Point, Point>
  type Values = map<Point, VarId>
  type Dests = map<Point, seq<Point>>

  // A forest with a witness that no pin is its own ancestor.
  datatype Tree = Tree(parent: Edges, rank: map<Point, nat>, bound: nat)

  ghost predicate IsTree(t: Tree) {
    Ranked(t.parent, t.rank, t.bound)
  }

  ghost predicate Under(t: Tree, top: Point, q: Point)
    requires IsTree(t)
  {
    Below(t.parent, t.rank, t.bound, top, q)
  }

  ghost function Height(t: Tree, p: Point): int {
    if p in t.rank then t.bound - t.rank[p] else 0
  }

  predicate Distinct<T(==)>(xs: seq<T>) {
    forall j, k :: 0 <= j < k < |xs| ==> xs[j] != xs[k]
  }

  // A pin is in the destination list of a connection, once, exactly if its input pointer is that
  // connection.
  ghost predicate Wired(parent: Edges, dests: Dests) {
    && (forall d :: d in parent ==> d in dests && parent[d] in dests)
    && (forall p, d :: p in dests ==> (d in dests[p] <==> d in parent && parent[d] == p))
    && (forall p :: p in dests ==> Distinct(dests[p]))
  }

  // Every connected out connection refers to the same variable as the one that feeds it.
  ghost predicate Aliased(parent: Edges, values: Values) {
    forall d :: d in parent ==> d in values && parent[d] in values && values[d] == values[parent[d]]
  }

  // The values once the out connections in the subtree of top are set to v ...
  ghost function Paint(t: Tree, top: Point, values: Values, v: VarId): Values
    requires IsTree(t)
  {
    map q | q in values :: if Under(t, top, q) then v else values[q]
  }

  // ... and when only me and the subtrees of the first n of ds are.
  ghost function PaintSome(t: Tree, me: Point, ds: seq<Point>, n: nat, values: Values, v: VarId): Values
    requires IsTree(t) && n <= |ds|
  {
    map q | q in values :: if q == me || BelowSome(t.parent, t.rank, t.bound, ds, n, q) then v else values[q]
  }

  lemma PaintNext(t: Tree, me: Point, ds: seq<Point>, n: nat, values: Values, v: VarId)
    requires IsTree(t) && n < |ds|
    ensures Paint(t, ds[n], PaintSome(t, me, ds, n, values, v), v) == PaintSome(t, me, ds, n + 1, values, v)
  {
  }

  lemma DestinationIsHigher(t: Tree, dests: Dests, p: Point, k: nat)
    requires IsTree(t) && Wired(t.parent, dests) && p in dests && k < |dests[p]|
    ensures var d := dests[p][k];
            d in dests && d in t.parent && t.parent[d] == p && 0 <= Height(t, d) < Height(t, p)
  {
    assert dests[p][k] in dests[p];
  }

  lemma PaintAll(t: Tree, me: Point, dests: Dests, values: Values, v: VarId)
    requires IsTree(t) && Wired(t.parent, dests) && me in dests
    ensures PaintSome(t, me, dests[me], |dests[me]|, values, v) == Paint(t, me, values, v)
  {
    forall q | q in values
      ensures Under(t, me, q) <==> q == me || BelowSome(t.parent, t.rank, t.bound, dests[me], |dests[me]|, q)
    {
      BelowByChildren(t.parent, t.rank, t.bound, me, dests[me], q);
    }
  }

  // Pushing src's value down from the free pin d, wherever src is, keeps the old edges aliased and
  // aliases the new one.
  lemma AliasedAfterConnect(t: Tree, values: Values, src: Point, d: Point)
    requires IsTree(t) && Aliased(t.parent, values) && d !in t.parent && d in values && src in values
    ensures Aliased(t.parent[d := src], Paint(t, d, values, values[src]))
  {
  }

  // Setting the value of an out connection re-points its whole subtree; all edges stay aliased
  // exactly if its own pin is free or already refers to that variable.
  lemma SetValueKeepsAliasing(t: Tree, values: Values, top: Point, v: VarId)
    requires IsTree(t) && Aliased(t.parent, values) && top in values
    ensures Aliased(t.parent, Paint(t, top, values, v)) <==> top !in t.parent || values[top] == v
  {
    if top in t.parent {
      var p := t.parent[top];
      if Under(t, top, p) { BelowGrows(t.parent, t.rank, t.bound, top, p); }
      assert Paint(t, top, values, v)[p] == values[top];
    }
  }

  // ---------------------------------------------------------------- live links

  // Where a live link ends; the table of live links leads from there to the source block.
  datatype Slot =
    | PlainSlot(pin: Point)
    | MemberSlot(pin: Point, member: Member)
    | InOutSlot(pin: Point)

  type Table = map<Slot, FbId>

  // A block must outlive the links it is the source of and the in-out links that end at it.
  ghost function Sourced(t: Table, f: FbId): set<Slot> {
    set l | l in t && t[l] == f
  }

  ghost function Entered(t: Table, f: FbId): set<Slot> {
    set l | l in t && l.InOutSlot? && l.pin.fb == f
  }

  ghost function LiveCount(t: Table, f: FbId): nat {
    |Sourced(t, f)| + |Entered(t, f)|
  }

  function Ends(l: Slot, src: FbId, f: FbId): nat {
    (if src == f then 1 else 0) + (if l.InOutSlot? && l.pin.fb == f then 1 else 0)
  }

  lemma SourcedAdded(t: Table, l: Slot, src: FbId, f: FbId)
    requires l !in t
    ensures |Sourced(t[l := src], f)| == |Sourced(t, f)| + if src == f then 1 else 0
  {
    assert Sourced(t[l := src], f) == if src == f then Sourced(t, f) + {l} else Sourced(t, f);
  }

  lemma EnteredAdded(t: Table, l: Slot, src: FbId, f: FbId)
    requires l !in t
    ensures |Entered(t[l := src], f)| == |Entered(t, f)| + if l.InOutSlot? && l.pin.fb == f then 1 else 0
  {
    assert Entered(t[l := src], f) == if l.InOutSlot? && l.pin.fb == f then Entered(t, f) + {l} else Entered(t, f);
  }

  lemma CountAdded(t: Table, l: Slot, src: FbId, f: FbId)
    requires l !in t
    ensures LiveCount(t[l := src], f) == LiveCount(t, f) + Ends(l, src, f)
  {
    SourcedAdded(t, l, src, f);
    EnteredAdded(t, l, src, f);
  }

  lemma CountDropped(t: Table, l: Slot, f: FbId)
    requires l in t
    ensures LiveCount(t - {l}, f) == LiveCount(t, f) - Ends(l, t[l], f)
  {
    CountAdded(t - {l}, l, t[l], f);
    assert (t - {l})[l := t[l]] == t;
  }

  // The live links that end at one data input are those its connection pointer shows.
  ghost predicate PinTied(t: Table, p: Point, pin: Input) {
    && WellFormed(pin)
    && (PlainSlot(p) in t <==> pin.Direct?)
    && (pin.Direct? ==> t[PlainSlot(p)] == pin.source.fb)
    && (forall m :: MemberSlot(p, m) in t <==> m in Attached(pin))
    && (forall m :: m in Attached(pin) ==> t[MemberSlot(p, m)] == Attached(pin)[m].fb)
  }

  ghost predicate InputsTied(t: Table, inputs: map<Point, Input>) {
    && (forall p :: p in inputs ==> PinTied(t, p, inputs[p]))
    && (forall l :: l in t && !l.InOutSlot? ==> l.pin in inputs)
  }

  ghost predicate InOutsTied(t: Table, ins: Edges) {
    forall d :: (InOutSlot(d) in t <==> d in ins) && (d in ins ==> t[InOutSlot(d)] == ins[d].fb)
  }

  lemma PinTiedElsewhere(t: Table, t': Table, l: Slot, p: Point, pin: Input)
    requires PinTied(t, p, pin) && (l.InOutSlot? || l.pin != p)
    requires t' - {l} == t - {l}
    ensures PinTied(t', p, pin)
  {
    assert forall k: Slot :: k != l ==> (k in t' <==> k in t' - {l}) && (k in t <==> k in t - {l});
  }

  // One pointer write and the live link that appears or disappears with it.
  lemma InputWritten(t: Table, t': Table, inputs: map<Point, Input>, p: Point, pin: Input, l: Slot)
    requires InputsTied(t, inputs) && p in inputs && l.pin == p && !l.InOutSlot?
    requires PinTied(t', p, pin) && t' - {l} == t - {l}
    ensures InputsTied(t', inputs[p := pin])
  {
    forall q | q in inputs && q != p ensures PinTied(t', q, inputs[q]) {
      PinTiedElsewhere(t, t', l, q, inputs[q]);
    }
    forall k | k in t' && !k.InOutSlot? ensures k.pin in inputs {
      if k != l { assert k in t' - {l}; }
    }
  }

  lemma InputsUntouched(t: Table, t': Table, inputs: map<Point, Input>, l: Slot)
    requires InputsTied(t, inputs) && l.InOutSlot? && t' - {l} == t - {l}
    ensures InputsTied(t', inputs)
  {
    forall q | q in inputs ensures PinTied(t', q, inputs[q]) {
      PinTiedElsewhere(t, t', l, q, inputs[q]);
    }
    forall k | k in t' && !k.InOutSlot? ensures k.pin in inputs {
      assert k in t' - {l};
    }
  }

  lemma InOutsUntouched(t: Table, t': Table, ins: Edges, l: Slot)
    requires InOutsTied(t, ins) && !l.InOutSlot? && t' - {l} == t - {l}
    ensures InOutsTied(t', ins)
  {
    forall d ensures InOutSlot(d) in t' <==> InOutSlot(d) in t {
      assert InOutSlot(d) in t' <==> InOutSlot(d) in t' - {l};
    }
    forall d | d in ins ensures t'[InOutSlot(d)] == t[InOutSlot(d)] {
      assert (t' - {l})[InOutSlot(d)] == t'[InOutSlot(d)];
    }
  }

  lemma PlainTied(t: Table, p: Point, pin: Input, c: Source)
    requires PinTied(t, p, pin)
    ensures PlainConnect(pin, c).1 == Ready ==>
              && PinTied(t[PlainSlot(p) := c.fb], p, PlainConnect(pin, c).0)
              && (PlainSlot(p) in t ==> t[PlainSlot(p) := c.fb] == t)
    ensures pin.Direct? ==> PinTied(t - {PlainSlot(p)}, p, Unconnected)
  {
  }

  lemma MemberTied(t: Table, p: Point, pin: Input, m: Member, c: Source)
    requires PinTied(t, p, pin)
    ensures MemberConnect(pin, m, c).1 == Ready ==>
              && MemberSlot(p, m) !in t
              && PinTied(t[MemberSlot(p, m) := c.fb], p, MemberConnect(pin, m, c).0)
    ensures MemberDisconnect(pin, m).1 == Ready ==>
              && MemberSlot(p, m) in t && t[MemberSlot(p, m)] == Attached(pin)[m].fb
              && PinTied(t - {MemberSlot(p, m)}, p, MemberDisconnect(pin, m).0)
  {
    GatheringIsPartialMap(pin, m, c);
  }

  // ---------------------------------------------------------------- the graph and its commands

  // inputs, ins, values, dests and counts are the pointers and counters of the source.  The table of
  // live links, the number of identical plain links created again and the rank are history.
  datatype Graph = Graph(
    inputs: map<Point, Input>,
    ins: Edges,
    values: Values,
    dests: Dests,
    counts: map<FbId, int>,
    table: Table,
    recreated: map<FbId, int>,
    rank: map<Point, nat>,
    bound: nat
  )
  {
    function Forest(): Tree { Tree(ins, rank, bound) }
  }

  ghost predicate CountsTied(t: Table, counts: map<FbId, int>, recreated: map<FbId, int>) {
    && counts.Keys == recreated.Keys
    && (forall l :: l in t ==> t[l] in counts && l.pin.fb in counts)
    && (forall f :: f in counts ==> counts[f] == LiveCount(t, f) + recreated[f] && recreated[f] >= 0)
  }

  // Everything but the absence of circles.
  ghost predicate Sound(g: Graph) {
    && Wired(g.ins, g.dests) && Aliased(g.ins, g.values)
    && g.dests.Keys == g.values.Keys == g.rank.Keys
    && InputsTied(g.table, g.inputs) && InOutsTied(g.table, g.ins)
    && CountsTied(g.table, g.counts, g.recreated)
    && (forall p :: p in g.inputs || p in g.dests ==> p.fb in g.counts)
  }

  ghost predicate Good(g: Graph) {
    Sound(g) && IsTree(g.Forest())
  }

  datatype Pin = DataPin(at: Point) | MemberPin(at: Point, member: Member) | InOutPin(at: Point)

  // isMember and compatible stand for the type checks: the pin's struct has that member, and
  // canBeConnected.
  datatype Command =
    | Create(src: Option<Source>, dst: Pin, isMember: bool, compatible: bool)
    | Delete(src: Option<Source>, dst: Pin)

  // Name lookup finds only existing blocks and ports.
  ghost predicate Known(g: Graph, src: Option<Source>) {
    src.Some? ==> src.value.fb in g.counts && (src.value.inOut ==> Point(src.value.fb, src.value.port) in g.dests)
  }

  function Bump(m: map<FbId, int>, f: FbId, k: int): map<FbId, int>
    requires f in m
  {
    m[f := m[f] + k]
  }

  ghost function CreateData(g: Graph, c: Source, p: Point): (Graph, Response)
    requires c.fb in g.counts && c.fb in g.recreated && p in g.inputs
  {
    var (pin, r) := PlainConnect(g.inputs[p], c);
    if r != Ready then (g, r)
    else
      (g.(inputs := g.inputs[p := pin],
          counts := Bump(g.counts, c.fb, 1),
          recreated := if PlainSlot(p) in g.table then Bump(g.recreated, c.fb, 1) else g.recreated,
          table := g.table[PlainSlot(p) := c.fb]), Ready)
  }

  ghost function CreateMember(g: Graph, c: Source, p: Point, m: Member): (Graph, Response)
    requires c.fb in g.counts && p in g.inputs
  {
    var (pin, r) := MemberConnect(g.inputs[p], m, c);
    if r != Ready then (g, r)
    else
      (g.(inputs := g.inputs[p := pin],
          counts := Bump(g.counts, c.fb, 1),
          table := g.table[MemberSlot(p, m) := c.fb]), Ready)
  }

  // The pointers that an in-out link changes
  datatype InOuts = InOuts(ins: Edges, values: Values, dests: Dests)

  ghost function Establish(t: Tree, values: Values, dests: Dests, src: Point, p: Point): (InOuts, Response)
    requires IsTree(t) && src in values && src in dests
  {
    if p in t.parent then (InOuts(t.parent, values, dests), InvalidState)
    else (InOuts(t.parent[p := src], Paint(t, p, values, values[src]), dests[src := dests[src] + [p]]), Ready)
  }

  ghost function CreateInOut(g: Graph, src: Point, p: Point): (Graph, Response)
    requires IsTree(g.Forest()) && src in g.dests && src in g.values && src.fb in g.counts && p.fb in g.counts
  {
    var (w, r) := Establish(g.Forest(), g.values, g.dests, src, p);
    if r != Ready then (g, r)
    else
      (g.(ins := w.ins, values := w.values, dests := w.dests,
          counts := Bump(Bump(g.counts, p.fb, 1), src.fb, 1),
          table := g.table[InOutSlot(p) := src.fb],
          rank := NextRank(g.Forest(), src, p),
          bound := 2 * g.bound + 1), Ready)
  }

  ghost function DeleteData(g: Graph, c: Source, p: Point): (Graph, Response)
    requires c.fb in g.counts && p in g.inputs
  {
    if !g.inputs[p].Direct? || Printed(g.inputs[p].source) != c then (g, NoSuchObject)
    else
      (g.(inputs := g.inputs[p := Unconnected],
          counts := Bump(g.counts, c.fb, -1),
          table := g.table - {PlainSlot(p)}), Ready)
  }

  ghost function DeleteMember(g: Graph, c: Source, p: Point, m: Member): (Graph, Response)
    requires c.fb in g.counts && p in g.inputs
  {
    if m !in Attached(g.inputs[p]) || Printed(Attached(g.inputs[p])[m]) != c then (g, NoSuchObject)
    else
      (g.(inputs := g.inputs[p := MemberDisconnect(g.inputs[p], m).0],
          counts := Bump(g.counts, c.fb, -1),
          table := g.table - {MemberSlot(p, m)}), Ready)
  }

  // The source that deleteConnection reads off a link.  A delegating connection prints its port among the data
  // outputs, even when it reads an in-out pin.
  function Printed(c: Source): Source {
    if c.via.Some? then c.(inOut := false) else c
  }

  // The value pointers below p keep referring to the variable they had.
  ghost function DeleteInOut(g: Graph, src: Point, p: Point): (Graph, Response)
    requires src in g.dests && src.fb in g.counts && p.fb in g.counts
  {
    if p !in g.ins || g.ins[p] != src then (g, NoSuchObject)
    else
      (g.(ins := g.ins - {p},
          dests := g.dests[src := Without(g.dests[src], p)],
          counts := Bump(Bump(g.counts, p.fb, -1), src.fb, -1),
          table := g.table - {InOutSlot(p)}), Ready)
  }

  function Without(ds: seq<Point>, p: Point): seq<Point> {
    if ds == [] then [] else if ds[0] == p then Without(ds[1..], p) else [ds[0]] + Without(ds[1..], p)
  }

  // ---------------------------------------------------------------- every command keeps the graph good

  lemma CountsCreated(t: Table, counts: map<FbId, int>, recreated: map<FbId, int>, l: Slot, src: FbId)
    requires CountsTied(t, counts, recreated) && src in counts && l.pin.fb in counts && !l.InOutSlot?
    requires l in t ==> t[l] == src
    ensures CountsTied(t[l := src], Bump(counts, src, 1), if l in t then Bump(recreated, src, 1) else recreated)
  {
    if l in t {
      assert t[l := src] == t;
    } else {
      forall f ensures LiveCount(t[l := src], f) == LiveCount(t, f) + Ends(l, src, f) {
        CountAdded(t, l, src, f);
      }
    }
  }

  lemma CountsDeleted(t: Table, counts: map<FbId, int>, recreated: map<FbId, int>, l: Slot)
    requires CountsTied(t, counts, recreated) && !l.InOutSlot? && l in t
    ensures CountsTied(t - {l}, Bump(counts, t[l], -1), recreated)
  {
    forall f ensures LiveCount(t - {l}, f) == LiveCount(t, f) - Ends(l, t[l], f) {
      CountDropped(t, l, f);
    }
  }

  lemma CountsLinked(t: Table, counts: map<FbId, int>, recreated: map<FbId, int>, p: Point, src: FbId)
    requires CountsTied(t, counts, recreated) && src in counts && p.fb in counts && InOutSlot(p) !in t
    ensures CountsTied(t[InOutSlot(p) := src], Bump(Bump(counts, p.fb, 1), src, 1), recreated)
  {
    forall f ensures LiveCount(t[InOutSlot(p) := src], f) == LiveCount(t, f) + Ends(InOutSlot(p), src, f) {
      CountAdded(t, InOutSlot(p), src, f);
    }
  }

  lemma CountsUnlinked(t: Table, counts: map<FbId, int>, recreated: map<FbId, int>, p: Point)
    requires CountsTied(t, counts, recreated) && InOutSlot(p) in t
    ensures var src := t[InOutSlot(p)];
            CountsTied(t - {InOutSlot(p)}, Bump(Bump(counts, p.fb, -1), src, -1), recreated)
  {
    forall f ensures LiveCount(t - {InOutSlot(p)}, f) == LiveCount(t, f) - Ends(InOutSlot(p), t[InOutSlot(p)], f) {
      CountDropped(t, InOutSlot(p), f);
    }
  }

  lemma {:induction false} InWithout(ds: seq<Point>, p: Point)
    requires Distinct(ds)
    ensures Distinct(Without(ds, p)) && forall q :: q in Without(ds, p) <==> q in ds && q != p
  {
    if ds != [] {
      assert Distinct(ds[1..]);
      InWithout(ds[1..], p);
      var r := Without(ds[1..], p);
      assert forall q :: q in ds <==> q == ds[0] || q in ds[1..];
      assert ds[0] !in ds[1..];
    }
  }

  lemma CreateDataTied(t: Table, inputs: map<Point, Input>, ins: Edges, p: Point, c: Source)
    requires InputsTied(t, inputs) && InOutsTied(t, ins) && p in inputs && PlainConnect(inputs[p], c).1 == Ready
    ensures var t' := t[PlainSlot(p) := c.fb];
            InputsTied(t', inputs[p := PlainConnect(inputs[p], c).0]) && InOutsTied(t', ins)
    ensures PlainSlot(p) in t ==> t[PlainSlot(p)] == c.fb
  {
    var t' := t[PlainSlot(p) := c.fb];
    PlainTied(t, p, inputs[p], c);
    InputWritten(t, t', inputs, p, PlainConnect(inputs[p], c).0, PlainSlot(p));
    InOutsUntouched(t, t', ins, PlainSlot(p));
  }

  lemma DeleteDataTied(t: Table, inputs: map<Point, Input>, ins: Edges, p: Point)
    requires InputsTied(t, inputs) && InOutsTied(t, ins) && p in inputs && inputs[p].Direct?
    ensures var t' := t - {PlainSlot(p)};
            InputsTied(t', inputs[p := Unconnected]) && InOutsTied(t', ins)
    ensures PlainSlot(p) in t && t[PlainSlot(p)] == inputs[p].source.fb
  {
    var t' := t - {PlainSlot(p)};
    PlainTied(t, p, inputs[p], inputs[p].source);
    InputWritten(t, t', inputs, p, Unconnected, PlainSlot(p));
    InOutsUntouched(t, t', ins, PlainSlot(p));
  }

  lemma CreateMemberTied(t: Table, inputs: map<Point, Input>, ins: Edges, p: Point, m: Member, c: Source)
    requires InputsTied(t, inputs) && InOutsTied(t, ins) && p in inputs && MemberConnect(inputs[p], m, c).1 == Ready
    ensures var t' := t[MemberSlot(p, m) := c.fb];
            InputsTied(t', inputs[p := MemberConnect(inputs[p], m, c).0]) && InOutsTied(t', ins)
    ensures MemberSlot(p, m) !in t
  {
    var t' := t[MemberSlot(p, m) := c.fb];
    MemberTied(t, p, inputs[p], m, c);
    InputWritten(t, t', inputs, p, MemberConnect(inputs[p], m, c).0, MemberSlot(p, m));
    InOutsUntouched(t, t', ins, MemberSlot(p, m));
  }

  lemma DeleteMemberTied(t: Table, inputs: map<Point, Input>, ins: Edges, p: Point, m: Member)
    requires InputsTied(t, inputs) && InOutsTied(t, ins) && p in inputs && m in Attached(inputs[p])
    ensures var t' := t - {MemberSlot(p, m)};
            InputsTied(t', inputs[p := MemberDisconnect(inputs[p], m).0]) && InOutsTied(t', ins)
    ensures MemberSlot(p, m) in t && t[MemberSlot(p, m)] == Attached(inputs[p])[m].fb
  {
    var t', c := t - {MemberSlot(p, m)}, Attached(inputs[p])[m];
    GatheringIsPartialMap(inputs[p], m, c);
    MemberTied(t, p, inputs[p], m, c);
    InputWritten(t, t', inputs, p, MemberDisconnect(inputs[p], m).0, MemberSlot(p, m));
    InOutsUntouched(t, t', ins, MemberSlot(p, m));
  }

  // A rejected command changes nothing, and no command adds or removes blocks or pins.
  ghost predicate Framed(g: Graph, g': Graph, r: Response) {
    && (r != Ready ==> g' == g)
    && g'.counts.Keys == g.counts.Keys && g'.dests.Keys == g.dests.Keys && g'.inputs.Keys == g.inputs.Keys
  }

  lemma DataFramed(g: Graph, c: Source, p: Point)
    requires c.fb in g.counts && c.fb in g.recreated && p in g.inputs
    ensures var (g', r) := CreateData(g, c, p); Framed(g, g', r)
    ensures var (g', r) := DeleteData(g, c, p); Framed(g, g', r)
  {
  }

  lemma MemberFramed(g: Graph, c: Source, p: Point, m: Member)
    requires c.fb in g.counts && p in g.inputs
    ensures var (g', r) := CreateMember(g, c, p, m); Framed(g, g', r)
  {
  }

  lemma MemberDeleteFramed(g: Graph, c: Source, p: Point, m: Member)
    requires c.fb in g.counts && p in g.inputs
    ensures var (g', r) := DeleteMember(g, c, p, m); Framed(g, g', r)
  {
  }

  lemma InOutFramed(g: Graph, src: Point, p: Point)
    requires IsTree(g.Forest()) && src in g.dests && src in g.values && src.fb in g.counts && p.fb in g.counts
    ensures var (g', r) := CreateInOut(g, src, p); Framed(g, g', r)
    ensures var (g', r) := DeleteInOut(g, src, p); Framed(g, g', r)
  {
  }

  lemma CreateDataKeeps(g: Graph, c: Source, p: Point)
    requires Good(g) && c.fb in g.counts && p in g.inputs
    ensures Good(CreateData(g, c, p).0)
  {
    if CreateData(g, c, p).1 == Ready {
      CreateDataTied(g.table, g.inputs, g.ins, p, c);
      CountsCreated(g.table, g.counts, g.recreated, PlainSlot(p), c.fb);
    }
  }

  lemma CreateMemberKeeps(g: Graph, c: Source, p: Point, m: Member)
    requires Good(g) && c.fb in g.counts && p in g.inputs
    ensures Good(CreateMember(g, c, p, m).0)
  {
    if CreateMember(g, c, p, m).1 == Ready {
      CreateMemberTied(g.table, g.inputs, g.ins, p, m, c);
      CountsCreated(g.table, g.counts, g.recreated, MemberSlot(p, m), c.fb);
    }
  }

  lemma DeleteDataKeeps(g: Graph, c: Source, p: Point)
    requires Good(g) && c.fb in g.counts && p in g.inputs
    ensures Good(DeleteData(g, c, p).0)
  {
    if DeleteData(g, c, p).1 == Ready {
      DeleteDataTied(g.table, g.inputs, g.ins, p);
      CountsDeleted(g.table, g.counts, g.recreated, PlainSlot(p));
    }
  }

  lemma DeleteMemberKeeps(g: Graph, c: Source, p: Point, m: Member)
    requires Good(g) && c.fb in g.counts && p in g.inputs
    ensures Good(DeleteMember(g, c, p, m).0)
  {
    if DeleteMember(g, c, p, m).1 == Ready {
      DeleteMemberTied(g.table, g.inputs, g.ins, p, m);
      CountsDeleted(g.table, g.counts, g.recreated, MemberSlot(p, m));
    }
  }

  lemma WiredAfterConnect(parent: Edges, dests: Dests, src: Point, p: Point)
    requires Wired(parent, dests) && p !in parent && p in dests && src in dests
    ensures Wired(parent[p := src], dests[src := dests[src] + [p]])
  {
  }

  lemma WiredAfterDelete(parent: Edges, dests: Dests, src: Point, p: Point)
    requires Wired(parent, dests) && p in parent && parent[p] == src
    ensures Wired(parent - {p}, dests[src := Without(dests[src], p)])
  {
    InWithout(dests[src], p);
  }

  lemma InOutWritten(t: Table, inputs: map<Point, Input>, ins: Edges, p: Point, src: Point)
    requires InOutsTied(t, ins) && InputsTied(t, inputs)
    ensures InOutsTied(t[InOutSlot(p) := src.fb], ins[p := src]) && InputsTied(t[InOutSlot(p) := src.fb], inputs)
    ensures InOutsTied(t - {InOutSlot(p)}, ins - {p}) && InputsTied(t - {InOutSlot(p)}, inputs)
  {
    InputsUntouched(t, t[InOutSlot(p) := src.fb], inputs, InOutSlot(p));
    InputsUntouched(t, t - {InOutSlot(p)}, inputs, InOutSlot(p));
  }

  lemma AliasedAfterDelete(parent: Edges, values: Values, p: Point)
    requires Aliased(parent, values)
    ensures Aliased(parent - {p}, values)
  {
  }

  ghost function NextRank(t: Tree, src: Point, p: Point): map<Point, nat>
    requires IsTree(t)
  {
    if Under(t, p, src) then t.rank else Shifted(t.parent, t.rank, t.bound, p)
  }

  lemma TreeAfterConnect(t: Tree, src: Point, p: Point)
    requires IsTree(t) && p !in t.parent && p in t.rank && src in t.rank
    ensures Acyclic(t.parent[p := src]) <==> !Under(t, p, src)
    ensures !Under(t, p, src) ==> IsTree(Tree(t.parent[p := src], NextRank(t, src, p), 2 * t.bound + 1))
    ensures NextRank(t, src, p).Keys == t.rank.Keys
  {
    AcyclicAfterConnect(t.parent, t.rank, t.bound, src, p);
    if !Under(t, p, src) { ShiftedRanks(t.parent, t.rank, t.bound, src, p); }
  }

  lemma CreateInOutSound(g: Graph, src: Point, p: Point)
    requires Good(g) && src in g.dests && p in g.dests && p !in g.ins
    ensures Sound(CreateInOut(g, src, p).0)
  {
    AliasedAfterConnect(g.Forest(), g.values, src, p);
    WiredAfterConnect(g.ins, g.dests, src, p);
    InOutWritten(g.table, g.inputs, g.ins, p, src);
    CountsLinked(g.table, g.counts, g.recreated, p, src.fb);
  }

  // An accepted in-out link keeps everything, and the forest free of circles exactly if its source
  // does not lie below its destination; the code does not check that.
  lemma CreateInOutKeeps(g: Graph, src: Point, p: Point)
    requires Good(g) && src in g.dests && p in g.dests
    ensures var (g', r) := CreateInOut(g, src, p);
            && Sound(g')
            && (r == Ready <==> p !in g.ins)
            && (r == Ready ==> (Acyclic(g'.ins) <==> !Climbs(g.ins, src, p)))
            && (r == Ready && !Climbs(g.ins, src, p) ==> IsTree(g'.Forest()))
  {
    if p !in g.ins {
      CreateInOutSound(g, src, p);
      TreeAfterConnect(g.Forest(), src, p);
      ClimbsIsBelow(g.ins, g.rank, g.bound, src, p);
    }
  }

  lemma UnlinkedForest(t: Tree, values: Values, dests: Dests, src: Point, p: Point)
    requires IsTree(t) && Aliased(t.parent, values) && Wired(t.parent, dests) && p in t.parent && t.parent[p] == src
    ensures IsTree(t.(parent := t.parent - {p})) && Aliased(t.parent - {p}, values)
    ensures Wired(t.parent - {p}, dests[src := Without(dests[src], p)])
  {
    RankedWithout(t.parent, t.rank, t.bound, p);
    AliasedAfterDelete(t.parent, values, p);
    WiredAfterDelete(t.parent, dests, src, p);
  }

  lemma DeleteInOutSound(g: Graph, src: Point, p: Point)
    requires Good(g) && src in g.dests && p in g.ins && g.ins[p] == src
    ensures Sound(DeleteInOut(g, src, p).0)
  {
    UnlinkedForest(g.Forest(), g.values, g.dests, src, p);
    InOutWritten(g.table, g.inputs, g.ins, p, src);
    CountsUnlinked(g.table, g.counts, g.recreated, p);
  }

  lemma DeleteInOutKeeps(g: Graph, src: Point, p: Point)
    requires Good(g) && src in g.dests && p in g.dests
    ensures Good(DeleteInOut(g, src, p).0)
  {
    if p in g.ins && g.ins[p] == src {
      DeleteInOutSound(g, src, p);
      RankedWithout(g.ins, g.rank, g.bound, p);
    }
  }

  // ---------------------------------------------------------------- management commands and runs

  predicate InOutSource(c: Source) {
    c.inOut && c.via.None?
  }

  function Out(c: Source): Point {
    Point(c.fb, c.port)
  }

  // What a command needs to be carried out at all.
  ghost predicate Shaped(g: Graph) {
    && IsTree(g.Forest())
    && g.dests.Keys == g.values.Keys && g.counts.Keys == g.recreated.Keys
    && (forall p :: p in g.dests ==> p.fb in g.counts)
  }

  ghost function Apply(g: Graph, cmd: Command): (Graph, Response)
    requires Shaped(g) && Known(g, cmd.src)
  {
    if cmd.src.None? then (g, NoSuchObject)
    else
      var c := cmd.src.value;
      match cmd
      case Create(_, DataPin(p), _, compatible) =>
        if p !in g.inputs then (g, NoSuchObject)
        else if !compatible then (g, InvalidOperation)
        else CreateData(g, c, p)
      case Create(_, MemberPin(p, m), isMember, compatible) =>
        if p !in g.inputs || !isMember then (g, NoSuchObject)
        else if !compatible then (g, InvalidOperation)
        else CreateMember(g, c, p, m)
      case Create(_, InOutPin(p), _, compatible) =>
        if !InOutSource(c) || p !in g.dests then (g, NoSuchObject)
        else if !compatible then (g, InvalidOperation)
        else CreateInOut(g, Out(c), p)
      case Delete(_, DataPin(p)) =>
        if p !in g.inputs then (g, NoSuchObject) else DeleteData(g, c, p)
      case Delete(_, MemberPin(p, m)) =>
        if p !in g.inputs then (g, NoSuchObject) else DeleteMember(g, c, p, m)
      case Delete(_, InOutPin(p)) =>
        if !InOutSource(c) || p !in g.dests then (g, NoSuchObject) else DeleteInOut(g, Out(c), p)
  }

  // The guard the code lacks.
  ghost predicate ClosesCircle(g: Graph, cmd: Command)
    requires Good(g)
  {
    && cmd.Create? && cmd.compatible && cmd.dst.InOutPin? && cmd.src.Some? && InOutSource(cmd.src.value)
    && cmd.dst.at in g.dests && cmd.dst.at !in g.ins && Climbs(g.ins, Out(cmd.src.value), cmd.dst.at)
  }

  lemma ApplyFramed(g: Graph, cmd: Command)
    requires Shaped(g) && Known(g, cmd.src)
    ensures Framed(g, Apply(g, cmd).0, Apply(g, cmd).1)
  {
    if cmd.src.Some? {
      var c, p := cmd.src.value, cmd.dst.at;
      match cmd.dst
      case DataPin(_) => if p in g.inputs { DataFramed(g, c, p); }
      case MemberPin(_, m) =>
        if p in g.inputs { MemberFramed(g, c, p, m); MemberDeleteFramed(g, c, p, m); }
      case InOutPin(_) => if InOutSource(c) && p in g.dests { InOutFramed(g, Out(c), p); }
    }
  }

  lemma CreateKeeps(g: Graph, cmd: Command)
    requires Good(g) && Known(g, cmd.src) && cmd.Create? && cmd.src.Some?
    ensures Sound(Apply(g, cmd).0) && (IsTree(Apply(g, cmd).0.Forest()) <==> !ClosesCircle(g, cmd))
  {
    var c, p := cmd.src.value, cmd.dst.at;
    match cmd.dst
    case DataPin(_) =>
      if p in g.inputs && cmd.compatible {
        assert Apply(g, cmd) == CreateData(g, c, p);
        CreateDataKeeps(g, c, p);
      }
    case MemberPin(_, m) =>
      if p in g.inputs && cmd.isMember && cmd.compatible {
        assert Apply(g, cmd) == CreateMember(g, c, p, m);
        CreateMemberKeeps(g, c, p, m);
      }
    case InOutPin(_) =>
      if InOutSource(c) && p in g.dests && cmd.compatible {
        assert Apply(g, cmd) == CreateInOut(g, Out(c), p);
        CreateInOutKeeps(g, Out(c), p);
      }
  }

  lemma DeleteKeeps(g: Graph, cmd: Command)
    requires Good(g) && Known(g, cmd.src) && cmd.Delete? && cmd.src.Some?
    ensures Good(Apply(g, cmd).0)
  {
    var c, p := cmd.src.value, cmd.dst.at;
    match cmd.dst
    case DataPin(_) =>
      if p in g.inputs {
        assert Apply(g, cmd) == DeleteData(g, c, p);
        DeleteDataKeeps(g, c, p);
      }
    case MemberPin(_, m) =>
      if p in g.inputs {
        assert Apply(g, cmd) == DeleteMember(g, c, p, m);
        DeleteMemberKeeps(g, c, p, m);
      }
    case InOutPin(_) =>
      if InOutSource(c) && p in g.dests {
        assert Apply(g, cmd) == DeleteInOut(g, Out(c), p);
        DeleteInOutKeeps(g, Out(c), p);
      }
  }

  // A live link can be deleted by the name it was created with exactly unless it reads a member of an in-out pin;
  // then it goes by the name of the data output with the same number.
  lemma LinkDeletable(g: Graph, p: Point)
    requires p in g.inputs && g.inputs[p].Direct? && g.inputs[p].source.fb in g.counts
    ensures var c := g.inputs[p].source;
            && (DeleteData(g, c, p).1 == Ready <==> !(c.inOut && c.via.Some?))
            && DeleteData(g, Printed(c), p).1 == Ready
  {
  }

  lemma MemberLinkDeletable(g: Graph, p: Point, m: Member)
    requires p in g.inputs && m in Attached(g.inputs[p]) && Attached(g.inputs[p])[m].fb in g.counts
    ensures var c := Attached(g.inputs[p])[m];
            && (DeleteMember(g, c, p, m).1 == Ready <==> !(c.inOut && c.via.Some?))
            && DeleteMember(g, Printed(c), p, m).1 == Ready
  {
  }

  // ---------------------------------------------------------------- what every command does

  // The source that the pointers of the graph give to the end of a link.
  ghost function LinkAt(g: Graph, l: Slot): Option<Source> {
    match l
    case PlainSlot(p) => if p in g.inputs && g.inputs[p].Direct? then Some(g.inputs[p].source) else None
    case MemberSlot(p, m) =>
      if p in g.inputs && m in Attached(g.inputs[p]) then Some(Attached(g.inputs[p])[m]) else None
    case InOutSlot(d) => if d in g.ins then Some(Source(g.ins[d].fb, true, g.ins[d].port, None)) else None
  }

  function SlotOf(pin: Pin): Slot {
    match pin
    case DataPin(p) => PlainSlot(p)
    case MemberPin(p, m) => MemberSlot(p, m)
    case InOutPin(p) => InOutSlot(p)
  }

  // Both ends of the link exist.
  ghost predicate Exists(g: Graph, cmd: Command, c: Source) {
    match cmd.dst
    case DataPin(p) => p in g.inputs
    case MemberPin(p, _) => p in g.inputs && (cmd.Create? ==> cmd.isMember)
    case InOutPin(p) => InOutSource(c) && p in g.dests
  }

  // The pin has no link that a new one would displace; a plain one may be created again.
  ghost predicate Free(g: Graph, dst: Pin, c: Source) {
    match dst
    case DataPin(p) =>
      || (LinkAt(g, PlainSlot(p)) == None && forall m :: LinkAt(g, MemberSlot(p, m)) == None)
      || (LinkAt(g, PlainSlot(p)) == Some(c) && c.via == None)
    case MemberPin(p, m) => LinkAt(g, PlainSlot(p)) == None && LinkAt(g, MemberSlot(p, m)) == None
    case InOutPin(p) => LinkAt(g, InOutSlot(p)) == None
  }

  ghost function Answer(g: Graph, cmd: Command): Response {
    if cmd.src.None? || !Exists(g, cmd, cmd.src.value) then NoSuchObject
    else
      var c, there := cmd.src.value, LinkAt(g, SlotOf(cmd.dst));
      match cmd
      case Create(_, dst, _, compatible) =>
        if !compatible then InvalidOperation else if Free(g, dst, c) then Ready else InvalidState
      case Delete(_, _) => if there.Some? && Printed(there.value) == c then Ready else NoSuchObject
  }

  lemma GatheredHasLink(g: Graph, p: Point)
    requires p in g.inputs && WellFormed(g.inputs[p])
    ensures g.inputs[p].Gathering? <==> exists m :: LinkAt(g, MemberSlot(p, m)) != None
  {
    if g.inputs[p].Gathering? {
      var m := g.inputs[p].members[0].0;
      InAsMap(g.inputs[p].members, m);
      assert LinkAt(g, MemberSlot(p, m)) != None;
    }
  }

  lemma DataLinks(g: Graph, c: Source, p: Point, l: Slot)
    requires c.fb in g.counts && c.fb in g.recreated && p in g.inputs && WellFormed(g.inputs[p])
    ensures var (g', r) := CreateData(g, c, p);
            && (r == if Free(g, DataPin(p), c) then Ready else InvalidState)
            && LinkAt(g', l) == if r == Ready && l == PlainSlot(p) then Some(c) else LinkAt(g, l)
  {
    GatheredHasLink(g, p);
  }

  lemma DataUnlinks(g: Graph, c: Source, p: Point, l: Slot)
    requires c.fb in g.counts && p in g.inputs
    ensures var (g', r) := DeleteData(g, c, p);
            var there := LinkAt(g, PlainSlot(p));
            && (r == if there.Some? && Printed(there.value) == c then Ready else NoSuchObject)
            && LinkAt(g', l) == if r == Ready && l == PlainSlot(p) then None else LinkAt(g, l)
  {
  }

  lemma MemberLinks(g: Graph, c: Source, p: Point, m: Member, l: Slot)
    requires c.fb in g.counts && p in g.inputs && WellFormed(g.inputs[p])
    ensures var (g', r) := CreateMember(g, c, p, m);
            && (r == if Free(g, MemberPin(p, m), c) then Ready else InvalidState)
            && LinkAt(g', l) == if r == Ready && l == MemberSlot(p, m) then Some(c) else LinkAt(g, l)
  {
    GatheringIsPartialMap(g.inputs[p], m, c);
  }

  lemma MemberUnlinks(g: Graph, c: Source, p: Point, m: Member, l: Slot)
    requires c.fb in g.counts && p in g.inputs && WellFormed(g.inputs[p])
    ensures var (g', r) := DeleteMember(g, c, p, m);
            var there := LinkAt(g, MemberSlot(p, m));
            && (r == if there.Some? && Printed(there.value) == c then Ready else NoSuchObject)
            && LinkAt(g', l) == if r == Ready && l == MemberSlot(p, m) then None else LinkAt(g, l)
  {
    GatheringIsPartialMap(g.inputs[p], m, c);
  }

  lemma InOutLinks(g: Graph, c: Source, p: Point, l: Slot)
    requires IsTree(g.Forest()) && InOutSource(c) && Out(c) in g.dests && Out(c) in g.values
    requires c.fb in g.counts && p.fb in g.counts
    ensures var (g', r) := CreateInOut(g, Out(c), p);
            && (r == if Free(g, InOutPin(p), c) then Ready else InvalidState)
            && LinkAt(g', l) == if r == Ready && l == InOutSlot(p) then Some(c) else LinkAt(g, l)
  {
  }

  lemma InOutUnlinks(g: Graph, c: Source, p: Point, l: Slot)
    requires InOutSource(c) && Out(c) in g.dests && c.fb in g.counts && p.fb in g.counts
    ensures var (g', r) := DeleteInOut(g, Out(c), p);
            var there := LinkAt(g, InOutSlot(p));
            && (r == if there.Some? && Printed(there.value) == c then Ready else NoSuchObject)
            && LinkAt(g', l) == if r == Ready && l == InOutSlot(p) then None else LinkAt(g, l)
  {
  }

  // What a good graph has where the command goes
  lemma GoodThere(g: Graph, cmd: Command)
    requires Good(g) && Known(g, cmd.src)
    ensures Shaped(g) && (cmd.dst.at in g.inputs ==> WellFormed(g.inputs[cmd.dst.at]))
  {
    if cmd.dst.at in g.inputs { assert PinTied(g.table, cmd.dst.at, g.inputs[cmd.dst.at]); }
  }

  lemma CreateLinks(g: Graph, cmd: Command, l: Slot)
    requires Shaped(g) && Known(g, cmd.src) && (cmd.dst.at in g.inputs ==> WellFormed(g.inputs[cmd.dst.at]))
    requires cmd.Create? && cmd.src.Some? && cmd.compatible && Exists(g, cmd, cmd.src.value)
    ensures var (g', r) := Apply(g, cmd);
            && (r == if Free(g, cmd.dst, cmd.src.value) then Ready else InvalidState)
            && LinkAt(g', l) == if r == Ready && l == SlotOf(cmd.dst) then cmd.src else LinkAt(g, l)
  {
    var c := cmd.src.value;
    match cmd.dst
    case DataPin(p) => DataLinks(g, c, p, l);
    case MemberPin(p, m) => MemberLinks(g, c, p, m, l);
    case InOutPin(p) => InOutLinks(g, c, p, l);
  }

  lemma DeleteUnlinks(g: Graph, cmd: Command, l: Slot)
    requires Shaped(g) && Known(g, cmd.src) && (cmd.dst.at in g.inputs ==> WellFormed(g.inputs[cmd.dst.at]))
    requires cmd.Delete? && cmd.src.Some? && Exists(g, cmd, cmd.src.value)
    ensures var (g', r) := Apply(g, cmd);
            var there := LinkAt(g, SlotOf(cmd.dst));
            && (r == if there.Some? && Printed(there.value) == cmd.src.value then Ready else NoSuchObject)
            && LinkAt(g', l) == if r == Ready && l == SlotOf(cmd.dst) then None else LinkAt(g, l)
  {
    var c := cmd.src.value;
    match cmd.dst
    case DataPin(p) => DataUnlinks(g, c, p, l);
    case MemberPin(p, m) => MemberUnlinks(g, c, p, m, l);
    case InOutPin(p) => InOutUnlinks(g, c, p, l);
  }

  lemma NothingApplied(g: Graph, cmd: Command)
    requires Shaped(g) && Known(g, cmd.src)
    requires cmd.src.None? || !Exists(g, cmd, cmd.src.value) || (cmd.Create? && !cmd.compatible)
    ensures Apply(g, cmd) ==
            (g, if cmd.src.None? || !Exists(g, cmd, cmd.src.value) then NoSuchObject else InvalidOperation)
  {
  }

  // Every command answers for exactly one reason, and one that is carried out puts exactly this source to, or takes
  // it from, exactly this end.
  lemma LinksExactly(g: Graph, cmd: Command, l: Slot)
    requires Good(g) && Known(g, cmd.src)
    ensures var (g', r) := Apply(g, cmd);
            && r == Answer(g, cmd)
            && LinkAt(g', l) ==
               if r == Ready && l == SlotOf(cmd.dst) then (if cmd.Create? then cmd.src else None) else LinkAt(g, l)
  {
    GoodThere(g, cmd);
    LinksExactlyIn(g, cmd, l);
  }

  lemma LinksExactlyIn(g: Graph, cmd: Command, l: Slot)
    requires Shaped(g) && Known(g, cmd.src) && (cmd.dst.at in g.inputs ==> WellFormed(g.inputs[cmd.dst.at]))
    ensures var (g', r) := Apply(g, cmd);
            && r == Answer(g, cmd)
            && LinkAt(g', l) ==
               if r == Ready && l == SlotOf(cmd.dst) then (if cmd.Create? then cmd.src else None) else LinkAt(g, l)
  {
    if cmd.src.None? || !Exists(g, cmd, cmd.src.value) || (cmd.Create? && !cmd.compatible) {
      NothingApplied(g, cmd);
    } else if cmd.Create? {
      CreateLinks(g, cmd, l);
    } else {
      DeleteUnlinks(g, cmd, l);
    }
  }

  // By how much the command changes the count of f when it is carried out
  function Counted(cmd: Command, f: FbId): int {
    if cmd.src.None? then 0
    else if cmd.Create? then Ends(SlotOf(cmd.dst), cmd.src.value.fb, f)
    else 0 - Ends(SlotOf(cmd.dst), cmd.src.value.fb, f)
  }

  lemma DataCounted(g: Graph, c: Source, p: Point, f: FbId)
    requires c.fb in g.counts && c.fb in g.recreated && p in g.inputs && f in g.counts
    ensures var (g', r) := CreateData(g, c, p);
            g'.counts[f] == g.counts[f] + if r == Ready then Ends(PlainSlot(p), c.fb, f) else 0
    ensures var (g', r) := DeleteData(g, c, p);
            g'.counts[f] == g.counts[f] - if r == Ready then Ends(PlainSlot(p), c.fb, f) else 0
  {
  }

  lemma MemberCounted(g: Graph, c: Source, p: Point, m: Member, f: FbId)
    requires c.fb in g.counts && p in g.inputs && f in g.counts
    ensures var (g', r) := CreateMember(g, c, p, m);
            g'.counts[f] == g.counts[f] + if r == Ready then Ends(MemberSlot(p, m), c.fb, f) else 0
    ensures var (g', r) := DeleteMember(g, c, p, m);
            g'.counts[f] == g.counts[f] - if r == Ready then Ends(MemberSlot(p, m), c.fb, f) else 0
  {
  }

  lemma InOutCounted(g: Graph, src: Point, p: Point, f: FbId)
    requires IsTree(g.Forest()) && src in g.dests && src in g.values && src.fb in g.counts && p.fb in g.counts
    requires f in g.counts
    ensures var (g', r) := CreateInOut(g, src, p);
            g'.counts[f] == g.counts[f] + if r == Ready then Ends(InOutSlot(p), src.fb, f) else 0
    ensures var (g', r) := DeleteInOut(g, src, p);
            g'.counts[f] == g.counts[f] - if r == Ready then Ends(InOutSlot(p), src.fb, f) else 0
  {
  }

  // A command that is carried out counts the source of its link, and for an in-out link its end too, once up or
  // once down, and no other block.
  lemma CountsExactly(g: Graph, cmd: Command, f: FbId)
    requires Shaped(g) && Known(g, cmd.src) && f in g.counts
    ensures var (g', r) := Apply(g, cmd);
            f in g'.counts && g'.counts[f] == g.counts[f] + if r == Ready then Counted(cmd, f) else 0
  {
    if cmd.src.None? || !Exists(g, cmd, cmd.src.value) || (cmd.Create? && !cmd.compatible) {
      NothingApplied(g, cmd);
    } else {
      var c := cmd.src.value;
      match cmd.dst
      case DataPin(p) => DataCounted(g, c, p, f);
      case MemberPin(p, m) => MemberCounted(g, c, p, m, f);
      case InOutPin(p) => InOutCounted(g, Out(c), p, f);
    }
  }

  // A new in-out link gives the variable of its source to what lies below its end; no other command touches a value.
  lemma ValuesExactly(g: Graph, cmd: Command, q: Point)
    requires Shaped(g) && Known(g, cmd.src) && q in g.values
    ensures var (g', r) := Apply(g, cmd);
            q in g'.values && g'.values[q] ==
            if r == Ready && cmd.Create? && cmd.dst.InOutPin? && Climbs(g.ins, q, cmd.dst.at)
            then g.values[Out(cmd.src.value)] else g.values[q]
  {
    if cmd.dst.InOutPin? { ClimbsIsBelow(g.ins, g.rank, g.bound, q, cmd.dst.at); }
  }

  lemma {:induction false} WithoutNone(ds: seq<Point>, p: Point)
    requires p !in ds
    ensures Without(ds, p) == ds
  {
    if ds != [] { WithoutNone(ds[1..], p); }
  }

  lemma {:induction false} WithoutConcat(a: seq<Point>, b: seq<Point>, p: Point)
    ensures Without(a + b, p) == Without(a, p) + Without(b, p)
  {
    AppendTail(a, b);
    if a != [] {
      WithoutConcat(a[1..], b, p);
      AppendAssoc([a[0]], Without(a[1..], p), Without(b, p));
    }
  }

  lemma WithoutItself(p: Point)
    ensures Without([p], p) == []
  {
  }

  lemma WithoutLast(a: seq<Point>, p: Point)
    requires p !in a
    ensures Without(a + [p], p) == a
  {
    WithoutConcat(a, [p], p);
    WithoutNone(a, p);
    WithoutItself(p);
  }

  lemma WithoutOne(a: seq<Point>, p: Point, b: seq<Point>)
    requires p !in a && p !in b
    ensures Without(a + [p] + b, p) == a + b
  {
    WithoutConcat(a + [p], b, p);
    WithoutLast(a, p);
    WithoutNone(b, p);
  }

  // The destinations of an out connection are in the order of their creation: a new one comes last, and a deleted
  // one leaves the others in order.
  lemma DestinationsInOrder(g: Graph, src: Point, p: Point, a: seq<Point>, b: seq<Point>)
    requires Good(g) && src in g.dests && src.fb in g.counts && p.fb in g.counts
    ensures p !in g.ins ==> CreateInOut(g, src, p).0.dests == g.dests[src := g.dests[src] + [p]]
    ensures p in g.ins && g.ins[p] == src && g.dests[src] == a + [p] + b ==>
              DeleteInOut(g, src, p).0.dests == g.dests[src := a + b]
  {
    if p in g.ins && g.ins[p] == src && g.dests[src] == a + [p] + b {
      OnceIn(a, p, b);
      WithoutOne(a, p, b);
    }
  }

  lemma OnceIn(a: seq<Point>, p: Point, b: seq<Point>)
    requires Distinct(a + [p] + b)
    ensures p !in a && p !in b
  {
    var ds := a + [p] + b;
    assert ds[|a|] == p;
    forall i | 0 <= i < |a| ensures a[i] != p { assert ds[i] == a[i]; }
    forall i | 0 <= i < |b| ensures b[i] != p { assert ds[|a| + 1 + i] == b[i]; }
  }

  lemma BumpBack(m: map<FbId, int>, f: FbId, e: FbId)
    requires f in m && e in m
    ensures Bump(Bump(m, f, 1), f, -1) == m
    ensures Bump(Bump(Bump(Bump(m, f, 1), e, 1), f, -1), e, -1) == m
  {
  }

  lemma SlotBack(t: Table, l: Slot, f: FbId)
    requires l !in t
    ensures t[l := f] - {l} == t
  {
  }

  lemma PinBack(inputs: map<Point, Input>, p: Point, pin: Input)
    requires p in inputs
    ensures inputs[p := pin][p := inputs[p]] == inputs
  {
  }

  lemma DataBack(g: Graph, c: Source, p: Point)
    requires c.fb in g.counts && c.fb in g.recreated && p in g.inputs
    requires g.inputs[p] == Unconnected && PlainSlot(p) !in g.table
    ensures DeleteData(CreateData(g, c, p).0, Printed(c), p) == (g, Ready)
  {
    SlotBack(g.table, PlainSlot(p), c.fb);
    PinBack(g.inputs, p, Direct(c));
    BumpBack(g.counts, c.fb, c.fb);
  }

  lemma MemberBack(g: Graph, c: Source, p: Point, m: Member)
    requires c.fb in g.counts && p in g.inputs && CreateMember(g, c, p, m).1 == Ready
    requires WellFormed(g.inputs[p]) && MemberSlot(p, m) !in g.table
    ensures DeleteMember(CreateMember(g, c, p, m).0, Printed(c), p, m) == (g, Ready)
  {
    var pin := MemberConnect(g.inputs[p], m, c).0;
    GatheringIsPartialMap(g.inputs[p], m, c);
    AttachDetachRestores(g.inputs[p], m, c);
    assert Attached(pin)[m] == c;
    SlotBack(g.table, MemberSlot(p, m), c.fb);
    PinBack(g.inputs, p, pin);
    BumpBack(g.counts, c.fb, c.fb);
  }

  lemma EdgeBack(ins: Edges, dests: Dests, src: Point, p: Point)
    requires p !in ins && src in dests && p !in dests[src]
    ensures ins[p := src] - {p} == ins
    ensures dests[src := dests[src] + [p]][src := Without(dests[src] + [p], p)] == dests
  {
    WithoutLast(dests[src], p);
  }

  lemma InOutBack(g: Graph, src: Point, p: Point)
    requires IsTree(g.Forest()) && src in g.dests && src in g.values && src.fb in g.counts && p.fb in g.counts
    requires p !in g.ins && p !in g.dests[src] && InOutSlot(p) !in g.table
    ensures var made := CreateInOut(g, src, p).0;
            DeleteInOut(made, src, p) == (g.(values := made.values, rank := made.rank, bound := made.bound), Ready)
  {
    SlotBack(g.table, InOutSlot(p), src.fb);
    EdgeBack(g.ins, g.dests, src, p);
    BumpBack(g.counts, p.fb, src.fb);
  }

  // A link that is deleted by the name that is printed for it leaves the very graph in which it was created ...
  lemma DataRestored(g: Graph, c: Source, p: Point)
    requires Good(g) && c.fb in g.counts && p in g.inputs
    requires LinkAt(g, PlainSlot(p)) == None && CreateData(g, c, p).1 == Ready
    ensures DeleteData(CreateData(g, c, p).0, Printed(c), p) == (g, Ready)
  {
    assert PinTied(g.table, p, g.inputs[p]);
    DataBack(g, c, p);
  }

  lemma MemberRestored(g: Graph, c: Source, p: Point, m: Member)
    requires Good(g) && c.fb in g.counts && p in g.inputs && CreateMember(g, c, p, m).1 == Ready
    ensures DeleteMember(CreateMember(g, c, p, m).0, Printed(c), p, m) == (g, Ready)
  {
    assert PinTied(g.table, p, g.inputs[p]);
    GatheringIsPartialMap(g.inputs[p], m, c);
    MemberBack(g, c, p, m);
  }

  // ... but for the values below the end of an in-out link.
  lemma InOutRestored(g: Graph, src: Point, p: Point)
    requires Good(g) && src in g.dests && p in g.dests && p !in g.ins
    ensures var made := CreateInOut(g, src, p).0;
            DeleteInOut(made, src, p) == (g.(values := made.values, rank := made.rank, bound := made.bound), Ready)
  {
    assert InOutSlot(p) !in g.table && p !in g.dests[src];
    InOutBack(g, src, p);
  }

  // ---------------------------------------------------------------- runs

  // A command keeps every invariant, or closes a circle; a rejected command changes nothing.
  lemma ApplyKeeps(g: Graph, cmd: Command)
    requires Good(g) && Known(g, cmd.src)
    ensures Framed(g, Apply(g, cmd).0, Apply(g, cmd).1)
    ensures Sound(Apply(g, cmd).0) && (IsTree(Apply(g, cmd).0.Forest()) <==> !ClosesCircle(g, cmd))
  {
    ApplyFramed(g, cmd);
    if cmd.src.Some? {
      if cmd.Create? { CreateKeeps(g, cmd); } else { DeleteKeeps(g, cmd); }
    }
  }

  // What happens to the graph: a command of the resource, or a block re-points its out connection.
  datatype Step = Order(command: Command) | Repoint(top: Point, v: VarId)

  ghost predicate Possible(g: Graph, step: Step) {
    match step
    case Order(cmd) => Known(g, cmd.src)
    case Repoint(top, _) => top in g.dests
  }

  ghost function Next(g: Graph, step: Step): Graph
    requires Shaped(g) && Possible(g, step)
  {
    match step
    case Order(cmd) => Apply(g, cmd).0
    case Repoint(top, v) => g.(values := Paint(g.Forest(), top, g.values, v))
  }

  // Re-pointing gives the variable to the pin and to everything below it, and touches no other value.
  lemma RepointValues(g: Graph, top: Point, v: VarId, q: Point)
    requires Shaped(g) && top in g.dests && q in g.values
    ensures var g' := Next(g, Repoint(top, v));
            g' == g.(values := g'.values) && q in g'.values
            && g'.values[q] == if Climbs(g.ins, q, top) then v else g.values[q]
  {
    ClimbsIsBelow(g.ins, g.rank, g.bound, q, top);
  }

  // A circle is closed, or a connected out connection is torn from the variable of its source.
  ghost predicate Breaks(g: Graph, step: Step)
    requires Good(g) && Possible(g, step)
  {
    match step
    case Order(cmd) => ClosesCircle(g, cmd)
    case Repoint(top, v) => top in g.ins && g.values[top] != v
  }

  lemma GoodWithValues(g: Graph, values: Values)
    requires Good(g) && values.Keys == g.values.Keys
    ensures Good(g.(values := values)) <==> Aliased(g.ins, values)
  {
  }

  lemma RepointExactly(g: Graph, top: Point, v: VarId)
    requires Good(g) && top in g.dests
    ensures Good(g.(values := Paint(g.Forest(), top, g.values, v))) <==> top !in g.ins || g.values[top] == v
  {
    SetValueKeepsAliasing(g.Forest(), g.values, top, v);
    GoodWithValues(g, Paint(g.Forest(), top, g.values, v));
  }

  // A step keeps every invariant exactly unless it is one of these two.
  lemma StepKeepsExactly(g: Graph, step: Step)
    requires Good(g) && Possible(g, step)
    ensures Good(Next(g, step)) <==> !Breaks(g, step)
    ensures Next(g, step).counts.Keys == g.counts.Keys
  {
    match step
    case Order(cmd) => ApplyKeeps(g, cmd);
    case Repoint(top, v) => RepointExactly(g, top, v);
  }

  ghost predicate Admissible(g: Graph, steps: seq<Step>)
    requires Good(g)
    decreases |steps|
  {
    steps != [] ==>
      && Possible(g, steps[0]) && !Breaks(g, steps[0])
      && (StepKeepsExactly(g, steps[0]); Admissible(Next(g, steps[0]), steps[1..]))
  }

  ghost function Run(g: Graph, steps: seq<Step>): Graph
    requires Good(g) && Admissible(g, steps)
    decreases |steps|
  {
    if steps == [] then g else (StepKeepsExactly(g, steps[0]); Run(Next(g, steps[0]), steps[1..]))
  }

  // The command creates a plain link from f that is already there.
  predicate Recreates(g: Graph, cmd: Command, f: FbId) {
    && cmd.Create? && cmd.compatible && cmd.dst.DataPin? && cmd.src.Some?
    && cmd.src.value.fb == f && cmd.src.value.via.None?
    && cmd.dst.at in g.inputs && g.inputs[cmd.dst.at] == Direct(cmd.src.value)
  }

  ghost function Recreations(g: Graph, steps: seq<Step>, f: FbId): nat
    requires Good(g) && Admissible(g, steps)
    decreases |steps|
  {
    if steps == [] then 0
    else
      (if steps[0].Order? && Recreates(g, steps[0].command, f) then 1 else 0)
      + (StepKeepsExactly(g, steps[0]); Recreations(Next(g, steps[0]), steps[1..], f))
  }

  lemma DataRecreates(g: Graph, c: Source, p: Point)
    requires c.fb in g.counts && c.fb in g.recreated && p in g.inputs && PinTied(g.table, p, g.inputs[p])
    ensures CreateData(g, c, p).0.recreated ==
            if g.inputs[p] == Direct(c) && c.via.None? then Bump(g.recreated, c.fb, 1) else g.recreated
  {
  }

  lemma ApplyRecreates(g: Graph, cmd: Command, f: FbId)
    requires Shaped(g) && Known(g, cmd.src) && f in g.counts
    requires cmd.dst.at in g.inputs ==> PinTied(g.table, cmd.dst.at, g.inputs[cmd.dst.at])
    ensures var g' := Apply(g, cmd).0;
            f in g'.recreated && g'.recreated[f] == g.recreated[f] + if Recreates(g, cmd, f) then 1 else 0
  {
    if cmd.src.Some? && cmd.Create? && cmd.dst.DataPin? && cmd.dst.at in g.inputs {
      DataRecreates(g, cmd.src.value, cmd.dst.at);
    }
  }

  // Over every run the count of a block is the number of live links it must outlive plus the number of
  // times one of its plain links was created again; so it is never too small, and exact without such
  // repeats.
  lemma {:induction false} CountOverRun(g: Graph, steps: seq<Step>, f: FbId)
    requires Good(g) && Admissible(g, steps) && f in g.counts
    ensures Good(Run(g, steps)) && f in Run(g, steps).counts
    ensures Run(g, steps).counts[f] ==
            LiveCount(Run(g, steps).table, f) + g.recreated[f] + Recreations(g, steps, f)
    decreases |steps|
  {
    if steps != [] {
      StepKeepsExactly(g, steps[0]);
      if steps[0].Order? {
        ApplyRecreates(g, steps[0].command, f);
      }
      CountOverRun(Next(g, steps[0]), steps[1..], f);
    }
  }

  // No pointer of the graph leads to the block's connections.
  ghost predicate Unreferenced(g: Graph, f: FbId) {
    && (forall p :: p in g.inputs && g.inputs[p].Direct? ==> g.inputs[p].source.fb != f)
    && (forall p, m :: p in g.inputs && m in Attached(g.inputs[p]) ==> Attached(g.inputs[p])[m].fb != f)
    && (forall d :: d in g.ins ==> g.ins[d].fb != f && d.fb != f)
  }

  lemma UnreferencedCount(g: Graph, f: FbId)
    requires Good(g)
    ensures Unreferenced(g, f) <==> LiveCount(g.table, f) == 0
  {
    if LiveCount(g.table, f) == 0 {
      forall l | l in g.table ensures g.table[l] != f && (l.InOutSlot? ==> l.pin.fb != f) {
        assert l !in Sourced(g.table, f) && l !in Entered(g.table, f);
      }
      forall p | p in g.inputs && g.inputs[p].Direct? ensures g.inputs[p].source.fb != f {
        assert PlainSlot(p) in g.table;
      }
      forall p, m | p in g.inputs && m in Attached(g.inputs[p]) ensures Attached(g.inputs[p])[m].fb != f {
        assert MemberSlot(p, m) in g.table;
      }
      forall d | d in g.ins ensures g.ins[d].fb != f && d.fb != f {
        assert InOutSlot(d) in g.table;
      }
    }
    if Unreferenced(g, f) {
      forall l | l in g.table ensures l !in Sourced(g.table, f) && l !in Entered(g.table, f) {
        if !l.InOutSlot? { assert PinTied(g.table, l.pin, g.inputs[l.pin]); }
      }
      assert Sourced(g.table, f) == {} && Entered(g.table, f) == {};
    }
  }

  // A count of zero makes a stopped block deletable.  Then nothing refers to it; and a block to
  // which nothing refers has count zero exactly if none of its plain links was ever created again.
  lemma DeletableIsUnreferenced(g: Graph, f: FbId)
    requires Good(g) && f in g.counts
    ensures g.counts[f] == 0 <==> Unreferenced(g, f) && g.recreated[f] == 0
  {
    UnreferencedCount(g, f);
  }

  // Blocks without connections; every in-out pin refers to its own variable.
  ghost function Fresh(blocks: set<FbId>, dataPins: set<Point>, own: Values): Graph {
    Graph(map p | p in dataPins :: Unconnected, map[], own, map p | p in own :: [],
          map f | f in blocks :: 0, map[], map f | f in blocks :: 0, map p | p in own :: 0, 0)
  }

  lemma NothingLive()
    ensures forall f :: LiveCount(map[], f) == 0
  {
    forall f ensures LiveCount(map[], f) == 0 {
      assert Sourced(map[], f) == {} && Entered(map[], f) == {};
    }
  }

  lemma FreshIsGood(blocks: set<FbId>, dataPins: set<Point>, own: Values)
    requires forall p :: p in dataPins || p in own ==> p.fb in blocks
    ensures Good(Fresh(blocks, dataPins, own))
  {
    NothingLive();
  }

  // A circle: an in-out pin is linked to itself.
  lemma SelfLinkCloses(p: Point, v: VarId)
    ensures var g := Fresh({p.fb}, {}, map[p := v]);
            Good(g) && CreateInOut(g, p, p).1 == Ready && !Acyclic(CreateInOut(g, p, p).0.ins)
  {
    FreshIsGood({p.fb}, {}, map[p := v]);
    CreateInOutKeeps(Fresh({p.fb}, {}, map[p := v]), p, p);
  }

  lemma PlainRun(g: Graph, c: Source, p: Point)
    requires c.fb in g.counts && c.fb in g.recreated && p in g.inputs && g.inputs[p] == Unconnected && c.via.None?
    ensures var (g1, r1) := CreateData(g, c, p);
            var (g2, r2) := CreateData(g1, c, p);
            var (g3, r3) := DeleteData(g2, c, p);
            && r1 == r2 == r3 == Ready
            && g3.inputs == g.inputs && g3.ins == g.ins && g3.counts[c.fb] == g.counts[c.fb] + 1
  {
    var g2 := CreateData(CreateData(g, c, p).0, c, p).0;
    assert g2.inputs == g.inputs[p := Direct(c)];
    assert g.inputs[p := Direct(c)][p := Unconnected] == g.inputs;
  }

  // A link that is created twice and deleted once: nothing refers to its source any more, and it stays counted.
  lemma CreatedTwiceStays(fb: FbId, port: nat, p: Point)
    ensures var g, c := Fresh({fb, p.fb}, {p}, map[]), Source(fb, false, port, None);
            var g3 := DeleteData(CreateData(CreateData(g, c, p).0, c, p).0, c, p).0;
            Good(g) && Unreferenced(g3, fb) && g3.counts[fb] == 1
  {
    FreshIsGood({fb, p.fb}, {p}, map[]);
    PlainRun(Fresh({fb, p.fb}, {p}, map[]), Source(fb, false, port, None), p);
    assert Attached(Unconnected) == map[];
  }

  // ---------------------------------------------------------------- in place

  // The pointers and counters of all blocks of one resource, changed in place by its two commands.
  class ConnectionGraph {
    var inputs: map<Point, Input>
    var ins: Edges
    var values: Values
    var dests: Dests
    var counts: map<FbId, int>
    ghost var table: Table
    ghost var recreated: map<FbId, int>
    ghost var rank: map<Point, nat>
    ghost var bound: nat

    ghost function Abs(): Graph
      reads this
    {
      Graph(inputs, ins, values, dests, counts, table, recreated, rank, bound)
    }

    constructor (blocks: set<FbId>, dataPins: set<Point>, own: Values)
      ensures Abs() == Fresh(blocks, dataPins, own)
    {
      inputs := map p | p in dataPins :: Unconnected;
      ins, values, table := map[], own, map[];
      dests := map p | p in own :: [];
      counts := map f | f in blocks :: 0;
      recreated := map f | f in blocks :: 0;
      rank, bound := map p | p in own :: 0, 0;
    }

    // CInOutDataConnection::setValue: re-points the out connection of p and pushes the value down.
    method SetValue(p: Point, v: VarId, ghost t: Tree)
      requires IsTree(t) && Wired(t.parent, dests) && dests.Keys == values.Keys && p in dests
      requires forall d :: d in t.parent ==> d in ins && ins[d] == t.parent[d]
      modifies this`values, this`ins
      ensures ins == old(ins) && values == Paint(t, p, old(values), v)
      decreases Height(t, p), 1
    {
      ghost var was := values;
      values := values[p := v];
      var ds := dests[p];
      var k := 0;
      while k < |ds|
        invariant k <= |ds| && ins == old(ins)
        invariant values == PaintSome(t, p, ds, k, was, v)
      {
        DestinationIsHigher(t, dests, p, k);
        var ok := ConnectDIO(ds[k], Some(p), t);
        PaintNext(t, p, ds, k, was, v);
        k := k + 1;
      }
      PaintAll(t, p, dests, was, v);
    }

    // CFunctionBlock::connectDIO; None is the null connection.
    method ConnectDIO(d: Point, src: Option<Point>, ghost t: Tree) returns (ok: bool)
      requires IsTree(t) && Wired(t.parent, dests) && dests.Keys == values.Keys
      requires forall e :: e in t.parent ==> e in ins && ins[e] == t.parent[e]
      requires src.Some? ==> src.value in values
      modifies this`values, this`ins
      ensures ok <==> d in dests && (src.None? || d !in old(ins) || old(ins)[d] == src.value)
      ensures ins == if !ok then old(ins) else if src.None? then old(ins) - {d} else old(ins)[d := src.value]
      ensures values == if ok && src.Some? then Paint(t, d, old(values), old(values)[src.value]) else old(values)
      decreases Height(t, d), 2
    {
      if d !in dests {
        return false;
      }
      if src.None? {
        ins := ins - {d};
        return true;
      }
      if d in ins && ins[d] != src.value {
        return false;
      }
      ins := ins[d := src.value];
      SetValue(d, values[src.value], t);
      return true;
    }

    method ConnectPlain(c: Source, p: Point) returns (r: Response)
      requires c.fb in counts && c.fb in recreated && p in inputs
      modifies this
      ensures (Abs(), r) == CreateData(old(Abs()), c, p)
    {
      match inputs[p] {
        case Unconnected =>
        case Direct(d) =>
          if d != c || c.via.Some? {
            return InvalidState;
          }
        case Gathering(_) =>
          return InvalidState;
      }
      inputs := inputs[p := Direct(c)];
      if PlainSlot(p) in table { recreated := Bump(recreated, c.fb, 1); }
      table := table[PlainSlot(p) := c.fb];
      counts := counts[c.fb := counts[c.fb] + 1];
      return Ready;
    }

    method ConnectMember(c: Source, p: Point, m: Member) returns (r: Response)
      requires c.fb in counts && p in inputs
      modifies this
      ensures (Abs(), r) == CreateMember(old(Abs()), c, p, m)
    {
      match inputs[p] {
        case Direct(_) =>
          return InvalidState;
        case Unconnected =>
          inputs := inputs[p := Gathering([(m, c)])];
        case Gathering(ms) =>
          var there := FindMember(ms, m);
          if there {
            return InvalidState;
          }
          inputs := inputs[p := Gathering(ms + [(m, c)])];
      }
      table := table[MemberSlot(p, m) := c.fb];
      counts := counts[c.fb := counts[c.fb] + 1];
      return Ready;
    }

    method DisconnectPlain(c: Source, p: Point) returns (r: Response)
      requires c.fb in counts && p in inputs
      modifies this
      ensures (Abs(), r) == DeleteData(old(Abs()), c, p)
    {
      if !inputs[p].Direct? || Printed(inputs[p].source) != c {
        return NoSuchObject;
      }
      inputs := inputs[p := Unconnected];
      table := table - {PlainSlot(p)};
      counts := counts[c.fb := counts[c.fb] - 1];
      return Ready;
    }

    method DisconnectMember(c: Source, p: Point, m: Member) returns (r: Response)
      requires c.fb in counts && p in inputs && WellFormed(inputs[p])
      modifies this
      ensures (Abs(), r) == DeleteMember(old(Abs()), c, p, m)
    {
      if !inputs[p].Gathering? {
        return NoSuchObject;
      }
      var ms := inputs[p].members;
      InAsMap(ms, m);
      var there := FindMember(ms, m);
      if !there {
        return NoSuchObject;
      }
      var d := MemberSource(ms, m);
      if Printed(d) != c {
        return NoSuchObject;
      }
      var rest := EraseIf(ms, m);
      inputs := inputs[p := if rest == [] then Unconnected else Gathering(rest)];
      table := table - {MemberSlot(p, m)};
      counts := counts[c.fb := counts[c.fb] - 1];
      return Ready;
    }

    // CInOutDataConnection::establishDataConnection after the type check
    method EstablishInOut(src: Point, p: Point, ghost t: Tree) returns (r: Response)
      requires t.parent == ins && IsTree(t) && Wired(ins, dests) && dests.Keys == values.Keys
      requires src in dests && p in dests
      modifies this`ins, this`values, this`dests
      ensures (InOuts(ins, values, dests), r) == Establish(t, old(values), old(dests), src, p)
    {
      if p in dests[src] {
        return InvalidState;
      }
      var ok := ConnectDIO(p, Some(src), t);
      if !ok {
        return InvalidState;
      }
      dests := dests[src := dests[src] + [p]];
      return Ready;
    }

    // Both blocks are counted once the link is established.
    method CountInOut(src: Point, p: Point, ghost g: Graph)
      requires IsTree(g.Forest()) && src in g.dests && src in g.values && src.fb in g.counts && p.fb in g.counts
      requires (InOuts(ins, values, dests), Ready) == Establish(g.Forest(), g.values, g.dests, src, p)
      requires Abs() == g.(ins := ins, values := values, dests := dests)
      modifies this
      ensures (Abs(), Ready) == CreateInOut(g, src, p)
    {
      counts := Bump(Bump(counts, p.fb, 1), src.fb, 1);
      table := table[InOutSlot(p) := src.fb];
      rank, bound := NextRank(g.Forest(), src, p), 2 * bound + 1;
    }

    method ConnectInOut(src: Point, p: Point) returns (r: Response)
      requires IsTree(Tree(ins, rank, bound)) && Wired(ins, dests) && dests.Keys == values.Keys
      requires src in dests && p in dests && src.fb in counts && p.fb in counts
      modifies this
      ensures (Abs(), r) == CreateInOut(old(Abs()), src, p)
    {
      ghost var g := Abs();
      r := EstablishInOut(src, p, g.Forest());
      if r == Ready {
        CountInOut(src, p, g);
      }
    }

    method DisconnectInOut(src: Point, p: Point) returns (r: Response)
      requires Wired(ins, dests) && src in dests && src.fb in counts && p.fb in counts
      modifies this
      ensures (Abs(), r) == DeleteInOut(old(Abs()), src, p)
    {
      var rest := RemoveDestination(dests[src], p);
      if |rest| == |dests[src]| {
        return NoSuchObject;
      }
      dests := dests[src := rest];
      ins := ins - {p};
      counts := counts[p.fb := counts[p.fb] - 1];
      counts := counts[src.fb := counts[src.fb] - 1];
      table := table - {InOutSlot(p)};
      return Ready;
    }

    // CResource::createConnection; src is None when the source name leads nowhere.
    method CreateConnection(src: Option<Source>, dst: Pin, isMember: bool, compatible: bool) returns (r: Response)
      requires Good(Abs()) && Known(Abs(), src)
      modifies this
      ensures (Abs(), r) == Apply(old(Abs()), Create(src, dst, isMember, compatible))
    {
      if src.None? {
        return NoSuchObject;
      }
      var c := src.value;
      match dst {
        case DataPin(p) =>
          if p !in inputs {
            return NoSuchObject;
          }
          if !compatible {
            return InvalidOperation;
          }
          r := ConnectPlain(c, p);
        case MemberPin(p, m) =>
          if p !in inputs || !isMember {
            return NoSuchObject;
          }
          if !compatible {
            return InvalidOperation;
          }
          r := ConnectMember(c, p, m);
        case InOutPin(p) =>
          if !InOutSource(c) || p !in dests {
            return NoSuchObject;
          }
          if !compatible {
            return InvalidOperation;
          }
          r := ConnectInOut(Out(c), p);
      }
    }

    // CResource::deleteConnection
    method DeleteConnection(src: Option<Source>, dst: Pin) returns (r: Response)
      requires Good(Abs()) && Known(Abs(), src)
      modifies this
      ensures (Abs(), r) == Apply(old(Abs()), Delete(src, dst))
    {
      if src.None? {
        return NoSuchObject;
      }
      var c := src.value;
      match dst {
        case DataPin(p) =>
          if p !in inputs {
            return NoSuchObject;
          }
          r := DisconnectPlain(c, p);
        case MemberPin(p, m) =>
          if p !in inputs {
            return NoSuchObject;
          }
          assert PinTied(table, p, inputs[p]);
          r := DisconnectMember(c, p, m);
        case InOutPin(p) =>
          if !InOutSource(c) || p !in dests {
            return NoSuchObject;
          }
          r := DisconnectInOut(Out(c), p);
      }
    }
  }

  method FindMember(ms: seq<(Member, Source)>, m: Member) returns (there: bool)
    ensures there == HasMember(ms, m)
  {
    var k := 0;
    while k < |ms|
      invariant k <= |ms| && HasMember(ms, m) == HasMember(ms[k..], m)
    {
      if ms[k].0 == m {
        return true;
      }
      k := k + 1;
    }
    return false;
  }

  method MemberSource(ms: seq<(Member, Source)>, m: Member) returns (c: Source)
    requires HasMember(ms, m)
    ensures m in AsMap(ms) && c == AsMap(ms)[m]
  {
    var k := 0;
    InAsMap(ms, m);
    assert ms[0..] == ms;
    while ms[k].0 != m
      invariant k < |ms| && HasMember(ms[k..], m)
      invariant m in AsMap(ms) && m in AsMap(ms[k..]) && AsMap(ms)[m] == AsMap(ms[k..])[m]
      decreases |ms| - k
    {
      InAsMap(ms[k..][1..], m);
      assert ms[k..][1..] == ms[k + 1..];
      k := k + 1;
    }
    c := ms[k].1;
  }

  method EraseIf(ms: seq<(Member, Source)>, m: Member) returns (rest: seq<(Member, Source)>)
    ensures rest == Erase(ms, m)
  {
    rest := [];
    var k := 0;
    while k < |ms|
      invariant k <= |ms| && rest + Erase(ms[k..], m) == Erase(ms, m)
    {
      assert ms[k..][1..] == ms[k + 1..];
      if ms[k].0 != m {
        AppendAssoc(rest, [ms[k]], Erase(ms[k + 1..], m));
        rest := rest + [ms[k]];
      }
      k := k + 1;
    }
  }

  method RemoveDestination(ds: seq<Point>, p: Point) returns (rest: seq<Point>)
    ensures rest == Without(ds, p)
    ensures |rest| == |ds| <==> p !in ds
  {
    rest := [];
    var k := 0;
    while k < |ds|
      invariant k <= |ds| && rest + Without(ds[k..], p) == Without(ds, p)
      invariant |rest| <= k && (|rest| == k <==> p !in ds[..k])
    {
      assert ds[k..][1..] == ds[k + 1..];
      if ds[k] != p {
        AppendAssoc(rest, [ds[k]], Without(ds[k + 1..], p));
        rest := rest + [ds[k]];
      }
      k := k + 1;
    }
  }
}
