/** Creating, deleting and finding FBs by path in core/src/fbcontainer.cpp: the sorted tree as a map from paths. */
module FBPaths {
  import opened Management
  import opened Options
  import opened Seqs
  import opened FBTree

  type Path = seq<int>

  // ---------------------------------------------------------------- children

  // Children are sorted by name, and no name is empty.
  predicate Ordered(children: seq<Node>) {
    && (forall i, j :: 0 <= i < j < |children| ==> children[i].name < children[j].name)
    && (forall i :: 0 <= i < |children| ==> children[i].name > 0)
  }

  predicate Sorted(n: Node)
    decreases n
  {
    Ordered(n.children) && forall i :: 0 <= i < |n.children| ==> Sorted(n.children[i])
  }

  // Linear search
  function FindChild(children: seq<Node>, name: int): Option<Node> {
    if children == [] then None
    else if children[0].name == name then Some(children[0])
    else FindChild(children[1..], name)
  }

  // The first child whose name is not less
  function Position(children: seq<Node>, name: int): (k: nat)
    ensures k <= |children|
  {
    if children == [] || children[0].name >= name then 0 else 1 + Position(children[1..], name)
  }

  // getChildrenIterator: the empty name is never found.
  function ChildIndex(children: seq<Node>, name: int): (k: nat)
    ensures k <= |children|
  {
    if name != 0 && children != [] then Position(children, name) else |children|
  }

  // isChild
  predicate IsChild(children: seq<Node>, k: nat, name: int) {
    k < |children| && children[k].name == name
  }

  lemma {:induction false} PositionUnique(children: seq<Node>, name: int, k: nat)
    requires k <= |children|
    requires forall i :: 0 <= i < k ==> children[i].name < name
    requires k < |children| ==> children[k].name >= name
    ensures Position(children, name) == k
  {
    if k > 0 {
      PositionUnique(children[1..], name, k - 1);
    }
  }

  lemma {:induction false} PositionBounds(children: seq<Node>, name: int)
    requires Ordered(children)
    ensures var k := Position(children, name);
            (forall i :: 0 <= i < k ==> children[i].name < name) &&
            (forall i :: k <= i < |children| ==> children[i].name >= name)
  {
    if children != [] && children[0].name < name {
      PositionBounds(children[1..], name);
      var k := Position(children[1..], name);
      forall i | 0 <= i < |children| ensures i < k + 1 <==> children[i].name < name {
        assert i > 0 ==> children[i] == children[1..][i - 1];
      }
    }
  }

  lemma {:induction false} FindIs(children: seq<Node>, i: nat)
    requires Ordered(children) && i < |children|
    ensures FindChild(children, children[i].name) == Some(children[i])
  {
    if i > 0 {
      FindIs(children[1..], i - 1);
    }
  }

  lemma {:induction false} FindNone(children: seq<Node>, name: int)
    ensures FindChild(children, name).None? <==> forall i :: 0 <= i < |children| ==> children[i].name != name
  {
    if children != [] && children[0].name != name {
      FindNone(children[1..], name);
      forall i | 0 <= i < |children| ensures i > 0 ==> children[i] == children[1..][i - 1] {
      }
      forall i | 0 <= i < |children| - 1 ensures children[1..][i] == children[i + 1] {
      }
    }
  }

  lemma {:induction false} FindInside(children: seq<Node>, name: int) returns (i: nat)
    requires FindChild(children, name).Some?
    ensures i < |children| && children[i] == FindChild(children, name).value && children[i].name == name
  {
    if children[0].name == name {
      i := 0;
    } else {
      i := FindInside(children[1..], name);
      i := i + 1;
    }
  }

  // Binary search finds what linear search finds.
  lemma IndexFinds(children: seq<Node>, name: int)
    requires Ordered(children)
    ensures var k := ChildIndex(children, name);
            FindChild(children, name) == if IsChild(children, k, name) then Some(children[k]) else None
  {
    var k := ChildIndex(children, name);
    PositionBounds(children, name);
    FindNone(children, name);
    if IsChild(children, k, name) {
      FindIs(children, k);
    }
  }

  function Inserted<T>(s: seq<T>, k: nat, x: T): seq<T>
    requires k <= |s|
  {
    s[..k] + [x] + s[k..]
  }

  function Erased<T>(s: seq<T>, k: nat): seq<T>
    requires k < |s|
  {
    s[..k] + s[k + 1..]
  }

  lemma InsertedAt(children: seq<Node>, k: nat, c: Node, i: nat)
    requires k <= |children| && i <= |children|
    ensures |Inserted(children, k, c)| == |children| + 1
    ensures Inserted(children, k, c)[i] == if i < k then children[i] else if i == k then c else children[i - 1]
  {
  }

  lemma OrderedAround(children: seq<Node>, k: nat, c: Node)
    requires Ordered(children) && k <= |children| && c.name > 0
    requires forall i :: 0 <= i < k ==> children[i].name < c.name
    requires forall i :: k <= i < |children| ==> c.name < children[i].name
    ensures Ordered(Inserted(children, k, c))
  {
    var now := Inserted(children, k, c);
    forall i, j | 0 <= i < j < |now| ensures now[i].name < now[j].name {
      InsertedAt(children, k, c, i);
      InsertedAt(children, k, c, j);
    }
    forall i | 0 <= i < |now| ensures now[i].name > 0 {
      InsertedAt(children, k, c, i);
    }
  }

  lemma InsertKeepsOrder(children: seq<Node>, c: Node)
    requires Ordered(children) && c.name > 0 && FindChild(children, c.name).None?
    ensures Ordered(Inserted(children, ChildIndex(children, c.name), c))
  {
    FindNone(children, c.name);
    PositionBounds(children, c.name);
    OrderedAround(children, ChildIndex(children, c.name), c);
  }

  lemma {:induction false} FindInserted(children: seq<Node>, k: nat, c: Node, name: int)
    requires k <= |children| && FindChild(children, c.name).None?
    ensures FindChild(Inserted(children, k, c), name) == if name == c.name then Some(c) else FindChild(children, name)
  {
    var now := Inserted(children, k, c);
    if k == 0 {
      assert now[0] == c && now[1..] == children;
    } else {
      assert now[0] == children[0] && now[1..] == Inserted(children[1..], k - 1, c);
      FindInserted(children[1..], k - 1, c, name);
    }
  }

  lemma FindUpdated(children: seq<Node>, k: nat, c: Node, name: int)
    requires Ordered(children) && k < |children| && c.name == children[k].name
    ensures Ordered(children[k := c])
    ensures FindChild(children[k := c], name) == if name == c.name then Some(c) else FindChild(children, name)
  {
    var now := children[k := c];
    if name == c.name {
      FindIs(now, k);
    } else if FindChild(children, name).Some? {
      var i := FindInside(children, name);
      FindIs(now, i);
    } else {
      FindNone(children, name);
      FindNone(now, name);
    }
  }

  lemma EraseKeepsOrder(children: seq<Node>, k: nat)
    requires Ordered(children) && k < |children|
    ensures Ordered(Erased(children, k))
  {
    var now := Erased(children, k);
    forall i | 0 <= i < |now| ensures now[i] == children[if i < k then i else i + 1] {
    }
  }

  lemma FindErased(children: seq<Node>, k: nat, name: int)
    requires Ordered(children) && k < |children|
    ensures Ordered(Erased(children, k))
    ensures FindChild(Erased(children, k), name) ==
            if name == children[k].name then None else FindChild(children, name)
  {
    var now := Erased(children, k);
    EraseKeepsOrder(children, k);
    if name != children[k].name && FindChild(children, name).Some? {
      var i := FindInside(children, name);
      var j := if i < k then i else i - 1;
      assert now[j] == children[i];
      FindIs(now, j);
    } else {
      FindNone(children, name);
      FindNone(now, name);
    }
  }

  // ---------------------------------------------------------------- the tree as a map

  function Lookup(n: Node, path: Path): Option<Node>
    decreases |path|
  {
    if path == [] then Some(n)
    else
      match FindChild(n.children, path[0])
      case None => None
      case Some(c) => Lookup(c, path[1..])
  }

  function At(n: Node, path: Path): Option<Entry> {
    match Lookup(n, path)
    case None => None
    case Some(m) => Some(m.entry)
  }

  lemma AtStep(n: Node, path: Path)
    ensures At(n, []) == Some(n.entry)
    ensures path != [] ==>
      At(n, path) == match FindChild(n.children, path[0]) case None => None case Some(c) => At(c, path[1..])
    ensures |path| == 1 ==>
      At(n, path) == match FindChild(n.children, path[0]) case None => None case Some(c) => Some(c.entry)
  {
    if |path| == 1 {
      assert path[1..] == [];
    }
  }

  // ---------------------------------------------------------------- the operations

  // What the type library answers: a new FB, perhaps with FBs of its own, or an error.
  datatype Made = Made(fb: Node) | Refused(error: Response)

  function CreateHere(n: Node, name: int, made: Made): (Node, Response) {
    var k := ChildIndex(n.children, name);
    if !n.entry.dynamic then (n, InvalidDst)
    else if IsChild(n.children, k, name) then (n, InvalidState)
    else if made.Refused? then (n, made.error)
    else (n.(children := Inserted(n.children, k, made.fb)), Ready)
  }

  // The children with a container of that name, and where it is.
  function FindOrCreateContainer(children: seq<Node>, name: int): (r: (seq<Node>, nat))
    ensures r.1 < |r.0|
  {
    var k := ChildIndex(children, name);
    if IsChild(children, k, name) then (children, k) else (Inserted(children, k, Node(name, CONTAINER, [])), k)
  }

  function Create(n: Node, path: Path, made: Made): (Node, Response)
    decreases |path|
  {
    if path == [] then (n, InvalidDst)
    else if |path| == 1 then CreateHere(n, path[0], made)
    else if !n.entry.dynamic then (n, InvalidDst)
    else
      var (children, k) := FindOrCreateContainer(n.children, path[0]);
      if !children[k].entry.dynamic then (n.(children := children), InvalidDst)
      else
        var (child, response) := Create(children[k], path[1..], made);
        (n.(children := children[k := child]), response)
  }

  // isCurrentlyDeleteable
  predicate CurrentlyDeletable(e: Entry) {
    e.deletable && e.state != Running && e.references == 0
  }

  function Delete(n: Node, path: Path): (Node, Response)
    decreases |path|
  {
    if path == [] then (n, NoSuchObject)
    else
      var k := ChildIndex(n.children, path[0]);
      if !IsChild(n.children, k, path[0]) then (n, NoSuchObject)
      else
        var child := n.children[k];
        if |path| > 1 then
          if !child.entry.dynamic then (n, NoSuchObject)
          else
            var (now, response) := Delete(child, path[1..]);
            (n.(children := n.children[k := now]), response)
        else if !child.entry.isFB then (n, NoSuchObject)
        else if !CurrentlyDeletable(child.entry) then (n, InvalidState)
        else (n.(children := Erased(n.children, k)), Ready)
  }

  // getFB: what is found, and how many names it took.
  function GetFB(n: Node, path: Path): (r: (Option<Node>, nat))
    ensures r.1 <= |path|
    decreases |path|
  {
    var k := if path == [] then 0 else ChildIndex(n.children, path[0]);
    if path != [] && IsChild(n.children, k, path[0]) then
      var (found, used) := GetFB(n.children[k], path[1..]);
      (found, used + 1)
    else (if n.entry.isFB then Some(n) else None, 0)
  }

  // ---------------------------------------------------------------- creating

  // Names are numbers from zero on, and zero is the empty name.
  predicate Legal(path: Path) {
    forall k :: 0 <= k < |path| ==> path[k] >= 0
  }

  predicate Named(path: Path) {
    forall k :: 0 <= k < |path| ==> path[k] > 0
  }

  predicate Fitting(made: Made, path: Path) {
    path != [] && (made.Made? ==> made.fb.entry.isFB && made.fb.name == path[|path| - 1] && Sorted(made.fb))
  }

  // Nothing that exists on the way is closed for new FBs.
  predicate Open(n: Node, path: Path)
    requires path != []
    decreases |path|
  {
    n.entry.dynamic &&
    (|path| > 1 ==>
       match FindChild(n.children, path[0])
       case None => true
       case Some(c) => Open(c, path[1..]))
  }

  // Open says that every proper prefix of the path that exists is dynamic.
  lemma {:induction false} OpenMeans(n: Node, path: Path)
    requires path != []
    ensures Open(n, path) <==> forall k :: 0 <= k < |path| && At(n, path[..k]).Some? ==> At(n, path[..k]).value.dynamic
    decreases |path|
  {
    assert path[..0] == [];
    if |path| > 1 && FindChild(n.children, path[0]).Some? {
      var c := FindChild(n.children, path[0]).value;
      OpenMeans(c, path[1..]);
      forall k | 0 < k < |path| ensures At(n, path[..k]) == At(c, path[1..][..k - 1]) {
        assert path[..k][1..] == path[1..][..k - 1];
      }
      forall k | 0 <= k < |path| - 1 ensures At(c, path[1..][..k]) == At(n, path[..k + 1]) {
      }
    }
  }

  function Outcome(n: Node, path: Path, made: Made): Response
    requires path != []
  {
    if !Open(n, path) then InvalidDst
    else if At(n, path).Some? then InvalidState
    else if made.Refused? then made.error
    else Ready
  }

  // The map after a creation: the new FB with what it contains, and the containers that were missing on the way, even
  // when the creation has failed.
  function Created(n: Node, path: Path, made: Made, q: Path): Option<Entry>
    requires path != []
  {
    if made.Made? && Outcome(n, path, made) == Ready && path <= q then At(made.fb, q[|path|..])
    else if Open(n, path) && q < path && At(n, q).None? then Some(CONTAINER)
    else At(n, q)
  }

  lemma NewContainer(name: int, path: Path)
    ensures At(Node(name, CONTAINER, []), path) == if path == [] then Some(CONTAINER) else None
    ensures path != [] ==> Open(Node(name, CONTAINER, []), path)
  {
  }

  // A creation puts no node under the empty name: there is none in the path, or the path is closed, or only the FB
  // would have it and there is no FB.
  predicate KeepsNames(n: Node, path: Path, made: Made)
    requires path != []
  {
    Named(path) || !Open(n, path) || (Named(path[..|path| - 1]) && made.Refused?)
  }

  lemma ContainerFound(children: seq<Node>, name: int)
    requires Ordered(children)
    ensures var (now, k) := FindOrCreateContainer(children, name);
            && (name > 0 ==> Ordered(now)) && now[k].name == name
            && now[k] == match FindChild(children, name) case None => Node(name, CONTAINER, []) case Some(c) => c
  {
    IndexFinds(children, name);
    if FindChild(children, name).None? && name > 0 {
      InsertKeepsOrder(children, Node(name, CONTAINER, []));
    }
  }

  lemma FindInFound(children: seq<Node>, name: int, c: Node, other: int)
    requires Ordered(children) && c.name == name
    ensures var (now, k) := FindOrCreateContainer(children, name);
            && (name > 0 ==> Ordered(now[k := c]))
            && FindChild(now[k := c], other) == if other == name then Some(c) else FindChild(children, other)
  {
    var (now, k) := FindOrCreateContainer(children, name);
    IndexFinds(children, name);
    if FindChild(children, name).Some? {
      FindUpdated(children, k, c, other);
    } else {
      assert now[k := c] == Inserted(children, k, c);
      FindInserted(children, k, c, other);
      if name > 0 {
        InsertKeepsOrder(children, c);
      }
    }
  }

  lemma HereSorted(n: Node, c: Node)
    requires Sorted(n) && Sorted(c) && c.name >= 0 && FindChild(n.children, c.name).None?
    ensures Sorted(n.(children := Inserted(n.children, ChildIndex(n.children, c.name), c))) <==> c.name > 0
  {
    if c.name > 0 {
      SortedInsert(n, c);
    } else {
      assert Inserted(n.children, ChildIndex(n.children, c.name), c)[ChildIndex(n.children, c.name)] == c;
    }
  }

  lemma HereOutcome(n: Node, path: Path, made: Made)
    requires Ordered(n.children) && |path| == 1
    ensures CreateHere(n, path[0], made).1 == Outcome(n, path, made)
    ensures var inserts := n.entry.dynamic && FindChild(n.children, path[0]).None? && made.Made?;
            CreateHere(n, path[0], made).0 ==
            if inserts then n.(children := Inserted(n.children, ChildIndex(n.children, path[0]), made.fb)) else n
  {
    IndexFinds(n.children, path[0]);
    AtStep(n, path);
  }

  lemma KeepsNamesHere(n: Node, path: Path, made: Made)
    requires |path| == 1
    ensures KeepsNames(n, path, made) <==> path[0] > 0 || !n.entry.dynamic || made.Refused?
  {
    assert path[..0] == [];
  }

  lemma CreateHereAnswers(n: Node, path: Path, made: Made)
    requires Sorted(n) && Legal(path) && Fitting(made, path) && |path| == 1
    ensures var (now, response) := CreateHere(n, path[0], made);
            && response == Outcome(n, path, made)
            && now.name == n.name && now.entry == n.entry
    ensures Sorted(CreateHere(n, path[0], made).0) <==> KeepsNames(n, path, made)
  {
    HereOutcome(n, path, made);
    KeepsNamesHere(n, path, made);
    if made.Made? && n.entry.dynamic && FindChild(n.children, path[0]).None? {
      HereSorted(n, made.fb);
    } else {
      FindNone(n.children, path[0]);
      assert CreateHere(n, path[0], made).0 == n;
    }
  }

  lemma SortedInsert(n: Node, c: Node)
    requires Sorted(n) && Sorted(c) && c.name > 0 && FindChild(n.children, c.name).None?
    ensures Sorted(n.(children := Inserted(n.children, ChildIndex(n.children, c.name), c)))
  {
    var k := ChildIndex(n.children, c.name);
    var now := Inserted(n.children, k, c);
    InsertKeepsOrder(n.children, c);
    forall i | 0 <= i < |now| ensures Sorted(now[i]) {
      InsertedAt(n.children, k, c, i);
    }
  }

  // The child that the first name of a path leads to, or the container it would be
  function Next(n: Node, name: int): Node {
    match FindChild(n.children, name)
    case None => Node(name, CONTAINER, [])
    case Some(c) => c
  }

  lemma OutcomeStep(n: Node, path: Path, made: Made)
    requires |path| > 1
    ensures Outcome(n, path, made) ==
            if n.entry.dynamic then Outcome(Next(n, path[0]), path[1..], made) else InvalidDst
  {
    AtStep(n, path);
    NewContainer(path[0], path[1..]);
  }

  lemma KeepsNamesStep(n: Node, path: Path, made: Made)
    requires |path| > 1 && Legal(path)
    ensures KeepsNames(n, path, made) <==>
            !n.entry.dynamic || (if path[0] > 0 then KeepsNames(Next(n, path[0]), path[1..], made)
                                 else !Open(Next(n, path[0]), path[1..]))
  {
    var rest := path[1..];
    NewContainer(path[0], rest);
    NamedStep(path);
    NamedStep(path[..|path| - 1]);
    assert path[..|path| - 1][1..] == rest[..|rest| - 1];
  }

  lemma NamedStep(path: Path)
    requires path != []
    ensures Named(path) <==> path[0] > 0 && Named(path[1..])
  {
    assert path == [path[0]] + path[1..];
  }

  // A creation answers as the map says, and keeps the tree sorted exactly unless it puts a node under the empty name.
  lemma {:induction false} CreateAnswers(n: Node, path: Path, made: Made)
    requires Sorted(n) && Legal(path) && Fitting(made, path)
    ensures var (now, response) := Create(n, path, made);
            && response == Outcome(n, path, made)
            && now.name == n.name && now.entry == n.entry && (Sorted(now) <==> KeepsNames(n, path, made))
    decreases |path|
  {
    if |path| == 1 {
      CreateHereAnswers(n, path, made);
    } else {
      OutcomeStep(n, path, made);
      KeepsNamesStep(n, path, made);
      if n.entry.dynamic {
        IndexFinds(n.children, path[0]);
        ContainerFound(n.children, path[0]);
        CreateAnswers(Next(n, path[0]), path[1..], made);
        SortedStep(n, path[0], Create(Next(n, path[0]), path[1..], made).0);
      }
    }
  }

  lemma SortedStep(n: Node, name: int, child: Node)
    requires Sorted(n) && name >= 0 && child.name == name
    ensures var (children, k) := FindOrCreateContainer(n.children, name);
            && (Sorted(n.(children := children)) <==> name > 0)
            && (Sorted(n.(children := children[k := child])) <==> name > 0 && Sorted(child))
  {
    IndexFinds(n.children, name);
    FindInFound(n.children, name, child, name);
    var (children, k) := FindOrCreateContainer(n.children, name);
    ContainerFound(n.children, name);
    assert children[k := child][k] == child;
    assert forall i :: 0 <= i < |children| ==> Sorted(children[i]);
    if Sorted(child) {
      SortedUpdate(children, k, child, children[k := child]);
    }
  }

  lemma SortedUpdate(children: seq<Node>, k: nat, c: Node, now: seq<Node>)
    requires k < |children| && Sorted(c) && now == children[k := c]
    requires forall i :: 0 <= i < |children| ==> Sorted(children[i])
    ensures forall i :: 0 <= i < |children| ==> Sorted(now[i])
  {
  }

  // What every path leads to after a creation
  lemma {:induction false} CreateMaps(n: Node, path: Path, made: Made, q: Path)
    requires Sorted(n) && Legal(path) && Fitting(made, path)
    ensures At(Create(n, path, made).0, q) == Created(n, path, made, q)
    decreases |path|
  {
    if q == [] {
      CreateAnswers(n, path, made);
    } else if |path| == 1 {
      CreateMapsHere(n, path, made, q);
    } else {
      IndexFinds(n.children, path[0]);
      var c := Next(n, path[0]);
      if n.entry.dynamic && c.entry.dynamic {
        CreateMaps(c, path[1..], made, q[1..]);
        CreateStep(n, c, path, made, q);
        CreatedStep(n, c, path, made, q);
      } else {
        CreateClosed(n, c, path, made);
      }
    }
  }

  // What the first name of a path leads to after a creation
  lemma CreateStep(n: Node, c: Node, path: Path, made: Made, q: Path)
    requires Sorted(n) && Legal(path) && Fitting(made, path) && |path| > 1 && q != []
    requires n.entry.dynamic && c.entry.dynamic
    requires c == Next(n, path[0])
    ensures At(Create(n, path, made).0, q) ==
            if q[0] == path[0] then At(Create(c, path[1..], made).0, q[1..]) else At(n, q)
  {
    IndexFinds(n.children, path[0]);
    ContainerFound(n.children, path[0]);
    CreateAnswers(c, path[1..], made);
    FindInFound(n.children, path[0], Create(c, path[1..], made).0, q[0]);
    AtStep(n, q);
    AtStep(Create(n, path, made).0, q);
  }

  lemma CreateClosed(n: Node, c: Node, path: Path, made: Made)
    requires Sorted(n) && |path| > 1 && (!n.entry.dynamic || !c.entry.dynamic)
    requires c == Next(n, path[0])
    ensures Create(n, path, made).0 == n && !Open(n, path)
  {
    IndexFinds(n.children, path[0]);
    ContainerFound(n.children, path[0]);
    if n.entry.dynamic {
      assert !Open(c, path[1..]);
    }
  }

  // The map after a creation, below the first name of the path
  lemma CreatedStep(n: Node, c: Node, path: Path, made: Made, q: Path)
    requires |path| > 1 && q != [] && n.entry.dynamic
    requires c == Next(n, path[0])
    ensures Created(n, path, made, q) == if q[0] == path[0] then Created(c, path[1..], made, q[1..]) else At(n, q)
  {
    AtStep(n, path);
    AtStep(n, q);
    PrefixStep(path, q);
    NewContainer(path[0], path[1..]);
    NewContainer(path[0], q[1..]);
  }

  lemma CreateMapsHere(n: Node, path: Path, made: Made, q: Path)
    requires Sorted(n) && Legal(path) && Fitting(made, path) && |path| == 1 && q != []
    ensures At(Create(n, path, made).0, q) == Created(n, path, made, q)
  {
    IndexFinds(n.children, path[0]);
    CreateHereAnswers(n, path, made);
    var k := ChildIndex(n.children, path[0]);
    var now := Create(n, path, made).0;
    AtStep(n, q);
    AtStep(now, q);
    if Outcome(n, path, made) == Ready && made.Made? {
      FindInserted(n.children, k, made.fb, q[0]);
      assert path == [path[0]];
      assert path <= q <==> q[0] == path[0];
      assert q[1..] == q[|path|..];
    }
  }

  lemma PrefixStep(path: Path, q: Path)
    requires path != [] && q != []
    ensures path <= q <==> path[0] == q[0] && path[1..] <= q[1..]
    ensures q < path <==> path[0] == q[0] && q[1..] < path[1..]
    ensures path <= q ==> q[|path|..] == q[1..][|path[1..]|..]
  {
    assert path == [path[0]] + path[1..] && q == [q[0]] + q[1..];
  }

  // ---------------------------------------------------------------- deleting

  // Every container on the way exists and is dynamic.
  predicate Reaches(n: Node, path: Path) {
    forall k :: 0 < k < |path| ==> At(n, path[..k]).Some? && At(n, path[..k]).value.dynamic
  }

  lemma ReachesStep(n: Node, path: Path)
    requires |path| > 1
    ensures Reaches(n, path) <==>
            match FindChild(n.children, path[0])
            case None => false
            case Some(c) => c.entry.dynamic && Reaches(c, path[1..])
  {
    assert path[..1] == [path[0]];
    AtStep(n, path[..1]);
    if FindChild(n.children, path[0]).Some? {
      var c := FindChild(n.children, path[0]).value;
      forall k | 1 < k < |path| ensures At(n, path[..k]) == At(c, path[1..][..k - 1]) {
        assert path[..k][1..] == path[1..][..k - 1];
      }
      if Reaches(n, path) {
        forall k | 0 < k < |path| - 1
          ensures At(c, path[1..][..k]).Some? && At(c, path[1..][..k]).value.dynamic
        {
          assert At(n, path[..k + 1]) == At(c, path[1..][..k]);
        }
      }
    }
  }

  function DeleteOutcome(n: Node, path: Path): Response {
    if path == [] || !Reaches(n, path) || At(n, path).None? || !At(n, path).value.isFB then NoSuchObject
    else
      var e := At(n, path).value;
      if e.deletable && e.state != Running && e.references == 0 then Ready else InvalidState
  }

  // A deletion keeps the tree sorted, and answers as the map says.
  lemma {:induction false} DeleteAnswers(n: Node, path: Path)
    requires Sorted(n)
    ensures var (now, response) := Delete(n, path);
            && response == DeleteOutcome(n, path)
            && Sorted(now) && now.name == n.name && now.entry == n.entry
    decreases |path|
  {
    if path != [] {
      IndexFinds(n.children, path[0]);
      var k := ChildIndex(n.children, path[0]);
      AtStep(n, path);
      if |path| > 1 {
        ReachesStep(n, path);
        if IsChild(n.children, k, path[0]) {
          DeleteAnswers(n.children[k], path[1..]);
          FindUpdated(n.children, k, Delete(n.children[k], path[1..]).0, path[0]);
        }
      } else {
        if IsChild(n.children, k, path[0]) {
          FindErased(n.children, k, path[0]);
        }
      }
    }
  }

  // A deletion further down changes one child.
  lemma DeletedDeeper(n: Node, path: Path, k: nat, q: Path)
    requires Sorted(n) && |path| > 1 && q != [] && k == ChildIndex(n.children, path[0])
    requires IsChild(n.children, k, path[0]) && n.children[k].entry.dynamic
    ensures Delete(n, path).1 == Delete(n.children[k], path[1..]).1 && Sorted(n.children[k])
    ensures At(Delete(n, path).0, q) ==
            if q[0] == path[0] then At(Delete(n.children[k], path[1..]).0, q[1..]) else At(n, q)
    ensures q[0] == path[0] ==> At(n, q) == At(n.children[k], q[1..])
  {
    var now := Delete(n.children[k], path[1..]).0;
    DeleteAnswers(n.children[k], path[1..]);
    IndexFinds(n.children, path[0]);
    FindUpdated(n.children, k, now, q[0]);
    AtStep(n, q);
    AtStep(n.(children := n.children[k := now]), q);
  }

  lemma {:induction false} DeletedMaps(n: Node, path: Path, q: Path)
    requires Sorted(n)
    ensures At(Delete(n, path).0, q) == if Delete(n, path).1 == Ready && path <= q then None else At(n, q)
    decreases |path|
  {
    if path != [] && q != [] {
      IndexFinds(n.children, path[0]);
      PrefixStep(path, q);
      var k := ChildIndex(n.children, path[0]);
      if IsChild(n.children, k, path[0]) {
        if |path| == 1 {
          FindErased(n.children, k, q[0]);
        } else if n.children[k].entry.dynamic {
          DeletedDeeper(n, path, k, q);
          DeletedMaps(n.children[k], path[1..], q[1..]);
        }
      }
    }
  }

  // What every path leads to after a deletion: nothing, at the path itself and below, and what it did elsewhere.
  lemma DeleteMaps(n: Node, path: Path, q: Path)
    requires Sorted(n)
    ensures At(Delete(n, path).0, q) ==
            if DeleteOutcome(n, path) == Ready && path <= q then None else At(n, q)
  {
    DeleteAnswers(n, path);
    DeletedMaps(n, path, q);
  }

  lemma {:induction false} NothingBelowNothing(n: Node, path: Path, q: Path)
    requires path <= q && At(n, path).None?
    ensures At(n, q).None?
    decreases |path|
  {
    if path != [] && FindChild(n.children, path[0]).Some? {
      PrefixStep(path, q);
      NothingBelowNothing(FindChild(n.children, path[0]).value, path[1..], q[1..]);
    }
  }

  // What can be deleted has a name, and so has every container on the way.
  lemma {:induction false} DeleteNeedsNames(n: Node, path: Path)
    requires Legal(path) && Delete(n, path).1 == Ready
    ensures Named(path)
    decreases |path|
  {
    NamedStep(path);
    if |path| > 1 {
      DeleteNeedsNames(n.children[ChildIndex(n.children, path[0])], path[1..]);
    }
  }

  // Deleting what was created leaves the map of before, with the containers that were missing.
  lemma DeleteUndoesCreate(n: Node, path: Path, made: Made, q: Path)
    requires Sorted(n) && Legal(path) && Fitting(made, path) && made.Made?
    requires Create(n, path, made).1 == Ready && Delete(Create(n, path, made).0, path).1 == Ready
    ensures At(Delete(Create(n, path, made).0, path).0, q) ==
            if q < path && At(n, q).None? then Some(CONTAINER) else At(n, q)
  {
    DeleteNeedsNames(Create(n, path, made).0, path);
    CreateAnswers(n, path, made);
    CreateMaps(n, path, made, q);
    DeleteAnswers(Create(n, path, made).0, path);
    DeleteMaps(Create(n, path, made).0, path, q);
    if path <= q {
      NothingBelowNothing(n, path, q);
    }
  }

  // ---------------------------------------------------------------- finding

  // getFB resolves the longest prefix of the path that exists.
  lemma {:induction false} GetFBLongest(n: Node, path: Path)
    requires Sorted(n)
    ensures var (found, used) := GetFB(n, path);
            && Lookup(n, path[..used]).Some?
            && (forall k :: used < k <= |path| ==> Lookup(n, path[..k]).None?)
            && found == if Lookup(n, path[..used]).value.entry.isFB then Lookup(n, path[..used]) else None
    decreases |path|
  {
    assert path[..0] == [];
    if path != [] {
      IndexFinds(n.children, path[0]);
      var i := ChildIndex(n.children, path[0]);
      if IsChild(n.children, i, path[0]) {
        var c := n.children[i];
        GetFBLongest(c, path[1..]);
        forall k | 0 < k <= |path| ensures Lookup(n, path[..k]) == Lookup(c, path[1..][..k - 1]) {
          assert path[..k][1..] == path[1..][..k - 1];
        }
      }
    }
  }

  // ---------------------------------------------------------------- the empty name

  // A finding: an FB with the empty name goes to the end, which is its place exactly when there is no other child.
  lemma EmptyNameOrder(children: seq<Node>, fb: Node)
    requires Ordered(children) && fb.name == 0
    ensures var now := Inserted(children, ChildIndex(children, 0), fb);
            (forall i, j :: 0 <= i < j < |now| ==> now[i].name < now[j].name) <==> children == []
  {
    var now := Inserted(children, ChildIndex(children, 0), fb);
    if children != [] {
      assert now[0] == children[0] && now[|children|] == fb;
    }
  }
}
