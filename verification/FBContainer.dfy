/** The containers and function blocks of core/src/fbcontainer.cpp and core/src/funcbloc.cpp as objects that hold their
    children. What a method does to the objects is what modules FBTree and FBPaths say of the tree. */
module FBContainer {
  import opened Management
  import opened Options
  import opened Seqs
  import opened FBTree
  import opened FBPaths

  // Objects that are trees of their own within a set of objects
  ghost predicate Family(objects: seq<Container>, trees: seq<Node>, all: set<Container>)
    reads all
    decreases all, 2
  {
    && |trees| == |objects|
    && (forall i :: 0 <= i < |objects| ==>
          objects[i] in all && objects[i].repr <= all && objects[i].tree == trees[i] && objects[i].Valid())
    && (forall i, j :: 0 <= i < j < |objects| ==> objects[i].repr !! objects[j].repr)
  }

  lemma FamilyInsert(objects: seq<Container>, trees: seq<Node>, all: set<Container>, k: nat, c: Container)
    requires Family(objects, trees, all) && k <= |objects| && c.Valid() && c.repr !! all
    ensures Family(Inserted(objects, k, c), Inserted(trees, k, c.tree), all + c.repr)
  {
    var now := Inserted(objects, k, c);
    forall i | 0 <= i < |now|
      ensures now[i] == (if i < k then objects[i] else if i == k then c else objects[i - 1])
      ensures Inserted(trees, k, c.tree)[i] == now[i].tree
    {
    }
  }

  lemma FamilyErase(objects: seq<Container>, trees: seq<Node>, all: set<Container>, k: nat)
    requires Family(objects, trees, all) && k < |objects|
    ensures Family(Erased(objects, k), Erased(trees, k), all - objects[k].repr)
  {
    var now := Erased(objects, k);
    forall i | 0 <= i < |now|
      ensures now[i] == objects[if i < k then i else i + 1]
      ensures Erased(trees, k)[i] == now[i].tree
    {
    }
  }

  lemma EraseInsert<T>(s: seq<T>, k: nat, x: T)
    requires k < |s|
    ensures Inserted(Erased(s, k), k, x) == s[k := x]
  {
  }

  // One of the objects has changed, and the others have not.
  lemma FamilyUpdate(objects: seq<Container>, trees: seq<Node>, rest: set<Container>, k: nat)
    requires k < |objects| == |trees| && Family(Erased(objects, k), Erased(trees, k), rest)
    requires objects[k].Valid() && objects[k].repr !! rest
    ensures Family(objects, trees[k := objects[k].tree], rest + objects[k].repr)
  {
    FamilyInsert(Erased(objects, k), Erased(trees, k), rest, k, objects[k]);
    EraseInsert(objects, k, objects[k]);
    EraseInsert(trees, k, objects[k].tree);
    assert objects[k := objects[k]] == objects;
  }

  class Container {
    const name: int
    const isFB: bool
    const dynamic: bool
    var state: State
    var deletable: bool
    var references: nat
    var children: seq<Container>

    // All objects of the tree, and the tree itself
    ghost var repr: set<Container>
    ghost var tree: Node

    ghost predicate Valid()
      reads this, repr
      decreases repr, 1
    {
      && this in repr
      && tree.name == name && tree.entry == Entry(isFB, dynamic, state, deletable, references)
      && Family(children, tree.children, repr - {this})
    }

    constructor (name: int, isFB: bool, dynamic: bool, deletable: bool)
      ensures Valid() && fresh(repr) && tree == Node(name, Entry(isFB, dynamic, Idle, deletable, 0), [])
    {
      this.name, this.isFB, this.dynamic, this.deletable := name, isFB, dynamic, deletable;
      state, references, children := Idle, 0, [];
      repr, tree := {this}, Node(name, Entry(isFB, dynamic, Idle, deletable, 0), []);
    }

    // ---------------------------------------------------------------- execution states

    // The switch of CFunctionBlock::changeExecutionState
    method SwitchState(command: Command) returns (response: Response)
      modifies this`state
      ensures (state, response) == OwnStep(old(state), command)
    {
      response := InvalidState;
      match command
      case Start =>
        if state == Idle || state == Stopped {
          state, response := Running, Ready;
        }
      case Stop =>
        if state == Running {
          state, response := Stopped, Ready;
        }
      case Kill =>
        if state == Running {
          state, response := Killed, Ready;
        }
      case Reset =>
        if state == Stopped || state == Killed {
          state, response := Idle, Ready;
        }
      case Unknown =>
        response := InvalidOperation;
    }

    // One pass of the loop in CFBContainer::changeExecutionState
    method ChangeChild(i: nat, command: Command, ghost trees: seq<Node>, ghost all: set<Container>)
      returns (response: Response)
      requires i < |children| && this in repr && all == repr - {this} && Family(children, trees, all)
      modifies children[i].repr
      ensures var (child, own) := Change(trees[i], command);
              && Family(children, trees[i := child], all)
              && response == if own != Ready && child.entry.isFB then Excuse(child.entry.state, command) else own
      decreases repr, 0
    {
      var child := children[i];
      ghost var rest := all - child.repr;
      FamilyErase(children, trees, all, i);
      response := child.ChangeExecutionState(command);
      FamilyUpdate(children, trees, rest, i);
      assert rest + child.repr == all;
      if response != Ready && child.isFB {
        response := Excuse(child.state, command);
      }
    }

    // CFBContainer::changeExecutionState: the children in order, up to one that fails without excuse
    method ChangeChildren(command: Command, ghost was: seq<Node>) returns (response: Response, ghost now: seq<Node>)
      requires this in repr && Family(children, was, repr - {this})
      modifies repr - {this}
      ensures Family(children, now, repr - {this}) && (now, response) == ChangeAll(was, command)
      decreases repr, 1
    {
      response, now := Ready, was;
      ChangedStart(was, command);
      var i := 0;
      while i < |children| && response == Ready
        invariant i <= |children| == |was| == |now| && Family(children, now, repr - {this})
        invariant now[i..] == was[i..]
        invariant ChangedSoFar(was, now, i, command, response)
      {
        response := ChangeChild(i, command, now, repr - {this});
        ChangedStep(was, now, i, command);
        now := now[i := Change(was[i], command).0];
        i := i + 1;
      }
      ChangedEnd(was, now, i, command, response);
    }

    // CFunctionBlock::changeExecutionState, and the one of a container that is none
    method ChangeExecutionState(command: Command) returns (response: Response)
      requires Valid()
      modifies repr
      ensures Valid() && repr == old(repr) && children == old(children)
      ensures (tree, response) == Change(old(tree), command)
      decreases repr, 2
    {
      if isFB {
        response := SwitchState(command);
        if response != Ready {
          return;
        }
      }
      ghost var now;
      response, now := ChangeChildren(command, tree.children);
      tree := tree.(entry := tree.entry.(state := state), children := now);
    }

    // ---------------------------------------------------------------- children by name

    lemma NameOfTree(i: nat)
      requires Valid() && i < |children|
      ensures i < |tree.children|
      ensures children[i].name == tree.children[i].name
      ensures tree.children[i].entry ==
              Entry(children[i].isFB, children[i].dynamic, children[i].state, children[i].deletable,
                    children[i].references)
    {
      assert children[i].Valid();
    }

    // std::lower_bound halves the range of the children that may be the first one whose name is not less.
    method GetChildrenIterator(wanted: int) returns (k: nat)
      requires Valid() && Ordered(tree.children)
      ensures k == ChildIndex(tree.children, wanted)
    {
      if wanted == 0 || children == [] {
        return |children|;
      }
      k := 0;
      var count := |children|;
      while count > 0
        invariant 0 <= count && k + count <= |children|
        invariant forall i :: 0 <= i < k ==> tree.children[i].name < wanted
        invariant forall i :: k + count <= i < |children| ==> tree.children[i].name >= wanted
      {
        var half := count / 2;
        NameOfTree(k + half);
        if children[k + half].name < wanted {
          k, count := k + half + 1, count - half - 1;
        } else {
          count := half;
        }
      }
      PositionUnique(tree.children, wanted, k);
    }

    // isChild
    method HasChild(k: nat, wanted: int) returns (found: bool)
      requires Valid() && k <= |children|
      ensures found == IsChild(tree.children, k, wanted)
    {
      if k < |children| {
        NameOfTree(k);
      }
      found := k < |children| && children[k].name == wanted;
    }

    // mChildren.insert with a tree that is not part of this one
    method InsertChild(k: nat, child: Container)
      requires Valid() && k <= |children| == |tree.children| && child.Valid() && child.repr !! repr
      modifies this`children, this`repr, this`tree
      ensures Valid() && repr == old(repr) + child.repr
      ensures children == Inserted(old(children), k, child)
      ensures tree == old(tree).(children := Inserted(old(tree.children), k, child.tree))
    {
      ghost var all := repr - {this};
      FamilyInsert(children, tree.children, all, k, child);
      children := Inserted(children, k, child);
      repr := repr + child.repr;
      tree := tree.(children := Inserted(tree.children, k, child.tree));
      assert repr - {this} == all + child.repr;
    }

    method FindOrCreateContainer(wanted: int) returns (k: nat)
      requires Valid() && Ordered(tree.children)
      modifies this`children, this`repr, this`tree
      ensures Valid() && old(repr) <= repr && fresh(repr - old(repr)) && k < |children|
      ensures (tree.children, k) == FBPaths.FindOrCreateContainer(old(tree.children), wanted)
      ensures tree == old(tree).(children := tree.children)
    {
      k := GetChildrenIterator(wanted);
      var found := HasChild(k, wanted);
      if !found {
        var child := new Container(wanted, false, true, false);
        InsertChild(k, child);
      }
    }

    // ---------------------------------------------------------------- creating, deleting and finding

    // createFB in this container: the type library gives a new FB, or an error.
    method CreateHere(wanted: int, fb: Container?, error: Response) returns (response: Response)
      requires Valid() && Ordered(tree.children)
      requires fb != null ==> fb.Valid() && fb.repr !! repr
      modifies this`children, this`repr, this`tree
      ensures Valid() && old(repr) <= repr <= old(repr) + ReprOf(fb)
      ensures (tree, response) == FBPaths.CreateHere(old(tree), wanted, MadeOf(fb, error))
    {
      if !dynamic {
        return InvalidDst;
      }
      var k := GetChildrenIterator(wanted);
      var found := HasChild(k, wanted);
      if found {
        return InvalidState;
      }
      if fb == null {
        return error;
      }
      InsertChild(k, fb);
      response := Ready;
    }

    // createFB along a path; the containers that were missing stay, whatever becomes of the FB.
    method CreateFB(path: Path, fb: Container?, error: Response) returns (response: Response)
      requires Valid() && Sorted(tree)
      requires fb != null ==> fb.Valid() && fb.repr !! repr
      modifies repr
      ensures Valid() && old(repr) <= repr && fresh(repr - old(repr) - old(ReprOf(fb)))
      ensures (tree, response) == Create(old(tree), path, old(MadeOf(fb, error)))
      decreases |path|, 0
    {
      if path == [] {
        return InvalidDst;
      }
      if |path| == 1 {
        response := CreateHere(path[0], fb, error);
        return;
      }
      if !dynamic {
        return InvalidDst;
      }
      ContainerFound(tree.children, path[0]);
      var k := FindOrCreateContainer(path[0]);
      NameOfTree(k);
      var child := children[k];
      if !child.dynamic {
        return InvalidDst;
      }
      response := CreateInChild(k, path[1..], fb, error);
    }

    method CreateInChild(k: nat, path: Path, fb: Container?, error: Response) returns (response: Response)
      requires Valid() && k < |children| == |tree.children| && Sorted(tree.children[k])
      requires fb != null ==> fb.Valid() && fb.repr !! repr
      modifies repr
      ensures Valid() && old(repr) <= repr && fresh(repr - old(repr) - old(ReprOf(fb)))
      ensures var (child, own) := Create(old(tree).children[k], path, old(MadeOf(fb, error)));
              tree == old(tree).(children := old(tree).children[k := child]) && response == own
      decreases |path|, 1
    {
      var child := children[k];
      ghost var rest := repr - {this} - child.repr;
      FamilyErase(children, tree.children, repr - {this}, k);
      response := child.CreateFB(path, fb, error);
      FamilyUpdate(children, tree.children, rest, k);
      repr := repr + child.repr;
      tree := tree.(children := tree.children[k := child.tree]);
      assert repr - {this} == rest + child.repr;
    }

    // deleteFB along a path
    method DeleteFB(path: Path) returns (response: Response)
      requires Valid() && Sorted(tree)
      modifies repr
      ensures Valid() && repr <= old(repr)
      ensures (tree, response) == Delete(old(tree), path)
      decreases |path|, 0
    {
      if path == [] {
        return NoSuchObject;
      }
      var k := GetChildrenIterator(path[0]);
      var found := HasChild(k, path[0]);
      if !found {
        return NoSuchObject;
      }
      NameOfTree(k);
      var child := children[k];
      if |path| > 1 {
        if !child.dynamic {
          return NoSuchObject;
        }
        response := DeleteInChild(k, path[1..]);
      } else if !child.isFB {
        return NoSuchObject;
      } else if child.deletable && child.state != Running && child.references == 0 {
        EraseChild(k);
        response := Ready;
      } else {
        response := InvalidState;
      }
    }

    method DeleteInChild(k: nat, path: Path) returns (response: Response)
      requires Valid() && k < |children| == |tree.children| && Sorted(tree.children[k])
      modifies repr
      ensures Valid() && repr <= old(repr)
      ensures var (child, own) := Delete(old(tree).children[k], path);
              tree == old(tree).(children := old(tree).children[k := child]) && response == own
      decreases |path|, 1
    {
      var child := children[k];
      ghost var rest := repr - {this} - child.repr;
      FamilyErase(children, tree.children, repr - {this}, k);
      response := child.DeleteFB(path);
      FamilyUpdate(children, tree.children, rest, k);
      repr := {this} + rest + child.repr;
      tree := tree.(children := tree.children[k := child.tree]);
      assert repr - {this} == rest + child.repr;
    }

    // mChildren.erase of a tree that is deleted with all that it contains
    method EraseChild(k: nat)
      requires Valid() && k < |children| == |tree.children|
      modifies this`children, this`repr, this`tree
      ensures Valid() && repr == old(repr) - old(children[k].repr)
      ensures tree == old(tree).(children := Erased(old(tree).children, k))
    {
      ghost var all := repr - {this};
      FamilyErase(children, tree.children, all, k);
      repr := repr - children[k].repr;
      assert repr - {this} == all - children[k].repr;
      tree := tree.(children := Erased(tree.children, k));
      children := Erased(children, k);
    }

    // getFB: the FB that is found, and how many names of the path it took.
    method GetFB(path: Path) returns (fb: Container?, used: nat)
      requires Valid() && Sorted(tree)
      ensures used == FBPaths.GetFB(tree, path).1
      ensures fb == null <==> FBPaths.GetFB(tree, path).0.None?
      ensures fb != null ==>
        fb in repr && fb.repr <= repr && fb.Valid() && FBPaths.GetFB(tree, path).0 == Some(fb.tree)
      decreases |path|
    {
      if path != [] {
        var k := GetChildrenIterator(path[0]);
        var found := HasChild(k, path[0]);
        if found {
          fb, used := children[k].GetFB(path[1..]);
          used := used + 1;
          return;
        }
      }
      fb, used := if isFB then this else null, 0;
    }
  }

  ghost function ReprOf(fb: Container?): set<Container>
    reads fb
  {
    if fb == null then {} else fb.repr
  }

  ghost function MadeOf(fb: Container?, error: Response): Made
    reads fb
  {
    if fb == null then Refused(error) else Made(fb.tree)
  }

  // ---------------------------------------------------------------- the loop over the children

  // The children's trees when the i-th is next, or when one has failed
  ghost predicate ChangedSoFar(was: seq<Node>, now: seq<Node>, i: nat, command: Command, response: Response)
    requires i <= |was| == |now|
  {
    ChangeAll(was, command) ==
    if response != Ready then (now, response)
    else (now[..i] + ChangeAll(was[i..], command).0, ChangeAll(was[i..], command).1)
  }

  lemma ChangedStart(was: seq<Node>, command: Command)
    ensures ChangedSoFar(was, was, 0, command, Ready)
  {
    assert was[..0] == [] && was[0..] == was;
    assert [] + ChangeAll(was, command).0 == ChangeAll(was, command).0;
  }

  lemma ChangedEnd(was: seq<Node>, now: seq<Node>, i: nat, command: Command, response: Response)
    requires i <= |was| == |now| && (i == |was| || response != Ready)
    requires ChangedSoFar(was, now, i, command, response)
    ensures ChangeAll(was, command) == (now, response)
  {
    assert now[..|now|] + [] == now;
  }

  lemma ChangedStep(was: seq<Node>, before: seq<Node>, i: nat, command: Command)
    requires i < |was| == |before| && before[i..] == was[i..]
    requires ChangedSoFar(was, before, i, command, Ready)
    ensures var (child, own) := Change(was[i], command);
            var response := if own != Ready && child.entry.isFB then Excuse(child.entry.state, command) else own;
            var now := before[i := child];
            before[i] == was[i] && now[i + 1..] == was[i + 1..] && ChangedSoFar(was, now, i + 1, command, response)
  {
    var (child, own) := Change(was[i], command);
    var now := before[i := child];
    var rest := ChangeAll(was[i + 1..], command).0;
    assert was[i..][0] == was[i] && was[i..][1..] == was[i + 1..] && before[i..][1..] == before[i + 1..];
    assert before[i..][0] == before[i];
    assert now[..i + 1] == before[..i] + [child];
    AppendAssoc(before[..i], [child], rest);
    assert now == before[..i] + ([child] + was[i + 1..]);
  }
}
