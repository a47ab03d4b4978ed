/** The tree of function blocks and containers of core/src/fbcontainer.cpp, with the managed states of
    core/src/funcbloc.cpp: what every command does to a tree, as functions on trees. */
module FBTree {
  import opened Management
  import opened Seqs

  datatype State = Idle | Running | Stopped | Killed

  datatype Command = Start | Stop | Kill | Reset | Unknown

  // What a node is, apart from its name and its children. A plain container is dynamic and no FB; a resource is both.
  datatype Entry = Entry(isFB: bool, dynamic: bool, state: State, deletable: bool, references: nat)

  const CONTAINER := Entry(false, true, Idle, false, 0)

  // A name is a number, zero for the empty name; the order is that of the string identifiers.
  datatype Node = Node(name: int, entry: Entry, children: seq<Node>)

  // ---------------------------------------------------------------- execution states

  // CFunctionBlock::changeExecutionState before it turns to the children
  function OwnStep(state: State, command: Command): (State, Response) {
    match command
    case Start => if state == Idle || state == Stopped then (Running, Ready) else (state, InvalidState)
    case Stop => if state == Running then (Stopped, Ready) else (state, InvalidState)
    case Kill => if state == Running then (Killed, Ready) else (state, InvalidState)
    case Reset => if state == Stopped || state == Killed then (Idle, Ready) else (state, InvalidState)
    case Unknown => (state, InvalidOperation)
  }

  // checkForActionEquivalentState
  function Excuse(state: State, command: Command): Response {
    match command
    case Stop => if state == Killed then Ready else InvalidState
    case Kill => if state == Stopped || state == Idle then Ready else InvalidState
    case _ => InvalidState
  }

  function Change(n: Node, command: Command): (Node, Response)
    decreases n
  {
    var (state, own) := if n.entry.isFB then OwnStep(n.entry.state, command) else (n.entry.state, Ready);
    if own != Ready then (n, own)
    else
      var (children, response) := ChangeAll(n.children, command);
      (n.(entry := n.entry.(state := state), children := children), response)
  }

  // A child that fails is excused in an equivalent state; otherwise the rest is left alone.
  function ChangeAll(children: seq<Node>, command: Command): (r: (seq<Node>, Response))
    ensures |r.0| == |children|
    decreases children
  {
    if children == [] then ([], Ready)
    else
      var (child, own) := Change(children[0], command);
      var response := if own != Ready && child.entry.isFB then Excuse(child.entry.state, command) else own;
      if response != Ready then ([child] + children[1..], response)
      else
        var (rest, last) := ChangeAll(children[1..], command);
        ([child] + rest, last)
  }

  // No FB in the tree is running.
  predicate Still(n: Node)
    decreases n
  {
    (n.entry.isFB ==> n.entry.state != Running) && AllStill(n.children)
  }

  predicate AllStill(children: seq<Node>)
    decreases children
  {
    children == [] || (Still(children[0]) && AllStill(children[1..]))
  }

  // No running FB sits below one that is not running.
  predicate NoneHidden(n: Node)
    decreases n
  {
    (n.entry.isFB && n.entry.state != Running ==> AllStill(n.children)) && NoneHiddenIn(n.children)
  }

  predicate NoneHiddenIn(children: seq<Node>)
    decreases children
  {
    children == [] || (NoneHidden(children[0]) && NoneHiddenIn(children[1..]))
  }

  lemma {:induction false} StillHidesNone(n: Node)
    ensures Still(n) ==> NoneHidden(n)
    decreases n
  {
    AllStillHideNone(n.children);
  }

  lemma {:induction false} AllStillHideNone(children: seq<Node>)
    ensures AllStill(children) ==> NoneHiddenIn(children)
    decreases children
  {
    if children != [] {
      StillHidesNone(children[0]);
      AllStillHideNone(children[1..]);
    }
  }

  // When Stop or Kill is ready nothing runs any more, exactly when no running FB was hidden below another.
  lemma {:induction false} StopsAll(n: Node, command: Command)
    requires command == Stop || command == Kill
    requires Change(n, command).1 == Ready
    ensures Still(Change(n, command).0) <==> NoneHidden(n)
    decreases n
  {
    StopsAllIn(n.children, command);
  }

  lemma {:induction false} StopsAllIn(children: seq<Node>, command: Command)
    requires command == Stop || command == Kill
    requires ChangeAll(children, command).1 == Ready
    ensures AllStill(ChangeAll(children, command).0) <==> NoneHiddenIn(children)
    decreases children
  {
    if children != [] {
      var (child, own) := Change(children[0], command);
      var rest := ChangeAll(children[1..], command).0;
      assert ([child] + rest)[1..] == rest;
      StopsAllIn(children[1..], command);
      if own == Ready {
        StopsAll(children[0], command);
      } else {
        Excused(children[0], command);
      }
    }
  }

  // An excused FB has refused the command itself, so that its children have not been asked.
  lemma Excused(n: Node, command: Command)
    requires command == Stop || command == Kill
    requires Change(n, command).1 != Ready && n.entry.isFB
    requires Excuse(Change(n, command).0.entry.state, command) == Ready
    ensures Change(n, command).0 == n
    ensures Still(n) <==> NoneHidden(n)
  {
    StillHidesNone(n);
  }

  // Every FB of the tree may be started.
  predicate Startable(n: Node)
    decreases n
  {
    (n.entry.isFB ==> n.entry.state == Idle || n.entry.state == Stopped) && AllStartable(n.children)
  }

  predicate AllStartable(children: seq<Node>)
    decreases children
  {
    children == [] || (Startable(children[0]) && AllStartable(children[1..]))
  }

  predicate AllRun(n: Node)
    decreases n
  {
    (n.entry.isFB ==> n.entry.state == Running) && AllRunIn(n.children)
  }

  predicate AllRunIn(children: seq<Node>)
    decreases children
  {
    children == [] || (AllRun(children[0]) && AllRunIn(children[1..]))
  }

  // Start is ready exactly on trees of idle and stopped FBs, and leaves all of them running.
  lemma {:induction false} StartsAll(n: Node)
    ensures Change(n, Start).1 == Ready <==> Startable(n)
    ensures Startable(n) ==> AllRun(Change(n, Start).0)
    decreases n
  {
    StartsAllIn(n.children);
  }

  lemma {:induction false} StartsAllIn(children: seq<Node>)
    ensures ChangeAll(children, Start).1 == Ready <==> AllStartable(children)
    ensures AllStartable(children) ==> AllRunIn(ChangeAll(children, Start).0)
    decreases children
  {
    if children != [] {
      StartsAll(children[0]);
      StartsAllIn(children[1..]);
      var child := Change(children[0], Start).0;
      var rest := ChangeAll(children[1..], Start).0;
      assert ([child] + rest)[1..] == rest;
    }
  }

  // A tree without its states
  function Plan(n: Node): Node
    decreases n
  {
    Node(n.name, n.entry.(state := Idle), Plans(n.children))
  }

  function Plans(children: seq<Node>): seq<Node>
    decreases children
  {
    if children == [] then [] else [Plan(children[0])] + Plans(children[1..])
  }

  // Whatever the command and its outcome, nothing but states changes.
  lemma {:induction false} OnlyStatesChange(n: Node, command: Command)
    ensures Plan(Change(n, command).0) == Plan(n)
    decreases n
  {
    OnlyStatesChangeIn(n.children, command);
  }

  lemma {:induction false} OnlyStatesChangeIn(children: seq<Node>, command: Command)
    ensures Plans(ChangeAll(children, command).0) == Plans(children)
    decreases children
  {
    if children != [] {
      var child := Change(children[0], command).0;
      var rest := ChangeAll(children[1..], command).0;
      OnlyStatesChange(children[0], command);
      OnlyStatesChangeIn(children[1..], command);
      assert ([child] + rest)[1..] == rest && ([child] + children[1..])[1..] == children[1..];
    }
  }

  lemma {:induction false} ResetKeepsStill(n: Node)
    requires Still(n)
    ensures Still(Change(n, Reset).0)
    decreases n
  {
    ResetKeepsAllStill(n.children);
  }

  lemma {:induction false} ResetKeepsAllStill(children: seq<Node>)
    requires AllStill(children)
    ensures AllStill(ChangeAll(children, Reset).0)
    decreases children
  {
    if children != [] {
      var child, rest := Change(children[0], Reset).0, ChangeAll(children[1..], Reset).0;
      ResetKeepsStill(children[0]);
      ResetKeepsAllStill(children[1..]);
      assert ([child] + rest)[1..] == rest && ([child] + children[1..])[1..] == children[1..];
    }
  }

  // At this child a Stop or Kill ends: it refuses without excuse, or some node below it does.
  predicate Blocks(n: Node, command: Command)
    decreases n
  {
    if n.entry.isFB && n.entry.state != Running then Excuse(n.entry.state, command) != Ready
    else SomeBlocks(n.children, command)
  }

  predicate SomeBlocks(children: seq<Node>, command: Command)
    decreases children
  {
    children != [] && (Blocks(children[0], command) || SomeBlocks(children[1..], command))
  }

  lemma {:induction false} BlocksExactly(n: Node, command: Command)
    requires command == Stop || command == Kill
    ensures var (now, own) := Change(n, command);
            Blocks(n, command) <==> own != Ready && !(n.entry.isFB && Excuse(now.entry.state, command) == Ready)
    decreases n
  {
    SomeBlocksExactly(n.children, command);
  }

  lemma {:induction false} SomeBlocksExactly(children: seq<Node>, command: Command)
    requires command == Stop || command == Kill
    ensures ChangeAll(children, command).1 != Ready <==> SomeBlocks(children, command)
    decreases children
  {
    if children != [] {
      BlocksExactly(children[0], command);
      SomeBlocksExactly(children[1..], command);
    }
  }

  // Something is running to the right of the way to the node where the command ends.
  predicate LeavesRunning(n: Node, command: Command)
    decreases n
  {
    (n.entry.isFB ==> n.entry.state == Running) && SomeLeftRunning(n.children, command)
  }

  predicate SomeLeftRunning(children: seq<Node>, command: Command)
    decreases children
  {
    children != [] &&
    if Blocks(children[0], command) then LeavesRunning(children[0], command) || !AllStill(children[1..])
    else SomeLeftRunning(children[1..], command)
  }

  // And it is below an FB on that way, which has been switched.
  predicate Hides(n: Node, command: Command)
    decreases n
  {
    if n.entry.isFB then LeavesRunning(n, command) else SomeHides(n.children, command)
  }

  predicate SomeHides(children: seq<Node>, command: Command)
    decreases children
  {
    children != [] &&
    if Blocks(children[0], command) then Hides(children[0], command) else SomeHides(children[1..], command)
  }

  lemma {:induction false} LeavesRunningExactly(n: Node, command: Command)
    requires NoneHidden(n) && (command == Stop || command == Kill)
    ensures Still(Change(n, command).0) <==> !LeavesRunning(n, command)
    decreases n
  {
    SomeLeftRunningExactly(n.children, command);
  }

  lemma {:induction false} SomeLeftRunningExactly(children: seq<Node>, command: Command)
    requires NoneHiddenIn(children) && (command == Stop || command == Kill)
    ensures AllStill(ChangeAll(children, command).0) <==> !SomeLeftRunning(children, command)
    decreases children
  {
    if children != [] {
      var child, rest := Change(children[0], command).0, ChangeAll(children[1..], command).0;
      BlocksExactly(children[0], command);
      if !Blocks(children[0], command) {
        PassedIsStill(children[0], command);
      }
      LeavesRunningExactly(children[0], command);
      SomeLeftRunningExactly(children[1..], command);
      assert ([child] + rest)[1..] == rest && ([child] + children[1..])[1..] == children[1..];
    }
  }

  lemma PassedIsStill(n: Node, command: Command)
    requires NoneHidden(n) && (command == Stop || command == Kill) && !Blocks(n, command)
    ensures Still(Change(n, command).0)
  {
    BlocksExactly(n, command);
    if Change(n, command).1 == Ready { StopsAll(n, command); } else { Excused(n, command); }
  }

  // No command hides a running FB, except a Stop or Kill that ends at a node and leaves something running to the
  // right of the way there, below an FB on the way.
  lemma {:induction false} KeepsNoneHidden(n: Node, command: Command)
    requires NoneHidden(n)
    ensures NoneHidden(Change(n, command).0) <==> !((command == Stop || command == Kill) && Hides(n, command))
    decreases n
  {
    KeepsNoneHiddenIn(n.children, command);
    if command == Stop || command == Kill {
      SomeLeftRunningExactly(n.children, command);
      AllStillHideNone(ChangeAll(n.children, command).0);
    } else if command == Reset && AllStill(n.children) {
      ResetKeepsAllStill(n.children);
    }
  }

  lemma {:induction false} KeepsNoneHiddenIn(children: seq<Node>, command: Command)
    requires NoneHiddenIn(children)
    ensures NoneHiddenIn(ChangeAll(children, command).0) <==>
            !((command == Stop || command == Kill) && SomeHides(children, command))
    decreases children
  {
    if children != [] {
      var child, rest := Change(children[0], command).0, ChangeAll(children[1..], command).0;
      KeepsNoneHidden(children[0], command);
      KeepsNoneHiddenIn(children[1..], command);
      assert ([child] + rest)[1..] == rest && ([child] + children[1..])[1..] == children[1..];
      if command == Stop || command == Kill {
        BlocksExactly(children[0], command);
        if !Blocks(children[0], command) {
          PassedIsStill(children[0], command);
          StillHidesNone(child);
        }
      }
    }
  }

  // ---------------------------------------------------------------- which states they change to

  // The steps of the state machine of an FB
  predicate Leads(command: Command, before: State, after: State) {
    || (command == Start && (before == Idle || before == Stopped) && after == Running)
    || (command == Stop && before == Running && after == Stopped)
    || (command == Kill && before == Running && after == Killed)
    || (command == Reset && (before == Stopped || before == Killed) && after == Idle)
  }

  // Every FB keeps its state or takes one step of the command.
  predicate Moves(before: Node, after: Node, command: Command)
    decreases before
  {
    && (before.entry.state == after.entry.state
        || (before.entry.isFB && Leads(command, before.entry.state, after.entry.state)))
    && AllMove(before.children, after.children, command)
  }

  predicate AllMove(before: seq<Node>, after: seq<Node>, command: Command)
    decreases before
  {
    if before == [] || after == [] then before == after
    else Moves(before[0], after[0], command) && AllMove(before[1..], after[1..], command)
  }

  lemma {:induction false} StaysPut(n: Node, command: Command)
    ensures Moves(n, n, command)
    decreases n
  {
    AllStayPut(n.children, command);
  }

  lemma {:induction false} AllStayPut(children: seq<Node>, command: Command)
    ensures AllMove(children, children, command)
    decreases children
  {
    if children != [] {
      StaysPut(children[0], command);
      AllStayPut(children[1..], command);
    }
  }

  // Whatever the outcome, the states follow the state machine.
  lemma {:induction false} StatesMove(n: Node, command: Command)
    ensures Moves(n, Change(n, command).0, command)
    decreases n
  {
    AllStayPut(n.children, command);
    AllStatesMove(n.children, command);
  }

  lemma {:induction false} AllStatesMove(children: seq<Node>, command: Command)
    ensures AllMove(children, ChangeAll(children, command).0, command)
    decreases children
  {
    if children != [] {
      var child, rest := Change(children[0], command).0, ChangeAll(children[1..], command).0;
      StatesMove(children[0], command);
      AllStatesMove(children[1..], command);
      AllStayPut(children[1..], command);
      assert ([child] + rest)[1..] == rest && ([child] + children[1..])[1..] == children[1..];
    }
  }

  // The tree with all its FBs in one state
  function Set(n: Node, state: State): Node
    decreases n
  {
    Node(n.name, if n.entry.isFB then n.entry.(state := state) else n.entry, SetAll(n.children, state))
  }

  function SetAll(children: seq<Node>, state: State): seq<Node>
    decreases children
  {
    if children == [] then [] else [Set(children[0], state)] + SetAll(children[1..], state)
  }

  // A command that leads from the one state to the other takes a whole tree there ...
  lemma {:induction false} TreeMoves(n: Node, command: Command, before: State, after: State)
    requires Leads(command, before, after)
    ensures Change(Set(n, before), command) == (Set(n, after), Ready)
    decreases n
  {
    AllTreesMove(n.children, command, before, after);
  }

  lemma {:induction false} AllTreesMove(children: seq<Node>, command: Command, before: State, after: State)
    requires Leads(command, before, after)
    ensures ChangeAll(SetAll(children, before), command) == (SetAll(children, after), Ready)
    decreases children
  {
    if children != [] {
      TreeMoves(children[0], command, before, after);
      AllTreesMove(children[1..], command, before, after);
      assert SetAll(children, before)[1..] == SetAll(children[1..], before);
    }
  }

  // ... and one that leads nowhere from there is refused by an FB, which does not change.
  lemma CommandRefused(n: Node, command: Command)
    requires n.entry.isFB && forall after :: !Leads(command, n.entry.state, after)
    ensures Change(n, command) == (n, if command == Unknown then InvalidOperation else InvalidState)
  {
    assert command == Start ==> !Leads(command, n.entry.state, Running);
    assert command == Stop ==> !Leads(command, n.entry.state, Stopped);
    assert command == Kill ==> !Leads(command, n.entry.state, Killed);
    assert command == Reset ==> !Leads(command, n.entry.state, Idle);
  }

  // A running tree is stopped or killed, reset and started again: it is the same tree.
  lemma RestartRestores(n: Node, halt: Command)
    requires halt == Stop || halt == Kill
    ensures var (halted, first) := Change(Set(n, Running), halt);
            var (idle, second) := Change(halted, Reset);
            Change(idle, Start) == (Set(n, Running), Ready) && first == second == Ready
  {
    var state := if halt == Stop then Stopped else Killed;
    TreeMoves(n, halt, Running, state);
    TreeMoves(n, Reset, state, Idle);
    TreeMoves(n, Start, Idle, Running);
  }

  lemma OneChild(child: Node, command: Command)
    ensures AllStill([child]) == Still(child) && NoneHiddenIn([child]) == NoneHidden(child)
    ensures var (now, own) := Change(child, command);
            ChangeAll([child], command) ==
            ([now], if own != Ready && now.entry.isFB then Excuse(now.entry.state, command) else own)
  {
    assert [child][1..] == [];
    var now := Change(child, command).0;
    assert ChangeAll([], command) == ([], Ready);
    assert [now] + [] == [now];
  }

  // What a container hears from a child
  function Answer(child: Node, command: Command): Response {
    var (now, own) := Change(child, command);
    if own != Ready && now.entry.isFB then Excuse(now.entry.state, command) else own
  }

  // The children change one after the other up to the first whose answer is not Ready; that is the response, and the
  // children behind it are left alone.
  lemma {:induction false} EndsAtFirst(children: seq<Node>, command: Command, k: nat)
    requires k <= |children| && forall j :: 0 <= j < k ==> Answer(children[j], command) == Ready
    requires k < |children| ==> Answer(children[k], command) != Ready
    ensures var (now, response) := ChangeAll(children, command);
            && response == (if k < |children| then Answer(children[k], command) else Ready)
            && |now| == |children|
            && forall j :: 0 <= j < |children| ==>
                 now[j] == if j <= k then Change(children[j], command).0 else children[j]
    decreases k
  {
    if k > 0 {
      var rest := children[1..];
      forall j | 0 <= j < k - 1 ensures Answer(rest[j], command) == Ready {
        assert rest[j] == children[j + 1];
      }
      EndsAtFirst(rest, command, k - 1);
      FirstPasses(children, command);
      forall j | 1 <= j < |children| ensures rest[j - 1] == children[j] {}
    } else if children != [] {
      FirstEnds(children, command);
    }
  }

  lemma FirstPasses(children: seq<Node>, command: Command)
    requires children != [] && Answer(children[0], command) == Ready
    ensures var (rest, response) := ChangeAll(children[1..], command);
            ChangeAll(children, command) == ([Change(children[0], command).0] + rest, response)
  {
  }

  lemma FirstEnds(children: seq<Node>, command: Command)
    requires children != [] && Answer(children[0], command) != Ready
    ensures ChangeAll(children, command) ==
            ([Change(children[0], command).0] + children[1..], Answer(children[0], command))
  {
  }

  // Which states of a single FB satisfy its container
  lemma LeafAnswers(name: int, entry: Entry, command: Command)
    requires entry.isFB
    ensures Answer(Node(name, entry, []), command) == Ready <==>
            match command
            case Start => entry.state == Idle || entry.state == Stopped
            case Stop => entry.state == Running || entry.state == Killed
            case Kill => entry.state != Killed
            case Reset => entry.state == Stopped || entry.state == Killed
            case Unknown => false
  {
    assert ChangeAll([], command) == ([], Ready);
  }

  const STOPPED_FB := Entry(true, false, Stopped, true, 0)
  const RUNNING_FB := Entry(true, false, Running, true, 0)

  // A finding: a Stop that fails may hide a running FB, and then Kill on the container is ready although it runs.
  lemma FailedStopHides()
    ensures var tree := Node(1, CONTAINER, [Node(1, RUNNING_FB, [Node(2, STOPPED_FB, []), Node(3, RUNNING_FB, [])])]);
            var (stopped, failed) := Change(tree, Stop);
            var (killed, done) := Change(stopped, Kill);
            NoneHidden(tree) && failed == InvalidState && done == Ready && !Still(killed)
  {
    var inner := [Node(2, STOPPED_FB, []), Node(3, RUNNING_FB, [])];
    assert inner[1..] == [Node(3, RUNNING_FB, [])] && [inner[0]] + inner[1..] == inner;
    OneChild(Node(3, RUNNING_FB, []), Stop);
    assert Change(Node(2, STOPPED_FB, []), Stop) == (Node(2, STOPPED_FB, []), InvalidState);
    assert ChangeAll(inner, Stop) == (inner, InvalidState);
    var before, after := Node(1, RUNNING_FB, inner), Node(1, STOPPED_FB, inner);
    assert Change(before, Stop) == (after, InvalidState);
    OneChild(before, Stop);
    OneChild(after, Kill);
    assert NoneHiddenIn(inner);
    assert !AllStill(inner);
  }
}
