/** The singly linked list of core/src/fortelist.h over the nodes of core/src/fortenode.h: a chain of heap cells that
    refines a sequence. */
module LinkedList {

  class ListNode<T> {
    var element: T
    var next: ListNode?<T>

    constructor (element: T, next: ListNode?<T>)
      ensures this.element == element && this.next == next
    {
      this.element, this.next := element, next;
    }
  }

  // A chain of distinct nodes, each of which points to the one behind it, and the last to null
  ghost predicate Chain<T(!new)>(nodes: seq<ListNode<T>>)
    reads nodes
  {
    && (forall i, j :: 0 <= i < j < |nodes| ==> nodes[i] != nodes[j])
    && (forall i :: 0 <= i < |nodes| - 1 ==> nodes[i].next == nodes[i + 1])
    && (nodes != [] ==> nodes[|nodes| - 1].next == null)
  }

  // A sequence without the first element that equals x
  function WithoutFirst<T(==)>(s: seq<T>, x: T): seq<T> {
    if s == [] then [] else if s[0] == x then s[1..] else [s[0]] + WithoutFirst(s[1..], x)
  }

  lemma {:induction false} WithoutFirstAt<T>(s: seq<T>, x: T, k: nat)
    requires k < |s| && s[k] == x && x !in s[..k]
    ensures WithoutFirst(s, x) == s[..k] + s[k + 1..]
  {
    if k > 0 {
      assert s[0] == s[..k][0];
      assert s[1..][..k - 1] == s[..k][1..];
      WithoutFirstAt(s[1..], x, k - 1);
    }
  }

  lemma {:induction false} WithoutFirstNone<T>(s: seq<T>, x: T)
    requires x !in s
    ensures WithoutFirst(s, x) == s
  {
    if s != [] {
      WithoutFirstNone(s[1..], x);
    }
  }

  // One occurrence is lost at most, and nothing else.
  lemma {:induction false} WithoutFirstBag<T>(s: seq<T>, x: T)
    ensures multiset(WithoutFirst(s, x)) == multiset(s) - multiset{x}
  {
    if s != [] {
      assert s == [s[0]] + s[1..];
      if s[0] != x {
        WithoutFirstBag(s[1..], x);
        assert multiset(s) == multiset{s[0]} + multiset(s[1..]);
      }
    }
  }

  class SinglyLinkedList<T(==,!new)> {
    var first: ListNode?<T>
    var last: ListNode?<T>

    ghost var nodes: seq<ListNode<T>>
    ghost var contents: seq<T>

    ghost predicate Valid()
      reads this, nodes
    {
      && Chain(nodes)
      && |contents| == |nodes| && (forall i :: 0 <= i < |nodes| ==> nodes[i].element == contents[i])
      && first == (if nodes == [] then null else nodes[0])
      && last == (if nodes == [] then null else nodes[|nodes| - 1])
    }

    constructor ()
      ensures Valid() && contents == [] && nodes == []
    {
      first, last, nodes, contents := null, null, [], [];
    }

    method PushFront(x: T)
      requires Valid()
      modifies this
      ensures Valid() && contents == [x] + old(contents)
      ensures nodes == [nodes[0]] + old(nodes) && fresh(nodes[0])
    {
      var node := new ListNode(x, first);
      first := node;
      if last == null {
        last := node;
      }
      nodes, contents := [node] + nodes, [x] + contents;
    }

    method PushBack(x: T)
      requires Valid()
      modifies this, last
      ensures Valid() && contents == old(contents) + [x]
      ensures |nodes| > 0 && nodes == old(nodes) + [nodes[|nodes| - 1]] && fresh(nodes[|nodes| - 1])
    {
      var node := new ListNode(x, null);
      if last != null {
        last.next := node;
      } else {
        first := node;
      }
      last := node;
      nodes, contents := nodes + [node], contents + [x];
    }

    method PopFront()
      requires Valid() && first != null
      modifies this
      ensures Valid() && contents == old(contents)[1..] && nodes == old(nodes)[1..]
    {
      first := first.next;
      if first == null {
        last := null;
      }
      nodes, contents := nodes[1..], contents[1..];
    }

    method ClearAll()
      requires Valid()
      modifies this
      ensures Valid() && contents == [] && first == null && last == null
    {
      while first != null
        invariant Valid()
        decreases |nodes|
      {
        PopFront();
      }
    }

    // The node behind the given one is taken out; the result is the one that follows now.
    method EraseAfter(position: ListNode<T>, ghost i: nat) returns (next: ListNode?<T>)
      requires Valid() && i + 1 < |nodes| && nodes[i] == position
      modifies this, position`next
      ensures Valid()
      ensures contents == old(contents)[..i + 1] + old(contents)[i + 2..]
      ensures nodes == old(nodes)[..i + 1] + old(nodes)[i + 2..]
      ensures next == if i + 1 < |nodes| then nodes[i + 1] else null
    {
      ghost var behind := nodes[i + 1];
      assert position.next == behind && behind.next == if i + 2 < |nodes| then nodes[i + 2] else null;
      position.next := position.next.next;
      if position.next == null {
        last := position;
      }
      nodes, contents := nodes[..i + 1] + nodes[i + 2..], contents[..i + 1] + contents[i + 2..];
      next := position.next;
    }

    // The first element that equals x is taken out.
    method Erase(x: T)
      requires Valid()
      modifies this, nodes
      ensures Valid() && contents == WithoutFirst(old(contents), x)
      ensures forall n :: n in nodes ==> n in old(nodes)
    {
      var runner, behind: ListNode?<T> := first, null;
      ghost var i := 0;
      while runner != null
        invariant 0 <= i <= |nodes| && runner == if i < |nodes| then nodes[i] else null
        invariant behind == if i == 0 then null else nodes[i - 1]
        invariant x !in contents[..i]
        decreases |nodes| - i
      {
        if runner.element == x {
          WithoutFirstAt(contents, x, i);
          if behind == null {
            PopFront();
          } else {
            var _ := EraseAfter(behind, i - 1);
          }
          return;
        }
        behind := runner;
        runner := runner.next;
        i := i + 1;
      }
      assert contents[..i] == contents;
      WithoutFirstNone(contents, x);
    }
  }
}
