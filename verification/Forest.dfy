/** Forests given by a parent map.  A rank that grows from every parent to its children witnesses
    that no chain of parents runs in a circle. */
module Forest {

  ghost predicate Ranked<P>(parent: map<P, P>, rank: map<P, nat>, bound: nat) {
    && (forall c :: c in parent ==> c in rank && parent[c] in rank && rank[parent[c]] < rank[c])
    && (forall p :: p in rank ==> rank[p] <= bound)
  }

  ghost predicate Acyclic<P(!new)>(parent: map<P, P>) {
    exists rank: map<P, nat>, bound: nat :: Ranked(parent, rank, bound)
  }

  // q is top or some chain of parents leads from q to top.
  ghost predicate Below<P>(parent: map<P, P>, rank: map<P, nat>, bound: nat, top: P, q: P)
    requires Ranked(parent, rank, bound)
    decreases if q in rank then rank[q] else 0
  {
    q == top || (q in parent && Below(parent, rank, bound, top, parent[q]))
  }

  // The same from the parents alone: following them from q leads to top.  Each parent is used once, so this ends
  // even where they run in a circle.
  predicate Climbs<P(==)>(parent: map<P, P>, q: P, top: P)
    decreases |parent|
  {
    q == top || (q in parent && (Fewer(parent, q); Climbs(parent - {q}, parent[q], top)))
  }

  lemma Fewer<P>(parent: map<P, P>, q: P)
    requires q in parent
    ensures |parent - {q}| < |parent|
  {
    assert (parent - {q}).Keys == parent.Keys - {q};
  }

  lemma {:induction false} ClimbsWithin<P>(parent: map<P, P>, rank: map<P, nat>, bound: nat, part: map<P, P>, q: P,
                                        top: P)
    requires Ranked(parent, rank, bound)
    requires forall c :: c in part ==> c in parent && part[c] == parent[c]
    requires q in rank ==> forall c :: c in parent && rank[c] <= rank[q] ==> c in part
    ensures Climbs(part, q, top) <==> Below(parent, rank, bound, top, q)
    decreases |part|
  {
    if q != top && q in parent {
      Fewer(part, q);
      ClimbsWithin(parent, rank, bound, part - {q}, parent[q], top);
    }
  }

  // In a forest, climbing tells what is below what, whatever the witness.
  lemma ClimbsIsBelow<P>(parent: map<P, P>, rank: map<P, nat>, bound: nat, q: P, top: P)
    requires Ranked(parent, rank, bound)
    ensures Climbs(parent, q, top) <==> Below(parent, rank, bound, top, q)
  {
    ClimbsWithin(parent, rank, bound, parent, q, top);
  }

  lemma {:induction false} BelowGrows<P>(parent: map<P, P>, rank: map<P, nat>, bound: nat, top: P, q: P)
    requires Ranked(parent, rank, bound) && Below(parent, rank, bound, top, q)
    ensures q == top || (q in rank && top in rank && rank[top] < rank[q])
    decreases if q in rank then rank[q] else 0
  {
    if q != top { BelowGrows(parent, rank, bound, top, parent[q]); }
  }

  // Some element of the first n of ds has q below it.
  ghost predicate BelowSome<P>(parent: map<P, P>, rank: map<P, nat>, bound: nat, ds: seq<P>, n: nat, q: P)
    requires Ranked(parent, rank, bound) && n <= |ds|
  {
    n > 0 && (Below(parent, rank, bound, ds[n - 1], q) || BelowSome(parent, rank, bound, ds, n - 1, q))
  }

  lemma {:induction false} BelowSomeIntro<P>(parent: map<P, P>, rank: map<P, nat>, bound: nat, ds: seq<P>, n: nat,
                                        k: nat, q: P)
    requires Ranked(parent, rank, bound) && k < n <= |ds|
    requires Below(parent, rank, bound, ds[k], q)
    ensures BelowSome(parent, rank, bound, ds, n, q)
  {
    if k < n - 1 { BelowSomeIntro(parent, rank, bound, ds, n - 1, k, q); }
  }

  lemma {:induction false} BelowSomeUp<P>(parent: map<P, P>, rank: map<P, nat>, bound: nat, ds: seq<P>, n: nat,
                                        top: P, q: P)
    requires Ranked(parent, rank, bound) && n <= |ds|
    requires forall d :: d in ds ==> d in parent && parent[d] == top
    requires BelowSome(parent, rank, bound, ds, n, q)
    ensures Below(parent, rank, bound, top, q)
  {
    if Below(parent, rank, bound, ds[n - 1], q) {
      BelowChild(parent, rank, bound, top, ds[n - 1], q);
    } else {
      BelowSomeUp(parent, rank, bound, ds, n - 1, top, q);
    }
  }

  lemma {:induction false} BelowChild<P>(parent: map<P, P>, rank: map<P, nat>, bound: nat, top: P, c: P, q: P)
    requires Ranked(parent, rank, bound) && c in parent && parent[c] == top
    requires Below(parent, rank, bound, c, q)
    ensures Below(parent, rank, bound, top, q)
    decreases if q in rank then rank[q] else 0
  {
    if q != c { BelowChild(parent, rank, bound, top, c, parent[q]); }
  }

  // The subtree of top is top and the subtrees of its children ds.
  lemma {:induction false} BelowByChildren<P>(parent: map<P, P>, rank: map<P, nat>, bound: nat, top: P, ds: seq<P>,
                                        q: P)
    requires Ranked(parent, rank, bound)
    requires forall d :: d in ds <==> d in parent && parent[d] == top
    ensures Below(parent, rank, bound, top, q) <==> q == top || BelowSome(parent, rank, bound, ds, |ds|, q)
    decreases if q in rank then rank[q] else 0
  {
    if BelowSome(parent, rank, bound, ds, |ds|, q) {
      BelowSomeUp(parent, rank, bound, ds, |ds|, top, q);
    } else if q != top && q in parent && Below(parent, rank, bound, top, parent[q]) {
      BelowByChildren(parent, rank, bound, top, ds, parent[q]);
      if parent[q] == top {
        var k :| 0 <= k < |ds| && ds[k] == q;
        BelowSomeIntro(parent, rank, bound, ds, |ds|, k, q);
      } else {
        BelowSomeDown(parent, rank, bound, ds, |ds|, q);
      }
    }
  }

  lemma {:induction false} BelowSomeDown<P>(parent: map<P, P>, rank: map<P, nat>, bound: nat, ds: seq<P>, n: nat, q: P)
    requires Ranked(parent, rank, bound) && n <= |ds| && q in parent
    requires BelowSome(parent, rank, bound, ds, n, parent[q])
    ensures BelowSome(parent, rank, bound, ds, n, q)
  {
    if !Below(parent, rank, bound, ds[n - 1], parent[q]) { BelowSomeDown(parent, rank, bound, ds, n - 1, q); }
  }

  // ---------------------------------------------------------------- adding an edge

  // The rank after hanging dst under src: everything below dst moves above src's rank.
  ghost function Shifted<P>(parent: map<P, P>, rank: map<P, nat>, bound: nat, dst: P): map<P, nat>
    requires Ranked(parent, rank, bound)
  {
    map q | q in rank :: if Below(parent, rank, bound, dst, q) then rank[q] + bound + 1 else rank[q]
  }

  lemma ShiftedRanks<P>(parent: map<P, P>, rank: map<P, nat>, bound: nat, src: P, dst: P)
    requires Ranked(parent, rank, bound) && dst !in parent && src in rank && dst in rank
    requires !Below(parent, rank, bound, dst, src)
    ensures Ranked(parent[dst := src], Shifted(parent, rank, bound, dst), 2 * bound + 1)
  {
  }

  // Hanging the root dst under src keeps the forest free of circles exactly if src is not below dst.
  lemma AcyclicAfterConnect<P(!new)>(parent: map<P, P>, rank: map<P, nat>, bound: nat, src: P, dst: P)
    requires Ranked(parent, rank, bound) && dst !in parent && src in rank && dst in rank
    ensures Acyclic(parent[dst := src]) <==> !Below(parent, rank, bound, dst, src)
  {
    if Below(parent, rank, bound, dst, src) {
      if Acyclic(parent[dst := src]) {
        var r: map<P, nat>, b: nat :| Ranked(parent[dst := src], r, b);
        CircleDescends(parent, rank, bound, src, dst, r, b, src);
      }
    } else {
      ShiftedRanks(parent, rank, bound, src, dst);
    }
  }

  lemma {:induction false} CircleDescends<P>(parent: map<P, P>, rank: map<P, nat>, bound: nat, src: P, dst: P,
                                             r: map<P, nat>, b: nat, q: P)
    requires Ranked(parent, rank, bound) && dst !in parent
    requires Ranked(parent[dst := src], r, b) && q in r
    requires Below(parent, rank, bound, dst, q)
    ensures dst in r && r[dst] <= r[q]
    decreases if q in rank then rank[q] else 0
  {
    if q != dst {
      assert q in parent[dst := src] && parent[dst := src][q] == parent[q];
      CircleDescends(parent, rank, bound, src, dst, r, b, parent[q]);
    }
  }

  // Cutting an edge keeps the witness.
  lemma RankedWithout<P>(parent: map<P, P>, rank: map<P, nat>, bound: nat, c: P)
    requires Ranked(parent, rank, bound)
    ensures Ranked(parent - {c}, rank, bound)
  {
  }
}
