/** The order and the number of the outgoing edges (src/ltl/buchi-node.c) and of the tests that are made of them
    (src/ltl/buchi-converter.c). */
module EdgeOrder {
  import opened Formulas
  import opened Tableau
  import opened Generator

  predicate Ascending(ks: seq<nat>) {
    forall i, j :: 0 <= i < j < |ks| ==> ks[i] <= ks[j]
  }

  predicate AtMost(ks: seq<nat>, k: nat) {
    forall i :: 0 <= i < |ks| ==> ks[i] <= k
  }

  /** How often x stands in s. */
  function Times<T(==)>(s: seq<T>, x: T): nat {
    if s == [] then 0 else Times(s[..|s| - 1], x) + if s[|s| - 1] == x then 1 else 0
  }

  lemma {:induction false} TimesBoth<T>(a: seq<T>, b: seq<T>, x: T)
    ensures Times(a + b, x) == Times(a, x) + Times(b, x)
  {
    if b == [] {
      assert a + b == a;
    } else {
      TimesBoth(a, b[..|b| - 1], x);
      assert (a + b)[..|a + b| - 1] == a + b[..|b| - 1];
    }
  }

  lemma AscendingBoth(a: seq<nat>, b: seq<nat>, k: nat)
    requires Ascending(a) && AtMost(a, k) && forall i :: 0 <= i < |b| ==> b[i] == k
    ensures Ascending(a + b) && AtMost(a + b, k)
  {
  }

  // ----- outgoing edges -----

  lemma {:induction false} RepeatedCount(m: NodeRef, incoming: seq<NodeRef>, k: nat, j: nat)
    ensures Times(Repeated(m, incoming, k), j) == if j == k then Times(incoming, m) else 0
  {
    if incoming != [] {
      var front, last := incoming[..|incoming| - 1], incoming[|incoming| - 1];
      RepeatedCount(m, front, k, j);
      TimesBoth(Repeated(m, front, k), if last == m then [k] else [], j);
      assert [k][..0] == [];
    }
  }

  /** How often m is listed at the k-th node, unless that has no proposition. */
  function EdgeCount(m: NodeRef, done: seq<Node>, k: nat): nat {
    if k < |done| && Propositions(done[k].now) != [] then Times(done[k].incoming, m) else 0
  }

  lemma AddedCount(m: NodeRef, done: seq<Node>, k: nat, j: nat)
    requires k < |done|
    ensures Times(Added(m, done, k), j) == if j == k then EdgeCount(m, done, k) else 0
  {
    RepeatedCount(m, done[k].incoming, k, j);
  }

  predicate Occurs(s: seq<nat>, k: nat, n: nat) {
    Times(s, k) == n
  }

  lemma OccursBoth(a: seq<nat>, b: seq<nat>, k: nat, i: nat, j: nat)
    requires Occurs(a, k, i) && Occurs(b, k, j)
    ensures Occurs(a + b, k, i + j)
  {
    TimesBoth(a, b, k);
  }

  lemma {:induction false} OutgoingUpToCount(m: NodeRef, done: seq<Node>, upto: nat, k: nat, n: nat)
    requires upto <= |done| && (k < upto ==> n == EdgeCount(m, done, k))
    ensures Occurs(OutgoingUpTo(m, done, upto), k, if k < upto then n else 0)
  {
    if upto > 0 {
      OutgoingUpToCount(m, done, upto - 1, k, n);
      AddedCount(m, done, upto - 1, k);
      OccursBoth(OutgoingUpTo(m, done, upto - 1), Added(m, done, upto - 1), k, if k < upto - 1 then n else 0,
                 if k == upto - 1 then n else 0);
    }
  }

  /** There are as many edges from m to a node as m is listed there, and none to a node without propositions. */
  lemma OutgoingCount(m: NodeRef, done: seq<Node>, k: nat)
    ensures Times(Outgoing(m, done), k) == EdgeCount(m, done, k)
  {
    OutgoingUpToCount(m, done, |done|, k, EdgeCount(m, done, k));
  }

  /** They are in the order of the nodes they lead to. */
  lemma {:induction false} OutgoingAscends(m: NodeRef, done: seq<Node>, upto: nat)
    requires upto <= |done|
    ensures Ascending(OutgoingUpTo(m, done, upto)) && AtMost(OutgoingUpTo(m, done, upto), upto)
  {
    if upto > 0 {
      var k := upto - 1;
      var front, added := OutgoingUpTo(m, done, k), Added(m, done, k);
      OutgoingAscends(m, done, k);
      forall i | 0 <= i < |added| ensures added[i] == k { RepeatedMembers(m, done[k].incoming, k, added[i]); }
      AscendingBoth(front, added, k);
    }
  }

  // ----- tests -----

  lemma SplitNext(done: seq<Node>, ks: seq<nat>, k: nat)
    ensures Conditionals(done, ks + [k]) == Conditionals(done, ks) + if Unconditional(NodeAt(done, k)) then [] else [k]
    ensures Elses(done, ks + [k]) == Elses(done, ks) + if Unconditional(NodeAt(done, k)) then [k] else []
  {
    assert (ks + [k])[..|ks|] == ks;
  }

  /** Every edge is kept, as a test or without one. */
  lemma {:induction false} SplitKeeps(done: seq<Node>, ks: seq<nat>, j: nat)
    ensures Times(Conditionals(done, ks), j) + Times(Elses(done, ks), j) == Times(ks, j)
  {
    if ks != [] {
      var front, last := ks[..|ks| - 1], ks[|ks| - 1];
      SplitKeeps(done, front, j);
      var tested := !Unconditional(NodeAt(done, last));
      TimesBoth(Conditionals(done, front), if tested then [last] else [], j);
      TimesBoth(Elses(done, front), if tested then [] else [last], j);
      assert [last][..0] == [];
    }
  }

  /** The tests are made in the order of the edges. */
  lemma {:induction false} TestsAscend(done: seq<Node>, ks: seq<nat>, k: nat)
    requires Ascending(ks) && AtMost(ks, k)
    ensures Ascending(Conditionals(done, ks)) && AtMost(Conditionals(done, ks), k)
  {
    if ks != [] {
      var front, last := ks[..|ks| - 1], ks[|ks| - 1];
      assert ks == front + [last];
      assert Ascending(front) && AtMost(front, last);
      TestsAscend(done, front, last);
      SplitNext(done, front, last);
      AscendingBoth(Conditionals(done, front), if Unconditional(NodeAt(done, last)) then [] else [last], last);
    }
  }

  /** The tests of a definition are in the order of the nodes. */
  lemma DefinitionAscends(done: seq<Node>, m: NodeRef)
    ensures Ascending(Conditionals(done, Outgoing(m, done)))
  {
    OutgoingAscends(m, done, |done|);
    TestsAscend(done, Outgoing(m, done), |done|);
  }
}
