/** expand_node on linked nodes (src/ltl/ltl-converter.c, src/ltl/buchi-node.c), proved to compute
    the function Tableau.Expand. */
module Converter {
  import opened Wrappers
  import opened Formulas
  import opened Tableau
  import Lists = LinkedList

  class BuchiNode {
    var incoming: seq<BuchiNode>
    var now: seq<Formula>
    var pending: seq<Formula>
    var next: seq<Formula>
    var required: seq<Formula>
    var outgoing: seq<BuchiNode>
    var isAccepting: bool
    var number: nat  // in the name given to the node; 0 for the initial node

    constructor ()
      ensures incoming == [] && now == [] && pending == [] && next == []
      ensures required == [] && outgoing == [] && !isAccepting && number == 0
    {
      incoming, now, pending, next := [], [], [], [];
      required, outgoing, isAccepting, number := [], [], false, 0;
    }

    /** A copy of the lists the construction uses. */
    constructor Clone(org: BuchiNode)
      ensures incoming == org.incoming && now == org.now && pending == org.pending && next == org.next
    {
      incoming, now, pending, next := org.incoming, org.now, org.pending, org.next;
      required, outgoing, isAccepting, number := [], [], false, 0;
    }
  }

  /** The list of completed nodes. */
  class NodeList {
    var nodes: seq<BuchiNode>

    ghost function Members(): set<object>
      reads this
    {
      set n | n in nodes
    }

    constructor ()
      ensures nodes == []
    {
      nodes := [];
    }
  }

  function IndexOf<T(==)>(x: T, s: seq<T>): (k: nat)
    requires x in s
    ensures k < |s| && s[k] == x
  {
    if s[0] == x then 0 else 1 + IndexOf(x, s[1..])
  }

  lemma IndexOfUnique<T>(x: T, s: seq<T>, k: nat)
    requires k < |s| && s[k] == x && NoDuplicates(s)
    ensures IndexOf(x, s) == k
  {
  }

  lemma {:induction false} IndexOfPrefix<T>(x: T, s: seq<T>, t: seq<T>)
    requires x in s && s <= t
    ensures IndexOf(x, t) == IndexOf(x, s)
  {
    if s[0] != x {
      IndexOfPrefix(x, s[1..], t[1..]);
    }
  }

  /** How an edge source is identified: by its index among the completed nodes. */
  function RefOf(o: BuchiNode, nodes: seq<BuchiNode>): NodeRef {
    if o in nodes then At(IndexOf(o, nodes)) else Start
  }

  function RefsOf(os: seq<BuchiNode>, nodes: seq<BuchiNode>): seq<NodeRef> {
    seq(|os|, i requires 0 <= i < |os| => RefOf(os[i], nodes))
  }

  function ValueOf(n: BuchiNode, nodes: seq<BuchiNode>): Node
    reads n`incoming, n`now, n`pending, n`next
  {
    Node(RefsOf(n.incoming, nodes), n.now, n.pending, n.next)
  }

  function ValuesOf(nodes: seq<BuchiNode>): seq<Node>
    reads nodes
  {
    seq(|nodes|, k requires 0 <= k < |nodes| reads nodes => ValueOf(nodes[k], nodes))
  }

  /** Edges come from the initial node or from completed nodes. */
  predicate Linked(n: BuchiNode, nodes: seq<BuchiNode>, init: BuchiNode)
    reads n`incoming
  {
    forall o | o in n.incoming :: o == init || o in nodes
  }

  predicate LinkedList(nodes: seq<BuchiNode>, init: BuchiNode)
    reads nodes`incoming
  {
    && init !in nodes && NoDuplicates(nodes)
    && forall n | n in nodes :: Linked(n, nodes, init)
  }

  /** The identity of an edge source does not change when the list of completed nodes grows. */
  lemma RefsOfGrows(os: seq<BuchiNode>, nodes: seq<BuchiNode>, more: seq<BuchiNode>, init: BuchiNode)
    requires nodes <= more && init !in more
    requires forall o | o in os :: o == init || o in nodes
    ensures RefsOf(os, more) == RefsOf(os, nodes)
  {
    forall i | 0 <= i < |os| ensures RefOf(os[i], more) == RefOf(os[i], nodes) {
      if os[i] in nodes {
        IndexOfPrefix(os[i], nodes, more);
      }
    }
  }

  lemma RefsOfConcat(a: seq<BuchiNode>, b: seq<BuchiNode>, nodes: seq<BuchiNode>)
    ensures RefsOf(a + b, nodes) == RefsOf(a, nodes) + RefsOf(b, nodes)
  {
  }

  lemma {:induction false} FindSameIs(done: seq<Node>, n: Node, k: nat)
    requires k < |done| && SameContents(done[k], n)
    requires forall j | 0 <= j < k :: !SameContents(done[j], n)
    ensures FindSame(done, n) == Some(k)
  {
    if k > 0 {
      assert forall j | 0 <= j < k - 1 :: done[1..][j] == done[j + 1];
      FindSameIs(done[1..], n, k - 1);
    }
  }

  /** The comparison of two nodes is the one of their lists under the equality of tokens. */
  lemma SameContentsExactly(m: Node, n: Node)
    ensures SameContents(m, n) <==>
            Lists.SameContent(m.now, n.now, SameToken) && Lists.SameContent(m.next, n.next, SameToken)
  {
    forall x, y ensures SameToken(x, y) <==> x == y { SameTokenIsEquality(x, y); }
    Lists.SameContentIsMultiset(m.now, n.now, SameToken);
    Lists.SameContentIsMultiset(m.next, n.next, SameToken);
  }

  /** The search of the completed nodes for one with the contents of n. */
  method FindSameNode(completed: NodeList, n: BuchiNode) returns (k: Option<nat>)
    ensures k == FindSame(ValuesOf(completed.nodes), ValueOf(n, completed.nodes))
  {
    ghost var all, v := ValuesOf(completed.nodes), ValueOf(n, completed.nodes);
    for i := 0 to |completed.nodes|
      invariant forall j | 0 <= j < i :: !SameContents(all[j], v)
    {
      var m := completed.nodes[i];
      if multiset(m.now) == multiset(n.now) && multiset(m.next) == multiset(n.next) {
        assert SameContents(all[i], v);
        FindSameIs(all, v, i);
        return Some(i);
      }
      assert !SameContents(all[i], v);
    }
    return None;
  }

  /** What a call of ExpandNode may rely on. */
  ghost predicate Ready(n: BuchiNode, completed: NodeList, init: BuchiNode, u: set<Formula>)
    reads n, completed, completed.nodes
  {
    && LinkedList(completed.nodes, init)
    && n !in completed.nodes && n != init && Linked(n, completed.nodes, init)
    && Closed(u) && WellFormed(ValueOf(n, completed.nodes), u) && WellFormedDone(ValuesOf(completed.nodes), u)
  }

  /** Applies one round to n in place; a second alternative is a new node. */
  method Round(n: BuchiNode, ghost nodes: seq<BuchiNode>, init: BuchiNode) returns (ok: bool, alts: seq<BuchiNode>)
    requires n.pending != [] && Linked(n, nodes, init)
    modifies n
    ensures ok == Alternatives(old(ValueOf(n, nodes))).Some?
    ensures ok ==> |alts| == |Alternatives(old(ValueOf(n, nodes))).value| <= 2
    ensures ok ==> forall i | 0 <= i < |alts| ::
                     && ValueOf(alts[i], nodes) == Alternatives(old(ValueOf(n, nodes))).value[i]
                     && Linked(alts[i], nodes, init)
    ensures |alts| > 0 ==> alts[0] == n
    ensures |alts| > 1 ==> fresh(alts[1])
  {
    var t := n.pending[0];
    n.pending := n.pending[1..];
    ok := true;
    if t in n.now {
      alts := [n];
    } else if IsProposition(t) {
      if IsFalse(t) || Negate(t) in n.now {
        alts := [];
      } else {
        n.now := n.now + [t];
        alts := [n];
      }
    } else if t.Binary? && t.bop == Until {
      var n2 := new BuchiNode.Clone(n);
      n.now, n.pending, n.next := n.now + [t], n.pending + [t.left], n.next + [t];
      n2.now, n2.pending := n2.now + [t], n2.pending + [t.right];
      alts := [n, n2];
    } else if t.Binary? && t.bop == Release {
      var n2 := new BuchiNode.Clone(n);
      n.now, n.pending, n.next := n.now + [t], n.pending + [t.right], n.next + [t];
      n2.now, n2.pending := n2.now + [t], n2.pending + [t.right, t.left];
      alts := [n, n2];
    } else if t.Binary? && t.bop == PathOr {
      var n2 := new BuchiNode.Clone(n);
      n.now, n.pending := n.now + [t], n.pending + [t.left];
      n2.now, n2.pending := n2.now + [t], n2.pending + [t.right];
      alts := [n, n2];
    } else if t.Binary? && t.bop == PathAnd {
      n.now, n.pending := n.now + [t], n.pending + [t.left, t.right];
      alts := [n];
    } else if t.Unary? && t.uop == NextTime {
      n.now, n.next := n.now + [t], n.next + [t.arg];
      alts := [n];
    } else {
      ok, alts := false, [];
    }
  }

  lemma ValuesAppend(nodes: seq<BuchiNode>, n: BuchiNode, init: BuchiNode)
    requires LinkedList(nodes, init) && n !in nodes && n != init && Linked(n, nodes, init)
    ensures LinkedList(nodes + [n], init)
    ensures ValuesOf(nodes + [n]) == ValuesOf(nodes) + [ValueOf(n, nodes)]
    ensures RefsOf([n], nodes + [n]) == [At(|nodes|)]
  {
    var more := nodes + [n];
    forall k | 0 <= k < |more| ensures ValuesOf(more)[k] == (ValuesOf(nodes) + [ValueOf(n, nodes)])[k] {
      assert Linked(more[k], nodes, init);
      RefsOfGrows(more[k].incoming, nodes, more, init);
    }
    IndexOfUnique(n, more, |nodes|);
    forall m | m in more ensures Linked(m, more, init) {
      if m != n { assert Linked(m, nodes, init); }
    }
  }

  /** Gives the edges of n to the completed node with the same contents. */
  method Merge(n: BuchiNode, k: nat, completed: NodeList, init: BuchiNode)
    requires LinkedList(completed.nodes, init) && Linked(n, completed.nodes, init) && k < |completed.nodes|
    modifies completed.nodes[k]
    ensures completed.nodes == old(completed.nodes) && LinkedList(completed.nodes, init)
    ensures var done := old(ValuesOf(completed.nodes));
            ValuesOf(completed.nodes)
            == done[k := done[k].(incoming := done[k].incoming + old(ValueOf(n, completed.nodes)).incoming)]
  {
    var ex := completed.nodes[k];
    RefsOfConcat(ex.incoming, n.incoming, completed.nodes);
    assert Linked(ex, completed.nodes, init);
    ex.incoming := ex.incoming + n.incoming;
    forall j | 0 <= j < |completed.nodes| && j != k ensures completed.nodes[j] != ex {}
    forall m | m in completed.nodes ensures Linked(m, completed.nodes, init) {
      if m != ex { assert old(Linked(m, completed.nodes, init)); }
    }
  }

  /** Adds n to the completed nodes and makes the node that follows it in time. */
  method Complete(n: BuchiNode, completed: NodeList, init: BuchiNode) returns (n2: BuchiNode)
    requires LinkedList(completed.nodes, init) && Linked(n, completed.nodes, init)
    requires n !in completed.nodes && n != init
    modifies completed
    ensures completed.nodes == old(completed.nodes) + [n] && LinkedList(completed.nodes, init)
    ensures ValuesOf(completed.nodes) == old(ValuesOf(completed.nodes)) + [old(ValueOf(n, completed.nodes))]
    ensures fresh(n2) && Linked(n2, completed.nodes, init)
    ensures ValueOf(n2, completed.nodes) == Successor(old(ValueOf(n, completed.nodes)), |old(completed.nodes)|)
  {
    n2 := new BuchiNode();
    n2.incoming := [n];
    n2.pending := n.next;
    ValuesAppend(completed.nodes, n, init);
    completed.nodes := completed.nodes + [n];
  }

  /** The list holds exactly what the expansion r says, and has only grown. */
  ghost predicate Holding(completed: NodeList, r: Option<seq<Node>>, ok: bool, before: seq<BuchiNode>, init: BuchiNode)
    reads completed, completed.nodes
  {
    && ok == r.Some?
    && (ok ==> ValuesOf(completed.nodes) == r.value && LinkedList(completed.nodes, init) && before <= completed.nodes)
  }

  /** expand_node: expands n into the list of completed nodes; false is the fatal error. */
  method ExpandNode(n: BuchiNode, completed: NodeList, init: BuchiNode, ghost u: set<Formula>) returns (ok: bool)
    requires Ready(n, completed, init, u)
    modifies {n, completed} + completed.Members()
    ensures Holding(completed, Expand(old(ValueOf(n, completed.nodes)), old(ValuesOf(completed.nodes)), u),
                    ok, old(completed.nodes), init)
    ensures ok ==> forall m | m in completed.nodes :: m in old(completed.nodes) || m == n || fresh(m)
    decreases |Shapes(u)| - |completed.nodes|, |u| - |n.now|, |n.pending|, 1
  {
    if n.pending == [] {
      ok := ExpandFinished(n, completed, init, u);
    } else {
      ok := ExpandPending(n, completed, init, u);
    }
  }

  /** Nothing is pending: n is merged, or completed and followed by its successor. */
  method ExpandFinished(n: BuchiNode, completed: NodeList, init: BuchiNode, ghost u: set<Formula>) returns (ok: bool)
    requires Ready(n, completed, init, u) && n.pending == []
    modifies {n, completed} + completed.Members()
    ensures Holding(completed, Expand(old(ValueOf(n, completed.nodes)), old(ValuesOf(completed.nodes)), u),
                    ok, old(completed.nodes), init)
    ensures ok ==> forall m | m in completed.nodes :: m in old(completed.nodes) || m == n || fresh(m)
    decreases |Shapes(u)| - |completed.nodes|, |u| - |n.now|, |n.pending|, 0
  {
    ghost var values, value := ValuesOf(completed.nodes), ValueOf(n, completed.nodes);
    var same := FindSameNode(completed, n);
    match same {
      case Some(k) =>
        Merge(n, k, completed, init);
        ok := true;
      case None =>
        DoneIsBounded(values + [value], u);
        var n2 := Complete(n, completed, init);
        ok := ExpandNode(n2, completed, init, u);
    }
  }

  /** A pending formula is decomposed and the nodes that replace n are expanded in order. */
  method ExpandPending(n: BuchiNode, completed: NodeList, init: BuchiNode, ghost u: set<Formula>) returns (ok: bool)
    requires Ready(n, completed, init, u) && n.pending != []
    modifies {n, completed} + completed.Members()
    ensures Holding(completed, Expand(old(ValueOf(n, completed.nodes)), old(ValuesOf(completed.nodes)), u),
                    ok, old(completed.nodes), init)
    ensures ok ==> forall m | m in completed.nodes :: m in old(completed.nodes) || m == n || fresh(m)
    decreases |Shapes(u)| - |completed.nodes|, |u| - |n.now|, |n.pending|, 0
  {
    ghost var values, value := ValuesOf(completed.nodes), ValueOf(n, completed.nodes);
    DoneIsBounded(values, u);
    AlternativesWellFormed(value, u);
    var alts;
    ok, alts := Round(n, completed.nodes, init);
    if ok && |alts| == 1 {
      ok := ExpandNode(n, completed, init, u);
    } else if ok && |alts| == 2 {
      ok := ExpandBoth(n, alts[1], completed, init, u);
    }
  }

  /** The two calls of expand_node for a formula that is split. */
  method ExpandBoth(n: BuchiNode, n2: BuchiNode, completed: NodeList, init: BuchiNode, ghost u: set<Formula>)
    returns (ok: bool)
    requires Ready(n, completed, init, u) && Ready(n2, completed, init, u)
    requires n != n2 && |n.now| == |n2.now|
    modifies {n, n2, completed} + completed.Members()
    ensures var first := Expand(old(ValueOf(n, completed.nodes)), old(ValuesOf(completed.nodes)), u);
            var second := if first.None? then None else Expand(old(ValueOf(n2, completed.nodes)), first.value, u);
            Holding(completed, second, ok, old(completed.nodes), init)
    ensures ok ==> forall m | m in completed.nodes :: m in old(completed.nodes) || m == n || m == n2 || fresh(m)
    decreases |Shapes(u)| - |completed.nodes|, |u| - |n.now|
  {
    ghost var nodes := completed.nodes;
    ghost var values, v2 := ValuesOf(nodes), ValueOf(n2, nodes);
    ok := ExpandNode(n, completed, init, u);
    if ok {
      assert ValueOf(n2, nodes) == v2;
      RefsOfGrows(n2.incoming, nodes, completed.nodes, init);
      assert ValueOf(n2, completed.nodes) == v2;
      ghost var first := ValuesOf(completed.nodes);
      DoneIsBounded(first, u);
      assert Ready(n2, completed, init, u);
      assert forall m | m in completed.Members() :: m in old(completed.Members()) || m == n || fresh(m);
      ok := ExpandNode(n2, completed, init, u);
    }
  }
}
