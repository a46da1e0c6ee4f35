/** The passes around the expansion, on linked nodes: names, outgoing edges and accept marks
    (src/ltl/buchi-node.c, src/ltl/ltl-converter.c). */
module Pipeline {
  import opened Wrappers
  import opened Formulas
  import opened Tableau
  import opened Soundness
  import opened Language
  import opened Converter
  import opened Generator

  /** propositions_from_ltl_token_list */
  method CollectPropositions(fs: seq<Formula>) returns (ps: seq<Formula>)
    ensures ps == Propositions(fs)
  {
    ps := [];
    for i := 0 to |fs|
      invariant ps == Propositions(fs[..i])
    {
      assert fs[..i + 1][..i] == fs[..i];
      if IsProposition(fs[i]) {
        ps := ps + [fs[i]];
      }
    }
    assert fs[..|fs|] == fs;
  }

  /** The visitor of untils_from_ltl_formula, appending to the list it is given. */
  method CollectUntils(f: Formula, found: seq<Formula>) returns (r: seq<Formula>)
    ensures r == found + Untils(f)
  {
    r := found;
    match f {
      case Unary(_, a) => r := CollectUntils(a, r);
      case Bracket(a) => r := CollectUntils(a, r);
      case Binary(op, a, b) =>
        if op == Until {
          r := r + [f];
        }
        r := CollectUntils(a, r);
        r := CollectUntils(b, r);
        assert r == found + (if op == Until then [f] else []) + Untils(a) + Untils(b);
        assert r == found + Untils(f);
      case _ =>
    }
  }

  /** A list of nodes given by their indices. */
  ghost predicate Denotes(os: seq<BuchiNode>, nodes: seq<BuchiNode>, ks: seq<nat>) {
    |os| == |ks| && forall i | 0 <= i < |ks| :: ks[i] < |nodes| && os[i] == nodes[ks[i]]
  }

  lemma DenotesAppend(os: seq<BuchiNode>, o: BuchiNode, nodes: seq<BuchiNode>, ks: seq<nat>, k: nat)
    requires Denotes(os, nodes, ks) && k < |nodes| && o == nodes[k]
    ensures Denotes(os + [o], nodes, ks + [k])
  {
  }

  lemma RefOfDecides(o: BuchiNode, nodes: seq<BuchiNode>, init: BuchiNode, j: nat)
    requires NoDuplicates(nodes) && init !in nodes && (o in nodes || o == init) && j < |nodes|
    ensures RefOf(o, nodes) == At(j) <==> o == nodes[j]
    ensures RefOf(o, nodes) == Start <==> o == init
  {
    IndexOfUnique(nodes[j], nodes, j);
  }

  /** The edges entered after `upto` nodes and `i` sources of the next one. */
  function EdgesSoFar(m: NodeRef, done: seq<Node>, upto: nat, i: nat): seq<nat>
    requires upto < |done| && i <= |done[upto].incoming|
  {
    OutgoingUpTo(m, done, upto) +
    if Propositions(done[upto].now) == [] then []
    else Repeated(m, done[upto].incoming[..i], upto)
  }

  lemma NextEdge(m: NodeRef, done: seq<Node>, upto: nat, i: nat)
    requires upto < |done| && i < |done[upto].incoming| && Propositions(done[upto].now) != []
    ensures EdgesSoFar(m, done, upto, i + 1)
            == EdgesSoFar(m, done, upto, i) + if done[upto].incoming[i] == m then [upto] else []
  {
    var incoming := done[upto].incoming;
    assert incoming[..i + 1][..i] == incoming[..i];
  }

  lemma EdgesOfNode(done: seq<Node>, upto: nat)
    requires upto < |done|
    ensures forall m :: EdgesSoFar(m, done, upto, 0) == OutgoingUpTo(m, done, upto)
    ensures forall m :: EdgesSoFar(m, done, upto, |done[upto].incoming|) == OutgoingUpTo(m, done, upto + 1)
  {
    var incoming := done[upto].incoming;
    assert incoming[..|incoming|] == incoming && incoming[..0] == [];
  }

  /** postprocess_buchi_nodes: collects the propositions of the nodes, names them and enters
      outgoing edges. */
  method Postprocess(nodes: seq<BuchiNode>, init: BuchiNode)
    requires LinkedList(nodes, init) && init.outgoing == []
    modifies nodes`required, nodes`outgoing, nodes`number, init`outgoing
    ensures ValuesOf(nodes) == old(ValuesOf(nodes)) && Named(nodes)
    ensures EdgesInto(nodes, init, ValuesOf(nodes), |nodes|)
  {
    ghost var done := ValuesOf(nodes);
    NameNodes(nodes);
    assert ValuesOf(nodes) == done;
    EnterAllEdges(nodes, init, done);
    assert ValuesOf(nodes) == done;
  }

  /** The second loop. */
  method EnterAllEdges(nodes: seq<BuchiNode>, init: BuchiNode, ghost done: seq<Node>)
    requires LinkedList(nodes, init) && Named(nodes)
    requires |done| == |nodes| && forall j | 0 <= j < |nodes| :: done[j] == ValueOf(nodes[j], nodes)
    requires EdgesInto(nodes, init, done, 0)
    modifies nodes`outgoing, init`outgoing
    ensures EdgesInto(nodes, init, done, |nodes|)
  {
    for k := 0 to |nodes|
      invariant EdgesInto(nodes, init, done, k)
    {
      EnterEdges(nodes, init, k, done);
    }
  }

  ghost predicate Named(nodes: seq<BuchiNode>)
    reads nodes`required, nodes`now, nodes`number
  {
    forall k | 0 <= k < |nodes| :: nodes[k].required == Propositions(nodes[k].now) && nodes[k].number == k + 1
  }

  /** The first loop. */
  method NameNodes(nodes: seq<BuchiNode>)
    requires NoDuplicates(nodes)
    modifies nodes`required, nodes`outgoing, nodes`number
    ensures Named(nodes) && forall n | n in nodes :: n.outgoing == []
  {
    var counter := 1;
    for k := 0 to |nodes|
      invariant counter == k + 1
      invariant forall j | 0 <= j < k :: nodes[j].outgoing == [] && nodes[j].required == Propositions(nodes[j].now)
      invariant forall j | 0 <= j < k :: nodes[j].number == j + 1
    {
      nodes[k].outgoing := [];
      var ps := CollectPropositions(nodes[k].now);
      nodes[k].required := ps;
      nodes[k].number := counter;
      counter := counter + 1;
    }
  }

  /** The k-th node has exactly these edges. */
  ghost predicate HasEdges(nodes: seq<BuchiNode>, k: nat, ks: seq<nat>)
    requires k < |nodes|
    reads nodes`outgoing
  {
    Denotes(nodes[k].outgoing, nodes, ks)
  }

  /** The initial and all completed nodes have the edges that come from the first `upto` nodes. */
  ghost predicate EdgesInto(nodes: seq<BuchiNode>, init: BuchiNode, done: seq<Node>, upto: nat)
    requires upto <= |done|
    reads nodes`outgoing, init`outgoing
  {
    && Denotes(init.outgoing, nodes, OutgoingUpTo(Start, done, upto))
    && forall j: nat | j < |nodes| :: HasEdges(nodes, j, OutgoingUpTo(At(j), done, upto))
  }

  /** In addition they have the edges from the first i sources of the next node. */
  ghost predicate EdgesAlso(nodes: seq<BuchiNode>, init: BuchiNode, done: seq<Node>, upto: nat, i: nat)
    requires upto < |done| && i <= |done[upto].incoming|
    reads nodes`outgoing, init`outgoing
  {
    && Denotes(init.outgoing, nodes, EdgesSoFar(Start, done, upto, i))
    && forall j: nat | j < |nodes| :: HasEdges(nodes, j, EdgesSoFar(At(j), done, upto, i))
  }

  lemma EdgesBeforeAndAfter(nodes: seq<BuchiNode>, init: BuchiNode, done: seq<Node>, k: nat)
    requires k < |done|
    ensures EdgesInto(nodes, init, done, k) ==> EdgesAlso(nodes, init, done, k, 0)
    ensures EdgesAlso(nodes, init, done, k, |done[k].incoming|) ==> EdgesInto(nodes, init, done, k + 1)
    ensures Propositions(done[k].now) == [] ==>
              forall i: nat | i < |done[k].incoming| && EdgesAlso(nodes, init, done, k, i) ::
                EdgesAlso(nodes, init, done, k, i + 1)
  {
    EdgesOfNode(done, k);
    if EdgesInto(nodes, init, done, k) {
      assert forall j: nat | j < |nodes| :: HasEdges(nodes, j, OutgoingUpTo(At(j), done, k));
    }
    if EdgesAlso(nodes, init, done, k, |done[k].incoming|) {
      assert forall j: nat | j < |nodes| :: HasEdges(nodes, j, EdgesSoFar(At(j), done, k, |done[k].incoming|));
    }
  }

  /** Enters one edge. */
  method EnterEdge(ni: BuchiNode, nodes: seq<BuchiNode>, init: BuchiNode, k: nat, ghost i: nat, ghost done: seq<Node>)
    requires NoDuplicates(nodes) && init !in nodes && k < |nodes| == |done| && (ni in nodes || ni == init)
    requires i < |done[k].incoming| && done[k].incoming[i] == RefOf(ni, nodes) && Propositions(done[k].now) != []
    requires EdgesAlso(nodes, init, done, k, i)
    modifies ni`outgoing
    ensures EdgesAlso(nodes, init, done, k, i + 1)
  {
    ni.outgoing := ni.outgoing + [nodes[k]];
    NextEdge(Start, done, k, i);
    RefOfDecides(ni, nodes, init, k);
    if ni == init {
      DenotesAppend(old(ni.outgoing), nodes[k], nodes, EdgesSoFar(Start, done, k, i), k);
    }
    forall j: nat | j < |nodes| ensures HasEdges(nodes, j, EdgesSoFar(At(j), done, k, i + 1)) {
      assert old(HasEdges(nodes, j, EdgesSoFar(At(j), done, k, i)));
      NextEdge(At(j), done, k, i);
      RefOfDecides(ni, nodes, init, j);
      if ni == nodes[j] {
        DenotesAppend(old(ni.outgoing), nodes[k], nodes, EdgesSoFar(At(j), done, k, i), k);
      }
    }
  }

  /** The inner loop: enters an edge to node k for each of its sources. */
  method EnterEdges(nodes: seq<BuchiNode>, init: BuchiNode, k: nat, ghost done: seq<Node>)
    requires LinkedList(nodes, init) && k < |nodes| == |done| && done[k] == ValueOf(nodes[k], nodes)
    requires nodes[k].required == Propositions(nodes[k].now)
    requires EdgesInto(nodes, init, done, k)
    modifies nodes`outgoing, init`outgoing
    ensures EdgesInto(nodes, init, done, k + 1)
  {
    var n := nodes[k];
    assert Linked(n, nodes, init);
    EdgesBeforeAndAfter(nodes, init, done, k);
    for i := 0 to |n.incoming|
      invariant EdgesAlso(nodes, init, done, k, i)
    {
      var ni := n.incoming[i];
      assert ni in n.incoming && (ni in nodes || ni == init);
      if n.required != [] {
        EnterEdge(ni, nodes, init, k, i, done);
      } else {
        EdgesBeforeAndAfter(nodes, init, done, k);
      }
    }
    EdgesBeforeAndAfter(nodes, init, done, k);
  }

  /** calc_accept_states: a node is accepting unless an until of the formula is still open in it. */
  method CalcAcceptStates(nodes: seq<BuchiNode>, top: Formula)
    requires NoDuplicates(nodes)
    modifies nodes`isAccepting
    ensures forall k | 0 <= k < |nodes| :: nodes[k].isAccepting == IsAccepting(ValueOf(nodes[k], nodes), top)
  {
    var us := CollectUntils(top, []);
    for k := 0 to |nodes|
      invariant forall j | 0 <= j < k :: nodes[j].isAccepting
    {
      nodes[k].isAccepting := true;
    }
    for k := 0 to |nodes|
      invariant forall j | 0 <= j < k :: nodes[j].isAccepting == IsAccepting(ValueOf(nodes[j], nodes), top)
      invariant forall j | k <= j < |nodes| :: nodes[j].isAccepting
    {
      MarkNode(nodes[k], us, top, nodes);
    }
  }

  method MarkNode(n: BuchiNode, us: seq<Formula>, top: Formula, ghost nodes: seq<BuchiNode>)
    requires us == Untils(top) && n.isAccepting
    modifies n`isAccepting
    ensures n.isAccepting == IsAccepting(ValueOf(n, nodes), top)
  {
    for i := 0 to |us|
      invariant n.isAccepting == forall j | 0 <= j < i :: Fulfilled(ValueOf(n, nodes), us[j])
    {
      var t := us[i];
      UntilsCollectsAll(top, t);
      if t.right !in n.now && t in n.now {
        n.isAccepting := false;
      }
    }
  }

  /** The completed nodes and the initial node as ltl2buchi leaves them. */
  ghost predicate BuiltFor(nodes: seq<BuchiNode>, init: BuchiNode, top: Formula)
    reads nodes, init
  {
    && LinkedList(nodes, init)
    && Build(top) == Some(ValuesOf(nodes))
    && EdgesInto(nodes, init, ValuesOf(nodes), |nodes|)
    && Named(nodes) && init.number == 0 && Marked(nodes, top)
  }

  ghost predicate Marked(nodes: seq<BuchiNode>, top: Formula)
    reads nodes
  {
    forall k | 0 <= k < |nodes| :: nodes[k].isAccepting == IsAccepting(ValueOf(nodes[k], nodes), top)
  }

  /** The linked nodes and their values. */
  ghost predicate Shows(nodes: seq<BuchiNode>, top: Formula, done: seq<Node>)
    reads nodes
  {
    done == ValuesOf(nodes) && Named(nodes) && Marked(nodes, top)
  }

  ghost predicate BuiltAs(nodes: seq<BuchiNode>, init: BuchiNode, top: Formula, done: seq<Node>)
    reads nodes, init
  {
    BuiltFor(nodes, init, top) && Shows(nodes, top, done)
  }

  /** The passes over the completed nodes. */
  method FinishNodes(nodes: seq<BuchiNode>, init: BuchiNode, top: Formula)
    requires LinkedList(nodes, init) && init.outgoing == [] && init.number == 0 && Build(top) == Some(ValuesOf(nodes))
    modifies nodes`required, nodes`outgoing, nodes`number, nodes`isAccepting, init`outgoing
    ensures BuiltFor(nodes, init, top)
  {
    ghost var done := ValuesOf(nodes);
    Postprocess(nodes, init);
    CalcAcceptStates(nodes, top);
    assert ValuesOf(nodes) == done;
  }

  /** The initial node and the first node to expand. */
  method StartNodes(top: Formula) returns (init: BuchiNode, n: BuchiNode, completed: NodeList)
    ensures fresh(init) && fresh(n) && fresh(completed) && completed.nodes == []
    ensures init.outgoing == [] && init.number == 0
    ensures Ready(n, completed, init, Subformulas(top)) && ValueOf(n, []) == InitialNode(top) && ValuesOf([]) == []
  {
    init := new BuchiNode();
    n := new BuchiNode();
    n.incoming := [init];
    n.pending := [top];
    completed := new NodeList();
    InitialWellFormed(top);
    assert ValueOf(n, []) == InitialNode(top);
  }

  /** The expansion of the whole formula. */
  method ExpandTop(top: Formula) returns (ok: bool, completed: NodeList, init: BuchiNode)
    ensures ok == Build(top).Some? && fresh(completed) && fresh(init)
    ensures ok ==> Build(top) == Some(ValuesOf(completed.nodes)) && LinkedList(completed.nodes, init)
    ensures ok ==> init.outgoing == [] && init.number == 0 && forall m | m in completed.nodes :: fresh(m)
  {
    var n;
    init, n, completed := StartNodes(top);
    ok := ExpandNode(n, completed, init, Subformulas(top));
  }

  /** ltl2buchi: false is the fatal error of the expansion. */
  method Ltl2Buchi(top: Formula) returns (ok: bool, completed: NodeList, init: BuchiNode)
    ensures ok == Build(top).Some?
    ensures ok ==> |completed.nodes| > 0 && completed.nodes[|completed.nodes| - 1] == init
    ensures ok ==> BuiltFor(completed.nodes[..|completed.nodes| - 1], init, top)
  {
    ok, completed, init := ExpandTop(top);
    if ok {
      var nodes := completed.nodes;
      assert forall k | 0 <= k < |nodes| :: fresh(nodes[k]) by {
        forall k | 0 <= k < |nodes| ensures fresh(nodes[k]) { assert nodes[k] in nodes; }
      }
      FinishNodes(nodes, init, top);
      completed.nodes := nodes + [init];
      assert completed.nodes[..|completed.nodes| - 1] == nodes;
    }
  }
}
