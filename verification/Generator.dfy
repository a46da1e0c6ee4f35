/** From the completed tableau to the process definitions that check it: the outgoing edges
    (src/ltl/buchi-node.c, postprocess_buchi_nodes) and the decision of each definition
    (src/ltl/buchi-converter.c). */
module Generator {
  import opened Wrappers
  import opened Formulas
  import opened Tableau
  import opened Soundness
  import opened Conditions

  /** k, once for every occurrence of m in the list. */
  function Repeated(m: NodeRef, incoming: seq<NodeRef>, k: nat): seq<nat> {
    if incoming == [] then []
    else Repeated(m, incoming[..|incoming| - 1], k) + (if incoming[|incoming| - 1] == m then [k] else [])
  }

  /** The edges of m into the k-th node; a node without propositions gets none. */
  function Added(m: NodeRef, done: seq<Node>, k: nat): seq<nat>
    requires k < |done|
  {
    if Propositions(done[k].now) == [] then [] else Repeated(m, done[k].incoming, k)
  }

  /** The outgoing edges of m into the first `upto` nodes. */
  function OutgoingUpTo(m: NodeRef, done: seq<Node>, upto: nat): seq<nat>
    requires upto <= |done|
  {
    if upto == 0 then [] else OutgoingUpTo(m, done, upto - 1) + Added(m, done, upto - 1)
  }

  function Outgoing(m: NodeRef, done: seq<Node>): seq<nat> {
    OutgoingUpTo(m, done, |done|)
  }

  lemma {:induction false} RepeatedMembers(m: NodeRef, incoming: seq<NodeRef>, k: nat, j: nat)
    ensures j in Repeated(m, incoming, k) <==> j == k && m in incoming
  {
    if incoming != [] {
      var shorter := incoming[..|incoming| - 1];
      RepeatedMembers(m, shorter, k, j);
      assert incoming == shorter + [incoming[|incoming| - 1]];
    }
  }

  lemma AddedMembers(m: NodeRef, done: seq<Node>, k: nat, j: nat)
    requires k < |done|
    ensures j in Added(m, done, k) <==> j == k && m in done[k].incoming && Propositions(done[k].now) != []
  {
    RepeatedMembers(m, done[k].incoming, k, j);
  }

  lemma {:induction false} OutgoingMembers(m: NodeRef, done: seq<Node>, upto: nat, j: nat)
    requires upto <= |done|
    ensures j in OutgoingUpTo(m, done, upto)
            <==> j < upto && m in done[j].incoming && Propositions(done[j].now) != []
  {
    if upto > 0 {
      OutgoingMembers(m, done, upto - 1, j);
      AddedMembers(m, done, upto - 1, j);
    }
  }

  // ----- decisions -----

  /** What a definition does next: go on as a node, passing an accept action or not; stop in
      Abort; or test the propositions of a node first. */
  datatype Decision =
    | GoOn(target: nat, accept: bool)
    | Abort(accept: bool)
    | Test(conditions: seq<Formula>, target: nat, accept: bool, otherwise: Decision)

  /** A node that is entered without a test. */
  predicate Unconditional(n: Node) {
    var ps := Propositions(n.now);
    ps == [] || (|ps| == 1 && IsTrue(ps[0]))
  }

  function NodeAt(done: seq<Node>, k: nat): Node {
    if k < |done| then done[k] else Node([], [], [], [])
  }

  function Conditionals(done: seq<Node>, ks: seq<nat>): seq<nat> {
    if ks == [] then []
    else
      var k := ks[|ks| - 1];
      Conditionals(done, ks[..|ks| - 1]) + if Unconditional(NodeAt(done, k)) then [] else [k]
  }

  function Elses(done: seq<Node>, ks: seq<nat>): seq<nat> {
    if ks == [] then []
    else
      var k := ks[|ks| - 1];
      Elses(done, ks[..|ks| - 1]) + if Unconditional(NodeAt(done, k)) then [k] else []
  }

  lemma {:induction false} SplitMembers(done: seq<Node>, ks: seq<nat>, k: nat)
    ensures k in Conditionals(done, ks) <==> k in ks && !Unconditional(NodeAt(done, k))
    ensures k in Elses(done, ks) <==> k in ks && Unconditional(NodeAt(done, k))
  {
    if ks != [] {
      SplitMembers(done, ks[..|ks| - 1], k);
      assert ks == ks[..|ks| - 1] + [ks[|ks| - 1]];
    }
  }

  function Chain(done: seq<Node>, top: Formula, conditionals: seq<nat>, last: Decision): Decision {
    if conditionals == [] then last
    else
      var n := NodeAt(done, conditionals[0]);
      Test(Propositions(n.now), conditionals[0], IsAccepting(n, top), Chain(done, top, conditionals[1..], last))
  }

  /** The alternative after all tests: the unconditional edge if there is one. */
  function LastOf(done: seq<Node>, top: Formula, conditionals: seq<nat>, elses: seq<nat>): Decision {
    if elses == [] then Abort(conditionals == []) else GoOn(elses[0], IsAccepting(NodeAt(done, elses[0]), top))
  }

  /** The decision of the definition of node m; None when a second unconditional edge fails the
      assertion of the generator. */
  function DecisionOf(done: seq<Node>, top: Formula, m: NodeRef): Option<Decision> {
    var ks := Outgoing(m, done);
    var conditionals, elses := Conditionals(done, ks), Elses(done, ks);
    if |elses| > 1 then None
    else
      Some(Chain(done, top, conditionals, LastOf(done, top, conditionals, elses)))
  }

  /** How a decision runs in a state: the tests, as they are read, are tried in order. */
  function Choose(d: Decision, s: State): Decision {
    match d
    case Test(ps, target, accept, otherwise) => if TestHolds(ps, s) then GoOn(target, accept) else Choose(otherwise, s)
    case _ => d
  }

  /** The test of the k-th node passes. */
  predicate Passes(done: seq<Node>, k: nat, s: State) {
    TestHolds(Propositions(NodeAt(done, k).now), s)
  }

  /** The first of the nodes whose test passes. */
  function FirstPassing(done: seq<Node>, cs: seq<nat>, s: State): (r: Option<nat>)
    ensures r.Some? ==> r.value < |cs| && Passes(done, cs[r.value], s)
    ensures forall j | 0 <= j < (if r.Some? then r.value else |cs|) :: !Passes(done, cs[j], s)
  {
    if cs == [] then None
    else if Passes(done, cs[0], s) then Some(0)
    else
      assert forall j | 1 <= j < |cs| :: cs[j] == cs[1..][j - 1];
      match FirstPassing(done, cs[1..], s)
      case Some(i) => Some(i + 1)
      case None => None
  }

  /** In every state the chain picks the first conditional edge whose test passes, else the last
      alternative: the unconditional edge or Abort. */
  lemma {:induction false} ChainPicksFirst(done: seq<Node>, top: Formula, cs: seq<nat>, last: Decision, s: State)
    requires !last.Test?
    ensures Choose(Chain(done, top, cs, last), s) ==
      match FirstPassing(done, cs, s)
      case Some(i) => GoOn(cs[i], IsAccepting(NodeAt(done, cs[i]), top))
      case None => last
  {
    if cs != [] && !Passes(done, cs[0], s) {
      ChainPicksFirst(done, top, cs[1..], last, s);
    }
  }

  lemma {:induction false} TrueValue(f: Formula, s: State)
    ensures IsTrue(f) ==> Value(f, s) != 0
    ensures IsFalse(f) ==> Value(f, s) == 0
  {
    if f.Unary? && f.uop == Not {
      TrueValue(f.arg, s);
    } else if f.BoolValue? {
      assert Value(f, s) == AsInt(f.bool_);
    }
  }

  /** The test of a node that is entered without one would pass. */
  lemma UnconditionalPasses(done: seq<Node>, k: nat, s: State)
    requires Unconditional(NodeAt(done, k))
    ensures Passes(done, k, s) && AllHold(Propositions(NodeAt(done, k).now), s)
  {
    var ps := Propositions(NodeAt(done, k).now);
    if ps != [] { TrueValue(ps[0], s); }
  }

  // ----- which successor is taken -----

  /** k is the first successor of m, in the order of the edges, whose test passes; a successor without
      a test comes last. */
  predicate IsFirst(done: seq<Node>, m: NodeRef, s: State, k: nat) {
    var ks := Outgoing(m, done);
    var cs, es := Conditionals(done, ks), Elses(done, ks);
    match FirstPassing(done, cs, s)
    case Some(i) => k == cs[i]
    case None => k in es
  }

  /** A definition goes on to a node if and only if that is the first one whose test passes, and shows
      accept exactly when that node is accepting. */
  lemma GoesOnExactly(done: seq<Node>, top: Formula, m: NodeRef, s: State, k: nat, accept: bool)
    requires DecisionOf(done, top, m).Some?
    ensures Choose(DecisionOf(done, top, m).value, s) == GoOn(k, accept) <==>
            IsFirst(done, m, s, k) && accept == IsAccepting(NodeAt(done, k), top)
  {
    var ks := Outgoing(m, done);
    var cs, es := Conditionals(done, ks), Elses(done, ks);
    ChainPicksFirst(done, top, cs, LastOf(done, top, cs, es), s);
  }

  /** It goes on only along an edge of the tableau into a node that lists a proposition and whose test
      passes. */
  lemma FirstFollowsEdge(done: seq<Node>, m: NodeRef, s: State, k: nat)
    requires IsFirst(done, m, s, k)
    ensures k < |done| && m in done[k].incoming && Propositions(done[k].now) != [] && Passes(done, k, s)
  {
    var ks := Outgoing(m, done);
    SplitMembers(done, ks, k);
    OutgoingMembers(m, done, |done|, k);
    if FirstPassing(done, Conditionals(done, ks), s).None? { UnconditionalPasses(done, k, s); }
  }

  /** A successor whose test passes is the first one when no other successor passes. */
  lemma OnlyIsFirst(done: seq<Node>, m: NodeRef, s: State, k: nat)
    requires k in Outgoing(m, done) && Passes(done, k, s)
    requires forall j | j in Outgoing(m, done) && Passes(done, j, s) :: j == k
    ensures IsFirst(done, m, s, k)
  {
    var ks := Outgoing(m, done);
    var cs := Conditionals(done, ks);
    SplitMembers(done, ks, k);
    match FirstPassing(done, cs, s)
    case Some(i) => SplitMembers(done, ks, cs[i]);
    case None =>
  }

  // ----- leaving the definitions -----

  /** Some successor of m is tested. */
  predicate HasTest(done: seq<Node>, m: NodeRef) {
    exists k :: 0 <= k < |done| && TestedFrom(done, m, k)
  }

  predicate TestedFrom(done: seq<Node>, m: NodeRef, k: nat)
    requires k < |done|
  {
    m in done[k].incoming && Propositions(done[k].now) != [] && !Unconditional(done[k])
  }

  lemma HasTestExactly(done: seq<Node>, m: NodeRef)
    ensures HasTest(done, m) <==> Conditionals(done, Outgoing(m, done)) != []
  {
    var ks := Outgoing(m, done);
    var cs := Conditionals(done, ks);
    if cs != [] {
      SplitMembers(done, ks, cs[0]);
      OutgoingMembers(m, done, |done|, cs[0]);
      assert TestedFrom(done, m, cs[0]);
    }
    if k :| 0 <= k < |done| && TestedFrom(done, m, k) {
      OutgoingMembers(m, done, |done|, k);
      SplitMembers(done, ks, k);
    }
  }

  /** A definition abandons the run if and only if no successor is first, and shows accept then if and only if
      none of its successors is tested. */
  lemma AbandonsExactly(done: seq<Node>, top: Formula, m: NodeRef, s: State, accept: bool)
    requires DecisionOf(done, top, m).Some?
    ensures Choose(DecisionOf(done, top, m).value, s) == Abort(accept) <==>
            (forall k :: !IsFirst(done, m, s, k)) && accept == !HasTest(done, m)
  {
    var ks := Outgoing(m, done);
    var cs, es := Conditionals(done, ks), Elses(done, ks);
    var last := LastOf(done, top, cs, es);
    ChainPicksFirst(done, top, cs, last, s);
    HasTestExactly(done, m);
    match FirstPassing(done, cs, s)
    case Some(i) => assert IsFirst(done, m, s, cs[i]);
    case None => if es != [] { assert IsFirst(done, m, s, es[0]); }
  }
}
