/** Tableaux of particular formulas, computed step by step, and what their processes accept. */
module Samples {
  import opened Wrappers
  import opened Formulas
  import opened Tableau
  import opened Soundness
  import opened Language
  import opened Normalizer
  import opened Generator
  import opened Processes

  // ----- single steps of the expansion -----

  /** Where the expansion of n is defined, it results in r. */
  ghost predicate Leads(n: Node, done: seq<Node>, u: set<Formula>, r: seq<Node>) {
    Closed(u) && WellFormed(n, u) && WellFormedDone(done, u) ==> Expand(n, done, u) == Some(r)
  }

  lemma LeadsNone(n: Node, done: seq<Node>, u: set<Formula>)
    requires n.pending != [] && Alternatives(n) == Some([])
    ensures Leads(n, done, u, done)
  {
    if Closed(u) && WellFormed(n, u) && WellFormedDone(done, u) {
      AlternativesWellFormed(n, u);
      DoneIsBounded(done, u);
    }
  }

  lemma LeadsOne(n: Node, a: Node, done: seq<Node>, u: set<Formula>, r: seq<Node>)
    requires n.pending != [] && Alternatives(n) == Some([a]) && Leads(a, done, u, r)
    ensures Leads(n, done, u, r)
  {
    if Closed(u) && WellFormed(n, u) && WellFormedDone(done, u) {
      AlternativesWellFormed(n, u);
      DoneIsBounded(done, u);
      assert a in Alternatives(n).value;
    }
  }

  lemma LeadsTwo(n: Node, a: Node, b: Node, done: seq<Node>, mid: seq<Node>, u: set<Formula>, r: seq<Node>)
    requires n.pending != [] && Alternatives(n) == Some([a, b]) && Leads(a, done, u, mid) && Leads(b, mid, u, r)
    ensures Leads(n, done, u, r)
  {
    if Closed(u) && WellFormed(n, u) && WellFormedDone(done, u) {
      AlternativesWellFormed(n, u);
      DoneIsBounded(done, u);
      assert a in Alternatives(n).value && b in Alternatives(n).value;
      DoneIsBounded(mid, u);
    }
  }

  /** A node with the contents of the k-th completed one. */
  lemma LeadsMerged(n: Node, done: seq<Node>, k: nat, u: set<Formula>)
    requires n.pending == [] && FindSame(done, n) == Some(k)
    ensures Leads(n, done, u, done[k := done[k].(incoming := done[k].incoming + n.incoming)])
  {
    if Closed(u) && WellFormed(n, u) && WellFormedDone(done, u) { DoneIsBounded(done, u); }
  }

  lemma LeadsCompleted(n: Node, done: seq<Node>, u: set<Formula>, r: seq<Node>)
    requires n.pending == [] && FindSame(done, n) == None && Leads(Successor(n, |done|), done + [n], u, r)
    ensures Leads(n, done, u, r)
  {
    if Closed(u) && WellFormed(n, u) && WellFormedDone(done, u) {
      DoneIsBounded(done, u);
      DoneIsBounded(done + [n], u);
    }
  }

  lemma LeadsBuild(top: Formula, r: seq<Node>)
    requires Leads(InitialNode(top), [], Subformulas(top), r)
    ensures Build(top) == Some(r)
  {
    InitialWellFormed(top);
  }

  // ----- the alternatives of the operators -----

  function AlwaysOf(g: Formula): Formula {
    Binary(Release, BoolValue(false), g)
  }

  lemma AlwaysAlternatives(g: Formula, incoming: seq<NodeRef>, rest: seq<Formula>)
    ensures var f := AlwaysOf(g);
            Alternatives(Node(incoming, [], [f] + rest, [])) ==
            Some([Node(incoming, [f], rest + [g], [f]), Node(incoming, [f], rest + [g, BoolValue(false)], [])])
  {
    var f := AlwaysOf(g);
    var n := Node(incoming, [], [f] + rest, []);
    assert n.pending[1..] == rest;
    assert Advance(n, [g], [f]) == Node(incoming, [f], rest + [g], [f]);
    assert Advance(n, [g, BoolValue(false)], []) == Node(incoming, [f], rest + [g, BoolValue(false)], []);
  }

  /** A proposition that is not false and not contradicted is moved to now. */
  lemma PropositionAlternative(n: Node, p: Formula, rest: seq<Formula>)
    requires n.pending == [p] + rest && IsProposition(p) && p !in n.now && !IsFalse(p) && Negate(p) !in n.now
    ensures Alternatives(n) == Some([Node(n.incoming, n.now + [p], rest, n.next)])
  {
    assert n.pending[1..] + [] == rest && n.next + [] == n.next;
    assert Advance(n, [], []) == Node(n.incoming, n.now + [p], rest, n.next);
  }

  lemma AndAlternative(n: Node, a: Formula, b: Formula, rest: seq<Formula>)
    requires n.pending == [Binary(PathAnd, a, b)] + rest && Binary(PathAnd, a, b) !in n.now
    ensures Alternatives(n) == Some([Node(n.incoming, n.now + [Binary(PathAnd, a, b)], rest + [a, b], n.next)])
  {
    assert n.pending[1..] == rest && n.next + [] == n.next;
    assert Advance(n, [a, b], []) == Node(n.incoming, n.now + [Binary(PathAnd, a, b)], rest + [a, b], n.next);
  }

  lemma OrAlternatives(n: Node, a: Formula, b: Formula, rest: seq<Formula>)
    requires n.pending == [Binary(PathOr, a, b)] + rest && Binary(PathOr, a, b) !in n.now
    ensures Alternatives(n) == Some([Node(n.incoming, n.now + [Binary(PathOr, a, b)], rest + [a], n.next),
                                     Node(n.incoming, n.now + [Binary(PathOr, a, b)], rest + [b], n.next)])
  {
    assert n.pending[1..] == rest && n.next + [] == n.next;
    assert Advance(n, [a], []) == Node(n.incoming, n.now + [Binary(PathOr, a, b)], rest + [a], n.next);
    assert Advance(n, [b], []) == Node(n.incoming, n.now + [Binary(PathOr, a, b)], rest + [b], n.next);
  }

  lemma UntilAlternatives(n: Node, a: Formula, b: Formula, rest: seq<Formula>)
    requires n.pending == [Binary(Until, a, b)] + rest && Binary(Until, a, b) !in n.now
    ensures var t := Binary(Until, a, b);
            Alternatives(n) == Some([Node(n.incoming, n.now + [t], rest + [a], n.next + [t]),
                                     Node(n.incoming, n.now + [t], rest + [b], n.next)])
  {
    var t := Binary(Until, a, b);
    assert n.pending[1..] == rest && n.next + [] == n.next;
    assert Advance(n, [a], [t]) == Node(n.incoming, n.now + [t], rest + [a], n.next + [t]);
    assert Advance(n, [b], []) == Node(n.incoming, n.now + [t], rest + [b], n.next);
  }

  lemma LeadsProposition(n: Node, p: Formula, rest: seq<Formula>, done: seq<Node>, u: set<Formula>, r: seq<Node>)
    requires n.pending == [p] + rest && IsProposition(p) && p !in n.now && !IsFalse(p) && Negate(p) !in n.now
    requires Leads(Node(n.incoming, n.now + [p], rest, n.next), done, u, r)
    ensures Leads(n, done, u, r)
  {
    PropositionAlternative(n, p, rest);
    LeadsOne(n, Node(n.incoming, n.now + [p], rest, n.next), done, u, r);
  }

  lemma LeadsAnd(n: Node, a: Formula, b: Formula, rest: seq<Formula>, done: seq<Node>, u: set<Formula>, r: seq<Node>)
    requires n.pending == [Binary(PathAnd, a, b)] + rest && Binary(PathAnd, a, b) !in n.now
    requires Leads(Node(n.incoming, n.now + [Binary(PathAnd, a, b)], rest + [a, b], n.next), done, u, r)
    ensures Leads(n, done, u, r)
  {
    AndAlternative(n, a, b, rest);
    LeadsOne(n, Node(n.incoming, n.now + [Binary(PathAnd, a, b)], rest + [a, b], n.next), done, u, r);
  }

  lemma LeadsUntil(n: Node, a: Formula, b: Formula, rest: seq<Formula>, done: seq<Node>, mid: seq<Node>,
                   u: set<Formula>, r: seq<Node>)
    requires n.pending == [Binary(Until, a, b)] + rest && Binary(Until, a, b) !in n.now
    requires var t := Binary(Until, a, b);
             Leads(Node(n.incoming, n.now + [t], rest + [a], n.next + [t]), done, u, mid) &&
             Leads(Node(n.incoming, n.now + [t], rest + [b], n.next), mid, u, r)
    ensures Leads(n, done, u, r)
  {
    var t := Binary(Until, a, b);
    UntilAlternatives(n, a, b, rest);
    LeadsTwo(n, Node(n.incoming, n.now + [t], rest + [a], n.next + [t]),
             Node(n.incoming, n.now + [t], rest + [b], n.next), done, mid, u, r);
  }

  lemma LeadsAlways(g: Formula, incoming: seq<NodeRef>, rest: seq<Formula>, done: seq<Node>, mid: seq<Node>,
                    u: set<Formula>, r: seq<Node>)
    requires var f := AlwaysOf(g);
             Leads(Node(incoming, [f], rest + [g], [f]), done, u, mid) &&
             Leads(Node(incoming, [f], rest + [g, BoolValue(false)], []), mid, u, r)
    ensures Leads(Node(incoming, [], [AlwaysOf(g)] + rest, []), done, u, r)
  {
    var f := AlwaysOf(g);
    AlwaysAlternatives(g, incoming, rest);
    LeadsTwo(Node(incoming, [], [f] + rest, []), Node(incoming, [f], rest + [g], [f]),
             Node(incoming, [f], rest + [g, BoolValue(false)], []), done, mid, u, r);
  }

  /** A formula that is listed already is passed over. */
  lemma LeadsSkipped(n: Node, rest: seq<Formula>, done: seq<Node>, u: set<Formula>, r: seq<Node>)
    requires n.pending != [] && n.pending[0] in n.now && n.pending[1..] == rest
    requires Leads(Node(n.incoming, n.now, rest, n.next), done, u, r)
    ensures Leads(n, done, u, r)
  {
    LeadsOne(n, Node(n.incoming, n.now, rest, n.next), done, u, r);
  }

  /** A false constant closes the node. */
  lemma LeadsBlocked(n: Node, done: seq<Node>, u: set<Formula>)
    requires n.pending != [] && IsProposition(n.pending[0]) && IsFalse(n.pending[0]) && n.pending[0] !in n.now
    ensures Leads(n, done, u, done)
  {
    LeadsNone(n, done, u);
  }

  // ----- always p, for a proposition: nothing is lost -----

  lemma ExpandAlwaysFalse(p: Formula, incoming: seq<NodeRef>, done: seq<Node>, u: set<Formula>)
    requires IsProposition(p) && IsFalse(p)
    ensures Leads(Node(incoming, [], [AlwaysOf(p)], []), done, u, done)
  {
    var f := AlwaysOf(p);
    var a, b := Node(incoming, [f], [p], [f]), Node(incoming, [f], [p, BoolValue(false)], []);
    AlwaysAlternatives(p, incoming, []);
    assert [f] + [] == [f] && [] + [p] == [p] && [] + [p, BoolValue(false)] == [p, BoolValue(false)];
    LeadsBlocked(a, done, u);
    LeadsBlocked(b, done, u);
    LeadsTwo(Node(incoming, [], [f], []), a, b, done, done, u, done);
  }

  function AlwaysNode(p: Formula, incoming: seq<NodeRef>): Node {
    Node(incoming, [AlwaysOf(p), p], [], [AlwaysOf(p)])
  }

  /** The expansion of an always over a proposition that is not false leads to one kind of node. */
  lemma ExpandAlways(p: Formula, incoming: seq<NodeRef>, done: seq<Node>, u: set<Formula>, r: seq<Node>)
    requires IsProposition(p) && !IsFalse(p) && Leads(AlwaysNode(p, incoming), done, u, r)
    ensures Leads(Node(incoming, [], [AlwaysOf(p)], []), done, u, r)
  {
    var f, ff := AlwaysOf(p), BoolValue(false);
    var a, b := Node(incoming, [f], [p], [f]), Node(incoming, [f], [p, ff], []);
    AlwaysAlternatives(p, incoming, []);
    assert [f] + [] == [f] && [] + [p] == [p] && [] + [p, ff] == [p, ff];
    assert [f] + [p] == [f, p] && [p] + [] == [p] && [p] + [ff] == [p, ff];
    PropositionAlternative(a, p, []);
    LeadsOne(a, AlwaysNode(p, incoming), done, u, r);
    var c := Node(incoming, [f, p], [ff], []);
    LeadsBlocked(c, r, u);
    PropositionAlternative(b, p, [ff]);
    LeadsOne(b, c, r, u, r);
    LeadsTwo(Node(incoming, [], [f], []), a, b, done, r, u, r);
  }

  lemma AlwaysTableau(p: Formula)
    requires IsProposition(p)
    ensures Build(AlwaysOf(p)) == Some(if IsFalse(p) then [] else [AlwaysNode(p, [Start, At(0)])])
  {
    var f := AlwaysOf(p);
    var u := Subformulas(f);
    if IsFalse(p) {
      ExpandAlwaysFalse(p, [Start], [], u);
      LeadsBuild(f, []);
    } else {
      var m, m' := AlwaysNode(p, [Start]), AlwaysNode(p, [At(0)]);
      var done := [AlwaysNode(p, [Start, At(0)])];
      LeadsMerged(m', [m], 0, u);
      assert [Start] + [At(0)] == [Start, At(0)];
      assert [m][0 := m.(incoming := m.incoming + m'.incoming)] == done;
      ExpandAlways(p, [At(0)], [m], u, done);
      assert [] + [m] == [m] && Successor(m, 0) == Node([At(0)], [], [f], []);
      LeadsCompleted(m, [], u, done);
      ExpandAlways(p, [Start], [], u, done);
      LeadsBuild(f, done);
    }
  }

  lemma {:induction false} RepeatedOnce(m: NodeRef, incoming: seq<NodeRef>, k: nat)
    requires NoDuplicates(incoming)
    ensures |Repeated(m, incoming, k)| <= 1
  {
    if incoming != [] {
      var front := incoming[..|incoming| - 1];
      RepeatedOnce(m, front, k);
      if Repeated(m, front, k) != [] { RepeatedMembers(m, front, k, Repeated(m, front, k)[0]); }
    }
  }

  lemma {:induction false} ElsesWithin(done: seq<Node>, ks: seq<nat>)
    ensures |Elses(done, ks)| <= |ks|
  {
    if ks != [] { ElsesWithin(done, ks[..|ks| - 1]); }
  }

  lemma SingleDecided(n: Node, top: Formula)
    requires NoDuplicates(n.incoming)
    ensures Decided([n], top)
  {
    forall m ensures DecisionOf([n], top, m).Some? {
      RepeatedOnce(m, n.incoming, 0);
      assert OutgoingUpTo(m, [n], 0) == [];
      assert |Outgoing(m, [n])| <= 1;
      ElsesWithin([n], Outgoing(m, [n]));
    }
  }

  lemma PropositionsBehind(s: seq<Formula>, x: Formula)
    ensures Propositions(s + [x]) == Propositions(s) + if IsProposition(x) then [x] else []
  {
    assert (s + [x])[..|s|] == s;
  }

  lemma PropositionsOfPair(f: Formula, p: Formula)
    requires !IsProposition(f) && IsProposition(p)
    ensures Propositions([f, p]) == [p]
  {
    PropositionsBehind([], f);
    PropositionsBehind([f], p);
    assert [] + [f] == [f] && [f] + [p] == [f, p];
  }

  lemma PropositionsOfThree(f: Formula, g: Formula, p: Formula)
    requires !IsProposition(f) && !IsProposition(g) && IsProposition(p)
    ensures Propositions([f, g, p]) == [p]
  {
    PropositionsBehind([], f);
    PropositionsBehind([f], g);
    PropositionsBehind([f, g], p);
    assert [] + [f] == [f] && [f] + [g] == [f, g] && [f, g] + [p] == [f, g, p];
  }

  lemma AlwaysNodeTested(p: Formula)
    requires IsProposition(p)
    ensures var n := AlwaysNode(p, [Start, At(0)]); NoDuplicates(n.incoming) && |Propositions(n.now)| == 1
  {
    PropositionsOfPair(AlwaysOf(p), p);
  }

  lemma EmptyDecided(top: Formula)
    ensures Decided([], top)
  {
    assert Outgoing(Start, []) == [];
  }

  lemma OneNodeRegular(done: seq<Node>, top: Formula)
    requires |done| <= 1
    requires done != [] ==> NoDuplicates(done[0].incoming) && |Propositions(done[0].now)| == 1
    ensures Decided(done, top) && Regular(done)
  {
    if done == [] {
      EmptyDecided(top);
    } else {
      SingleDecided(done[0], top);
      assert done == [done[0]];
    }
    forall m, j, k, s ensures BothHold(done, m, j, k, s) ==> j == k { }
  }

  lemma AlwaysRegular(g: Formula)
    requires IsProposition(g)
    ensures Build(AlwaysOf(g)).Some?
    ensures Decided(Build(AlwaysOf(g)).value, AlwaysOf(g)) && Regular(Build(AlwaysOf(g)).value)
  {
    AlwaysTableau(g);
    AlwaysNodeTested(g);
    OneNodeRegular(if IsFalse(g) then [] else [AlwaysNode(g, [Start, At(0)])], AlwaysOf(g));
  }

  lemma NoUntilsRegular(f: Formula, top: Formula, w: Word)
    requires Normalize(f) == top && Untils(top) == [] && Build(top).Some?
    requires Decided(Build(top).value, top) && Regular(Build(top).value)
    ensures Generated(f) && (GeneratedAccepts(f, w) <==> Holds(w, 0, f))
  {
    ProcessIsExact(f, w);
  }

  lemma AlwaysNormalized(p: Formula)
    ensures Normalize(Unary(Globally, p)) == AlwaysOf(Normalize(p))
    ensures Untils(Normalize(p)) == [] ==> Untils(AlwaysOf(Normalize(p))) == []
  {
  }

  /** For "always p" the process accepts exactly the words on which p always holds. */
  lemma AlwaysIsExact(p: Formula, w: Word)
    requires IsProposition(p)
    ensures Generated(Unary(Globally, p))
    ensures GeneratedAccepts(Unary(Globally, p), w) <==> Holds(w, 0, Unary(Globally, p))
  {
    var g := Normalize(p);
    NormalizeProposition(p);
    AlwaysNormalized(p);
    AlwaysRegular(g);
    NoUntilsInPropositions(g);
    NoUntilsRegular(Unary(Globally, p), AlwaysOf(g), w);
  }

  lemma {:induction false} NoUntilsInPropositions(p: Formula)
    requires IsProposition(p)
    ensures Untils(p) == []
  {
    match p
    case Unary(_, a) => NoUntilsInPropositions(a);
    case Bracket(a) => NoUntilsInPropositions(a);
    case Binary(_, a, b) => NoUntilsInPropositions(a); NoUntilsInPropositions(b);
    case _ =>
  }

  /** In a state that violates p the definitions for "always p" abandon the run without passing accept. */
  lemma AlwaysAbandons(p: Formula, m: NodeRef, s: State)
    requires IsProposition(p) && !IsFalse(p) && !IsTrue(p) && Value(p, s) == 0 && (m == Start || m == At(0))
    ensures Build(AlwaysOf(p)).Some? && DecisionOf(Build(AlwaysOf(p)).value, AlwaysOf(p), m).Some?
    ensures Choose(DecisionOf(Build(AlwaysOf(p)).value, AlwaysOf(p), m).value, s) == Abort(false)
  {
    AlwaysTableau(p);
    AlwaysNodeTested(p);
    PropositionsOfPair(AlwaysOf(p), p);
    OneTestAbandons(AlwaysNode(p, [Start, At(0)]), AlwaysOf(p), p, m, s);
  }

  lemma OneTestAbandons(n: Node, top: Formula, p: Formula, m: NodeRef, s: State)
    requires NoDuplicates(n.incoming) && m in n.incoming && (m == Start || m == At(0))
    requires Propositions(n.now) == [p] && !IsTrue(p) && Value(p, s) == 0
    ensures DecisionOf([n], top, m).Some? && Choose(DecisionOf([n], top, m).value, s) == Abort(false)
  {
    SingleDecided(n, top);
    assert TestedFrom([n], m, 0);
    forall k ensures !IsFirst([n], m, s, k) {
      if IsFirst([n], m, s, k) { FirstFollowsEdge([n], m, s, k); }
    }
    AbandonsExactly([n], top, m, s, false);
  }

  lemma OneTestDecision(n: Node, top: Formula, p: Formula, m: NodeRef)
    requires NoDuplicates(n.incoming) && m in n.incoming && Propositions(n.now) == [p] && !IsTrue(p)
    ensures DecisionOf([n], top, m) == Some(Test([p], 0, IsAccepting(n, top), Abort(false)))
  {
    RepeatedExactly(m, n.incoming, 0);
    assert OutgoingUpTo(m, [n], 0) == [];
    assert Outgoing(m, [n]) == [0];
    OneTestChain([n], top);
  }

  lemma OneTestChain(done: seq<Node>, top: Formula)
    requires |done| == 1 && !Unconditional(done[0])
    ensures var ks: seq<nat> := [0];
            Conditionals(done, ks) == ks && Elses(done, ks) == [] &&
            Chain(done, top, ks, LastOf(done, top, ks, [])) ==
            Test(Propositions(done[0].now), 0, IsAccepting(done[0], top), Abort(false))
  {
    var ks: seq<nat>, none: seq<nat> := [0], [];
    assert ks[..0] == none && ks[1..] == none;
    var last := LastOf(done, top, ks, none);
    assert last == Abort(false) && Chain(done, top, none, last) == last;
  }

  /** Both definitions for "always p" test p, go on with accept, and abort else. */
  lemma AlwaysDecision(p: Formula, m: NodeRef)
    requires IsProposition(p) && !IsTrue(p) && (m == Start || m == At(0))
    ensures DecisionOf([AlwaysNode(p, [Start, At(0)])], AlwaysOf(p), m) == Some(Test([p], 0, true, Abort(false)))
  {
    var n := AlwaysNode(p, [Start, At(0)]);
    AlwaysNodeTested(p);
    PropositionsOfPair(AlwaysOf(p), p);
    OneTestDecision(n, AlwaysOf(p), p, m);
    NoUntilsInPropositions(p);
    NoUntilsAccepting(n, AlwaysOf(p));
  }

  lemma NoUntilsAccepting(n: Node, top: Formula)
    requires Untils(top) == []
    ensures IsAccepting(n, top)
  {
  }

  // ----- two nodes that both follow -----

  lemma RepeatedExactly(m: NodeRef, incoming: seq<NodeRef>, k: nat)
    requires NoDuplicates(incoming) && m in incoming
    ensures Repeated(m, incoming, k) == [k]
  {
    RepeatedOnce(m, incoming, k);
    RepeatedMembers(m, incoming, k, k);
  }

  lemma TwoEdges(done: seq<Node>, m: NodeRef)
    requires |done| == 2
    requires NoDuplicates(done[0].incoming) && m in done[0].incoming && Propositions(done[0].now) != []
    requires NoDuplicates(done[1].incoming) && m in done[1].incoming && Propositions(done[1].now) != []
    ensures Outgoing(m, done) == [0, 1]
  {
    RepeatedExactly(m, done[0].incoming, 0);
    RepeatedExactly(m, done[1].incoming, 1);
    assert OutgoingUpTo(m, done, 0) == [];
    assert OutgoingUpTo(m, done, 1) == [0];
  }

  lemma TwoTests(done: seq<Node>)
    requires |done| == 2 && !Unconditional(done[0]) && !Unconditional(done[1])
    ensures Conditionals(done, [0, 1]) == [0, 1]
  {
    assert [0, 1][..1] == [0] && [0][..0] == [];
    assert Conditionals(done, [0]) == [0];
  }

  lemma OnlyTests(done: seq<Node>, m: NodeRef)
    requires forall k | 0 <= k < |done| :: !Unconditional(done[k])
    ensures Elses(done, Outgoing(m, done)) == []
  {
    var ks := Outgoing(m, done);
    if Elses(done, ks) != [] {
      var k := Elses(done, ks)[0];
      SplitMembers(done, ks, k);
      OutgoingMembers(m, done, |done|, k);
    }
  }

  /** Two nodes with different edges each, both entered by a test. */
  predicate TwoTested(done: seq<Node>) {
    |done| == 2 && IsTested(done[0]) && IsTested(done[1])
  }

  predicate IsTested(n: Node) {
    NoDuplicates(n.incoming) && Propositions(n.now) != [] && !Unconditional(n)
  }

  lemma TwoSuccessors(done: seq<Node>, m: NodeRef)
    requires TwoTested(done)
    ensures Elses(done, Outgoing(m, done)) == []
    ensures m in done[0].incoming && m in done[1].incoming ==> Conditionals(done, Outgoing(m, done)) == [0, 1]
  {
    OnlyTests(done, m);
    if m in done[0].incoming && m in done[1].incoming {
      TwoEdges(done, m);
      TwoTests(done);
    }
  }

  // ----- processes that stay at one node -----

  /** Initially and from the first node on, the first node is the first match, whatever the position. */
  ghost predicate FirstStays(done: seq<Node>, w: Word) {
    forall i: nat :: IsFirst(done, Start, w(i), 0) && IsFirst(done, At(0), w(i), 0)
  }

  lemma StaysFirst(done: seq<Node>, w: Word)
    requires FirstStays(done, w)
    ensures FirstMatches(done, (i: nat) => 0, w)
  {
    var r: Run := (i: nat) => 0;
    forall i: nat ensures FirstMatchAt(done, r, w, i) {
      assert IsFirst(done, Start, w(i), 0) && IsFirst(done, At(0), w(i), 0);
      assert SourceAt(r, i) == if i == 0 then Start else At(0);
    }
  }

  /** Staying at the first node for ever is accepting if and only if that node is. */
  lemma StayingAccepts(done: seq<Node>, top: Formula)
    requires done != []
    ensures AcceptingRecurs(done, (i: nat) => 0, top) <==> IsAccepting(done[0], top)
  {
    var r: Run := (i: nat) => 0;
    forall i: nat ensures Visit(done, r, i) == done[0] { }
    if IsAccepting(done[0], top) {
      forall i: nat ensures AcceptingAfter(done, r, top, i) { assert IsAccepting(Visit(done, r, i), top); }
    }
    if AcceptingRecurs(done, r, top) {
      assert AcceptingAfter(done, r, top, 0);
    }
  }

  /** When the first node is always the first match, the process accepts the word if and only if that node
      is accepting. */
  lemma StayingProcess(done: seq<Node>, top: Formula, w: Word)
    requires done != [] && Decided(done, top)
    requires FirstStays(done, w)
    ensures ProcessAccepts(done, top, w) <==> IsAccepting(done[0], top)
  {
    var r: Run := (i: nat) => 0;
    StaysFirst(done, w);
    StayingAccepts(done, top);
    ProcessAcceptsExactly(done, top, w);
    if IsAccepting(done[0], top) {
      assert FirstMatchAccepts(done, top, r, w);
    }
    if ProcessAccepts(done, top, w) {
      var q: Run :| FirstMatchAccepts(done, top, q, w);
      forall i: nat ensures q(i) == 0 { FirstMatchUnique(done, top, q, r, w, i); }
      assert AcceptingAfter(done, q, top, 0);
      var j: nat :| IsAccepting(Visit(done, q, j), top);
      assert q(j) == 0;
    }
  }
}
