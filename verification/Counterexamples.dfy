/** Formulas for which the generated process does not accept the words that satisfy the formula, or is not
    generated at all. */
module Counterexamples {
  import opened Wrappers
  import opened Formulas
  import opened Tableau
  import opened Soundness
  import opened Language
  import opened Settling
  import opened Normalizer
  import opened TableauFacts
  import opened Generator
  import opened Processes
  import opened Samples

  // ----- always (r and (p or q)): a word is accepted that does not satisfy the formula -----

  const P := Id("p")
  const Q := Id("q")
  const R := Id("r")
  const PorQ := Binary(PropOr, P, Q)
  const Guarded := Binary(PathAnd, R, PorQ)

  function GuardedNode(incoming: seq<NodeRef>): Node {
    Node(incoming, [AlwaysOf(Guarded), Guarded, R, PorQ], [], [AlwaysOf(Guarded)])
  }

  /** The side of the always that goes on. */
  lemma GuardedGoesOn(incoming: seq<NodeRef>, done: seq<Node>, u: set<Formula>, r: seq<Node>)
    requires Leads(GuardedNode(incoming), done, u, r)
    ensures Leads(Node(incoming, [AlwaysOf(Guarded)], [Guarded], [AlwaysOf(Guarded)]), done, u, r)
  {
    var f, c := AlwaysOf(Guarded), Guarded;
    var a1, a2 := Node(incoming, [f, c], [R, PorQ], [f]), Node(incoming, [f, c, R], [PorQ], [f]);
    assert [PorQ] + [] == [PorQ] && [f, c, R] + [PorQ] == [f, c, R, PorQ];
    LeadsProposition(a2, PorQ, [], done, u, r);
    assert [R] + [PorQ] == [R, PorQ] && [f, c] + [R] == [f, c, R];
    LeadsProposition(a1, R, [PorQ], done, u, r);
    assert [c] + [] == [c] && [] + [R, PorQ] == [R, PorQ] && [f] + [c] == [f, c];
    LeadsAnd(Node(incoming, [f], [c], [f]), R, PorQ, [], done, u, r);
  }

  /** The side that ends it is false. */
  lemma GuardedEnds(incoming: seq<NodeRef>, done: seq<Node>, u: set<Formula>)
    ensures Leads(Node(incoming, [AlwaysOf(Guarded)], [Guarded, BoolValue(false)], []), done, u, done)
  {
    var f, c, ff := AlwaysOf(Guarded), Guarded, BoolValue(false);
    LeadsBlocked(Node(incoming, [f, c], [ff, R, PorQ], []), done, u);
    assert [c] + [ff] == [c, ff] && [ff] + [R, PorQ] == [ff, R, PorQ] && [f] + [c] == [f, c];
    LeadsAnd(Node(incoming, [f], [c, ff], []), R, PorQ, [ff], done, u, done);
  }

  lemma ExpandGuarded(incoming: seq<NodeRef>, done: seq<Node>, u: set<Formula>, r: seq<Node>)
    requires Leads(GuardedNode(incoming), done, u, r)
    ensures Leads(Node(incoming, [], [AlwaysOf(Guarded)], []), done, u, r)
  {
    var f, c, ff := AlwaysOf(Guarded), Guarded, BoolValue(false);
    GuardedGoesOn(incoming, done, u, r);
    GuardedEnds(incoming, r, u);
    assert [f] + [] == [f] && [] + [c] == [c] && [] + [c, ff] == [c, ff];
    LeadsAlways(c, incoming, [], done, r, u, r);
  }

  lemma GuardedTableau()
    ensures Build(AlwaysOf(Guarded)) == Some([GuardedNode([Start, At(0)])])
  {
    var f := AlwaysOf(Guarded);
    var u := Subformulas(f);
    var m, m' := GuardedNode([Start]), GuardedNode([At(0)]);
    var done := [GuardedNode([Start, At(0)])];
    LeadsMerged(m', [m], 0, u);
    assert [Start] + [At(0)] == [Start, At(0)];
    assert [m][0 := m.(incoming := m.incoming + m'.incoming)] == done;
    ExpandGuarded([At(0)], [m], u, done);
    assert [] + [m] == [m] && Successor(m, 0) == Node([At(0)], [], [f], []);
    LeadsCompleted(m, [], u, done);
    ExpandGuarded([Start], [], u, done);
    LeadsBuild(f, done);
  }

  lemma GuardedPropositions()
    ensures Propositions([AlwaysOf(Guarded), Guarded, R, PorQ]) == [R, PorQ]
  {
    var f, c := AlwaysOf(Guarded), Guarded;
    PropositionsOfThree(f, c, R);
    PropositionsBehind([f, c, R], PorQ);
    assert [f, c, R] + [PorQ] == [f, c, R, PorQ];
  }

  /** [] (r /\ (p | q)) */
  const GuardedFormula := Unary(Globally, Bracket(Binary(PathAnd, R, Bracket(PorQ))))

  lemma GuardedFirst(done: seq<Node>, m: NodeRef, s: State)
    requires done == [GuardedNode([Start, At(0)])] && (m == Start || m == At(0)) && s("q") != 0
    ensures IsFirst(done, m, s, 0)
  {
    GuardedPropositions();
    OutgoingMembers(m, done, 1, 0);
    assert [R, PorQ][..1] == [R];
    assert Passes(done, 0, s);
    forall j | j in Outgoing(m, done) && Passes(done, j, s) ensures j == 0 { OutgoingMembers(m, done, 1, j); }
    OnlyIsFirst(done, m, s, 0);
  }

  lemma GuardedStays(w: Word, done: seq<Node>)
    requires done == [GuardedNode([Start, At(0)])] && forall i: nat :: w(i)("q") != 0
    ensures FirstStays(done, w)
  {
    forall i: nat ensures IsFirst(done, Start, w(i), 0) && IsFirst(done, At(0), w(i), 0) {
      GuardedFirst(done, Start, w(i));
      GuardedFirst(done, At(0), w(i));
    }
  }

  lemma GuardedAccepting(n: Node)
    ensures IsAccepting(n, AlwaysOf(Guarded))
  {
    assert Untils(AlwaysOf(Guarded)) == [];
  }

  lemma GuardedAccepts(w: Word, done: seq<Node>)
    requires done == [GuardedNode([Start, At(0)])] && forall i: nat :: w(i)("q") != 0
    ensures Decided(done, AlwaysOf(Guarded)) && ProcessAccepts(done, AlwaysOf(Guarded), w)
  {
    var top := AlwaysOf(Guarded);
    SingleDecided(done[0], top);
    GuardedStays(w, done);
    GuardedAccepting(done[0]);
    StayingProcess(done, top, w);
  }

  lemma GuardedFails(w: Word)
    requires w(0)("r") == 0
    ensures !Holds(w, 0, GuardedFormula)
  {
    var conj := Positions(w, Bracket(Binary(PathAnd, R, Bracket(PorQ))));
    assert Positions(w, R)(0) == (Value(R, w(0)) != 0);
    assert !conj(0);
  }

  lemma GuardedNormalized()
    ensures Normalize(GuardedFormula) == AlwaysOf(Guarded)
  {
  }

  /** The test "r & (p) | (q)" passes when q holds and r does not: the process accepts words that do not
      satisfy the formula. */
  lemma LaterOrIsUnsound(w: Word)
    requires forall i: nat :: w(i)("r") == 0 && w(i)("q") != 0
    ensures GeneratedAccepts(GuardedFormula, w) && !Holds(w, 0, GuardedFormula)
  {
    var done := [GuardedNode([Start, At(0)])];
    GuardedTableau();
    GuardedAccepts(w, done);
    GuardedFails(w);
    GuardedNormalized();
    GeneratedFrom(GuardedFormula, AlwaysOf(Guarded), done);
  }

  // ----- always (p until q): a satisfying word is lost to the first match -----

  const PuntilQ := Binary(Until, P, Q)

  function WaitingNode(incoming: seq<NodeRef>): Node {
    Node(incoming, [AlwaysOf(PuntilQ), PuntilQ, P], [], [AlwaysOf(PuntilQ), PuntilQ])
  }

  function ArrivedNode(incoming: seq<NodeRef>): Node {
    Node(incoming, [AlwaysOf(PuntilQ), PuntilQ, Q], [], [AlwaysOf(PuntilQ)])
  }

  /** The until splits; what is pending behind it is listed already or nothing. */
  lemma RepeatedSplits(n: Node, incoming: seq<NodeRef>, again: seq<Formula>, done: seq<Node>, mid: seq<Node>,
                       u: set<Formula>, r: seq<Node>)
    requires n == Node(incoming, [AlwaysOf(PuntilQ)], [PuntilQ] + again, [AlwaysOf(PuntilQ)])
    requires again == [] || again == [PuntilQ]
    requires Leads(WaitingNode(incoming), done, u, mid) && Leads(ArrivedNode(incoming), mid, u, r)
    ensures Leads(n, done, u, r)
  {
    var f, t := AlwaysOf(PuntilQ), PuntilQ;
    assert [f] + [t] == [f, t] && [f, t] + [P] == [f, t, P] && [f, t] + [Q] == [f, t, Q];
    var a, b := Node(incoming, [f, t], [P], [f, t]), Node(incoming, [f, t], [Q], [f]);
    assert [P] + [] == [P] && [Q] + [] == [Q];
    LeadsProposition(a, P, [], done, u, mid);
    LeadsProposition(b, Q, [], mid, u, r);
    if again != [] {
      LeadsSkipped(Node(incoming, [f, t], again + [P], [f, t]), [P], done, u, mid);
      LeadsSkipped(Node(incoming, [f, t], again + [Q], [f]), [Q], mid, u, r);
    } else {
      assert again + [P] == [P] && again + [Q] == [Q];
    }
    LeadsUntil(n, P, Q, again, done, mid, u, r);
  }

  /** The side of the always that ends it is false. */
  lemma RepeatedEnds(n: Node, incoming: seq<NodeRef>, again: seq<Formula>, done: seq<Node>, u: set<Formula>)
    requires n == Node(incoming, [AlwaysOf(PuntilQ)], [PuntilQ] + again + [BoolValue(false)], [])
    requires again == [] || again == [PuntilQ]
    ensures Leads(n, done, u, done)
  {
    var f, t, ff := AlwaysOf(PuntilQ), PuntilQ, BoolValue(false);
    assert [f] + [t] == [f, t] && [] + [t] == [t];
    var a, b := Node(incoming, [f, t], [ff, P], [t]), Node(incoming, [f, t], [ff, Q], []);
    LeadsBlocked(a, done, u);
    LeadsBlocked(b, done, u);
    assert [ff] + [P] == [ff, P] && [ff] + [Q] == [ff, Q];
    if again != [] {
      assert (again + [ff] + [P])[1..] == [ff, P] && (again + [ff] + [Q])[1..] == [ff, Q];
      LeadsSkipped(Node(incoming, [f, t], again + [ff] + [P], [t]), [ff, P], done, u, done);
      LeadsSkipped(Node(incoming, [f, t], again + [ff] + [Q], []), [ff, Q], done, u, done);
    } else {
      assert again + [ff] + [P] == [ff, P] && again + [ff] + [Q] == [ff, Q];
    }
    assert n.pending == [t] + (again + [ff]);
    LeadsUntil(n, P, Q, again + [ff], done, done, u, done);
  }

  lemma ExpandRepeated(incoming: seq<NodeRef>, again: seq<Formula>, done: seq<Node>, mid: seq<Node>, u: set<Formula>,
                       r: seq<Node>)
    requires again == [] || again == [PuntilQ]
    requires Leads(WaitingNode(incoming), done, u, mid) && Leads(ArrivedNode(incoming), mid, u, r)
    ensures Leads(Node(incoming, [], [AlwaysOf(PuntilQ)] + again, []), done, u, r)
  {
    var f, t, ff := AlwaysOf(PuntilQ), PuntilQ, BoolValue(false);
    assert again + [t] == [t] + again;
    assert again + [t, ff] == [t] + again + [ff];
    RepeatedSplits(Node(incoming, [f], again + [t], [f]), incoming, again, done, mid, u, r);
    RepeatedEnds(Node(incoming, [f], again + [t, ff], []), incoming, again, r, u);
    LeadsAlways(t, incoming, again, done, r, u, r);
  }

  lemma NodesDiffer(a: seq<NodeRef>, b: seq<NodeRef>)
    ensures !SameContents(WaitingNode(a), ArrivedNode(b)) && SameContents(WaitingNode(a), WaitingNode(b))
    ensures SameContents(ArrivedNode(a), ArrivedNode(b))
  {
    assert multiset(WaitingNode(a).now)[Q] == 0 && multiset(ArrivedNode(b).now)[Q] == 1;
  }

  /** The two completed nodes with these edges. */
  function Both(waiting: seq<NodeRef>, arrived: seq<NodeRef>): seq<Node> {
    [WaitingNode(waiting), ArrivedNode(arrived)]
  }

  lemma MergeWaiting(from: seq<NodeRef>, waiting: seq<NodeRef>, arrived: seq<NodeRef>, u: set<Formula>)
    ensures Leads(WaitingNode(from), Both(waiting, arrived), u, Both(waiting + from, arrived))
    ensures Leads(WaitingNode(from), [WaitingNode(waiting)], u, [WaitingNode(waiting + from)])
  {
    NodesDiffer(waiting, from);
    var done := Both(waiting, arrived);
    LeadsMerged(WaitingNode(from), done, 0, u);
    assert done[0 := WaitingNode(waiting + from)] == Both(waiting + from, arrived);
    LeadsMerged(WaitingNode(from), [WaitingNode(waiting)], 0, u);
    assert [WaitingNode(waiting)][0 := WaitingNode(waiting + from)] == [WaitingNode(waiting + from)];
  }

  lemma MergeArrived(from: seq<NodeRef>, waiting: seq<NodeRef>, arrived: seq<NodeRef>, u: set<Formula>)
    ensures Leads(ArrivedNode(from), Both(waiting, arrived), u, Both(waiting, arrived + from))
  {
    NodesDiffer(waiting, from);
    NodesDiffer(arrived, from);
    var done := Both(waiting, arrived);
    assert done[1..] == [ArrivedNode(arrived)];
    assert FindSame(done, ArrivedNode(from)) == Some(1);
    LeadsMerged(ArrivedNode(from), done, 1, u);
    assert done[1 := ArrivedNode(arrived + from)] == Both(waiting, arrived + from);
  }

  lemma ArrivedIsNew(waiting: seq<NodeRef>, from: seq<NodeRef>)
    ensures FindSame([WaitingNode(waiting)], ArrivedNode(from)) == None
    ensures [WaitingNode(waiting)] + [ArrivedNode(from)] == Both(waiting, from)
    ensures Successor(ArrivedNode(from), 1) == Node([At(1)], [], [AlwaysOf(PuntilQ)] + [], [])
  {
    NodesDiffer(waiting, from);
    assert [WaitingNode(waiting)][1..] == [];
  }

  /** The node that has arrived is completed, and what follows it leads back. */
  lemma ArrivedCompleted(waiting: seq<NodeRef>, u: set<Formula>)
    ensures Leads(ArrivedNode([At(0)]), [WaitingNode(waiting)], u, Both(waiting + [At(1)], [At(0), At(1)]))
  {
    var n, done := ArrivedNode([At(0)]), [WaitingNode(waiting)];
    ArrivedIsNew(waiting, [At(0)]);
    MergeWaiting([At(1)], waiting, [At(0)], u);
    MergeArrived([At(1)], waiting + [At(1)], [At(0)], u);
    assert [At(0)] + [At(1)] == [At(0), At(1)];
    ExpandRepeated([At(1)], [], Both(waiting, [At(0)]), Both(waiting + [At(1)], [At(0)]), u,
                   Both(waiting + [At(1)], [At(0), At(1)]));
    LeadsCompleted(n, done, u, Both(waiting + [At(1)], [At(0), At(1)]));
  }

  /** The first node is completed, then the one that follows it. */
  lemma WaitingCompleted(u: set<Formula>)
    ensures Leads(WaitingNode([Start]), [], u, Both([Start, At(0), At(1)], [At(0), At(1)]))
  {
    var n := WaitingNode([Start]);
    MergeWaiting([At(0)], [Start], [], u);
    assert [Start] + [At(0)] == [Start, At(0)] && [Start, At(0)] + [At(1)] == [Start, At(0), At(1)];
    ArrivedCompleted([Start, At(0)], u);
    ExpandRepeated([At(0)], [PuntilQ], [n], [WaitingNode([Start, At(0)])], u,
                   Both([Start, At(0), At(1)], [At(0), At(1)]));
    assert [] + [n] == [n];
    assert Successor(n, 0) == Node([At(0)], [], [AlwaysOf(PuntilQ)] + [PuntilQ], []);
    LeadsCompleted(n, [], u, Both([Start, At(0), At(1)], [At(0), At(1)]));
  }

  lemma RepeatedTableau()
    ensures Build(AlwaysOf(PuntilQ)) == Some(Both([Start, At(0), At(1)], [At(0), At(1), Start]))
  {
    var f := AlwaysOf(PuntilQ);
    var u := Subformulas(f);
    WaitingCompleted(u);
    MergeArrived([Start], [Start, At(0), At(1)], [At(0), At(1)], u);
    assert [At(0), At(1)] + [Start] == [At(0), At(1), Start];
    ExpandRepeated([Start], [], [], Both([Start, At(0), At(1)], [At(0), At(1)]), u,
                   Both([Start, At(0), At(1)], [At(0), At(1), Start]));
    assert [f] + [] == [f];
    LeadsBuild(f, Both([Start, At(0), At(1)], [At(0), At(1), Start]));
  }

  // ----- its process -----

  /** [] (p U q) */
  const RepeatedFormula := Unary(Globally, Bracket(PuntilQ))

  const RepeatedNodes := Both([Start, At(0), At(1)], [At(0), At(1), Start])

  lemma RepeatedPropositions()
    ensures Propositions(RepeatedNodes[0].now) == [P] && Propositions(RepeatedNodes[1].now) == [Q]
  {
    PropositionsOfThree(AlwaysOf(PuntilQ), PuntilQ, P);
    PropositionsOfThree(AlwaysOf(PuntilQ), PuntilQ, Q);
  }

  lemma RepeatedShape()
    ensures TwoTested(RepeatedNodes)
    ensures RepeatedNodes[0].incoming == [Start, At(0), At(1)] && RepeatedNodes[1].incoming == [At(0), At(1), Start]
  {
    RepeatedPropositions();
  }

  lemma RepeatedConditionals(m: NodeRef)
    ensures Elses(RepeatedNodes, Outgoing(m, RepeatedNodes)) == []
    ensures m == Start || m == At(0) ==> Conditionals(RepeatedNodes, Outgoing(m, RepeatedNodes)) == [0, 1]
  {
    RepeatedShape();
    TwoSuccessors(RepeatedNodes, m);
  }

  lemma RepeatedFirst(m: NodeRef, s: State)
    requires (m == Start || m == At(0)) && s("p") != 0
    ensures IsFirst(RepeatedNodes, m, s, 0)
  {
    RepeatedConditionals(m);
    RepeatedPropositions();
    assert Passes(RepeatedNodes, 0, s);
  }

  lemma RepeatedDecided()
    ensures Decided(RepeatedNodes, AlwaysOf(PuntilQ))
  {
    forall m ensures DecisionOf(RepeatedNodes, AlwaysOf(PuntilQ), m).Some? { RepeatedConditionals(m); }
  }

  lemma WaitingIsOpen(incoming: seq<NodeRef>)
    ensures !IsAccepting(WaitingNode(incoming), AlwaysOf(PuntilQ))
  {
    RepeatedNormalized();
    assert !Fulfilled(WaitingNode(incoming), PuntilQ) && PuntilQ in Untils(AlwaysOf(PuntilQ));
  }

  lemma RepeatedStays(w: Word, done: seq<Node>)
    requires done == RepeatedNodes && forall i: nat :: w(i)("p") != 0
    ensures FirstStays(done, w)
  {
    forall i: nat ensures IsFirst(done, Start, w(i), 0) && IsFirst(done, At(0), w(i), 0) {
      RepeatedFirst(Start, w(i));
      RepeatedFirst(At(0), w(i));
    }
  }

  lemma RepeatedProcess(w: Word, done: seq<Node>, top: Formula)
    requires done == RepeatedNodes && top == AlwaysOf(PuntilQ) && forall i: nat :: w(i)("p") != 0
    ensures !ProcessAccepts(done, top, w)
  {
    RepeatedDecided();
    RepeatedStays(w, done);
    WaitingIsOpen([Start, At(0), At(1)]);
    StayingProcess(done, top, w);
  }

  lemma RepeatedRegular()
    ensures TestsConjunctions(RepeatedNodes) && Labelled(RepeatedNodes)
  {
    RepeatedPropositions();
  }

  lemma RepeatedAccepted(w: Word)
    requires forall i: nat :: w(i)("q") != 0
    ensures Holds(w, 0, RepeatedFormula) && Accepts(RepeatedNodes, AlwaysOf(PuntilQ), w)
  {
    RepeatedHolds(w);
    RepeatedNormalized();
    NormalizeMeaning(w, 0, RepeatedFormula);
    RepeatedTableau();
    LanguageOneRecurring(AlwaysOf(PuntilQ), w);
  }

  /** There is one until, every edge is kept, every test is a conjunction, and the automaton accepts the
      words on which p and q always hold, as it should; the process does not accept them: it stays at the
      node that waits for q. */
  lemma FirstMatchLosesAWord(w: Word)
    requires forall i: nat :: w(i)("p") != 0 && w(i)("q") != 0
    ensures Normalize(RepeatedFormula) == AlwaysOf(PuntilQ) && AtMostOneRecurring(AlwaysOf(PuntilQ))
    ensures Build(AlwaysOf(PuntilQ)) == Some(RepeatedNodes) && TestsConjunctions(RepeatedNodes) &&
            Labelled(RepeatedNodes)
    ensures Holds(w, 0, RepeatedFormula) && Accepts(RepeatedNodes, AlwaysOf(PuntilQ), w)
    ensures Generated(RepeatedFormula) && !GeneratedAccepts(RepeatedFormula, w)
  {
    RepeatedTableau();
    RepeatedNormalized();
    RepeatedRegular();
    RepeatedAccepted(w);
    RepeatedDecided();
    RepeatedProcess(w, RepeatedNodes, AlwaysOf(PuntilQ));
    GeneratedFrom(RepeatedFormula, AlwaysOf(PuntilQ), RepeatedNodes);
  }

  lemma RepeatedNormalized()
    ensures Normalize(RepeatedFormula) == AlwaysOf(PuntilQ) && Untils(AlwaysOf(PuntilQ)) == [PuntilQ]
    ensures AtMostOneRecurring(AlwaysOf(PuntilQ))
  {
  }

  lemma RepeatedHolds(w: Word)
    requires forall i: nat :: w(i)("q") != 0
    ensures Holds(w, 0, RepeatedFormula)
  {
    var p, q, t := Positions(w, P), Positions(w, Q), Positions(w, Bracket(PuntilQ));
    forall k: nat ensures t(k) {
      assert q(k) == (Value(Q, w(k)) != 0);
      assert UntilFrom(k, p, q);
    }
  }

  // ----- next p: every word is lost to a dropped edge -----

  /** Expanding a node that is not initial makes no node initial. */
  lemma {:induction false} ExpandKeepsInitial(n: Node, done: seq<Node>, u: set<Formula>)
    requires Closed(u) && WellFormed(n, u) && WellFormedDone(done, u)
    requires Start !in n.incoming && Expand(n, done, u).Some?
    ensures forall k: nat | k < |Expand(n, done, u).value| && Start in Expand(n, done, u).value[k].incoming ::
              k < |done| && Start in done[k].incoming
    decreases |Shapes(u)| - |done|, |u| - |n.now|, |n.pending|
  {
    DoneIsBounded(done, u);
    if n.pending == [] {
      if FindSame(done, n).None? {
        DoneIsBounded(done + [n], u);
        ExpandKeepsInitial(Successor(n, |done|), done + [n], u);
      }
    } else {
      AlternativesWellFormed(n, u);
      var alts := Alternatives(n).value;
      if alts != [] {
        ExpandKeepsInitial(alts[0], done, u);
        if |alts| == 2 {
          var first := Expand(alts[0], done, u);
          DoneIsBounded(first.value, u);
          ExpandKeepsInitial(alts[1], first.value, u);
        }
      }
    }
  }

  lemma NextHasOneInitialNode(p: Formula)
    requires IsProposition(p)
    ensures var top := Unary(NextTime, p);
      Build(top).Some? &&
      forall k: nat | k < |Build(top).value| && Start in Build(top).value[k].incoming ::
        Build(top).value[k].now == [top]
  {
    var top := Unary(NextTime, p);
    var u := Subformulas(top);
    BuildSucceeds(top);
    InitialWellFormed(top);
    var n := Node([Start], [top], [], [p]);
    AlternativesWellFormed(InitialNode(top), u);
    var a := Advance(InitialNode(top), [], [p]);
    assert a.now == n.now && a.pending == n.pending && a.next == n.next;
    assert Alternatives(InitialNode(top)) == Some([n]);
    assert Build(top) == Expand(n, [], u);
    DoneIsBounded([n], u);
    assert [] + [n] == [n];
    assert Build(top) == Expand(Successor(n, 0), [n], u);
    ExpandKeepsInitial(Successor(n, 0), [n], u);
    assert Extends([n], Build(top).value);
  }

  lemma NextAborts(p: Formula)
    requires IsProposition(p)
    ensures var top := Unary(NextTime, p);
      Build(top).Some? && DecisionOf(Build(top).value, top, Start) == Some(Abort(true))
  {
    var top := Unary(NextTime, p);
    NextHasOneInitialNode(p);
    var done := Build(top).value;
    assert Propositions([top]) == [];
    if Outgoing(Start, done) != [] {
      OutgoingMembers(Start, done, |done|, Outgoing(Start, done)[0]);
    }
  }

  /** For "next p" the initial definition is the accepting Abort, whatever the state: no word is accepted
      by going on, also none of those on which p holds at the second position. */
  lemma NextIsRefused(p: Formula, w: Word)
    requires IsProposition(p)
    ensures Build(Normalize(Unary(NextTime, p))).Some?
    ensures DecisionOf(Build(Normalize(Unary(NextTime, p))).value, Normalize(Unary(NextTime, p)), Start) ==
            Some(Abort(true))
    ensures !GeneratedAccepts(Unary(NextTime, p), w)
    ensures Value(p, w(1)) != 0 ==> Holds(w, 0, Unary(NextTime, p))
  {
    var f, g := Unary(NextTime, p), Normalize(p);
    NormalizeProposition(p);
    NextAborts(g);
    assert Normalize(f) == Unary(NextTime, g);
    PropositionMeaning(w, 1, p);
    NextNeverRuns(Build(Normalize(f)).value, Normalize(f), w);
  }

  lemma NextNeverRuns(done: seq<Node>, top: Formula, w: Word)
    requires DecisionOf(done, top, Start) == Some(Abort(true))
    ensures !ProcessAccepts(done, top, w)
  {
    forall r: Run, accepts: nat -> bool ensures !ProcessRuns(done, top, r, accepts, w) {
      assert !GoesTo(done, top, r, accepts, w, 0);
    }
  }

  // ----- eventually p or eventually q: the generator stops in an assertion -----

  const SoonP := Binary(Until, BoolValue(true), P)
  const SoonQ := Binary(Until, BoolValue(true), Q)
  const Either := Binary(PathOr, SoonP, SoonQ)

  /** An expansion adds to done, and has a node with the contents and the edges of n. */
  ghost predicate Finds(done: seq<Node>, n: Node, all: seq<Node>, k: nat) {
    Extends(done, all) && k < |all| && SameContents(all[k], n) && forall m | m in n.incoming :: m in all[k].incoming
  }

  ghost predicate Expandable(n: Node, done: seq<Node>, u: set<Formula>) {
    Closed(u) && WellFormed(n, u) && WellFormedDone(done, u) && forall f | f in u :: Decomposable(f)
  }

  /** Wherever the expansion of n is defined, it results in a list with the contents and edges of m. */
  ghost predicate Hits(n: Node, done: seq<Node>, u: set<Formula>, m: Node) {
    Expandable(n, done, u) ==>
      Expand(n, done, u).Some? && exists k :: Finds(done, m, Expand(n, done, u).value, k)
  }

  lemma HitsItself(n: Node, done: seq<Node>, u: set<Formula>)
    requires n.pending == []
    ensures Hits(n, done, u, n)
  {
    if Expandable(n, done, u) {
      ExpandSucceeds(n, done, u);
      DoneIsBounded(done, u);
      match FindSame(done, n)
      case Some(j) => assert Finds(done, n, Expand(n, done, u).value, j);
      case None =>
        DoneIsBounded(done + [n], u);
        assert Extends(done + [n], Expand(n, done, u).value);
        assert Finds(done, n, Expand(n, done, u).value, |done|);
    }
  }

  /** The first alternative of a node is expanded completely before anything else. */
  lemma HitsByFirst(n: Node, a: Node, rest: seq<Node>, done: seq<Node>, u: set<Formula>, m: Node)
    requires n.pending != [] && Alternatives(n) == Some([a] + rest) && Hits(a, done, u, m)
    ensures Hits(n, done, u, m)
  {
    if Expandable(n, done, u) {
      ExpandSucceeds(n, done, u);
      AlternativesWellFormed(n, u);
      DoneIsBounded(done, u);
      assert ([a] + rest)[0] == a && a in Alternatives(n).value;
      var first := Expand(a, done, u).value;
      var k :| Finds(done, m, first, k);
      if rest != [] {
        DoneIsBounded(first, u);
        ExtendsTransitive(done, first, Expand(n, done, u).value);
      }
      assert Finds(done, m, Expand(n, done, u).value, k);
    }
  }

  /** The node that waits with "tt" for an until of Either. */
  function TrueNode(t: Formula): Node {
    Node([Start], [Either, t, BoolValue(true)], [], [t])
  }

  lemma SoonHits(p: Formula, n: Node, done: seq<Node>, u: set<Formula>)
    requires var t := Binary(Until, BoolValue(true), p); t != Either && n == Node([Start], [Either], [t], [])
    ensures Hits(n, done, u, TrueNode(Binary(Until, BoolValue(true), p)))
  {
    var tt, t := BoolValue(true), Binary(Until, BoolValue(true), p);
    var m, a, b := TrueNode(t), Node([Start], [Either, t], [tt], [t]), Node([Start], [Either, t], [p], []);
    HitsItself(m, done, u);
    assert [tt] + [] == [tt] && [Either, t] + [tt] == [Either, t, tt];
    PropositionAlternative(a, tt, []);
    assert [m] + [] == [m] && [a] + [b] == [a, b];
    HitsByFirst(a, m, [], done, u, m);
    assert [Either] + [t] == [Either, t] && [t] + [] == [t] && [] + [tt] == [tt] && [] + [p] == [p] && [] + [t] == [t];
    UntilAlternatives(n, tt, p, []);
    HitsByFirst(n, a, [b], done, u, m);
  }

  lemma OnlyTrueListed(n: Node, t: Formula)
    requires (t == SoonP || t == SoonQ) && SameContents(n, TrueNode(t))
    ensures Unconditional(n) && Propositions(n.now) == [BoolValue(true)]
  {
    var ps, tt := Propositions(n.now), BoolValue(true);
    forall f ensures multiset(ps)[f] == if f == tt then 1 else 0 {
      PropositionsCount(n.now, f);
      assert multiset(n.now)[f] == multiset(TrueNode(t).now)[f];
    }
    assert multiset(ps) == multiset([tt]);
    assert |multiset(ps)| == |ps|;
    assert ps[0] in multiset(ps);
  }

  lemma EitherDecomposable(f: Formula)
    requires f in Subformulas(Either)
    ensures Decomposable(f)
  {
    DecomposableSubformulas(Either, f);
  }

  lemma EitherExpandable()
    ensures Expandable(InitialNode(Either), [], Subformulas(Either))
  {
    InitialWellFormed(Either);
    forall f | f in Subformulas(Either) ensures Decomposable(f) { EitherDecomposable(f); }
  }

  lemma EitherAlternatives()
    ensures Alternatives(InitialNode(Either)) ==
            Some([Node([Start], [Either], [SoonP], []), Node([Start], [Either], [SoonQ], [])])
  {
    assert [] + [Either] == [Either] && [Either] + [] == [Either] && [] + [SoonP] == [SoonP] && [] + [SoonQ] == [SoonQ];
    OrAlternatives(InitialNode(Either), SoonP, SoonQ, []);
  }

  /** The two sides are expanded one after the other. */
  lemma EitherTableau() returns (all: seq<Node>, j: nat, k: nat)
    ensures Build(Either) == Some(all) && j < |all| && k < |all| && Start in all[j].incoming && Start in all[k].incoming
    ensures SameContents(all[j], TrueNode(SoonP)) && SameContents(all[k], TrueNode(SoonQ))
  {
    var u, n := Subformulas(Either), InitialNode(Either);
    var a, b := Node([Start], [Either], [SoonP], []), Node([Start], [Either], [SoonQ], []);
    EitherExpandable();
    EitherAlternatives();
    AlternativesWellFormed(n, u);
    assert a in Alternatives(n).value && b in Alternatives(n).value;
    SoonHits(P, a, [], u);
    var first := Expand(a, [], u).value;
    j :| Finds([], TrueNode(SoonP), first, j);
    SoonHits(Q, b, first, u);
    all := Expand(b, first, u).value;
    k :| Finds(first, TrueNode(SoonQ), all, k);
    EitherResult(a, b, first, all);
    assert Start in TrueNode(SoonP).incoming && Start in TrueNode(SoonQ).incoming;
    assert first[j].incoming <= all[j].incoming && all[j] == first[j].(incoming := all[j].incoming);
  }

  lemma EitherResult(a: Node, b: Node, first: seq<Node>, all: seq<Node>)
    requires Alternatives(InitialNode(Either)) == Some([a, b])
    requires var u := Subformulas(Either);
             Expandable(a, [], u) && Expand(a, [], u) == Some(first) &&
             Expandable(b, first, u) && Expand(b, first, u) == Some(all)
    ensures Build(Either) == Some(all)
  {
    var u := Subformulas(Either);
    EitherExpandable();
    AlternativesWellFormed(InitialNode(Either), u);
    DoneIsBounded([], u);
    DoneIsBounded(first, u);
  }

  /** For "eventually p or eventually q" the generator stops: both initial nodes that wait need no test. */
  lemma EitherIsRefused()
    ensures var f := Binary(PathOr, Unary(Future, P), Unary(Future, Q));
            Supported(f) && Build(Normalize(f)).Some? &&
            DecisionOf(Build(Normalize(f)).value, Normalize(f), Start).None? && !Generated(f)
  {
    var all, j, k := EitherTableau();
    assert Normalize(Binary(PathOr, Unary(Future, P), Unary(Future, Q))) == Either;
    assert multiset(TrueNode(SoonP).now)[SoonP] == 1 && multiset(TrueNode(SoonQ).now)[SoonP] == 0;
    assert j != k;
    OnlyTrueListed(all[j], SoonP);
    OnlyTrueListed(all[k], SoonQ);
    TwoElses(all, Either, Start, j, k);
  }

  lemma TwoElses(done: seq<Node>, top: Formula, m: NodeRef, j: nat, k: nat)
    requires j < |done| && k < |done| && j != k && m in done[j].incoming && m in done[k].incoming
    requires Unconditional(done[j]) && Propositions(done[j].now) != []
    requires Unconditional(done[k]) && Propositions(done[k].now) != []
    ensures DecisionOf(done, top, m).None?
  {
    var ks := Outgoing(m, done);
    OutgoingMembers(m, done, |done|, j);
    OutgoingMembers(m, done, |done|, k);
    SplitMembers(done, ks, j);
    SplitMembers(done, ks, k);
    var es := Elses(done, ks);
    assert j in es && k in es;
    var a :| 0 <= a < |es| && es[a] == j;
    var b :| 0 <= b < |es| && es[b] == k;
    assert a != b;
  }
}
