/** The runs of the generated process and the words it accepts, against the automaton and the formula. */
module Processes {
  import opened Wrappers
  import opened Formulas
  import opened Conditions
  import opened Tableau
  import opened Soundness
  import opened Language
  import opened Settling
  import opened Normalizer
  import opened Generator

  /** The definition that is left at position i. */
  function SourceAt(r: Run, i: nat): NodeRef {
    if i == 0 then Start else At(r(i - 1))
  }

  /** The definition of every node exists. */
  predicate Decided(done: seq<Node>, top: Formula) {
    DecisionOf(done, top, Start).Some? && forall k :: 0 <= k < |done| ==> DecisionOf(done, top, At(k)).Some?
  }

  /** The process goes on for ever over the word, as node r(i) after the state at position i. */
  ghost predicate ProcessRuns(done: seq<Node>, top: Formula, r: Run, accepts: nat -> bool, w: Word) {
    forall i: nat :: GoesTo(done, top, r, accepts, w, i)
  }

  predicate GoesTo(done: seq<Node>, top: Formula, r: Run, accepts: nat -> bool, w: Word, i: nat) {
    StepsTo(done, top, SourceAt(r, i), w(i), r(i), accepts(i))
  }

  /** In the state s the definition of m goes on as node k. */
  predicate StepsTo(done: seq<Node>, top: Formula, m: NodeRef, s: State, k: nat, accept: bool) {
    DecisionOf(done, top, m).Some? && Choose(DecisionOf(done, top, m).value, s) == GoOn(k, accept)
  }

  ghost predicate AcceptsAfter(accepts: nat -> bool, i: nat) {
    exists j: nat :: i <= j && accepts(j)
  }

  ghost predicate AcceptsRecur(accepts: nat -> bool) {
    forall i: nat :: AcceptsAfter(accepts, i)
  }

  /** The process goes on for ever over the word and passes accept again and again. */
  ghost predicate ProcessAccepts(done: seq<Node>, top: Formula, w: Word) {
    exists r: Run, accepts: nat -> bool :: ProcessRuns(done, top, r, accepts, w) && AcceptsRecur(accepts)
  }

  /** The process for a formula as it was written: it is generated, and it accepts the word. */
  ghost predicate GeneratedAccepts(f: Formula, w: Word) {
    Generated(f) && ProcessAccepts(Build(Normalize(f)).value, Normalize(f), w)
  }

  /** The conversion ends with the definitions of a process. */
  ghost predicate Generated(f: Formula) {
    Build(Normalize(f)).Some? && Decided(Build(Normalize(f)).value, Normalize(f))
  }

  lemma GeneratedFrom(f: Formula, top: Formula, done: seq<Node>)
    requires Normalize(f) == top && Build(top) == Some(done) && Decided(done, top)
    ensures Generated(f) && forall w :: GeneratedAccepts(f, w) == ProcessAccepts(done, top, w)
  {
  }

  // ----- the runs are the first-match runs -----

  /** At every position the run goes on to the first successor whose test passes. */
  ghost predicate FirstMatches(done: seq<Node>, r: Run, w: Word) {
    forall i: nat :: FirstMatchAt(done, r, w, i)
  }

  predicate FirstMatchAt(done: seq<Node>, r: Run, w: Word, i: nat) {
    IsFirst(done, SourceAt(r, i), w(i), r(i))
  }

  lemma FirstMatchInside(done: seq<Node>, r: Run, w: Word, i: nat)
    requires FirstMatches(done, r, w)
    ensures r(i) < |done| && SourceAt(r, i) in done[r(i)].incoming && Passes(done, r(i), w(i))
  {
    assert FirstMatchAt(done, r, w, i);
    FirstFollowsEdge(done, SourceAt(r, i), w(i), r(i));
  }

  lemma SourceDecided(done: seq<Node>, top: Formula, r: Run, i: nat)
    requires Decided(done, top) && (i == 0 || r(i - 1) < |done|)
    ensures DecisionOf(done, top, SourceAt(r, i)).Some?
  {
  }

  lemma GoesToExactly(done: seq<Node>, top: Formula, r: Run, accepts: nat -> bool, w: Word, i: nat)
    requires DecisionOf(done, top, SourceAt(r, i)).Some?
    ensures GoesTo(done, top, r, accepts, w, i) <==>
            FirstMatchAt(done, r, w, i) && accepts(i) == IsAccepting(Visit(done, r, i), top)
  {
    GoesOnExactly(done, top, SourceAt(r, i), w(i), r(i), accepts(i));
  }

  /** accepts tells where the run is at an accepting node. */
  ghost predicate ShowsAccepting(done: seq<Node>, top: Formula, r: Run, accepts: nat -> bool) {
    forall i: nat :: accepts(i) == IsAccepting(Visit(done, r, i), top)
  }

  lemma RunsFirstMatch(done: seq<Node>, top: Formula, r: Run, accepts: nat -> bool, w: Word)
    requires ProcessRuns(done, top, r, accepts, w)
    ensures FirstMatches(done, r, w) && ShowsAccepting(done, top, r, accepts)
  {
    forall i: nat ensures FirstMatchAt(done, r, w, i) && accepts(i) == IsAccepting(Visit(done, r, i), top) {
      assert GoesTo(done, top, r, accepts, w, i);
      GoesToExactly(done, top, r, accepts, w, i);
    }
  }

  lemma FirstMatchRuns(done: seq<Node>, top: Formula, r: Run, accepts: nat -> bool, w: Word)
    requires Decided(done, top) && FirstMatches(done, r, w) && ShowsAccepting(done, top, r, accepts)
    ensures ProcessRuns(done, top, r, accepts, w)
  {
    forall i: nat ensures GoesTo(done, top, r, accepts, w, i) {
      if i > 0 { FirstMatchInside(done, r, w, i - 1); }
      SourceDecided(done, top, r, i);
      assert FirstMatchAt(done, r, w, i);
      GoesToExactly(done, top, r, accepts, w, i);
    }
  }

  /** The process runs along r if and only if r is the first-match run, and it shows accept exactly where
      r is at an accepting node. */
  lemma ProcessRunsExactly(done: seq<Node>, top: Formula, r: Run, accepts: nat -> bool, w: Word)
    requires Decided(done, top)
    ensures ProcessRuns(done, top, r, accepts, w) <==> FirstMatches(done, r, w) && ShowsAccepting(done, top, r, accepts)
  {
    if ProcessRuns(done, top, r, accepts, w) {
      RunsFirstMatch(done, top, r, accepts, w);
    } else if FirstMatches(done, r, w) && ShowsAccepting(done, top, r, accepts) {
      FirstMatchRuns(done, top, r, accepts, w);
      assert false;
    }
  }

  lemma AcceptsRecurExactly(done: seq<Node>, top: Formula, r: Run, accepts: nat -> bool)
    requires ShowsAccepting(done, top, r, accepts)
    ensures AcceptsRecur(accepts) <==> AcceptingRecurs(done, r, top)
  {
    if AcceptsRecur(accepts) {
      forall i: nat ensures AcceptingAfter(done, r, top, i) {
        assert AcceptsAfter(accepts, i);
        var j: nat :| i <= j && accepts(j);
        assert IsAccepting(Visit(done, r, j), top);
      }
    }
    if AcceptingRecurs(done, r, top) {
      forall i: nat ensures AcceptsAfter(accepts, i) {
        assert AcceptingAfter(done, r, top, i);
        var j: nat :| i <= j && IsAccepting(Visit(done, r, j), top);
        assert accepts(j);
      }
    }
  }

  /** The infinite first-match run that comes to accepting nodes again and again. */
  ghost predicate FirstMatchAccepts(done: seq<Node>, top: Formula, r: Run, w: Word) {
    FirstMatches(done, r, w) && AcceptingRecurs(done, r, top)
  }

  lemma RunAcceptsExactly(done: seq<Node>, top: Formula, r: Run, accepts: nat -> bool, w: Word)
    requires Decided(done, top)
    ensures ProcessRuns(done, top, r, accepts, w) && AcceptsRecur(accepts) <==>
            ShowsAccepting(done, top, r, accepts) && FirstMatchAccepts(done, top, r, w)
  {
    ProcessRunsExactly(done, top, r, accepts, w);
    if ShowsAccepting(done, top, r, accepts) { AcceptsRecurExactly(done, top, r, accepts); }
  }

  /** The process accepts a word if and only if the first-match run over it is infinite and comes to
      accepting nodes again and again. */
  lemma ProcessAcceptsExactly(done: seq<Node>, top: Formula, w: Word)
    requires Decided(done, top)
    ensures ProcessAccepts(done, top, w) <==> exists r: Run :: FirstMatchAccepts(done, top, r, w)
  {
    if ProcessAccepts(done, top, w) {
      var r: Run, accepts: nat -> bool :| ProcessRuns(done, top, r, accepts, w) && AcceptsRecur(accepts);
      RunAcceptsExactly(done, top, r, accepts, w);
    }
    if r: Run :| FirstMatchAccepts(done, top, r, w) {
      var accepts := (i: nat) => IsAccepting(Visit(done, r, i), top);
      RunAcceptsExactly(done, top, r, accepts, w);
    }
  }

  lemma FirstUnique(done: seq<Node>, top: Formula, m: NodeRef, s: State, j: nat, k: nat)
    requires DecisionOf(done, top, m).Some? && IsFirst(done, m, s, j) && IsFirst(done, m, s, k)
    ensures j == k
  {
  }

  /** There is only one first-match run over a word. */
  lemma {:induction false} FirstMatchUnique(done: seq<Node>, top: Formula, q: Run, r: Run, w: Word, i: nat)
    requires Decided(done, top) && FirstMatches(done, q, w) && FirstMatches(done, r, w)
    ensures q(i) == r(i)
  {
    if i > 0 {
      FirstMatchUnique(done, top, q, r, w, i - 1);
      FirstMatchInside(done, q, w, i - 1);
    }
    SourceDecided(done, top, q, i);
    assert FirstMatchAt(done, q, w, i) && FirstMatchAt(done, r, w, i);
    FirstUnique(done, top, SourceAt(q, i), w(i), q(i), r(i));
  }

  // ----- soundness -----

  /** Every test is the conjunction of the listed propositions, whatever the state. */
  predicate TestsConjunctions(done: seq<Node>) {
    forall k :: 0 <= k < |done| ==> NoLaterOr(Propositions(done[k].now))
  }

  lemma PassesAllHold(done: seq<Node>, k: nat, s: State)
    requires TestsConjunctions(done) && k < |done|
    ensures Passes(done, k, s) <==> AllHold(Propositions(done[k].now), s)
  {
    NoLaterOrIsConjunction(Propositions(done[k].now), s);
  }

  /** A first-match run is a labelled run of the automaton. */
  lemma FirstMatchIsRun(done: seq<Node>, r: Run, w: Word)
    requires TestsConjunctions(done) && FirstMatches(done, r, w)
    ensures RunsOn(done, r, w)
  {
    forall i: nat
      ensures r(i) < |done| && SourceAt(r, i) in done[r(i)].incoming && AllHold(Propositions(done[r(i)].now), w(i))
    {
      FirstMatchInside(done, r, w, i);
      PassesAllHold(done, r(i), w(i));
    }
    assert SourceAt(r, 0) == Start;
    forall i: nat ensures At(r(i)) in done[r(i + 1)].incoming {
      assert SourceAt(r, i + 1) == At(r(i));
    }
    forall i: nat, p | p in Propositions(Visit(done, r, i).now) ensures Holds(w, i, p) {
      PropositionsMembers(Visit(done, r, i).now, p);
      PropositionMeaning(w, i, p);
    }
  }

  /** When the tests are conjunctions, what the process accepts the automaton accepts. */
  lemma ProcessWithinAutomaton(done: seq<Node>, top: Formula, w: Word)
    requires Decided(done, top) && TestsConjunctions(done) && ProcessAccepts(done, top, w)
    ensures Accepts(done, top, w)
  {
    ProcessAcceptsExactly(done, top, w);
    var r: Run :| FirstMatchAccepts(done, top, r, w);
    FirstMatchIsRun(done, r, w);
  }

  /** Soundness of the process: the word satisfies the formula as it was written. */
  lemma ProcessIsSound(f: Formula, w: Word)
    requires GeneratedAccepts(f, w) && TestsConjunctions(Build(Normalize(f)).value)
    ensures Holds(w, 0, f)
  {
    ProcessWithinAutomaton(Build(Normalize(f)).value, Normalize(f), w);
    AcceptedSatisfies(Normalize(f), w);
    NormalizeMeaning(w, 0, f);
  }

  // ----- no word is lost -----

  /** Every node with an edge into it lists a proposition: no edge is dropped. */
  predicate Labelled(done: seq<Node>) {
    forall k :: 0 <= k < |done| && done[k].incoming != [] ==> Propositions(done[k].now) != []
  }

  /** No edge into the k-th node is dropped. */
  ghost predicate EdgesKept(done: seq<Node>, k: nat) {
    k < |done| ==> forall m | m in done[k].incoming :: k in Outgoing(m, done)
  }

  /** No edge is dropped if and only if every node with an edge into it lists a proposition. */
  lemma EdgesKeptExactly(done: seq<Node>)
    ensures (forall k :: EdgesKept(done, k)) <==> Labelled(done)
  {
    forall k, m | 0 <= k < |done| && m in done[k].incoming
      ensures k in Outgoing(m, done) <==> Propositions(done[k].now) != []
    {
      OutgoingMembers(m, done, |done|, k);
    }
    if forall k :: EdgesKept(done, k) {
      forall k | 0 <= k < |done| && done[k].incoming != [] ensures Propositions(done[k].now) != [] {
        assert EdgesKept(done, k) && done[k].incoming[0] in done[k].incoming;
      }
    }
  }

  /** No state satisfies the propositions of two successors of a node. */
  ghost predicate Exclusive(done: seq<Node>) {
    forall m, j, k, s :: BothHold(done, m, j, k, s) ==> j == k
  }

  predicate BothHold(done: seq<Node>, m: NodeRef, j: nat, k: nat, s: State) {
    j < |done| && k < |done| && m in done[j].incoming && m in done[k].incoming &&
    AllHold(Propositions(done[j].now), s) && AllHold(Propositions(done[k].now), s)
  }

  /** The tests are conjunctions, no edge is dropped and no state passes the tests of two successors. */
  ghost predicate Regular(done: seq<Node>) {
    TestsConjunctions(done) && Labelled(done) && Exclusive(done)
  }

  /** A labelled run is the first-match run when nothing is dropped and successors exclude each other. */
  lemma RunIsFirstMatch(done: seq<Node>, r: Run, w: Word)
    requires Regular(done) && RunsOn(done, r, w)
    ensures FirstMatches(done, r, w)
  {
    forall i: nat ensures FirstMatchAt(done, r, w, i) {
      var m, k, s := SourceAt(r, i), r(i), w(i);
      assert m in done[k].incoming by { if i > 0 { assert At(r(i - 1)) in done[r(i - 1 + 1)].incoming; } }
      OutgoingMembers(m, done, |done|, k);
      forall p | p in Propositions(done[k].now) ensures Value(p, s) != 0 {
        assert Holds(w, i, p) by { assert p in Propositions(Visit(done, r, i).now); }
        PropositionsMembers(done[k].now, p);
        PropositionMeaning(w, i, p);
      }
      PassesAllHold(done, k, s);
      forall j | j in Outgoing(m, done) && Passes(done, j, s) ensures j == k {
        OutgoingMembers(m, done, |done|, j);
        PassesAllHold(done, j, s);
        assert BothHold(done, m, j, k, s);
      }
      OnlyIsFirst(done, m, s, k);
    }
  }

  /** Then the process accepts exactly the words that the automaton accepts. */
  lemma ProcessIsAutomaton(done: seq<Node>, top: Formula, w: Word)
    requires Decided(done, top) && Regular(done)
    ensures ProcessAccepts(done, top, w) <==> Accepts(done, top, w)
  {
    if ProcessAccepts(done, top, w) { ProcessWithinAutomaton(done, top, w); }
    if Accepts(done, top, w) {
      var r: Run :| RunsOn(done, r, w) && AcceptingRecurs(done, r, top);
      RunIsFirstMatch(done, r, w);
      assert FirstMatchAccepts(done, top, r, w);
      ProcessAcceptsExactly(done, top, w);
    }
  }

  /** And with at most one until inside the releases of the formula, exactly the words that satisfy the formula. */
  lemma ProcessIsExact(f: Formula, w: Word)
    requires Generated(f) && AtMostOneRecurring(Normalize(f))
    requires Regular(Build(Normalize(f)).value)
    ensures GeneratedAccepts(f, w) <==> Holds(w, 0, f)
  {
    ProcessIsAutomaton(Build(Normalize(f)).value, Normalize(f), w);
    LanguageOneRecurring(Normalize(f), w);
    NormalizeMeaning(w, 0, f);
  }
}
