/** Conditions on a formula, checkable before the conversion, under which the generated tests mean what
    they should and no assertion of the generator fails. */
module Guards {
  import opened Formulas
  import opened Conditions
  import opened Language
  import opened TableauFacts
  import opened Generator
  import opened Processes

  /** No disjunction among the propositions of the formula, unless it is the whole formula. */
  predicate NoOrLeaf(top: Formula) {
    IsProposition(top) || forall p | p in Leaves(top) :: !IsOr(p)
  }

  /** No constant that is true among them, as every eventually brings one. */
  predicate NoTrueLeaf(top: Formula) {
    forall p | p in Leaves(top) :: !IsTrue(p)
  }

  /** Every proposition has a spelling. */
  predicate Spelled(top: Formula) {
    forall p | p in Leaves(top) :: HasSyntax(p)
  }

  lemma NodePropositions(top: Formula, k: nat, j: nat)
    requires Build(top).Some? && k < |Build(top).value| && j < |Propositions(Build(top).value[k].now)|
    ensures Propositions(Build(top).value[k].now)[j] in Leaves(top)
  {
    NodesListLeaves(top, k, Propositions(Build(top).value[k].now)[j]);
  }

  /** Then every test is the conjunction of the listed propositions. */
  lemma NoOrLeafConjunctions(top: Formula)
    requires Build(top).Some? && NoOrLeaf(top)
    ensures TestsConjunctions(Build(top).value)
  {
    var done := Build(top).value;
    forall k | 0 <= k < |done| ensures NoLaterOr(Propositions(done[k].now)) {
      var ps := Propositions(done[k].now);
      NodesListOnce(top, k);
      forall j | 0 < j < |ps| ensures !IsOr(ps[j]) {
        NodePropositions(top, k, j);
        NodePropositions(top, k, 0);
      }
    }
  }

  /** Then no node is entered without a test, so no definition has two such successors. */
  lemma NoTrueLeafDecided(top: Formula)
    requires Build(top).Some? && NoTrueLeaf(top)
    ensures Decided(Build(top).value, top)
  {
    var done := Build(top).value;
    forall m ensures DecisionOf(done, top, m).Some? {
      var ks := Outgoing(m, done);
      var es := Elses(done, ks);
      if es != [] {
        var k := es[0];
        SplitMembers(done, ks, k);
        OutgoingMembers(m, done, |done|, k);
        NodePropositions(top, k, 0);
      }
    }
  }
}
