/** What holds of every node of a tableau: properties that decomposition keeps, and their consequences for
    the lists of a node (src/ltl/ltl-converter.c, expand_node). */
module TableauFacts {
  import opened Wrappers
  import opened Formulas
  import opened Tableau
  import opened Language

  // ----- properties that every round keeps -----

  /** P does not depend on the edges, and a node has it when the node it comes from has it. */
  ghost predicate Inherited(P: Node -> bool) {
    (forall n: Node, refs :: P(n) ==> P(n.(incoming := refs))) &&
    (forall n: Node, a | P(n) && IsAlternative(n, a) :: P(a)) &&
    (forall n: Node, k: nat | P(n) && n.pending == [] :: P(Successor(n, k)))
  }

  predicate IsAlternative(n: Node, a: Node) {
    n.pending != [] && Alternatives(n).Some? && a in Alternatives(n).value
  }

  lemma {:induction false} ExpandKeepsEach(n: Node, done: seq<Node>, u: set<Formula>, P: Node -> bool)
    requires Closed(u) && WellFormed(n, u) && WellFormedDone(done, u)
    requires Inherited(P) && P(n) && forall k | 0 <= k < |done| :: P(done[k])
    ensures Expand(n, done, u).Some? ==> forall m | m in Expand(n, done, u).value :: P(m)
    decreases |Shapes(u)| - |done|, |u| - |n.now|, |n.pending|
  {
    DoneIsBounded(done, u);
    if n.pending == [] {
      if FindSame(done, n).None? {
        DoneIsBounded(done + [n], u);
        ExpandKeepsEach(Successor(n, |done|), done + [n], u, P);
      }
    } else if Alternatives(n).Some? && Alternatives(n).value != [] {
      AlternativesWellFormed(n, u);
      var alts := Alternatives(n).value;
      assert IsAlternative(n, alts[0]);
      ExpandKeepsEach(alts[0], done, u, P);
      var first := Expand(alts[0], done, u);
      if |alts| == 2 && first.Some? {
        DoneIsBounded(first.value, u);
        assert IsAlternative(n, alts[1]);
        ExpandKeepsEach(alts[1], first.value, u, P);
      }
    }
  }

  lemma BuildKeepsEach(top: Formula, P: Node -> bool)
    requires Build(top).Some? && Inherited(P) && P(InitialNode(top))
    ensures forall m | m in Build(top).value :: P(m)
  {
    InitialWellFormed(top);
    ExpandKeepsEach(InitialNode(top), [], Subformulas(top), P);
  }

  // ----- next -----

  function Indicator(b: bool): nat {
    if b then 1 else 0
  }

  /** A formula stands in next once for itself and once for the next-time formula above it. */
  ghost predicate NextCounted(n: Node) {
    forall f :: multiset(n.next)[f] <= Indicator(f in n.now) + Indicator(Unary(NextTime, f) in n.now)
  }

  lemma AlternativeNextCounted(n: Node, a: Node)
    requires NextCounted(n) && IsAlternative(n, a)
    ensures NextCounted(a)
  {
    var t := n.pending[0];
    forall f ensures multiset(a.next)[f] <= Indicator(f in a.now) + Indicator(Unary(NextTime, f) in a.now) {
      assert multiset(n.next)[f] <= Indicator(f in n.now) + Indicator(Unary(NextTime, f) in n.now);
    }
  }

  /** No formula stands in next more than twice. */
  lemma NextAtMostTwice(top: Formula, k: nat, f: Formula)
    requires Build(top).Some? && k < |Build(top).value|
    ensures multiset(Build(top).value[k].next)[f] <= 2
  {
    var P := (n: Node) => NextCounted(n);
    forall n: Node, a | P(n) && IsAlternative(n, a) ensures P(a) { AlternativeNextCounted(n, a); }
    BuildKeepsEach(top, P);
    assert NextCounted(Build(top).value[k]);
  }

  // ----- contradictions -----

  /** No proposition is listed behind its negation, and none that is false. */
  ghost predicate Consistent(n: Node) {
    forall j | 0 <= j < |n.now| && IsProposition(n.now[j]) ::
      !IsFalse(n.now[j]) && forall i | 0 <= i < j :: n.now[i] != Negate(n.now[j])
  }

  lemma AlternativeConsistent(n: Node, a: Node)
    requires Consistent(n) && IsAlternative(n, a)
    ensures Consistent(a)
  {
  }

  /** A completed node lists no false proposition and none behind its negation. */
  lemma NodesConsistent(top: Formula, k: nat, i: nat, j: nat)
    requires Build(top).Some? && k < |Build(top).value| && i < j < |Build(top).value[k].now|
    requires IsProposition(Build(top).value[k].now[j])
    ensures !IsFalse(Build(top).value[k].now[j])
    ensures Build(top).value[k].now[i] != Negate(Build(top).value[k].now[j])
  {
    var P := (n: Node) => Consistent(n);
    forall n: Node, a | P(n) && IsAlternative(n, a) ensures P(a) { AlternativeConsistent(n, a); }
    BuildKeepsEach(top, P);
    assert Consistent(Build(top).value[k]);
  }

  // ----- which propositions a node lists -----

  /** The formulas that decomposition meets; it stops at propositions. */
  function Parts(f: Formula): set<Formula> {
    {f} +
    if IsProposition(f) then {}
    else match f
      case Unary(_, a) => Parts(a)
      case Binary(_, a, b) => Parts(a) + Parts(b)
      case Bracket(a) => Parts(a)
      case _ => {}
  }

  /** The propositions below the temporal operators. */
  function Leaves(f: Formula): set<Formula> {
    if IsProposition(f) then {f}
    else match f
      case Unary(_, a) => Leaves(a)
      case Binary(_, a, b) => Leaves(a) + Leaves(b)
      case Bracket(a) => Leaves(a)
      case _ => {}
  }

  lemma {:induction false} PropositionPartsAreLeaves(f: Formula, p: Formula)
    requires p in Parts(f) && IsProposition(p)
    ensures p in Leaves(f)
  {
    if p != f {
      match f
      case Unary(_, a) => PropositionPartsAreLeaves(a, p);
      case Binary(_, a, b) =>
        if p in Parts(a) { PropositionPartsAreLeaves(a, p); } else { PropositionPartsAreLeaves(b, p); }
      case Bracket(a) => PropositionPartsAreLeaves(a, p);
    }
  }

  predicate PartsClosed(v: set<Formula>) {
    forall f | f in v && !IsProposition(f) ::
      && (f.Unary? ==> f.arg in v)
      && (f.Binary? ==> f.left in v && f.right in v)
  }

  lemma {:induction false} PartsAreClosed(f: Formula)
    ensures PartsClosed(Parts(f)) && f in Parts(f)
  {
    if !IsProposition(f) {
      match f
      case Unary(_, a) => PartsAreClosed(a);
      case Binary(_, a, b) => PartsAreClosed(a); PartsAreClosed(b);
      case Bracket(a) => PartsAreClosed(a);
      case _ =>
    }
  }

  predicate NodeOver(n: Node, v: set<Formula>) {
    Over(n.now, v) && Over(n.pending, v) && Over(n.next, v)
  }

  lemma AlternativeOver(n: Node, a: Node, v: set<Formula>)
    requires PartsClosed(v) && NodeOver(n, v) && IsAlternative(n, a)
    ensures NodeOver(a, v)
  {
    var t := n.pending[0];
    assert t in v;
  }

  /** A node lists parts of the formula only, and its propositions are leaves. */
  lemma NodesListLeaves(top: Formula, k: nat, p: Formula)
    requires Build(top).Some? && k < |Build(top).value| && p in Propositions(Build(top).value[k].now)
    ensures p in Leaves(top)
  {
    var v := Parts(top);
    PartsAreClosed(top);
    var P := (n: Node) => NodeOver(n, v);
    forall n: Node, a | P(n) && IsAlternative(n, a) ensures P(a) { AlternativeOver(n, a, v); }
    BuildKeepsEach(top, P);
    PropositionsMembers(Build(top).value[k].now, p);
    assert NodeOver(Build(top).value[k], v);
    PropositionPartsAreLeaves(top, p);
  }

  lemma {:induction false} PropositionsCount(fs: seq<Formula>, p: Formula)
    ensures multiset(Propositions(fs))[p] == if IsProposition(p) then multiset(fs)[p] else 0
  {
    if fs != [] {
      PropositionsCount(fs[..|fs| - 1], p);
      assert fs == fs[..|fs| - 1] + [fs[|fs| - 1]];
    }
  }

  /** The propositions of a node are pairwise different. */
  lemma NodesListOnce(top: Formula, k: nat)
    requires Build(top).Some? && k < |Build(top).value|
    ensures NoDuplicates(Propositions(Build(top).value[k].now))
  {
    BuildIsTableau(top);
    var now := Build(top).value[k].now;
    assert WellFormed(Build(top).value[k], Subformulas(top));
    OnceOnly(now);
  }

  lemma {:induction false} OnceOnly(fs: seq<Formula>)
    requires NoDuplicates(fs)
    ensures NoDuplicates(Propositions(fs))
  {
    if fs != [] {
      var front := fs[..|fs| - 1];
      OnceOnly(front);
      PropositionsMembers(front, fs[|fs| - 1]);
    }
  }
}
