/** Where the formulas of a node come from: what it lists is part of a formula that its predecessor has promised,
    and what it promises stands in the node itself. */
module Descent {
  import opened Formulas
  import opened Tableau
  import opened Soundness
  import opened Language

  lemma {:induction false} ClosedContains(u: set<Formula>, g: Formula, h: Formula)
    requires Closed(u) && g in u && h in Subformulas(g)
    ensures h in u
  {
    if h != g {
      match g
      case Unary(_, a) => ClosedContains(u, a, h);
      case Bracket(a) => ClosedContains(u, a, h);
      case Binary(_, a, b) => if h in Subformulas(a) { ClosedContains(u, a, h); } else { ClosedContains(u, b, h); }
    }
  }

  lemma SubformulasTransitive(f: Formula, g: Formula, h: Formula)
    requires g in Subformulas(f) && h in Subformulas(g)
    ensures h in Subformulas(f)
  {
    SubformulasClosed(f);
    ClosedContains(Subformulas(f), g, h);
  }

  ghost predicate PartOf(f: Formula, gs: seq<Formula>) {
    exists g :: g in gs && f in Subformulas(g)
  }

  ghost predicate StemsFrom(r: NodeRef, f: Formula, done: seq<Node>, top: Formula) {
    match r
    case Start => f in Subformulas(top)
    case At(k) => k < |done| && PartOf(f, done[k].next)
  }

  lemma StemsDeeper(r: NodeRef, f: Formula, g: Formula, done: seq<Node>, top: Formula)
    requires StemsFrom(r, f, done, top) && g in Subformulas(f)
    ensures StemsFrom(r, g, done, top)
  {
    match r
    case Start => SubformulasTransitive(top, f, g);
    case At(k) =>
      var h :| h in done[k].next && f in Subformulas(h);
      SubformulasTransitive(h, f, g);
  }

  /** A promise is made by a next, an until or a release that the node lists. */
  predicate Promised(g: Formula, n: Node) {
    Unary(NextTime, g) in n.now || (g in n.now && g.Binary? && (g.bop == Until || g.bop == Release))
  }

  ghost predicate Descends(n: Node, done: seq<Node>, top: Formula) {
    && (forall r, f | r in n.incoming && Has(n, f) :: StemsFrom(r, f, done, top))
    && (forall g | g in n.next :: Promised(g, n))
  }

  ghost predicate AllDescend(done: seq<Node>, top: Formula) {
    forall k | 0 <= k < |done| :: Descends(done[k], done, top)
  }

  lemma DescendsExtends(n: Node, done: seq<Node>, more: seq<Node>, top: Formula)
    requires Descends(n, done, top) && Extends(done, more)
    ensures Descends(n, more, top)
  {
    forall r, f | r in n.incoming && Has(n, f) ensures StemsFrom(r, f, more, top) {
      assert StemsFrom(r, f, done, top);
      if r.At? { assert more[r.index].next == done[r.index].next; }
    }
  }

  lemma AlternativeDescends(n: Node, done: seq<Node>, top: Formula, a: Node)
    requires Descends(n, done, top) && n.pending != []
    requires Alternatives(n).Some? && a in Alternatives(n).value
    ensures Descends(a, done, top)
  {
    var t := n.pending[0];
    assert Has(n, t);
    forall r, f | r in a.incoming && Has(a, f) ensures StemsFrom(r, f, done, top) {
      assert StemsFrom(r, t, done, top);
      if !Has(n, f) { StemsDeeper(r, t, f, done, top); }
    }
    forall g | g in a.next ensures Promised(g, a) {
      if g in n.next { assert Promised(g, n); }
    }
  }

  lemma MergeDescends(done: seq<Node>, k: nat, n: Node, top: Formula)
    requires AllDescend(done, top) && Descends(n, done, top) && n.pending == []
    requires k < |done| && SameContents(done[k], n) && done[k].pending == []
    ensures AllDescend(done[k := done[k].(incoming := done[k].incoming + n.incoming)], top)
  {
    var merged := done[k].(incoming := done[k].incoming + n.incoming);
    var more := done[k := merged];
    assert Extends(done, more);
    forall f ensures Has(n, f) <==> Has(merged, f) {
      assert f in n.now <==> f in multiset(n.now);
      assert f in merged.now <==> f in multiset(merged.now);
    }
    assert Descends(done[k], done, top);
    forall r, f | r in merged.incoming && Has(merged, f) ensures StemsFrom(r, f, done, top) {
      assert Has(done[k], f) && Has(n, f);
    }
    assert Descends(merged, done, top);
    forall j | 0 <= j < |more| ensures Descends(more[j], more, top) {
      DescendsExtends(more[j], done, more, top);
    }
  }

  lemma AppendDescends(done: seq<Node>, n: Node, top: Formula)
    requires AllDescend(done, top) && Descends(n, done, top)
    ensures AllDescend(done + [n], top) && Descends(Successor(n, |done|), done + [n], top)
  {
    var more := done + [n];
    forall j | 0 <= j < |more| ensures Descends(more[j], more, top) {
      DescendsExtends(more[j], done, more, top);
    }
    var s := Successor(n, |done|);
    forall r, f | r in s.incoming && Has(s, f) ensures StemsFrom(r, f, more, top) {
      assert r == At(|done|) && more[|done|] == n && f in n.next;
    }
  }

  /** Every completed node keeps to its origins. */
  lemma {:induction false} ExpandDescends(n: Node, done: seq<Node>, u: set<Formula>, top: Formula)
    requires Closed(u) && WellFormed(n, u) && WellFormedDone(done, u)
    requires AllDescend(done, top) && Descends(n, done, top)
    ensures Expand(n, done, u).Some? ==> AllDescend(Expand(n, done, u).value, top)
    decreases |Shapes(u)| - |done|, |u| - |n.now|, |n.pending|
  {
    DoneIsBounded(done, u);
    if n.pending == [] {
      match FindSame(done, n)
      case Some(k) => MergeDescends(done, k, n, top);
      case None =>
        DoneIsBounded(done + [n], u);
        AppendDescends(done, n, top);
        ExpandDescends(Successor(n, |done|), done + [n], u, top);
    } else if Alternatives(n).Some? && Alternatives(n).value != [] {
      AlternativesWellFormed(n, u);
      var alts := Alternatives(n).value;
      AlternativeDescends(n, done, top, alts[0]);
      ExpandDescends(alts[0], done, u, top);
      var first := Expand(alts[0], done, u);
      if |alts| == 2 && first.Some? {
        DoneIsBounded(first.value, u);
        AlternativeDescends(n, done, top, alts[1]);
        DescendsExtends(alts[1], done, first.value, top);
        ExpandDescends(alts[1], first.value, u, top);
      }
    }
  }

  lemma BuildDescends(top: Formula)
    requires Build(top).Some?
    ensures AllDescend(Build(top).value, top)
  {
    InitialWellFormed(top);
    ExpandDescends(InitialNode(top), [], Subformulas(top), top);
  }

  // ----- on a run -----

  /** What is listed after the first position is part of a promise of the position before. */
  lemma ListedWasPromised(done: seq<Node>, top: Formula, r: Run, i: nat, f: Formula) returns (g: Formula)
    requires AllDescend(done, top) && IsRun(done, r) && f in done[r(i + 1)].now
    ensures g in done[r(i)].next && f in Subformulas(g)
  {
    assert Descends(done[r(i + 1)], done, top);
    assert At(r(i)) in done[r(i + 1)].incoming && Has(done[r(i + 1)], f);
    assert StemsFrom(At(r(i)), f, done, top);
    g :| g in done[r(i)].next && f in Subformulas(g);
  }
}
