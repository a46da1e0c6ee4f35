/** What every completed tableau satisfies, and why a word that labels an accepted run of it
    satisfies the formula. */
module Soundness {
  import opened Formulas
  import opened Tableau

  predicate Has(n: Node, f: Formula) {
    f in n.now || f in n.pending
  }

  /** f has been replaced by formulas about the present (in n) and about the next position. */
  predicate Decomposed(f: Formula, n: Node) {
    if IsProposition(f) then !IsFalse(f)
    else match f
      case Binary(Until, a, b) => Has(n, b) || (Has(n, a) && f in n.next)
      case Binary(Release, a, b) => Has(n, b) && (Has(n, a) || f in n.next)
      case Binary(PathOr, a, b) => Has(n, a) || Has(n, b)
      case Binary(PathAnd, a, b) => Has(n, a) && Has(n, b)
      case Unary(NextTime, a) => a in n.next
      case _ => false
  }

  /** An edge into n carries over everything its source has promised for the next position. */
  predicate Arrives(r: NodeRef, n: Node, done: seq<Node>, top: Formula) {
    match r
    case Start => Has(n, top)
    case At(k) => k < |done| && forall f | f in done[k].next :: Has(n, f)
  }

  predicate NodeInvariant(n: Node, done: seq<Node>, top: Formula) {
    && (forall f | f in n.now :: Decomposed(f, n))
    && (forall r | r in n.incoming :: Arrives(r, n, done, top))
  }

  predicate Invariant(done: seq<Node>, top: Formula) {
    forall k | 0 <= k < |done| :: NodeInvariant(done[k], done, top)
  }

  lemma NodeInvariantExtends(n: Node, done: seq<Node>, more: seq<Node>, top: Formula)
    requires NodeInvariant(n, done, top) && Extends(done, more)
    ensures NodeInvariant(n, more, top)
  {
    forall r | r in n.incoming ensures Arrives(r, n, more, top) {
      assert Arrives(r, n, done, top);
      if r.At? { assert more[r.index].next == done[r.index].next; }
    }
  }

  /** A round of decomposition keeps the node invariant. */
  lemma AlternativesInvariant(n: Node, done: seq<Node>, top: Formula, a: Node)
    requires NodeInvariant(n, done, top) && n.pending != []
    requires Alternatives(n).Some? && a in Alternatives(n).value
    ensures NodeInvariant(a, done, top)
  {
    assert forall f | Has(n, f) :: Has(a, f);
    assert forall f | f in n.next :: f in a.next;
    forall f | f in a.now ensures Decomposed(f, a) {
      if f in n.now {
        assert Decomposed(f, n);
      }
    }
    forall r | r in a.incoming ensures Arrives(r, a, done, top) {
      assert Arrives(r, n, done, top);
    }
  }

  lemma MergeInvariant(done: seq<Node>, k: nat, n: Node, top: Formula)
    requires Invariant(done, top) && NodeInvariant(n, done, top) && n.pending == []
    requires k < |done| && SameContents(done[k], n)
    ensures Invariant(done[k := done[k].(incoming := done[k].incoming + n.incoming)], top)
  {
    var merged := done[k].(incoming := done[k].incoming + n.incoming);
    var more := done[k := merged];
    assert Extends(done, more);
    forall f ensures Has(n, f) ==> Has(merged, f) {
      assert f in n.now <==> f in multiset(n.now);
      assert f in merged.now <==> f in multiset(merged.now);
    }
    forall r | r in merged.incoming ensures Arrives(r, merged, done, top) {
      if r in n.incoming {
        assert Arrives(r, n, done, top);
      } else {
        assert Arrives(r, done[k], done, top);
      }
    }
    assert NodeInvariant(merged, done, top) by {
      assert forall f | f in done[k].now :: Decomposed(f, done[k]);
      assert forall f | Has(done[k], f) :: Has(merged, f);
    }
    forall j | 0 <= j < |more| ensures NodeInvariant(more[j], more, top) {
      NodeInvariantExtends(more[j], done, more, top);
    }
  }

  lemma AppendInvariant(done: seq<Node>, n: Node, top: Formula)
    requires Invariant(done, top) && NodeInvariant(n, done, top)
    ensures Invariant(done + [n], top)
  {
    forall j | 0 <= j < |done + [n]| ensures NodeInvariant((done + [n])[j], done + [n], top) {
      NodeInvariantExtends((done + [n])[j], done, done + [n], top);
    }
  }

  /** The tableau invariant: completed nodes are closed under decomposition and respect edges. */
  lemma {:induction false} ExpandInvariant(n: Node, done: seq<Node>, u: set<Formula>, top: Formula)
    requires Closed(u) && WellFormed(n, u) && WellFormedDone(done, u)
    requires Invariant(done, top) && NodeInvariant(n, done, top)
    ensures Expand(n, done, u).Some? ==> Invariant(Expand(n, done, u).value, top)
    decreases |Shapes(u)| - |done|, |u| - |n.now|, |n.pending|
  {
    DoneIsBounded(done, u);
    if n.pending == [] {
      match FindSame(done, n)
      case Some(k) => MergeInvariant(done, k, n, top);
      case None =>
        DoneIsBounded(done + [n], u);
        AppendInvariant(done, n, top);
        ExpandInvariant(Successor(n, |done|), done + [n], u, top);
    } else if Alternatives(n).Some? && Alternatives(n).value != [] {
      AlternativesWellFormed(n, u);
      var alts := Alternatives(n).value;
      AlternativesInvariant(n, done, top, alts[0]);
      ExpandInvariant(alts[0], done, u, top);
      var first := Expand(alts[0], done, u);
      if |alts| == 2 && first.Some? {
        DoneIsBounded(first.value, u);
        AlternativesInvariant(n, done, top, alts[1]);
        NodeInvariantExtends(alts[1], done, first.value, top);
        ExpandInvariant(alts[1], first.value, u, top);
      }
    }
  }

  // ----- runs -----

  type Run = nat -> nat

  /** The node a run visits at position i (and an empty node outside the list). */
  function Visit(done: seq<Node>, r: Run, i: nat): Node {
    if r(i) < |done| then done[r(i)] else Node([], [], [], [])
  }

  /** An infinite path that starts at an initial node and follows incoming edges. */
  ghost predicate IsRun(done: seq<Node>, r: Run) {
    && (forall i: nat :: r(i) < |done|)
    && Start in done[r(0)].incoming
    && (forall i: nat :: At(r(i)) in done[r(i + 1)].incoming)
  }

  /** The word satisfies the propositions of each node the run visits. */
  ghost predicate Labels(done: seq<Node>, r: Run, w: Word) {
    forall i: nat, p | p in Propositions(Visit(done, r, i).now) :: Holds(w, i, p)
  }

  /** Nothing promised by the until is still open: it is absent, or its right side is present. */
  predicate Fulfilled(n: Node, t: Formula) {
    t.Binary? && (t.right in n.now || t !in n.now)
  }

  /** The marking of calc_accept_states: no until of the formula is still open. */
  predicate IsAccepting(n: Node, top: Formula) {
    forall t | t in Untils(top) :: Fulfilled(n, t)
  }

  ghost predicate FulfilledAfter(done: seq<Node>, r: Run, t: Formula, i: nat) {
    exists j: nat :: i <= j && Fulfilled(Visit(done, r, j), t)
  }

  ghost predicate AcceptingAfter(done: seq<Node>, r: Run, top: Formula, i: nat) {
    exists j: nat :: i <= j && IsAccepting(Visit(done, r, j), top)
  }

  /** Every until on its own is fulfilled infinitely often. */
  ghost predicate EachUntilRecurs(done: seq<Node>, r: Run, top: Formula) {
    forall t, i: nat | t in Untils(top) :: FulfilledAfter(done, r, t, i)
  }

  /** The single accept set of the code is visited infinitely often. */
  ghost predicate AcceptingRecurs(done: seq<Node>, r: Run, top: Formula) {
    forall i: nat :: AcceptingAfter(done, r, top, i)
  }

  /** A list of completed nodes as the construction leaves it. */
  predicate IsTableau(done: seq<Node>, top: Formula) {
    && Invariant(done, top)
    && forall k | 0 <= k < |done| :: done[k].pending == [] && Over(done[k].now, Subformulas(top))
  }

  lemma VisitDecomposed(done: seq<Node>, top: Formula, r: Run, i: nat, f: Formula)
    requires IsTableau(done, top) && IsRun(done, r)
    requires f in Visit(done, r, i).now
    ensures Decomposed(f, Visit(done, r, i)) && Visit(done, r, i).pending == []
  {
    assert NodeInvariant(done[r(i)], done, top);
  }

  lemma FollowsNext(done: seq<Node>, top: Formula, r: Run, i: nat, f: Formula)
    requires IsTableau(done, top) && IsRun(done, r)
    requires f in Visit(done, r, i).next
    ensures f in Visit(done, r, i + 1).now
  {
    assert NodeInvariant(done[r(i + 1)], done, top);
    assert Arrives(At(r(i)), done[r(i + 1)], done, top);
  }

  lemma {:induction false} UntilHolds(done: seq<Node>, top: Formula, r: Run, w: Word, f: Formula, i: nat, j: nat)
    requires IsTableau(done, top) && IsRun(done, r)
    requires f.Binary? && f.bop == Until
    requires forall k: nat | f.left in Visit(done, r, k).now :: Holds(w, k, f.left)
    requires forall k: nat | f.right in Visit(done, r, k).now :: Holds(w, k, f.right)
    requires i <= j && f in Visit(done, r, i).now && Fulfilled(Visit(done, r, j), f)
    ensures Holds(w, i, f)
    decreases j - i
  {
    VisitDecomposed(done, top, r, i, f);
    UntilUnrolls(w, i, f.left, f.right);
    if f.right !in Visit(done, r, i).now {
      FollowsNext(done, top, r, i, f);
      UntilHolds(done, top, r, w, f, i + 1, j);
    }
  }

  lemma {:induction false} ReleasePersists(done: seq<Node>, top: Formula, r: Run, f: Formula, i: nat, k: nat)
    requires IsTableau(done, top) && IsRun(done, r)
    requires f.Binary? && f.bop == Release
    requires i <= k && f in Visit(done, r, i).now
    ensures f in Visit(done, r, k).now || exists j: nat :: i <= j < k && f.left in Visit(done, r, j).now
    decreases k - i
  {
    if i < k {
      ReleasePersists(done, top, r, f, i, k - 1);
      if f in Visit(done, r, k - 1).now {
        VisitDecomposed(done, top, r, k - 1, f);
        if f.left !in Visit(done, r, k - 1).now {
          FollowsNext(done, top, r, k - 1, f);
        }
      }
    }
  }

  lemma ReleaseHolds(done: seq<Node>, top: Formula, r: Run, w: Word, f: Formula, i: nat)
    requires IsTableau(done, top) && IsRun(done, r)
    requires f.Binary? && f.bop == Release
    requires forall k: nat | f.left in Visit(done, r, k).now :: Holds(w, k, f.left)
    requires forall k: nat | f.right in Visit(done, r, k).now :: Holds(w, k, f.right)
    requires f in Visit(done, r, i).now
    ensures Holds(w, i, f)
  {
    var p, q := Positions(w, f.left), Positions(w, f.right);
    forall k: nat | i <= k ensures q(k) || exists j: nat :: i <= j < k && p(j) {
      ReleasePersists(done, top, r, f, i, k);
      if j: nat :| i <= j < k && f.left in Visit(done, r, j).now {
        assert Holds(w, j, f.left);
      } else {
        VisitDecomposed(done, top, r, k, f);
        assert Holds(w, k, f.right);
      }
    }
    assert ReleaseFrom(i, p, q);
  }

  /** A formula of a visited node holds once the formulas it was decomposed into do. */
  lemma OperatorHolds(done: seq<Node>, top: Formula, r: Run, w: Word, f: Formula, i: nat)
    requires IsTableau(done, top) && IsRun(done, r) && EachUntilRecurs(done, r, top)
    requires f.Binary? && IsTemporal(f.bop)
    requires forall k: nat | f.left in Visit(done, r, k).now :: Holds(w, k, f.left)
    requires forall k: nat | f.right in Visit(done, r, k).now :: Holds(w, k, f.right)
    requires f in Visit(done, r, i).now
    ensures Holds(w, i, f)
  {
    if f.bop == Until {
      assert f in Subformulas(top) by { assert Over(done[r(i)].now, Subformulas(top)); }
      UntilsCollectsAll(top, f);
      assert FulfilledAfter(done, r, f, i);
      var j: nat :| i <= j && Fulfilled(Visit(done, r, j), f);
      UntilHolds(done, top, r, w, f, i, j);
    } else if f.bop == Release {
      ReleaseHolds(done, top, r, w, f, i);
    } else {
      VisitDecomposed(done, top, r, i, f);
      assert f.left in Visit(done, r, i).now ==> Holds(w, i, f.left);
      assert f.right in Visit(done, r, i).now ==> Holds(w, i, f.right);
    }
  }

  /** Truth lemma: along a labelled run on which every until recurs, whatever a node lists holds. */
  lemma {:induction false} NowHolds(done: seq<Node>, top: Formula, r: Run, w: Word, f: Formula, i: nat)
    requires IsTableau(done, top) && IsRun(done, r)
    requires Labels(done, r, w) && EachUntilRecurs(done, r, top)
    requires f in Visit(done, r, i).now
    ensures Holds(w, i, f)
    decreases f
  {
    var n := Visit(done, r, i);
    VisitDecomposed(done, top, r, i, f);
    if IsProposition(f) {
      PropositionsMembers(n.now, f);
    } else if f.Unary? {
      FollowsNext(done, top, r, i, f.arg);
      NowHolds(done, top, r, w, f.arg, i + 1);
    } else {
      forall k: nat | f.left in Visit(done, r, k).now ensures Holds(w, k, f.left) {
        NowHolds(done, top, r, w, f.left, k);
      }
      forall k: nat | f.right in Visit(done, r, k).now ensures Holds(w, k, f.right) {
        NowHolds(done, top, r, w, f.right, k);
      }
      OperatorHolds(done, top, r, w, f, i);
    }
  }

  lemma AcceptingImpliesEach(done: seq<Node>, r: Run, top: Formula)
    requires AcceptingRecurs(done, r, top)
    ensures EachUntilRecurs(done, r, top)
  {
    forall t, i: nat | t in Untils(top) ensures FulfilledAfter(done, r, t, i) {
      assert AcceptingAfter(done, r, top, i);
      var j: nat :| i <= j && IsAccepting(Visit(done, r, j), top);
      assert Fulfilled(Visit(done, r, j), t);
    }
  }
}
