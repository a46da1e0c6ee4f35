/** Every word that satisfies the formula labels a run of the tableau: the run that takes the
    second clone of an until as soon as its right side holds. */
module Completeness {
  import opened Wrappers
  import opened Formulas
  import opened Tableau
  import opened Soundness

  /** The word satisfies at position i everything the node lists; an until the node has decomposed is
      fulfilled in the node whenever its right side holds now, and is then not promised again. */
  ghost predicate Agrees(n: Node, w: Word, i: nat) {
    && (forall f | Has(n, f) :: Holds(w, i, f))
    && (forall f | f in n.next :: Holds(w, i + 1, f))
    && (forall f | f in n.now && f.Binary? && f.bop == Until && Holds(w, i, f.right) :: Has(n, f.right))
    && (forall f | f in n.next && f.Binary? && f.bop == Until && Holds(w, i, f.right) :: Unary(NextTime, f) in n.now)
  }

  ghost predicate NextHolds(n: Node, w: Word, i: nat) {
    forall f | f in n.next :: Holds(w, i, f)
  }

  /** Some completed node has these incoming edges and agrees with the word. */
  ghost predicate Covered(incoming: seq<NodeRef>, done: seq<Node>, w: Word, i: nat) {
    exists k: nat :: k < |done| && (forall r | r in incoming :: r in done[k].incoming) && Agrees(done[k], w, i)
  }

  /** From every node completed since `from`, a word that keeps its promises can go on. */
  ghost predicate Continues(done: seq<Node>, from: nat, w: Word) {
    forall k: nat, i: nat | from <= k < |done| && NextHolds(done[k], w, i) :: Covered([At(k)], done, w, i)
  }

  lemma AgreesExtends(done: seq<Node>, more: seq<Node>, k: nat, w: Word, i: nat)
    requires Extends(done, more) && k < |done| && Agrees(done[k], w, i)
    ensures Agrees(more[k], w, i)
  {
    assert more[k] == done[k].(incoming := more[k].incoming);
    assert forall f | Has(more[k], f) :: Has(done[k], f);
  }

  lemma CoveredExtends(incoming: seq<NodeRef>, done: seq<Node>, more: seq<Node>, w: Word, i: nat)
    requires Extends(done, more) && Covered(incoming, done, w, i)
    ensures Covered(incoming, more, w, i)
  {
    var k: nat :| k < |done| && (forall r | r in incoming :: r in done[k].incoming) && Agrees(done[k], w, i);
    AgreesExtends(done, more, k, w, i);
    assert done[k].incoming <= more[k].incoming;
  }

  /** Of two alternatives the second is taken for an until whose right side holds, for a release whose left side
      holds, and for a disjunction whose left side does not hold. */
  ghost predicate DecidesAlternative(n: Node, w: Word, i: nat, b: nat)
    requires n.pending != [] && Alternatives(n).Some?
  {
    var t := n.pending[0];
    |Alternatives(n).value| == 2 ==>
      t.Binary? && (b == 1 <==> if t.bop == Until then Holds(w, i, t.right)
                                else if t.bop == Release then Holds(w, i, t.left)
                                else !Holds(w, i, t.left))
  }

  /** When a node agrees with the word, so does one of the nodes that replace it. */
  lemma AlternativesAgree(n: Node, w: Word, i: nat) returns (b: nat)
    requires n.pending != [] && Agrees(n, w, i) && Alternatives(n).Some?
    ensures b < |Alternatives(n).value|
    ensures Agrees(Alternatives(n).value[b], w, i) && Alternatives(n).value[b].incoming == n.incoming
    ensures DecidesAlternative(n, w, i, b)
  {
    var t := n.pending[0];
    var alts := Alternatives(n).value;
    assert Holds(w, i, t) by { assert Has(n, t); }
    b := 0;
    if t !in n.now {
      if IsProposition(t) {
        ConstantMeaning(w, i, t);
        if Negate(t) in n.now {
          assert Has(n, Negate(t));
        }
      } else if t.Binary? {
        if t.bop == Until {
          UntilUnrolls(w, i, t.left, t.right);
          b := if Holds(w, i, t.right) then 1 else 0;
        } else if t.bop == Release {
          ReleaseUnrolls(w, i, t.left, t.right);
          b := if Holds(w, i, t.left) then 1 else 0;
        } else if t.bop == PathOr {
          b := if Holds(w, i, t.left) then 0 else 1;
        }
      }
    }
    forall f | Has(alts[b], f) ensures Holds(w, i, f) {
      if Has(n, f) { assert Holds(w, i, f); }
    }
    assert forall f | Has(n, f) :: Has(alts[b], f);
    forall f | f in alts[b].next ensures Holds(w, i + 1, f) {
      if f in n.next { assert Holds(w, i + 1, f); }
    }
    forall f | f in alts[b].now && f.Binary? && f.bop == Until && Holds(w, i, f.right) ensures Has(alts[b], f.right) {
      if f in n.now { assert Has(n, f.right); }
    }
    forall f | f in alts[b].next && f.Binary? && f.bop == Until && Holds(w, i, f.right)
      ensures Unary(NextTime, f) in alts[b].now
    {
      if f in n.next { assert Unary(NextTime, f) in n.now; }
    }
  }

  lemma MergeCovers(done: seq<Node>, k: nat, n: Node, w: Word, i: nat)
    requires k < |done| && SameContents(done[k], n) && n.pending == [] && done[k].pending == []
    requires Agrees(n, w, i)
    ensures Covered(n.incoming, done[k := done[k].(incoming := done[k].incoming + n.incoming)], w, i)
  {
    var merged := done[k].(incoming := done[k].incoming + n.incoming);
    forall f ensures Has(merged, f) <==> Has(n, f) {
      assert f in n.now <==> f in multiset(n.now);
      assert f in merged.now <==> f in multiset(merged.now);
    }
    forall f ensures f in merged.next <==> f in n.next {
      assert f in n.next <==> f in multiset(n.next);
      assert f in merged.next <==> f in multiset(merged.next);
    }
    assert forall f :: f in merged.now <==> f in n.now by {
      forall f ensures f in merged.now <==> f in n.now { assert Has(merged, f) <==> Has(n, f); }
    }
    assert Agrees(merged, w, i);
    assert done[k := merged][k] == merged;
  }

  lemma ContinuesExtends(done: seq<Node>, more: seq<Node>, from: nat, w: Word)
    requires Extends(done, more) && Continues(done, from, w) && Continues(more, |done|, w)
    ensures Continues(more, from, w)
  {
    forall k: nat, i: nat | from <= k < |more| && NextHolds(more[k], w, i) ensures Covered([At(k)], more, w, i) {
      if k < |done| {
        assert more[k].next == done[k].next;
        assert NextHolds(done[k], w, i);
        CoveredExtends([At(k)], done, more, w, i);
      }
    }
  }

  /** Of the nodes `all` that expansion of n after `done` gives: they cover n, and the words that
      reach a node completed on the way can go on. */
  ghost predicate Covers(n: Node, done: seq<Node>, all: seq<Node>, w: Word) {
    Continues(all, |done|, w) && forall i: nat | Agrees(n, w, i) :: Covered(n.incoming, all, w, i)
  }

  lemma NoAlternativeCovers(n: Node, done: seq<Node>, w: Word)
    requires n.pending != [] && Alternatives(n) == Some([])
    ensures Covers(n, done, done, w)
  {
    if i: nat :| Agrees(n, w, i) {
      var b := AlternativesAgree(n, w, i);
      assert false;
    }
  }

  lemma OneAlternativeCovers(n: Node, a: Node, done: seq<Node>, all: seq<Node>, w: Word)
    requires n.pending != [] && Alternatives(n) == Some([a])
    requires Covers(a, done, all, w)
    ensures Covers(n, done, all, w)
  {
    forall i: nat | Agrees(n, w, i) ensures Covered(n.incoming, all, w, i) {
      var b := AlternativesAgree(n, w, i);
    }
  }

  lemma TwoAlternativesCover(n: Node, a: Node, b: Node, done: seq<Node>, first: seq<Node>, all: seq<Node>, w: Word)
    requires n.pending != [] && Alternatives(n) == Some([a, b])
    requires Extends(done, first) && Extends(first, all)
    requires Covers(a, done, first, w) && Covers(b, first, all, w)
    ensures Covers(n, done, all, w)
  {
    ContinuesExtends(first, all, |done|, w);
    forall i: nat | Agrees(n, w, i) ensures Covered(n.incoming, all, w, i) {
      var c := AlternativesAgree(n, w, i);
      if c == 0 {
        CoveredExtends(n.incoming, first, all, w, i);
      }
    }
  }

  lemma CompletedCovers(n: Node, done: seq<Node>, all: seq<Node>, w: Word)
    requires n.pending == [] && Extends(done + [n], all)
    requires Covers(Successor(n, |done|), done + [n], all, w)
    ensures Covers(n, done, all, w)
  {
    assert (done + [n])[|done|] == n;
    forall k: nat, i: nat | |done| <= k < |all| && NextHolds(all[k], w, i) ensures Covered([At(k)], all, w, i) {
      if k == |done| {
        assert all[k].next == n.next;
        assert Agrees(Successor(n, |done|), w, i);
      }
    }
    forall i: nat | Agrees(n, w, i) ensures Covered(n.incoming, all, w, i) {
      AgreesExtends(done + [n], all, |done|, w, i);
      assert n.incoming <= all[|done|].incoming;
    }
  }

  /** Expansion loses no word. */
  lemma {:induction false} ExpandCovers(n: Node, done: seq<Node>, u: set<Formula>, w: Word)
    requires Closed(u) && WellFormed(n, u) && WellFormedDone(done, u)
    ensures Expand(n, done, u).Some? ==> Covers(n, done, Expand(n, done, u).value, w)
    decreases |Shapes(u)| - |done|, |u| - |n.now|, |n.pending|
  {
    DoneIsBounded(done, u);
    var r := Expand(n, done, u);
    if r.Some? {
      if n.pending == [] {
        match FindSame(done, n)
        case Some(k) =>
          forall i: nat | Agrees(n, w, i) ensures Covered(n.incoming, r.value, w, i) {
            MergeCovers(done, k, n, w, i);
          }
        case None =>
          DoneIsBounded(done + [n], u);
          ExpandCovers(Successor(n, |done|), done + [n], u, w);
          CompletedCovers(n, done, r.value, w);
      } else {
        AlternativesWellFormed(n, u);
        var alts := Alternatives(n).value;
        if alts == [] {
          NoAlternativeCovers(n, done, w);
        } else {
          ExpandCovers(alts[0], done, u, w);
          var first := Expand(alts[0], done, u);
          if |alts| == 1 {
            assert alts == [alts[0]];
            OneAlternativeCovers(n, alts[0], done, r.value, w);
          } else {
            assert alts == [alts[0], alts[1]];
            DoneIsBounded(first.value, u);
            ExpandCovers(alts[1], first.value, u, w);
            TwoAlternativesCover(n, alts[0], alts[1], done, first.value, r.value, w);
          }
        }
      }
    }
  }

  // ----- the witness run -----

  ghost predicate Visitable(done: seq<Node>, w: Word, i: nat, k: nat) {
    k < |done| && Agrees(done[k], w, i)
  }

  ghost function Witness(done: seq<Node>, w: Word, i: nat): (k: nat)
    requires Continues(done, 0, w) && Covered([Start], done, w, 0)
    ensures Visitable(done, w, i, k)
  {
    if i == 0 then
      var k: nat :| k < |done| && (forall r | r in [Start] :: r in done[k].incoming) && Agrees(done[k], w, 0);
      k
    else
      var before := Witness(done, w, i - 1);
      assert NextHolds(done[before], w, i);
      var k: nat :| k < |done| && (forall r | r in [At(before)] :: r in done[k].incoming) && Agrees(done[k], w, i);
      k
  }

  lemma WitnessEdge(done: seq<Node>, w: Word, i: nat)
    requires Continues(done, 0, w) && Covered([Start], done, w, 0)
    ensures i == 0 ==> Start in done[Witness(done, w, i)].incoming
    ensures i > 0 ==> At(Witness(done, w, i - 1)) in done[Witness(done, w, i)].incoming
  {
    assert Start in [Start];
    if i > 0 {
      assert At(Witness(done, w, i - 1)) in [At(Witness(done, w, i - 1))];
    }
  }

  ghost function WitnessRun(done: seq<Node>, w: Word): Run
    requires Continues(done, 0, w) && Covered([Start], done, w, 0)
  {
    (i: nat) => Witness(done, w, i)
  }

  lemma WitnessIsRun(done: seq<Node>, w: Word)
    requires Continues(done, 0, w) && Covered([Start], done, w, 0)
    ensures IsRun(done, WitnessRun(done, w))
  {
    var r := WitnessRun(done, w);
    forall i: nat ensures r(i) < |done| {
      assert Visitable(done, w, i, r(i));
    }
    WitnessEdge(done, w, 0);
    forall i: nat ensures At(r(i)) in done[r(i + 1)].incoming {
      WitnessEdge(done, w, i + 1);
    }
  }

  lemma WitnessLabels(done: seq<Node>, w: Word)
    requires Continues(done, 0, w) && Covered([Start], done, w, 0)
    ensures Labels(done, WitnessRun(done, w), w)
  {
    var r := WitnessRun(done, w);
    forall i: nat, p | p in Propositions(Visit(done, r, i).now) ensures Holds(w, i, p) {
      PropositionsMembers(Visit(done, r, i).now, p);
      assert Visitable(done, w, i, r(i));
      assert Has(done[r(i)], p);
    }
  }

  /** On the witness run each until is fulfilled again and again. */
  lemma WitnessFulfills(done: seq<Node>, w: Word, top: Formula)
    requires Continues(done, 0, w) && Covered([Start], done, w, 0)
    requires forall k | 0 <= k < |done| :: done[k].pending == []
    ensures EachUntilRecurs(done, WitnessRun(done, w), top)
  {
    var r := WitnessRun(done, w);
    forall t, i: nat | t in Untils(top) ensures FulfilledAfter(done, r, t, i) {
      UntilsCollectsAll(top, t);
      assert Visitable(done, w, i, r(i));
      if t in done[r(i)].now {
        assert Has(done[r(i)], t);
        assert UntilFrom(i, Positions(w, t.left), Positions(w, t.right));
        var j: nat :| i <= j && Positions(w, t.right)(j);
        assert Holds(w, j, t.right);
        assert Visitable(done, w, j, r(j));
        assert t in done[r(j)].now ==> Has(done[r(j)], t.right);
        assert Fulfilled(Visit(done, r, j), t);
      } else {
        assert Fulfilled(Visit(done, r, i), t);
      }
    }
  }
}
