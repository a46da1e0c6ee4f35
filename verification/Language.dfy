/** The automaton built for a formula and the words it accepts. */
module Language {
  import opened Wrappers
  import opened Formulas
  import opened Tableau
  import opened Soundness
  import opened Completeness

  function InitialNode(top: Formula): Node {
    Node([Start], [], [top], [])
  }

  lemma InitialWellFormed(top: Formula)
    ensures Closed(Subformulas(top)) && WellFormed(InitialNode(top), Subformulas(top))
  {
    SubformulasClosed(top);
  }

  /** The completed nodes for a formula; None is the fatal error of the construction. */
  ghost function Build(top: Formula): Option<seq<Node>> {
    InitialWellFormed(top);
    Expand(InitialNode(top), [], Subformulas(top))
  }

  // ----- the construction does not fail on decomposable formulas -----

  lemma {:induction false} ExpandSucceeds(n: Node, done: seq<Node>, u: set<Formula>)
    requires Closed(u) && WellFormed(n, u) && WellFormedDone(done, u)
    requires forall f | f in u :: Decomposable(f)
    ensures Expand(n, done, u).Some?
    decreases |Shapes(u)| - |done|, |u| - |n.now|, |n.pending|
  {
    DoneIsBounded(done, u);
    if n.pending == [] {
      if FindSame(done, n).None? {
        DoneIsBounded(done + [n], u);
        ExpandSucceeds(Successor(n, |done|), done + [n], u);
      }
    } else {
      AlternativesWellFormed(n, u);
      assert Decomposable(n.pending[0]);
      var alts := Alternatives(n).value;
      if alts != [] {
        ExpandSucceeds(alts[0], done, u);
        if |alts| == 2 {
          var first := Expand(alts[0], done, u);
          DoneIsBounded(first.value, u);
          ExpandSucceeds(alts[1], first.value, u);
        }
      }
    }
  }

  lemma BuildSucceeds(top: Formula)
    requires Decomposable(top)
    ensures Build(top).Some?
  {
    InitialWellFormed(top);
    forall f | f in Subformulas(top) ensures Decomposable(f) {
      DecomposableSubformulas(top, f);
    }
    ExpandSucceeds(InitialNode(top), [], Subformulas(top));
  }

  /** The completed nodes: pairwise different contents over the subformulas, without repetition
      in now, closed under decomposition, with edges only between completed nodes. */
  lemma BuildIsTableau(top: Formula)
    requires Build(top).Some?
    ensures IsTableau(Build(top).value, top) && WellFormedDone(Build(top).value, Subformulas(top))
  {
    InitialWellFormed(top);
    assert top in [top];
    ExpandInvariant(InitialNode(top), [], Subformulas(top), top);
    var done := Build(top).value;
    forall k | 0 <= k < |done| ensures done[k].pending == [] && Over(done[k].now, Subformulas(top)) {
      assert WellFormed(done[k], Subformulas(top));
    }
  }

  lemma BuildCovers(top: Formula, w: Word)
    requires Build(top).Some?
    ensures Continues(Build(top).value, 0, w)
    ensures Holds(w, 0, top) ==> Covered([Start], Build(top).value, w, 0)
  {
    InitialWellFormed(top);
    ExpandCovers(InitialNode(top), [], Subformulas(top), w);
    if Holds(w, 0, top) {
      assert Agrees(InitialNode(top), w, 0);
    }
  }

  // ----- languages -----

  ghost predicate RunsOn(done: seq<Node>, r: Run, w: Word) {
    IsRun(done, r) && Labels(done, r, w)
  }

  /** Acceptance by the single set of accepting nodes. */
  ghost predicate Accepts(done: seq<Node>, top: Formula, w: Word) {
    exists r: Run :: RunsOn(done, r, w) && AcceptingRecurs(done, r, top)
  }

  /** Acceptance by one recurrence condition for each until. */
  ghost predicate AcceptsEach(done: seq<Node>, top: Formula, w: Word) {
    exists r: Run :: RunsOn(done, r, w) && EachUntilRecurs(done, r, top)
  }

  lemma LabelledRunSatisfies(top: Formula, r: Run, w: Word)
    requires Build(top).Some?
    requires RunsOn(Build(top).value, r, w) && EachUntilRecurs(Build(top).value, r, top)
    ensures Holds(w, 0, top)
  {
    var done := Build(top).value;
    BuildIsTableau(top);
    assert NodeInvariant(done[r(0)], done, top);
    assert Arrives(Start, done[r(0)], done, top);
    NowHolds(done, top, r, w, top, 0);
  }

  /** Soundness: an accepted word satisfies the formula. */
  lemma AcceptedSatisfies(top: Formula, w: Word)
    requires Build(top).Some? && Accepts(Build(top).value, top, w)
    ensures Holds(w, 0, top)
  {
    var done := Build(top).value;
    var r: Run :| RunsOn(done, r, w) && AcceptingRecurs(done, r, top);
    AcceptingImpliesEach(done, r, top);
    LabelledRunSatisfies(top, r, w);
  }

  lemma WitnessAccepts(top: Formula, w: Word) returns (r: Run)
    requires Build(top).Some? && Holds(w, 0, top)
    ensures RunsOn(Build(top).value, r, w) && EachUntilRecurs(Build(top).value, r, top)
  {
    var done := Build(top).value;
    BuildIsTableau(top);
    BuildCovers(top, w);
    r := WitnessRun(done, w);
    WitnessIsRun(done, w);
    WitnessLabels(done, w);
    WitnessFulfills(done, w, top);
  }

  /** With one recurrence condition for each until the automaton accepts exactly the words that
      satisfy the formula, whatever the formula. */
  lemma LanguagePerUntil(top: Formula, w: Word)
    requires Build(top).Some?
    ensures AcceptsEach(Build(top).value, top, w) <==> Holds(w, 0, top)
  {
    var done := Build(top).value;
    if AcceptsEach(done, top, w) {
      var r: Run :| RunsOn(done, r, w) && EachUntilRecurs(done, r, top);
      LabelledRunSatisfies(top, r, w);
    }
    if Holds(w, 0, top) {
      var r := WitnessAccepts(top, w);
    }
  }

  // ----- two untils are too many -----

  function Eventually(f: Formula): Formula {
    Binary(Until, BoolValue(true), f)
  }

  function Always(f: Formula): Formula {
    Binary(Release, BoolValue(false), f)
  }

  /** Infinitely often p and infinitely often q, as normalised. */
  function BothRecur(p: Formula, q: Formula): Formula {
    Binary(PathAnd, Always(Eventually(p)), Always(Eventually(q)))
  }

  /** p holds exactly in the even positions and q in the odd ones. */
  ghost predicate Alternates(w: Word, p: Formula, q: Formula) {
    forall i: nat :: (Holds(w, i, p) <==> i % 2 == 0) && (Holds(w, i, q) <==> i % 2 == 1)
  }

  lemma EventuallyAlternates(w: Word, p: Formula, q: Formula, i: nat)
    requires Alternates(w, p, q)
    ensures Holds(w, i, Eventually(p)) && Holds(w, i, Eventually(q))
  {
    var tt := Positions(w, BoolValue(true));
    var even, odd := i + i % 2, i + (i + 1) % 2;
    assert Holds(w, even, p) && Holds(w, odd, q);
    forall j: nat ensures tt(j) {
      assert Value(BoolValue(true), w(j)) == 1;
    }
    assert UntilFrom(i, tt, Positions(w, p));
    assert UntilFrom(i, tt, Positions(w, q));
  }

  lemma AlternatingSatisfies(w: Word, p: Formula, q: Formula)
    requires Alternates(w, p, q)
    ensures Holds(w, 0, BothRecur(p, q))
  {
    var e, f := Positions(w, Eventually(p)), Positions(w, Eventually(q));
    forall i: nat ensures e(i) && f(i) {
      EventuallyAlternates(w, p, q, i);
      assert Holds(w, i, Eventually(p)) && Holds(w, i, Eventually(q));
    }
    var ff := Positions(w, BoolValue(false));
    assert ReleaseFrom(0, ff, e) && ReleaseFrom(0, ff, f);
    assert Holds(w, 0, Always(Eventually(p))) && Holds(w, 0, Always(Eventually(q)));
  }

  lemma TemporalDecomposable(op: BinaryOp, a: Formula, b: Formula)
    requires IsTemporal(op) && Decomposable(a) && Decomposable(b)
    ensures Decomposable(Binary(op, a, b))
  {
  }

  lemma BothRecurFacts(p: Formula, q: Formula)
    requires IsProposition(p) && IsProposition(q)
    ensures Decomposable(BothRecur(p, q))
    ensures Untils(p) == Untils(q) == [] ==> Untils(BothRecur(p, q)) == [Eventually(p), Eventually(q)]
  {
    var a, b := Eventually(p), Eventually(q);
    var tt, ff := BoolValue(true), BoolValue(false);
    TemporalDecomposable(Until, tt, p);
    TemporalDecomposable(Until, tt, q);
    TemporalDecomposable(Release, ff, a);
    TemporalDecomposable(Release, ff, b);
    TemporalDecomposable(PathAnd, Always(a), Always(b));
    assert Untils(p) == [] ==> Untils(a) == [a];
    assert Untils(q) == [] ==> Untils(b) == [b];
    assert Untils(Always(a)) == Untils(a) && Untils(Always(b)) == Untils(b);
  }

  /** An always formula is listed, with its body, in every node of a run from where it is listed. */
  lemma {:induction false} AlwaysStays(done: seq<Node>, top: Formula, r: Run, f: Formula, i: nat)
    requires IsTableau(done, top) && IsRun(done, r)
    requires f.Binary? && f.bop == Release && f.left == BoolValue(false)
    requires f in Visit(done, r, 0).now
    ensures f in Visit(done, r, i).now && f.right in Visit(done, r, i).now
  {
    if i > 0 {
      AlwaysStays(done, top, r, f, i - 1);
      VisitDecomposed(done, top, r, i - 1, f);
      if f.left in Visit(done, r, i - 1).now {
        VisitDecomposed(done, top, r, i - 1, f.left);
      }
      FollowsNext(done, top, r, i - 1, f);
    }
    VisitDecomposed(done, top, r, i, f);
  }

  lemma OpenOnAlternating(done: seq<Node>, r: Run, w: Word, p: Formula, q: Formula, i: nat)
    requires IsProposition(p) && IsProposition(q) && Alternates(w, p, q)
    requires IsTableau(done, BothRecur(p, q)) && RunsOn(done, r, w)
    ensures !IsAccepting(Visit(done, r, i), BothRecur(p, q))
  {
    var top := BothRecur(p, q);
    assert NodeInvariant(done[r(0)], done, top);
    assert Arrives(Start, done[r(0)], done, top);
    VisitDecomposed(done, top, r, 0, top);
    AlwaysStays(done, top, r, Always(Eventually(p)), i);
    AlwaysStays(done, top, r, Always(Eventually(q)), i);
    UntilsCollectsAll(top, Eventually(p));
    UntilsCollectsAll(top, Eventually(q));
    var n := Visit(done, r, i);
    if IsAccepting(n, top) {
      assert Fulfilled(n, Eventually(p)) && Fulfilled(n, Eventually(q));
      PropositionsMembers(n.now, p);
      PropositionsMembers(n.now, q);
    }
  }

  /** The accept set misses a word: "infinitely often p and infinitely often q" has two untils,
      and a word on which p and q alternate satisfies it and is not accepted. */
  lemma TwoUntilsMissAWord(p: Formula, q: Formula, w: Word)
    requires IsProposition(p) && IsProposition(q) && Alternates(w, p, q)
    ensures Build(BothRecur(p, q)).Some? && Holds(w, 0, BothRecur(p, q))
    ensures !Accepts(Build(BothRecur(p, q)).value, BothRecur(p, q), w)
  {
    var top := BothRecur(p, q);
    BothRecurFacts(p, q);
    BuildSucceeds(top);
    BuildIsTableau(top);
    AlternatingSatisfies(w, p, q);
    var done := Build(top).value;
    if r: Run :| RunsOn(done, r, w) && AcceptingRecurs(done, r, top) {
      assert AcceptingAfter(done, r, top, 0);
      var j: nat :| IsAccepting(Visit(done, r, j), top);
      OpenOnAlternating(done, r, w, p, q, j);
    }
  }

  lemma ParityAlternates(w: Word, x: string, i: nat)
    requires w(i)(x) == i % 2
    ensures Holds(w, i, Negate(Id(x))) <==> i % 2 == 0
    ensures Holds(w, i, Id(x)) <==> i % 2 == 1
  {
    assert Value(Id(x), w(i)) == i % 2;
    PropositionMeaning(w, i, Id(x));
  }

  lemma AlternatingWord() returns (w: Word, p: Formula, q: Formula)
    ensures IsProposition(p) && IsProposition(q) && Alternates(w, p, q)
    ensures Untils(BothRecur(p, q)) == [Eventually(p), Eventually(q)]
    ensures Decomposable(BothRecur(p, q))
  {
    var x := "x";
    w := (i: nat) => (y: string) => i % 2;
    q := Id(x);
    p := Negate(q);
    forall i: nat ensures (Holds(w, i, p) <==> i % 2 == 0) && (Holds(w, i, q) <==> i % 2 == 1) {
      ParityAlternates(w, x, i);
    }
    assert IsProposition(q) && Untils(q) == [] && Untils(p) == [];
    BothRecurFacts(p, q);
  }
}
