/** Only what stands inside a release is promised for ever: on the run that keeps a word, every other until is
    listed finitely often.  So the single accept set gives the language of the formula when at most one until
    stands inside a release. */
module Settling {
  import opened Formulas
  import opened Tableau
  import opened Soundness
  import opened Completeness
  import opened Language
  import opened Descent

  /** The releases of a formula and everything inside them. */
  function ReleaseScope(f: Formula): set<Formula> {
    match f
    case Unary(_, a) => ReleaseScope(a)
    case Bracket(a) => ReleaseScope(a)
    case Binary(op, a, b) => if op == Release then Subformulas(f) else ReleaseScope(a) + ReleaseScope(b)
    case _ => {}
  }

  lemma {:induction false} ScopeClosed(top: Formula, g: Formula, h: Formula)
    requires g in ReleaseScope(top) && h in Subformulas(g)
    ensures h in ReleaseScope(top)
  {
    match top
    case Unary(_, a) => ScopeClosed(a, g, h);
    case Bracket(a) => ScopeClosed(a, g, h);
    case Binary(op, a, b) =>
      if op == Release { SubformulasTransitive(top, g, h); }
      else if g in ReleaseScope(a) { ScopeClosed(a, g, h); }
      else { ScopeClosed(b, g, h); }
  }

  lemma {:induction false} ReleaseInScope(top: Formula, g: Formula)
    requires g in Subformulas(top) && g.Binary? && g.bop == Release
    ensures g in ReleaseScope(top)
  {
    if g != top {
      match top
      case Unary(_, a) => ReleaseInScope(a, g);
      case Bracket(a) => ReleaseInScope(a, g);
      case Binary(op, a, b) =>
        if op != Release { if g in Subformulas(a) { ReleaseInScope(a, g); } else { ReleaseInScope(b, g); } }
    }
  }

  function Size(f: Formula): nat {
    match f
    case Unary(_, a) => 1 + Size(a)
    case Bracket(a) => 1 + Size(a)
    case Binary(_, a, b) => 1 + Size(a) + Size(b)
    case _ => 1
  }

  lemma {:induction false} PartIsSmaller(g: Formula, h: Formula)
    requires h in Subformulas(g)
    ensures h == g || Size(h) < Size(g)
  {
    if h != g {
      match g
      case Unary(_, a) => PartIsSmaller(a, h);
      case Bracket(a) => PartIsSmaller(a, h);
      case Binary(_, a, b) => if h in Subformulas(a) { PartIsSmaller(a, h); } else { PartIsSmaller(b, h); }
    }
  }

  /** A run of a tableau that keeps the word: at every position the word agrees with the node. */
  ghost predicate Keeps(done: seq<Node>, top: Formula, r: Run, w: Word) {
    && AllDescend(done, top) && IsRun(done, r)
    && (forall k | 0 <= k < |done| :: Over(done[k].next, Subformulas(top)))
    && forall i: nat :: Visitable(done, w, i, r(i))
  }

  /** From position t on, promises outside the scope of releases have at most this size. */
  ghost predicate Bounded(done: seq<Node>, top: Formula, r: Run, m: nat, t: nat) {
    forall i: nat, g | t <= i && g in Visit(done, r, i).next && g !in ReleaseScope(top) :: Size(g) <= m
  }

  /** From position t on, g is not promised. */
  ghost predicate Gone(done: seq<Node>, r: Run, g: Formula, t: nat) {
    forall i: nat | t <= i :: g !in Visit(done, r, i).next
  }

  /** A listed formula outside the scope is smaller than the bound or was itself promised. */
  lemma ListedIsBounded(done: seq<Node>, top: Formula, r: Run, w: Word, m: nat, t: nat, i: nat, f: Formula)
    requires Keeps(done, top, r, w) && Bounded(done, top, r, m, t) && t <= i
    requires f in Visit(done, r, i + 1).now && f !in ReleaseScope(top)
    ensures Size(f) < m || (Size(f) == m && f in Visit(done, r, i).next)
  {
    var g := ListedWasPromised(done, top, r, i, f);
    assert g in Visit(done, r, i).next;
    if g in ReleaseScope(top) { ScopeClosed(top, g, f); }
    PartIsSmaller(g, f);
  }

  /** So no next announces a promise of the greatest size. */
  lemma NotAnnounced(done: seq<Node>, top: Formula, r: Run, w: Word, m: nat, t: nat, i: nat, f: Formula)
    requires Keeps(done, top, r, w) && Bounded(done, top, r, m, t) && t <= i
    requires Size(f) == m && f !in ReleaseScope(top)
    ensures Unary(NextTime, f) !in Visit(done, r, i + 1).now
  {
    var x := Unary(NextTime, f);
    if x in Visit(done, r, i + 1).now {
      if x in ReleaseScope(top) { ScopeClosed(top, x, f); }
      ListedIsBounded(done, top, r, w, m, t, i, x);
    }
  }

  /** Such a promise, when it is new at a position, is the one of the position before. */
  lemma StaysGone(done: seq<Node>, top: Formula, r: Run, w: Word, m: nat, t: nat, i: nat, f: Formula)
    requires Keeps(done, top, r, w) && Bounded(done, top, r, m, t) && t <= i
    requires Size(f) == m && f !in ReleaseScope(top) && f in Visit(done, r, i + 1).next
    ensures f in Visit(done, r, i).next && f.Binary? && f.bop == Until
  {
    var n := done[r(i + 1)];
    assert Descends(n, done, top) && Promised(f, n);
    NotAnnounced(done, top, r, w, m, t, i, f);
    assert f in Subformulas(top);
    if f.bop == Release { ReleaseInScope(top, f); }
    ListedIsBounded(done, top, r, w, m, t, i, f);
  }

  /** A promise of f at position i + 1 is one at position i. */
  predicate NotNew(done: seq<Node>, r: Run, f: Formula, i: nat) {
    f in Visit(done, r, i + 1).next ==> f in Visit(done, r, i).next
  }

  ghost predicate NeverNew(done: seq<Node>, r: Run, f: Formula, t: nat) {
    forall i: nat | t <= i :: NotNew(done, r, f, i)
  }

  lemma {:induction false} GoneFrom(done: seq<Node>, r: Run, f: Formula, t: nat, i: nat, j: nat)
    requires NeverNew(done, r, f, t) && t <= i <= j && f !in Visit(done, r, i).next
    ensures f !in Visit(done, r, j).next
    decreases j
  {
    if i < j {
      GoneFrom(done, r, f, t, i, j - 1);
      assert NotNew(done, r, f, j - 1);
    }
  }

  lemma UntilHappens(w: Word, i: nat, f: Formula) returns (j: nat)
    requires f.Binary? && f.bop == Until && Holds(w, i, f)
    ensures i <= j && Holds(w, j, f.right)
  {
    assert UntilFrom(i, Positions(w, f.left), Positions(w, f.right));
    j :| i <= j && Positions(w, f.right)(j);
  }

  /** Where its right side holds, an until of the greatest size is not promised. */
  lemma NotPromised(done: seq<Node>, top: Formula, r: Run, w: Word, m: nat, t: nat, j: nat, f: Formula)
    requires Keeps(done, top, r, w) && Bounded(done, top, r, m, t) && t < j
    requires Size(f) == m && f !in ReleaseScope(top) && f.Binary? && f.bop == Until && Holds(w, j, f.right)
    ensures f !in Visit(done, r, j).next
  {
    assert Visitable(done, w, j, r(j));
    NotAnnounced(done, top, r, w, m, t, j - 1, f);
  }

  /** An until of the greatest size that is still promised is fulfilled, and then it is gone. */
  lemma UntilGone(done: seq<Node>, top: Formula, r: Run, w: Word, m: nat, t: nat, f: Formula) returns (j: nat)
    requires Keeps(done, top, r, w) && Bounded(done, top, r, m, t)
    requires Size(f) == m && f !in ReleaseScope(top) && f.Binary? && f.bop == Until
    ensures Gone(done, r, f, j)
  {
    j := t;
    if f in Visit(done, r, t).next {
      assert Visitable(done, w, t, r(t));
      j := UntilHappens(w, t + 1, f);
      NotPromised(done, top, r, w, m, t, j, f);
    }
    forall i: nat | t <= i ensures NotNew(done, r, f, i) {
      if f in Visit(done, r, i + 1).next { StaysGone(done, top, r, w, m, t, i, f); }
    }
    forall i: nat | j <= i ensures f !in Visit(done, r, i).next { GoneFrom(done, r, f, t, j, i); }
  }

  predicate Greatest(top: Formula, f: Formula, m: nat) {
    Size(f) == m && f !in ReleaseScope(top) && f.Binary? && f.bop == Until
  }

  lemma {:induction false} AllGone(done: seq<Node>, top: Formula, r: Run, w: Word, m: nat, t: nat, us: seq<Formula>)
    returns (j: nat)
    requires Keeps(done, top, r, w) && Bounded(done, top, r, m, t)
    ensures forall f | f in us && Greatest(top, f, m) :: Gone(done, r, f, j)
  {
    j := t;
    if us != [] {
      var k := AllGone(done, top, r, w, m, t, us[1..]);
      var l := 0;
      if Greatest(top, us[0], m) { l := UntilGone(done, top, r, w, m, t, us[0]); }
      j := if k < l then l else k;
      forall f | f in us && Greatest(top, f, m) ensures Gone(done, r, f, j) {
        if f != us[0] { assert f in us[1..]; }
      }
    }
  }

  /** The bound can be lowered. */
  lemma BoundSinks(done: seq<Node>, top: Formula, r: Run, w: Word, m: nat, t: nat) returns (j: nat)
    requires Keeps(done, top, r, w) && Bounded(done, top, r, m + 1, t)
    ensures Bounded(done, top, r, m, j)
  {
    var k := AllGone(done, top, r, w, m + 1, t, Untils(top));
    j := if k < t + 1 then t + 1 else k;
    forall i: nat, g | j <= i && g in Visit(done, r, i).next && g !in ReleaseScope(top) ensures Size(g) <= m {
      if Size(g) == m + 1 {
        StaysGone(done, top, r, w, m + 1, t, i - 1, g);
        UntilsCollectsAll(top, g);
      }
    }
  }

  lemma {:induction false} BoundVanishes(done: seq<Node>, top: Formula, r: Run, w: Word, m: nat, t: nat)
    returns (j: nat)
    requires Keeps(done, top, r, w) && Bounded(done, top, r, m, t)
    ensures Bounded(done, top, r, 0, j)
  {
    j := t;
    if m > 0 {
      var k := BoundSinks(done, top, r, w, m - 1, t);
      j := BoundVanishes(done, top, r, w, m - 1, k);
    }
  }

  lemma FirstBound(done: seq<Node>, top: Formula, r: Run, w: Word)
    requires Keeps(done, top, r, w)
    ensures Bounded(done, top, r, Size(top), 0)
  {
    forall i: nat, g | g in Visit(done, r, i).next ensures Size(g) <= Size(top) {
      assert g in Subformulas(top);
      PartIsSmaller(top, g);
    }
  }

  /** From some position on, every listed formula stands inside a release. */
  lemma OutsideSettles(done: seq<Node>, top: Formula, r: Run, w: Word) returns (j: nat)
    requires Keeps(done, top, r, w)
    ensures forall i: nat, f | j <= i && f in Visit(done, r, i).now :: f in ReleaseScope(top)
  {
    FirstBound(done, top, r, w);
    var k := BoundVanishes(done, top, r, w, Size(top), 0);
    j := k + 1;
    forall i: nat, f | j <= i && f in Visit(done, r, i).now ensures f in ReleaseScope(top) {
      if f !in ReleaseScope(top) { ListedIsBounded(done, top, r, w, 0, k, i - 1, f); }
    }
  }

  // ----- acceptance -----

  /** At most one until stands inside a release. */
  predicate AtMostOneRecurring(top: Formula) {
    forall s, t | s in Untils(top) && t in Untils(top) && s in ReleaseScope(top) && t in ReleaseScope(top) :: s == t
  }

  lemma SettledAccepts(done: seq<Node>, top: Formula, r: Run, w: Word)
    requires Keeps(done, top, r, w) && EachUntilRecurs(done, r, top) && AtMostOneRecurring(top)
    ensures AcceptingRecurs(done, r, top)
  {
    var settled := OutsideSettles(done, top, r, w);
    forall i: nat ensures AcceptingAfter(done, r, top, i) {
      var from := if i < settled then settled else i;
      if u :| u in Untils(top) && u in ReleaseScope(top) {
        assert FulfilledAfter(done, r, u, from);
        var j: nat :| from <= j && Fulfilled(Visit(done, r, j), u);
        forall t | t in Untils(top) ensures Fulfilled(Visit(done, r, j), t) { UntilsCollectsAll(top, t); }
        assert IsAccepting(Visit(done, r, j), top);
      } else {
        forall t | t in Untils(top) ensures Fulfilled(Visit(done, r, from), t) { UntilsCollectsAll(top, t); }
        assert IsAccepting(Visit(done, r, from), top);
      }
    }
  }

  lemma WitnessKeeps(top: Formula, w: Word)
    requires Build(top).Some? && Holds(w, 0, top)
    requires var done := Build(top).value; Continues(done, 0, w) && Covered([Start], done, w, 0)
    ensures Keeps(Build(top).value, top, WitnessRun(Build(top).value, w), w)
  {
    var done := Build(top).value;
    var r := WitnessRun(done, w);
    BuildIsTableau(top);
    BuildDescends(top);
    WitnessIsRun(done, w);
    forall k | 0 <= k < |done| ensures Over(done[k].next, Subformulas(top)) {
      assert WellFormed(done[k], Subformulas(top));
    }
    forall i: nat ensures Visitable(done, w, i, r(i)) { }
  }

  /** With at most one until inside the releases of the formula, whatever stands outside, the single accept set
      gives exactly the language of the formula. */
  lemma LanguageOneRecurring(top: Formula, w: Word)
    requires Build(top).Some? && AtMostOneRecurring(top)
    ensures Accepts(Build(top).value, top, w) <==> Holds(w, 0, top)
  {
    var done := Build(top).value;
    if Accepts(done, top, w) { AcceptedSatisfies(top, w); }
    if Holds(w, 0, top) {
      BuildIsTableau(top);
      BuildCovers(top, w);
      var r := WitnessRun(done, w);
      WitnessKeeps(top, w);
      WitnessLabels(done, w);
      WitnessFulfills(done, w, top);
      SettledAccepts(done, top, r, w);
    }
  }

  // ----- the bound is exact -----

  /** The distinct untils inside releases. */
  function RecurringUntils(top: Formula): set<Formula> {
    set t | t in Untils(top) && t in ReleaseScope(top)
  }

  ghost predicate SameLanguage(top: Formula) {
    Build(top).Some? && forall w: Word :: Accepts(Build(top).value, top, w) <==> Holds(w, 0, top)
  }

  /** The automaton of every decomposable formula with at most k distinct untils inside its releases accepts
      the language of the formula if and only if k is at most one. */
  lemma ExactBoundOnUntils(k: nat)
    ensures (forall top | Decomposable(top) && |RecurringUntils(top)| <= k :: SameLanguage(top)) <==> k <= 1
  {
    if k <= 1 {
      forall top | Decomposable(top) && |RecurringUntils(top)| <= k ensures SameLanguage(top) {
        BuildSucceeds(top);
        forall s, t | s in RecurringUntils(top) && t in RecurringUntils(top) ensures s == t {
          if s != t { SubsetCardinality({s, t}, RecurringUntils(top)); }
        }
        assert AtMostOneRecurring(top) by {
          forall s, t | s in Untils(top) && t in Untils(top) && s in ReleaseScope(top) && t in ReleaseScope(top)
            ensures s == t
          {
            assert s in RecurringUntils(top) && t in RecurringUntils(top);
          }
        }
        forall w: Word ensures Accepts(Build(top).value, top, w) <==> Holds(w, 0, top) {
          LanguageOneRecurring(top, w);
        }
      }
    } else {
      var w, p, q := AlternatingWord();
      var top := BothRecur(p, q);
      TwoUntilsMissAWord(p, q, w);
      assert RecurringUntils(top) <= {Eventually(p), Eventually(q)};
      SubsetCardinality(RecurringUntils(top), {Eventually(p), Eventually(q)});
      assert Decomposable(top) && !SameLanguage(top);
    }
  }
}
