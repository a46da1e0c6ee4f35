/** The tableau construction (src/ltl/ltl-converter.c, expand_node) as a function on values.

    A node's lists `old`, `new` and `next` are called now, pending and next.  A node that has
    been added to the list of completed nodes is identified by its index there. */
module Tableau {
  import opened Wrappers
  import opened Formulas

  datatype NodeRef = Start | At(index: nat)

  datatype Node = Node(incoming: seq<NodeRef>, now: seq<Formula>, pending: seq<Formula>, next: seq<Formula>)

  predicate SameContents(m: Node, n: Node) {
    multiset(m.now) == multiset(n.now) && multiset(m.next) == multiset(n.next)
  }

  /** The first completed node with the contents of n. */
  function FindSame(done: seq<Node>, n: Node): (r: Option<nat>)
    ensures r.Some? ==> r.value < |done| && SameContents(done[r.value], n)
    ensures r.None? ==> forall k | 0 <= k < |done| :: !SameContents(done[k], n)
  {
    if done == [] then None
    else if SameContents(done[0], n) then Some(0)
    else match FindSame(done[1..], n)
         case Some(k) =>
           assert done[1..][k] == done[k + 1];
           Some(k + 1)
         case None =>
           assert forall k | 1 <= k < |done| :: done[k] == done[1..][k - 1];
           None
  }

  /** Moves the first pending formula to now and adds to pending and next. */
  function Advance(n: Node, pending: seq<Formula>, next: seq<Formula>): Node
    requires n.pending != []
  {
    Node(n.incoming, n.now + [n.pending[0]], n.pending[1..] + pending, n.next + next)
  }

  /** One round on the first pending formula: the nodes that replace n, in the order in which
      they are expanded; None is the fatal error for a formula that cannot be decomposed. */
  function Alternatives(n: Node): Option<seq<Node>>
    requires n.pending != []
  {
    var t := n.pending[0];
    if t in n.now then Some([n.(pending := n.pending[1..])])
    else if IsProposition(t) then
      if IsFalse(t) || Negate(t) in n.now then Some([]) else Some([Advance(n, [], [])])
    else match t
      case Binary(Until, a, b) => Some([Advance(n, [a], [t]), Advance(n, [b], [])])
      case Binary(Release, a, b) => Some([Advance(n, [b], [t]), Advance(n, [b, a], [])])
      case Binary(PathOr, a, b) => Some([Advance(n, [a], []), Advance(n, [b], [])])
      case Binary(PathAnd, a, b) => Some([Advance(n, [a, b], [])])
      case Unary(NextTime, a) => Some([Advance(n, [], [a])])
      case _ => None
  }

  // ----- what every node of an expansion satisfies, and the measure that ends it -----

  predicate Over(s: seq<Formula>, u: set<Formula>) {
    forall f | f in s :: f in u
  }

  predicate WellFormed(n: Node, u: set<Formula>) {
    && Over(n.now, u) && Over(n.pending, u) && Over(n.next, u)
    && NoDuplicates(n.now)
    && |n.next| <= |n.now|
  }

  predicate WellFormedDone(done: seq<Node>, u: set<Formula>) {
    && (forall k | 0 <= k < |done| :: WellFormed(done[k], u) && done[k].pending == [])
    && (forall j, k | 0 <= j < k < |done| :: !SameContents(done[j], done[k]))
  }

  /** A list of completed nodes only grows: nodes are appended and incoming edges are added. */
  predicate Extends(done: seq<Node>, more: seq<Node>) {
    && |done| <= |more|
    && forall k | 0 <= k < |done| ::
         && done[k].incoming <= more[k].incoming
         && more[k] == done[k].(incoming := more[k].incoming)
  }

  lemma ExtendsTransitive(a: seq<Node>, b: seq<Node>, c: seq<Node>)
    requires Extends(a, b) && Extends(b, c)
    ensures Extends(a, c)
  {
    forall k | 0 <= k < |a| ensures a[k].incoming <= c[k].incoming && c[k] == a[k].(incoming := c[k].incoming) {
      assert b[k] == a[k].(incoming := b[k].incoming);
    }
  }

  ghost function Elements<T>(s: seq<T>): set<T> {
    set x | x in s
  }

  lemma {:induction false} NoDuplicatesCardinality<T>(s: seq<T>)
    requires NoDuplicates(s)
    ensures |Elements(s)| == |s|
  {
    if s != [] {
      var rest := s[..|s| - 1];
      NoDuplicatesCardinality(rest);
      assert s == rest + [s[|s| - 1]] && s[|s| - 1] !in rest;
      assert Elements(s) == Elements(rest) + {s[|s| - 1]};
    }
  }

  lemma SubsetCardinality<T>(a: set<T>, b: set<T>)
    requires a <= b
    ensures |a| <= |b|
  {
    assert b == a + (b - a);
    assert |b| == |a| + |b - a|;
  }

  lemma NoDuplicatesBounded<T>(s: seq<T>, u: set<T>)
    requires NoDuplicates(s) && forall x | x in s :: x in u
    ensures |s| <= |u|
  {
    NoDuplicatesCardinality(s);
    SubsetCardinality(Elements(s), u);
  }

  /** All sequences over u of at most n elements. */
  ghost function Sequences(u: set<Formula>, n: nat): set<seq<Formula>> {
    if n == 0 then {[]}
    else
      var shorter := Sequences(u, n - 1);
      shorter + set x, y | x in u && y in shorter :: [x] + y
  }

  lemma {:induction false} SequencesComplete(s: seq<Formula>, u: set<Formula>, n: nat)
    requires Over(s, u) && |s| <= n
    ensures s in Sequences(u, n)
  {
    if s == [] {
      if n > 0 { SequencesComplete(s, u, n - 1); }
    } else {
      SequencesComplete(s[1..], u, n - 1);
      assert s == [s[0]] + s[1..];
    }
  }

  ghost function Shapes(u: set<Formula>): set<(seq<Formula>, seq<Formula>)> {
    var all := Sequences(u, |u|);
    set a, b | a in all && b in all :: (a, b)
  }

  ghost function ShapesOf(done: seq<Node>): seq<(seq<Formula>, seq<Formula>)> {
    seq(|done|, k requires 0 <= k < |done| => (done[k].now, done[k].next))
  }

  /** Only finitely many nodes can be completed: their contents are pairwise different. */
  lemma DoneIsBounded(done: seq<Node>, u: set<Formula>)
    requires WellFormedDone(done, u)
    ensures |done| <= |Shapes(u)|
  {
    var shapes := ShapesOf(done);
    forall j, k | 0 <= j < k < |shapes| ensures shapes[j] != shapes[k] {
      assert !SameContents(done[j], done[k]);
    }
    forall k | 0 <= k < |shapes| ensures shapes[k] in Shapes(u) {
      assert WellFormed(done[k], u);
      NoDuplicatesBounded(done[k].now, u);
      SequencesComplete(done[k].now, u, |u|);
      SequencesComplete(done[k].next, u, |u|);
    }
    NoDuplicatesBounded(shapes, Shapes(u));
  }

  /** The node that follows the k-th completed node in time, before it is expanded. */
  function Successor(n: Node, k: nat): Node {
    Node([At(k)], [], n.next, [])
  }

  lemma AlternativesWellFormed(n: Node, u: set<Formula>)
    requires Closed(u) && WellFormed(n, u) && n.pending != []
    ensures |n.now| <= |u|
    ensures Alternatives(n).Some? ==> |Alternatives(n).value| <= 2
    ensures Alternatives(n).Some? ==>
              forall a | a in Alternatives(n).value ::
                && WellFormed(a, u)
                && |u| - |a.now| >= 0
                && (|a.now| > |n.now| || (a.now == n.now && |a.pending| < |n.pending|))
  {
    NoDuplicatesBounded(n.now, u);
    var t := n.pending[0];
    assert t in u;
    if Alternatives(n).Some? {
      forall a | a in Alternatives(n).value
        ensures WellFormed(a, u) && |a.now| <= |u|
        ensures |a.now| > |n.now| || (a.now == n.now && |a.pending| < |n.pending|)
      {
        NoDuplicatesBounded(a.now, u);
      }
    }
  }

  /** Expands a node completely; the result is the new list of completed nodes. */
  ghost function Expand(n: Node, done: seq<Node>, u: set<Formula>): (r: Option<seq<Node>>)
    requires Closed(u) && WellFormed(n, u) && WellFormedDone(done, u)
    ensures r.Some? ==> WellFormedDone(r.value, u) && Extends(done, r.value)
    decreases |Shapes(u)| - |done|, |u| - |n.now|, |n.pending|
  {
    DoneIsBounded(done, u);
    if n.pending == [] then
      match FindSame(done, n)
      case Some(k) => Some(done[k := done[k].(incoming := done[k].incoming + n.incoming)])
      case None =>
        DoneIsBounded(done + [n], u);
        var r := Expand(Successor(n, |done|), done + [n], u);
        assert r.Some? ==> Extends(done, r.value) by {
          if r.Some? { ExtendsTransitive(done, done + [n], r.value); }
        }
        r
    else
      AlternativesWellFormed(n, u);
      match Alternatives(n)
      case None => None
      case Some(alts) =>
        if alts == [] then Some(done)
        else
          var first := Expand(alts[0], done, u);
          if |alts| == 1 || first.None? then first
          else
            DoneIsBounded(first.value, u);
            var second := Expand(alts[1], first.value, u);
            assert second.Some? ==> Extends(done, second.value) by {
              if second.Some? { ExtendsTransitive(done, first.value, second.value); }
            }
            second
  }
}
