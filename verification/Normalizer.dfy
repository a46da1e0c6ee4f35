/** The rewriting of formulas to basic operators (src/ltl/normalizer.c): as a function on trees
    with its meaning, and in place on linked tokens. */
module Normalizer {
  import opened Wrappers
  import opened Formulas
  import opened Tokens

  function Normalize(f: Formula): Formula {
    match f
    case Bracket(a) => Normalize(a)
    case Unary(Globally, a) => Binary(Release, BoolValue(false), Normalize(a))
    case Unary(Future, a) => Binary(Until, BoolValue(true), Normalize(a))
    case Unary(op, a) => Unary(op, Normalize(a))
    case Binary(op, a, b) => Binary(op, Normalize(a), Normalize(b))
    case _ => f
  }

  /** No bracket, no always and no eventually. */
  predicate Basic(f: Formula) {
    match f
    case Bracket(_) => false
    case Unary(op, a) => op != Globally && op != Future && Basic(a)
    case Binary(_, a, b) => Basic(a) && Basic(b)
    case _ => true
  }

  lemma {:induction false} NormalizeIsBasic(f: Formula)
    ensures Basic(Normalize(f))
    ensures Basic(f) ==> Normalize(f) == f
  {
    match f {
      case Bracket(a) => NormalizeIsBasic(a);
      case Unary(_, a) => NormalizeIsBasic(a);
      case Binary(_, a, b) => NormalizeIsBasic(a); NormalizeIsBasic(b);
      case _ =>
    }
  }

  lemma {:induction false} NormalizeValue(f: Formula, s: State)
    ensures Value(Normalize(f), s) == Value(f, s)
  {
    match f {
      case Bracket(a) => NormalizeValue(a, s);
      case Unary(_, a) => NormalizeValue(a, s);
      case Binary(_, a, b) => NormalizeValue(a, s); NormalizeValue(b, s);
      case _ =>
    }
  }

  lemma ConstantPositions(w: Word, b: bool)
    ensures forall i: nat :: Positions(w, BoolValue(b))(i) == b
  {
    forall i: nat ensures Positions(w, BoolValue(b))(i) == b {
      assert Value(BoolValue(b), w(i)) == AsInt(b);
    }
  }

  lemma OperatorPositions(w: Word, f: Formula, i: nat)
    requires f.Unary? || f.Binary?
    requires f.Unary? ==> forall k: nat :: Holds(w, k, Normalize(f.arg)) == Holds(w, k, f.arg)
    requires f.Binary? ==> forall k: nat :: Holds(w, k, Normalize(f.left)) == Holds(w, k, f.left)
                                         && Holds(w, k, Normalize(f.right)) == Holds(w, k, f.right)
    ensures Holds(w, i, Normalize(f)) == Holds(w, i, f)
  {
    if f.Unary? {
      var p, p' := Positions(w, f.arg), Positions(w, Normalize(f.arg));
      assert forall k: nat :: p(k) == p'(k) by {
        forall k: nat ensures p(k) == p'(k) { assert Holds(w, k, Normalize(f.arg)) == Holds(w, k, f.arg); }
      }
      if f.uop == Globally {
        ConstantPositions(w, false);
        var ff := Positions(w, BoolValue(false));
        assert Holds(w, i, Normalize(f)) == ReleaseFrom(i, ff, p');
        assert Holds(w, i, f) == forall k: nat | i <= k :: p(k);
      } else if f.uop == Future {
        ConstantPositions(w, true);
        var tt := Positions(w, BoolValue(true));
        assert Holds(w, i, Normalize(f)) == UntilFrom(i, tt, p');
        assert Holds(w, i, f) == exists k: nat :: i <= k && p(k);
      }
    } else {
      var p, p' := Positions(w, f.left), Positions(w, Normalize(f.left));
      var q, q' := Positions(w, f.right), Positions(w, Normalize(f.right));
      forall k: nat ensures p(k) == p'(k) && q(k) == q'(k) {
        assert Holds(w, k, Normalize(f.left)) == Holds(w, k, f.left);
        assert Holds(w, k, Normalize(f.right)) == Holds(w, k, f.right);
      }
      NormalizeValue(f, w(i));
      if f.bop == Until {
        assert UntilFrom(i, p, q) == UntilFrom(i, p', q');
      } else if f.bop == Release {
        assert ReleaseFrom(i, p, q) == ReleaseFrom(i, p', q');
      }
    }
  }

  /** Normalisation preserves the meaning of every formula on every infinite word. */
  lemma {:induction false} NormalizeMeaning(w: Word, i: nat, f: Formula)
    ensures Holds(w, i, Normalize(f)) == Holds(w, i, f)
    decreases f
  {
    match f {
      case Bracket(a) => NormalizeMeaning(w, i, a);
      case Unary(_, a) =>
        forall k: nat ensures Holds(w, k, Normalize(a)) == Holds(w, k, a) { NormalizeMeaning(w, k, a); }
        OperatorPositions(w, f, i);
      case Binary(_, a, b) =>
        forall k: nat ensures Holds(w, k, Normalize(a)) == Holds(w, k, a) { NormalizeMeaning(w, k, a); }
        forall k: nat ensures Holds(w, k, Normalize(b)) == Holds(w, k, b) { NormalizeMeaning(w, k, b); }
        OperatorPositions(w, f, i);
      case _ =>
    }
  }

  /** The formulas, as written, that the tableau can handle once they are normalised. */
  predicate Supported(f: Formula) {
    IsProposition(f) ||
    match f
    case Bracket(a) => Supported(a)
    case Unary(op, a) => op != Not && Supported(a)
    case Binary(op, a, b) => IsTemporal(op) && Supported(a) && Supported(b)
    case _ => false
  }

  lemma {:induction false} NormalizeProposition(f: Formula)
    ensures IsProposition(Normalize(f)) <==> IsProposition(f)
  {
    match f {
      case Bracket(a) => NormalizeProposition(a);
      case Unary(_, a) => NormalizeProposition(a);
      case Binary(_, a, b) => NormalizeProposition(a); NormalizeProposition(b);
      case _ =>
    }
  }

  /** Exactly the supported formulas are decomposable after normalisation. */
  lemma {:induction false} SupportedExactly(f: Formula)
    ensures Decomposable(Normalize(f)) <==> Supported(f)
  {
    NormalizeProposition(f);
    match f {
      case Bracket(a) => SupportedExactly(a);
      case Unary(op, a) => SupportedExactly(a);
      case Binary(_, a, b) => SupportedExactly(a); SupportedExactly(b);
      case _ =>
    }
  }

  // ----- on linked tokens -----

  /** Absorbs the tokens that replace an always or an eventually. */
  ghost function Weight(f: Formula): nat {
    match f
    case Unary(op, a) => (if op == Globally || op == Future then 3 else 1) + Weight(a)
    case Bracket(a) => 1 + Weight(a)
    case Binary(_, a, b) => 1 + Weight(a) + Weight(b)
    case _ => 1
  }

  /** rewrite_to_basic_ops: rewrites a token in place, or returns the token that replaces it.
      No freed token is reachable from the result and all other tokens are kept. */
  method Rewrite(t: Token) returns (r: Token, ghost freed: set<Token>)
    requires t.Valid()
    modifies t.Repr
    ensures r.Valid() && r.ParentsRight()
    ensures r.tree == Normalize(old(t.tree))
    ensures fresh(r.Repr - old(t.Repr))
    ensures r.Repr !! freed && old(t.Repr) <= r.Repr + freed && fresh(freed - old(t.Repr))
    decreases Weight(t.tree), 1
  {
    if t.kind == BracketToken {
      ghost var below := t.arg.Repr;
      r, freed := Rewrite(t.arg);
      assert old(t.Repr) == {t} + below && t !in r.Repr;
      freed := freed + {t};
    } else if t.kind == UnaryToken(Globally) || t.kind == UnaryToken(Future) {
      r, freed := RewriteShorthand(t);
    } else {
      r, freed := t, {};
      if t.kind.BinaryToken? {
        freed := RewriteOperands(t);
      } else if t.kind.UnaryToken? {
        freed := RewriteArgument(t);
      }
    }
  }

  /** An always becomes a release of ff, an eventually an until of tt. */
  method RewriteShorthand(t: Token) returns (r: Token, ghost freed: set<Token>)
    requires t.Valid() && (t.kind == UnaryToken(Globally) || t.kind == UnaryToken(Future))
    modifies t.Repr
    ensures r.Valid() && r.ParentsRight()
    ensures r.tree == Normalize(old(t.tree))
    ensures fresh(r.Repr - old(t.Repr))
    ensures r.Repr !! freed && old(t.Repr) <= r.Repr + freed && fresh(freed - old(t.Repr))
    decreases Weight(t.tree), 0
  {
    var op := if t.kind == UnaryToken(Globally) then Release else Until;
    ghost var below := t.arg.Repr;
    var replacement := new Token.MakeShorthand(t.parent, op, t.kind == UnaryToken(Future), t.arg);
    assert Weight(t.tree) == 3 + Weight(t.arg.tree);
    assert Weight(replacement.tree) == 2 + Weight(t.arg.tree);
    r, freed := Rewrite(replacement);
    assert old(t.Repr) == {t} + below && t !in r.Repr;
    freed := freed + {t};
  }

  method RewriteArgument(t: Token) returns (ghost freed: set<Token>)
    requires t.Valid() && t.kind.UnaryToken? && t.kind.uop != Globally && t.kind.uop != Future
    modifies t.Repr
    ensures t.Valid() && t.ParentsRight()
    ensures t.tree == Normalize(old(t.tree))
    ensures fresh(t.Repr - old(t.Repr))
    ensures t.Repr !! freed && old(t.Repr) <= t.Repr + freed && fresh(freed - old(t.Repr))
    decreases Weight(t.tree), 0
  {
    var a;
    a, freed := Rewrite(t.arg);
    a.SetParent(t);
    t.arg := a;
    t.tree, t.Repr := Unary(t.kind.uop, a.tree), {t} + a.Repr;
  }

  method RewriteOperands(t: Token) returns (ghost freed: set<Token>)
    requires t.Valid() && t.kind.BinaryToken?
    modifies t.Repr
    ensures t.Valid() && t.ParentsRight()
    ensures t.tree == Normalize(old(t.tree))
    ensures fresh(t.Repr - old(t.Repr))
    ensures t.Repr !! freed && old(t.Repr) <= t.Repr + freed && fresh(freed - old(t.Repr))
    decreases Weight(t.tree), 0
  {
    ghost var below := t.left.Repr + t.right.Repr;
    var l, r;
    l, r, freed := RewritePair(t.left, t.right);
    assert old(t.Repr) == {t} + below && t !in l.Repr && t !in r.Repr && t !in freed;
    l.SetParent(t);
    r.SetParent(t);
    t.LinkOperands(l, r);
  }

  method RewritePair(left: Token, right: Token) returns (l: Token, r: Token, ghost freed: set<Token>)
    requires left.Valid() && right.Valid() && left.Repr !! right.Repr
    modifies left.Repr, right.Repr
    ensures l.Valid() && l.ParentsRight() && r.Valid() && r.ParentsRight() && l.Repr !! r.Repr
    ensures l.tree == Normalize(old(left.tree)) && r.tree == Normalize(old(right.tree))
    ensures fresh(l.Repr + r.Repr + freed - old(left.Repr + right.Repr))
    ensures l.Repr + r.Repr !! freed && old(left.Repr + right.Repr) <= l.Repr + r.Repr + freed
    decreases Weight(left.tree) + Weight(right.tree), 2
  {
    ghost var rightRepr := right.Repr;
    ghost var freedLeft, freedRight;
    l, freedLeft := Rewrite(left);
    assert right.Valid() && right.Repr == rightRepr;
    label AfterLeft:
    r, freedRight := Rewrite(right);
    assert fresh@AfterLeft(r.Repr - rightRepr) && fresh@AfterLeft(freedRight - rightRepr);
    freed := freedLeft + freedRight;
  }
}
