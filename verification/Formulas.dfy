/** Formula trees (src/ltl/ltl-token.c, ltl-token.h), the classification of formulas the
    tableau relies on, and the meaning of a formula on an infinite word of states. */
module Formulas {
  import opened Wrappers

  datatype UnaryOp = Globally | Future | Not | NextTime

  datatype BinaryOp =
    | Until | Release
    | PathAnd | PropAnd | PathOr | PropOr | Implies
    | Equals | SmallerEqual | Smaller | LargerEqual | Larger
    | Plus | Minus

  /** A token with its subtokens.  String literals are not part of the model. */
  datatype Formula =
    | Id(name: string)
    | IntValue(int_: int)
    | BoolValue(bool_: bool)
    | Unary(uop: UnaryOp, arg: Formula)
    | Binary(bop: BinaryOp, left: Formula, right: Formula)
    | Bracket(inner: Formula)

  /** The structural comparison the lists are searched with. */
  predicate SameToken(a: Formula, b: Formula) {
    match (a, b)
    case (Id(x), Id(y)) => x == y
    case (IntValue(x), IntValue(y)) => x == y
    case (BoolValue(x), BoolValue(y)) => x == y
    case (Unary(o, x), Unary(p, y)) => o == p && SameToken(x, y)
    case (Bracket(x), Bracket(y)) => SameToken(x, y)
    case (Binary(o, x0, x1), Binary(p, y0, y1)) => o == p && SameToken(x0, y0) && SameToken(x1, y1)
    case _ => false
  }

  lemma {:induction false} SameTokenIsEquality(a: Formula, b: Formula)
    ensures SameToken(a, b) <==> a == b
  {
    match (a, b) {
      case (Unary(_, x), Unary(_, y)) => SameTokenIsEquality(x, y);
      case (Bracket(x), Bracket(y)) => SameTokenIsEquality(x, y);
      case (Binary(_, x0, x1), Binary(_, y0, y1)) => SameTokenIsEquality(x0, y0); SameTokenIsEquality(x1, y1);
      case _ =>
    }
  }

  predicate IsTemporal(op: BinaryOp) {
    op == Until || op == Release || op == PathAnd || op == PathOr
  }

  predicate IsProposition(f: Formula) {
    match f
    case Unary(op, a) => op == Not && IsProposition(a)
    case Binary(op, a, b) => !IsTemporal(op) && IsProposition(a) && IsProposition(b)
    case Bracket(a) => IsProposition(a)
    case _ => true
  }

  /** Brackets are not looked through: the test for them compares the detail code of the
      token with the constant of another enumeration (src/ltl/ltl-token.c:173, 182). */
  predicate IsTrue(f: Formula) {
    match f
    case Unary(Not, a) => IsFalse(a)
    case BoolValue(b) => b
    case _ => false
  }

  predicate IsFalse(f: Formula) {
    match f
    case Unary(Not, a) => IsTrue(a)
    case BoolValue(b) => !b
    case _ => false
  }

  /** A constant under so many negations. */
  function Negated(k: nat, b: bool): Formula {
    if k == 0 then BoolValue(b) else Unary(Not, Negated(k - 1, b))
  }

  /** An even number of negations keeps a constant, an odd number turns it around. */
  lemma {:induction false} NegatedConstant(k: nat, b: bool)
    ensures IsTrue(Negated(k, b)) <==> b == (k % 2 == 0)
    ensures IsFalse(Negated(k, b)) <==> b != (k % 2 == 0)
  {
    if k > 0 { NegatedConstant(k - 1, b); }
  }

  /** Nothing else counts as a constant. */
  lemma {:induction false} OnlyNegatedConstants(f: Formula)
    requires IsTrue(f) || IsFalse(f)
    ensures exists k: nat, b :: f == Negated(k, b)
  {
    if f.Unary? {
      OnlyNegatedConstants(f.arg);
      var k: nat, b :| f.arg == Negated(k, b);
      assert f == Negated(k + 1, b);
    } else {
      assert f == Negated(0, f.bool_);
    }
  }

  /** Operators on the positions of a word. */
  predicate IsTemporalNode(f: Formula) {
    (f.Unary? && f.uop != Not) || (f.Binary? && IsTemporal(f.bop))
  }

  lemma {:induction false} PropositionParts(f: Formula, g: Formula)
    requires IsProposition(f) && g in Subformulas(f)
    ensures !IsTemporalNode(g)
  {
    if g != f {
      match f
      case Unary(_, a) => PropositionParts(a, g);
      case Bracket(a) => PropositionParts(a, g);
      case Binary(_, a, b) => if g in Subformulas(a) { PropositionParts(a, g); } else { PropositionParts(b, g); }
    }
  }

  lemma {:induction false} TemporalPart(f: Formula) returns (g: Formula)
    requires !IsProposition(f)
    ensures g in Subformulas(f) && IsTemporalNode(g)
  {
    if IsTemporalNode(f) { return f; }
    match f
    case Unary(_, a) => g := TemporalPart(a);
    case Bracket(a) => g := TemporalPart(a);
    case Binary(_, a, b) => if IsProposition(a) { g := TemporalPart(b); } else { g := TemporalPart(a); }
  }

  /** A proposition is a formula without operators on positions. */
  lemma PropositionExactly(f: Formula)
    ensures IsProposition(f) <==> forall g | g in Subformulas(f) :: !IsTemporalNode(g)
  {
    if IsProposition(f) {
      forall g | g in Subformulas(f) ensures !IsTemporalNode(g) { PropositionParts(f, g); }
    } else {
      var g := TemporalPart(f);
    }
  }

  function Negate(f: Formula): Formula {
    Unary(Not, f)
  }

  /** The until subformulas in the order a depth-first descent meets them. */
  function Untils(f: Formula): seq<Formula> {
    match f
    case Unary(_, a) => Untils(a)
    case Bracket(a) => Untils(a)
    case Binary(op, a, b) => (if op == Until then [f] else []) + Untils(a) + Untils(b)
    case _ => []
  }

  function Propositions(fs: seq<Formula>): seq<Formula> {
    if fs == [] then []
    else
      var f := fs[|fs| - 1];
      Propositions(fs[..|fs| - 1]) + if IsProposition(f) then [f] else []
  }

  lemma {:induction false} PropositionsMembers(fs: seq<Formula>, f: Formula)
    ensures f in Propositions(fs) <==> f in fs && IsProposition(f)
  {
    if fs != [] {
      PropositionsMembers(fs[..|fs| - 1], f);
      assert fs == fs[..|fs| - 1] + [fs[|fs| - 1]];
    }
  }

  function Subformulas(f: Formula): (s: set<Formula>)
    ensures f in s
  {
    match f
    case Unary(_, a) => {f} + Subformulas(a)
    case Bracket(a) => {f} + Subformulas(a)
    case Binary(_, a, b) => {f} + Subformulas(a) + Subformulas(b)
    case _ => {f}
  }

  predicate Closed(u: set<Formula>) {
    forall f | f in u ::
      && (f.Unary? ==> f.arg in u)
      && (f.Binary? ==> f.left in u && f.right in u)
      && (f.Bracket? ==> f.inner in u)
  }

  lemma {:induction false} SubformulasClosed(f: Formula)
    ensures Closed(Subformulas(f))
  {
    match f {
      case Unary(_, a) => SubformulasClosed(a);
      case Bracket(a) => SubformulasClosed(a);
      case Binary(_, a, b) => SubformulasClosed(a); SubformulasClosed(b);
      case _ =>
    }
  }

  lemma {:induction false} UntilsCollectsAll(f: Formula, g: Formula)
    ensures g in Untils(f) <==> g in Subformulas(f) && g.Binary? && g.bop == Until
  {
    match f {
      case Unary(_, a) => UntilsCollectsAll(a, g);
      case Bracket(a) => UntilsCollectsAll(a, g);
      case Binary(_, a, b) => UntilsCollectsAll(a, g); UntilsCollectsAll(b, g);
      case _ =>
    }
  }

  /** The formulas the tableau can decompose: path operators above propositions. */
  predicate Decomposable(f: Formula) {
    IsProposition(f) ||
    match f
    case Unary(op, a) => op == NextTime && Decomposable(a)
    case Binary(op, a, b) => IsTemporal(op) && Decomposable(a) && Decomposable(b)
    case _ => false
  }

  lemma {:induction false} DecomposableSubformulas(f: Formula, g: Formula)
    requires Decomposable(f) && g in Subformulas(f)
    ensures Decomposable(g)
  {
    if g != f {
      match f {
        case Unary(_, a) => DecomposableSubformulas(a, g);
        case Bracket(a) => DecomposableSubformulas(a, g);
        case Binary(_, a, b) =>
          if g in Subformulas(a) { DecomposableSubformulas(a, g); } else { DecomposableSubformulas(b, g); }
        case _ =>
      }
    }
  }

  // ----- meaning -----

  /** A state gives every identifier an integer; truth values are 0 and not 0. */
  type State = string -> int
  type Word = nat -> State

  function Value(f: Formula, s: State): int {
    match f
    case Id(x) => s(x)
    case IntValue(n) => n
    case BoolValue(b) => AsInt(b)
    case Bracket(a) => Value(a, s)
    case Unary(op, a) => if op == Not then AsInt(Value(a, s) == 0) else 0
    case Binary(op, a, b) =>
      var x := Value(a, s);
      var y := Value(b, s);
      match op
      case PropAnd => AsInt(x != 0 && y != 0)
      case PropOr => AsInt(x != 0 || y != 0)
      case Implies => AsInt(x == 0 || y != 0)
      case Equals => AsInt(x == y)
      case SmallerEqual => AsInt(x <= y)
      case Smaller => AsInt(x < y)
      case LargerEqual => AsInt(x >= y)
      case Larger => AsInt(x > y)
      case Plus => x + y
      case Minus => x - y
      case _ => 0
  }

  ghost predicate UntilFrom(i: nat, p: nat -> bool, q: nat -> bool) {
    exists k: nat :: i <= k && q(k) && forall j: nat | i <= j < k :: p(j)
  }

  ghost predicate ReleaseFrom(i: nat, p: nat -> bool, q: nat -> bool) {
    forall k: nat | i <= k :: q(k) || exists j: nat :: i <= j < k && p(j)
  }

  /** The positions of the word at which the formula holds. */
  ghost function Positions(w: Word, f: Formula): nat -> bool {
    match f
    case Bracket(a) => Positions(w, a)
    case Unary(op, a) =>
      var p := Positions(w, a);
      (match op
       case Not => (i: nat) => !p(i)
       case NextTime => (i: nat) => p(i + 1)
       case Globally => (i: nat) => forall k: nat | i <= k :: p(k)
       case Future => (i: nat) => exists k: nat :: i <= k && p(k))
    case Binary(op, a, b) =>
      var p, q := Positions(w, a), Positions(w, b);
      (match op
       case PathAnd => (i: nat) => p(i) && q(i)
       case PropAnd => (i: nat) => p(i) && q(i)
       case PathOr => (i: nat) => p(i) || q(i)
       case PropOr => (i: nat) => p(i) || q(i)
       case Implies => (i: nat) => p(i) ==> q(i)
       case Until => (i: nat) => UntilFrom(i, p, q)
       case Release => (i: nat) => ReleaseFrom(i, p, q)
       case _ => (i: nat) => Value(f, w(i)) != 0)
    case _ => (i: nat) => Value(f, w(i)) != 0
  }

  /** The formula holds on the suffix of the word that starts at position i. */
  ghost predicate Holds(w: Word, i: nat, f: Formula) {
    Positions(w, f)(i)
  }

  /** On propositions the temporal meaning is the value in the current state. */
  lemma {:induction false} PropositionMeaning(w: Word, i: nat, f: Formula)
    requires IsProposition(f)
    ensures Holds(w, i, f) <==> Value(f, w(i)) != 0
  {
    match f {
      case Unary(_, a) => PropositionMeaning(w, i, a);
      case Bracket(a) => PropositionMeaning(w, i, a);
      case Binary(_, a, b) => PropositionMeaning(w, i, a); PropositionMeaning(w, i, b);
      case _ =>
    }
  }

  lemma {:induction false} ConstantMeaning(w: Word, i: nat, f: Formula)
    ensures IsTrue(f) ==> Holds(w, i, f)
    ensures IsFalse(f) ==> !Holds(w, i, f)
  {
    if f.Unary? && f.uop == Not {
      ConstantMeaning(w, i, f.arg);
    } else if f.BoolValue? {
      assert Value(f, w(i)) == AsInt(f.bool_);
    }
  }

  lemma UntilStep(i: nat, p: nat -> bool, q: nat -> bool)
    ensures UntilFrom(i, p, q) <==> q(i) || (p(i) && UntilFrom(i + 1, p, q))
  {
    if UntilFrom(i + 1, p, q) && p(i) {
      var k: nat :| i + 1 <= k && q(k) && forall j: nat | i + 1 <= j < k :: p(j);
      assert i <= k && forall j: nat | i <= j < k :: p(j);
    }
  }

  lemma ReleaseStep(i: nat, p: nat -> bool, q: nat -> bool)
    ensures ReleaseFrom(i, p, q) <==> q(i) && (p(i) || ReleaseFrom(i + 1, p, q))
  {
    if ReleaseFrom(i, p, q) && !p(i) {
      forall k: nat | i + 1 <= k ensures q(k) || exists j: nat :: i + 1 <= j < k && p(j) {
        if !q(k) {
          var j: nat :| i <= j < k && p(j);
          assert i + 1 <= j;
        }
      }
    }
  }

  /** a U b unrolls into b now, or a now and the until again in the next position. */
  lemma UntilUnrolls(w: Word, i: nat, a: Formula, b: Formula)
    ensures var u := Binary(Until, a, b);
            Holds(w, i, u) <==> Holds(w, i, b) || (Holds(w, i, a) && Holds(w, i + 1, u))
  {
    UntilStep(i, Positions(w, a), Positions(w, b));
  }

  /** a R b unrolls into b now, and a now or the release again in the next position. */
  lemma ReleaseUnrolls(w: Word, i: nat, a: Formula, b: Formula)
    ensures var u := Binary(Release, a, b);
            Holds(w, i, u) <==> Holds(w, i, b) && (Holds(w, i, a) || Holds(w, i + 1, u))
  {
    ReleaseStep(i, Positions(w, a), Positions(w, b));
  }
}
