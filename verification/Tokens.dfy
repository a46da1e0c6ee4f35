/** Formulas as linked tokens (the struct ltl_token of src/ltl/ltl-token.h). */
module Tokens {
  import opened Formulas

  /** What a token is; its subtokens are linked from it. */
  datatype Kind = Leaf(symbol: Formula) | UnaryToken(uop: UnaryOp) | BinaryToken(bop: BinaryOp) | BracketToken

  function AboveArg(k: Kind, a: Formula): Formula {
    if k.UnaryToken? then Unary(k.uop, a) else Bracket(a)
  }

  /** A token with its links.  `arg` is the subtoken of unary operators and brackets.  A parent link
      need not be right: the parser leaves wrong ones behind. */
  class Token {
    var kind: Kind
    var parent: Token?
    var arg: Token?
    var left: Token?
    var right: Token?

    ghost var tree: Formula
    ghost var Repr: set<Token>

    ghost predicate Valid()
      reads this, Repr
      decreases Repr
      ensures Valid() ==> this in Repr
    {
      && this in Repr
      && match kind
         case Leaf(s) => !s.Unary? && !s.Binary? && !s.Bracket? && tree == s && Repr == {this}
         case BinaryToken(op) =>
           && left != null && right != null && left in Repr && right in Repr
           && left.Repr < Repr && right.Repr < Repr && left.Repr !! right.Repr
           && Repr == {this} + left.Repr + right.Repr && this !in left.Repr && this !in right.Repr
           && left.Valid() && right.Valid()
           && tree == Binary(op, left.tree, right.tree)
         case _ =>
           && arg != null && arg in Repr && arg.Repr < Repr
           && Repr == {this} + arg.Repr && this !in arg.Repr
           && arg.Valid()
           && tree == AboveArg(kind, arg.tree)
    }

    /** Every token below this one has the token above it as its parent. */
    ghost predicate ParentsRight()
      requires Valid()
      reads this, Repr
      decreases Repr
    {
      match kind
      case Leaf(_) => true
      case BinaryToken(_) => left.parent == this && right.parent == this && left.ParentsRight() && right.ParentsRight()
      case _ => arg.parent == this && arg.ParentsRight()
    }

    /** Changes the parent link and nothing else. */
    method SetParent(p: Token?)
      requires Valid()
      modifies this`parent
      ensures Valid() && parent == p
      ensures old(ParentsRight()) ==> ParentsRight()
    {
      parent := p;
    }

    /** Links two operands below this operator. */
    method LinkOperands(l: Token, r: Token)
      requires kind.BinaryToken? && l.Valid() && r.Valid() && l.Repr !! r.Repr
      requires this !in l.Repr && this !in r.Repr
      requires l.parent == this && r.parent == this && l.ParentsRight() && r.ParentsRight()
      modifies this
      ensures kind == old(kind)
      ensures Valid() && ParentsRight()
      ensures tree == Binary(kind.bop, l.tree, r.tree) && Repr == {this} + l.Repr + r.Repr
    {
      left, right := l, r;
      tree, Repr := Binary(kind.bop, l.tree, r.tree), {this} + l.Repr + r.Repr;
    }

    constructor MakeLeaf(parent: Token?, symbol: Formula)
      requires !symbol.Unary? && !symbol.Binary? && !symbol.Bracket?
      ensures Valid() && ParentsRight() && tree == symbol && Repr == {this}
      ensures this.parent == parent
    {
      this.kind := Leaf(symbol);
      this.parent := parent;
      arg, left, right := null, null, null;
      tree, Repr := symbol, {this};
    }

    /** A token as the parser makes it: without operands, or with the left one only. */
    constructor MakeOpen(parent: Token?, kind: Kind, left: Token?)
      requires kind.Leaf? ==> !kind.symbol.Unary? && !kind.symbol.Binary? && !kind.symbol.Bracket?
      ensures this.kind == kind && this.parent == parent && arg == null && this.left == left && right == null
      ensures Repr == {this} && (kind.Leaf? ==> tree == kind.symbol)
    {
      this.kind := kind;
      this.parent := parent;
      this.left := left;
      arg, right := null, null;
      Repr := {this};
      tree := if kind.Leaf? then kind.symbol else BoolValue(true);
    }

    /** An operator whose left operand is a constant. */
    constructor MakeShorthand(parent: Token?, op: BinaryOp, b: bool, right: Token)
      requires right.Valid()
      ensures Valid() && tree == Binary(op, BoolValue(b), right.tree)
      ensures fresh(Repr - right.Repr) && right.Repr <= Repr
      ensures this.parent == parent && left != null && left.parent == this
    {
      this.kind := BinaryToken(op);
      this.parent := parent;
      arg := null;
      this.right := right;
      new;
      left := new Token.MakeLeaf(this, BoolValue(b));
      tree, Repr := Binary(op, left.tree, right.tree), {this} + left.Repr + right.Repr;
    }
  }
}
