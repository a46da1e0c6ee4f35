/** The parser for formulas on linked tokens (src/ltl/ltl-parser.c): every lexeme links one token into
    the tree, at a place found by climbing along parent links. */
module LtlParser {
  import opened Wrappers
  import opened Formulas
  import opened Tokens
  import opened LtlGrammar
  import opened OpenTokens

  class Parser {
    var top: Token?
    var last: Token?
    ghost var view: View

    ghost predicate Valid()
      reads this, view.region, view.tokens
    {
      Stands(top, last, view)
    }

    constructor ()
      ensures Valid() && view == View(Start, [], {}, null, {})
    {
      top, last, view := null, null, View(Start, [], {}, null, {});
    }

    /** climb_up from a symbol. */
    method LeaveSymbol()
      requires Valid() && view.position.AtSymbol?
      modifies this
      ensures Valid() && view.region == old(view).region && view.tokens == old(view).tokens
      ensures view.position == Above(SymbolTree(old(view).position.symbol), old(view).position.frames)
    {
      last := last.parent;
      view := view.(position := Above(SymbolTree(view.position.symbol), view.position.frames));
    }

    /** climb_up from an operator or a bracket with all its operands. */
    method LeaveOperator()
      requires Valid() && view.position.Above? && view.path != []
      modifies this, last
      ensures Valid() && view.region + view.tokens == old(view).region + old(view).tokens
      ensures view.position == Above(Plug(old(view).position.frames[0], old(view).position.t),
              old(view).position.frames[1..])
    {
      ghost var v := CompleteInnermost(top, last, view);
      last, view := last.parent, v;
    }

    /** Fills the operand the innermost open token waits for. */
    method Fill(l: Lexeme) returns (ok: bool)
      requires Valid() && view.position.Awaiting?
      modifies this, last
      ensures ok <==> Enter(l, old(view).position.frames).Some?
      ensures ok ==> Valid() && view.position == Enter(l, old(view).position.frames).value
      ensures forall t :: t in view.region + view.tokens ==> t in old(view.region + view.tokens) || fresh(t)
    {
      var kind := KindOf(l);
      if kind.None? { return false; }
      var t := new Token.MakeOpen(last, kind.value, null);
      FillOperand(top, last, t, l, view);
      last, view := t, Entered(view, t, l);
      ok := true;
    }

    /** The first lexeme. */
    method Begin(l: Lexeme) returns (ok: bool)
      requires Valid() && view.position == Start && l != End
      modifies this
      ensures ok <==> Feed(Start, l).Some?
      ensures ok ==> Valid() && Some(view.position) == Feed(Start, l)
      ensures forall t :: t in view.region + view.tokens ==> fresh(t)
    {
      var kind := KindOf(l);
      if kind.None? { return false; }
      var t := new Token.MakeOpen(null, kind.value, null);
      if kind.value.BinaryToken? { return false; }
      EnteredStands(t, view, t, l);
      top, last, view := t, t, Entered(view, t, l);
      ok := true;
    }

    /** Puts an infix operator between an open bracket and the operand of it. */
    method InsertBelow(op: BinaryOp)
      requires Valid() && view.position.Above? && view.path != []
      modifies this, last
      ensures Valid() && view.position == Awaiting([BinaryFrame(op, old(view).position.t)] + old(view).position.frames)
      ensures forall t :: t in view.region + view.tokens ==> t in old(view.region + view.tokens) || fresh(t)
    {
      var t := new Token.MakeOpen(last, BinaryToken(op), LastOperand(last));
      ReplaceOperand(top, last, t, op, view);
      last, view := t, Inserted(view, t, op);
    }

    /** Puts an infix operator on top. */
    method InsertOnTop(op: BinaryOp)
      requires Valid() && view.position.Above? && view.path == []
      modifies this
      ensures Valid() && view.position == Awaiting([BinaryFrame(op, old(view).position.t)])
      ensures forall t :: t in view.region + view.tokens ==> t in old(view.region + view.tokens) || fresh(t)
    {
      var t := new Token.MakeOpen(null, BinaryToken(op), top);
      InsertedStands(t, view, t, op);
      top, last, view := t, t, Inserted(view, t, op);
    }

    /** ltl_parse */
    method Parse(l: Lexeme) returns (ok: bool)
      requires Valid()
      modifies this, view.region, view.tokens
      ensures ok <==> Feed(old(view).position, l).Some?
      ensures ok ==> Valid() && Some(view.position) == Feed(old(view).position, l)
      ensures forall t :: t in view.region + view.tokens ==> t in old(view.region + view.tokens) || fresh(t)
      decreases match view.position case AtSymbol(_, fs) => |fs| + 1 case Above(_, fs) => |fs| case _ => 0
    {
      if last != null {
        match last.kind
        case Leaf(_) =>
          LeaveSymbol();
          ok := Parse(l);
        case BracketToken =>
          if last.arg == null {
            ok := Fill(l);
          } else {
            if l.BinaryLex? { InsertBelow(l.bop); }
            else if l == Close { LeaveOperator(); }
            else { return false; }
            ok := true;
          }
        case _ =>
          if LastOperand(last) != null {
            LeaveOperator();
            ok := Parse(l);
          } else {
            ok := Fill(l);
          }
      } else if l == End {
        ok := true;
      } else if top == null {
        ok := Begin(l);
      } else {
        if l.BinaryLex? { InsertOnTop(l.bop); }
        ok := l.BinaryLex?;
      }
    }
  }

  method ParseNext(parser: Parser, l: Lexeme) returns (ok: bool)
    requires parser.Valid()
    modifies parser, parser.view.region, parser.view.tokens
    ensures ok <==> Feed(old(parser.view).position, l).Some?
    ensures ok ==> parser.Valid() && Some(parser.view.position) == Feed(old(parser.view).position, l)
    ensures fresh(parser.view.region - old(parser.view.region + parser.view.tokens))
    ensures fresh(parser.view.tokens - old(parser.view.region + parser.view.tokens))
  {
    ok := parser.Parse(l);
    forall t | t in parser.view.region || t in parser.view.tokens
      ensures t in old(parser.view.region + parser.view.tokens) || fresh(t)
    {
      assert t in parser.view.region + parser.view.tokens;
    }
  }

  /** The loop of ltl2ccs over the lexemes and the end of the text.  The empty text is accepted and leaves
      no token. */
  method ParseFormula(ls: seq<Lexeme>) returns (ok: bool, top: Token?, ghost t: Tree)
    requires End !in ls
    ensures ok <==> Read(Start, ls + [End]).Some?
    ensures ls == [] ==> ok && top == null
    ensures ok && ls != [] ==> IsInput(t) && ls == Flatten(t)
    ensures ok && ls != [] ==> top != null && fresh(top.Repr) && Represents(top, t)
  {
    var all := ls + [End];
    var parser := new Parser();
    t := Missing;
    for i := 0 to |all|
      invariant parser.Valid() && fresh(parser)
      invariant fresh(parser.view.region) && fresh(parser.view.tokens)
      invariant Read(Start, all[..i]) == Some(parser.view.position)
    {
      assert all[..i + 1][..i] == all[..i];
      ok := ParseNext(parser, all[i]);
      if !ok {
        ReadFails(all, i + 1);
        return false, null, t;
      }
    }
    assert all[..|all|] == all;
    AcceptsNothingElse(ls);
    ok, top := true, parser.top;
    if top != null {
      t := parser.view.position.t;
      assert parser.view.path == [];
    }
  }

  lemma {:induction false} ReadFails(ls: seq<Lexeme>, i: nat)
    requires i <= |ls| && Read(Start, ls[..i]).None?
    ensures Read(Start, ls).None?
    decreases |ls| - i
  {
    if i < |ls| {
      assert ls[..i + 1][..i] == ls[..i];
      ReadFails(ls, i + 1);
    } else {
      assert ls[..i] == ls;
    }
  }
}
