/** The linked tokens of a formula that is being parsed (src/ltl/ltl-parser.c): the open tokens on the
    path from the last token up to the top, and the complete trees that hang below them. */
module OpenTokens {
  import opened Wrappers
  import opened Formulas
  import opened Tokens
  import opened LtlGrammar

  /** The formula of a tree; a missing operand is shown as a constant. */
  function Plain(t: Tree): Formula {
    match t
    case Missing => BoolValue(false)
    case SymbolTree(s) => s
    case UnaryTree(op, a) => Unary(op, Plain(a))
    case BracketTree(a) => Bracket(Plain(a))
    case BinaryTree(op, l, r) => Binary(op, Plain(l), Plain(r))
  }

  /** The tokens of an operand. */
  ghost function Region(t: Token?): set<Token>
    reads t
  {
    if t == null then {} else t.Repr
  }

  /** The last operand of a token. */
  function LastOperand(t: Token): Token?
    reads t
  {
    if t.kind.BinaryToken? then t.right else t.arg
  }

  /** The tokens linked from t are exactly the tree. */
  ghost predicate Represents(t: Token, f: Tree)
    reads t, t.Repr
    decreases f
  {
    t in t.Repr && t.tree == Plain(f) &&
    match f
    case Missing => false
    case SymbolTree(s) => t.kind == Leaf(s) && t.Repr == {t}
    case UnaryTree(op, a) =>
      t.kind == UnaryToken(op) && t.arg != null && t.arg in t.Repr && t.arg.Repr == t.Repr - {t} && Represents(t.arg, a)
    case BracketTree(a) =>
      t.kind == BracketToken && t.arg != null && t.arg in t.Repr && t.arg.Repr == t.Repr - {t} && Represents(t.arg, a)
    case BinaryTree(op, l, r) =>
      t.kind == BinaryToken(op) && t.right != null && t.right in t.Repr && (t.left != null ==> t.left in t.Repr) &&
      Region(t.left) !! t.right.Repr && Region(t.left) + t.right.Repr == t.Repr - {t} &&
      Represents(t.right, r) && (if l == Missing then t.left == null else t.left != null && Represents(t.left, l))
  }

  /** A parsed formula with all operands is a well-formed token tree. */
  lemma {:induction false} CompleteIsValid(t: Token, f: Tree)
    requires Represents(t, f) && Complete(f)
    ensures t.Valid() && t.tree == Plain(f)
    decreases f
  {
    match f
    case SymbolTree(_) =>
    case UnaryTree(_, a) => CompleteIsValid(t.arg, a);
    case BracketTree(a) => CompleteIsValid(t.arg, a);
    case BinaryTree(_, l, r) => CompleteIsValid(t.left, l); CompleteIsValid(t.right, r);
  }

  /** t is an open token with its left operand, if any. */
  ghost predicate IsOpen(t: Token, f: Frame)
    reads t, t.left, Region(t.left)
  {
    match f
    case UnaryFrame(op) => t.kind == UnaryToken(op) && t.left == null
    case BracketFrame => t.kind == BracketToken && t.left == null
    case BinaryFrame(op, l) =>
      t.kind == BinaryToken(op) &&
      if l == Missing then t.left == null
      else t.left != null && t.left in t.left.Repr && t !in t.left.Repr && Represents(t.left, l)
  }

  ghost function Own(t: Token): set<Token>
    reads t, t.left
  {
    {t} + Region(t.left)
  }

  /** path lists the open tokens from the inside out: each has the next one as its parent and is the
      last operand of it.  region holds these tokens and their left operands. */
  ghost predicate OpenPath(path: seq<Token>, frames: seq<Frame>, region: set<Token>)
    reads region
    decreases |path|
  {
    |path| == |frames| &&
    if path == [] then region == {}
    else
      var t := path[0];
      t in region && (t.left != null ==> t.left in region) && Own(t) <= region && IsOpen(t, frames[0]) &&
      OpenPath(path[1..], frames[1..], region - Own(t)) &&
      (if |path| == 1 then t.parent == null
       else path[1] in region && t.parent == path[1] && LastOperand(path[1]) == t)
  }

  lemma PlugRepresents(t: Token, f: Frame, a: Tree)
    requires IsOpen(t, f) && LastOperand(t) != null && Represents(LastOperand(t), a)
    requires Own(t) !! LastOperand(t).Repr && t.Repr == Own(t) + LastOperand(t).Repr && t.tree == Plain(Plug(f, a))
    ensures Represents(t, Plug(f, a))
  {
  }

  /** The innermost open token gets complete: its operands become its own. */
  ghost method Absorb(t: Token, f: Frame, a: Tree)
    requires IsOpen(t, f) && LastOperand(t) != null && Represents(LastOperand(t), a) && Own(t) !! LastOperand(t).Repr
    modifies t`tree, t`Repr
    ensures Represents(t, Plug(f, a)) && t.Repr == old(Own(t)) + LastOperand(t).Repr
  {
    var own := Own(t);
    t.tree := Plain(Plug(f, a));
    t.Repr := own + LastOperand(t).Repr;
    PlugRepresents(t, f, a);
  }

  /** Where the parser stands: the open tokens, and the complete token below them, if any. */
  datatype View = View(position: Position, path: seq<Token>, region: set<Token>, focus: Token?, tokens: set<Token>)

  function FramesOf(p: Position): seq<Frame> {
    if p.Start? then [] else p.frames
  }

  /** The innermost open token. */
  ghost function Innermost(v: View): Token? {
    if v.path == [] then null else v.path[0]
  }

  /** last is the innermost open token or the symbol below it, or none when nothing is open; from there
      the parent links lead along the open tokens to top. */
  ghost predicate Stands(top: Token?, last: Token?, v: View)
    reads v.region, v.tokens
  {
    OpenPath(v.path, FramesOf(v.position), v.region) &&
    v.tokens !! v.region &&
    (if v.focus == null then v.tokens == {} else v.focus in v.tokens && v.focus.Repr == v.tokens) &&
    (if v.path == [] then top == v.focus else LastOperand(v.path[0]) == v.focus && top == v.path[|v.path| - 1]) &&
    match v.position
    case Start => v.focus == null && last == null
    case Awaiting(frames) => v.focus == null && v.path != [] && last == Innermost(v)
    case AtSymbol(s, frames) =>
      v.focus != null && last == v.focus && last.parent == Innermost(v) && Represents(v.focus, SymbolTree(s))
    case Above(f, frames) => v.focus != null && last == Innermost(v) && Represents(v.focus, f)
  }

  /** The view after climbing from the innermost open token, complete now. */
  ghost method CompleteInnermost(top: Token?, t: Token, v: View) returns (v': View)
    requires Stands(top, t, v) && v.position.Above? && v.path != [] && t == v.path[0]
    modifies t`tree, t`Repr
    ensures Stands(top, t.parent, v') && v'.region + v'.tokens == v.region + v.tokens
    ensures v'.position == Above(Plug(v.position.frames[0], v.position.t), v.position.frames[1..])
  {
    var f, frames := v.position.frames[0], v.position.frames[1..];
    var own := Own(t);
    assert OpenPath(v.path[1..], frames, v.region - own);
    v' := View(Above(Plug(f, v.position.t), frames), v.path[1..], v.region - own, t, own + v.tokens);
    Absorb(t, f, v.position.t);
    assert OpenPath(v.path[1..], frames, v.region - own);
  }

  // ----- new tokens -----

  /** The token that is made from a lexeme; None is a syntax error. */
  function KindOf(l: Lexeme): Option<Kind> {
    match l
    case SymbolLex(s) => Some(Leaf(s))
    case UnaryLex(op) => Some(UnaryToken(op))
    case BinaryLex(op) => Some(BinaryToken(op))
    case Open => Some(BracketToken)
    case _ => None
  }

  /** t has just been made from l. */
  ghost predicate IsNew(t: Token, l: Lexeme)
    reads t
  {
    KindOf(l) == Some(t.kind) && t.left == null && LastOperand(t) == null && t.Repr == {t} &&
    (l.SymbolLex? ==> t.tree == l.symbol)
  }

  ghost function OpenFrame(l: Lexeme, left: Tree): Frame
    requires l.UnaryLex? || l.BinaryLex? || l.Open?
  {
    match l
    case UnaryLex(op) => UnaryFrame(op)
    case BinaryLex(op) => BinaryFrame(op, left)
    case _ => BracketFrame
  }

  /** The view after a new token is linked below the open ones. */
  ghost function Entered(v: View, t: Token, l: Lexeme): View
    requires KindOf(l).Some?
  {
    var frames := FramesOf(v.position);
    if l.SymbolLex? then View(AtSymbol(l.symbol, frames), v.path, v.region, t, {t})
    else View(Awaiting([OpenFrame(l, Missing)] + frames), [t] + v.path, v.region + {t}, null, {})
  }

  /** One more open token on the path. */
  lemma OpenPathGrows(path: seq<Token>, frames: seq<Frame>, region: set<Token>, t: Token, f: Frame)
    requires OpenPath(path, frames, region) && Own(t) !! region && IsOpen(t, f)
    requires t.left != null ==> t.left in Own(t)
    requires if path == [] then t.parent == null else t.parent == path[0] && LastOperand(path[0]) == t
    ensures OpenPath([t] + path, [f] + frames, region + Own(t))
  {
    assert ([t] + path)[1..] == path && ([f] + frames)[1..] == frames;
    assert region + Own(t) - Own(t) == region;
  }

  lemma EnteredStands(top: Token?, v: View, t: Token, l: Lexeme)
    requires OpenPath(v.path, FramesOf(v.position), v.region) && t !in v.region && IsNew(t, l)
    requires if v.path == [] then t.parent == null && top == t
             else t.parent == v.path[0] && LastOperand(v.path[0]) == t && top == v.path[|v.path| - 1]
    ensures Stands(top, t, Entered(v, t, l))
    ensures Enter(l, FramesOf(v.position)) == Some(Entered(v, t, l).position)
  {
    if !l.SymbolLex? {
      assert Own(t) == {t};
      OpenPathGrows(v.path, FramesOf(v.position), v.region, t, OpenFrame(l, Missing));
      assert ([t] + v.path)[|v.path|] == if v.path == [] then t else v.path[|v.path| - 1];
    }
  }

  /** Links a token as the last operand of the innermost open token. */
  method LinkOperand(last: Token, t: Token, ghost path: seq<Token>, ghost frames: seq<Frame>, ghost region: set<Token>)
    requires OpenPath(path, frames, region) && path != [] && last == path[0] && t !in region
    modifies last`arg, last`right
    ensures OpenPath(path, frames, region) && LastOperand(last) == t
    ensures unchanged(t)
  {
    ghost var own := Own(last);
    assert OpenPath(path[1..], frames[1..], region - own);
    if last.kind.BinaryToken? { last.right := t; } else { last.arg := t; }
    assert OpenPath(path[1..], frames[1..], region - own);
    assert IsOpen(last, frames[0]);
  }

  /** The view after an infix operator takes what was complete as its left operand. */
  ghost function Inserted(v: View, t: Token, op: BinaryOp): View
    requires v.position.Above?
  {
    View(Awaiting([BinaryFrame(op, v.position.t)] + v.position.frames), [t] + v.path,
         v.region + ({t} + v.tokens), null, {})
  }

  lemma InsertedStands(top: Token?, v: View, t: Token, op: BinaryOp)
    requires v.position.Above? && OpenPath(v.path, v.position.frames, v.region)
    requires v.focus != null && v.focus in v.tokens && v.focus.Repr == v.tokens && Represents(v.focus, v.position.t)
    requires v.tokens !! v.region && t !in v.region && t !in v.tokens
    requires t.kind == BinaryToken(op) && t.left == v.focus && t.right == null
    requires if v.path == [] then t.parent == null && top == t
             else t.parent == v.path[0] && LastOperand(v.path[0]) == t && top == v.path[|v.path| - 1]
    ensures Stands(top, t, Inserted(v, t, op))
  {
    OpenPathGrows(v.path, v.position.frames, v.region, t, BinaryFrame(op, v.position.t));
    assert ([t] + v.path)[|v.path|] == if v.path == [] then t else v.path[|v.path| - 1];
  }

  /** Links a new token as the operand that is missing. */
  method FillOperand(top: Token?, last: Token, t: Token, l: Lexeme, ghost v: View)
    requires Stands(top, last, v) && v.position.Awaiting?
    requires t !in v.region && IsNew(t, l) && t.parent == last
    modifies last`arg, last`right
    ensures Stands(top, t, Entered(v, t, l))
  {
    LinkOperand(last, t, v.path, v.position.frames, v.region);
    EnteredStands(top, v, t, l);
  }

  /** Links a new infix operator in the place of a complete operand. */
  method ReplaceOperand(top: Token?, last: Token, t: Token, op: BinaryOp, ghost v: View)
    requires Stands(top, last, v) && v.position.Above? && v.path != []
    requires t !in v.region && t !in v.tokens && t.kind == BinaryToken(op) && t.left == v.focus && t.right == null &&
             t.parent == last
    modifies last`arg, last`right
    ensures Stands(top, t, Inserted(v, t, op))
  {
    LinkOperand(last, t, v.path, v.position.frames, v.region);
    InsertedStands(top, v, t, op);
  }
}
