/** The parser for formulas that takes one lexeme at a time (src/ltl/ltl-parser.c), on values: what is
    open between two lexemes, and which inputs it accepts with which tree. */
module LtlGrammar {
  import opened Wrappers
  import opened Formulas

  /** Digits are read without a sign. */
  type Symbol = f: Formula | f.Id? || (f.IntValue? && f.int_ >= 0) || f.BoolValue? witness BoolValue(true)

  datatype Lexeme =
    | SymbolLex(symbol: Symbol)
    | UnaryLex(uop: UnaryOp)
    | BinaryLex(bop: BinaryOp)
    | Open
    | Close
    | End
    | Other

  /** A parsed formula.  The parser lets an infix operator stand where an operand is expected; its
      left operand is then missing. */
  datatype Tree =
    | Missing
    | SymbolTree(symbol: Symbol)
    | UnaryTree(uop: UnaryOp, arg: Tree)
    | BracketTree(arg: Tree)
    | BinaryTree(bop: BinaryOp, left: Tree, right: Tree)

  /** A token whose last operand is not complete. */
  datatype Frame = UnaryFrame(uop: UnaryOp) | BracketFrame | BinaryFrame(bop: BinaryOp, left: Tree)

  function Plug(f: Frame, t: Tree): Tree {
    match f
    case UnaryFrame(op) => UnaryTree(op, t)
    case BracketFrame => BracketTree(t)
    case BinaryFrame(op, l) => BinaryTree(op, l, t)
  }

  /** Where the parser stands between two lexemes; the open tokens are given from the inside out.
      Awaiting: at the innermost, which has no operand yet.  AtSymbol: at a symbol below it.  Above:
      at the innermost, whose operand t is complete; without open tokens, t is the whole. */
  datatype Position =
    | Start
    | Awaiting(frames: seq<Frame>)
    | AtSymbol(symbol: Symbol, frames: seq<Frame>)
    | Above(t: Tree, frames: seq<Frame>)

  /** A new token below the open ones. */
  function Enter(l: Lexeme, frames: seq<Frame>): Option<Position> {
    match l
    case SymbolLex(s) => Some(AtSymbol(s, frames))
    case UnaryLex(op) => Some(Awaiting([UnaryFrame(op)] + frames))
    case BinaryLex(op) => Some(Awaiting([BinaryFrame(op, Missing)] + frames))
    case Open => Some(Awaiting([BracketFrame] + frames))
    case _ => None
  }

  /** ltl_parse; None for a syntax error. */
  function Feed(p: Position, l: Lexeme): Option<Position>
    decreases match p case AtSymbol(_, fs) => |fs| + 1 case Above(_, fs) => |fs| case _ => 0
  {
    match p
    case Start => if l == End then Some(p) else if l.BinaryLex? then None else Enter(l, [])
    case Awaiting(frames) => Enter(l, frames)
    case AtSymbol(s, frames) => Feed(Above(SymbolTree(s), frames), l)
    case Above(t, frames) =>
      if frames == [] then
        if l == End then Some(p) else if l.BinaryLex? then Some(Awaiting([BinaryFrame(l.bop, t)])) else None
      else if frames[0] == BracketFrame then
        if l.BinaryLex? then Some(Awaiting([BinaryFrame(l.bop, t)] + frames))
        else if l == Close then Some(Above(BracketTree(t), frames[1..]))
        else None
      else Feed(Above(Plug(frames[0], t), frames[1..]), l)
  }

  function Read(p: Position, ls: seq<Lexeme>): Option<Position> {
    if ls == [] then Some(p)
    else
      var before := Read(p, ls[..|ls| - 1]);
      if before.None? then None else Feed(before.value, ls[|ls| - 1])
  }

  // ----- what has been read is the text of the position -----

  function Flatten(t: Tree): seq<Lexeme> {
    match t
    case Missing => []
    case SymbolTree(s) => [SymbolLex(s)]
    case UnaryTree(op, a) => [UnaryLex(op)] + Flatten(a)
    case BracketTree(a) => [Open] + Flatten(a) + [Close]
    case BinaryTree(op, l, r) => Flatten(l) + [BinaryLex(op)] + Flatten(r)
  }

  function FlattenFrame(f: Frame): seq<Lexeme> {
    match f
    case UnaryFrame(op) => [UnaryLex(op)]
    case BracketFrame => [Open]
    case BinaryFrame(op, l) => Flatten(l) + [BinaryLex(op)]
  }

  function FlattenFrames(fs: seq<Frame>): seq<Lexeme> {
    if fs == [] then [] else FlattenFrames(fs[1..]) + FlattenFrame(fs[0])
  }

  function Text(p: Position): seq<Lexeme> {
    match p
    case Start => []
    case Awaiting(frames) => FlattenFrames(frames)
    case AtSymbol(s, frames) => FlattenFrames(frames) + [SymbolLex(s)]
    case Above(t, frames) => FlattenFrames(frames) + Flatten(t)
  }

  // ----- the grammar -----

  /** Operand ::= symbol | unary Operand | ( Expression ) | infix Operand */
  predicate IsOperand(t: Tree)
    decreases t, 0
  {
    match t
    case Missing => false
    case SymbolTree(_) => true
    case UnaryTree(_, a) => IsOperand(a)
    case BracketTree(a) => IsExpression(a)
    case BinaryTree(_, l, r) => l == Missing && IsOperand(r)
  }

  /** Expression ::= Operand (infix Operand)*, associating to the left. */
  predicate IsExpression(t: Tree)
    decreases t, 1
  {
    IsOperand(t) || (t.BinaryTree? && IsExpression(t.left) && IsOperand(t.right))
  }

  /** A whole input does not begin with an infix operator. */
  predicate IsInput(t: Tree) {
    IsExpression(t) && Flatten(t) != [] && !Flatten(t)[0].BinaryLex?
  }

  /** An operator with a left operand stands directly below a bracket or on top. */
  predicate FrameFits(fs: seq<Frame>, i: nat)
    requires i < |fs|
  {
    fs[i].BinaryFrame? && fs[i].left != Missing ==>
      IsExpression(fs[i].left) && (i + 1 == |fs| || fs[i + 1] == BracketFrame)
  }

  predicate FramesFit(fs: seq<Frame>) {
    fs == [] || (FrameFits(fs, 0) && FramesFit(fs[1..]))
  }

  predicate Fits(p: Position) {
    match p
    case Start => true
    case Awaiting(frames) => frames != [] && FramesFit(frames)
    case AtSymbol(_, frames) => FramesFit(frames)
    case Above(t, frames) =>
      FramesFit(frames) && if frames == [] || frames[0] == BracketFrame then IsExpression(t) else IsOperand(t)
  }

  lemma {:induction false} PlugFits(t: Tree, fs: seq<Frame>)
    requires fs != [] && fs[0] != BracketFrame && Fits(Above(t, fs))
    ensures Fits(Above(Plug(fs[0], t), fs[1..]))
    ensures FlattenFrames(fs) + Flatten(t) == FlattenFrames(fs[1..]) + Flatten(Plug(fs[0], t))
  {
    assert FrameFits(fs, 0);
    var below := FlattenFrames(fs[1..]);
    match fs[0]
    case UnaryFrame(op) => assert below + [UnaryLex(op)] + Flatten(t) == below + ([UnaryLex(op)] + Flatten(t));
    case BinaryFrame(op, l) =>
      assert below + (Flatten(l) + [BinaryLex(op)]) + Flatten(t) == below + (Flatten(l) + [BinaryLex(op)] + Flatten(t));
  }

  lemma OpenText(f: Frame, fs: seq<Frame>)
    requires FramesFit(fs) && FrameFits([f] + fs, 0)
    ensures Fits(Awaiting([f] + fs)) && Text(Awaiting([f] + fs)) == FlattenFrames(fs) + FlattenFrame(f)
  {
    assert ([f] + fs)[1..] == fs;
  }

  lemma EnterText(l: Lexeme, fs: seq<Frame>)
    requires FramesFit(fs) && Enter(l, fs).Some?
    ensures Fits(Enter(l, fs).value) && Text(Enter(l, fs).value) == FlattenFrames(fs) + [l]
  {
    match l
    case UnaryLex(op) => OpenText(UnaryFrame(op), fs);
    case BinaryLex(op) => OpenText(BinaryFrame(op, Missing), fs); assert FlattenFrame(BinaryFrame(op, Missing)) == [l];
    case Open => OpenText(BracketFrame, fs);
    case _ =>
  }

  lemma InfixText(op: BinaryOp, t: Tree, fs: seq<Frame>)
    requires FramesFit(fs) && IsExpression(t) && (fs == [] || fs[0] == BracketFrame)
    ensures Fits(Awaiting([BinaryFrame(op, t)] + fs))
    ensures Text(Awaiting([BinaryFrame(op, t)] + fs)) == FlattenFrames(fs) + Flatten(t) + [BinaryLex(op)]
  {
    OpenText(BinaryFrame(op, t), fs);
  }

  /** Every lexeme is put where the grammar allows it, and nothing read is lost or reordered. */
  lemma {:induction false} FeedText(p: Position, l: Lexeme)
    requires Fits(p) && Feed(p, l).Some?
    ensures Fits(Feed(p, l).value)
    ensures Text(Feed(p, l).value) == Text(p) + if l == End then [] else [l]
    ensures l == End ==> Feed(p, l).value == Start || (Feed(p, l).value.Above? && Feed(p, l).value.frames == [])
    decreases match p case AtSymbol(_, fs) => |fs| + 1 case Above(_, fs) => |fs| case _ => 0
  {
    match p
    case Start => if l != End { EnterText(l, []); }
    case Awaiting(frames) => EnterText(l, frames);
    case AtSymbol(s, frames) => FeedText(Above(SymbolTree(s), frames), l);
    case Above(t, frames) =>
      if frames != [] && frames[0] != BracketFrame {
        PlugFits(t, frames);
        FeedText(Above(Plug(frames[0], t), frames[1..]), l);
      } else if l.BinaryLex? {
        InfixText(l.bop, t, frames);
        assert [BinaryFrame(l.bop, t)] + frames
               == if frames == [] then [BinaryFrame(l.bop, t)] else [BinaryFrame(l.bop, t)] + frames;
      } else if l == Close {
        BracketText(t, frames);
      }
  }

  lemma BracketText(t: Tree, fs: seq<Frame>)
    requires fs != [] && fs[0] == BracketFrame && Fits(Above(t, fs))
    ensures Fits(Above(BracketTree(t), fs[1..]))
    ensures Text(Above(BracketTree(t), fs[1..])) == FlattenFrames(fs) + Flatten(t) + [Close]
  {
    assert IsOperand(BracketTree(t));
  }

  lemma {:induction false} ReadText(ls: seq<Lexeme>)
    requires End !in ls && Read(Start, ls).Some?
    ensures Fits(Read(Start, ls).value) && Text(Read(Start, ls).value) == ls
    ensures ls != [] ==> !ls[0].BinaryLex?
    decreases |ls|
  {
    if ls != [] {
      var n := |ls| - 1;
      ReadText(ls[..n]);
      FeedText(Read(Start, ls[..n]).value, ls[n]);
      assert ls == ls[..n] + [ls[n]];
    }
  }

  // ----- every input of the grammar is read -----

  /** The position after climbing up from all complete tokens. */
  function Climb(p: Position): Position
    decreases match p case AtSymbol(_, fs) => |fs| + 1 case Above(_, fs) => |fs| case _ => 0
  {
    match p
    case AtSymbol(s, frames) => Climb(Above(SymbolTree(s), frames))
    case Above(t, frames) =>
      if frames == [] || frames[0] == BracketFrame then p else Climb(Above(Plug(frames[0], t), frames[1..]))
    case _ => p
  }

  /** Climbing terminates at a bracket or at the top, and the next lexeme is treated there. */
  lemma {:induction false} FeedClimbs(p: Position, l: Lexeme)
    ensures Feed(p, l) == Feed(Climb(p), l)
    ensures Climb(p).Above? ==> Climb(p).frames == [] || Climb(p).frames[0] == BracketFrame
    decreases match p case AtSymbol(_, fs) => |fs| + 1 case Above(_, fs) => |fs| case _ => 0
  {
    match p
    case AtSymbol(s, frames) => FeedClimbs(Above(SymbolTree(s), frames), l);
    case Above(t, frames) =>
      if frames != [] && frames[0] != BracketFrame { FeedClimbs(Above(Plug(frames[0], t), frames[1..]), l); }
    case _ =>
  }

  lemma {:induction false} ReadAppend(p: Position, a: seq<Lexeme>, b: seq<Lexeme>)
    requires Read(p, a).Some?
    ensures Read(p, a + b) == Read(Read(p, a).value, b)
    decreases |b|
  {
    if b == [] {
      assert a + b == a;
    } else {
      var n := |b| - 1;
      ReadAppend(p, a, b[..n]);
      assert (a + b)[..|a + b| - 1] == a + b[..n];
    }
  }

  lemma ReadOne(p: Position, l: Lexeme)
    ensures Read(p, [l]) == Feed(p, l)
  {
    assert [l][..0] == [];
    assert Read(p, []) == Some(p);
  }

  /** After text a the parser has climbed to q; lexeme l takes it on. */
  lemma ReadThen(p: Position, a: seq<Lexeme>, q: Position, l: Lexeme)
    requires Read(p, a).Some? && Climb(Read(p, a).value) == q
    ensures Read(p, a + [l]) == Feed(q, l)
  {
    ReadAppend(p, a, [l]);
    ReadOne(Read(p, a).value, l);
    FeedClimbs(Read(p, a).value, l);
  }

  lemma {:induction false} FlattenHead(t: Tree)
    requires IsExpression(t)
    ensures Flatten(t) != []
    decreases t
  {
    if t.BinaryTree? && t.left != Missing { FlattenHead(t.left); }
  }

  /** The parser stands at p with open tokens fs and takes the first lexeme of t as an operand. */
  predicate Expects(p: Position, fs: seq<Frame>, t: Tree) {
    Flatten(t) != [] && Feed(p, Flatten(t)[0]) == Enter(Flatten(t)[0], fs)
  }

  /** t has been read: climbing up from the last lexeme leads past t. */
  predicate ReadAs(p: Position, t: Tree, fs: seq<Frame>) {
    var q := Read(p, Flatten(t));
    q.Some? && Climb(q.value) == Climb(Above(t, fs))
  }

  lemma {:induction false} ReadOperand(p: Position, fs: seq<Frame>, t: Tree)
    requires IsOperand(t) && Expects(p, fs, t)
    ensures ReadAs(p, t, fs)
    decreases t, 0
  {
    match t
    case SymbolTree(s) => ReadOne(p, SymbolLex(s));
    case UnaryTree(op, a) => ReadBelow(p, fs, UnaryFrame(op), UnaryLex(op), a);
    case BinaryTree(op, l, a) =>
      assert Flatten(t) == [BinaryLex(op)] + Flatten(a);
      ReadBelow(p, fs, BinaryFrame(op, Missing), BinaryLex(op), a);
    case BracketTree(a) =>
      var open := [BracketFrame] + fs;
      FlattenHead(a);
      ReadOne(p, Open);
      ReadExpression(Awaiting(open), open, a);
      ReadAppend(p, [Open], Flatten(a));
      ReadThen(p, [Open] + Flatten(a), Above(a, open), Close);
      assert open[1..] == fs;
  }

  lemma {:induction false} ReadBelow(p: Position, fs: seq<Frame>, f: Frame, l: Lexeme, a: Tree)
    requires IsOperand(a) && f != BracketFrame && Feed(p, l) == Some(Awaiting([f] + fs))
    ensures var q := Read(p, [l] + Flatten(a)); q.Some? && Climb(q.value) == Climb(Above(Plug(f, a), fs))
    decreases a, 1
  {
    var open := [f] + fs;
    FlattenHead(a);
    ReadOne(p, l);
    ReadOperand(Awaiting(open), open, a);
    ReadAppend(p, [l], Flatten(a));
    assert open[1..] == fs;
  }

  lemma {:induction false} ReadExpression(p: Position, fs: seq<Frame>, t: Tree)
    requires IsExpression(t) && Expects(p, fs, t) && (fs == [] || fs[0] == BracketFrame)
    ensures ReadAs(p, t, fs)
    decreases t, 2
  {
    if IsOperand(t) {
      ReadOperand(p, fs, t);
    } else {
      var f := BinaryFrame(t.bop, t.left);
      var open := [f] + fs;
      FlattenHead(t.left);
      assert Flatten(t) == (Flatten(t.left) + [BinaryLex(t.bop)]) + Flatten(t.right);
      ReadExpression(p, fs, t.left);
      ReadThen(p, Flatten(t.left), Above(t.left, fs), BinaryLex(t.bop));
      assert fs == [] ==> open == [f];
      FlattenHead(t.right);
      ReadOperand(Awaiting(open), open, t.right);
      ReadAppend(p, Flatten(t.left) + [BinaryLex(t.bop)], Flatten(t.right));
      assert open[1..] == fs;
    }
  }

  /** The parser accepts exactly the flattened inputs of the grammar, and rebuilds exactly the tree that
      was flattened. */
  lemma ParseInvertsFlatten(ls: seq<Lexeme>, t: Tree)
    requires End !in ls
    ensures Read(Start, ls + [End]) == Some(Above(t, [])) <==> IsInput(t) && ls == Flatten(t)
  {
    assert (ls + [End])[..|ls|] == ls;
    if Read(Start, ls + [End]) == Some(Above(t, [])) {
      var p := Read(Start, ls).value;
      ReadText(ls);
      FeedText(p, End);
      assert Text(Above(t, [])) == Flatten(t);
      FlattenHead(t);
    }
    if IsInput(t) && ls == Flatten(t) {
      ReadExpression(Start, [], t);
      ReadThen(Start, ls, Above(t, []), End);
    }
  }

  /** Without a tree nothing is accepted but the empty input. */
  lemma AcceptsNothingElse(ls: seq<Lexeme>)
    requires End !in ls && Read(Start, ls + [End]).Some?
    ensures var p := Read(Start, ls + [End]).value;
            (p == Start && ls == []) || (p.Above? && p.frames == [] && IsInput(p.t) && ls == Flatten(p.t))
  {
    assert (ls + [End])[..|ls|] == ls;
    var p := Read(Start, ls).value;
    ReadText(ls);
    FeedText(p, End);
    var q := Feed(p, End).value;
    if q.Above? { ParseInvertsFlatten(ls, q.t); }
  }

  // ----- infix operators without a left operand -----

  predicate Complete(t: Tree) {
    match t
    case Missing => false
    case SymbolTree(_) => true
    case UnaryTree(_, a) => Complete(a)
    case BracketTree(a) => Complete(a)
    case BinaryTree(_, l, r) => Complete(l) && Complete(r)
  }

  /** An infix operator where an operand should begin. */
  predicate InfixAt(ls: seq<Lexeme>, i: nat)
    requires i < |ls|
  {
    ls[i].BinaryLex? && (i == 0 || ls[i - 1].BinaryLex? || ls[i - 1].UnaryLex? || ls[i - 1] == Open)
  }

  predicate WellPlaced(ls: seq<Lexeme>) {
    forall i :: 0 <= i < |ls| ==> !InfixAt(ls, i)
  }

  predicate EndsOperand(l: Lexeme) {
    l.SymbolLex? || l == Close
  }

  lemma {:induction false} FlattenTail(t: Tree)
    requires IsExpression(t)
    ensures Flatten(t) != [] && EndsOperand(Flatten(t)[|Flatten(t)| - 1])
  {
    match t
    case UnaryTree(_, a) => FlattenTail(a);
    case BinaryTree(_, _, r) => FlattenTail(r);
    case _ =>
  }

  lemma PlacedBehind(l: Lexeme, ls: seq<Lexeme>)
    requires l.UnaryLex? || l == Open
    ensures WellPlaced([l] + ls) <==> WellPlaced(ls)
  {
    forall i | 0 <= i < |ls| ensures InfixAt(ls, i) == InfixAt([l] + ls, i + 1) { }
    if WellPlaced([l] + ls) {
      forall i | 0 <= i < |ls| ensures !InfixAt(ls, i) { assert !InfixAt([l] + ls, i + 1); }
    }
    if WellPlaced(ls) {
      forall i | 0 <= i < |ls| + 1 ensures !InfixAt([l] + ls, i) { if i > 0 { assert !InfixAt(ls, i - 1); } }
    }
  }

  lemma PlacedClosed(ls: seq<Lexeme>)
    ensures WellPlaced(ls + [Close]) <==> WellPlaced(ls)
  {
    forall i | 0 <= i < |ls| ensures InfixAt(ls, i) == InfixAt(ls + [Close], i) { }
    if WellPlaced(ls + [Close]) {
      forall i | 0 <= i < |ls| ensures !InfixAt(ls, i) { assert !InfixAt(ls + [Close], i); }
    }
  }

  lemma PlacedAround(a: seq<Lexeme>, op: BinaryOp, b: seq<Lexeme>)
    requires a != [] && EndsOperand(a[|a| - 1])
    ensures WellPlaced(a + [BinaryLex(op)] + b) <==> WellPlaced(a) && WellPlaced(b)
  {
    var c := a + [BinaryLex(op)] + b;
    forall i | 0 <= i < |a| ensures InfixAt(a, i) == InfixAt(c, i) { }
    forall i | 0 <= i < |b| ensures InfixAt(b, i) == InfixAt(c, |a| + 1 + i) { }
    if WellPlaced(c) {
      forall i | 0 <= i < |a| ensures !InfixAt(a, i) { assert !InfixAt(c, i); }
      forall i | 0 <= i < |b| ensures !InfixAt(b, i) { assert !InfixAt(c, |a| + 1 + i); }
    }
    if WellPlaced(a) && WellPlaced(b) {
      forall i | 0 <= i < |c| ensures !InfixAt(c, i) {
        if i < |a| { assert !InfixAt(a, i); } else if i > |a| { assert !InfixAt(b, i - |a| - 1); }
      }
    }
  }

  /** The accepted formula has all its operands if and only if no infix operator was written where an
      operand should begin. */
  lemma {:induction false} CompleteExactly(t: Tree)
    requires IsExpression(t)
    ensures Complete(t) <==> WellPlaced(Flatten(t))
  {
    match t
    case SymbolTree(s) =>
    case UnaryTree(op, a) => CompleteExactly(a); PlacedBehind(UnaryLex(op), Flatten(a));
    case BracketTree(a) =>
      CompleteExactly(a);
      PlacedBehind(Open, Flatten(a));
      PlacedClosed([Open] + Flatten(a));
    case BinaryTree(op, l, r) =>
      if l == Missing {
        assert InfixAt(Flatten(t), 0);
      } else {
        CompleteExactly(l);
        CompleteExactly(r);
        FlattenTail(l);
        PlacedAround(Flatten(l), op, Flatten(r));
      }
  }
}
