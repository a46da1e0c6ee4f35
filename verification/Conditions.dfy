/** The tests of the generated definitions: how the propositions of a node are written
    (ltl_token2css_syntax in src/ltl/ltl-token.c and the inner loop of buchi2ccs) and what the parser of
    agents makes of that text. */
module Conditions {
  import opened Wrappers
  import opened Formulas
  import opened AgentText
  import opened AgentParser
  import A = Agents
  import Machine

  // ----- writing -----

  /** How the scanner of agents classifies the spelling of an identifier. */
  function Scanned(x: string): AgentToken {
    if x == "TRUE" || x == "true" then Truth(true)
    else if x == "FALSE" || x == "false" then Truth(false)
    else if x == "if" then IfWord
    else if x == "define" then DefineWord
    else if x in ["definit", "let", "fix", "res", "bind"] then Keyword(x)
    else Ident(x)
  }

  /** The keywords of the agents. */
  lemma KeywordsExactly(x: string)
    ensures x == "true" || x == "TRUE" ==> Scanned(x) == Truth(true)
    ensures x == "false" || x == "FALSE" ==> Scanned(x) == Truth(false)
    ensures !Scanned(x).Ident? <==>
            x in ["define", "if", "definit", "let", "fix", "res", "TRUE", "FALSE", "true", "false", "bind"]
  {
  }

  /** Implication and the temporal operators have no spelling; the writer fails an assertion. */
  predicate HasSpelling(op: BinaryOp) {
    op != Implies && !IsTemporal(op)
  }

  function OperatorOf(op: BinaryOp): A.ValueOp
    requires HasSpelling(op)
  {
    match op
    case PropAnd => A.And
    case PropOr => A.Or
    case Equals => A.Equal
    case SmallerEqual => A.LessEqual
    case Smaller => A.Less
    case LargerEqual => A.GreaterEqual
    case Larger => A.Greater
    case Plus => A.Plus
    case Minus => A.Minus
  }

  predicate HasSyntax(p: Formula) {
    match p
    case Unary(op, a) => op == UnaryOp.Not && HasSyntax(a)
    case Binary(op, a, b) => HasSpelling(op) && HasSyntax(a) && HasSyntax(b)
    case Bracket(a) => HasSyntax(a)
    case _ => true
  }

  /** _ltl_token2string: brackets around every operand, none around the whole. */
  function Written(p: Formula): seq<AgentToken>
    requires HasSyntax(p)
    decreases p, 0
  {
    match p
    case Id(x) => [Scanned(x)]
    case IntValue(n) => if n < 0 then [Operator(A.Minus), Number(-n)] else [Number(n)]
    case BoolValue(b) => [Truth(b)]
    case Unary(_, a) => [AgentToken.Not] + InBrackets(a)
    case Binary(op, a, b) => InBrackets(a) + [Operator(OperatorOf(op))] + InBrackets(b)
    case Bracket(a) => InBrackets(a)
  }

  function InBrackets(p: Formula): seq<AgentToken>
    requires HasSyntax(p)
    decreases p, 1
  {
    [OpenPar] + Written(p) + [ClosePar]
  }

  predicate AllSyntax(ps: seq<Formula>) {
    forall i :: 0 <= i < |ps| ==> HasSyntax(ps[i])
  }

  /** The propositions of a node, joined by `&` without brackets. */
  function Joined(ps: seq<Formula>): seq<AgentToken>
    requires AllSyntax(ps)
  {
    if ps == [] then []
    else if |ps| == 1 then Written(ps[0])
    else Joined(ps[..|ps| - 1]) + ([Operator(A.And)] + Written(ps[|ps| - 1]))
  }

  /** A proposition has a spelling if and only if there is no implication in it. */
  lemma {:induction false} HasSyntaxExactly(p: Formula)
    requires IsProposition(p)
    ensures HasSyntax(p) <==> forall q | q in Subformulas(p) :: !(q.Binary? && q.bop == Implies)
  {
    match p
    case Unary(_, a) => HasSyntaxExactly(a);
    case Binary(_, a, b) => HasSyntaxExactly(a); HasSyntaxExactly(b);
    case Bracket(a) => HasSyntaxExactly(a);
    case _ =>
  }

  // ----- reading -----

  predicate IsKeyword(x: string) {
    !Scanned(x).Ident?
  }

  /** Written without surprises: no negative number, which no formula text has, and no keyword of the
      agents as an identifier. */
  predicate Readable(p: Formula) {
    match p
    case Id(x) => !IsKeyword(x)
    case IntValue(n) => n >= 0
    case BoolValue(_) => true
    case Unary(_, a) => Readable(a)
    case Binary(_, a, b) => Readable(a) && Readable(b)
    case Bracket(a) => Readable(a)
  }

  predicate AllReadable(ps: seq<Formula>) {
    forall i :: 0 <= i < |ps| ==> HasSyntax(ps[i]) && Readable(ps[i])
  }

  function ReadOf(p: Formula): A.ValueExp
    requires HasSyntax(p)
  {
    match p
    case Id(x) => A.Variable(x)
    case IntValue(n) => A.Constant(n)
    case BoolValue(b) => A.Constant(if b then 1 else 0)
    case Unary(_, a) => A.Negation(ReadOf(a))
    case Binary(op, a, b) => A.Apply(OperatorOf(op), ReadOf(a), ReadOf(b))
    case Bracket(a) => ReadOf(a)
  }

  /** One more proposition behind `&`: a conjunction or disjunction comes apart, as its operands have
      brackets and it has none. */
  function Attach(acc: A.ValueExp, p: Formula): A.ValueExp
    requires HasSyntax(p)
  {
    if p.Binary? && (p.bop == PropAnd || p.bop == PropOr) then
      A.Apply(OperatorOf(p.bop), A.Apply(A.And, acc, ReadOf(p.left)), ReadOf(p.right))
    else A.Apply(A.And, acc, ReadOf(p))
  }

  function JoinRead(ps: seq<Formula>): A.ValueExp
    requires AllSyntax(ps) && ps != []
  {
    if |ps| == 1 then ReadOf(ps[0]) else Attach(JoinRead(ps[..|ps| - 1]), ps[|ps| - 1])
  }

  /** What may follow a proposition: the end or one of `&` and `|`. */
  predicate Ends(f: seq<AgentToken>) {
    f == [] || !f[0].Operator? || IsLogical(f[0].op)
  }

  lemma Front<T>(x: T, a: seq<T>, f: seq<T>)
    ensures ([x] + a + f)[1..] == a + f && [x] + a + f == [x] + (a + f)
  {
  }

  lemma Middle<T>(a: seq<T>, x: T, b: seq<T>, f: seq<T>)
    ensures a + [x] + b + f == a + ([x] + (b + f)) && ([x] + (b + f))[1..] == b + f
  {
  }

  lemma NothingMore(v: A.ValueExp, f: seq<AgentToken>)
    requires Ends(f)
    ensures TermLeft(v, f) == SumLeft(v, f) == CompareLeft(v, f) == Some(Read(v, f))
  {
  }

  /** A unary expression up to `&` or `|` is all of the comparison. */
  lemma UnaryIsAll(ts: seq<AgentToken>, v: A.ValueExp, f: seq<AgentToken>)
    requires UnaryExp(ts) == Some(Read(v, f)) && Ends(f)
    ensures Term(ts) == SumExp(ts) == CompareExp(ts) == Some(Read(v, f))
  {
    NothingMore(v, f);
    assert Term(ts) == TermLeft(v, f);
    assert SumExp(ts) == SumLeft(v, f);
  }

  lemma {:induction false} ReadBracketed(p: Formula, f: seq<AgentToken>)
    requires HasSyntax(p) && Readable(p)
    ensures UnaryExp(InBrackets(p) + f) == Some(Read(ReadOf(p), f))
    decreases p, 3
  {
    var after := [ClosePar] + f;
    ReadFirst(p, after);
    assert InBrackets(p) + f == [OpenPar] + (Written(p) + after);
    assert ([OpenPar] + (Written(p) + after))[1..] == Written(p) + after;
    assert after[1..] == f;
    assert BoolLeft(ReadOf(p), after) == Some(Read(ReadOf(p), after));
  }

  /** A bracketed operand, up to `&` or `|`. */
  lemma {:induction false} ReadOperand(p: Formula, f: seq<AgentToken>)
    requires HasSyntax(p) && Readable(p) && Ends(f)
    ensures CompareExp(InBrackets(p) + f) == Some(Read(ReadOf(p), f))
    decreases p, 4
  {
    ReadBracketed(p, f);
    UnaryIsAll(InBrackets(p) + f, ReadOf(p), f);
  }

  /** A proposition that is no conjunction or disjunction is read as a whole. */
  lemma {:induction false} ReadPlain(p: Formula, f: seq<AgentToken>)
    requires HasSyntax(p) && Readable(p) && Ends(f) && !(p.Binary? && (p.bop == PropAnd || p.bop == PropOr))
    ensures CompareExp(Written(p) + f) == Some(Read(ReadOf(p), f))
    decreases p, 1
  {
    if p.Binary? {
      ReadBinary(p, f);
    } else {
      ReadSingle(p, f);
      UnaryIsAll(Written(p) + f, ReadOf(p), f);
    }
  }

  lemma {:induction false} ReadBinary(p: Formula, f: seq<AgentToken>)
    requires HasSyntax(p) && Readable(p) && Ends(f) && p.Binary? && p.bop != PropAnd && p.bop != PropOr
    ensures CompareExp(Written(p) + f) == Some(Read(ReadOf(p), f))
    decreases p, 0
  {
    var o, x, y := OperatorOf(p.bop), InBrackets(p.left), InBrackets(p.right);
    ReadBracketed(p.left, [Operator(o)] + (y + f));
    ReadBracketed(p.right, f);
    ReadChain(x, y, ReadOf(p.left), o, ReadOf(p.right), f);
    Middle(x, Operator(o), y, f);
  }

  lemma {:induction false} ReadSingle(p: Formula, f: seq<AgentToken>)
    requires HasSyntax(p) && Readable(p) && !p.Binary?
    ensures UnaryExp(Written(p) + f) == Some(Read(ReadOf(p), f))
    decreases p, 0
  {
    if p.Unary? {
      ReadBracketed(p.arg, f);
      Front(AgentToken.Not, InBrackets(p.arg), f);
    } else if p.Bracket? {
      ReadBracketed(p.inner, f);
    } else {
      assert (Written(p) + f)[1..] == f;
    }
  }

  lemma ReadChain(x: seq<AgentToken>, y: seq<AgentToken>, a: A.ValueExp, o: A.ValueOp, b: A.ValueExp,
                  f: seq<AgentToken>)
    requires IsAdditive(o) || IsComparison(o)
    requires var after := [Operator(o)] + (y + f); UnaryExp(x + after) == Some(Read(a, after))
    requires UnaryExp(y + f) == Some(Read(b, f)) && Ends(f)
    ensures CompareExp(x + ([Operator(o)] + (y + f))) == Some(Read(A.Apply(o, a, b), f))
  {
    var ts, after := x + ([Operator(o)] + (y + f)), [Operator(o)] + (y + f);
    var v := A.Apply(o, a, b);
    assert after[1..] == y + f;
    UnaryIsAll(y + f, b, f);
    NothingMore(v, f);
    assert Term(ts) == TermLeft(a, after) == Some(Read(a, after));
    assert SumExp(ts) == SumLeft(a, after);
    if IsAdditive(o) {
      assert SumLeft(a, after) == SumLeft(v, f);
    } else {
      assert SumLeft(a, after) == Some(Read(a, after));
      assert CompareLeft(a, after) == CompareLeft(v, f);
    }
  }

  /** The first proposition, or the only one, also inside brackets. */
  lemma {:induction false} ReadFirst(p: Formula, f: seq<AgentToken>)
    requires HasSyntax(p) && Readable(p) && Ends(f)
    ensures BoolExp(Written(p) + f) == BoolLeft(ReadOf(p), f)
    decreases p, 2
  {
    if p.Binary? && (p.bop == PropAnd || p.bop == PropOr) {
      var o := OperatorOf(p.bop);
      Middle(InBrackets(p.left), Operator(o), InBrackets(p.right), f);
      ReadOperand(p.left, [Operator(o)] + (InBrackets(p.right) + f));
      ReadOperand(p.right, f);
    } else {
      ReadPlain(p, f);
    }
  }

  /** A further proposition comes apart at its own `&` or `|`. */
  lemma ReadFurther(acc: A.ValueExp, p: Formula, f: seq<AgentToken>)
    requires HasSyntax(p) && Readable(p) && Ends(f)
    ensures BoolLeft(acc, [Operator(A.And)] + (Written(p) + f)) == BoolLeft(Attach(acc, p), f)
  {
    assert ([Operator(A.And)] + (Written(p) + f))[1..] == Written(p) + f;
    if p.Binary? && (p.bop == PropAnd || p.bop == PropOr) {
      var o := OperatorOf(p.bop);
      var after := [Operator(o)] + (InBrackets(p.right) + f);
      Middle(InBrackets(p.left), Operator(o), InBrackets(p.right), f);
      ReadOperand(p.left, after);
      ReadOperand(p.right, f);
      assert BoolLeft(acc, [Operator(A.And)] + (Written(p) + f)) ==
        BoolLeft(A.Apply(A.And, acc, ReadOf(p.left)), after);
    } else {
      ReadPlain(p, f);
    }
  }

  /** What the parser makes of the joined propositions. */
  lemma {:induction false} ReadJoined(ps: seq<Formula>, f: seq<AgentToken>)
    requires AllReadable(ps) && ps != [] && Ends(f)
    ensures BoolExp(Joined(ps) + f) == BoolLeft(JoinRead(ps), f)
    decreases |ps|
  {
    var n := |ps| - 1;
    if n == 0 {
      ReadFirst(ps[0], f);
    } else {
      var after := [Operator(A.And)] + (Written(ps[n]) + f);
      ReadJoined(ps[..n], after);
      assert Joined(ps) + f == Joined(ps[..n]) + after;
      ReadFurther(JoinRead(ps[..n]), ps[n], f);
    }
  }

  // ----- what the test means -----

  /** The value of an expression whose variables have the values of the state. */
  function ValueIn(v: A.ValueExp, s: State): Option<int> {
    match v
    case Constant(n) => Some(n)
    case Variable(x) => Some(s(x))
    case Negation(a) =>
      var x := ValueIn(a, s);
      if x.None? then None else Some(AsInt(x.value == 0))
    case Apply(op, l, r) =>
      var x, y := ValueIn(l, s), ValueIn(r, s);
      if x.None? || y.None? then None else Machine.ApplyOp(op, x.value, y.value)
  }

  function Names(v: A.ValueExp): set<string> {
    match v
    case Constant(_) => {}
    case Variable(x) => {x}
    case Negation(a) => Names(a)
    case Apply(_, l, r) => Names(l) + Names(r)
  }

  /** The interpreter computes this value in every environment that binds the variables so. */
  lemma {:induction false} EvalIsValueIn(v: A.ValueExp, env: A.Env, s: State)
    requires forall x | x in Names(v) :: Machine.ValueOf(x, env) == Some(s(x))
    ensures Machine.EvalVal(v, env) == ValueIn(v, s)
  {
    match v
    case Negation(a) => EvalIsValueIn(a, env, s);
    case Apply(_, l, r) => EvalIsValueIn(l, env, s); EvalIsValueIn(r, env, s);
    case _ =>
  }

  lemma {:induction false} ReadOfValue(p: Formula, s: State)
    requires HasSyntax(p)
    ensures ValueIn(ReadOf(p), s) == Some(Value(p, s))
  {
    match p
    case Unary(_, a) => ReadOfValue(a, s);
    case Binary(_, a, b) => ReadOfValue(a, s); ReadOfValue(b, s);
    case Bracket(a) => ReadOfValue(a, s);
    case _ =>
  }

  predicate IsOr(p: Formula) {
    p.Binary? && p.bop == PropOr
  }

  /** The test as it is read, from left to right: a later disjunction takes everything before it as a
      part of its left operand. */
  function TestHolds(ps: seq<Formula>, s: State): bool {
    if ps == [] then true
    else if |ps| == 1 then Value(ps[0], s) != 0
    else
      var before, p := TestHolds(ps[..|ps| - 1], s), ps[|ps| - 1];
      if IsOr(p) then (before && Value(p.left, s) != 0) || Value(p.right, s) != 0 else before && Value(p, s) != 0
  }

  /** The expression that is read has the value of the test. */
  lemma {:induction false} JoinReadValue(ps: seq<Formula>, s: State)
    requires AllSyntax(ps) && ps != []
    ensures ValueIn(JoinRead(ps), s).Some? && (ValueIn(JoinRead(ps), s).value != 0 <==> TestHolds(ps, s))
    decreases |ps|
  {
    var p := ps[|ps| - 1];
    ReadOfValue(p, s);
    if |ps| > 1 {
      JoinReadValue(ps[..|ps| - 1], s);
      if p.Binary? && (p.bop == PropAnd || p.bop == PropOr) {
        ReadOfValue(p.left, s);
        ReadOfValue(p.right, s);
      }
    }
  }

  predicate AllHold(ps: seq<Formula>, s: State) {
    forall p | p in ps :: Value(p, s) != 0
  }

  /** A disjunction after the first place whose right operand holds, and all that follows it holds. */
  predicate Rescues(ps: seq<Formula>, j: int, s: State) {
    0 < j < |ps| && IsOr(ps[j]) && Value(ps[j].right, s) != 0 && AllHold(ps[j + 1..], s)
  }

  lemma AllHoldLast(ps: seq<Formula>, s: State)
    requires ps != []
    ensures AllHold(ps, s) <==> AllHold(ps[..|ps| - 1], s) && Value(ps[|ps| - 1], s) != 0
  {
    assert ps == ps[..|ps| - 1] + [ps[|ps| - 1]];
  }

  lemma RescuesLast(ps: seq<Formula>, j: int, s: State)
    requires 0 < j < |ps| - 1
    ensures Rescues(ps, j, s) <==> Rescues(ps[..|ps| - 1], j, s) && Value(ps[|ps| - 1], s) != 0
  {
    var tail := ps[j + 1..];
    AllHoldLast(tail, s);
    assert tail[..|tail| - 1] == ps[..|ps| - 1][j + 1..];
  }

  /** Exactly when the test passes: all propositions hold, or a later disjunction rescues it. */
  lemma {:induction false} TestHoldsExactly(ps: seq<Formula>, s: State)
    ensures TestHolds(ps, s) <==> AllHold(ps, s) || exists j :: Rescues(ps, j, s)
    decreases |ps|
  {
    if |ps| > 1 {
      var n := |ps| - 1;
      var p := ps[n];
      var front := ps[..n];
      TestHoldsExactly(front, s);
      AllHoldLast(ps, s);
      assert AllHold(ps[n + 1..], s);
      if TestHolds(ps, s) && !AllHold(ps, s) {
        if IsOr(p) && Value(p.right, s) != 0 {
          assert Rescues(ps, n, s);
        } else {
          var j :| Rescues(front, j, s);
          RescuesLast(ps, j, s);
        }
      }
      if j :| Rescues(ps, j, s) {
        if j < n { RescuesLast(ps, j, s); }
      }
    } else if |ps| == 1 {
      assert ps == [ps[0]];
    }
  }

  /** The test is the conjunction of the propositions if and only if nothing rescues a failing one. */
  lemma TestIsConjunctionExactly(ps: seq<Formula>)
    ensures (forall s :: TestHolds(ps, s) == AllHold(ps, s)) <==> (forall s, j :: Rescues(ps, j, s) ==> AllHold(ps, s))
  {
    forall s ensures TestHolds(ps, s) <==> AllHold(ps, s) || exists j :: Rescues(ps, j, s) {
      TestHoldsExactly(ps, s);
    }
  }

  /** No disjunction after the first place. */
  predicate NoLaterOr(ps: seq<Formula>) {
    forall j :: 0 < j < |ps| ==> !IsOr(ps[j])
  }

  lemma NoLaterOrIsConjunction(ps: seq<Formula>, s: State)
    requires NoLaterOr(ps)
    ensures TestHolds(ps, s) == AllHold(ps, s)
  {
    TestHoldsExactly(ps, s);
  }
}
