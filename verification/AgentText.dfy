/** Agents as the parser builds them and the tokens the unparser writes for them
    (operand, val_exp and bool_exp in src/print/print.c). */
module AgentText {
  import opened Agents

  /** Parameters and arguments are kept in the order of the lists, which is the reverse of the text. */
  datatype Syntax =
    | Nothing
    | Input(channel: string, params: seq<ValueExp>, body: Syntax)
    | Output(channel: string, args: seq<ValueExp>, body: Syntax)
    | Choice(left: Syntax, right: Syntax)
    | Parallel(left: Syntax, right: Syntax)
    | Conditional(condition: ValueExp, left: Syntax, right: Syntax)
    | Call(name: string, args: seq<ValueExp>)
    | Closure(body: Syntax)

  datatype AgentToken =
    | Number(value: nat)
    | Truth(holds: bool)
    | Ident(name: string)
    | Operator(op: ValueOp)
    | Not
    | OpenPar
    | ClosePar
    | Comma
    | Colon
    | Tilde
    | SumSign
    | ComSign
    | IfWord
    | DefineWord
    | Keyword(word: string)

  predicate IsAdditive(op: ValueOp) { op == Plus || op == Minus }

  predicate IsMultiplicative(op: ValueOp) { op == Times || op == Divide || op == Modulo }

  predicate IsArithmetic(op: ValueOp) { IsAdditive(op) || IsMultiplicative(op) }

  predicate IsLogical(op: ValueOp) { op == Or || op == And }

  predicate IsComparison(op: ValueOp) { !IsArithmetic(op) && !IsLogical(op) }

  // ----- what the unparser writes -----

  /** val_exp and bool_exp: brackets around comparisons, conjunctions and disjunctions only. */
  function ValueText(v: ValueExp): seq<AgentToken> {
    match v
    case Constant(n) => if n >= 0 then [Number(n)] else []
    case Variable(x) => [Ident(x)]
    case Negation(a) => [Not] + ValueText(a)
    case Apply(op, l, r) =>
      if IsArithmetic(op) then ValueText(l) + [Operator(op)] + ValueText(r)
      else [OpenPar] + ValueText(l) + [Operator(op)] + ValueText(r) + [ClosePar]
  }

  /** Whether val_exp, or bool_exp, has a case for the expression; otherwise there is a fatal error.
      Constants that were read are not negative. */
  predicate Prints(v: ValueExp, asBool: bool) {
    match v
    case Constant(n) => n >= 0
    case Variable(_) => true
    case Negation(a) => Prints(a, true)
    case Apply(op, l, r) =>
      if IsLogical(op) then Prints(l, true) && Prints(r, true)
      else asBool == IsComparison(op) && Prints(l, false) && Prints(r, false)
  }

  predicate AllPrint(vs: seq<ValueExp>) {
    forall i :: 0 <= i < |vs| ==> Prints(vs[i], false)
  }

  /** val_exp_ls2: the list from its end, each with a comma. */
  function WithCommas(vs: seq<ValueExp>): seq<AgentToken> {
    if vs == [] then [] else WithCommas(vs[1..]) + ValueText(vs[0]) + [Comma]
  }

  /** val_exp_ls and val_var_ls */
  function ListText(vs: seq<ValueExp>): seq<AgentToken> {
    if vs == [] then [] else [OpenPar] + WithCommas(vs[1..]) + ValueText(vs[0]) + [ClosePar]
  }

  /** operand: every agent in brackets. */
  function Text(a: Syntax): seq<AgentToken>
    decreases a, 1
  {
    [OpenPar] + Inside(a) + [ClosePar]
  }

  function Inside(a: Syntax): seq<AgentToken>
    decreases a, 0
  {
    match a
    case Nothing => []
    case Input(c, ps, b) => [Ident(c)] + ListText(ps) + [Colon] + Text(b)
    case Output(c, vs, b) => [Tilde, Ident(c)] + ListText(vs) + [Colon] + Text(b)
    case Choice(l, r) => Text(l) + [SumSign] + Text(r)
    case Parallel(l, r) => Text(l) + [ComSign] + Text(r)
    case Conditional(v, l, r) => [IfWord, OpenPar] + ValueText(v) + [ClosePar] + Text(l) + Text(r)
    case Call(n, vs) => [Ident(n)] + ListText(vs)
    case Closure(b) => Text(b)
  }

  /** Of a parameter only the first token is written, so it has to be a single one. */
  predicate SingleTokens(ps: seq<ValueExp>) {
    forall i :: 0 <= i < |ps| ==> ps[i].Variable? || (ps[i].Constant? && ps[i].value >= 0)
  }

  predicate Printable(a: Syntax) {
    match a
    case Nothing => true
    case Input(_, ps, b) => SingleTokens(ps) && Printable(b)
    case Output(_, vs, b) => AllPrint(vs) && Printable(b)
    case Choice(l, r) => Printable(l) && Printable(r)
    case Parallel(l, r) => Printable(l) && Printable(r)
    case Conditional(v, l, r) => Prints(v, true) && Printable(l) && Printable(r)
    case Call(_, vs) => AllPrint(vs)
    case Closure(b) => Printable(b)
  }

  // ----- nesting that needs no brackets -----

  function Level(v: ValueExp): nat {
    if v.Apply? && IsAdditive(v.op) then 0 else if v.Apply? && IsMultiplicative(v.op) then 1 else 2
  }

  /** Sums and products associate to the left, no sum stands in a product, and neither is negated. */
  predicate WellNested(v: ValueExp) {
    match v
    case Constant(_) => true
    case Variable(_) => true
    case Negation(a) => WellNested(a) && Level(a) == 2
    case Apply(op, l, r) =>
      WellNested(l) && WellNested(r) && (IsArithmetic(op) ==> Level(v) <= Level(l) && Level(v) < Level(r))
  }

  predicate AllWellNested(vs: seq<ValueExp>) {
    forall i :: 0 <= i < |vs| ==> WellNested(vs[i])
  }

  /** Every expression is well nested, and no closure is left. */
  predicate Faithful(a: Syntax) {
    match a
    case Nothing => true
    case Input(_, ps, b) => Faithful(b)
    case Output(_, vs, b) => AllWellNested(vs) && Faithful(b)
    case Choice(l, r) => Faithful(l) && Faithful(r)
    case Parallel(l, r) => Faithful(l) && Faithful(r)
    case Conditional(v, l, r) => WellNested(v) && Faithful(l) && Faithful(r)
    case Call(_, vs) => AllWellNested(vs)
    case Closure(_) => false
  }

  // ----- the expression that is read back -----

  /** An operator with its right operand. */
  datatype Item = Item(op: ValueOp, operand: ValueExp)

  /** The operands of sums and products in the order of the text: the first one. */
  function FirstOperand(v: ValueExp): ValueExp
    decreases v, 0
  {
    match v
    case Apply(op, l, r) => if IsArithmetic(op) then FirstOperand(l) else Apply(op, Regrouped(l), Regrouped(r))
    case Negation(a) => Negation(Regrouped(a))
    case _ => v
  }

  /** ... and the others. */
  function OtherOperands(v: ValueExp): seq<Item>
    decreases v, 0
  {
    if v.Apply? && IsArithmetic(v.op) then
      OtherOperands(v.left) + [Item(v.op, FirstOperand(v.right))] + OtherOperands(v.right)
    else []
  }

  /** The products at the front, to the left. */
  function TakeTerm(t: ValueExp, items: seq<Item>): (ValueExp, seq<Item>)
    decreases |items|
  {
    if items == [] || !IsMultiplicative(items[0].op) then (t, items)
    else TakeTerm(Apply(items[0].op, t, items[0].operand), items[1..])
  }

  lemma {:induction false} TakeTermShrinks(t: ValueExp, items: seq<Item>)
    ensures |TakeTerm(t, items).1| <= |items|
    decreases |items|
  {
    if !(items == [] || !IsMultiplicative(items[0].op)) {
      TakeTermShrinks(Apply(items[0].op, t, items[0].operand), items[1..]);
    }
  }

  /** The sums of products, to the left; what follows is left over. */
  function TakeSum(t: ValueExp, items: seq<Item>): (ValueExp, seq<Item>)
    decreases |items|
  {
    if items == [] || !IsAdditive(items[0].op) then (t, items)
    else
      var (u, rest) := TakeTerm(items[0].operand, items[1..]);
      TakeTermShrinks(items[0].operand, items[1..]);
      TakeSum(Apply(items[0].op, t, u), rest)
  }

  /** The expression with the same text that nests as the parser reads it. */
  function Regrouped(v: ValueExp): ValueExp
    decreases v, 1
  {
    var (t, rest) := TakeTerm(FirstOperand(v), OtherOperands(v));
    TakeSum(t, rest).0
  }

  function AllRegrouped(vs: seq<ValueExp>): seq<ValueExp> {
    seq(|vs|, i requires 0 <= i < |vs| => Regrouped(vs[i]))
  }

  function ReadBack(a: Syntax): Syntax {
    match a
    case Nothing => a
    case Input(c, ps, b) => Input(c, ps, ReadBack(b))
    case Output(c, vs, b) => Output(c, AllRegrouped(vs), ReadBack(b))
    case Choice(l, r) => Choice(ReadBack(l), ReadBack(r))
    case Parallel(l, r) => Parallel(ReadBack(l), ReadBack(r))
    case Conditional(v, l, r) => Conditional(Regrouped(v), ReadBack(l), ReadBack(r))
    case Call(n, vs) => Call(n, AllRegrouped(vs))
    case Closure(b) => ReadBack(b)
  }
}
