/** The parser and the unparser as they run: every parsing procedure advances a shared lookahead, every
    printing procedure appends to a shared buffer (src/parse/parse.c, src/print/print.c). */
module AgentReader {
  import opened Wrappers
  import opened Agents
  import opened AgentText
  import opened AgentParser
  import opened AgentBuffer
  import opened AgentRoundTrip

  /** The scanner: the lookahead is the first token that is left. */
  class Scanner {
    var rest: seq<AgentToken>

    constructor (ts: seq<AgentToken>)
      ensures rest == ts
    {
      rest := ts;
    }

    predicate At(t: AgentToken)
      reads this
    {
      Starts(rest, t)
    }

    method Advance()
      requires rest != []
      modifies this
      ensures rest == old(rest)[1..]
    {
      rest := rest[1..];
    }

    /** Takes the expected token; false is a syntax error. */
    method Expect(t: AgentToken) returns (ok: bool)
      modifies this
      ensures ok <==> Starts(old(rest), t)
      ensures rest == if ok then old(rest)[1..] else old(rest)
    {
      ok := At(t);
      if ok { rest := rest[1..]; }
    }
  }

  /** The procedure returned r and left rest, as the parsing function e says; after an error nothing is
      said about the lookahead. */
  predicate Agrees<T(==)>(e: Option<Read<T>>, r: Option<T>, rest: seq<AgentToken>) {
    match e
    case None => r.None?
    case Some(x) => r == Some(x.result) && rest == x.rest
  }

  // ----- value expressions -----

  method ReadFact(s: Scanner) returns (r: Option<ValueExp>)
    modifies s
    ensures Agrees(Fact(old(s.rest)), r, s.rest)
    decreases |s.rest|, 0
  {
    if s.rest == [] { return None; }
    var lah := s.rest[0];
    match lah
    case Number(n) => s.Advance(); r := Some(Constant(n));
    case Truth(b) => s.Advance(); r := Some(Constant(if b then 1 else 0));
    case Ident(x) => s.Advance(); r := Some(Variable(x));
    case OpenPar =>
      s.Advance();
      r := ReadBoolExp(s);
      if r.Some? {
        var ok := s.Expect(ClosePar);
        if !ok { r := None; }
      }
    case _ => r := None;
  }

  method ReadUnaryExp(s: Scanner) returns (r: Option<ValueExp>)
    modifies s
    ensures Agrees(UnaryExp(old(s.rest)), r, s.rest)
    decreases |s.rest|, 1
  {
    if s.At(Not) {
      s.Advance();
      r := ReadUnaryExp(s);
      if r.Some? { r := Some(Negation(r.value)); }
    } else {
      r := ReadFact(s);
    }
  }

  method ReadTermLeft(left: ValueExp, s: Scanner) returns (r: Option<ValueExp>)
    modifies s
    ensures Agrees(TermLeft(left, old(s.rest)), r, s.rest)
    decreases |s.rest|, 2
  {
    if s.rest != [] && s.rest[0].Operator? && IsMultiplicative(s.rest[0].op) {
      var op := s.rest[0].op;
      s.Advance();
      r := ReadUnaryExp(s);
      if r.Some? { r := ReadTermLeft(Apply(op, left, r.value), s); }
    } else {
      r := Some(left);
    }
  }

  method ReadTerm(s: Scanner) returns (r: Option<ValueExp>)
    modifies s
    ensures Agrees(Term(old(s.rest)), r, s.rest)
    decreases |s.rest|, 3
  {
    r := ReadUnaryExp(s);
    if r.Some? { r := ReadTermLeft(r.value, s); }
  }

  method ReadSumLeft(left: ValueExp, s: Scanner) returns (r: Option<ValueExp>)
    modifies s
    ensures Agrees(SumLeft(left, old(s.rest)), r, s.rest)
    decreases |s.rest|, 4
  {
    if s.rest != [] && s.rest[0].Operator? && IsAdditive(s.rest[0].op) {
      var op := s.rest[0].op;
      s.Advance();
      r := ReadTerm(s);
      if r.Some? { r := ReadSumLeft(Apply(op, left, r.value), s); }
    } else {
      r := Some(left);
    }
  }

  method ReadSumExp(s: Scanner) returns (r: Option<ValueExp>)
    modifies s
    ensures Agrees(SumExp(old(s.rest)), r, s.rest)
    decreases |s.rest|, 5
  {
    r := ReadTerm(s);
    if r.Some? { r := ReadSumLeft(r.value, s); }
  }

  method ReadCompareLeft(left: ValueExp, s: Scanner) returns (r: Option<ValueExp>)
    modifies s
    ensures Agrees(CompareLeft(left, old(s.rest)), r, s.rest)
    decreases |s.rest|, 6
  {
    if s.rest != [] && s.rest[0].Operator? && IsComparison(s.rest[0].op) {
      var op := s.rest[0].op;
      s.Advance();
      r := ReadSumExp(s);
      if r.Some? { r := ReadCompareLeft(Apply(op, left, r.value), s); }
    } else {
      r := Some(left);
    }
  }

  method ReadCompareExp(s: Scanner) returns (r: Option<ValueExp>)
    modifies s
    ensures Agrees(CompareExp(old(s.rest)), r, s.rest)
    decreases |s.rest|, 7
  {
    r := ReadSumExp(s);
    if r.Some? { r := ReadCompareLeft(r.value, s); }
  }

  method ReadBoolLeft(left: ValueExp, s: Scanner) returns (r: Option<ValueExp>)
    modifies s
    ensures Agrees(BoolLeft(left, old(s.rest)), r, s.rest)
    decreases |s.rest|, 8
  {
    if s.rest != [] && s.rest[0].Operator? && IsLogical(s.rest[0].op) {
      var op := s.rest[0].op;
      s.Advance();
      r := ReadCompareExp(s);
      if r.Some? { r := ReadBoolLeft(Apply(op, left, r.value), s); }
    } else {
      r := Some(left);
    }
  }

  method ReadBoolExp(s: Scanner) returns (r: Option<ValueExp>)
    modifies s
    ensures Agrees(BoolExp(old(s.rest)), r, s.rest)
    decreases |s.rest|, 9
  {
    r := ReadCompareExp(s);
    if r.Some? { r := ReadBoolLeft(r.value, s); }
  }

  method ReadValuesLeft(vs: seq<ValueExp>, s: Scanner) returns (r: Option<seq<ValueExp>>)
    modifies s
    ensures Agrees(ValuesLeft(vs, old(s.rest)), r, s.rest)
    decreases |s.rest|
  {
    if s.At(Comma) {
      s.Advance();
      var v := ReadBoolExp(s);
      if v.None? { return None; }
      r := ReadValuesLeft([v.value] + vs, s);
    } else {
      r := Some(vs);
    }
  }

  method ReadValues(s: Scanner) returns (r: Option<seq<ValueExp>>)
    modifies s
    ensures Agrees(Values(old(s.rest)), r, s.rest)
  {
    var v := ReadBoolExp(s);
    if v.None? { return None; }
    r := ReadValuesLeft([v.value], s);
  }

  method ReadBracketedValues(s: Scanner) returns (r: Option<seq<ValueExp>>)
    modifies s
    ensures Agrees(BracketedValues(old(s.rest)), r, s.rest)
  {
    if s.At(OpenPar) {
      s.Advance();
      r := ReadValues(s);
      if r.Some? {
        var ok := s.Expect(ClosePar);
        if !ok { r := None; }
      }
    } else {
      r := Some([]);
    }
  }

  // ----- agents -----

  method ReadAgentFact(s: Scanner) returns (r: Option<Syntax>)
    modifies s
    ensures Agrees(AgentFact(old(s.rest)), r, s.rest)
    decreases |s.rest|, 0
  {
    var ok := s.Expect(OpenPar);
    if !ok { return None; }
    ok := s.Expect(ClosePar);
    if ok { return Some(Nothing); }
    r := ReadAgentExp(s);
    if r.Some? {
      ok := s.Expect(ClosePar);
      if !ok { r := None; }
    }
  }

  method ReadOutput(s: Scanner) returns (r: Option<Syntax>)
    modifies s
    ensures Agrees(OutputAgent(old(s.rest)), r, s.rest)
    decreases |s.rest|, 1
  {
    if s.rest == [] || !s.rest[0].Ident? { return None; }
    var name := s.rest[0].name;
    s.Advance();
    var vs := ReadBracketedValues(s);
    if vs.None? { return None; }
    var ok := s.Expect(Colon);
    if !ok { return None; }
    r := ReadUnaryAgent(s);
    if r.Some? { r := Some(Output(name, vs.value, r.value)); }
  }

  method ReadNamed(name: string, s: Scanner) returns (r: Option<Syntax>)
    modifies s
    ensures Agrees(NamedAgent(name, old(s.rest)), r, s.rest)
    decreases |s.rest|, 1
  {
    var vs := ReadBracketedValues(s);
    if vs.None? { return None; }
    if s.At(Colon) {
      s.Advance();
      r := ReadUnaryAgent(s);
      if r.Some? { r := Some(Input(name, vs.value, r.value)); }
    } else {
      r := Some(Call(name, vs.value));
    }
  }

  method ReadUnaryAgent(s: Scanner) returns (r: Option<Syntax>)
    modifies s
    ensures Agrees(UnaryAgent(old(s.rest)), r, s.rest)
    decreases |s.rest|, 2
  {
    if s.rest == [] { return None; }
    var lah := s.rest[0];
    match lah
    case Ident(name) => s.Advance(); r := ReadNamed(name, s);
    case Tilde => s.Advance(); r := ReadOutput(s);
    case _ => r := ReadAgentFact(s);
  }

  method ReadBinaryLeft(left: Syntax, s: Scanner) returns (r: Option<Syntax>)
    modifies s
    ensures Agrees(BinaryLeft(left, old(s.rest)), r, s.rest)
    decreases |s.rest|, 3
  {
    if s.At(SumSign) || s.At(ComSign) {
      var sign := s.rest[0];
      s.Advance();
      r := ReadUnaryAgent(s);
      if r.Some? { r := ReadBinaryLeft(if sign == SumSign then Choice(left, r.value) else Parallel(left, r.value), s); }
    } else if s.At(Colon) || s.At(Tilde) {
      r := None;
    } else {
      r := Some(left);
    }
  }

  method ReadAgentExp(s: Scanner) returns (r: Option<Syntax>)
    modifies s
    ensures Agrees(AgentExp(old(s.rest)), r, s.rest)
    decreases |s.rest|, 4
  {
    if s.At(IfWord) {
      s.Advance();
      r := ReadIf(s);
    } else {
      r := ReadUnaryAgent(s);
      if r.Some? { r := ReadBinaryLeft(r.value, s); }
    }
  }

  /** The conditional, after its keyword. */
  method ReadIf(s: Scanner) returns (r: Option<Syntax>)
    modifies s
    ensures Agrees(IfAgent(old(s.rest)), r, s.rest)
    decreases |s.rest|, 4
  {
    var ok := s.Expect(OpenPar);
    if !ok { return None; }
    var v := ReadBoolExp(s);
    if v.None? { return None; }
    ok := s.Expect(ClosePar);
    if !ok { return None; }
    var l := ReadAgentExp(s);
    if l.None? { return None; }
    r := ReadAgentExp(s);
    if r.Some? { r := Some(Conditional(v.value, l.value, r.value)); }
  }

  // ----- definitions -----

  /** One definition without parameters, in brackets. */
  method ReadDefinition(s: Scanner) returns (r: Option<Definition>)
    modifies s
    ensures Agrees(DefinitionExp(old(s.rest)), r, s.rest)
  {
    r := None;
    if |s.rest| < 5 || !s.rest[2].Ident? { return; }
    var name := s.rest[2].name;
    if !s.At(OpenPar) || s.rest[1] != DefineWord || s.rest[3] != OpenPar || s.rest[4] != ClosePar { return; }
    s.rest := s.rest[5..];
    var body := ReadAgentExp(s);
    if body.None? { return; }
    var ok := s.Expect(ClosePar);
    if ok { r := Some(Definition(name, body.value)); }
  }

  /** All definitions of the text. */
  method ReadProgram(s: Scanner) returns (r: Option<seq<Definition>>)
    modifies s
    ensures r == Program(old(s.rest))
    decreases |s.rest|
  {
    if s.rest == [] { return Some([]); }
    var first := ReadDefinition(s);
    if first.None? { return None; }
    var others := ReadProgram(s);
    r := if others.None? then None else Some([first.value] + others.value);
  }

  // ----- printing -----

  /** val_exp and bool_exp */
  method PrintValue(b: Buffer, v: ValueExp, ghost asBool: bool)
    requires Prints(v, asBool)
    modifies b
    ensures b.text == old(b.text) + ValueText(v)
    decreases v, 1
  {
    match v
    case Constant(n) => b.Put(Number(n));
    case Variable(x) => b.Put(Ident(x));
    case Negation(a) =>
      b.Put(Not);
      PrintValue(b, a, true);
    case Apply(op, l, r) =>
      if IsArithmetic(op) {
        PrintOperands(b, v);
      } else {
        b.Put(OpenPar);
        PrintOperands(b, v);
        b.Put(ClosePar);
        Join5(old(b.text), [OpenPar], ValueText(l), [Operator(op)], ValueText(r), [ClosePar]);
      }
  }

  method PrintOperands(b: Buffer, v: ValueExp)
    requires v.Apply? && Prints(v.left, IsLogical(v.op)) && Prints(v.right, IsLogical(v.op))
    modifies b
    ensures b.text == old(b.text) + ValueText(v.left) + [Operator(v.op)] + ValueText(v.right)
    ensures b.text == old(b.text) + (ValueText(v.left) + [Operator(v.op)] + ValueText(v.right))
    decreases v, 0
  {
    PrintValue(b, v.left, IsLogical(v.op));
    b.Put(Operator(v.op));
    PrintValue(b, v.right, IsLogical(v.op));
    Join3(old(b.text), ValueText(v.left), [Operator(v.op)], ValueText(v.right));
  }

  /** val_exp_ls2 and val_var_ls2 */
  method PrintWithCommas(b: Buffer, vs: seq<ValueExp>)
    requires AllPrint(vs)
    modifies b
    ensures b.text == old(b.text) + WithCommas(vs)
    decreases |vs|
  {
    if vs != [] {
      PrintWithCommas(b, vs[1..]);
      PrintValue(b, vs[0], false);
      b.Put(Comma);
      Join3(old(b.text), WithCommas(vs[1..]), ValueText(vs[0]), [Comma]);
    }
  }

  /** val_exp_ls and val_var_ls */
  method PrintList(b: Buffer, vs: seq<ValueExp>)
    requires AllPrint(vs)
    modifies b
    ensures b.text == old(b.text) + ListText(vs)
  {
    if vs != [] {
      b.Put(OpenPar);
      PrintWithCommas(b, vs[1..]);
      PrintValue(b, vs[0], false);
      b.Put(ClosePar);
      Join4(old(b.text), [OpenPar], WithCommas(vs[1..]), ValueText(vs[0]), [ClosePar]);
    }
  }

  /** operand */
  method PrintAgent(b: Buffer, a: Syntax)
    requires Printable(a)
    modifies b
    ensures b.text == old(b.text) + Text(a)
    decreases a, 2
  {
    b.Put(OpenPar);
    PrintInside(b, a);
    b.Put(ClosePar);
    Join3(old(b.text), [OpenPar], Inside(a), [ClosePar]);
  }

  lemma OutputText(x: seq<AgentToken>, c: string, vs: seq<ValueExp>, k: Syntax)
    ensures x + [Tilde] + Inside(Input(c, vs, k)) == x + Inside(Output(c, vs, k))
  {
    Join4([Tilde], [Ident(c)], ListText(vs), [Colon], Text(k));
    assert [Tilde] + [Ident(c)] == [Tilde, Ident(c)];
    assert Inside(Output(c, vs, k)) == [Tilde] + Inside(Input(c, vs, k));
  }

  lemma CallText(x: seq<AgentToken>, n: string, vs: seq<ValueExp>)
    ensures x + [Ident(n)] + ListText(vs) == x + Inside(Call(n, vs))
  {
  }

  method PrintInside(b: Buffer, a: Syntax)
    requires Printable(a)
    modifies b
    ensures b.text == old(b.text) + Inside(a)
    decreases a, 1
  {
    ghost var x := b.text;
    match a
    case Nothing =>
    case Input(c, ps, k) =>
      PrintPrefixed(b, c, ps, k);
    case Output(c, vs, k) =>
      b.Put(Tilde);
      PrintPrefixed(b, c, vs, k);
      OutputText(x, c, vs, k);
    case Choice(_, _) => PrintBranches(b, a);
    case Parallel(_, _) => PrintBranches(b, a);
    case Conditional(_, _, _) => PrintConditional(b, a);
    case Call(n, vs) =>
      b.Put(Ident(n));
      PrintList(b, vs);
      CallText(x, n, vs);
    case Closure(k) => PrintAgent(b, k);
  }

  method PrintPrefixed(b: Buffer, c: string, vs: seq<ValueExp>, k: Syntax)
    requires AllPrint(vs) && Printable(k)
    modifies b
    ensures b.text == old(b.text) + Inside(Input(c, vs, k))
    decreases k, 3
  {
    b.Put(Ident(c));
    PrintList(b, vs);
    b.Put(Colon);
    PrintAgent(b, k);
    Join4(old(b.text), [Ident(c)], ListText(vs), [Colon], Text(k));
  }

  method PrintBranches(b: Buffer, a: Syntax)
    requires Printable(a) && (a.Choice? || a.Parallel?)
    modifies b
    ensures b.text == old(b.text) + Inside(a)
    decreases a, 0
  {
    var sign := if a.Choice? then SumSign else ComSign;
    PrintAgent(b, a.left);
    b.Put(sign);
    PrintAgent(b, a.right);
    Join3(old(b.text), Text(a.left), [sign], Text(a.right));
  }

  method PrintConditional(b: Buffer, a: Syntax)
    requires Printable(a) && a.Conditional?
    modifies b
    ensures b.text == old(b.text) + Inside(a)
    decreases a, 0
  {
    b.Put(IfWord);
    b.Put(OpenPar);
    assert b.text == old(b.text) + [IfWord, OpenPar];
    PrintValue(b, a.condition, true);
    b.Put(ClosePar);
    PrintAgent(b, a.left);
    PrintAgent(b, a.right);
    Join5(old(b.text), [IfWord, OpenPar], ValueText(a.condition), [ClosePar], Text(a.left), Text(a.right));
  }

  // ----- back again -----

  /** Prints an agent and parses what was printed: the agent without closures and with its sums and products
      grouped to the left, which is the same agent exactly when it is faithful. */
  method PrintThenRead(a: Syntax) returns (r: Option<Syntax>)
    requires Printable(a)
    ensures r == Some(ReadBack(a))
    ensures r == Some(a) <==> Faithful(a)
  {
    var b := new Buffer();
    PrintAgent(b, a);
    assert b.text == Text(a);
    var s := new Scanner(b.text);
    r := ReadAgentFact(s);
    RoundTripExactly(a);
  }
}
