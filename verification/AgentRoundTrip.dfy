/** Reading back what the unparser writes. */
module AgentRoundTrip {
  import opened Wrappers
  import opened Agents
  import opened AgentText
  import opened AgentParser
  import Machine

  // ----- well-nested expressions are read back as they are -----

  /** No constant is negative. */
  predicate Readable(v: ValueExp) {
    match v
    case Constant(n) => n >= 0
    case Variable(_) => true
    case Negation(a) => Readable(a)
    case Apply(_, l, r) => Readable(l) && Readable(r)
  }

  lemma Append<T>(a: seq<T>, b: seq<T>, c: seq<T>)
    ensures a + b + c == a + (b + c)
    ensures |a| == 1 ==> (a + b + c)[1..] == b + c
  {
  }

  lemma Regroup4<T>(a: seq<T>, b: seq<T>, c: seq<T>, d: seq<T>)
    ensures a + b + c + d == a + (b + c + d)
  {
  }

  lemma InBrackets(a: seq<AgentToken>, b: seq<AgentToken>, f: seq<AgentToken>)
    ensures ([OpenPar] + a + b + [ClosePar] + f)[1..] == a + b + ([ClosePar] + f)
    ensures ([ClosePar] + f)[1..] == f
  {
  }

  predicate NoOperator(ts: seq<AgentToken>) {
    ts == [] || !ts[0].Operator?
  }

  predicate NoProduct(ts: seq<AgentToken>) {
    ts == [] || !ts[0].Operator? || !IsMultiplicative(ts[0].op)
  }

  lemma {:induction false} ReadUnary(v: ValueExp, f: seq<AgentToken>)
    requires WellNested(v) && Readable(v) && Level(v) == 2
    ensures UnaryExp(ValueText(v) + f) == Some(Read(v, f))
    decreases v, 1
  {
    match v
    case Constant(n) => Append([Number(n)], [], f);
    case Variable(x) => Append([Ident(x)], [], f);
    case Negation(a) => Append([Not], ValueText(a), f); ReadUnary(a, f);
    case Apply(op, l, r) =>
      ReadInside(v, [ClosePar] + f);
      ReadBracketed(ValueText(l) + [Operator(op)] + ValueText(r), v, f);
      Regroup4([OpenPar], ValueText(l), [Operator(op)], ValueText(r));
  }

  lemma ReadBracketed(x: seq<AgentToken>, v: ValueExp, f: seq<AgentToken>)
    requires BoolExp(x + ([ClosePar] + f)) == Some(Read(v, [ClosePar] + f))
    ensures UnaryExp([OpenPar] + x + [ClosePar] + f) == Some(Read(v, f))
  {
    var ts := [OpenPar] + x + [ClosePar] + f;
    InBrackets(x, [], f);
    assert [OpenPar] + x + [] == [OpenPar] + x && x + [] == x;
    assert ts[1..] == x + ([ClosePar] + f);
    assert Fact(ts) == Some(Read(v, f));
  }

  /** The inside of the brackets around a comparison, conjunction or disjunction. */
  lemma {:induction false} ReadInside(v: ValueExp, f: seq<AgentToken>)
    requires v.Apply? && !IsArithmetic(v.op) && WellNested(v) && Readable(v) && NoOperator(f)
    ensures BoolExp(ValueText(v.left) + [Operator(v.op)] + ValueText(v.right) + f) == Some(Read(v, f))
    decreases v, 0
  {
    var l, r := v.left, v.right;
    var ts := ValueText(l) + [Operator(v.op)] + ValueText(r) + f;
    var after := [Operator(v.op)] + (ValueText(r) + f);
    assert ts == ValueText(l) + after;
    assert after[1..] == ValueText(r) + f;
    ReadSum(l, after);
    ReadSum(r, f);
    assert SumExp(ts) == SumLeft(l, after) == Some(Read(l, after));
    assert SumExp(after[1..]) == SumLeft(r, f) == Some(Read(r, f));
    NothingLeft(v, f);
    NothingLeft(r, f);
    assert v == Apply(v.op, l, r) && after[0].op == v.op;
    if IsComparison(v.op) {
      assert CompareExp(ts) == CompareLeft(l, after) == CompareLeft(v, f);
    } else {
      assert CompareExp(ts) == CompareLeft(l, after) == Some(Read(l, after));
      assert CompareExp(after[1..]) == Some(Read(r, f));
      assert BoolLeft(l, after) == BoolLeft(v, f);
    }
  }

  lemma NothingLeft(v: ValueExp, f: seq<AgentToken>)
    requires NoOperator(f)
    ensures SumLeft(v, f) == CompareLeft(v, f) == BoolLeft(v, f) == Some(Read(v, f))
  {
  }

  /** A product is read up to where its text ends. */
  lemma {:induction false} ReadTerm(v: ValueExp, f: seq<AgentToken>)
    requires WellNested(v) && Readable(v) && Level(v) >= 1
    ensures Term(ValueText(v) + f) == TermLeft(v, f)
    decreases v, 2
  {
    if Level(v) == 2 {
      ReadUnary(v, f);
    } else {
      var after := [Operator(v.op)] + (ValueText(v.right) + f);
      assert ValueText(v) + f == ValueText(v.left) + after;
      assert after[1..] == ValueText(v.right) + f;
      ReadTerm(v.left, after);
      ReadUnary(v.right, f);
    }
  }

  lemma {:induction false} ReadSum(v: ValueExp, f: seq<AgentToken>)
    requires WellNested(v) && Readable(v) && NoProduct(f)
    ensures SumExp(ValueText(v) + f) == SumLeft(v, f)
    decreases v, 3
  {
    if Level(v) >= 1 {
      ReadTerm(v, f);
    } else {
      var after := [Operator(v.op)] + (ValueText(v.right) + f);
      assert ValueText(v) + f == ValueText(v.left) + after;
      assert after[1..] == ValueText(v.right) + f;
      ReadSum(v.left, after);
      ReadTerm(v.right, f);
    }
  }

  /** An expression that needs no brackets is read back as it is. */
  lemma ReadValue(v: ValueExp, f: seq<AgentToken>)
    requires WellNested(v) && Readable(v) && NoOperator(f)
    ensures BoolExp(ValueText(v) + f) == Some(Read(v, f))
  {
    ReadSum(v, f);
    NothingLeft(v, f);
  }

  // ----- every printable expression has the text of a well-nested one -----

  lemma Regroup<T>(a: seq<T>, b: seq<T>, c: seq<T>, d: seq<T>)
    ensures a + b + c + d == a + (b + c + d) == a + (b + (c + d))
  {
  }

  function ItemsText(items: seq<Item>): seq<AgentToken> {
    if items == [] then [] else [Operator(items[0].op)] + ValueText(items[0].operand) + ItemsText(items[1..])
  }

  lemma {:induction false} ItemsTextConcat(a: seq<Item>, b: seq<Item>)
    ensures ItemsText(a + b) == ItemsText(a) + ItemsText(b)
  {
    if a == [] {
      assert a + b == b;
    } else {
      ItemsTextConcat(a[1..], b);
      assert (a + b)[0] == a[0] && (a + b)[1..] == a[1..] + b;
      var first := [Operator(a[0].op)] + ValueText(a[0].operand);
      assert ItemsText(a) == first + ItemsText(a[1..]);
      assert ItemsText(a + b) == first + ItemsText(a[1..] + b);
      Append(first, ItemsText(a[1..]), ItemsText(b));
    }
  }

  /** An operand that is read without brackets wherever it stands. */
  predicate IsUnit(v: ValueExp) {
    WellNested(v) && Readable(v) && Level(v) == 2
  }

  predicate AllUnits(items: seq<Item>) {
    forall i :: 0 <= i < |items| ==> IsArithmetic(items[i].op) && IsUnit(items[i].operand)
  }

  lemma OneItemText(op: ValueOp, t: ValueExp, u: ValueExp, items: seq<Item>)
    requires IsArithmetic(op)
    ensures ValueText(Apply(op, t, u)) + ItemsText(items) == ValueText(t) +
            ([Operator(op)] + (ValueText(u) + ItemsText(items)))
  {
    Regroup(ValueText(t), [Operator(op)], ValueText(u), ItemsText(items));
  }

  lemma FirstItemText(items: seq<Item>)
    requires items != []
    ensures ItemsText(items) == [Operator(items[0].op)] + (ValueText(items[0].operand) + ItemsText(items[1..]))
  {
  }

  lemma {:induction false} TakeTermText(t: ValueExp, items: seq<Item>)
    ensures var (u, rest) := TakeTerm(t, items); ValueText(u) + ItemsText(rest) == ValueText(t) + ItemsText(items)
    decreases |items|
  {
    if items != [] && IsMultiplicative(items[0].op) {
      TakeTermText(Apply(items[0].op, t, items[0].operand), items[1..]);
      OneItemText(items[0].op, t, items[0].operand, items[1..]);
      FirstItemText(items);
    }
  }

  lemma {:induction false} TakeTermKeeps(t: ValueExp, items: seq<Item>)
    requires WellNested(t) && Readable(t) && Level(t) >= 1 && AllUnits(items)
    ensures var (u, rest) := TakeTerm(t, items);
            WellNested(u) && Readable(u) && Level(u) >= 1 && AllUnits(rest) && (rest == [] || IsAdditive(rest[0].op))
    decreases |items|
  {
    if items != [] && IsMultiplicative(items[0].op) {
      TakeTermKeeps(Apply(items[0].op, t, items[0].operand), items[1..]);
    }
  }

  lemma {:induction false} TakeSumText(t: ValueExp, items: seq<Item>)
    ensures var (u, rest) := TakeSum(t, items); ValueText(u) + ItemsText(rest) == ValueText(t) + ItemsText(items)
    decreases |items|
  {
    if items != [] && IsAdditive(items[0].op) {
      var (u, rest) := TakeTerm(items[0].operand, items[1..]);
      TakeTermShrinks(items[0].operand, items[1..]);
      TakeTermText(items[0].operand, items[1..]);
      TakeSumText(Apply(items[0].op, t, u), rest);
      OneItemText(items[0].op, t, u, rest);
      FirstItemText(items);
    }
  }

  lemma {:induction false} TakeSumKeeps(t: ValueExp, items: seq<Item>)
    requires WellNested(t) && Readable(t) && AllUnits(items) && (items == [] || IsAdditive(items[0].op))
    ensures var (u, rest) := TakeSum(t, items); WellNested(u) && Readable(u) && rest == []
    decreases |items|
  {
    if items != [] {
      var (u, rest) := TakeTerm(items[0].operand, items[1..]);
      TakeTermShrinks(items[0].operand, items[1..]);
      TakeTermKeeps(items[0].operand, items[1..]);
      TakeSumKeeps(Apply(items[0].op, t, u), rest);
    }
  }

  /** Taking the operands apart keeps the text. */
  lemma {:induction false} SplitText(l: ValueExp, op: ValueOp, r: ValueExp)
    requires IsArithmetic(op)
    requires ValueText(l) == ValueText(FirstOperand(l)) + ItemsText(OtherOperands(l))
    requires ValueText(r) == ValueText(FirstOperand(r)) + ItemsText(OtherOperands(r))
    ensures var v := Apply(op, l, r); ValueText(v) == ValueText(FirstOperand(v)) + ItemsText(OtherOperands(v))
  {
    var v := Apply(op, l, r);
    var more := [Item(op, FirstOperand(r))] + OtherOperands(r);
    assert OtherOperands(v) == OtherOperands(l) + more;
    ItemsTextConcat(OtherOperands(l), more);
    FirstItemText(more);
    assert more[1..] == OtherOperands(r);
    assert ItemsText(more) == [Operator(op)] + ValueText(r);
    var a, b, c, d := ValueText(FirstOperand(l)), ItemsText(OtherOperands(l)), [Operator(op)], ValueText(r);
    Regroup(a, b, c, d);
    assert ValueText(v) == a + b + c + d;
  }

  lemma {:induction false} OperandsKeep(v: ValueExp, asBool: bool)
    requires Prints(v, asBool)
    ensures IsUnit(FirstOperand(v)) && AllUnits(OtherOperands(v))
    ensures ValueText(v) == ValueText(FirstOperand(v)) + ItemsText(OtherOperands(v))
    decreases v, 0
  {
    match v
    case Negation(a) => RegroupedKeeps(a, true);
    case Apply(op, l, r) =>
      if IsArithmetic(op) {
        OperandsKeep(l, false);
        OperandsKeep(r, false);
        SplitText(l, op, r);
      } else {
        RegroupedKeeps(l, IsLogical(op));
        RegroupedKeeps(r, IsLogical(op));
      }
    case _ =>
  }

  /** Regrouping keeps the text and gives an expression that needs no brackets. */
  lemma {:induction false} RegroupedKeeps(v: ValueExp, asBool: bool)
    requires Prints(v, asBool)
    ensures WellNested(Regrouped(v)) && Readable(Regrouped(v)) && ValueText(Regrouped(v)) == ValueText(v)
    ensures asBool ==> Level(Regrouped(v)) == 2
    decreases v, 1
  {
    OperandsKeep(v, asBool);
    TakeTermKeeps(FirstOperand(v), OtherOperands(v));
    TakeTermText(FirstOperand(v), OtherOperands(v));
    var (t, rest) := TakeTerm(FirstOperand(v), OtherOperands(v));
    TakeSumKeeps(t, rest);
    TakeSumText(t, rest);
  }

  // ----- well-nested expressions are not regrouped -----

  predicate NoProductFirst(items: seq<Item>) {
    items == [] || !IsMultiplicative(items[0].op)
  }

  lemma {:induction false} UnitSame(v: ValueExp)
    requires WellNested(v) && Level(v) == 2
    ensures FirstOperand(v) == v && OtherOperands(v) == []
    decreases v, 0
  {
    match v
    case Negation(a) => RegroupedSame(a);
    case Apply(_, l, r) => RegroupedSame(l); RegroupedSame(r);
    case _ =>
  }

  lemma {:induction false} TermSame(v: ValueExp, items: seq<Item>)
    requires WellNested(v) && Level(v) >= 1
    ensures TakeTerm(FirstOperand(v), OtherOperands(v) + items) == TakeTerm(v, items)
    decreases v, 1
  {
    if Level(v) == 2 {
      UnitSame(v);
      assert [] + items == items;
    } else {
      UnitSame(v.right);
      var more := [Item(v.op, v.right)] + items;
      assert OtherOperands(v) + items == OtherOperands(v.left) + more;
      assert more[1..] == items;
      TermSame(v.left, more);
    }
  }

  lemma {:induction false} SumSame(v: ValueExp, items: seq<Item>)
    requires WellNested(v) && NoProductFirst(items)
    ensures var (t, rest) := TakeTerm(FirstOperand(v), OtherOperands(v) + items); TakeSum(t, rest) == TakeSum(v, items)
    decreases v, 2
  {
    if Level(v) >= 1 {
      TermSame(v, items);
    } else {
      var more := [Item(v.op, FirstOperand(v.right))] + (OtherOperands(v.right) + items);
      assert OtherOperands(v) + items == OtherOperands(v.left) + more;
      assert more[1..] == OtherOperands(v.right) + items;
      SumSame(v.left, more);
      TermSame(v.right, items);
    }
  }

  lemma {:induction false} RegroupedSame(v: ValueExp)
    requires WellNested(v)
    ensures Regrouped(v) == v
    decreases v, 3
  {
    SumSame(v, []);
    assert OtherOperands(v) + [] == OtherOperands(v);
  }

  // ----- lists of values -----

  /** A printed expression is read as the regrouped one. */
  lemma ReadPrinted(v: ValueExp, asBool: bool, f: seq<AgentToken>)
    requires Prints(v, asBool) && NoOperator(f)
    ensures BoolExp(ValueText(v) + f) == Some(Read(Regrouped(v), f))
  {
    RegroupedKeeps(v, asBool);
    ReadValue(Regrouped(v), f);
  }

  lemma CommaText(a: seq<AgentToken>, b: seq<AgentToken>, c: seq<AgentToken>, f: seq<AgentToken>)
    ensures a + b + [Comma] + c + f == a + b + ([Comma] + (c + f))
  {
  }

  lemma {:induction false} ReadCommas(ws: seq<ValueExp>, v: ValueExp, f: seq<AgentToken>)
    requires AllPrint(ws) && Prints(v, false) && NoOperator(f)
    ensures Values(WithCommas(ws) + ValueText(v) + f) == ValuesLeft([Regrouped(v)] + AllRegrouped(ws), f)
    decreases |ws|
  {
    ReadPrinted(v, false, f);
    if ws == [] {
      assert WithCommas(ws) + ValueText(v) + f == ValueText(v) + f;
      assert [Regrouped(v)] + AllRegrouped(ws) == [Regrouped(v)];
    } else {
      var after := [Comma] + (ValueText(v) + f);
      CommaText(WithCommas(ws[1..]), ValueText(ws[0]), ValueText(v), f);
      ReadCommas(ws[1..], ws[0], after);
      assert [Regrouped(ws[0])] + AllRegrouped(ws[1..]) == AllRegrouped(ws);
      assert after[1..] == ValueText(v) + f;
    }
  }

  /** The text has the list in reverse, and reading reverses it again. */
  lemma ReadList(vs: seq<ValueExp>, f: seq<AgentToken>)
    requires AllPrint(vs) && !Starts(f, OpenPar)
    ensures BracketedValues(ListText(vs) + f) == Some(Read(AllRegrouped(vs), f))
  {
    if vs == [] {
      assert ListText(vs) + f == f;
    } else {
      var after := [ClosePar] + f;
      InBrackets(WithCommas(vs[1..]), ValueText(vs[0]), f);
      ReadCommas(vs[1..], vs[0], after);
      assert [Regrouped(vs[0])] + AllRegrouped(vs[1..]) == AllRegrouped(vs);
      assert after[1..] == f;
    }
  }

  lemma ParametersSame(ps: seq<ValueExp>)
    requires SingleTokens(ps)
    ensures AllPrint(ps) && AllRegrouped(ps) == ps
  {
    forall i | 0 <= i < |ps| ensures Regrouped(ps[i]) == ps[i] { RegroupedSame(ps[i]); }
  }

  // ----- agents -----

  lemma BracketedOf(x: seq<AgentToken>, a: Syntax, f: seq<AgentToken>)
    requires AgentExp(x + ([ClosePar] + f)) == Some(Read(a, [ClosePar] + f)) && !Starts(x + ([ClosePar] + f), ClosePar)
    ensures AgentFact([OpenPar] + x + [ClosePar] + f) == Some(Read(a, f))
  {
    var ts := [OpenPar] + x + [ClosePar] + f;
    assert ts[1..] == x + ([ClosePar] + f);
    assert ([ClosePar] + f)[1..] == f;
  }

  lemma BinaryOf(x: seq<AgentToken>, sign: AgentToken, y: seq<AgentToken>, l: Syntax, r: Syntax, f: seq<AgentToken>)
    requires Starts(x, OpenPar) && (sign == SumSign || sign == ComSign) && Starts(f, ClosePar)
    requires UnaryAgent(x + ([sign] + (y + f))) == Some(Read(l, [sign] + (y + f)))
    requires UnaryAgent(y + f) == Some(Read(r, f))
    ensures AgentExp(x + [sign] + y + f) == Some(Read(if sign == SumSign then Choice(l, r) else Parallel(l, r), f))
  {
    var after := [sign] + (y + f);
    Regroup(x, [sign], y, f);
    assert after[1..] == y + f;
    var a := if sign == SumSign then Choice(l, r) else Parallel(l, r);
    assert BinaryLeft(a, f) == Some(Read(a, f));
    assert BinaryLeft(l, after) == BinaryLeft(a, f);
  }

  lemma ConditionalOf(c: seq<AgentToken>, xy: seq<AgentToken>, yf: seq<AgentToken>, v: ValueExp, l: Syntax, r: Syntax,
                      f: seq<AgentToken>)
    requires BoolExp(c + ([ClosePar] + xy)) == Some(Read(v, [ClosePar] + xy))
    requires AgentExp(xy) == Some(Read(l, yf)) && AgentExp(yf) == Some(Read(r, f))
    ensures AgentExp([IfWord, OpenPar] + (c + ([ClosePar] + xy))) == Some(Read(Conditional(v, l, r), f))
  {
    var inner := c + ([ClosePar] + xy);
    var ts := [IfWord, OpenPar] + inner;
    assert ts[1..] == [OpenPar] + inner && ([OpenPar] + inner)[1..] == inner;
    assert ([ClosePar] + xy)[1..] == xy;
    assert IfAgent([OpenPar] + inner) == Some(Read(Conditional(v, l, r), f));
  }

  lemma ConditionalText(c: seq<AgentToken>, x: seq<AgentToken>, y: seq<AgentToken>, f: seq<AgentToken>)
    ensures [IfWord, OpenPar] + c + [ClosePar] + x + y + f == [IfWord, OpenPar] + (c + ([ClosePar] + (x + (y + f))))
  {
  }

  lemma InputOf(c: string, ts: seq<AgentToken>, xf: seq<AgentToken>, ps: seq<ValueExp>, b: Syntax, f: seq<AgentToken>)
    requires BracketedValues(ts) == Some(Read(ps, [Colon] + xf))
    requires UnaryAgent(xf) == Some(Read(b, f)) && Starts(f, ClosePar)
    ensures AgentExp([Ident(c)] + ts) == Some(Read(Input(c, ps, b), f))
  {
    Append([Ident(c)], ts, []);
    assert [Ident(c)] + ts + [] == [Ident(c)] + ts && ts + [] == ts;
    assert ([Colon] + xf)[1..] == xf;
    assert NamedAgent(c, ts) == Some(Read(Input(c, ps, b), f));
  }

  lemma OutputOf(c: string, ts: seq<AgentToken>, xf: seq<AgentToken>, ps: seq<ValueExp>, b: Syntax, f: seq<AgentToken>)
    requires BracketedValues(ts) == Some(Read(ps, [Colon] + xf))
    requires UnaryAgent(xf) == Some(Read(b, f)) && Starts(f, ClosePar)
    ensures AgentExp([Tilde] + ([Ident(c)] + ts)) == Some(Read(Output(c, ps, b), f))
  {
    var named := [Ident(c)] + ts;
    assert named[1..] == ts && ([Colon] + xf)[1..] == xf;
    assert OutputAgent(named) == Some(Read(Output(c, ps, b), f));
    assert ([Tilde] + named)[1..] == named;
    assert UnaryAgent([Tilde] + named) == Some(Read(Output(c, ps, b), f));
  }

  lemma NamedText(c: string, vs: seq<AgentToken>, x: seq<AgentToken>, f: seq<AgentToken>)
    ensures [Ident(c)] + vs + [Colon] + x + f == [Ident(c)] + (vs + ([Colon] + (x + f)))
    ensures [Tilde, Ident(c)] + vs + [Colon] + x + f == [Tilde] + ([Ident(c)] + (vs + ([Colon] + (x + f))))
  {
  }

  lemma CallOf(n: string, ts: seq<AgentToken>, vs: seq<ValueExp>, f: seq<AgentToken>)
    requires BracketedValues(ts) == Some(Read(vs, f)) && Starts(f, ClosePar)
    ensures AgentExp([Ident(n)] + ts) == Some(Read(Call(n, vs), f))
  {
    assert ([Ident(n)] + ts)[1..] == ts;
    assert NamedAgent(n, ts) == Some(Read(Call(n, vs), f));
  }

  /** The text of an agent, whatever follows it, is read as one agent. */
  lemma {:induction false} ReadOperand(a: Syntax, f: seq<AgentToken>)
    requires Printable(a)
    ensures AgentFact(Text(a) + f) == UnaryAgent(Text(a) + f) == Some(Read(ReadBack(a), f))
    decreases a, 2
  {
    if a == Nothing {
      assert (Text(a) + f)[1..] == [ClosePar] + f && ([ClosePar] + f)[1..] == f;
    } else {
      ReadUnbracketed(a, [ClosePar] + f);
      InsideBegins(a, [ClosePar] + f);
      BracketedOf(Inside(a), ReadBack(a), f);
    }
  }

  /** Brackets end an agent. */
  lemma {:induction false} ReadAlone(a: Syntax, f: seq<AgentToken>)
    requires Printable(a) && (Starts(f, ClosePar) || Starts(f, OpenPar))
    ensures AgentExp(Text(a) + f) == Some(Read(ReadBack(a), f)) && !Starts(Text(a) + f, ClosePar)
    decreases a, 3
  {
    ReadOperand(a, f);
    assert Starts(Text(a) + f, OpenPar);
  }

  /** The values and the agent behind the colon. */
  lemma {:induction false} ReadPrefixed(c: string, vs: seq<ValueExp>, b: Syntax, f: seq<AgentToken>)
    requires AllPrint(vs) && Printable(b) && Starts(f, ClosePar)
    ensures AgentExp(Inside(Input(c, vs, b)) + f) == Some(Read(Input(c, AllRegrouped(vs), ReadBack(b)), f))
    ensures AgentExp(Inside(Output(c, vs, b)) + f) == Some(Read(Output(c, AllRegrouped(vs), ReadBack(b)), f))
    decreases b, 3
  {
    ReadList(vs, [Colon] + (Text(b) + f));
    ReadOperand(b, f);
    var ts := ListText(vs) + ([Colon] + (Text(b) + f));
    InputOf(c, ts, Text(b) + f, AllRegrouped(vs), ReadBack(b), f);
    OutputOf(c, ts, Text(b) + f, AllRegrouped(vs), ReadBack(b), f);
    NamedText(c, ListText(vs), Text(b), f);
  }

  lemma InsideCall(n: string, vs: seq<ValueExp>)
    ensures Inside(Call(n, vs)) == [Ident(n)] + ListText(vs)
  {
  }

  lemma ReadCall(n: string, vs: seq<ValueExp>, f: seq<AgentToken>)
    requires AllPrint(vs) && Starts(f, ClosePar)
    ensures AgentExp(Inside(Call(n, vs)) + f) == Some(Read(Call(n, AllRegrouped(vs)), f))
  {
    var l := ListText(vs);
    ReadList(vs, f);
    CallOf(n, l + f, AllRegrouped(vs), f);
    Append([Ident(n)], l, f);
    InsideCall(n, vs);
  }

  lemma InsideBegins(a: Syntax, f: seq<AgentToken>)
    requires a != Nothing
    ensures !Starts(Inside(a) + f, ClosePar)
  {
  }

  lemma {:induction false} ReadUnbracketed(a: Syntax, f: seq<AgentToken>)
    requires Printable(a) && a != Nothing && Starts(f, ClosePar)
    ensures AgentExp(Inside(a) + f) == Some(Read(ReadBack(a), f))
    decreases a, 1
  {
    match a
    case Input(c, ps, b) => ParametersSame(ps); ReadPrefixed(c, ps, b, f);
    case Output(c, vs, b) => ReadPrefixed(c, vs, b, f);
    case Choice(_, _) => ReadBranches(a, f);
    case Parallel(_, _) => ReadBranches(a, f);
    case Conditional(_, _, _) => ReadBranches(a, f);
    case Call(n, vs) => ReadCall(n, vs, f);
    case Closure(b) => ReadAlone(b, f);
  }

  lemma {:induction false} ReadBranches(a: Syntax, f: seq<AgentToken>)
    requires Printable(a) && (a.Choice? || a.Parallel? || a.Conditional?) && Starts(f, ClosePar)
    ensures AgentExp(Inside(a) + f) == Some(Read(ReadBack(a), f))
    decreases a, 0
  {
    var x, y := Text(a.left), Text(a.right);
    if a.Conditional? {
      ReadPrinted(a.condition, true, [ClosePar] + (x + (y + f)));
      ReadAlone(a.left, y + f);
      ReadAlone(a.right, f);
      ConditionalOf(ValueText(a.condition), x + (y + f), y + f,
                    Regrouped(a.condition), ReadBack(a.left), ReadBack(a.right), f);
      ConditionalText(ValueText(a.condition), x, y, f);
    } else {
      var sign := if a.Choice? then SumSign else ComSign;
      ReadOperand(a.left, [sign] + (y + f));
      ReadOperand(a.right, f);
      BinaryOf(x, sign, y, ReadBack(a.left), ReadBack(a.right), f);
    }
  }

  // ----- the round trip -----

  lemma {:induction false} ReadBackIsFaithful(a: Syntax)
    requires Printable(a)
    ensures Faithful(ReadBack(a))
  {
    match a
    case Nothing =>
    case Input(_, ps, b) => ReadBackIsFaithful(b);
    case Output(_, vs, b) => forall i | 0 <= i < |vs| { RegroupedKeeps(vs[i], false); } ReadBackIsFaithful(b);
    case Choice(l, r) => ReadBackIsFaithful(l); ReadBackIsFaithful(r);
    case Parallel(l, r) => ReadBackIsFaithful(l); ReadBackIsFaithful(r);
    case Conditional(v, l, r) => RegroupedKeeps(v, true); ReadBackIsFaithful(l); ReadBackIsFaithful(r);
    case Call(_, vs) => forall i | 0 <= i < |vs| { RegroupedKeeps(vs[i], false); }
    case Closure(b) => ReadBackIsFaithful(b);
  }

  lemma {:induction false} FaithfulIsKept(a: Syntax)
    requires Faithful(a)
    ensures ReadBack(a) == a
  {
    match a
    case Nothing =>
    case Input(_, ps, b) => FaithfulIsKept(b);
    case Output(_, vs, b) => forall i | 0 <= i < |vs| { RegroupedSame(vs[i]); } FaithfulIsKept(b);
    case Choice(l, r) => FaithfulIsKept(l); FaithfulIsKept(r);
    case Parallel(l, r) => FaithfulIsKept(l); FaithfulIsKept(r);
    case Conditional(v, l, r) => RegroupedSame(v); FaithfulIsKept(l); FaithfulIsKept(r);
    case Call(_, vs) => forall i | 0 <= i < |vs| { RegroupedSame(vs[i]); }
  }

  /** What is printed can always be parsed; it gives the agent with its closures dropped and its sums
      and products grouped to the left, and that is the printed agent if and only if it has no closure
      and every value expression is well nested. */
  lemma RoundTripExactly(a: Syntax)
    requires Printable(a)
    ensures ParseAgent(Text(a)) == Some(ReadBack(a))
    ensures ParseAgent(Text(a)) == Some(a) <==> Faithful(a)
  {
    assert Text(a) + [] == Text(a);
    ReadOperand(a, []);
    ReadBackIsFaithful(a);
    if Faithful(a) { FaithfulIsKept(a); }
  }

  /** 9 - (5 - 2) is printed without brackets and comes back as (9 - 5) - 2, which has another value. */
  lemma BracketsAreLost(name: string)
    ensures var written := Apply(Minus, Constant(9), Apply(Minus, Constant(5), Constant(2)));
            var got := Apply(Minus, Apply(Minus, Constant(9), Constant(5)), Constant(2));
            Printable(Call(name, [written])) && ParseAgent(Text(Call(name, [written]))) == Some(Call(name, [got])) &&
            Machine.EvalVal(written, []) == Some(6) && Machine.EvalVal(got, []) == Some(2)
  {
    var c9, c5, c2 := Constant(9), Constant(5), Constant(2);
    var written := Apply(Minus, c9, Apply(Minus, c5, c2));
    var a := Call(name, [written]);
    RoundTripExactly(a);
    assert OtherOperands(Apply(Minus, c5, c2)) == [Item(Minus, c2)];
    assert OtherOperands(written) == [Item(Minus, c5), Item(Minus, c2)];
    var items := OtherOperands(written);
    assert items[1..] == [Item(Minus, c2)] && items[1..][1..] == [];
    assert TakeTerm(c9, items) == (c9, items);
    assert TakeTerm(c5, items[1..]) == (c5, items[1..]);
    assert TakeTerm(c2, []) == (c2, []);
    assert TakeSum(c9, items) == TakeSum(Apply(Minus, c9, c5), items[1..]);
    assert AllRegrouped([written]) == [Regrouped(written)];
  }

  lemma CallSample()
    ensures Text(Call("P", [Constant(1), Variable("x")])) ==
            [OpenPar, Ident("P"), OpenPar, Ident("x"), Comma, Number(1), ClosePar, ClosePar]
  {
    var x, one := Variable("x"), Constant(1);
    assert [one, x][1..] == [x] && [x][1..] == [];
    assert WithCommas([x]) == [Ident("x"), Comma];
    assert ListText([one, x]) == [OpenPar, Ident("x"), Comma, Number(1), ClosePar];
  }

  lemma PrefixSample(b: Syntax)
    ensures Text(Input("c", [Variable("x")], b)) ==
            [OpenPar, Ident("c"), OpenPar, Ident("x"), ClosePar, Colon] + Text(b) + [ClosePar]
  {
    assert [Variable("x")][1..] == [];
    assert ListText([Variable("x")]) == [OpenPar, Ident("x"), ClosePar];
  }

  /** `(c(x):(P(x,1)))` */
  lemma TextSample()
    ensures Text(Input("c", [Variable("x")], Call("P", [Constant(1), Variable("x")]))) ==
            [OpenPar, Ident("c"), OpenPar, Ident("x"), ClosePar, Colon,
             OpenPar, Ident("P"), OpenPar, Ident("x"), Comma, Number(1), ClosePar, ClosePar, ClosePar]
  {
    CallSample();
    PrefixSample(Call("P", [Constant(1), Variable("x")]));
  }

  /** `(()||())` and `(~c:(()))` */
  lemma OperatorSamples()
    ensures Text(Parallel(Nothing, Nothing)) == [OpenPar, OpenPar, ClosePar, ComSign, OpenPar, ClosePar, ClosePar]
    ensures Text(Choice(Nothing, Nothing)) == [OpenPar, OpenPar, ClosePar, SumSign, OpenPar, ClosePar, ClosePar]
    ensures Text(Output("c", [], Nothing)) == [OpenPar, Tilde, Ident("c"), Colon, OpenPar, ClosePar, ClosePar]
  {
    assert Text(Nothing) == [OpenPar, ClosePar];
  }
}
