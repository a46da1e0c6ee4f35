/** Agents written with no more brackets than the grammar needs (the productions of src/parse/parse.c): the parser
    reads exactly the agent back, so every precedence and every grouping is the one of the grammar. */
module PlainText {
  import opened Wrappers
  import opened Agents
  import opened AgentText
  import opened AgentParser

  lemma Append<T>(a: seq<T>, b: seq<T>, c: seq<T>)
    ensures a + b + c == a + (b + c)
  {
  }

  lemma Behind<T>(x: T, s: seq<T>)
    ensures ([x] + s)[1..] == s && ([x] + s)[0] == x
  {
  }

  // ----- value expressions -----

  /** How tightly an operator binds. */
  function OpLevel(op: ValueOp): nat {
    if IsLogical(op) then 0 else if IsComparison(op) then 1 else if IsAdditive(op) then 2 else 3
  }

  function ValueLevel(v: ValueExp): nat {
    if v.Apply? then OpLevel(v.op) else 4
  }

  function PlainValue(v: ValueExp, level: nat): seq<AgentToken>
    decreases v, 1
  {
    if ValueLevel(v) < level then [OpenPar] + (BareValue(v) + [ClosePar]) else BareValue(v)
  }

  function BareValue(v: ValueExp): seq<AgentToken>
    decreases v, 0
  {
    match v
    case Constant(n) => [Number(if n < 0 then 0 else n)]
    case Variable(x) => [Ident(x)]
    case Negation(a) => [Not] + PlainValue(a, 4)
    case Apply(op, l, r) => PlainValue(l, OpLevel(op)) + ([Operator(op)] + PlainValue(r, OpLevel(op) + 1))
  }

  /** No constant is negative, as none that was read. */
  predicate IsPlainValue(v: ValueExp) {
    match v
    case Constant(n) => n >= 0
    case Variable(_) => true
    case Negation(a) => IsPlainValue(a)
    case Apply(_, l, r) => IsPlainValue(l) && IsPlainValue(r)
  }

  /** The procedure of the parser for a level, and its loop over further operands. */
  function ReadAt(level: nat, ts: seq<AgentToken>): Option<Read<ValueExp>> {
    if level == 0 then BoolExp(ts) else if level == 1 then CompareExp(ts) else if level == 2 then SumExp(ts)
    else if level == 3 then Term(ts) else UnaryExp(ts)
  }

  function LeftAt(level: nat, v: ValueExp, ts: seq<AgentToken>): Option<Read<ValueExp>> {
    if level == 0 then BoolLeft(v, ts) else if level == 1 then CompareLeft(v, ts) else if level == 2 then SumLeft(v, ts)
    else if level == 3 then TermLeft(v, ts) else Some(Read(v, ts))
  }

  /** What follows does not begin with an operator of this level or a tighter one. */
  predicate Follows(level: nat, f: seq<AgentToken>) {
    f != [] && f[0].Operator? ==> OpLevel(f[0].op) < level
  }

  lemma ReadTighter(level: nat, ts: seq<AgentToken>, v: ValueExp, f: seq<AgentToken>)
    requires level < 4 && ReadAt(level + 1, ts) == Some(Read(v, f))
    ensures ReadAt(level, ts) == LeftAt(level, v, f)
  {
  }

  lemma LoopEnds(level: nat, v: ValueExp, f: seq<AgentToken>)
    requires Follows(level, f)
    ensures LeftAt(level, v, f) == Some(Read(v, f))
  {
  }

  lemma LoopGoesOn(op: ValueOp, l: ValueExp, r: ValueExp, ts: seq<AgentToken>, f: seq<AgentToken>)
    requires ReadAt(OpLevel(op) + 1, ts) == Some(Read(r, f))
    ensures LeftAt(OpLevel(op), l, [Operator(op)] + ts) == LeftAt(OpLevel(op), Apply(op, l, r), f)
  {
    Behind(Operator(op), ts);
  }

  function Rank(v: ValueExp, level: nat): nat
    requires level <= 4
  {
    if ValueLevel(v) < level then 20 - level else 5 - level
  }

  /** At any level, the text of an expression is read as its first operand, and the loop goes on behind it. */
  lemma {:induction false} ReadPlainValue(v: ValueExp, level: nat, f: seq<AgentToken>)
    requires IsPlainValue(v) && level <= 4 && Follows(level + 1, f)
    ensures ReadAt(level, PlainValue(v, level) + f) == LeftAt(level, v, f)
    decreases v, Rank(v, level)
  {
    if level < 4 && ValueLevel(v) != level {
      assert PlainValue(v, level) == PlainValue(v, level + 1);
      ReadPlainValue(v, level + 1, f);
      LoopEnds(level + 1, v, f);
      ReadTighter(level, PlainValue(v, level) + f, v, f);
    } else if level < 4 {
      ReadOperands(v.op, v.left, v.right, f);
    } else if ValueLevel(v) < 4 {
      var after := [ClosePar] + f;
      ReadPlainValue(v, 0, after);
      LoopEnds(0, v, after);
      BracketedValue(v, BareValue(v), f);
    } else {
      ReadUnit(v, f);
    }
  }

  lemma {:induction false} ReadOperands(op: ValueOp, l: ValueExp, r: ValueExp, f: seq<AgentToken>)
    requires IsPlainValue(l) && IsPlainValue(r) && Follows(OpLevel(op) + 1, f)
    ensures ReadAt(OpLevel(op), BareValue(Apply(op, l, r)) + f) == LeftAt(OpLevel(op), Apply(op, l, r), f)
    decreases Apply(op, l, r), 0
  {
    var k := OpLevel(op);
    var x, y := PlainValue(l, k), PlainValue(r, k + 1);
    var behind := [Operator(op)] + (y + f);
    ReadPlainValue(r, k + 1, f);
    LoopEnds(k + 1, r, f);
    ReadPlainValue(l, k, behind);
    LoopGoesOn(op, l, r, y + f, f);
    Append([Operator(op)], y, f);
    Append(x, [Operator(op)] + y, f);
  }

  lemma BracketedValue(v: ValueExp, text: seq<AgentToken>, f: seq<AgentToken>)
    requires BoolExp(text + ([ClosePar] + f)) == Some(Read(v, [ClosePar] + f))
    ensures UnaryExp([OpenPar] + (text + [ClosePar]) + f) == Some(Read(v, f))
  {
    Append(text, [ClosePar], f);
    Append([OpenPar], text + [ClosePar], f);
    Behind(OpenPar, text + ([ClosePar] + f));
    Behind(ClosePar, f);
  }

  lemma {:induction false} ReadUnit(v: ValueExp, f: seq<AgentToken>)
    requires IsPlainValue(v) && !v.Apply?
    ensures UnaryExp(BareValue(v) + f) == Some(Read(v, f))
    decreases v, 0
  {
    match v
    case Negation(a) =>
      if a.Apply? {
        var after := [ClosePar] + f;
        ReadPlainValue(a, 0, after);
        LoopEnds(0, a, after);
        BracketedValue(a, BareValue(a), f);
      } else {
        ReadUnit(a, f);
      }
      Append([Not], PlainValue(a, 4), f);
      Behind(Not, PlainValue(a, 4) + f);
    case Constant(n) => Behind(Number(n), f);
    case Variable(x) => Behind(Ident(x), f);
  }

  /** Up to the end or any token that is no operator, the parser reads the expression that was written. */
  lemma PlainValueIsRead(v: ValueExp, f: seq<AgentToken>)
    requires IsPlainValue(v) && (f == [] || !f[0].Operator?)
    ensures BoolExp(PlainValue(v, 0) + f) == Some(Read(v, f))
  {
    ReadPlainValue(v, 0, f);
    LoopEnds(0, v, f);
  }

  // ----- lists -----

  predicate AllPlain(vs: seq<ValueExp>) {
    forall i :: 0 <= i < |vs| ==> IsPlainValue(vs[i])
  }

  /** The list is kept in the reverse of the text. */
  function PlainValues(vs: seq<ValueExp>): seq<AgentToken>
    requires vs != []
  {
    if |vs| == 1 then PlainValue(vs[0], 0) else PlainValues(vs[1..]) + ([Comma] + PlainValue(vs[0], 0))
  }

  function PlainList(vs: seq<ValueExp>): seq<AgentToken> {
    if vs == [] then [] else [OpenPar] + (PlainValues(vs) + [ClosePar])
  }

  lemma {:induction false} ReadPlainValues(vs: seq<ValueExp>, f: seq<AgentToken>)
    requires vs != [] && AllPlain(vs) && f != [] && !f[0].Operator?
    ensures Values(PlainValues(vs) + f) == ValuesLeft(vs, f)
    decreases |vs|
  {
    PlainValueIsRead(vs[0], f);
    if |vs| == 1 {
      assert [vs[0]] == vs;
    } else {
      var last := PlainValue(vs[0], 0);
      var behind := [Comma] + (last + f);
      ReadPlainValues(vs[1..], behind);
      Append([Comma], last, f);
      Append(PlainValues(vs[1..]), [Comma] + last, f);
      Behind(Comma, last + f);
      assert [vs[0]] + vs[1..] == vs;
    }
  }

  lemma ReadPlainList(vs: seq<ValueExp>, f: seq<AgentToken>)
    requires AllPlain(vs) && !Starts(f, OpenPar)
    ensures BracketedValues(PlainList(vs) + f) == Some(Read(vs, f))
  {
    if vs == [] {
      assert PlainList(vs) + f == f;
    } else {
      var inside := PlainValues(vs);
      var after := [ClosePar] + f;
      ReadPlainValues(vs, after);
      Append(inside, [ClosePar], f);
      Append([OpenPar], inside + [ClosePar], f);
      Behind(OpenPar, inside + after);
      Behind(ClosePar, f);
      assert ValuesLeft(vs, after) == Some(Read(vs, after));
    }
  }

  // ----- agents -----

  /** A conditional stands only where a whole agent does, a chain of operators also as its own left operand. */
  function AgentLevel(a: Syntax): nat {
    if a.Conditional? then 0 else if a.Choice? || a.Parallel? then 1 else 2
  }

  function InBrackets(s: seq<AgentToken>): seq<AgentToken> {
    [OpenPar] + (s + [ClosePar])
  }

  function Plain(a: Syntax, level: nat): seq<AgentToken>
    decreases a, 1
  {
    if AgentLevel(a) < level then InBrackets(Bare(a)) else Bare(a)
  }

  function Bare(a: Syntax): seq<AgentToken>
    decreases a, 0
  {
    match a
    case Nothing => [OpenPar, ClosePar]
    case Input(c, ps, b) => PrefixText(c, PlainList(ps), Plain(b, 2))
    case Output(c, vs, b) => [Tilde] + PrefixText(c, PlainList(vs), Plain(b, 2))
    case Choice(l, r) => Plain(l, 1) + ([SumSign] + Plain(r, 2))
    case Parallel(l, r) => Plain(l, 1) + ([ComSign] + Plain(r, 2))
    case Conditional(v, l, r) => [IfWord] + (InBrackets(PlainValue(v, 0)) + (InBrackets(Bare(l)) + InBrackets(Bare(r))))
    case Call(n, vs) => [Ident(n)] + PlainList(vs)
    case Closure(b) => []
  }

  /** No closure, which has no text, and no negative constant. */
  predicate IsPlain(a: Syntax) {
    match a
    case Nothing => true
    case Input(_, ps, b) => AllPlain(ps) && IsPlain(b)
    case Output(_, vs, b) => AllPlain(vs) && IsPlain(b)
    case Choice(l, r) => IsPlain(l) && IsPlain(r)
    case Parallel(l, r) => IsPlain(l) && IsPlain(r)
    case Conditional(v, l, r) => IsPlainValue(v) && IsPlain(l) && IsPlain(r)
    case Call(_, vs) => AllPlain(vs)
    case Closure(_) => false
  }

  /** The end, a closing bracket, or an operator: nothing that belongs to the agent. */
  predicate EndsAgent(f: seq<AgentToken>) {
    !Starts(f, OpenPar) && !Starts(f, Colon) && !Starts(f, Tilde)
  }

  predicate NoSign(f: seq<AgentToken>) {
    !Starts(f, SumSign) && !Starts(f, ComSign)
  }

  /** The procedure for a level: a unary agent, or a chain, or any agent. */
  function AgentAt(level: nat, ts: seq<AgentToken>): Option<Read<Syntax>> {
    if level == 2 then UnaryAgent(ts) else AgentExp(ts)
  }

  function ChainAt(level: nat, a: Syntax, ts: seq<AgentToken>): Option<Read<Syntax>> {
    if level == 2 || (a.Conditional? && level == 0) then Some(Read(a, ts)) else BinaryLeft(a, ts)
  }

  lemma {:induction false} BareBegins(a: Syntax)
    requires IsPlain(a)
    ensures Bare(a) != [] && Bare(a)[0] != ClosePar && (Bare(a)[0] == IfWord <==> a.Conditional?)
    decreases a
  {
    match a
    case Choice(l, _) => BareBegins(l);
    case Parallel(l, _) => BareBegins(l);
    case _ =>
  }

  lemma InsideBrackets(a: Syntax, f: seq<AgentToken>)
    requires IsPlain(a) && AgentExp(Bare(a) + ([ClosePar] + f)) == Some(Read(a, [ClosePar] + f))
    ensures UnaryAgent(InBrackets(Bare(a)) + f) == Some(Read(a, f))
  {
    BareBegins(a);
    JoinBrackets(Bare(a), f);
    Behind(ClosePar, f);
    BracketedAgent(Bare(a) + ([ClosePar] + f), a, [ClosePar] + f);
  }

  lemma JoinBrackets(s: seq<AgentToken>, f: seq<AgentToken>)
    ensures InBrackets(s) + f == [OpenPar] + (s + ([ClosePar] + f))
  {
    Append(s, [ClosePar], f);
    Append([OpenPar], s + [ClosePar], f);
  }

  lemma BracketedAgent(ts: seq<AgentToken>, a: Syntax, after: seq<AgentToken>)
    requires AgentExp(ts) == Some(Read(a, after)) && Starts(after, ClosePar) && !Starts(ts, ClosePar)
    ensures UnaryAgent([OpenPar] + ts) == Some(Read(a, after[1..]))
  {
    Behind(OpenPar, ts);
  }

  /** A unary agent begins a chain. */
  lemma UnaryBegins(ts: seq<AgentToken>, a: Syntax, f: seq<AgentToken>)
    requires UnaryAgent(ts) == Some(Read(a, f)) && !Starts(ts, IfWord)
    ensures AgentExp(ts) == BinaryLeft(a, f)
  {
  }

  function AgentRank(a: Syntax, level: nat): nat
    requires level <= 2
  {
    if AgentLevel(a) < level then 20 - level else 5 - level
  }

  /** At any level, the text of an agent is read as its first operand, and the chain goes on behind it. */
  lemma {:induction false} ReadPlain(a: Syntax, level: nat, f: seq<AgentToken>)
    requires IsPlain(a) && level <= 2 && EndsAgent(f) && (a.Conditional? && level == 0 ==> NoSign(f))
    ensures AgentAt(level, Plain(a, level) + f) == ChainAt(level, a, f)
    decreases a, AgentRank(a, level)
  {
    if level == 2 {
      if AgentLevel(a) < 2 { ReadBracketed(a, f); } else { ReadUnary(a, f); }
    } else if AgentLevel(a) == 2 || AgentLevel(a) < level {
      assert Plain(a, level) == Plain(a, 2);
      ReadPlain(a, 2, f);
      BareBegins(a);
      UnaryBegins(Plain(a, 2) + f, a, f);
    } else if AgentLevel(a) == 1 {
      if a.Choice? { ReadChain(SumSign, a.left, a.right, f); } else { ReadChain(ComSign, a.left, a.right, f); }
    } else {
      ReadConditional(a, f);
    }
  }

  lemma {:induction false} ReadBracketed(a: Syntax, f: seq<AgentToken>)
    requires IsPlain(a)
    ensures UnaryAgent(InBrackets(Bare(a)) + f) == Some(Read(a, f))
    decreases a, 17
  {
    var after := [ClosePar] + f;
    ReadPlain(a, 0, after);
    InsideBrackets(a, f);
  }

  function Joined(sign: AgentToken, l: Syntax, r: Syntax): Syntax {
    if sign == SumSign then Choice(l, r) else Parallel(l, r)
  }

  lemma {:induction false} ReadChain(sign: AgentToken, l: Syntax, r: Syntax, f: seq<AgentToken>)
    requires IsPlain(l) && IsPlain(r) && EndsAgent(f) && (sign == SumSign || sign == ComSign)
    ensures AgentExp(Plain(l, 1) + ([sign] + Plain(r, 2)) + f) == BinaryLeft(Joined(sign, l, r), f)
    decreases Joined(sign, l, r), 0
  {
    var x, y := Plain(l, 1), Plain(r, 2);
    var behind := [sign] + (y + f);
    ReadPlain(r, 2, f);
    ReadPlain(l, 1, behind);
    Append([sign], y, f);
    Append(x, [sign] + y, f);
    Behind(sign, y + f);
  }

  lemma {:induction false} ReadUnary(a: Syntax, f: seq<AgentToken>)
    requires IsPlain(a) && EndsAgent(f) && AgentLevel(a) == 2
    ensures UnaryAgent(Bare(a) + f) == Some(Read(a, f))
    decreases a, 0
  {
    match a
    case Nothing => ReadNothing(f);
    case Input(c, ps, b) =>
      ReadPlain(b, 2, f);
      ReadPlainList(ps, [Colon] + (Plain(b, 2) + f));
      ReadInput(c, ps, PlainList(ps), Plain(b, 2), b, f);
    case Output(c, vs, b) =>
      ReadPlain(b, 2, f);
      ReadPlainList(vs, [Colon] + (Plain(b, 2) + f));
      ReadOutput(c, vs, PlainList(vs), Plain(b, 2), b, f);
    case Call(n, vs) => ReadCall(n, vs, f);
  }

  lemma ReadNothing(f: seq<AgentToken>)
    ensures UnaryAgent([OpenPar, ClosePar] + f) == Some(Read(Nothing, f))
  {
    assert [OpenPar, ClosePar] + f == [OpenPar] + ([ClosePar] + f);
    Behind(OpenPar, [ClosePar] + f);
    Behind(ClosePar, f);
  }

  lemma ReadCall(n: string, vs: seq<ValueExp>, f: seq<AgentToken>)
    requires AllPlain(vs) && EndsAgent(f)
    ensures UnaryAgent([Ident(n)] + PlainList(vs) + f) == Some(Read(Call(n, vs), f))
  {
    ReadPlainList(vs, f);
    Append([Ident(n)], PlainList(vs), f);
    Behind(Ident(n), PlainList(vs) + f);
  }

  /** A channel, its list, and a body behind the colon. */
  function PrefixText(c: string, list: seq<AgentToken>, text: seq<AgentToken>): seq<AgentToken> {
    [Ident(c)] + (list + ([Colon] + text))
  }

  lemma ReadInput(c: string, vs: seq<ValueExp>, list: seq<AgentToken>, text: seq<AgentToken>, b: Syntax,
                  f: seq<AgentToken>)
    requires BracketedValues(list + ([Colon] + (text + f))) == Some(Read(vs, [Colon] + (text + f)))
    requires UnaryAgent(text + f) == Some(Read(b, f))
    ensures UnaryAgent(PrefixText(c, list, text) + f) == Some(Read(Input(c, vs, b), f))
  {
    JoinPrefix(c, list, text, f);
    Behind(Ident(c), list + ([Colon] + (text + f)));
    Behind(Colon, text + f);
  }

  lemma ReadOutput(c: string, vs: seq<ValueExp>, list: seq<AgentToken>, text: seq<AgentToken>, b: Syntax,
                   f: seq<AgentToken>)
    requires BracketedValues(list + ([Colon] + (text + f))) == Some(Read(vs, [Colon] + (text + f)))
    requires UnaryAgent(text + f) == Some(Read(b, f))
    ensures UnaryAgent([Tilde] + PrefixText(c, list, text) + f) == Some(Read(Output(c, vs, b), f))
  {
    var x := list + ([Colon] + (text + f));
    Behind(Colon, text + f);
    OutputBehind(c, vs, x, [Colon] + (text + f), b, f);
    JoinPrefix(c, list, text, f);
    Append([Tilde], PrefixText(c, list, text), f);
    AfterTilde([Ident(c)] + x);
  }

  lemma OutputBehind(c: string, vs: seq<ValueExp>, x: seq<AgentToken>, t: seq<AgentToken>, b: Syntax,
                     f: seq<AgentToken>)
    requires BracketedValues(x) == Some(Read(vs, t)) && Starts(t, Colon) && UnaryAgent(t[1..]) == Some(Read(b, f))
    ensures OutputAgent([Ident(c)] + x) == Some(Read(Output(c, vs, b), f))
  {
    Behind(Ident(c), x);
  }

  lemma AfterTilde(ts: seq<AgentToken>)
    ensures UnaryAgent([Tilde] + ts) == OutputAgent(ts)
  {
    Behind(Tilde, ts);
  }

  lemma JoinPrefix(c: string, list: seq<AgentToken>, text: seq<AgentToken>, f: seq<AgentToken>)
    ensures PrefixText(c, list, text) + f == [Ident(c)] + (list + ([Colon] + (text + f)))
  {
    Append([Colon], text, f);
    Append(list, [Colon] + text, f);
    Append([Ident(c)], list + ([Colon] + text), f);
  }

  lemma {:induction false} ReadBranch(a: Syntax, f: seq<AgentToken>)
    requires IsPlain(a) && NoSign(f) && !Starts(f, Colon) && !Starts(f, Tilde)
    ensures AgentExp(InBrackets(Bare(a)) + f) == Some(Read(a, f))
    decreases a, 18
  {
    ReadBracketed(a, f);
    UnaryBegins(InBrackets(Bare(a)) + f, a, f);
  }

  lemma JoinConditional(c: seq<AgentToken>, first: seq<AgentToken>, second: seq<AgentToken>, f: seq<AgentToken>)
    ensures [IfWord] + (InBrackets(c) + (first + second)) + f ==
            [IfWord] + ([OpenPar] + (c + ([ClosePar] + (first + (second + f)))))
  {
    Append([IfWord], InBrackets(c) + (first + second), f);
    Append(InBrackets(c), first + second, f);
    Append(first, second, f);
    Append([OpenPar], c + [ClosePar], first + (second + f));
    Append(c, [ClosePar], first + (second + f));
  }

  lemma {:induction false} ReadConditional(a: Syntax, f: seq<AgentToken>)
    requires IsPlain(a) && a.Conditional? && EndsAgent(f) && NoSign(f)
    ensures AgentExp(Bare(a) + f) == Some(Read(a, f))
    decreases a, 4
  {
    var first, second := InBrackets(Bare(a.left)), InBrackets(Bare(a.right));
    ReadBranch(a.right, f);
    ReadBranch(a.left, second + f);
    PlainValueIsRead(a.condition, [ClosePar] + (first + (second + f)));
    ReadIfText(PlainValue(a.condition, 0), first, second, a, f);
  }

  lemma ReadIfText(c: seq<AgentToken>, first: seq<AgentToken>, second: seq<AgentToken>, a: Syntax, f: seq<AgentToken>)
    requires a.Conditional? && AgentExp(second + f) == Some(Read(a.right, f))
    requires AgentExp(first + (second + f)) == Some(Read(a.left, second + f))
    requires BoolExp(c + ([ClosePar] + (first + (second + f)))) ==
             Some(Read(a.condition, [ClosePar] + (first + (second + f))))
    ensures AgentExp([IfWord] + (InBrackets(c) + (first + second)) + f) == Some(Read(a, f))
  {
    var after := first + (second + f);
    JoinConditional(c, first, second, f);
    Behind(IfWord, [OpenPar] + (c + ([ClosePar] + after)));
    Behind(OpenPar, c + ([ClosePar] + after));
    Behind(ClosePar, after);
  }

  lemma NothingBehind(s: seq<AgentToken>)
    ensures s + [] == s
  {
  }

  /** The parser reads back exactly the agent that was written with only the brackets that are needed. */
  lemma PlainIsRead(a: Syntax)
    requires IsPlain(a)
    ensures AgentExp(Plain(a, 0)) == Some(Read(a, []))
  {
    NothingBehind(Plain(a, 0));
    ReadPlain(a, 0, []);
  }

  /** So it does when that text stands in brackets, as the driver expects it. */
  lemma PlainIsParsed(a: Syntax)
    requires IsPlain(a)
    ensures ParseAgent(InBrackets(Plain(a, 0))) == Some(a)
  {
    NothingBehind(InBrackets(Bare(a)));
    ReadBracketed(a, []);
  }

  // ----- chains -----

  /** An operator with the agent behind it. */
  datatype Link = Link(sign: AgentToken, agent: Syntax)

  predicate AreLinks(links: seq<Link>) {
    forall i :: 0 <= i < |links| ==>
      (links[i].sign == SumSign || links[i].sign == ComSign) && IsPlain(links[i].agent)
  }

  /** The agents combined from the left, whatever the signs. */
  function ToTheLeft(first: Syntax, links: seq<Link>): Syntax {
    if links == [] then first
    else
      var last := links[|links| - 1];
      Joined(last.sign, ToTheLeft(first, links[..|links| - 1]), last.agent)
  }

  function ChainText(first: Syntax, links: seq<Link>): seq<AgentToken> {
    if links == [] then Plain(first, 2)
    else
      var last := links[|links| - 1];
      ChainText(first, links[..|links| - 1]) + ([last.sign] + Plain(last.agent, 2))
  }

  /** Agents without brackets around them, joined by any signs, are combined from the left. */
  lemma {:induction false} ChainIsRead(first: Syntax, links: seq<Link>, f: seq<AgentToken>)
    requires IsPlain(first) && AreLinks(links) && EndsAgent(f)
    ensures AgentExp(ChainText(first, links) + f) == BinaryLeft(ToTheLeft(first, links), f)
    decreases |links|
  {
    if links == [] {
      ReadPlain(first, 2, f);
      BareBegins(first);
      UnaryBegins(Plain(first, 2) + f, first, f);
    } else {
      var n := |links| - 1;
      var y := Plain(links[n].agent, 2);
      var behind := [links[n].sign] + (y + f);
      ChainIsRead(first, links[..n], behind);
      ReadPlain(links[n].agent, 2, f);
      Append([links[n].sign], y, f);
      Append(ChainText(first, links[..n]), [links[n].sign] + y, f);
      Behind(links[n].sign, y + f);
    }
  }
}
