/** The text of a decision, as buchi2ccs writes it (src/ltl/buchi-converter.c), the agent that the parser of
    agents reads from it, and how that agent decides in a state. */
module Definitions {
  import opened Wrappers
  import opened Formulas
  import opened Conditions
  import opened Generator
  import opened NodeNames
  import opened AgentText
  import opened AgentParser

  // ----- writing -----

  /** Every condition has a spelling and is not empty. */
  predicate Spells(d: Decision) {
    match d
    case Test(ps, _, _, otherwise) => ps != [] && AllSyntax(ps) && Spells(otherwise)
    case _ => true
  }

  function GoText(name: string, accept: bool): seq<AgentToken> {
    if accept then [Ident("accept"), Colon, Ident(name)] else [Ident(name)]
  }

  function TestText(ps: seq<Formula>, k: nat, accept: bool): seq<AgentToken>
    requires AllSyntax(ps)
  {
    [IfWord, OpenPar] + Joined(ps) + [ClosePar, OpenPar] + GoText(NodeName(k + 1), accept) + [ClosePar, OpenPar]
  }

  function DecisionText(d: Decision): seq<AgentToken>
    requires Spells(d)
  {
    match d
    case GoOn(k, a) => GoText(NodeName(k + 1), a)
    case Abort(a) => GoText("Abort", a)
    case Test(ps, k, a, otherwise) => TestText(ps, k, a) + DecisionText(otherwise) + [ClosePar]
  }

  function DefinitionText(name: string, d: Decision): seq<AgentToken>
    requires Spells(d)
  {
    [OpenPar, DefineWord, Ident(name), OpenPar, ClosePar, OpenPar] + DecisionText(d) + [ClosePar, ClosePar]
  }

  // ----- reading -----

  function GoAgent(name: string, accept: bool): Syntax {
    if accept then Input("accept", [], Call(name, [])) else Call(name, [])
  }

  function AgentOf(d: Decision): Syntax
    requires Spells(d)
  {
    match d
    case GoOn(k, a) => GoAgent(NodeName(k + 1), a)
    case Abort(a) => GoAgent("Abort", a)
    case Test(ps, k, a, otherwise) => Conditional(JoinRead(ps), GoAgent(NodeName(k + 1), a), AgentOf(otherwise))
  }

  predicate ReadableDecision(d: Decision) {
    match d
    case Test(ps, _, _, otherwise) => ps != [] && AllReadable(ps) && ReadableDecision(otherwise)
    case _ => true
  }

  lemma {:induction false} ReadableSpells(d: Decision)
    requires ReadableDecision(d)
    ensures Spells(d)
  {
    if d.Test? { ReadableSpells(d.otherwise); }
  }

  lemma ReadCall(name: string, f: seq<AgentToken>)
    requires Starts(f, ClosePar)
    ensures UnaryAgent([Ident(name)] + f) == Some(Read(Call(name, []), f))
  {
    assert ([Ident(name)] + f)[1..] == f;
    assert NamedAgent(name, f) == Some(Read(Call(name, []), f));
  }

  lemma ReadGo(name: string, accept: bool, f: seq<AgentToken>)
    requires Starts(f, ClosePar)
    ensures AgentExp(GoText(name, accept) + f) == Some(Read(GoAgent(name, accept), f))
    ensures !Starts(GoText(name, accept) + f, ClosePar)
  {
    ReadCall(name, f);
    if accept { ReadAccepting(name, f); }
  }

  lemma ReadAccepting(name: string, f: seq<AgentToken>)
    requires Starts(f, ClosePar) && UnaryAgent([Ident(name)] + f) == Some(Read(Call(name, []), f))
    ensures UnaryAgent(GoText(name, true) + f) == Some(Read(GoAgent(name, true), f))
    ensures GoText(name, true) + f != [] && (GoText(name, true) + f)[0] == Ident("accept")
  {
    var call := [Ident(name)] + f;
    var behind := [Colon] + call;
    assert GoText(name, true) + f == [Ident("accept")] + behind;
    assert ([Ident("accept")] + behind)[1..] == behind && behind[1..] == call;
    assert NamedAgent("accept", behind) == Some(Read(GoAgent(name, true), f));
  }

  /** An agent in brackets, before another bracket. */
  lemma ReadInBrackets(x: seq<AgentToken>, a: Syntax, f: seq<AgentToken>)
    requires AgentExp(x + ([ClosePar] + f)) == Some(Read(a, [ClosePar] + f)) && !Starts(x + ([ClosePar] + f), ClosePar)
    requires Starts(f, ClosePar) || Starts(f, OpenPar)
    ensures AgentExp([OpenPar] + (x + ([ClosePar] + f))) == Some(Read(a, f))
  {
    var ts := [OpenPar] + (x + ([ClosePar] + f));
    assert ts[1..] == x + ([ClosePar] + f) && ([ClosePar] + f)[1..] == f;
    assert UnaryAgent(ts) == AgentFact(ts) == Some(Read(a, f));
  }

  /** A test with its two alternatives in brackets. */
  lemma ReadTest(c: seq<AgentToken>, x: seq<AgentToken>, y: seq<AgentToken>, v: A.ValueExp, l: Syntax, r: Syntax,
                 f: seq<AgentToken>)
    requires var behind := [OpenPar] + (x + ([ClosePar] + ([OpenPar] + (y + ([ClosePar] + f)))));
             BoolExp(c + ([ClosePar] + behind)) == Some(Read(v, [ClosePar] + behind))
    requires var other := [OpenPar] + (y + ([ClosePar] + f));
             AgentExp(x + ([ClosePar] + other)) == Some(Read(l, [ClosePar] + other)) &&
             !Starts(x + ([ClosePar] + other), ClosePar)
    requires AgentExp(y + ([ClosePar] + f)) == Some(Read(r, [ClosePar] + f)) && !Starts(y + ([ClosePar] + f), ClosePar)
    requires Starts(f, ClosePar)
    ensures var behind := [OpenPar] + (x + ([ClosePar] + ([OpenPar] + (y + ([ClosePar] + f)))));
            AgentExp([IfWord] + ([OpenPar] + (c + ([ClosePar] + behind)))) == Some(Read(Conditional(v, l, r), f))
  {
    var other := [OpenPar] + (y + ([ClosePar] + f));
    var behind := [OpenPar] + (x + ([ClosePar] + other));
    ReadInBrackets(x, l, other);
    ReadInBrackets(y, r, f);
    var inner := [OpenPar] + (c + ([ClosePar] + behind));
    assert ([IfWord] + inner)[1..] == inner && inner[1..] == c + ([ClosePar] + behind);
    assert ([ClosePar] + behind)[1..] == behind;
    assert IfAgent(inner) == Some(Read(Conditional(v, l, r), f));
  }

  lemma TestTextApart(c: seq<AgentToken>, x: seq<AgentToken>, y: seq<AgentToken>, f: seq<AgentToken>)
    ensures [IfWord, OpenPar] + c + [ClosePar, OpenPar] + x + [ClosePar, OpenPar] + y + [ClosePar] + f ==
            [IfWord] + ([OpenPar] + (c + ([ClosePar] +
            ([OpenPar] + (x + ([ClosePar] + ([OpenPar] + (y + ([ClosePar] + f)))))))))
  {
  }

  /** The parser reads from the text of a decision the agent that decides so. */
  lemma {:induction false} ReadDecision(d: Decision, f: seq<AgentToken>)
    requires ReadableDecision(d) && Spells(d) && Starts(f, ClosePar)
    ensures AgentExp(DecisionText(d) + f) == Some(Read(AgentOf(d), f)) && !Starts(DecisionText(d) + f, ClosePar)
    decreases d
  {
    match d
    case GoOn(k, a) => ReadGo(NodeName(k + 1), a, f);
    case Abort(a) => ReadGo("Abort", a, f);
    case Test(ps, k, a, otherwise) =>
      var c, x, y := Joined(ps), GoText(NodeName(k + 1), a), DecisionText(otherwise);
      var other := [OpenPar] + (y + ([ClosePar] + f));
      var behind := [OpenPar] + (x + ([ClosePar] + other));
      ReadJoined(ps, [ClosePar] + behind);
      ReadGo(NodeName(k + 1), a, [ClosePar] + other);
      ReadDecision(otherwise, [ClosePar] + f);
      ReadTest(c, x, y, JoinRead(ps), GoAgent(NodeName(k + 1), a), AgentOf(otherwise), f);
      TestTextApart(c, x, y, f);
  }

  lemma DefinitionTextApart(name: string, y: seq<AgentToken>, f: seq<AgentToken>)
    ensures var ts := [OpenPar, DefineWord, Ident(name), OpenPar, ClosePar, OpenPar] + y + [ClosePar, ClosePar] + f;
            ts[..5] == [OpenPar, DefineWord, Ident(name), OpenPar, ClosePar] &&
            ts[5..] == [OpenPar] + (y + ([ClosePar] + ([ClosePar] + f)))
  {
  }

  /** A definition is read back with its name and its agent. */
  lemma ReadDefinition(name: string, d: Decision, f: seq<AgentToken>)
    requires ReadableDecision(d) && Spells(d)
    ensures DefinitionExp(DefinitionText(name, d) + f) == Some(Read(Definition(name, AgentOf(d)), f))
  {
    var y, after := DecisionText(d), [ClosePar] + f;
    var ts := DefinitionText(name, d) + f;
    DefinitionTextApart(name, y, f);
    ReadDecision(d, [ClosePar] + after);
    ReadInBrackets(y, AgentOf(d), after);
    assert ts[0] == ts[..5][0] && ts[1] == ts[..5][1] && ts[2] == ts[..5][2] && ts[3] == ts[..5][3] &&
      ts[4] == ts[..5][4];
    assert after[1..] == f;
  }

  // ----- deciding -----

  datatype Outcome = Continue(name: string, accept: bool) | Abandon(accept: bool) | Stuck

  /** How the body of a definition runs in a state: tests are evaluated, the observation accept is passed. */
  function Decide(a: Syntax, s: State): Outcome {
    match a
    case Conditional(v, l, r) =>
      var x := ValueIn(v, s);
      if x.None? then Stuck else if x.value != 0 then Decide(l, s) else Decide(r, s)
    case Input(c, ps, Call(name, vs)) =>
      if c != "accept" || ps != [] || vs != [] then Stuck
      else if name == "Abort" then Abandon(true)
      else Continue(name, true)
    case Call(name, vs) =>
      if vs != [] then Stuck
      else if name == "Abort" then Abandon(false)
      else Continue(name, false)
    case _ => Stuck
  }

  function OutcomeOf(d: Decision): Outcome {
    match d
    case GoOn(k, a) => Continue(NodeName(k + 1), a)
    case Abort(a) => Abandon(a)
    case Test(_, _, _, _) => Stuck
  }

  lemma DecideGo(name: string, accept: bool, s: State)
    ensures Decide(GoAgent(name, accept), s) == if name == "Abort" then Abandon(accept) else Continue(name, accept)
  {
  }

  /** The agent that is read decides as the decision that was written. */
  lemma {:induction false} DecideIsChoose(d: Decision, s: State)
    requires Spells(d)
    ensures Decide(AgentOf(d), s) == OutcomeOf(Choose(d, s))
  {
    match d
    case GoOn(k, a) =>
      NameIsOwn(k + 1);
      DecideGo(NodeName(k + 1), a, s);
    case Abort(a) => DecideGo("Abort", a, s);
    case Test(ps, k, a, otherwise) =>
      NameIsOwn(k + 1);
      DecideGo(NodeName(k + 1), a, s);
      JoinReadValue(ps, s);
      DecideIsChoose(otherwise, s);
  }
}
