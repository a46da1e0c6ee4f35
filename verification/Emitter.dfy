/** The emission of process definitions (src/ltl/buchi-converter.c, src/ltl/ltl-token.c) into a buffer: what
    buchi2ccs appends for a list of linked nodes is the text of their decisions. */
module Emitter {
  import opened Wrappers
  import opened Formulas
  import opened Conditions
  import opened Tableau
  import opened Converter
  import opened Generator
  import opened Pipeline
  import opened NodeNames
  import opened AgentText
  import opened AgentBuffer
  import opened Definitions
  import opened Programs
  import opened EmissionOrder

  // ----- propositions -----

  /** ltl_token2css_syntax; false is the failed assertion of an operator without a spelling. */
  method WriteProposition(b: Buffer, p: Formula) returns (ok: bool)
    modifies b
    ensures ok == HasSyntax(p)
    ensures ok ==> b.text == old(b.text) + Written(p)
    decreases p, 0
  {
    ok := true;
    match p
    case Id(x) => b.Put(Scanned(x));
    case IntValue(n) =>
      if n < 0 {
        b.Put(Operator(A.Minus));
        b.Put(Number(-n));
      } else {
        b.Put(Number(n));
      }
    case BoolValue(t) => b.Put(Truth(t));
    case Unary(op, a) =>
      if op != UnaryOp.Not { return false; }
      b.Put(AgentToken.Not);
      ok := WriteInBrackets(b, a);
      if ok { Join2(old(b.text), [AgentToken.Not], InBrackets(a)); }
    case Binary(op, l, r) =>
      ok := WriteInBrackets(b, l);
      if !ok || !HasSpelling(op) { return false; }
      b.Put(Operator(OperatorOf(op)));
      ok := WriteInBrackets(b, r);
      if ok { Join3(old(b.text), InBrackets(l), [Operator(OperatorOf(op))], InBrackets(r)); }
    case Bracket(a) => ok := WriteInBrackets(b, a);
  }

  method WriteInBrackets(b: Buffer, p: Formula) returns (ok: bool)
    modifies b
    ensures ok == HasSyntax(p)
    ensures ok ==> b.text == old(b.text) + InBrackets(p)
    decreases p, 1
  {
    b.Put(OpenPar);
    ok := WriteProposition(b, p);
    if ok {
      b.Put(ClosePar);
      Join3(old(b.text), [OpenPar], Written(p), [ClosePar]);
    }
  }

  /** The loop over the propositions of a node. */
  method EmitCondition(b: Buffer, ps: seq<Formula>) returns (ok: bool)
    modifies b
    ensures ok == AllSyntax(ps)
    ensures ok ==> b.text == old(b.text) + Joined(ps)
  {
    assert ps[..0] == [];
    for i := 0 to |ps|
      invariant AllSyntax(ps[..i]) && b.text == old(b.text) + JoinedUpTo(ps, i)
    {
      ok := WriteProposition(b, ps[i]);
      if !ok { return; }
      JoinedNext(old(b.text), ps, i);
      if i + 1 < |ps| {
        b.Put(Operator(A.And));
      }
      assert b.text == old(b.text) + JoinedUpTo(ps, i + 1);
    }
    assert ps[..|ps|] == ps;
    ok := true;
  }

  // ----- the successors of a node -----

  lemma SplitStep(done: seq<Node>, ks: seq<nat>, i: nat)
    requires i < |ks|
    ensures var u := Unconditional(NodeAt(done, ks[i]));
      && Elses(done, ks[..i + 1]) == Elses(done, ks[..i]) + (if u then [ks[i]] else [])
      && Conditionals(done, ks[..i + 1]) == Conditionals(done, ks[..i]) + (if u then [] else [ks[i]])
  {
    assert ks[..i + 1][..i] == ks[..i];
  }

  lemma {:induction false} ElsesGrow(done: seq<Node>, ks: seq<nat>, i: nat)
    requires i <= |ks|
    ensures |Elses(done, ks[..i])| <= |Elses(done, ks)|
    decreases |ks| - i
  {
    if i == |ks| {
      assert ks[..i] == ks;
    } else {
      ElsesGrow(done, ks, i + 1);
      SplitStep(done, ks, i);
    }
  }

  lemma PlaceStep(done: seq<Node>, ks: seq<nat>, i: nat, nodes: seq<BuchiNode>, ni: BuchiNode,
                  conditionals: seq<BuchiNode>, elses: seq<BuchiNode>)
    requires i < |ks| && ks[i] < |nodes| && ni == nodes[ks[i]]
    requires Denotes(conditionals, nodes, Conditionals(done, ks[..i])) && Denotes(elses, nodes, Elses(done, ks[..i]))
    ensures var u := Unconditional(NodeAt(done, ks[i]));
      && Denotes(conditionals + (if u then [] else [ni]), nodes, Conditionals(done, ks[..i + 1]))
      && Denotes(elses + (if u then [ni] else []), nodes, Elses(done, ks[..i + 1]))
  {
    SplitStep(done, ks, i);
    if Unconditional(NodeAt(done, ks[i])) {
      DenotesAppend(elses, ni, nodes, Elses(done, ks[..i]), ks[i]);
      assert conditionals + [] == conditionals;
    } else {
      DenotesAppend(conditionals, ni, nodes, Conditionals(done, ks[..i]), ks[i]);
      assert elses + [] == elses;
    }
  }

  /** Whether the node is entered without a test. */
  method IsElse(ni: BuchiNode, ghost nodes: seq<BuchiNode>, ghost k: nat) returns (b: bool)
    requires Named(nodes) && k < |nodes| && ni == nodes[k]
    ensures b == Unconditional(NodeAt(ValuesOf(nodes), k))
  {
    assert NodeAt(ValuesOf(nodes), k).now == ni.now;
    b := ni.required == [] || (|ni.required| == 1 && IsTrue(ni.required[0]));
  }

  /** The first loop of buchi2ccs: splits the successors; false is the failed assertion. */
  method SplitSuccessors(m: BuchiNode, nodes: seq<BuchiNode>, ghost ks: seq<nat>)
    returns (ok: bool, conditionals: seq<BuchiNode>, elses: seq<BuchiNode>)
    requires Named(nodes) && Denotes(m.outgoing, nodes, ks)
    ensures ok == (|Elses(ValuesOf(nodes), ks)| <= 1)
    ensures ok ==> Denotes(conditionals, nodes, Conditionals(ValuesOf(nodes), ks))
    ensures ok ==> Denotes(elses, nodes, Elses(ValuesOf(nodes), ks))
  {
    ghost var done := ValuesOf(nodes);
    conditionals, elses, ok := [], [], true;
    var i := 0;
    while i < |m.outgoing| && ok
      invariant i <= |m.outgoing|
      invariant ok ==> |elses| <= 1 && Denotes(conditionals, nodes, Conditionals(done, ks[..i]))
      invariant ok ==> Denotes(elses, nodes, Elses(done, ks[..i]))
      invariant !ok ==> |Elses(done, ks)| > 1
    {
      var ni := m.outgoing[i];
      PlaceStep(done, ks, i, nodes, ni, conditionals, elses);
      ElsesGrow(done, ks, i + 1);
      var isElse := IsElse(ni, nodes, ks[i]);
      if !isElse {
        conditionals := conditionals + [ni];
      } else if elses == [] {
        elses := [ni];
      } else {
        ok := false;
      }
      i := i + 1;
    }
    assert ks[..|ks|] == ks;
  }

  // ----- definitions -----

  /** An agent goes on under a name, with the accept action in front of it or not. */
  method EmitGo(b: Buffer, name: string, accept: bool)
    modifies b
    ensures b.text == old(b.text) + GoText(name, accept)
  {
    if accept {
      b.Put(Ident("accept"));
      b.Put(Colon);
    }
    b.Put(Ident(name));
  }

  /** `if (c1 & ... & cn) (agent) (` */
  method EmitHead(b: Buffer, ps: seq<Formula>, number: nat, accept: bool) returns (ok: bool)
    requires number > 0
    modifies b
    ensures ok == AllSyntax(ps)
    ensures ok ==> b.text == old(b.text) + TestText(ps, number - 1, accept)
  {
    b.Put(IfWord);
    b.Put(OpenPar);
    assert b.text == old(b.text) + [IfWord, OpenPar];
    ok := EmitCondition(b, ps);
    if ok {
      EmitBranch(b, NodeName(number), accept);
      JoinTest(old(b.text), Joined(ps), GoText(NodeName(number), accept));
    }
  }

  /** `) (agent) (` */
  method EmitBranch(b: Buffer, name: string, accept: bool)
    modifies b
    ensures b.text == old(b.text) + [ClosePar, OpenPar] + GoText(name, accept) + [ClosePar, OpenPar]
  {
    b.Put(ClosePar);
    b.Put(OpenPar);
    assert b.text == old(b.text) + [ClosePar, OpenPar];
    EmitGo(b, name, accept);
    ghost var before := b.text;
    b.Put(ClosePar);
    b.Put(OpenPar);
    assert b.text == before + [ClosePar, OpenPar];
  }

  lemma JoinTest(x: seq<AgentToken>, c: seq<AgentToken>, go: seq<AgentToken>)
    ensures x + [IfWord, OpenPar] + c + [ClosePar, OpenPar] + go + [ClosePar, OpenPar] ==
            x + ([IfWord, OpenPar] + c + [ClosePar, OpenPar] + go + [ClosePar, OpenPar])
  {
  }

  /** The tests of the conditional successors. */
  method EmitHeads(b: Buffer, conditionals: seq<BuchiNode>, ghost nodes: seq<BuchiNode>, ghost top: Formula,
                   ghost done: seq<Node>, ghost cs: seq<nat>)
    returns (ok: bool)
    requires Shows(nodes, top, done) && Denotes(conditionals, nodes, cs)
    modifies b
    ensures ok == Testable(done, cs)
    ensures ok ==> b.text == old(b.text) + Heads(HeadOf(done, top), cs)
  {
    assert cs[..0] == [];
    for i := 0 to |conditionals|
      invariant Testable(done, cs[..i]) && b.text == old(b.text) + Heads(HeadOf(done, top), cs[..i])
    {
      var ni := conditionals[i];
      assert ni == nodes[cs[i]] && NodeAt(done, cs[i]) == ValueOf(ni, nodes);
      ok := EmitHead(b, ni.required, ni.number, ni.isAccepting);
      if !ok { return; }
      HeadsNext(old(b.text), HeadOf(done, top), cs, i);
      TestableNext(done, cs, i);
    }
    assert cs[..|cs|] == cs;
    ok := true;
  }

  /** The alternative after all tests. */
  method EmitLast(b: Buffer, conditionals: seq<BuchiNode>, elses: seq<BuchiNode>, ghost nodes: seq<BuchiNode>,
                  ghost top: Formula, ghost done: seq<Node>, ghost cs: seq<nat>, ghost es: seq<nat>)
    requires Shows(nodes, top, done) && Denotes(conditionals, nodes, cs) && Denotes(elses, nodes, es) && |es| <= 1
    modifies b
    ensures b.text == old(b.text) + DecisionText(LastOf(done, top, cs, es))
  {
    if elses != [] {
      assert elses[0] == nodes[es[0]] && NodeAt(done, es[0]) == ValueOf(elses[0], nodes);
      EmitGo(b, NodeName(elses[0].number), elses[0].isAccepting);
    } else {
      EmitGo(b, "Abort", conditionals == []);
    }
  }

  /** The brackets that close the tests. */
  method EmitCloses(b: Buffer, depth: nat)
    modifies b
    ensures b.text == old(b.text) + Closes(depth)
  {
    var d := depth;
    while d > 0
      invariant 0 <= d <= depth && b.text == old(b.text) + Closes(depth - d)
    {
      b.Put(ClosePar);
      d := d - 1;
    }
  }

  method EmitBody(b: Buffer, conditionals: seq<BuchiNode>, elses: seq<BuchiNode>, ghost nodes: seq<BuchiNode>,
                  ghost top: Formula, ghost done: seq<Node>, ghost cs: seq<nat>, ghost es: seq<nat>, ghost d: Decision)
    returns (ok: bool)
    requires Shows(nodes, top, done) && Denotes(conditionals, nodes, cs) && Denotes(elses, nodes, es) && |es| <= 1
    requires IsBody(d, done, top, cs, LastOf(done, top, cs, es))
    modifies b
    ensures ok == Spells(d) && (ok ==> b.text == old(b.text) + DecisionText(d))
  {
    ok := EmitHeads(b, conditionals, nodes, top, done, cs);
    if ok {
      EmitLast(b, conditionals, elses, nodes, top, done, cs, es);
      EmitCloses(b, |conditionals|);
      BodyText(old(b.text), d, done, top, cs, LastOf(done, top, cs, es));
    }
  }

  lemma EdgesOf(m: BuchiNode, nodes: seq<BuchiNode>, init: BuchiNode, done: seq<Node>)
    requires NoDuplicates(nodes) && init !in nodes && (m in nodes || m == init)
    requires EdgesInto(nodes, init, done, |done|)
    ensures Denotes(m.outgoing, nodes, Outgoing(RefOf(m, nodes), done))
  {
    if m in nodes {
      var j := IndexOf(m, nodes);
      assert HasEdges(nodes, j, OutgoingUpTo(At(j), done, |done|));
    }
  }

  /** The name that a definition starts with. */
  function Annotation(number: nat): string {
    if number == 0 then InitialName else NodeName(number)
  }

  /** The definition that buchi2ccs emits for a node; false is a failed assertion. */
  method EmitDefinition(b: Buffer, m: BuchiNode, nodes: seq<BuchiNode>, init: BuchiNode, ghost top: Formula,
                        ghost done: seq<Node>)
    returns (ok: bool)
    requires BuiltAs(nodes, init, top, done) && (m in nodes || m == init)
    modifies b
    ensures var text := DefinitionFor(done, top, RefOf(m, nodes), Annotation(m.number));
            ok == text.Some? && (ok ==> b.text == old(b.text) + text.value)
  {
    ghost var ref := RefOf(m, nodes);
    ghost var ks := Outgoing(ref, done);
    EdgesOf(m, nodes, init, done);
    var conditionals, elses;
    ok, conditionals, elses := SplitSuccessors(m, nodes, ks);
    DefinitionForDecision(done, top, ref, Annotation(m.number));
    if ok {
      DecisionIsBody(done, top, ref);
      ok := EmitSplit(b, Annotation(m.number), conditionals, elses, nodes, top, done,
                      Conditionals(done, ks), Elses(done, ks), DecisionOf(done, top, ref).value);
    }
  }

  method EmitSplit(b: Buffer, name: string, conditionals: seq<BuchiNode>, elses: seq<BuchiNode>,
                   ghost nodes: seq<BuchiNode>, ghost top: Formula, ghost done: seq<Node>,
                   ghost cs: seq<nat>, ghost es: seq<nat>, ghost d: Decision)
    returns (ok: bool)
    requires Shows(nodes, top, done) && Denotes(conditionals, nodes, cs) && Denotes(elses, nodes, es) && |es| <= 1
    requires IsBody(d, done, top, cs, LastOf(done, top, cs, es))
    modifies b
    ensures ok == Spells(d) && (ok ==> b.text == old(b.text) + DefinitionText(name, d))
  {
    ghost var front := [OpenPar, DefineWord, Ident(name), OpenPar, ClosePar, OpenPar];
    EmitFront(b, name);
    ok := EmitBody(b, conditionals, elses, nodes, top, done, cs, es, d);
    if ok {
      EmitBack(b);
      Join3(old(b.text), front, DecisionText(d), [ClosePar, ClosePar]);
    }
  }

  /** `))` */
  method EmitBack(b: Buffer)
    modifies b
    ensures b.text == old(b.text) + [ClosePar, ClosePar]
  {
    b.Put(ClosePar);
    b.Put(ClosePar);
  }

  /** `(define name () (` */
  method EmitFront(b: Buffer, name: string)
    modifies b
    ensures b.text == old(b.text) + [OpenPar, DefineWord, Ident(name), OpenPar, ClosePar, OpenPar]
  {
    b.Put(OpenPar);
    b.Put(DefineWord);
    b.Put(Ident(name));
    b.Put(OpenPar);
    b.Put(ClosePar);
    b.Put(OpenPar);
  }

  // ----- the whole list -----

  lemma NameAndRef(m: BuchiNode, nodes: seq<BuchiNode>, init: BuchiNode, top: Formula, k: nat)
    requires BuiltFor(nodes, init, top) && k <= |nodes| && m == (nodes + [init])[k]
    ensures RefOf(m, nodes) == RefAt(k, |nodes|) && (m in nodes || m == init)
    ensures Annotation(m.number) == NameAt(k, |nodes|)
  {
    if k < |nodes| { IndexOfUnique(m, nodes, k); }
  }

  /** Appends the next definition. */
  method EmitNext(b: Buffer, m: BuchiNode, nodes: seq<BuchiNode>, init: BuchiNode, ghost top: Formula,
                  ghost done: seq<Node>, ghost k: nat)
    returns (ok: bool)
    requires BuiltAs(nodes, init, top, done) && k <= |nodes| && m == (nodes + [init])[k]
    modifies b
    ensures var text := DefinitionOf(done, top, k);
            ok == text.Some? && (ok ==> b.text == old(b.text) + text.value)
  {
    NameAndRef(m, nodes, init, top, k);
    ok := EmitDefinition(b, m, nodes, init, top, done);
  }

  /** buchi2ccs: the definitions of the completed nodes and of the initial one; false is a failed assertion. */
  method Buchi2Ccs(b: Buffer, nodes: seq<BuchiNode>, init: BuchiNode, ghost top: Formula, ghost done: seq<Node>)
    returns (ok: bool)
    requires BuiltAs(nodes, init, top, done)
    modifies b
    ensures var text := ProgramText(done, top);
            ok == text.Some? && (ok ==> b.text == old(b.text) + text.value)
  {
    var all := nodes + [init];
    EmittedNone(b.text, done, top);
    for i := 0 to |all|
      invariant Emitted(old(b.text), done, top, i, b.text)
    {
      ghost var before := b.text;
      ok := EmitNext(b, all[i], nodes, init, top, done, i);
      if !ok {
        WritingFails(done, top, i);
        return;
      }
      EmittedNext(old(b.text), done, top, i, before);
    }
    EmittedAll(old(b.text), done, top, b.text);
    ok := true;
  }
}
