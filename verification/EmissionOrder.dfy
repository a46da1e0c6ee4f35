/** The text of a decision in the order in which it is emitted: first all tests, then the last alternative,
    then the brackets. */
module EmissionOrder {
  import opened Wrappers
  import opened Formulas
  import opened Conditions
  import opened Tableau
  import opened Soundness
  import opened Generator
  import opened AgentText
  import opened AgentBuffer
  import opened Definitions
  import opened Programs

  /** The first i propositions, and the `&` that is already behind them. */
  function JoinedUpTo(ps: seq<Formula>, i: nat): seq<AgentToken>
    requires i <= |ps| && AllSyntax(ps[..i])
  {
    Joined(ps[..i]) + if 0 < i < |ps| then [Operator(A.And)] else []
  }

  lemma JoinedNext(x: seq<AgentToken>, ps: seq<Formula>, i: nat)
    requires i < |ps| && AllSyntax(ps[..i]) && HasSyntax(ps[i])
    ensures AllSyntax(ps[..i + 1])
    ensures x + JoinedUpTo(ps, i) + Written(ps[i]) == x + Joined(ps[..i + 1])
  {
    var next := ps[..i + 1];
    assert next[..i] == ps[..i] && next[i] == ps[i];
    forall j | 0 <= j <= i ensures HasSyntax(next[j]) { if j < i { assert next[j] == ps[..i][j]; } }
    if i == 0 { assert ps[..0] == []; }
  }

  /** The test of every node. */
  function HeadOf(done: seq<Node>, top: Formula): nat -> seq<AgentToken> {
    (k: nat) =>
      var n := NodeAt(done, k);
      if AllSyntax(Propositions(n.now)) then TestText(Propositions(n.now), k, IsAccepting(n, top)) else []
  }

  /** Every one of the nodes can be tested. */
  predicate Testable(done: seq<Node>, cs: seq<nat>) {
    forall i :: 0 <= i < |cs| ==> AllSyntax(Propositions(NodeAt(done, cs[i]).now))
  }

  /** The part of the text before the last alternative. */
  function Heads(head: nat -> seq<AgentToken>, cs: seq<nat>): seq<AgentToken> {
    if cs == [] then [] else Heads(head, cs[..|cs| - 1]) + head(cs[|cs| - 1])
  }

  function Closes(n: nat): seq<AgentToken> {
    seq(n, i => ClosePar)
  }

  lemma {:induction false} HeadsFront(head: nat -> seq<AgentToken>, cs: seq<nat>)
    requires cs != []
    ensures Heads(head, cs) == head(cs[0]) + Heads(head, cs[1..])
  {
    if |cs| == 1 {
      assert cs[..0] == [] && cs[1..] == [];
    } else {
      var shorter := cs[..|cs| - 1];
      HeadsFront(head, shorter);
      assert shorter[1..] == cs[1..][..|cs| - 2];
      Join2(head(cs[0]), Heads(head, shorter[1..]), head(cs[|cs| - 1]));
    }
  }

  lemma Regroup<T>(a: seq<T>, b: seq<T>, c: seq<T>, d: seq<T>, e: seq<T>)
    ensures a + b + c + (d + e) == a + (b + c + d) + e
  {
  }

  /** A chain can be written when all its tests can. */
  lemma {:induction false} ChainSpells(done: seq<Node>, top: Formula, cs: seq<nat>, last: Decision)
    requires !last.Test? && forall k | k in cs :: Propositions(NodeAt(done, k).now) != []
    ensures Spells(Chain(done, top, cs, last)) <==> Testable(done, cs)
  {
    if cs != [] {
      ChainSpells(done, top, cs[1..], last);
      assert cs[0] in cs;
      if Testable(done, cs[1..]) && AllSyntax(Propositions(NodeAt(done, cs[0]).now)) {
        forall i | 0 <= i < |cs| ensures AllSyntax(Propositions(NodeAt(done, cs[i]).now)) {
          if i > 0 { assert cs[i] == cs[1..][i - 1]; }
        }
      }
    }
  }

  lemma ChainFront(done: seq<Node>, top: Formula, cs: seq<nat>, last: Decision)
    requires cs != [] && Spells(Chain(done, top, cs, last))
    ensures Spells(Chain(done, top, cs[1..], last))
    ensures DecisionText(Chain(done, top, cs, last)) ==
            HeadOf(done, top)(cs[0]) + DecisionText(Chain(done, top, cs[1..], last)) + [ClosePar]
  {
  }

  /** The tests, the last alternative and one bracket for each test make up the text of the chain. */
  lemma {:induction false} HeadsAndCloses(done: seq<Node>, top: Formula, cs: seq<nat>, last: Decision)
    requires Spells(last) && Spells(Chain(done, top, cs, last))
    ensures HeadsFrame(HeadOf(done, top), cs, DecisionText(last), DecisionText(Chain(done, top, cs, last)))
  {
    var head, text := HeadOf(done, top), DecisionText(last);
    if cs == [] {
      FrameNone(head, text);
    } else {
      ChainFront(done, top, cs, last);
      HeadsAndCloses(done, top, cs[1..], last);
      FrameNext(head, cs, text, DecisionText(Chain(done, top, cs[1..], last)));
    }
  }

  predicate HeadsFrame(head: nat -> seq<AgentToken>, cs: seq<nat>, inner: seq<AgentToken>, whole: seq<AgentToken>) {
    Heads(head, cs) + inner + Closes(|cs|) == whole
  }

  lemma FrameNone(head: nat -> seq<AgentToken>, inner: seq<AgentToken>)
    ensures HeadsFrame(head, [], inner, inner)
  {
    assert Closes(0) == [];
  }

  lemma FrameNext(head: nat -> seq<AgentToken>, cs: seq<nat>, inner: seq<AgentToken>, whole: seq<AgentToken>)
    requires cs != [] && HeadsFrame(head, cs[1..], inner, whole)
    ensures HeadsFrame(head, cs, inner, head(cs[0]) + whole + [ClosePar])
  {
    var rest := cs[1..];
    HeadsFront(head, cs);
    assert Closes(|cs|) == Closes(|rest|) + [ClosePar];
    Regroup(head(cs[0]), Heads(head, rest), inner, Closes(|rest|), [ClosePar]);
  }

  lemma HeadsNext(x: seq<AgentToken>, head: nat -> seq<AgentToken>, cs: seq<nat>, i: nat)
    requires i < |cs|
    ensures x + Heads(head, cs[..i]) + head(cs[i]) == x + Heads(head, cs[..i + 1])
  {
    var next := cs[..i + 1];
    assert next[..i] == cs[..i] && next[i] == cs[i];
    Join2(x, Heads(head, cs[..i]), head(cs[i]));
  }

  lemma TestableNext(done: seq<Node>, cs: seq<nat>, i: nat)
    requires i < |cs| && Testable(done, cs[..i]) && AllSyntax(Propositions(NodeAt(done, cs[i]).now))
    ensures Testable(done, cs[..i + 1])
  {
    var next := cs[..i + 1];
    forall j | 0 <= j <= i ensures AllSyntax(Propositions(NodeAt(done, next[j]).now)) {
      if j < i { assert next[j] == cs[..i][j]; }
    }
  }

  /** The tests of cs, the alternative after them and the brackets spell d. */
  ghost predicate IsBody(d: Decision, done: seq<Node>, top: Formula, cs: seq<nat>, last: Decision) {
    && Spells(last) && (Spells(d) <==> Testable(done, cs))
    && (Spells(d) ==> DecisionText(d) == Heads(HeadOf(done, top), cs) + DecisionText(last) + Closes(|cs|))
  }

  lemma ChainIsBody(done: seq<Node>, top: Formula, cs: seq<nat>, last: Decision)
    requires !last.Test? && forall k | k in cs :: Propositions(NodeAt(done, k).now) != []
    ensures IsBody(Chain(done, top, cs, last), done, top, cs, last)
  {
    ChainSpells(done, top, cs, last);
    if Testable(done, cs) { HeadsAndCloses(done, top, cs, last); }
  }

  lemma DecisionIsBody(done: seq<Node>, top: Formula, m: NodeRef)
    requires DecisionOf(done, top, m).Some?
    ensures var ks := Outgoing(m, done);
            var cs, es := Conditionals(done, ks), Elses(done, ks);
            IsBody(DecisionOf(done, top, m).value, done, top, cs, LastOf(done, top, cs, es))
  {
    var ks := Outgoing(m, done);
    var cs, es := Conditionals(done, ks), Elses(done, ks);
    forall k | k in cs ensures Propositions(NodeAt(done, k).now) != [] { SplitMembers(done, ks, k); }
    ChainIsBody(done, top, cs, LastOf(done, top, cs, es));
  }

  /** The definition of a node fails for two successors without a test; else it is the text of its decision. */
  lemma DefinitionForDecision(done: seq<Node>, top: Formula, m: NodeRef, name: string)
    ensures |Elses(done, Outgoing(m, done))| > 1 ==> DefinitionFor(done, top, m, name) == None
    ensures |Elses(done, Outgoing(m, done))| <= 1 ==>
              DecisionOf(done, top, m).Some? && IsDefinition(DefinitionFor(done, top, m, name), name,
                                                             DecisionOf(done, top, m).value)
  {
  }

  predicate IsDefinition(text: Option<seq<AgentToken>>, name: string, d: Decision) {
    text == if Spells(d) then Some(DefinitionText(name, d)) else None
  }

  lemma BodyText(x: seq<AgentToken>, d: Decision, done: seq<Node>, top: Formula, cs: seq<nat>, last: Decision)
    requires IsBody(d, done, top, cs, last) && Spells(d)
    ensures x + Heads(HeadOf(done, top), cs) + DecisionText(last) + Closes(|cs|) == x + DecisionText(d)
  {
    Join3(x, Heads(HeadOf(done, top), cs), DecisionText(last), Closes(|cs|));
  }

  // ----- the definitions one after the other -----

  /** After i definitions the text has grown from before to now. */
  ghost predicate Emitted(before: seq<AgentToken>, done: seq<Node>, top: Formula, i: nat, now: seq<AgentToken>) {
    i <= |done| + 1 &&
    var texts := Together(DefinitionTexts(done, top)[..i]);
    texts.Some? && now == before + texts.value
  }

  lemma EmittedNone(before: seq<AgentToken>, done: seq<Node>, top: Formula)
    ensures Emitted(before, done, top, 0, before)
  {
    assert DefinitionTexts(done, top)[..0] == [];
  }

  lemma TogetherNext(before: seq<AgentToken>, texts: seq<Option<seq<AgentToken>>>, i: nat, now: seq<AgentToken>)
    requires i < |texts| && Together(texts[..i]).Some? && texts[i].Some? && now == before + Together(texts[..i]).value
    ensures Together(texts[..i + 1]).Some? && now + texts[i].value == before + Together(texts[..i + 1]).value
  {
    assert texts[..i + 1] == texts[..i] + [texts[i]];
    TogetherLast(texts[..i], texts[i]);
    Join2(before, Together(texts[..i]).value, texts[i].value);
  }

  lemma TextAt(done: seq<Node>, top: Formula, i: nat)
    requires i <= |done|
    ensures |DefinitionTexts(done, top)| == |done| + 1 && DefinitionTexts(done, top)[i] == DefinitionOf(done, top, i)
  {
  }

  lemma EmittedNext(before: seq<AgentToken>, done: seq<Node>, top: Formula, i: nat, now: seq<AgentToken>)
    requires i <= |done| && Emitted(before, done, top, i, now) && DefinitionOf(done, top, i).Some?
    ensures Emitted(before, done, top, i + 1, now + DefinitionOf(done, top, i).value)
  {
    TextAt(done, top, i);
    TogetherNext(before, DefinitionTexts(done, top), i, now);
  }

  lemma EmittedAll(before: seq<AgentToken>, done: seq<Node>, top: Formula, now: seq<AgentToken>)
    requires Emitted(before, done, top, |done| + 1, now)
    ensures ProgramText(done, top).Some? && now == before + ProgramText(done, top).value
  {
    var texts := DefinitionTexts(done, top);
    assert texts[..|done| + 1] == texts;
  }
}
