/** The program that is read from the generated text accepts the words that the generated process accepts. */
module ProgramRuns {
  import opened Wrappers
  import opened Formulas
  import opened Conditions
  import opened Tableau
  import opened Soundness
  import opened Language
  import opened Normalizer
  import opened TableauFacts
  import opened Generator
  import opened Simulation
  import opened Processes
  import opened NodeNames
  import opened AgentText
  import opened AgentParser
  import opened Definitions
  import opened Programs

  /** The definition with the name of a node is the one of that node. */
  lemma BodyOfNode(done: seq<Node>, top: Formula, k: nat)
    requires ProgramText(done, top).Some? && |done| < 100000 && k <= |done|
    ensures BodyOf(ReadDefinitions(done, top), NameAt(k, |done|)) == Some(BodyAt(done, top, k))
  {
    var defs, n := ReadDefinitions(done, top), |done|;
    NamesDifferExactly(n);
    forall j | k < j < |defs| ensures defs[j].name != defs[k].name {
      NameIsOwn(k + 1);
      if j < n { assert NodeName(k + 1) != NodeName(j + 1); }
    }
    BodyOfAt(defs, k);
  }

  /** From the k-th node the text goes on exactly as the decision of the node chooses. */
  lemma TextDecides(done: seq<Node>, top: Formula, k: nat, s: State)
    requires ProgramText(done, top).Some? && |done| < 100000 && k <= |done|
    ensures DecisionOf(done, top, RefAt(k, |done|)).Some?
    ensures var body := BodyOf(ReadDefinitions(done, top), NameAt(k, |done|));
            body.Some? && Decide(body.value, s) == OutcomeOf(Choose(DecisionOf(done, top, RefAt(k, |done|)).value, s))
  {
    WrittenDefinition(done, top, k);
    BodyOfNode(done, top, k);
    DecideIsChoose(DecisionOf(done, top, RefAt(k, |done|)).value, s);
  }

  /** The definition that is read abandons the run if and only if no successor of its node is first, and passes
      accept then if and only if none of them is tested; otherwise it goes on. */
  lemma TextAbandons(done: seq<Node>, top: Formula, k: nat, s: State, accept: bool)
    requires ProgramText(done, top).Some? && |done| < 100000 && k <= |done|
    ensures var body := BodyOf(ReadDefinitions(done, top), NameAt(k, |done|));
            body.Some? && (Decide(body.value, s) == Abandon(accept) <==>
                           (forall j :: !IsFirst(done, RefAt(k, |done|), s, j)) &&
                           accept == !HasTest(done, RefAt(k, |done|)))
  {
    TextDecides(done, top, k, s);
    AbandonsExactly(done, top, RefAt(k, |done|), s, accept);
  }

  // ----- the text accepts what the process accepts -----

  lemma ChoiceInside(done: seq<Node>, top: Formula, m: NodeRef, s: State)
    requires DecisionOf(done, top, m).Some?
    ensures var c := Choose(DecisionOf(done, top, m).value, s);
            c.GoOn? ==> c.target < |done|
  {
    var c := Choose(DecisionOf(done, top, m).value, s);
    if c.GoOn? {
      GoesOnExactly(done, top, m, s, c.target, c.accept);
      FirstFollowsEdge(done, m, s, c.target);
    }
  }

  lemma ProcessStep(done: seq<Node>, top: Formula, k: nat, s: State, t: nat, accept: bool)
    requires ProgramText(done, top).Some? && |done| < 100000 && k <= |done|
    requires StepsTo(done, top, RefAt(k, |done|), s, t, accept)
    ensures TextStepsTo(ReadDefinitions(done, top), NameAt(k, |done|), s, NodeName(t + 1), accept) && t < |done|
  {
    TextDecides(done, top, k, s);
    ChoiceInside(done, top, RefAt(k, |done|), s);
  }

  lemma NodeOfName(k: nat)
    requires k < 99999
    ensures NodeOf(NodeName(k + 1)) == k
  {
    FiveDigits(k + 1);
    assert NodeName(k + 1)[4..] == Padded(k + 1);
    NumberOfPadded(k + 1);
  }

  lemma OutcomeGoesOn(d: Decision, name: string, accept: bool, n: nat)
    requires OutcomeOf(d) == Continue(name, accept) && n < 100000 && (d.GoOn? ==> d.target < n)
    ensures d == GoOn(NodeOf(name), accept) && NodeOf(name) < n && name == NodeName(NodeOf(name) + 1)
  {
    NodeOfName(d.target);
  }

  lemma TextStepOutcome(done: seq<Node>, top: Formula, k: nat, s: State, name: string, accept: bool)
    requires ProgramText(done, top).Some? && |done| < 100000 && k <= |done|
    requires TextStepsTo(ReadDefinitions(done, top), NameAt(k, |done|), s, name, accept)
    ensures DecisionOf(done, top, RefAt(k, |done|)).Some?
    ensures OutcomeOf(Choose(DecisionOf(done, top, RefAt(k, |done|)).value, s)) == Continue(name, accept)
  {
    TextDecides(done, top, k, s);
  }

  lemma TextStep(done: seq<Node>, top: Formula, k: nat, s: State, name: string, accept: bool)
    requires ProgramText(done, top).Some? && |done| < 100000 && k <= |done|
    requires TextStepsTo(ReadDefinitions(done, top), NameAt(k, |done|), s, name, accept)
    ensures NodeOf(name) < |done| && name == NodeName(NodeOf(name) + 1)
    ensures StepsTo(done, top, RefAt(k, |done|), s, NodeOf(name), accept)
  {
    TextStepOutcome(done, top, k, s, name, accept);
    var m := RefAt(k, |done|);
    ChoiceInside(done, top, m, s);
    OutcomeGoesOn(Choose(DecisionOf(done, top, m).value, s), name, accept, |done|);
  }

  // Both are runs of a step relation, on names and on nodes.

  function NodeStepOf(done: seq<Node>, top: Formula): (NodeRef, State, NodeRef, bool) -> bool {
    (m: NodeRef, s: State, next: NodeRef, accept: bool) => next.At? && StepsTo(done, top, m, s, next.index, accept)
  }

  function NameOf(m: NodeRef): string {
    match m
    case Start => InitialName
    case At(k) => NodeName(k + 1)
  }

  function RefOfName(name: string): NodeRef {
    if name == InitialName then Start else At(NodeOf(name))
  }

  predicate IsRef(m: NodeRef, n: nat) {
    m.At? ==> m.index < n
  }

  /** The names of the initial node and of n nodes. */
  predicate IsName(name: string, n: nat) {
    IsRef(RefOfName(name), n) && name == NameOf(RefOfName(name))
  }

  function IndexOf(m: NodeRef, n: nat): nat {
    if m.At? then m.index else n
  }

  lemma RefAndName(m: NodeRef, n: nat)
    requires IsRef(m, n)
    ensures IndexOf(m, n) <= n && m == RefAt(IndexOf(m, n), n) && NameOf(m) == NameAt(IndexOf(m, n), n)
  {
  }

  lemma TextCarries(done: seq<Node>, top: Formula, name: string, s: State, next: string, accept: bool)
    requires ProgramText(done, top).Some? && |done| < 100000 && IsName(name, |done|)
    requires TextStepsTo(ReadDefinitions(done, top), name, s, next, accept)
    ensures IsName(next, |done|) && RefOfName(next) == At(NodeOf(next))
    ensures StepsTo(done, top, RefOfName(name), s, NodeOf(next), accept)
  {
    var m := RefOfName(name);
    RefAndName(m, |done|);
    TextStep(done, top, IndexOf(m, |done|), s, next, accept);
    NodeNameIsName(next, |done|);
  }

  lemma NodeNameIsName(name: string, n: nat)
    requires NodeOf(name) < n && name == NodeName(NodeOf(name) + 1)
    ensures IsName(name, n) && RefOfName(name) == At(NodeOf(name))
  {
    NameIsOwn(NodeOf(name) + 1);
  }

  lemma NodeCarries(done: seq<Node>, top: Formula, m: NodeRef, s: State, k: nat, accept: bool)
    requires ProgramText(done, top).Some? && |done| < 100000 && IsRef(m, |done|)
    requires StepsTo(done, top, m, s, k, accept)
    ensures k < |done|
    ensures TextStepsTo(ReadDefinitions(done, top), NameOf(m), s, NodeName(k + 1), accept)
  {
    RefAndName(m, |done|);
    ProcessStep(done, top, IndexOf(m, |done|), s, k, accept);
  }

  lemma TextToNodes(done: seq<Node>, top: Formula, names: nat -> string, accepts: nat -> bool, w: Word,
                    nodes: nat -> NodeRef)
    requires ProgramText(done, top).Some? && |done| < 100000
    requires TextRuns(ReadDefinitions(done, top), names, accepts, w) && Images(RefOfName, names, nodes)
    ensures Loops(NodeStepOf(done, top), Start, nodes, accepts, w)
  {
    var text, node := TextStepOf(ReadDefinitions(done, top)), NodeStepOf(done, top);
    var inside := (name: string) => IsName(name, |done|);
    forall name, s, next, accept ensures CarriesAt(text, node, inside, RefOfName, name, s, next, accept) {
      if IsName(name, |done|) && TextStepsTo(ReadDefinitions(done, top), name, s, next, accept) {
        TextCarries(done, top, name, s, next, accept);
      }
    }
    LoopCarries(text, node, inside, RefOfName, InitialName, names, nodes, accepts, w);
  }

  lemma NodesToText(done: seq<Node>, top: Formula, nodes: nat -> NodeRef, accepts: nat -> bool, w: Word,
                    names: nat -> string)
    requires ProgramText(done, top).Some? && |done| < 100000
    requires Loops(NodeStepOf(done, top), Start, nodes, accepts, w) && Images(NameOf, nodes, names)
    ensures TextRuns(ReadDefinitions(done, top), names, accepts, w)
  {
    var text, node := TextStepOf(ReadDefinitions(done, top)), NodeStepOf(done, top);
    var inside := (m: NodeRef) => IsRef(m, |done|);
    forall m, s, next, accept ensures CarriesAt(node, text, inside, NameOf, m, s, next, accept) {
      if IsRef(m, |done|) && next.At? && StepsTo(done, top, m, s, next.index, accept) {
        NodeCarries(done, top, m, s, next.index, accept);
      }
    }
    LoopCarries(node, text, inside, NameOf, Start, nodes, names, accepts, w);
  }

  predicate IsAt(r: Run, nodes: nat -> NodeRef, i: nat) {
    nodes(i) == At(r(i))
  }

  ghost predicate AllAt(r: Run, nodes: nat -> NodeRef) {
    forall i: nat :: IsAt(r, nodes, i)
  }

  lemma NodeLoops(done: seq<Node>, top: Formula, r: Run, nodes: nat -> NodeRef, accepts: nat -> bool, w: Word)
    requires AllAt(r, nodes)
    ensures Loops(NodeStepOf(done, top), Start, nodes, accepts, w) <==> ProcessRuns(done, top, r, accepts, w)
  {
    forall i: nat
      ensures LoopsAt(NodeStepOf(done, top), Start, nodes, accepts, w, i) == GoesTo(done, top, r, accepts, w, i)
    {
      assert IsAt(r, nodes, i) && (i > 0 ==> IsAt(r, nodes, i - 1));
    }
  }

  lemma NodesAreAt(done: seq<Node>, top: Formula, nodes: nat -> NodeRef, accepts: nat -> bool, w: Word)
    requires Loops(NodeStepOf(done, top), Start, nodes, accepts, w)
    ensures exists r: Run :: ProcessRuns(done, top, r, accepts, w)
  {
    var r: Run := (i: nat) => if nodes(i).At? then nodes(i).index else 0;
    forall i: nat ensures IsAt(r, nodes, i) {
      assert LoopsAt(NodeStepOf(done, top), Start, nodes, accepts, w, i);
    }
    NodeLoops(done, top, r, nodes, accepts, w);
  }

  lemma NodesOfNames(names: nat -> string) returns (nodes: nat -> NodeRef)
    ensures Images(RefOfName, names, nodes)
  {
    nodes := (i: nat) => RefOfName(names(i));
  }

  lemma NamesOfRun(r: Run) returns (nodes: nat -> NodeRef, names: nat -> string)
    ensures AllAt(r, nodes) && Images(NameOf, nodes, names)
  {
    nodes := (i: nat) => At(r(i));
    names := (i: nat) => NameOf(nodes(i));
  }

  lemma TextToProcess(done: seq<Node>, top: Formula, names: nat -> string, accepts: nat -> bool, w: Word)
    requires ProgramText(done, top).Some? && |done| < 100000
    requires TextRuns(ReadDefinitions(done, top), names, accepts, w)
    ensures exists r: Run :: ProcessRuns(done, top, r, accepts, w)
  {
    var nodes := NodesOfNames(names);
    TextToNodes(done, top, names, accepts, w, nodes);
    NodesAreAt(done, top, nodes, accepts, w);
  }

  lemma ProcessToText(done: seq<Node>, top: Formula, r: Run, accepts: nat -> bool, w: Word)
    requires ProgramText(done, top).Some? && |done| < 100000 && ProcessRuns(done, top, r, accepts, w)
    ensures exists names: nat -> string :: TextRuns(ReadDefinitions(done, top), names, accepts, w)
  {
    var nodes, names := NamesOfRun(r);
    NodeLoops(done, top, r, nodes, accepts, w);
    NodesToText(done, top, nodes, accepts, w, names);
  }

  lemma TextAcceptsFrom(done: seq<Node>, top: Formula, w: Word)
    requires ProgramText(done, top).Some? && AllReadableDecisions(done, top)
    ensures TextAccepts(ProgramText(done, top).value, w) <==>
            exists names: nat -> string, accepts: nat -> bool ::
              TextRuns(ReadDefinitions(done, top), names, accepts, w) && AcceptsRecur(accepts)
  {
    ReadProgram(done, top);
  }

  /** The program that is read from the text accepts exactly the words that the process accepts. */
  lemma TextIsProcess(done: seq<Node>, top: Formula, w: Word)
    requires ProgramText(done, top).Some? && AllReadableDecisions(done, top) && |done| < 100000
    ensures TextAccepts(ProgramText(done, top).value, w) <==> ProcessAccepts(done, top, w)
  {
    TextAcceptsFrom(done, top, w);
    var defs := ReadDefinitions(done, top);
    if names: nat -> string, accepts: nat -> bool :| TextRuns(defs, names, accepts, w) && AcceptsRecur(accepts) {
      TextToProcess(done, top, names, accepts, w);
    }
    if r: Run, accepts: nat -> bool :| ProcessRuns(done, top, r, accepts, w) && AcceptsRecur(accepts) {
      ProcessToText(done, top, r, accepts, w);
    }
  }

  // ----- for a formula -----

  lemma {:induction false} NormalizeReadable(f: Formula)
    requires Readable(f)
    ensures Readable(Normalize(f))
  {
    match f
    case Bracket(a) => NormalizeReadable(a);
    case Unary(_, a) => NormalizeReadable(a);
    case Binary(_, a, b) => NormalizeReadable(a); NormalizeReadable(b);
    case _ =>
  }

  lemma {:induction false} LeavesReadable(f: Formula, p: Formula)
    requires Readable(f) && p in Leaves(f)
    ensures Readable(p)
  {
    if !IsProposition(f) {
      match f
      case Unary(_, a) => LeavesReadable(a, p);
      case Binary(_, a, b) => if p in Leaves(a) { LeavesReadable(a, p); } else { LeavesReadable(b, p); }
      case Bracket(a) => LeavesReadable(a, p);
      case _ =>
    }
  }

  lemma {:induction false} ChainReadable(done: seq<Node>, top: Formula, cs: seq<nat>, last: Decision)
    requires !last.Test? && Spells(Chain(done, top, cs, last))
    requires forall k | k in cs :: forall p | p in Propositions(NodeAt(done, k).now) :: Readable(p)
    ensures ReadableDecision(Chain(done, top, cs, last))
  {
    if cs != [] {
      ChainReadable(done, top, cs[1..], last);
      var ps := Propositions(NodeAt(done, cs[0]).now);
      forall i | 0 <= i < |ps| ensures Readable(ps[i]) { assert ps[i] in ps; }
    }
  }

  /** All tests for a formula with readable names and numbers are readable. */
  lemma DecisionsReadable(top: Formula)
    requires Build(top).Some? && Readable(top) && ProgramText(Build(top).value, top).Some?
    ensures AllReadableDecisions(Build(top).value, top)
  {
    var done := Build(top).value;
    forall j | 0 <= j <= |done| ensures DecisionReadable(DecisionOf(done, top, RefAt(j, |done|))) {
      WrittenDefinition(done, top, j);
      var ks := Outgoing(RefAt(j, |done|), done);
      var cs := Conditionals(done, ks);
      forall k | k in cs ensures forall p | p in Propositions(NodeAt(done, k).now) :: Readable(p) {
        forall p | p in Propositions(NodeAt(done, k).now) ensures Readable(p) {
          if k < |done| {
            NodesListLeaves(top, k, p);
            LeavesReadable(top, p);
          }
        }
      }
      ChainReadable(done, top, cs, LastOf(done, top, cs, Elses(done, ks)));
    }
  }

  /** The text that the conversion of a normalised formula ends with, if it does. */
  ghost function TextOf(top: Formula): Option<seq<AgentToken>> {
    if Build(top).None? then None else ProgramText(Build(top).value, top)
  }

  /** The text for a formula as it was written. */
  ghost function TextFor(f: Formula): Option<seq<AgentToken>> {
    TextOf(Normalize(f))
  }

  /** The nodes have different names. */
  ghost predicate Small(f: Formula) {
    Build(Normalize(f)).Some? && |Build(Normalize(f)).value| < 100000
  }

  /** The generated text is read as one definition for every node. */
  lemma TextIsProgram(f: Formula)
    requires Readable(f) && TextFor(f).Some?
    ensures Program(TextFor(f).value) == Some(ReadDefinitions(Build(Normalize(f)).value, Normalize(f)))
  {
    var top := Normalize(f);
    NormalizeReadable(f);
    DecisionsReadable(top);
    ReadProgram(Build(top).value, top);
  }

  /** The generated text, read as it stands, accepts exactly the words that the generated process accepts. */
  lemma TextAcceptsExactly(f: Formula, w: Word)
    requires Readable(f) && Small(f) && TextFor(f).Some?
    ensures Generated(f) && (TextAccepts(TextFor(f).value, w) <==> GeneratedAccepts(f, w))
  {
    var top := Normalize(f);
    var done := Build(top).value;
    NormalizeReadable(f);
    DecisionsReadable(top);
    WrittenDecided(done, top);
    TextIsProcess(done, top, w);
  }
}
