/** The text that a formula is converted to: when there is one, and which words it accepts, read as it
    stands, against the words that satisfy the formula. */
module EmittedText {
  import opened Wrappers
  import opened Formulas
  import opened Conditions
  import opened Tableau
  import opened Language
  import opened Settling
  import opened Normalizer
  import opened TableauFacts
  import opened Generator
  import opened Processes
  import opened Guards
  import opened NodeNames
  import opened AgentText
  import opened Definitions
  import opened Programs
  import opened ProgramRuns
  import opened EmissionOrder
  import opened Samples
  import opened Counterexamples

  // ----- when there is a text -----

  lemma SpelledDecision(top: Formula, m: NodeRef)
    requires Build(top).Some? && Spelled(top) && DecisionOf(Build(top).value, top, m).Some?
    ensures Spells(DecisionOf(Build(top).value, top, m).value)
  {
    var done := Build(top).value;
    var cs := Conditionals(done, Outgoing(m, done));
    DecisionIsBody(done, top, m);
    forall i, j | 0 <= i < |cs| && 0 <= j < |Propositions(NodeAt(done, cs[i]).now)|
      ensures HasSyntax(Propositions(NodeAt(done, cs[i]).now)[j])
    {
      if cs[i] < |done| { NodePropositions(top, cs[i], j); }
    }
  }

  lemma SpelledText(top: Formula)
    requires Build(top).Some? && Spelled(top) && Decided(Build(top).value, top)
    ensures ProgramText(Build(top).value, top).Some?
  {
    var done := Build(top).value;
    forall k | 0 <= k <= |done| ensures DefinitionOf(done, top, k).Some? {
      SpelledDecision(top, RefAt(k, |done|));
    }
    WritingFailsExactly(done, top);
  }

  /** The conversion of a supported formula ends well when all its propositions have a spelling and none of
      them is a constant that is true. */
  lemma ConversionEnds(f: Formula)
    requires Supported(f) && NoTrueLeaf(Normalize(f)) && Spelled(Normalize(f))
    ensures TextFor(f).Some?
  {
    SupportedExactly(f);
    BuildSucceeds(Normalize(f));
    NoTrueLeafDecided(Normalize(f));
    SpelledText(Normalize(f));
  }

  // ----- what the text accepts -----

  /** From text to text: when every test is the conjunction of its propositions, what the generated text
      accepts, read as it stands, satisfies the formula that was written. */
  lemma EmittedIsSound(f: Formula, w: Word)
    requires Readable(f) && Small(f) && TextFor(f).Some?
    requires TestsConjunctions(Build(Normalize(f)).value)
    requires TextAccepts(TextFor(f).value, w)
    ensures Holds(w, 0, f)
  {
    TextAcceptsExactly(f, w);
    ProcessIsSound(f, w);
  }

  /** So it is for every formula that lists no disjunction among its propositions. */
  lemma WithoutOrIsSound(f: Formula, w: Word)
    requires Readable(f) && Small(f) && TextFor(f).Some? && NoOrLeaf(Normalize(f))
    requires TextAccepts(TextFor(f).value, w)
    ensures Holds(w, 0, f)
  {
    NoOrLeafConjunctions(Normalize(f));
    EmittedIsSound(f, w);
  }

  /** The text accepts exactly the words that satisfy the formula when, moreover, at most one until stands inside
      a release, no edge is dropped and no state passes the tests of two successors. */
  lemma EmittedIsExact(f: Formula, w: Word)
    requires Readable(f) && Small(f) && TextFor(f).Some? && AtMostOneRecurring(Normalize(f))
    requires Regular(Build(Normalize(f)).value)
    ensures TextAccepts(TextFor(f).value, w) <==> Holds(w, 0, f)
  {
    TextAcceptsExactly(f, w);
    ProcessIsExact(f, w);
  }

  lemma TextFrom(f: Formula, top: Formula, done: seq<Node>, w: Word)
    requires Readable(f) && Spelled(top) && Normalize(f) == top && Build(top) == Some(done) && |done| < 100000
    requires Generated(f)
    ensures Small(f) && TextFor(f).Some? && (TextAccepts(TextFor(f).value, w) <==> GeneratedAccepts(f, w))
  {
    SpelledText(top);
    TextAcceptsExactly(f, w);
  }

  /** For "always p" the text accepts exactly the words on which p always holds. */
  lemma AlwaysIsEmitted(p: Formula, w: Word)
    requires IsProposition(p) && Readable(p) && Spelled(AlwaysOf(Normalize(p)))
    ensures TextFor(Unary(Globally, p)).Some?
    ensures TextAccepts(TextFor(Unary(Globally, p)).value, w) <==> Holds(w, 0, Unary(Globally, p))
  {
    var g := Normalize(p);
    AlwaysIsExact(p, w);
    NormalizeProposition(p);
    AlwaysTableau(g);
    TextFrom(Unary(Globally, p), AlwaysOf(g), if IsFalse(g) then [] else [AlwaysNode(g, [Start, At(0)])], w);
  }

  /** `(define name () (if (x) (accept:Node0001) (Abort)))` */
  function AlwaysDefinition(name: string, x: string): seq<AgentToken> {
    [OpenPar, DefineWord, Ident(name), OpenPar, ClosePar, OpenPar,
     IfWord, OpenPar, Ident(x), ClosePar, OpenPar, Ident("accept"), Colon, Ident("Node0001"), ClosePar,
     OpenPar, Ident("Abort"), ClosePar, ClosePar, ClosePar]
  }

  lemma AlwaysDefinitionText(name: string, x: string)
    requires !IsKeyword(x)
    ensures var d := Test([Id(x)], 0, true, Abort(false));
            Spells(d) && DefinitionText(name, d) == AlwaysDefinition(name, x)
  {
    NamesSpelled();
    assert Joined([Id(x)]) == [Ident(x)];
    assert GoText("Node0001", true) == [Ident("accept"), Colon, Ident("Node0001")];
    assert TestText([Id(x)], 0, true) ==
           [IfWord, OpenPar, Ident(x), ClosePar, OpenPar, Ident("accept"), Colon, Ident("Node0001"), ClosePar, OpenPar];
    assert DecisionText(Abort(false)) == [Ident("Abort")];
  }

  lemma AlwaysDefinitionFor(x: string, m: NodeRef, name: string)
    requires !IsKeyword(x) && (m == Start || m == At(0))
    ensures DefinitionFor([AlwaysNode(Id(x), [Start, At(0)])], AlwaysOf(Id(x)), m, name) ==
            Some(AlwaysDefinition(name, x))
  {
    AlwaysDecision(Id(x), m);
    AlwaysDefinitionText(name, x);
  }

  lemma AlwaysTexts(x: string)
    requires !IsKeyword(x)
    ensures DefinitionTexts([AlwaysNode(Id(x), [Start, At(0)])], AlwaysOf(Id(x))) ==
            [Some(AlwaysDefinition("Node0001", x)), Some(AlwaysDefinition("_MC_START", x))]
  {
    AlwaysDefinitionFor(x, At(0), "Node0001");
    AlwaysDefinitionFor(x, Start, "_MC_START");
    NamesSpelled();
  }

  /** The text for "always x", token by token. */
  lemma AlwaysText(x: string)
    requires !IsKeyword(x)
    ensures TextFor(Unary(Globally, Id(x))) == Some(AlwaysDefinition("Node0001", x) + AlwaysDefinition("_MC_START", x))
  {
    AlwaysTableau(Id(x));
    AlwaysNormalized(Id(x));
    AlwaysTexts(x);
    TwoTexts(DefinitionTexts([AlwaysNode(Id(x), [Start, At(0)])], AlwaysOf(Id(x))),
             AlwaysDefinition("Node0001", x), AlwaysDefinition("_MC_START", x));
  }

  lemma TwoTexts(texts: seq<Option<seq<AgentToken>>>, a: seq<AgentToken>, b: seq<AgentToken>)
    requires texts == [Some(a), Some(b)]
    ensures Together(texts) == Some(a + b)
  {
    assert texts[1..] == [Some(b)] && [Some(b)][1..] == [];
    assert Together([Some(b)]) == Some(b + []) && b + [] == b;
  }

  // ----- where the text is wrong -----

  lemma GuardedSpelled()
    ensures Readable(GuardedFormula) && Spelled(AlwaysOf(Guarded))
  {
    assert Leaves(AlwaysOf(Guarded)) == {BoolValue(false), R, PorQ};
  }

  /** `[] (r /\ (p | q))` is converted to a text that accepts words which do not satisfy it. */
  lemma EmittedIsUnsound(w: Word)
    requires forall i: nat :: w(i)("r") == 0 && w(i)("q") != 0
    ensures Readable(GuardedFormula) && Small(GuardedFormula) && TextFor(GuardedFormula).Some?
    ensures TextAccepts(TextFor(GuardedFormula).value, w) && !Holds(w, 0, GuardedFormula)
  {
    LaterOrIsUnsound(w);
    GuardedNormalized();
    GuardedTableau();
    GuardedSpelled();
    TextFrom(GuardedFormula, AlwaysOf(Guarded), [GuardedNode([Start, At(0)])], w);
  }

  lemma RepeatedSpelled()
    ensures Readable(RepeatedFormula) && Spelled(AlwaysOf(PuntilQ))
  {
    assert Leaves(AlwaysOf(PuntilQ)) == {BoolValue(false), P, Q};
  }

  /** `[] (p U q)` is converted to a text that does not accept the words in which p and q always hold. */
  lemma EmittedLosesAWord(w: Word)
    requires forall i: nat :: w(i)("p") != 0 && w(i)("q") != 0
    ensures Readable(RepeatedFormula) && Small(RepeatedFormula) && TextFor(RepeatedFormula).Some?
    ensures !TextAccepts(TextFor(RepeatedFormula).value, w) && Holds(w, 0, RepeatedFormula)
  {
    FirstMatchLosesAWord(w);
    RepeatedSpelled();
    TextFrom(RepeatedFormula, AlwaysOf(PuntilQ), RepeatedNodes, w);
  }

  /** `<> p \/ <> q` is supported, and there is no text: an assertion of the generator fails. */
  lemma EitherHasNoText()
    ensures var f := Binary(PathOr, Unary(Future, P), Unary(Future, Q));
            Supported(f) && Build(Normalize(f)).Some? && TextFor(f).None?
  {
    EitherIsRefused();
    NoDecisionNoText(Normalize(Binary(PathOr, Unary(Future, P), Unary(Future, Q))));
  }

  lemma NoDecisionNoText(top: Formula)
    requires Build(top).Some? && DecisionOf(Build(top).value, top, Start).None?
    ensures TextOf(top).None?
  {
    var done := Build(top).value;
    assert RefAt(|done|, |done|) == Start && DefinitionOf(done, top, |done|).None?;
    WritingFailsExactly(done, top);
  }
}
