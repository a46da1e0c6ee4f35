/** From the text of a formula to the text of the process that checks it (ltl2ccs in src/ltl/ltl.c). */
module Ltl {
  import opened Wrappers
  import opened Formulas
  import opened Tokens
  import opened Normalizer
  import opened Conditions
  import opened AgentBuffer
  import AgentReader
  import Converter
  import Language
  import Programs
  import ProgramRuns
  import Pipeline
  import Emitter
  import Grammar = LtlGrammar
  import OpenTokens
  import LtlParser

  /** The formula that the tokens spell. */
  method FormulaOf(t: Token) returns (f: Formula)
    requires t.Valid()
    ensures f == t.tree
    decreases t.Repr
  {
    match t.kind
    case Leaf(s) => f := s;
    case BinaryToken(op) =>
      var l := FormulaOf(t.left);
      var r := FormulaOf(t.right);
      f := Binary(op, l, r);
    case _ =>
      var a := FormulaOf(t.arg);
      f := AboveArg(t.kind, a);
  }

  /** How the conversion ends: an error of the parser, the fatal error of the expansion, a failed assertion of
      the generator, or a text. */
  datatype Status = SyntaxError | Unsupported | AssertionFailed | Done

  /** The first half of ltl2ccs: the text is parsed and normalised. */
  method ReadFormula(ls: seq<Grammar.Lexeme>) returns (ok: bool, top: Formula, ghost t: Grammar.Tree)
    requires Grammar.End !in ls && ls != [] && Grammar.WellPlaced(ls)
    ensures ok <==> Grammar.Read(Grammar.Start, ls + [Grammar.End]).Some?
    ensures ok ==> Grammar.IsInput(t) && ls == Grammar.Flatten(t) && top == Normalize(OpenTokens.Plain(t))
  {
    var token;
    top := BoolValue(true);
    ok, token, t := LtlParser.ParseFormula(ls);
    if ok {
      Grammar.CompleteExactly(t);
      OpenTokens.CompleteIsValid(token, t);
      var root, _ := Rewrite(token);
      top := FormulaOf(root);
    }
  }

  /** Some node has two successors without a test, or a successor with a proposition that has no spelling. */
  ghost predicate AssertionFails(top: Formula) {
    var built := Language.Build(top);
    built.Some? && exists k :: 0 <= k <= |built.value| && Programs.DefinitionOf(built.value, top, k).None?
  }

  /** The second half: the automaton is built and written as a process. */
  method Generate(top: Formula, b: Buffer) returns (status: Status)
    modifies b
    ensures status != SyntaxError
    ensures status == Unsupported <==> Language.Build(top).None?
    ensures status == AssertionFailed <==> AssertionFails(top)
    ensures status == Done <==> ProgramRuns.TextOf(top).Some?
    ensures status == Done ==> b.text == old(b.text) + ProgramRuns.TextOf(top).value
  {
    var ok, completed, init := Pipeline.Ltl2Buchi(top);
    if !ok { return Unsupported; }
    var nodes := completed.nodes[..|completed.nodes| - 1];
    ghost var done := Converter.ValuesOf(nodes);
    assert Language.Build(top).value == done;
    Programs.WritingFailsExactly(done, top);
    ok := Emitter.Buchi2Ccs(b, nodes, init, top, done);
    status := if ok then Done else AssertionFailed;
  }

  /** ltl2ccs, for a text whose operators have all their operands: which formula is parsed, when the conversion
      ends in which error, and which text is appended to the buffer otherwise. */
  method Ltl2Ccs(ls: seq<Grammar.Lexeme>, b: Buffer) returns (status: Status, ghost t: Grammar.Tree)
    requires Grammar.End !in ls && ls != [] && Grammar.WellPlaced(ls)
    modifies b
    ensures status == SyntaxError <==> Grammar.Read(Grammar.Start, ls + [Grammar.End]).None?
    ensures status != SyntaxError ==> Grammar.IsInput(t) && ls == Grammar.Flatten(t)
    ensures status != SyntaxError ==> Ends(status, OpenTokens.Plain(t))
    ensures status == Unsupported ==> !Supported(OpenTokens.Plain(t))
    ensures status == Done ==> b.text == old(b.text) + ProgramRuns.TextFor(OpenTokens.Plain(t)).value
  {
    var ok, top;
    ok, top, t := ReadFormula(ls);
    if !ok { return SyntaxError, t; }
    status := Generate(top, b);
    if status == Unsupported && Supported(OpenTokens.Plain(t)) {
      SupportedExactly(OpenTokens.Plain(t));
      Language.BuildSucceeds(top);
    }
  }

  /** The outcome for a formula that was parsed. */
  ghost predicate Ends(status: Status, f: Formula) {
    && (status == Unsupported <==> Language.Build(Normalize(f)).None?)
    && (status == AssertionFailed <==> AssertionFails(Normalize(f)))
    && (status == Done <==> ProgramRuns.TextFor(f).Some?)
  }

  // ----- reading the text -----

  /** No identifier of the formula is a keyword of the agents. */
  predicate KeywordFree(ls: seq<Grammar.Lexeme>) {
    forall i :: 0 <= i < |ls| && ls[i].SymbolLex? && ls[i].symbol.Id? ==> !IsKeyword(ls[i].symbol.name)
  }

  lemma KeywordFreeParts(a: seq<Grammar.Lexeme>, b: seq<Grammar.Lexeme>)
    requires KeywordFree(a + b)
    ensures KeywordFree(a) && KeywordFree(b)
  {
    forall i | 0 <= i < |a| ensures (a + b)[i] == a[i] { }
    forall i | 0 <= i < |b| ensures (a + b)[|a| + i] == b[i] { }
  }

  lemma {:induction false} ParsedReadable(t: Grammar.Tree)
    requires KeywordFree(Grammar.Flatten(t))
    ensures Readable(OpenTokens.Plain(t))
  {
    match t
    case Missing =>
    case SymbolTree(s) => assert Grammar.Flatten(t)[0].symbol == s;
    case UnaryTree(op, a) =>
      KeywordFreeParts([Grammar.UnaryLex(op)], Grammar.Flatten(a));
      ParsedReadable(a);
    case BracketTree(a) =>
      KeywordFreeParts([Grammar.Open] + Grammar.Flatten(a), [Grammar.Close]);
      KeywordFreeParts([Grammar.Open], Grammar.Flatten(a));
      ParsedReadable(a);
    case BinaryTree(op, l, r) =>
      KeywordFreeParts(Grammar.Flatten(l) + [Grammar.BinaryLex(op)], Grammar.Flatten(r));
      KeywordFreeParts(Grammar.Flatten(l), [Grammar.BinaryLex(op)]);
      ParsedReadable(l);
      ParsedReadable(r);
  }

  /** Converts a formula and reads the generated text as the driver does: it is a program, and the words that
      the program accepts are those that the process generated for the formula accepts. */
  method Convert(ls: seq<Grammar.Lexeme>) returns (status: Status, program: Option<seq<AgentParser.Definition>>,
                                                   ghost t: Grammar.Tree)
    requires Grammar.End !in ls && ls != [] && Grammar.WellPlaced(ls)
    ensures status == SyntaxError <==> Grammar.Read(Grammar.Start, ls + [Grammar.End]).None?
    ensures status != SyntaxError ==> ls == Grammar.Flatten(t) && Ends(status, OpenTokens.Plain(t))
    ensures status == Done && KeywordFree(ls) ==> program.Some? && IsProgramFor(program.value, OpenTokens.Plain(t))
  {
    var b := new Buffer();
    status, t := Ltl2Ccs(ls, b);
    program := None;
    if status == Done {
      var s := new AgentReader.Scanner(b.text);
      assert b.text == ProgramRuns.TextFor(OpenTokens.Plain(t)).value;
      program := AgentReader.ReadProgram(s);
      if KeywordFree(ls) {
        ParsedReadable(t);
        ProgramRuns.TextIsProgram(OpenTokens.Plain(t));
      }
    }
  }

  /** One definition for every node of the tableau, with the agent that its decision is read as. */
  ghost predicate IsProgramFor(defs: seq<AgentParser.Definition>, f: Formula) {
    ProgramRuns.TextFor(f).Some? && defs == Programs.ReadDefinitions(Language.Build(Normalize(f)).value, Normalize(f))
  }
}
