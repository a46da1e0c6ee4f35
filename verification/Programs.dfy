/** The text of a whole generated process: when it can be written, what is read from it, and the words that
    the process which is read accepts. */
module Programs {
  import opened Wrappers
  import opened Formulas
  import opened Tableau
  import opened Generator
  import opened Simulation
  import opened Processes
  import opened NodeNames
  import opened AgentText
  import opened AgentParser
  import opened Definitions

  // ----- writing -----

  /** The nodes in the order of their definitions; the initial one comes last. */
  function RefAt(k: nat, n: nat): NodeRef {
    if k < n then At(k) else Start
  }

  function NameAt(k: nat, n: nat): string {
    if k < n then NodeName(k + 1) else InitialName
  }

  /** The definition of a node under a name; None is a failed assertion: two successors without a test, or a
      proposition without a spelling. */
  function DefinitionFor(done: seq<Node>, top: Formula, m: NodeRef, name: string): Option<seq<AgentToken>> {
    var d := DecisionOf(done, top, m);
    if d.None? || !Spells(d.value) then None else Some(DefinitionText(name, d.value))
  }

  /** The definition of the k-th node. */
  function DefinitionOf(done: seq<Node>, top: Formula, k: nat): Option<seq<AgentToken>> {
    DefinitionFor(done, top, RefAt(k, |done|), NameAt(k, |done|))
  }

  /** All the parts one after the other, if there are all. */
  function Together(parts: seq<Option<seq<AgentToken>>>): Option<seq<AgentToken>> {
    if parts == [] then Some([])
    else
      var rest := Together(parts[1..]);
      if parts[0].None? || rest.None? then None else Some(parts[0].value + rest.value)
  }

  function DefinitionTexts(done: seq<Node>, top: Formula): seq<Option<seq<AgentToken>>> {
    seq(|done| + 1, k requires 0 <= k <= |done| => DefinitionOf(done, top, k))
  }

  /** The text for a tableau. */
  function ProgramText(done: seq<Node>, top: Formula): Option<seq<AgentToken>> {
    Together(DefinitionTexts(done, top))
  }

  lemma {:induction false} TogetherExactly(parts: seq<Option<seq<AgentToken>>>)
    ensures Together(parts).None? <==> exists k :: 0 <= k < |parts| && parts[k].None?
  {
    if parts != [] {
      TogetherExactly(parts[1..]);
      if k :| 0 <= k < |parts| && parts[k].None? {
        if k > 0 { assert parts[1..][k - 1].None?; }
      }
      if k :| 0 <= k < |parts| - 1 && parts[1..][k].None? { assert parts[k + 1].None?; }
    }
  }

  lemma {:induction false} TogetherLast(parts: seq<Option<seq<AgentToken>>>, last: Option<seq<AgentToken>>)
    ensures var before := Together(parts);
            Together(parts + [last]) == if before.None? || last.None? then None else Some(before.value + last.value)
  {
    if parts == [] {
      assert parts + [last] == [last] && [last][1..] == [];
      assert Together([last][1..]) == Some([]);
      if last.Some? { assert last.value + [] == last.value && [] + last.value == last.value; }
    } else {
      TogetherLast(parts[1..], last);
      assert (parts + [last])[1..] == parts[1..] + [last];
      var rest := Together(parts[1..]);
      if parts[0].Some? && rest.Some? && last.Some? {
        assert parts[0].value + (rest.value + last.value) == parts[0].value + rest.value + last.value;
      }
    }
  }

  /** Writing fails if and only if it fails for some definition. */
  lemma WritingFailsExactly(done: seq<Node>, top: Formula)
    ensures ProgramText(done, top).None? <==> exists k :: 0 <= k <= |done| && DefinitionOf(done, top, k).None?
  {
    var texts := DefinitionTexts(done, top);
    TogetherExactly(texts);
    forall k | 0 <= k <= |done| ensures texts[k] == DefinitionOf(done, top, k) { }
  }

  lemma WritingFails(done: seq<Node>, top: Formula, k: nat)
    requires k <= |done| && DefinitionOf(done, top, k).None?
    ensures ProgramText(done, top).None?
  {
    WritingFailsExactly(done, top);
  }

  lemma WrittenDefinition(done: seq<Node>, top: Formula, k: nat)
    requires ProgramText(done, top).Some? && k <= |done|
    ensures DecisionOf(done, top, RefAt(k, |done|)).Some? && Spells(DecisionOf(done, top, RefAt(k, |done|)).value)
  {
    WritingFailsExactly(done, top);
    assert DefinitionOf(done, top, k).Some?;
  }

  lemma WrittenDecided(done: seq<Node>, top: Formula)
    requires ProgramText(done, top).Some?
    ensures Decided(done, top)
  {
    forall k | 0 <= k <= |done| ensures DecisionOf(done, top, RefAt(k, |done|)).Some? {
      WrittenDefinition(done, top, k);
    }
    assert RefAt(|done|, |done|) == Start;
    forall k | 0 <= k < |done| ensures DecisionOf(done, top, At(k)).Some? { assert RefAt(k, |done|) == At(k); }
  }

  // ----- what is read -----

  /** The agent of the k-th definition. */
  function BodyAt(done: seq<Node>, top: Formula, k: nat): Syntax
    requires ProgramText(done, top).Some? && k <= |done|
  {
    WrittenDefinition(done, top, k);
    AgentOf(DecisionOf(done, top, RefAt(k, |done|)).value)
  }

  function ReadDefinitions(done: seq<Node>, top: Formula): seq<Definition>
    requires ProgramText(done, top).Some?
  {
    seq(|done| + 1, k requires 0 <= k <= |done| => Definition(NameAt(k, |done|), BodyAt(done, top, k)))
  }

  /** Every test that is written is read as it should be. */
  predicate AllReadableDecisions(done: seq<Node>, top: Formula) {
    forall k :: 0 <= k <= |done| ==> DecisionReadable(DecisionOf(done, top, RefAt(k, |done|)))
  }

  predicate DecisionReadable(d: Option<Decision>) {
    d.Some? ==> ReadableDecision(d.value)
  }

  /** Whatever follows, the definition is read from the text. */
  ghost predicate ReadsAs(text: Option<seq<AgentToken>>, def: Definition) {
    text.Some? && forall rest :: DefinitionExp(text.value + rest) == Some(Read(def, rest))
  }

  lemma ProgramFront(text: seq<AgentToken>, rest: seq<AgentToken>, def: Definition, defs: seq<Definition>)
    requires DefinitionExp(text + rest) == Some(Read(def, rest)) && Program(rest) == Some(defs)
    ensures Program(text + rest) == Some([def] + defs)
  {
    assert text + rest != [] by { assert DefinitionExp([]).None?; }
  }

  lemma {:induction false} ReadTogether(parts: seq<Option<seq<AgentToken>>>, defs: seq<Definition>)
    requires |parts| == |defs| && forall k :: 0 <= k < |parts| ==> ReadsAs(parts[k], defs[k])
    ensures Together(parts).Some? && Program(Together(parts).value) == Some(defs)
  {
    if parts != [] {
      forall k | 0 <= k < |parts| - 1 ensures ReadsAs(parts[1..][k], defs[1..][k]) {
        assert ReadsAs(parts[k + 1], defs[k + 1]);
      }
      ReadTogether(parts[1..], defs[1..]);
      assert ReadsAs(parts[0], defs[0]);
      var rest := Together(parts[1..]).value;
      ProgramFront(parts[0].value, rest, defs[0], defs[1..]);
      assert [defs[0]] + defs[1..] == defs;
    }
  }

  lemma DefinitionReadsAs(done: seq<Node>, top: Formula, k: nat)
    requires ProgramText(done, top).Some? && AllReadableDecisions(done, top) && k <= |done|
    ensures ReadsAs(DefinitionOf(done, top, k), Definition(NameAt(k, |done|), BodyAt(done, top, k)))
  {
    WrittenDefinition(done, top, k);
    var d := DecisionOf(done, top, RefAt(k, |done|));
    assert DecisionReadable(d);
    var text := DefinitionText(NameAt(k, |done|), d.value);
    forall rest
      ensures DefinitionExp(text + rest) == Some(Read(Definition(NameAt(k, |done|), AgentOf(d.value)), rest))
    {
      ReadDefinition(NameAt(k, |done|), d.value, rest);
    }
  }

  /** The program that is read from the text has one definition for every node, with its agent. */
  lemma ReadProgram(done: seq<Node>, top: Formula)
    requires ProgramText(done, top).Some? && AllReadableDecisions(done, top)
    ensures Program(ProgramText(done, top).value) == Some(ReadDefinitions(done, top))
  {
    var texts, defs := DefinitionTexts(done, top), ReadDefinitions(done, top);
    forall k | 0 <= k <= |done| ensures ReadsAs(texts[k], defs[k]) { DefinitionReadsAs(done, top, k); }
    ReadTogether(texts, defs);
  }

  // ----- running what is read -----

  /** The newest definition of a name. */
  function BodyOf(defs: seq<Definition>, name: string): Option<Syntax> {
    if defs == [] then None
    else if defs[|defs| - 1].name == name then Some(defs[|defs| - 1].body)
    else BodyOf(defs[..|defs| - 1], name)
  }

  lemma {:induction false} BodyOfAt(defs: seq<Definition>, k: nat)
    requires k < |defs| && forall j :: k < j < |defs| ==> defs[j].name != defs[k].name
    ensures BodyOf(defs, defs[k].name) == Some(defs[k].body)
    decreases |defs|
  {
    if k < |defs| - 1 { BodyOfAt(defs[..|defs| - 1], k); }
  }

  /** In the state s the definition of a name goes on to the next name. */
  predicate TextStepsTo(defs: seq<Definition>, name: string, s: State, next: string, accept: bool) {
    var body := BodyOf(defs, name);
    body.Some? && Decide(body.value, s) == Continue(next, accept)
  }

  function TextStepOf(defs: seq<Definition>): (string, State, string, bool) -> bool {
    (name: string, s: State, next: string, accept: bool) => TextStepsTo(defs, name, s, next, accept)
  }

  /** The program goes on for ever over the word, to the definition names(i) after the state at position i. */
  ghost predicate TextRuns(defs: seq<Definition>, names: nat -> string, accepts: nat -> bool, w: Word) {
    Loops(TextStepOf(defs), InitialName, names, accepts, w)
  }

  /** The text is read as a program that goes on for ever over the word and passes accept again and again. */
  ghost predicate TextAccepts(text: seq<AgentToken>, w: Word) {
    Program(text).Some? &&
    exists names: nat -> string, accepts: nat -> bool ::
      TextRuns(Program(text).value, names, accepts, w) && AcceptsRecur(accepts)
  }

  /** The node of a name. */
  function NodeOf(name: string): nat {
    var n := if |name| < 4 then 0 else NodeNames.Number(name[4..]) - 1;
    if n < 0 then 0 else n
  }
}
