/** The recursive-descent parser of agents (src/parse/parse.c) on tokens, and its relation to the
    unparser. */
module AgentParser {
  import opened Wrappers
  import opened Agents
  import opened AgentText

  datatype Read<T> = Read(result: T, rest: seq<AgentToken>)

  predicate Starts(ts: seq<AgentToken>, t: AgentToken) {
    ts != [] && ts[0] == t
  }

  // ----- value expressions -----

  /** fact */
  function Fact(ts: seq<AgentToken>): (r: Option<Read<ValueExp>>)
    ensures r.Some? ==> |r.value.rest| < |ts|
    decreases |ts|, 0
  {
    if ts == [] then None
    else match ts[0]
      case Number(n) => Some(Read(Constant(n), ts[1..]))
      case Truth(b) => Some(Read(Constant(if b then 1 else 0), ts[1..]))
      case Ident(x) => Some(Read(Variable(x), ts[1..]))
      case OpenPar =>
        var r := BoolExp(ts[1..]);
        if r.Some? && Starts(r.value.rest, ClosePar) then Some(Read(r.value.result, r.value.rest[1..])) else None
      case _ => None
  }

  /** v_unary_exp */
  function UnaryExp(ts: seq<AgentToken>): (r: Option<Read<ValueExp>>)
    ensures r.Some? ==> |r.value.rest| < |ts|
    decreases |ts|, 1
  {
    if Starts(ts, Not) then
      var r := UnaryExp(ts[1..]);
      if r.None? then None else Some(Read(Negation(r.value.result), r.value.rest))
    else Fact(ts)
  }

  /** v_term_left */
  function TermLeft(left: ValueExp, ts: seq<AgentToken>): (r: Option<Read<ValueExp>>)
    ensures r.Some? ==> |r.value.rest| <= |ts|
    decreases |ts|, 2
  {
    if ts != [] && ts[0].Operator? && IsMultiplicative(ts[0].op) then
      var r := UnaryExp(ts[1..]);
      if r.None? then None else TermLeft(Apply(ts[0].op, left, r.value.result), r.value.rest)
    else Some(Read(left, ts))
  }

  /** v_term */
  function Term(ts: seq<AgentToken>): (r: Option<Read<ValueExp>>)
    ensures r.Some? ==> |r.value.rest| < |ts|
    decreases |ts|, 3
  {
    var r := UnaryExp(ts);
    if r.None? then None else TermLeft(r.value.result, r.value.rest)
  }

  /** v_exp_left */
  function SumLeft(left: ValueExp, ts: seq<AgentToken>): (r: Option<Read<ValueExp>>)
    ensures r.Some? ==> |r.value.rest| <= |ts|
    decreases |ts|, 4
  {
    if ts != [] && ts[0].Operator? && IsAdditive(ts[0].op) then
      var r := Term(ts[1..]);
      if r.None? then None else SumLeft(Apply(ts[0].op, left, r.value.result), r.value.rest)
    else Some(Read(left, ts))
  }

  /** v_exp */
  function SumExp(ts: seq<AgentToken>): (r: Option<Read<ValueExp>>)
    ensures r.Some? ==> |r.value.rest| < |ts|
    decreases |ts|, 5
  {
    var r := Term(ts);
    if r.None? then None else SumLeft(r.value.result, r.value.rest)
  }

  /** c_exp_left */
  function CompareLeft(left: ValueExp, ts: seq<AgentToken>): (r: Option<Read<ValueExp>>)
    ensures r.Some? ==> |r.value.rest| <= |ts|
    decreases |ts|, 6
  {
    if ts != [] && ts[0].Operator? && IsComparison(ts[0].op) then
      var r := SumExp(ts[1..]);
      if r.None? then None else CompareLeft(Apply(ts[0].op, left, r.value.result), r.value.rest)
    else Some(Read(left, ts))
  }

  /** c_exp */
  function CompareExp(ts: seq<AgentToken>): (r: Option<Read<ValueExp>>)
    ensures r.Some? ==> |r.value.rest| < |ts|
    decreases |ts|, 7
  {
    var r := SumExp(ts);
    if r.None? then None else CompareLeft(r.value.result, r.value.rest)
  }

  /** b_exp_left */
  function BoolLeft(left: ValueExp, ts: seq<AgentToken>): (r: Option<Read<ValueExp>>)
    ensures r.Some? ==> |r.value.rest| <= |ts|
    decreases |ts|, 8
  {
    if ts != [] && ts[0].Operator? && IsLogical(ts[0].op) then
      var r := CompareExp(ts[1..]);
      if r.None? then None else BoolLeft(Apply(ts[0].op, left, r.value.result), r.value.rest)
    else Some(Read(left, ts))
  }

  /** b_exp */
  function BoolExp(ts: seq<AgentToken>): (r: Option<Read<ValueExp>>)
    ensures r.Some? ==> |r.value.rest| < |ts|
    decreases |ts|, 9
  {
    var r := CompareExp(ts);
    if r.None? then None else BoolLeft(r.value.result, r.value.rest)
  }

  /** value_seq_left: each further expression goes to the front. */
  function ValuesLeft(vs: seq<ValueExp>, ts: seq<AgentToken>): (r: Option<Read<seq<ValueExp>>>)
    ensures r.Some? ==> |r.value.rest| <= |ts|
    decreases |ts|
  {
    if Starts(ts, Comma) then
      var r := BoolExp(ts[1..]);
      if r.None? then None else ValuesLeft([r.value.result] + vs, r.value.rest)
    else Some(Read(vs, ts))
  }

  /** value_seq */
  function Values(ts: seq<AgentToken>): (r: Option<Read<seq<ValueExp>>>)
    ensures r.Some? ==> |r.value.rest| < |ts|
  {
    var r := BoolExp(ts);
    if r.None? then None else ValuesLeft([r.value.result], r.value.rest)
  }

  /** The values in brackets, where there are any. */
  function BracketedValues(ts: seq<AgentToken>): (r: Option<Read<seq<ValueExp>>>)
    ensures r.Some? ==> |r.value.rest| <= |ts|
  {
    if Starts(ts, OpenPar) then
      var r := Values(ts[1..]);
      if r.Some? && Starts(r.value.rest, ClosePar) then Some(Read(r.value.result, r.value.rest[1..])) else None
    else Some(Read([], ts))
  }

  // ----- agents -----

  /** a_fact */
  function AgentFact(ts: seq<AgentToken>): (r: Option<Read<Syntax>>)
    ensures r.Some? ==> |r.value.rest| < |ts|
    decreases |ts|, 0
  {
    if !Starts(ts, OpenPar) then None
    else if Starts(ts[1..], ClosePar) then Some(Read(Nothing, ts[1..][1..]))
    else
      var r := AgentExp(ts[1..]);
      if r.Some? && Starts(r.value.rest, ClosePar) then Some(Read(r.value.result, r.value.rest[1..])) else None
  }

  /** ex_a_unary_exp, after the tilde. */
  function OutputAgent(ts: seq<AgentToken>): (r: Option<Read<Syntax>>)
    ensures r.Some? ==> |r.value.rest| < |ts|
    decreases |ts|, 1
  {
    if ts == [] || !ts[0].Ident? then None
    else
      var vs := BracketedValues(ts[1..]);
      if vs.None? || !Starts(vs.value.rest, Colon) then None
      else
        var r := UnaryAgent(vs.value.rest[1..]);
        if r.None? then None else Some(Read(Output(ts[0].name, vs.value.result, r.value.result), r.value.rest))
  }

  /** ex_a_unary_exp_id: a receive when a colon follows, else a call. */
  function NamedAgent(name: string, ts: seq<AgentToken>): (r: Option<Read<Syntax>>)
    ensures r.Some? ==> |r.value.rest| <= |ts|
    decreases |ts|, 1
  {
    var vs := BracketedValues(ts);
    if vs.None? then None
    else if Starts(vs.value.rest, Colon) then
      var r := UnaryAgent(vs.value.rest[1..]);
      if r.None? then None else Some(Read(Input(name, vs.value.result, r.value.result), r.value.rest))
    else Some(Read(Call(name, vs.value.result), vs.value.rest))
  }

  /** a_unary_exp */
  function UnaryAgent(ts: seq<AgentToken>): (r: Option<Read<Syntax>>)
    ensures r.Some? ==> |r.value.rest| < |ts|
    decreases |ts|, 2
  {
    if ts == [] then None
    else match ts[0]
      case Ident(name) => NamedAgent(name, ts[1..])
      case Tilde => OutputAgent(ts[1..])
      case _ => AgentFact(ts)
  }

  /** a_binary_exp_left */
  function BinaryLeft(left: Syntax, ts: seq<AgentToken>): (r: Option<Read<Syntax>>)
    ensures r.Some? ==> |r.value.rest| <= |ts|
    decreases |ts|, 3
  {
    if Starts(ts, SumSign) || Starts(ts, ComSign) then
      var r := UnaryAgent(ts[1..]);
      if r.None? then None
      else
        var both := if ts[0] == SumSign then Choice(left, r.value.result) else Parallel(left, r.value.result);
        BinaryLeft(both, r.value.rest)
    else if Starts(ts, Colon) || Starts(ts, Tilde) then None
    else Some(Read(left, ts))
  }

  /** The conditional, after its keyword. */
  function IfAgent(ts: seq<AgentToken>): (r: Option<Read<Syntax>>)
    ensures r.Some? ==> |r.value.rest| < |ts|
    decreases |ts|, 4
  {
    if !Starts(ts, OpenPar) then None
    else
      var v := BoolExp(ts[1..]);
      if v.None? || !Starts(v.value.rest, ClosePar) then None
      else
        var l := AgentExp(v.value.rest[1..]);
        if l.None? then None
        else
          var r := AgentExp(l.value.rest);
          if r.None? then None
          else Some(Read(Conditional(v.value.result, l.value.result, r.value.result), r.value.rest))
  }

  /** agent_exp */
  function AgentExp(ts: seq<AgentToken>): (r: Option<Read<Syntax>>)
    ensures r.Some? ==> |r.value.rest| < |ts|
    decreases |ts|, 4
  {
    if Starts(ts, IfWord) then IfAgent(ts[1..])
    else
      var r := UnaryAgent(ts);
      if r.None? then None else BinaryLeft(r.value.result, r.value.rest)
  }

  // ----- definitions -----

  /** A definition without parameters. */
  datatype Definition = Definition(name: string, body: Syntax)

  /** ex_start, start and the first case of agent_exp: one definition in brackets. */
  function DefinitionExp(ts: seq<AgentToken>): (r: Option<Read<Definition>>)
    ensures r.Some? ==> |r.value.rest| < |ts|
  {
    if |ts| < 5 || ts[0] != OpenPar || ts[1] != DefineWord || !ts[2].Ident? then None
    else if ts[3] != OpenPar || ts[4] != ClosePar then None
    else
      var r := AgentExp(ts[5..]);
      if r.Some? && Starts(r.value.rest, ClosePar) then
        Some(Read(Definition(ts[2].name, r.value.result), r.value.rest[1..]))
      else None
  }

  /** The loop of the driver over the definitions in the input buffer. */
  function Program(ts: seq<AgentToken>): Option<seq<Definition>>
    decreases |ts|
  {
    if ts == [] then Some([])
    else
      var r := DefinitionExp(ts);
      if r.None? then None
      else
        var rest := Program(r.value.rest);
        if rest.None? then None else Some([r.value.result] + rest.value)
  }

  /** parser: an agent in brackets. */
  function ParseAgent(ts: seq<AgentToken>): Option<Syntax> {
    var r := AgentFact(ts);
    if r.None? then None else Some(r.value.result)
  }
}
