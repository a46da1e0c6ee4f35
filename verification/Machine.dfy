/** The interpreter of agent expressions, eval and evalprefix in src/driver/driver.c: one step of the
    machine over an expression, its environment, the continuation and the channel. */
module Machine {
  import opened Wrappers
  import opened Agents
  import opened Channels

  // ----- value expressions -----

  /** The division of C, towards zero. */
  function Quotient(a: int, b: int): int
    requires b != 0
  {
    if a >= 0 then a / b else -((-a) / b)
  }

  /** The quotient is rounded towards zero: the remainder is smaller than the divisor and never has the
      sign opposite to the dividend. */
  lemma QuotientTruncates(a: int, b: int)
    requires b != 0
    ensures var r := a - Quotient(a, b) * b;
            (if b > 0 then -b < r < b else b < r < -b) && (a >= 0 ==> r >= 0) && (a <= 0 ==> r <= 0)
  {
    var m := if a >= 0 then a else -a;
    assert m == (m / b) * b + m % b;
    if a < 0 { assert (-(m / b)) * b == -((m / b) * b); }
  }

  /** None: division by zero. */
  function ApplyOp(op: ValueOp, a: int, b: int): Option<int> {
    match op
    case Plus => Some(a + b)
    case Minus => Some(a - b)
    case Times => Some(a * b)
    case Divide => if b == 0 then None else Some(Quotient(a, b))
    case Modulo => if b == 0 then None else Some(a - Quotient(a, b) * b)
    case Or => Some(AsInt(a != 0 || b != 0))
    case And => Some(AsInt(a != 0 && b != 0))
    case Equal => Some(AsInt(a == b))
    case Less => Some(AsInt(a < b))
    case LessEqual => Some(AsInt(a <= b))
    case Greater => Some(AsInt(a > b))
    case GreaterEqual => Some(AsInt(a >= b))
  }

  /** The newest binding. */
  function ValueOf(name: string, env: Env): Option<int> {
    if env == [] then None else if env[0].0 == name then Some(env[0].1) else ValueOf(name, env[1..])
  }

  function EvalVal(v: ValueExp, env: Env): Option<int> {
    match v
    case Constant(n) => Some(n)
    case Variable(name) => ValueOf(name, env)
    case Apply(op, l, r) =>
      var a, b := EvalVal(l, env), EvalVal(r, env);
      if a.None? || b.None? then None else ApplyOp(op, a.value, b.value)
    case Negation(arg) =>
      var a := EvalVal(arg, env);
      if a.None? then None else Some(AsInt(a.value == 0))
  }

  function EvalVals(vs: seq<ValueExp>, env: Env): Option<seq<int>> {
    if vs == [] then Some([])
    else
      var a, rest := EvalVal(vs[0], env), EvalVals(vs[1..], env);
      if a.None? || rest.None? then None else Some([a.value] + rest.value)
  }

  /** n_boundls; None when the lengths differ. */
  function Bind(params: seq<string>, values: seq<int>, env: Env): Option<Env> {
    if params == [] && values == [] then Some(env)
    else if params == [] || values == [] then None
    else Bind(params[1..], values[1..], [(params[0], values[0])] + env)
  }

  // ----- the machine -----

  datatype Definition = Definition(params: seq<string>, body: Agent)

  type Definitions = map<string, Definition>

  /** derivatives either answers, reports an error, or recurses through definitions too deeply. */
  datatype Truth = Yes | No | Error | TooDeep

  function AsTruth(b: bool): Truth { if b then Yes else No }

  /** derivatives: whether the agent can go on now. The environment it passes along never decides
      the answer. */
  function Enabled(defs: Definitions, a: Agent, ms: seq<Message>, depth: nat): Truth
    decreases depth, a
  {
    match a
    case Hole => Error
    case Recv(Channel(c), _, _) => AsTruth(Lookup(ms, c).Some?)
    case Recv(Observation(_), _, _) => Yes
    case Send(c, _, _) => AsTruth(Lookup(ms, c).None?)
    case Sum(l, r) =>
      if Enabled(defs, l, ms, depth) == No then Enabled(defs, r, ms, depth) else Enabled(defs, l, ms, depth)
    case Com(l, r) =>
      if Enabled(defs, l, ms, depth) == No then Enabled(defs, r, ms, depth) else Enabled(defs, l, ms, depth)
    case If(_, _, _) => Yes
    case Con(AbortAgent, _) => Yes
    case Con(StopAgent, _) => No
    case Con(Defined(name), args) =>
      if name !in defs || (args != [] && |args| != |defs[name].params|) then Error
      else if depth == 0 then TooDeep
      else Enabled(defs, defs[name].body, ms, depth - 1)
    case Cls(b, _) => Enabled(defs, b, ms, depth)
  }

  datatype Event =
    | Silent
    | Observed(name: string)
    | Sent(channel: string, values: seq<int>)
    | Received(channel: string, values: seq<int>)

  datatype State = State(exp: Agent, env: Env, cont: Agent, channel: seq<Message>)

  /** Failed: an error is reported and the evaluation abandoned. */
  datatype Outcome = Next(state: State, event: Event) | Stopped(result: Agent) | Failed | Diverged

  /** Gives up the hole: the whole continuation, filled with e, is evaluated from its top. */
  function Yield(s: State, e: Agent): Outcome {
    if s.cont == Hole then Stopped(s.exp)
    else Next(State(Resume(e, s.cont), s.env, Hole, s.channel), Silent)
  }

  function Refuse(t: Truth): Outcome {
    if t == TooDeep then Diverged else Failed
  }

  /** evalprefix, for an enabled communication. */
  function Prefix(order: Order, s: State): Outcome
    requires s.exp.Recv? || s.exp.Send?
  {
    match s.exp
    case Recv(Observation(name), _, body) =>
      Next(State(Resume(body, s.cont), s.env, Hole, s.channel), Observed(name))
    case Recv(Channel(c), params, body) =>
      var data := Lookup(s.channel, c);
      if data.None? then Failed
      else
        var env := Bind(params, data.value, s.env);
        if env.None? then Failed
        else
          var rest := Remove(s.channel, Message(c, data.value));
          Next(State(Resume(MakeCls(body, env.value), s.cont), s.env, Hole, rest), Received(c, data.value))
    case Send(c, args, body) =>
      var values := EvalVals(args, s.env);
      if values.None? then Failed
      else
        var channel := Insert(order, s.channel, Message(c, values.value));
        if s.cont != Hole then
          Next(State(Resume(Hole, s.cont), s.env, MakeCont(Switch, MakeCls(body, s.env), s.cont, s.env), channel),
               Sent(c, values.value))
        else Next(State(body, s.env, Hole, channel), Sent(c, values.value))
  }

  /** eval, up to its next call of itself. */
  function Step(defs: Definitions, order: Order, depth: nat, s: State): Outcome
    requires s.exp != Hole
  {
    match s.exp
    case Recv(_, _, _) =>
      if Enabled(defs, s.exp, s.channel, depth) == Yes then Prefix(order, s) else Yield(s, MakeCls(s.exp, s.env))
    case Send(_, _, _) =>
      if Enabled(defs, s.exp, s.channel, depth) == Yes then Prefix(order, s) else Yield(s, MakeCls(s.exp, s.env))
    case Sum(l, r) =>
      var left, right := Enabled(defs, l, s.channel, depth), Enabled(defs, r, s.channel, depth);
      if left == Yes then Next(State(l, s.env, s.cont, s.channel), Silent)
      else if left != No then Refuse(left)
      else if right == Yes then Next(State(r, s.env, s.cont, s.channel), Silent)
      else if right != No then Refuse(right)
      else Yield(s, s.exp)
    case Com(l, r) =>
      var left, right := Enabled(defs, l, s.channel, depth), Enabled(defs, r, s.channel, depth);
      if left == Yes then Next(State(l, s.env, MakeCont(Left, s.exp, s.cont, s.env), s.channel), Silent)
      else if left != No then Refuse(left)
      else if right == Yes then Next(State(r, s.env, MakeCont(Right, s.exp, s.cont, s.env), s.channel), Silent)
      else if right != No then Refuse(right)
      else Yield(s, s.exp)
    case If(condition, l, r) =>
      var v := EvalVal(condition, s.env);
      if v.None? then Failed else Next(State(if v.value != 0 then l else r, s.env, s.cont, s.channel), Silent)
    case Cls(b, env) =>
      var t := Enabled(defs, b, s.channel, depth);
      if t == Yes then Next(State(b, env, s.cont, s.channel), Silent)
      else if t != No then Refuse(t)
      else Yield(s, s.exp)
    case Con(AbortAgent, _) => Stopped(s.exp)
    case Con(StopAgent, _) => Yield(s, s.exp)
    case Con(Defined(name), args) =>
      if name !in defs then Failed
      else
        var values := EvalVals(args, s.env);
        if values.None? then Failed
        else
          var env := Bind(defs[name].params, values.value, s.env);
          if env.None? then Failed
          else Next(State(Resume(MakeCls(defs[name].body, env.value), s.cont), s.env, Hole, s.channel), Silent)
  }

  /** What holds of the machine between steps. */
  predicate Invariant(s: State) {
    NoHole(s.exp) && OneHole(s.cont)
  }

  predicate WellFormed(defs: Definitions) {
    forall name :: name in defs ==> NoHole(defs[name].body)
  }

  /** A finite run: the state after every event. */
  predicate IsRun(defs: Definitions, order: Order, depth: nat, states: seq<State>, events: seq<Event>) {
    |states| == |events| + 1 && Invariant(states[0]) &&
    forall i :: 0 <= i < |events| ==> StepsTo(defs, order, depth, states[i], states[i + 1], events[i])
  }

  predicate StepsTo(defs: Definitions, order: Order, depth: nat, s: State, t: State, event: Event) {
    s.exp != Hole && Step(defs, order, depth, s) == Next(t, event)
  }
}
