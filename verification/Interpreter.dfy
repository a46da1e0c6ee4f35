/** The interpreter over the queue that is updated in place: eval, evalprefix and derivatives of
    src/driver/driver.c in the queue order of the channel. */
module Interpreter {
  import opened Agents
  import opened Channels
  import opened Machine
  import opened ChannelQueue
  import opened Runs

  /** The arguments of the next call of eval, or how the evaluation ends. */
  datatype Move = Go(exp: Agent, env: Env, cont: Agent, event: Event) | Halt(result: Agent) | Fail | Loop

  /** The move and the messages left in the queue are those of the outcome. */
  predicate Matches(o: Outcome, m: Move, ms: seq<Message>) {
    match o
    case Next(s, event) => m == Go(s.exp, s.env, s.cont, event) && ms == s.channel
    case Stopped(result) => m == Halt(result)
    case Failed => m == Fail
    case Diverged => m == Loop
  }

  method Derivatives(defs: Definitions, a: Agent, ch: MessageQueue, depth: nat) returns (t: Truth)
    requires ch.Valid()
    ensures t == Enabled(defs, a, ch.Contents(), depth)
    decreases depth, a
  {
    match a
    case Hole => t := Error;
    case Recv(Channel(c), _, _) =>
      var data := ch.First(c);
      t := if data.Some? then Yes else No;
    case Recv(Observation(_), _, _) => t := Yes;
    case Send(c, _, _) =>
      var data := ch.First(c);
      t := if data.Some? then No else Yes;
    case Sum(l, r) =>
      t := Derivatives(defs, l, ch, depth);
      if t == No { t := Derivatives(defs, r, ch, depth); }
    case Com(l, r) =>
      t := Derivatives(defs, l, ch, depth);
      if t == No { t := Derivatives(defs, r, ch, depth); }
    case If(_, _, _) => t := Yes;
    case Con(AbortAgent, _) => t := Yes;
    case Con(StopAgent, _) => t := No;
    case Con(Defined(name), args) =>
      if name !in defs || (args != [] && |args| != |defs[name].params|) { t := Error; }
      else if depth == 0 { t := TooDeep; }
      else { t := Derivatives(defs, defs[name].body, ch, depth - 1); }
    case Cls(b, _) => t := Derivatives(defs, b, ch, depth);
  }

  method EvalPrefix(exp: Agent, env: Env, cont: Agent, ch: MessageQueue) returns (m: Move)
    requires ch.Valid() && (exp.Recv? || exp.Send?)
    modifies ch, set c | c in ch.spine
    ensures ch.Valid() && forall c :: c in ch.spine ==> c in old(ch.spine) || fresh(c)
    ensures Matches(Prefix(Queue, State(exp, env, cont, old(ch.Contents()))), m, ch.Contents())
  {
    match exp
    case Recv(Observation(name), _, body) => m := Go(Resume(body, cont), env, Hole, Observed(name));
    case Recv(Channel(c), params, body) =>
      var data := ch.First(c);
      if data.None? { return Fail; }
      ch.Delete(Message(c, data.value));
      var bound := Bind(params, data.value, env);
      if bound.None? { return Fail; }
      m := Go(Resume(MakeCls(body, bound.value), cont), env, Hole, Received(c, data.value));
    case Send(c, args, body) =>
      var values := EvalVals(args, env);
      if values.None? { return Fail; }
      ch.Append(Message(c, values.value));
      if cont != Hole {
        m := Go(Resume(Hole, cont), env, MakeCont(Switch, MakeCls(body, env), cont, env), Sent(c, values.value));
      } else {
        m := Go(body, env, Hole, Sent(c, values.value));
      }
  }

  /** eval, up to its next call of itself. */
  method EvalStep(defs: Definitions, depth: nat, exp: Agent, env: Env, cont: Agent, ch: MessageQueue) returns (m: Move)
    requires ch.Valid() && exp != Hole
    modifies ch, set c | c in ch.spine
    ensures ch.Valid() && forall c :: c in ch.spine ==> c in old(ch.spine) || fresh(c)
    ensures Matches(Step(defs, Queue, depth, State(exp, env, cont, old(ch.Contents()))), m, ch.Contents())
  {
    match exp
    case Recv(_, _, _) =>
      var t := Derivatives(defs, exp, ch, depth);
      if t == Yes { m := EvalPrefix(exp, env, cont, ch); }
      else if cont == Hole { m := Halt(exp); }
      else { m := Go(Resume(MakeCls(exp, env), cont), env, Hole, Silent); }
    case Send(_, _, _) =>
      var t := Derivatives(defs, exp, ch, depth);
      if t == Yes { m := EvalPrefix(exp, env, cont, ch); }
      else if cont == Hole { m := Halt(exp); }
      else { m := Go(Resume(MakeCls(exp, env), cont), env, Hole, Silent); }
    case Sum(l, r) => m := EvalBranch(defs, depth, exp, env, cont, ch);
    case Com(l, r) => m := EvalBranch(defs, depth, exp, env, cont, ch);
    case If(condition, l, r) =>
      var v := EvalVal(condition, env);
      if v.None? { m := Fail; }
      else { m := Go(if v.value != 0 then l else r, env, cont, Silent); }
    case Cls(b, inner) =>
      var t := Derivatives(defs, b, ch, depth);
      if t == Yes { m := Go(b, inner, cont, Silent); }
      else if t == Error { m := Fail; }
      else if t == TooDeep { m := Loop; }
      else if cont == Hole { m := Halt(exp); }
      else { m := Go(Resume(exp, cont), env, Hole, Silent); }
    case Con(AbortAgent, _) => m := Halt(exp);
    case Con(StopAgent, _) =>
      if cont == Hole { m := Halt(exp); }
      else { m := Go(Resume(exp, cont), env, Hole, Silent); }
    case Con(Defined(name), args) =>
      if name !in defs { return Fail; }
      var values := EvalVals(args, env);
      if values.None? { return Fail; }
      var bound := Bind(defs[name].params, values.value, env);
      if bound.None? { return Fail; }
      m := Go(Resume(MakeCls(defs[name].body, bound.value), cont), env, Hole, Silent);
  }

  method EvalBranch(defs: Definitions, depth: nat, exp: Agent, env: Env, cont: Agent, ch: MessageQueue)
    returns (m: Move)
    requires ch.Valid() && IsBranch(exp)
    ensures Matches(Step(defs, Queue, depth, State(exp, env, cont, ch.Contents())), m, ch.Contents())
  {
    var t := Derivatives(defs, exp.left, ch, depth);
    if t == Yes { return Go(exp.left, env, if exp.Com? then MakeCont(Left, exp, cont, env) else cont, Silent); }
    if t == No {
      t := Derivatives(defs, exp.right, ch, depth);
      if t == Yes { return Go(exp.right, env, if exp.Com? then MakeCont(Right, exp, cont, env) else cont, Silent); }
    }
    if t == Error { m := Fail; }
    else if t == TooDeep { m := Loop; }
    else if cont == Hole { m := Halt(exp); }
    else { m := Go(Resume(exp, cont), env, Hole, Silent); }
  }

  /** The calls of eval, at most so many, on an agent over an empty queue: they are a run of the
      machine, so every channel of the queue is used as a one-place buffer throughout. */
  method Eval(defs: Definitions, depth: nat, exp: Agent, ch: MessageQueue, calls: nat)
    returns (last: Move, events: seq<Event>, ghost states: seq<State>)
    requires ch.Valid() && ch.Contents() == [] && WellFormed(defs) && NoHole(exp)
    modifies ch, set c | c in ch.spine
    ensures ch.Valid() && IsRun(defs, Queue, depth, states, events) && states[0] == State(exp, [], Hole, [])
    ensures states[|events|].exp != Hole
    ensures forall c :: OneMessage(states[|events|].channel, On(c, events), c)
    ensures last.Go? ==> |events| == calls && Matches(Next(states[|events|], last.event), last, ch.Contents())
    ensures !last.Go? ==> Matches(Step(defs, Queue, depth, states[|events|]), last, ch.Contents())
  {
    last, events := Go(exp, [], Hole, Silent), [];
    states := [State(exp, [], Hole, [])];
    while last.Go? && |events| < calls
      invariant ch.Valid() && forall c :: c in ch.spine ==> c in old(ch.spine) || fresh(c)
      invariant |events| <= calls && IsRun(defs, Queue, depth, states, events) && states[0] == State(exp, [], Hole, [])
      invariant states[|events|].exp != Hole
      invariant last.Go? ==> Matches(Next(states[|events|], last.event), last, ch.Contents())
      invariant !last.Go? ==> Matches(Step(defs, Queue, depth, states[|events|]), last, ch.Contents())
      decreases last.Go?, calls - |events|
    {
      last := EvalStep(defs, depth, last.exp, last.env, last.cont, ch);
      if last.Go? {
        ghost var s := State(last.exp, last.env, last.cont, ch.Contents());
        RunExtends(defs, Queue, depth, states, events, s, last.event);
        events, states := events + [last.event], states + [s];
      }
    }
    forall c ensures OneMessage(states[|events|].channel, On(c, events), c) {
      ChannelsAreOnePlace(defs, Queue, depth, states, events, c);
    }
  }

  lemma RunExtends(defs: Definitions, order: Order, depth: nat, states: seq<State>, events: seq<Event>, t: State,
                   event: Event)
    requires WellFormed(defs) && IsRun(defs, order, depth, states, events)
    requires StepsTo(defs, order, depth, states[|events|], t, event)
    ensures IsRun(defs, order, depth, states + [t], events + [event]) && t.exp != Hole
  {
    RunInvariant(defs, order, depth, states + [t], events + [event]);
  }
}
