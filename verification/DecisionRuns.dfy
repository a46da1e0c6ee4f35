/** The agents of the generated definitions on the machine: the interpreter evaluates the tests, passes accept and
    arrives at the call that the decision names (eval in src/driver/driver.c). */
module DecisionRuns {
  import opened Wrappers
  import F = Formulas
  import opened Conditions
  import opened AgentText
  import D = Definitions
  import opened Agents
  import opened Channels
  import opened Machine
  import opened Runs

  /** The agent with its names classified: the observation accept, the agent Abort, and calls. */
  function AsAgent(a: Syntax): Agent {
    match a
    case Conditional(v, l, r) => If(v, AsAgent(l), AsAgent(r))
    case Input(c, ps, b) => if c == "accept" && ps == [] then Recv(Observation(c), [], AsAgent(b)) else Hole
    case Call(n, vs) => if vs != [] then Hole else if n == "Abort" then Con(AbortAgent, []) else Con(Defined(n), [])
    case _ => Hole
  }

  /** The variables of the tests. */
  function TestNames(a: Syntax): set<string> {
    if a.Conditional? then Names(a.condition) + TestNames(a.left) + TestNames(a.right) else {}
  }

  /** Where a run arrives for an outcome: at the call of the next definition, or at Abort. */
  function Arrival(o: D.Outcome): Agent {
    match o
    case Continue(name, _) => Con(Defined(name), [])
    case Abandon(_) => Con(AbortAgent, [])
    case Stuck => Hole
  }

  /** The run of these states and events starts at the agent, shows accept or nothing, and arrives. */
  ghost predicate Performs(defs: Definitions, order: Order, depth: nat, a: Syntax, env: Env, ms: seq<Message>,
                           o: D.Outcome, states: seq<State>, events: seq<Event>) {
    && |states| == |events| + 1 && states[0] == State(AsAgent(a), env, Hole, ms)
    && (forall i :: 0 <= i < |events| ==> StepsTo(defs, order, depth, states[i], states[i + 1], events[i]))
    && states[|events|] == State(Arrival(o), env, Hole, ms)
    && !o.Stuck? && Visible(events) == if o.accept then [Observed("accept")] else []
  }

  lemma {:induction false} VisibleFront(e: Event, events: seq<Event>)
    ensures Visible([e] + events) == Show(e) + Visible(events)
  {
    var n, all := |events|, [e] + events;
    if n == 0 {
      assert all == [e] && [e][..0] == [];
    } else {
      var front, last := events[..n - 1], events[n - 1];
      VisibleFront(e, front);
      assert all[..n] == [e] + front && all[n] == last;
      Associative(Show(e), Visible(front), Show(last));
    }
  }

  lemma Associative<T>(a: seq<T>, b: seq<T>, c: seq<T>)
    ensures a + b + c == a + (b + c)
  {
  }

  /** In an environment that binds the variables of the tests as the state does, the interpreter performs the
      decision. */
  lemma {:induction false} DecisionIsPerformed(defs: Definitions, order: Order, depth: nat, a: Syntax, s: F.State,
                                               env: Env, ms: seq<Message>)
    returns (states: seq<State>, events: seq<Event>)
    requires !D.Decide(a, s).Stuck? && forall x | x in TestNames(a) :: ValueOf(x, env) == Some(s(x))
    ensures Performs(defs, order, depth, a, env, ms, D.Decide(a, s), states, events)
  {
    if a.Conditional? {
      EvalIsValueIn(a.condition, env, s);
      var b := if ValueIn(a.condition, s).value != 0 then a.left else a.right;
      states, events := DecisionIsPerformed(defs, order, depth, b, s, env, ms);
      TestFirst(defs, order, depth, a, b, s, env, ms, states, events);
      states, events := [State(AsAgent(a), env, Hole, ms)] + states, [Silent] + events;
    } else if a.Input? {
      states, events := AcceptFirst(defs, order, depth, a, s, env, ms);
    } else {
      states, events := [State(AsAgent(a), env, Hole, ms)], [];
    }
  }

  lemma TestFirst(defs: Definitions, order: Order, depth: nat, a: Syntax, b: Syntax, s: F.State, env: Env,
                  ms: seq<Message>, states: seq<State>, events: seq<Event>)
    requires a.Conditional? && EvalVal(a.condition, env).Some?
    requires b == if EvalVal(a.condition, env).value != 0 then a.left else a.right
    requires D.Decide(a, s) == D.Decide(b, s)
    requires Performs(defs, order, depth, b, env, ms, D.Decide(b, s), states, events)
    ensures Performs(defs, order, depth, a, env, ms, D.Decide(a, s), [State(AsAgent(a), env, Hole, ms)] + states,
                     [Silent] + events)
  {
    var start := State(AsAgent(a), env, Hole, ms);
    assert StepsTo(defs, order, depth, start, states[0], Silent);
    VisibleFront(Silent, events);
    Prepended(defs, order, depth, start, Silent, states, events);
  }

  lemma AcceptFirst(defs: Definitions, order: Order, depth: nat, a: Syntax, s: F.State, env: Env, ms: seq<Message>)
    returns (states: seq<State>, events: seq<Event>)
    requires a.Input? && !D.Decide(a, s).Stuck?
    ensures Performs(defs, order, depth, a, env, ms, D.Decide(a, s), states, events)
  {
    var start, call := State(AsAgent(a), env, Hole, ms), State(AsAgent(a.body), env, Hole, ms);
    states, events := [start, call], [Observed("accept")];
    assert StepsTo(defs, order, depth, start, call, Observed("accept"));
    assert events == [Observed("accept")] + [];
    VisibleFront(Observed("accept"), []);
  }

  lemma Prepended(defs: Definitions, order: Order, depth: nat, s: State, e: Event, states: seq<State>,
                  events: seq<Event>)
    requires |states| == |events| + 1 && StepsTo(defs, order, depth, s, states[0], e)
    requires forall i :: 0 <= i < |events| ==> StepsTo(defs, order, depth, states[i], states[i + 1], events[i])
    ensures var all, es := [s] + states, [e] + events;
            forall i :: 0 <= i < |es| ==> StepsTo(defs, order, depth, all[i], all[i + 1], es[i])
  {
    var all, es := [s] + states, [e] + events;
    forall i | 0 <= i < |es| ensures StepsTo(defs, order, depth, all[i], all[i + 1], es[i]) {
      if i > 0 { assert StepsTo(defs, order, depth, states[i - 1], states[i], events[i - 1]); }
    }
  }
}
