/** What a receive gets: in every run the values that are read under its parameters are those of the arguments of
    the send before it. */
module Communication {
  import opened Wrappers
  import opened Agents
  import opened Channels
  import opened Machine
  import opened Values
  import opened Runs

  lemma SendStep(defs: Definitions, order: Order, depth: nat, s: State, t: State, event: Event)
    requires StepsTo(defs, order, depth, s, t, event) && event.Sent?
    ensures s.exp.Send? && s.exp.channel == event.channel && EvalVals(s.exp.args, s.env) == Some(event.values)
  {
  }

  lemma ReceiveStep(defs: Definitions, order: Order, depth: nat, s: State, t: State, event: Event) returns (env: Env)
    requires StepsTo(defs, order, depth, s, t, event) && event.Received?
    ensures s.exp.Recv? && s.exp.action == Channel(event.channel) &&
            Bind(s.exp.params, event.values, s.env) == Some(env)
    ensures t.exp == Resume(MakeCls(s.exp.body, env), s.cont) && t.cont == Hole
  {
    env := Bind(s.exp.params, event.values, s.env).value;
  }

  /** In env each parameter has the value that its argument has in from, and every other name its value in base;
      of a repeated parameter the last one counts. */
  ghost predicate Passed(params: seq<string>, args: seq<ValueExp>, from: Env, base: Env, env: Env) {
    && |params| == |args|
    && (forall x, i | LastAt(params, x, i) ::
          EvalVal(args[i], from).Some? && ValueOf(x, env) == EvalVal(args[i], from))
    && (forall x :: x !in params ==> ValueOf(x, env) == ValueOf(x, base))
  }

  lemma BoundArguments(params: seq<string>, args: seq<ValueExp>, from: Env, base: Env)
    requires EvalVals(args, from).Some? && Bind(params, EvalVals(args, from).value, base).Some?
    ensures Passed(params, args, from, base, Bind(params, EvalVals(args, from).value, base).value)
  {
    var values := EvalVals(args, from).value;
    EvalValsEach(args, from);
    BindFailsExactly(params, values, base);
    var env := Bind(params, values, base).value;
    forall x
      ensures x !in params ==> ValueOf(x, env) == ValueOf(x, base)
      ensures forall i :: LastAt(params, x, i) ==> ValueOf(x, env) == Some(values[i])
    {
      BindMeaning(params, values, base, x);
    }
  }

  /** The last event on a channel. */
  lemma {:induction false} LastOn(c: string, events: seq<Event>) returns (m: nat)
    requires On(c, events) != []
    ensures m < |events| && OnChannel(c, events[m]) == [events[m]] && On(c, events)[|On(c, events)| - 1] == events[m]
    ensures forall j :: m < j < |events| ==> OnChannel(c, events[j]) == []
  {
    var n := |events| - 1;
    if OnChannel(c, events[n]) != [] {
      m := n;
    } else {
      m := LastOn(c, events[..n]);
      forall j | m < j < |events| ensures OnChannel(c, events[j]) == [] {
        if j < n { assert events[..n][j] == events[j]; }
      }
    }
  }

  /** The send whose values a receive gets. */
  predicate Delivers(events: seq<Event>, m: nat)
    requires events != []
  {
    var n := |events| - 1;
    m < n && events[n].Received? && events[m] == Sent(events[n].channel, events[n].values) &&
    forall j :: m < j < n ==> OnChannel(events[n].channel, events[j]) == []
  }

  lemma DeliveredBefore(defs: Definitions, order: Order, depth: nat, states: seq<State>, events: seq<Event>)
    returns (m: nat)
    requires WellFormed(defs) && IsRun(defs, order, depth, states, events) && states[0].channel == []
    requires events != [] && events[|events| - 1].Received?
    ensures Delivers(events, m)
  {
    var n := |events| - 1;
    var c, es := events[n].channel, On(events[n].channel, events[..n]);
    RunBefore(defs, order, depth, states, events);
    RunInvariant(defs, order, depth, states[..n + 1], events[..n]);
    ChannelsAreOnePlace(defs, order, depth, states[..n + 1], events[..n], c);
    StepChannel(defs, order, depth, states[n], states[n + 1], events[n]);
    assert Unreceived(es) == Some(events[n].values);
    m := LastOn(c, events[..n]);
    forall j | m < j < n ensures OnChannel(c, events[j]) == [] { assert events[..n][j] == events[j]; }
  }

  /** In every run from an empty channel a receive continues with its body in an environment in which each
      parameter has the value that its argument had for the sender, and every other name the value it had before. */
  lemma ArgumentsReachParameters(defs: Definitions, order: Order, depth: nat, states: seq<State>, events: seq<Event>)
    returns (m: nat, env: Env)
    requires WellFormed(defs) && IsRun(defs, order, depth, states, events) && states[0].channel == []
    requires events != [] && events[|events| - 1].Received?
    ensures Delivers(events, m)
    ensures var send, receive := states[m], states[|events| - 1];
      && send.exp.Send? && receive.exp.Recv? && receive.exp.action == Channel(send.exp.channel)
      && states[|events|].exp == Resume(MakeCls(receive.exp.body, env), receive.cont)
      && states[|events|].cont == Hole
      && Passed(receive.exp.params, send.exp.args, send.env, receive.env, env)
  {
    var n := |events| - 1;
    m := DeliveredBefore(defs, order, depth, states, events);
    assert StepsTo(defs, order, depth, states[m], states[m + 1], events[m]);
    assert StepsTo(defs, order, depth, states[n], states[n + 1], events[n]);
    SendStep(defs, order, depth, states[m], states[m + 1], events[m]);
    env := ReceiveStep(defs, order, depth, states[n], states[n + 1], events[n]);
    BoundArguments(states[n].exp.params, states[m].exp.args, states[m].env, states[n].env);
  }

  /** A call continues with the body of the definition in an environment in which each parameter has the value of
      its argument, and every other name the value it has for the caller. */
  lemma CallPassesArguments(defs: Definitions, order: Order, depth: nat, s: State, t: State, event: Event)
    returns (env: Env)
    requires StepsTo(defs, order, depth, s, t, event) && s.exp.Con? && s.exp.agent.Defined?
    ensures event == Silent && t.channel == s.channel && s.exp.agent.name in defs
    ensures var d := defs[s.exp.agent.name];
            t.exp == Resume(MakeCls(d.body, env), s.cont) && t.cont == Hole &&
                Passed(d.params, s.exp.args, s.env, s.env, env)
  {
    var d := defs[s.exp.agent.name];
    env := Bind(d.params, EvalVals(s.exp.args, s.env).value, s.env).value;
    BoundArguments(d.params, s.exp.args, s.env, s.env);
  }
}
