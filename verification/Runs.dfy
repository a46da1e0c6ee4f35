/** Properties of all runs of the interpreter. */
module Runs {
  import opened Wrappers
  import opened Agents
  import opened Channels
  import opened Machine
  import opened Frame

  lemma RunBefore(defs: Definitions, order: Order, depth: nat, states: seq<State>, events: seq<Event>)
    requires IsRun(defs, order, depth, states, events) && events != []
    ensures IsRun(defs, order, depth, states[..|events|], events[..|events| - 1])
    ensures StepsTo(defs, order, depth, states[|events| - 1], states[|events|], events[|events| - 1])
  {
  }

  lemma {:induction false} RunInvariant(defs: Definitions, order: Order, depth: nat, states: seq<State>,
                                        events: seq<Event>)
    requires WellFormed(defs) && IsRun(defs, order, depth, states, events)
    ensures Invariant(states[|events|])
    decreases |events|
  {
    if events != [] {
      var n := |events|;
      RunBefore(defs, order, depth, states, events);
      RunInvariant(defs, order, depth, states[..n], events[..n - 1]);
      var _ := StepFrame(defs, order, depth, states[n - 1], states[n], events[n - 1]);
    }
  }

  // ----- the machine refines the reduction semantics -----

  function Show(event: Event): seq<Event> {
    if event == Silent then [] else [event]
  }

  function Visible(events: seq<Event>): seq<Event> {
    if events == [] then [] else Visible(events[..|events| - 1]) + Show(events[|events| - 1])
  }

  /** n reductions lead from w to w' and show the trace. */
  ghost predicate Reaches(defs: Definitions, order: Order, n: nat, w: Agent, ms: seq<Message>, trace: seq<Event>,
                          w': Agent, ms': seq<Message>) {
    if n == 0 then w' == w && ms' == ms && trace == []
    else exists u, mu, event, shown ::
      Reaches(defs, order, n - 1, w, ms, shown, u, mu) && Reduces(defs, order, u, mu, event, w', ms') &&
      trace == shown + Show(event)
  }

  lemma ReachesMore(defs: Definitions, order: Order, n: nat, w: Agent, ms: seq<Message>, trace: seq<Event>,
                    k: Agent, s: State, res: Agent, u: Agent, event: Event, w': Agent, ms': seq<Message>)
    requires Reaches(defs, order, n, w, ms, trace, u, s.channel)
    requires ReducesAt(defs, order, k, s.exp, s.env, res, u, s.channel, event, w', ms')
    ensures Reaches(defs, order, n + 1, w, ms, trace + Show(event), w', ms')
  {
    assert Reduces(defs, order, u, s.channel, event, w', ms');
  }

  lemma MovesRefine(defs: Definitions, order: Order, s: State, t: State, event: Event, res: Agent,
                    m: nat, w: Agent, ms: seq<Message>, trace: seq<Event>) returns (n: nat)
    requires Moves(defs, order, s, t, event, res)
    requires Reaches(defs, order, m, w, ms, trace, World(s), s.channel)
    ensures Reaches(defs, order, n, w, ms, trace + Show(event), World(t), t.channel)
  {
    if ReducesAt(defs, order, Norm(s.cont, s.env), s.exp, s.env, res, World(s), s.channel, event, World(t), t.channel) {
      n := m + 1;
      ReachesMore(defs, order, m, w, ms, trace, Norm(s.cont, s.env), s, res, World(s), event, World(t), t.channel);
    } else {
      n := m;
      assert trace + Show(event) == trace;
    }
  }

  /** Whatever the machine shows in a run, the process it stands for can do, and both end in the
      same process with the same messages pending. */
  lemma {:induction false} RunRefines(defs: Definitions, order: Order, depth: nat, states: seq<State>,
                                      events: seq<Event>)
    returns (n: nat)
    requires WellFormed(defs) && IsRun(defs, order, depth, states, events)
    ensures Reaches(defs, order, n, World(states[0]), states[0].channel, Visible(events),
                    World(states[|events|]), states[|events|].channel)
    decreases |events|
  {
    n := 0;
    if events != [] {
      var m := |events|;
      RunBefore(defs, order, depth, states, events);
      RunInvariant(defs, order, depth, states[..m], events[..m - 1]);
      n := RunRefines(defs, order, depth, states[..m], events[..m - 1]);
      var res := StepFrame(defs, order, depth, states[m - 1], states[m], events[m - 1]);
      n := MovesRefine(defs, order, states[m - 1], states[m], events[m - 1], res, n, World(states[0]),
                        states[0].channel, Visible(events[..m - 1]));
    }
  }

  // ----- one-place channels -----

  /** A step either leaves the channel alone, or sends on a free channel, or receives what is pending. */
  lemma StepChannel(defs: Definitions, order: Order, depth: nat, s: State, t: State, event: Event)
    requires WellFormed(defs) && Invariant(s) && StepsTo(defs, order, depth, s, t, event)
    ensures match event
            case Sent(c, values) =>
              Lookup(s.channel, c) == None &&
              t.channel == Insert(order, s.channel, Message(c, values))
            case Received(c, values) =>
              Lookup(s.channel, c) == Some(values) &&
              t.channel == Remove(s.channel, Message(c, values))
            case _ => t.channel == s.channel
  {
    var _ := StepFrame(defs, order, depth, s, t, event);
  }

  function OnChannel(c: string, e: Event): seq<Event> {
    if (e.Sent? || e.Received?) && e.channel == c then [e] else []
  }

  /** The sends and receives on channel c, in order. */
  function On(c: string, events: seq<Event>): seq<Event> {
    if events == [] then [] else On(c, events[..|events| - 1]) + OnChannel(c, events[|events| - 1])
  }

  /** Sends and receives take turns, beginning with a send, and a receive gets what was sent. */
  predicate Alternating(es: seq<Event>) {
    forall i :: 0 <= i < |es| ==> InTurn(es, i)
  }

  predicate InTurn(es: seq<Event>, i: nat)
    requires i < |es|
  {
    if i % 2 == 0 then es[i].Sent? else es[i].Received? && es[i - 1].Sent? && es[i].values == es[i - 1].values
  }

  /** What was sent and not received. */
  function Unreceived(es: seq<Event>): Option<seq<int>> {
    if es != [] && es[|es| - 1].Sent? then Some(es[|es| - 1].values) else None
  }

  lemma AlternatingMore(es: seq<Event>, e: Event)
    requires Alternating(es)
    requires (e.Sent? && Unreceived(es) == None) || (e.Received? && Unreceived(es) == Some(e.values))
    ensures Alternating(es + [e])
    ensures Unreceived(es + [e]) == if e.Sent? then Some(e.values) else None
  {
    if es != [] { assert InTurn(es, |es| - 1); }
    forall i | 0 <= i < |es| + 1 ensures InTurn(es + [e], i) {
      if i < |es| { assert InTurn(es, i); }
    }
  }

  /** What one step does to the messages pending on c. */
  lemma StepPending(defs: Definitions, order: Order, depth: nat, s: State, t: State, event: Event, c: string)
    requires WellFormed(defs) && Invariant(s) && StepsTo(defs, order, depth, s, t, event) && OnePlace(s.channel)
    ensures OnePlace(t.channel)
    ensures match event
            case Sent(d, values) => d == c ==> Lookup(s.channel, c) == None && Lookup(t.channel, c) == Some(values)
            case Received(d, values) => d == c ==> Lookup(s.channel, c) == Some(values) && Lookup(t.channel, c) == None
            case _ => true
    ensures !((event.Sent? || event.Received?) && event.channel == c) ==> Lookup(t.channel, c) == Lookup(s.channel, c)
  {
    StepChannel(defs, order, depth, s, t, event);
    match event
    case Sent(d, values) =>
      InsertMeaning(order, s.channel, Message(d, values), c);
      InsertOnePlace(order, s.channel, Message(d, values));
    case Received(d, values) =>
      RemoveMeaning(s.channel, Message(d, values), c);
      RemoveOnePlace(s.channel, Message(d, values));
    case _ =>
  }

  /** The history of channel c and the messages pending now. */
  ghost predicate OneMessage(ms: seq<Message>, es: seq<Event>, c: string) {
    OnePlace(ms) && Alternating(es) && Lookup(ms, c) == Unreceived(es)
  }

  lemma StepOneMessage(defs: Definitions, order: Order, depth: nat, s: State, t: State, event: Event, es: seq<Event>,
                       c: string)
    requires WellFormed(defs) && Invariant(s) && StepsTo(defs, order, depth, s, t, event)
    requires OneMessage(s.channel, es, c)
    ensures OneMessage(t.channel, es + OnChannel(c, event), c)
  {
    StepPending(defs, order, depth, s, t, event, c);
    if OnChannel(c, event) != [] {
      AlternatingMore(es, event);
    } else {
      assert es + [] == es;
    }
  }

  /** Every channel is a one-place buffer in every run from an empty channel: at most one message is
      pending, sends and receives alternate, and what is received is what was sent last. */
  lemma {:induction false} ChannelsAreOnePlace(defs: Definitions, order: Order, depth: nat, states: seq<State>,
                                               events: seq<Event>, c: string)
    requires WellFormed(defs) && IsRun(defs, order, depth, states, events) && states[0].channel == []
    ensures OneMessage(states[|events|].channel, On(c, events), c)
    decreases |events|
  {
    if events != [] {
      var n := |events|;
      RunBefore(defs, order, depth, states, events);
      RunInvariant(defs, order, depth, states[..n], events[..n - 1]);
      ChannelsAreOnePlace(defs, order, depth, states[..n], events[..n - 1], c);
      StepOneMessage(defs, order, depth, states[n - 1], states[n], events[n - 1], On(c, events[..n - 1]), c);
    }
  }

  // ----- both channel orders -----

  lemma {:induction false} EnabledSame(defs: Definitions, a: Agent, ms: seq<Message>, ms': seq<Message>, depth: nat)
    requires SamePending(ms, ms')
    ensures Enabled(defs, a, ms, depth) == Enabled(defs, a, ms', depth)
    decreases depth, a
  {
    match a
    case Sum(l, r) => EnabledSame(defs, l, ms, ms', depth); EnabledSame(defs, r, ms, ms', depth);
    case Com(l, r) => EnabledSame(defs, l, ms, ms', depth); EnabledSame(defs, r, ms, ms', depth);
    case Cls(b, _) => EnabledSame(defs, b, ms, ms', depth);
    case Con(Defined(name), args) =>
      if name in defs && depth > 0 { EnabledSame(defs, defs[name].body, ms, ms', depth - 1); }
    case _ =>
  }

  /** The same machine over two one-place channels with the same messages pending. */
  ghost predicate Alike(s: State, q: State) {
    s.exp == q.exp && s.env == q.env && s.cont == q.cont &&
    SamePending(s.channel, q.channel) && OnePlace(s.channel) && OnePlace(q.channel)
  }

  ghost predicate AlikeOutcome(a: Outcome, b: Outcome) {
    if a.Next? then b.Next? && a.event == b.event && Alike(a.state, b.state) else a == b
  }

  lemma PrefixAlike(s: State, q: State)
    requires Alike(s, q) && (s.exp.Recv? || s.exp.Send?)
    requires s.exp.Send? ==> Lookup(s.channel, s.exp.channel) == None
    ensures AlikeOutcome(Prefix(Stack, s), Prefix(Queue, q))
  {
    var a, b := Prefix(Stack, s), Prefix(Queue, q);
    if a.Next? {
      match s.exp
      case Recv(Observation(_), _, _) =>
      case Recv(Channel(c), _, _) =>
        var m := Message(c, Lookup(s.channel, c).value);
        RemoveOnePlace(s.channel, m);
        RemoveOnePlace(q.channel, m);
        forall d ensures Lookup(a.state.channel, d) == Lookup(b.state.channel, d) {
          RemoveMeaning(s.channel, m, d);
          RemoveMeaning(q.channel, m, d);
        }
      case Send(c, args, _) =>
        var m := Message(c, EvalVals(args, s.env).value);
        InsertOnePlace(Stack, s.channel, m);
        InsertOnePlace(Queue, q.channel, m);
        forall d ensures Lookup(a.state.channel, d) == Lookup(b.state.channel, d) {
          InsertMeaning(Stack, s.channel, m, d);
          InsertMeaning(Queue, q.channel, m, d);
        }
    }
  }

  /** A list used as a stack and a queue are interchangeable as the channel: the interpreter takes the
      same step, reports the same errors and stops in the same place. */
  lemma StepAlike(defs: Definitions, depth: nat, s: State, q: State)
    requires Alike(s, q) && s.exp != Hole
    ensures AlikeOutcome(Step(defs, Stack, depth, s), Step(defs, Queue, depth, q))
  {
    EnabledSame(defs, s.exp, s.channel, q.channel, depth);
    match s.exp
    case Recv(_, _, _) => PrefixAlike(s, q);
    case Send(_, _, _) => if Lookup(s.channel, s.exp.channel) == None { PrefixAlike(s, q); }
    case Sum(l, r) =>
      EnabledSame(defs, l, s.channel, q.channel, depth);
      EnabledSame(defs, r, s.channel, q.channel, depth);
    case Com(l, r) =>
      EnabledSame(defs, l, s.channel, q.channel, depth);
      EnabledSame(defs, r, s.channel, q.channel, depth);
    case Cls(b, _) => EnabledSame(defs, b, s.channel, q.channel, depth);
    case _ =>
  }

  /** Every run over the stack is, event by event, a run over the queue. */
  lemma {:induction false} RunAlike(defs: Definitions, depth: nat, states: seq<State>, events: seq<Event>, q: State)
    returns (queued: seq<State>)
    requires WellFormed(defs) && IsRun(defs, Stack, depth, states, events) && Alike(states[0], q)
    ensures IsRun(defs, Queue, depth, queued, events) && queued[0] == q
    ensures forall i :: 0 <= i < |states| ==> Alike(states[i], queued[i])
    decreases |events|
  {
    queued := [q];
    if events != [] {
      var n := |events|;
      RunBefore(defs, Stack, depth, states, events);
      var before := RunAlike(defs, depth, states[..n], events[..n - 1], q);
      assert Alike(states[n - 1], before[n - 1]);
      StepAlike(defs, depth, states[n - 1], before[n - 1]);
      var t := Step(defs, Queue, depth, before[n - 1]).state;
      queued := before + [t];
      forall i | 0 <= i < n ensures StepsTo(defs, Queue, depth, queued[i], queued[i + 1], events[i]) {
        if i < n - 1 { assert StepsTo(defs, Queue, depth, before[i], before[i + 1], events[..n - 1][i]); }
      }
      forall i | 0 <= i < |states| ensures Alike(states[i], queued[i]) {
        if i < n { assert Alike(states[..n][i], before[i]); }
      }
    }
  }

  // ----- the interpreter stops only in a deadlock -----

  lemma {:induction false} EnabledDeeper(defs: Definitions, a: Agent, ms: seq<Message>, depth: nat, more: nat)
    requires depth <= more && Enabled(defs, a, ms, depth) != TooDeep
    ensures Enabled(defs, a, ms, more) == Enabled(defs, a, ms, depth)
    decreases depth, a
  {
    match a
    case Sum(l, r) =>
      EnabledDeeper(defs, l, ms, depth, more);
      if Enabled(defs, l, ms, depth) == No { EnabledDeeper(defs, r, ms, depth, more); }
    case Com(l, r) =>
      EnabledDeeper(defs, l, ms, depth, more);
      if Enabled(defs, l, ms, depth) == No { EnabledDeeper(defs, r, ms, depth, more); }
    case Cls(b, _) => EnabledDeeper(defs, b, ms, depth, more);
    case Con(Defined(name), args) =>
      if name in defs && depth > 0 && !(args != [] && |args| != |defs[name].params|) {
        EnabledDeeper(defs, defs[name].body, ms, depth - 1, more - 1);
      }
    case _ =>
  }

  lemma {:induction false} EnabledNorm(defs: Definitions, a: Agent, env: Env, ms: seq<Message>, depth: nat)
    ensures Enabled(defs, Norm(a, env), ms, depth) == Enabled(defs, a, ms, depth)
    decreases a
  {
    match a
    case Com(l, r) => EnabledNorm(defs, l, env, ms, depth); EnabledNorm(defs, r, env, ms, depth);
    case Cls(b, e) => EnabledNorm(defs, b, e, ms, depth);
    case _ =>
  }

  /** A blocked component communicates never and, when it unfolds or chooses, stays blocked. */
  lemma BlockedFires(defs: Definitions, order: Order, x: Agent, env: Env, before: seq<Message>, event: Event,
                     res: Agent, after: seq<Message>, depth: nat)
    requires Enabled(defs, x, before, depth) == No && Fires(defs, order, x, env, before, event, res, after)
    ensures event == Silent && after == before && Enabled(defs, res, before, depth) == No
  {
    match x
    case Sum(l, r) => EnabledNorm(defs, l, env, before, depth); EnabledNorm(defs, r, env, before, depth);
    case Con(Defined(name), args) =>
      var e := Bind(defs[name].params, EvalVals(args, env).value, env).value;
      EnabledNorm(defs, defs[name].body, e, before, depth);
      EnabledDeeper(defs, defs[name].body, before, depth - 1, depth);
    case _ =>
  }

  /** A blocked process has only blocked components, and replacing one by another leaves it blocked. */
  lemma {:induction false} BlockedParts(defs: Definitions, e: Agent, res: Agent, k: Agent, ms: seq<Message>, depth: nat)
    requires OneHole(k) && e != Hole && res != Hole && Enabled(defs, Resume(e, k), ms, depth) == No
    ensures Enabled(defs, e, ms, depth) == No
    ensures Enabled(defs, res, ms, depth) == No ==> Enabled(defs, Resume(res, k), ms, depth) == No
  {
    if k.Com? {
      if OneHole(k.left) && ClosedTree(k.right) {
        ClosedHasNoHole(k.right);
        ResumeClosed(e, k.right);
        ResumeClosed(res, k.right);
        BlockedParts(defs, e, res, k.left, ms, depth);
      } else {
        ClosedHasNoHole(k.left);
        ResumeClosed(e, k.left);
        ResumeClosed(res, k.left);
        BlockedParts(defs, e, res, k.right, ms, depth);
      }
    }
  }

  lemma BlockedReduces(defs: Definitions, order: Order, w: Agent, before: seq<Message>, event: Event, w': Agent,
                       after: seq<Message>, depth: nat)
    requires Enabled(defs, w, before, depth) == No && Reduces(defs, order, w, before, event, w', after)
    ensures event == Silent && after == before && Enabled(defs, w', before, depth) == No
  {
    var k, x, env, res :| ReducesAt(defs, order, k, x, env, res, w, before, event, w', after);
    BlockedParts(defs, Cls(x, env), Cls(x, env), k, before, depth);
    BlockedFires(defs, order, x, env, before, event, res, after, depth);
    BlockedParts(defs, Cls(x, env), res, k, before, depth);
  }

  lemma {:induction false} BlockedForever(defs: Definitions, order: Order, n: nat, w: Agent, ms: seq<Message>,
                                          trace: seq<Event>, w': Agent, ms': seq<Message>, depth: nat)
    requires Enabled(defs, w, ms, depth) == No && Reaches(defs, order, n, w, ms, trace, w', ms')
    ensures trace == [] && ms' == ms && Enabled(defs, w', ms, depth) == No
  {
    if n > 0 {
      var u, mu, event, shown :|
        Reaches(defs, order, n - 1, w, ms, shown, u, mu) && Reduces(defs, order, u, mu, event, w', ms') &&
        trace == shown + Show(event);
      BlockedForever(defs, order, n - 1, w, ms, shown, u, mu, depth);
      BlockedReduces(defs, order, u, ms, event, w', ms', depth);
    }
  }

  /** The interpreter stops, other than by an abort, only with the whole process at hand and blocked. */
  lemma StoppedBlocked(defs: Definitions, order: Order, depth: nat, s: State)
    requires Invariant(s) && Step(defs, order, depth, s).Stopped?
    requires !(s.exp.Con? && s.exp.agent == AbortAgent)
    ensures s.cont == Hole && Enabled(defs, World(s), s.channel, depth) == No
  {
    assert s.cont == Hole && Enabled(defs, s.exp, s.channel, depth) == No;
    EnabledNorm(defs, s.exp, s.env, s.channel, depth);
    NormClosed(s.exp, s.env);
  }

  /** When the interpreter stops, other than by an abort, no communication is possible any more: however
      the process goes on by itself, it sends, receives and observes nothing. */
  lemma StopIsDeadlock(defs: Definitions, order: Order, depth: nat, s: State, n: nat, trace: seq<Event>, w': Agent,
                       ms': seq<Message>)
    requires Invariant(s) && Step(defs, order, depth, s).Stopped?
    requires !(s.exp.Con? && s.exp.agent == AbortAgent)
    requires Reaches(defs, order, n, World(s), s.channel, trace, w', ms')
    ensures trace == [] && ms' == s.channel
  {
    StoppedBlocked(defs, order, depth, s);
    BlockedForever(defs, order, n, World(s), s.channel, trace, w', ms', depth);
  }
}
