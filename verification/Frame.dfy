/** Every step of the interpreter is a step of the process it stands for: the machine of the
    continuations refines a reduction semantics on trees of closures. */
module Frame {
  import opened Wrappers
  import opened Agents
  import opened Channels
  import opened Machine

  /** The process of an expression in its environment, with every closure pushed to the leaves. */
  function Norm(a: Agent, env: Env): Agent {
    match a
    case Hole => Hole
    case Com(l, r) => Com(Norm(l, env), Norm(r, env))
    case Cls(b, e) => Norm(b, e)
    case _ => Cls(a, env)
  }

  /** The process the machine stands for: its continuation filled with its expression. */
  function World(s: State): Agent {
    Resume(Norm(s.exp, s.env), Norm(s.cont, s.env))
  }

  /** One component x, in its environment, moves on its own or with the channel and becomes res. */
  predicate Fires(defs: Definitions, order: Order, x: Agent, env: Env, before: seq<Message>, event: Event, res: Agent,
                  after: seq<Message>) {
    match x
    case Recv(Channel(c), params, body) =>
      event.Received? && event.channel == c && Lookup(before, c) == Some(event.values) &&
      Bind(params, event.values, env).Some? && res == Norm(body, Bind(params, event.values, env).value) &&
      after == Remove(before, Message(c, event.values))
    case Recv(Observation(name), _, body) => event == Observed(name) && res == Norm(body, env) && after == before
    case Send(c, args, body) =>
      event.Sent? && event.channel == c && EvalVals(args, env) == Some(event.values) && Lookup(before, c) == None &&
      res == Norm(body, env) && after == Insert(order, before, Message(c, event.values))
    case Sum(l, r) => event == Silent && after == before && (res == Norm(l, env) || res == Norm(r, env))
    case If(condition, l, r) =>
      event == Silent && after == before && EvalVal(condition, env).Some? &&
      res == Norm(if EvalVal(condition, env).value != 0 then l else r, env)
    case Con(Defined(name), args) =>
      event == Silent && after == before && name in defs && EvalVals(args, env).Some? &&
      Bind(defs[name].params, EvalVals(args, env).value, env).Some? &&
      res == Norm(defs[name].body, Bind(defs[name].params, EvalVals(args, env).value, env).value)
    case _ => false
  }

  /** The component at the hole of k fires; everything else in the process stays as it is. */
  predicate ReducesAt(defs: Definitions, order: Order, k: Agent, x: Agent, env: Env, res: Agent,
                      w: Agent, before: seq<Message>, event: Event, w': Agent, after: seq<Message>)
  {
    OneHole(k) && w == Resume(Cls(x, env), k) && w' == Resume(res, k) &&
    Fires(defs, order, x, env, before, event, res, after)
  }

  /** The reduction semantics: one component of the process fires. */
  ghost predicate Reduces(defs: Definitions, order: Order, w: Agent, before: seq<Message>, event: Event, w': Agent,
                          after: seq<Message>) {
    exists k, x, env, res :: ReducesAt(defs, order, k, x, env, res, w, before, event, w', after)
  }

  // ----- pushing closures -----

  lemma {:induction false} NormClosed(a: Agent, env: Env)
    requires NoHole(a)
    ensures ClosedTree(Norm(a, env))
    decreases a
  {
    match a
    case Com(l, r) => NormClosed(l, env); NormClosed(r, env);
    case Cls(b, e) => NormClosed(b, e);
    case _ =>
  }

  /** The environment says nothing about a tree of closures. */
  lemma {:induction false} NormOfClosed(a: Agent, e1: Env, e2: Env)
    requires ClosedTree(a)
    ensures Norm(a, e1) == Norm(a, e2)
  {
    if a.Com? { NormOfClosed(a.left, e1, e2); NormOfClosed(a.right, e1, e2); }
  }

  lemma {:induction false} NormOneHole(k: Agent, e1: Env, e2: Env)
    requires OneHole(k)
    ensures OneHole(Norm(k, e1)) && Norm(k, e1) == Norm(k, e2)
    ensures Norm(k, e1) == Hole <==> k == Hole
  {
    if k.Com? {
      if OneHole(k.left) && ClosedTree(k.right) {
        ClosedHasNoHole(k.right);
        NormClosed(k.right, e1);
        NormOfClosed(k.right, e1, e2);
        NormOneHole(k.left, e1, e2);
      } else {
        ClosedHasNoHole(k.left);
        NormClosed(k.left, e1);
        NormOfClosed(k.left, e1, e2);
        NormOneHole(k.right, e1, e2);
      }
    }
  }

  /** Pushing closures commutes with filling the hole. */
  lemma {:induction false} NormResume(e: Agent, k: Agent, env: Env)
    requires NoHole(e) && OneHole(k)
    ensures Norm(Resume(e, k), env) == Resume(Norm(e, env), Norm(k, env))
    decreases k
  {
    NormClosed(e, env);
    if k.Com? {
      if OneHole(k.left) && ClosedTree(k.right) {
        NormResume(e, k.left, env);
        StaysClosed(e, Norm(e, env), k.right, env);
      } else {
        NormResume(e, k.right, env);
        StaysClosed(e, Norm(e, env), k.left, env);
      }
    }
  }

  lemma StaysClosed(e: Agent, f: Agent, a: Agent, env: Env)
    requires ClosedTree(a) && e != Hole && f != Hole
    ensures Resume(e, a) == a && Resume(f, Norm(a, env)) == Norm(a, env)
  {
    ClosedHasNoHole(a);
    ResumeClosed(e, a);
    NormClosed(a, env);
    ClosedHasNoHole(Norm(a, env));
    ResumeClosed(f, Norm(a, env));
  }

  // ----- the steps -----

  /** The step from s to t gave event; the process is the same or one component fired at the hole. */
  predicate Moves(defs: Definitions, order: Order, s: State, t: State, event: Event, res: Agent) {
    (World(t) == World(s) && t.channel == s.channel && event == Silent) ||
    ReducesAt(defs, order, Norm(s.cont, s.env), s.exp, s.env, res, World(s), s.channel, event, World(t), t.channel)
  }

  lemma YieldKeeps(s: State, e: Agent, t: State, event: Event)
    requires Invariant(s) && e != Hole && NoHole(e) && Norm(e, s.env) == Norm(s.exp, s.env)
    requires Yield(s, e) == Next(t, event)
    ensures Invariant(t) && World(t) == World(s) && t.channel == s.channel && event == Silent
  {
    ResumeFills(e, s.cont);
    NormResume(e, s.cont, s.env);
  }

  /** Going on from the top, with the hole filled. */
  lemma FilledWorld(e: Agent, k: Agent, env: Env, ms: seq<Message>)
    requires NoHole(e) && OneHole(k)
    ensures Invariant(State(Resume(e, k), env, Hole, ms))
    ensures World(State(Resume(e, k), env, Hole, ms)) == Resume(Norm(e, env), Norm(k, env))
  {
    ResumeFills(e, k);
    NormResume(e, k, env);
    NormClosed(e, env);
  }

  /** Entering one side of a parallel agent. */
  lemma EnterKeeps(s: State, side: Side)
    requires Invariant(s) && s.exp.Com? && side != Switch
    ensures var t := State(if side == Left then s.exp.left else s.exp.right, s.env,
                           MakeCont(side, s.exp, s.cont, s.env), s.channel);
            Invariant(t) && World(t) == World(s)
  {
    var p, q := s.exp.left, s.exp.right;
    var closed := if side == Left then MakeCls(q, s.env) else MakeCls(p, s.env);
    var e := if side == Left then p else q;
    var k := MakeCont(side, s.exp, s.cont, s.env);
    EnterLaw(side, p, q, s.cont, s.env);
    NormResume(e, k, s.env);
    NormResume(if side == Left then Com(p, closed) else Com(closed, q), s.cont, s.env);
  }

  /** After a send the sibling goes on, and the process is the one with the sender in its place. */
  lemma SwitchKeeps(s: State, body: Agent, ms: seq<Message>)
    requires Invariant(s) && NoHole(body) && s.cont != Hole
    ensures var t := State(Resume(Hole, s.cont), s.env, MakeCont(Switch, MakeCls(body, s.env), s.cont, s.env), ms);
            Invariant(t) && World(t) == Resume(Norm(body, s.env), Norm(s.cont, s.env))
  {
    var e := MakeCls(body, s.env);
    SwitchLaw(e, s.cont, s.env);
    ClosedHasNoHole(Resume(Hole, s.cont));
    NormResume(Resume(Hole, s.cont), MakeCont(Switch, e, s.cont, s.env), s.env);
    NormResume(e, s.cont, s.env);
  }

  lemma PrefixFrame(defs: Definitions, order: Order, s: State, t: State, event: Event) returns (res: Agent)
    requires Invariant(s) && (s.exp.Recv? || s.exp.Send?)
    requires s.exp.Send? ==> Lookup(s.channel, s.exp.channel) == None
    requires Prefix(order, s) == Next(t, event)
    ensures Invariant(t) && Moves(defs, order, s, t, event, res)
  {
    var k := Norm(s.cont, s.env);
    NormOneHole(s.cont, s.env, s.env);
    match s.exp
    case Recv(Observation(name), _, body) =>
      FilledWorld(body, s.cont, s.env, t.channel);
      res := Norm(body, s.env);
    case Recv(Channel(c), params, body) =>
      var env := Bind(params, event.values, s.env).value;
      FilledWorld(MakeCls(body, env), s.cont, s.env, t.channel);
      res := Norm(body, env);
    case Send(c, args, body) =>
      if s.cont != Hole { SwitchKeeps(s, body, t.channel); }
      res := Norm(body, s.env);
      NormClosed(body, s.env);
  }

  /** Every step keeps the continuation well formed; it leaves the process and the channel alone, or
      lets exactly the component at the hole fire and touches no other component. */
  lemma StepFrame(defs: Definitions, order: Order, depth: nat, s: State, t: State, event: Event) returns (res: Agent)
    requires WellFormed(defs) && Invariant(s) && StepsTo(defs, order, depth, s, t, event)
    ensures Invariant(t) && Moves(defs, order, s, t, event, res)
  {
    NormOneHole(s.cont, s.env, s.env);
    NormClosed(s.exp, s.env);
    res := Hole;
    match s.exp
    case Recv(_, _, _) =>
      if Enabled(defs, s.exp, s.channel, depth) == Yes { res := PrefixFrame(defs, order, s, t, event); }
      else { YieldKeeps(s, MakeCls(s.exp, s.env), t, event); }
    case Send(_, _, _) =>
      if Enabled(defs, s.exp, s.channel, depth) == Yes { res := PrefixFrame(defs, order, s, t, event); }
      else { YieldKeeps(s, MakeCls(s.exp, s.env), t, event); }
    case Sum(l, r) =>
      if t.cont == s.cont && t.exp == l { res := Norm(l, s.env); NormClosed(l, s.env); }
      else if t.cont == s.cont && t.exp == r { res := Norm(r, s.env); NormClosed(r, s.env); }
      else { YieldKeeps(s, s.exp, t, event); }
    case Com(l, r) =>
      if Enabled(defs, l, s.channel, depth) == Yes { EnterKeeps(s, Left); }
      else if Enabled(defs, r, s.channel, depth) == Yes { EnterKeeps(s, Right); }
      else { YieldKeeps(s, s.exp, t, event); }
    case If(condition, l, r) => res := Norm(t.exp, s.env);
    case Cls(b, env) =>
      if Enabled(defs, b, s.channel, depth) == Yes { NormOneHole(s.cont, s.env, env); }
      else { YieldKeeps(s, s.exp, t, event); }
    case Con(StopAgent, _) => YieldKeeps(s, s.exp, t, event);
    case Con(Defined(name), args) =>
      var env := Bind(defs[name].params, EvalVals(args, s.env).value, s.env).value;
      FilledWorld(MakeCls(defs[name].body, env), s.cont, s.env, t.channel);
      res := Norm(defs[name].body, env);
    case Con(AbortAgent, _) =>
  }

  // ----- the components of a process -----

  /** The components, from left to right. */
  function Components(w: Agent): seq<Agent> {
    if w.Com? then Components(w.left) + Components(w.right) else [w]
  }

  function BeforeHole(k: Agent): seq<Agent>
    requires OneHole(k)
  {
    if k == Hole then []
    else if OneHole(k.left) && ClosedTree(k.right) then BeforeHole(k.left)
    else Components(k.left) + BeforeHole(k.right)
  }

  function AfterHole(k: Agent): seq<Agent>
    requires OneHole(k)
  {
    if k == Hole then []
    else if OneHole(k.left) && ClosedTree(k.right) then AfterHole(k.left) + Components(k.right)
    else AfterHole(k.right)
  }

  lemma {:induction false} ComponentsAround(e: Agent, k: Agent)
    requires OneHole(k) && e != Hole
    ensures Components(Resume(e, k)) == BeforeHole(k) + Components(e) + AfterHole(k)
  {
    if k == Hole {
      assert Resume(e, k) == e;
    } else if OneHole(k.left) && ClosedTree(k.right) {
      ClosedHasNoHole(k.right);
      ResumeClosed(e, k.right);
      ComponentsAround(e, k.left);
      var l, m, r := BeforeHole(k.left), AfterHole(k.left), Components(k.right);
      assert Components(Resume(e, k)) == (l + Components(e) + m) + r;
      assert (l + Components(e) + m) + r == l + Components(e) + (m + r);
    } else {
      ClosedHasNoHole(k.left);
      ResumeClosed(e, k.left);
      ComponentsAround(e, k.right);
      var l, m, r := Components(k.left), BeforeHole(k.right), AfterHole(k.right);
      assert Components(Resume(e, k)) == l + (m + Components(e) + r);
      assert l + (m + Components(e) + r) == (l + m) + Components(e) + r;
    }
  }

  lemma FiresClosed(defs: Definitions, order: Order, x: Agent, env: Env, before: seq<Message>, event: Event, res: Agent,
                    after: seq<Message>)
    requires WellFormed(defs) && NoHole(x) && Fires(defs, order, x, env, before, event, res, after)
    ensures ClosedTree(res) && NoHole(res)
  {
    match x
    case Recv(Channel(_), params, body) =>
      NormClosed(body, Bind(params, event.values, env).value);
      ClosedHasNoHole(res);
    case Recv(Observation(_), _, body) => NormClosed(body, env); ClosedHasNoHole(res);
    case Send(_, _, body) => NormClosed(body, env); ClosedHasNoHole(res);
    case Sum(l, r) => NormClosed(l, env); NormClosed(r, env); ClosedHasNoHole(res);
    case If(_, l, r) => NormClosed(l, env); NormClosed(r, env); ClosedHasNoHole(res);
    case Con(Defined(name), args) =>
      NormClosed(defs[name].body, Bind(defs[name].params, EvalVals(args, env).value, env).value);
      ClosedHasNoHole(res);
  }

  /** A step changes at most one component, in its place; the others keep their order, their
      expressions and their environments. */
  lemma StepComponents(defs: Definitions, order: Order, depth: nat, s: State, t: State, event: Event)
    returns (pre: seq<Agent>, res: Agent, post: seq<Agent>)
    requires WellFormed(defs) && Invariant(s) && StepsTo(defs, order, depth, s, t, event)
    ensures (event == Silent && Components(World(t)) == Components(World(s)) && t.channel == s.channel) ||
            (Components(World(s)) == pre + [Cls(s.exp, s.env)] + post &&
             Components(World(t)) == pre + Components(res) + post &&
             Fires(defs, order, s.exp, s.env, s.channel, event, res, t.channel))
  {
    res := StepFrame(defs, order, depth, s, t, event);
    pre, post := [], [];
    if !(World(t) == World(s) && t.channel == s.channel && event == Silent) {
      var k := Norm(s.cont, s.env);
      ComponentsAround(Cls(s.exp, s.env), k);
      FiresClosed(defs, order, s.exp, s.env, s.channel, event, res, t.channel);
      ComponentsAround(res, k);
      pre, post := BeforeHole(k), AfterHole(k);
    }
  }
}
