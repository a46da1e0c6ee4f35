/** The interpreter takes a component that can go on: which side of a branch it enters, when a step fails, and that
    an enabled process comes to act after finitely many silent steps. */
module Progress {
  import opened Agents
  import opened Channels
  import opened Machine
  import opened Values
  import opened Frame
  import opened Runs

  // ----- branches -----

  predicate TakesLeft(s: State, t: State)
    requires IsBranch(s.exp)
  {
    t == State(s.exp.left, s.env, if s.exp.Sum? then s.cont else MakeCont(Left, s.exp, s.cont, s.env), s.channel)
  }

  predicate TakesRight(s: State, t: State)
    requires IsBranch(s.exp)
  {
    t == State(s.exp.right, s.env, if s.exp.Sum? then s.cont else MakeCont(Right, s.exp, s.cont, s.env), s.channel)
  }

  predicate GivesUp(s: State, t: State) {
    s.cont != Hole && t == State(Resume(s.exp, s.cont), s.env, Hole, s.channel)
  }

  /** At a sum or a parallel agent the interpreter goes on with the left side when that is enabled, with the right
      side when only that is enabled, and gives up when neither is. */
  lemma BranchExactly(defs: Definitions, order: Order, depth: nat, s: State, t: State, event: Event)
    requires IsBranch(s.exp) && StepsTo(defs, order, depth, s, t, event)
    ensures event == Silent
    ensures var left := Enabled(defs, s.exp.left, s.channel, depth);
            var right := Enabled(defs, s.exp.right, s.channel, depth);
            (left == Yes && TakesLeft(s, t)) || (left == No && right == Yes && TakesRight(s, t)) ||
            (left == No && right == No && GivesUp(s, t))
  {
  }

  /** A call with arguments that derivatives answers for has as many of them as its definition has parameters. */
  lemma CallChecked(defs: Definitions, a: Agent, ms: seq<Message>, depth: nat)
    requires a.Con? && a.agent.Defined? && a.args != []
    requires Enabled(defs, a, ms, depth) == Yes || Enabled(defs, a, ms, depth) == No
    ensures a.agent.name in defs && |a.args| == |defs[a.agent.name].params|
  {
  }

  // ----- where control goes -----

  /** The filled continuation is evaluated from its top. */
  predicate ReturnsToTop(s: State, e: Agent, t: State) {
    t.exp == Resume(e, s.cont) && t.env == s.env && t.cont == Hole
  }

  /** After a receive or an observation, a call, or a component that cannot go on, the interpreter starts again at
      the top of the process; an enabled closure is entered in its own environment, and a test goes on in place. */
  lemma ControlReturns(defs: Definitions, order: Order, depth: nat, s: State, t: State, event: Event)
    requires StepsTo(defs, order, depth, s, t, event) && !IsBranch(s.exp)
    ensures s.exp.Recv? || s.exp.Con? ==> exists e :: ReturnsToTop(s, e, t)
    ensures s.exp.Send? && event == Silent ==> ReturnsToTop(s, MakeCls(s.exp, s.env), t)
    ensures s.exp.Cls? && Enabled(defs, s.exp.body, s.channel, depth) == Yes ==>
              t == State(s.exp.body, s.exp.env, s.cont, s.channel)
    ensures s.exp.Cls? && Enabled(defs, s.exp.body, s.channel, depth) != Yes ==> ReturnsToTop(s, s.exp, t)
    ensures s.exp.If? ==> t.cont == s.cont && t.env == s.env
  {
    match s.exp
    case Recv(Observation(_), _, body) => assert event != Silent ==> ReturnsToTop(s, body, t);
    case Recv(Channel(_), _, body) =>
      if event.Received? {
        assert ReturnsToTop(s, MakeCls(body, Bind(s.exp.params, event.values, s.env).value), t);
      } else {
        assert ReturnsToTop(s, MakeCls(s.exp, s.env), t);
      }
    case Con(Defined(name), args) =>
      assert ReturnsToTop(s, MakeCls(defs[name].body,
                                     Bind(defs[name].params, EvalVals(args, s.env).value, s.env).value), t);
    case Con(StopAgent, _) => assert ReturnsToTop(s, s.exp, t);
    case _ =>
  }

  /** After a send control passes to the other side of the outermost parallel agent, and the sender waits in its
      place; a send that is the whole process goes on with its body. */
  lemma SendSwitches(defs: Definitions, order: Order, depth: nat, s: State, t: State, event: Event)
    requires Invariant(s) && StepsTo(defs, order, depth, s, t, event) && event.Sent?
    ensures s.exp.Send?
    ensures s.cont == Hole ==> t.exp == s.exp.body && t.env == s.env && t.cont == Hole
    ensures var sender := MakeCls(s.exp.body, s.env);
            s.cont != Hole ==>
              if HoleLeft(s.cont) then t.exp == s.cont.right && t.cont == Com(Resume(sender, s.cont.left), Hole)
              else t.exp == s.cont.left && t.cont == Com(Hole, Resume(sender, s.cont.right))
  {
    if s.cont != Hole {
      var sender := MakeCls(s.exp.body, s.env);
      IsHoleExactly(s.cont.left);
      IsHoleExactly(s.cont.right);
      Filled(sender, s.cont);
      if HoleLeft(s.cont) {
        OneHoleHasHole(s.cont.left);
      } else {
        OneHoleHasHole(s.cont.right);
        ClosedHasNoHole(s.cont.left);
      }
    }
  }

  // ----- when a step fails -----

  predicate AllEvaluate(vs: seq<ValueExp>, env: Env) {
    forall i :: 0 <= i < |vs| ==> Evaluates(vs[i], env)
  }

  lemma AllEvaluateExactly(vs: seq<ValueExp>, env: Env)
    ensures EvalVals(vs, env).Some? <==> AllEvaluate(vs, env)
  {
    EvalValsEach(vs, env);
    forall i | 0 <= i < |vs| ensures EvalVal(vs[i], env).Some? <==> Evaluates(vs[i], env) {
      EvaluatesExactly(vs[i], env);
    }
  }

  /** What reports an error: a message of another length than the parameters, an argument or a condition without a
      value, a call of what is not defined or with another number of arguments, and an error in a component that
      is asked whether it is enabled. */
  predicate Faulty(defs: Definitions, depth: nat, s: State) {
    match s.exp
    case Hole => false
    case Recv(Channel(c), params, _) => Lookup(s.channel, c).Some? && |Lookup(s.channel, c).value| != |params|
    case Recv(Observation(_), _, _) => false
    case Send(c, args, _) => Lookup(s.channel, c).None? && !AllEvaluate(args, s.env)
    case If(condition, _, _) => !Evaluates(condition, s.env)
    case Con(Defined(name), args) => name !in defs || !AllEvaluate(args, s.env) || |args| != |defs[name].params|
    case Con(_, _) => false
    case Cls(b, _) => Enabled(defs, b, s.channel, depth) == Error
    case _ => Enabled(defs, s.exp, s.channel, depth) == Error
  }

  /** A step fails exactly then; an enabled receive never fails for want of a message. */
  lemma FailsExactly(defs: Definitions, order: Order, depth: nat, s: State)
    requires s.exp != Hole
    ensures Step(defs, order, depth, s) == Failed <==> Faulty(defs, depth, s)
  {
    match s.exp
    case Recv(Channel(c), params, _) =>
      if Lookup(s.channel, c).Some? { BindFailsExactly(params, Lookup(s.channel, c).value, s.env); }
    case Send(_, args, _) => AllEvaluateExactly(args, s.env);
    case If(condition, _, _) => EvaluatesExactly(condition, s.env);
    case Con(Defined(name), args) =>
      AllEvaluateExactly(args, s.env);
      EvalValsEach(args, s.env);
      if name in defs && EvalVals(args, s.env).Some? {
        BindFailsExactly(defs[name].params, EvalVals(args, s.env).value, s.env);
      }
    case _ =>
  }

  /** What the interpreter returns when it stops is the whole process as it stands. */
  lemma StopReturns(defs: Definitions, order: Order, depth: nat, s: State)
    requires Invariant(s) && Step(defs, order, depth, s).Stopped?
    ensures Step(defs, order, depth, s).result == s.exp
    ensures (s.exp.Con? && s.exp.agent == AbortAgent) || World(s) == Norm(s.exp, s.env)
  {
    if !(s.exp.Con? && s.exp.agent == AbortAgent) {
      assert s.cont == Hole;
      NormClosed(s.exp, s.env);
    }
  }

  /** Some component of the process is the agent that aborts. */
  predicate HasAbort(a: Agent) {
    match a
    case Con(AbortAgent, _) => true
    case Sum(l, r) => HasAbort(l) || HasAbort(r)
    case Com(l, r) => HasAbort(l) || HasAbort(r)
    case Cls(b, _) => HasAbort(b)
    case _ => false
  }

  /** Abort is always enabled: a process that is not enabled has no component that would abort. */
  lemma {:induction false} BlockedHasNoAbort(defs: Definitions, a: Agent, ms: seq<Message>, depth: nat)
    requires Enabled(defs, a, ms, depth) == No
    ensures !HasAbort(a)
    decreases a
  {
    match a
    case Sum(l, r) => BlockedHasNoAbort(defs, l, ms, depth); BlockedHasNoAbort(defs, r, ms, depth);
    case Com(l, r) => BlockedHasNoAbort(defs, l, ms, depth); BlockedHasNoAbort(defs, r, ms, depth);
    case Cls(b, _) => BlockedHasNoAbort(defs, b, ms, depth);
    case _ =>
  }

  // ----- the first component that is enabled -----

  /** The number of definitions that derivatives opens on the way to the component that decides. */
  function Unfolds(defs: Definitions, a: Agent, ms: seq<Message>, depth: nat): nat
    decreases depth, a
  {
    match a
    case Sum(l, r) => Unfolds(defs, if Enabled(defs, l, ms, depth) == No then r else l, ms, depth)
    case Com(l, r) => Unfolds(defs, if Enabled(defs, l, ms, depth) == No then r else l, ms, depth)
    case Cls(b, _) => Unfolds(defs, b, ms, depth)
    case Con(Defined(name), _) =>
      if name in defs && depth > 0 then 1 + Unfolds(defs, defs[name].body, ms, depth - 1) else 0
    case _ => 0
  }

  lemma {:induction false} UnfoldsDeeper(defs: Definitions, a: Agent, ms: seq<Message>, depth: nat, more: nat)
    requires depth <= more && Enabled(defs, a, ms, depth) == Yes
    ensures Unfolds(defs, a, ms, more) == Unfolds(defs, a, ms, depth)
    decreases depth, a
  {
    EnabledDeeper(defs, a, ms, depth, more);
    match a
    case Sum(l, r) =>
      EnabledDeeper(defs, l, ms, depth, more);
      if Enabled(defs, l, ms, depth) == No { UnfoldsDeeper(defs, r, ms, depth, more); }
      else { UnfoldsDeeper(defs, l, ms, depth, more); }
    case Com(l, r) =>
      EnabledDeeper(defs, l, ms, depth, more);
      if Enabled(defs, l, ms, depth) == No { UnfoldsDeeper(defs, r, ms, depth, more); }
      else { UnfoldsDeeper(defs, l, ms, depth, more); }
    case Cls(b, _) => UnfoldsDeeper(defs, b, ms, depth, more);
    case Con(Defined(name), _) => UnfoldsDeeper(defs, defs[name].body, ms, depth - 1, more - 1);
    case _ =>
  }

  /** The hole is on the left. */
  predicate HoleLeft(k: Agent) {
    k.Com? && OneHole(k.left) && ClosedTree(k.right)
  }

  /** What stands to the left of the hole is not enabled. */
  predicate LeftBlocked(defs: Definitions, k: Agent, ms: seq<Message>, depth: nat)
    requires OneHole(k)
  {
    if k == Hole then true
    else if HoleLeft(k) then LeftBlocked(defs, k.left, ms, depth)
    else Enabled(defs, k.left, ms, depth) == No && LeftBlocked(defs, k.right, ms, depth)
  }

  lemma Filled(e: Agent, k: Agent)
    requires OneHole(k) && k.Com? && e != Hole
    ensures Resume(e, k) == if HoleLeft(k) then Com(Resume(e, k.left), k.right) else Com(k.left, Resume(e, k.right))
    ensures if HoleLeft(k) then OneHole(k.left) else OneHole(k.right)
  {
    if HoleLeft(k) {
      ClosedHasNoHole(k.right);
      ResumeClosed(e, k.right);
    } else {
      ClosedHasNoHole(k.left);
      ResumeClosed(e, k.left);
    }
  }

  /** Behind what is not enabled, an enabled component decides for the whole process. */
  lemma {:induction false} ComponentDecides(defs: Definitions, e: Agent, k: Agent, ms: seq<Message>, depth: nat)
    requires OneHole(k) && LeftBlocked(defs, k, ms, depth) && e != Hole && Enabled(defs, e, ms, depth) == Yes
    ensures Enabled(defs, Resume(e, k), ms, depth) == Yes
    ensures Unfolds(defs, Resume(e, k), ms, depth) == Unfolds(defs, e, ms, depth)
    decreases k
  {
    if k.Com? {
      Filled(e, k);
      ComponentDecides(defs, e, if HoleLeft(k) then k.left else k.right, ms, depth);
    }
  }

  lemma {:induction false} LeftBlockedTwice(defs: Definitions, j: Agent, k: Agent, ms: seq<Message>, depth: nat)
    requires OneHole(j) && j != Hole && OneHole(k)
    requires LeftBlocked(defs, j, ms, depth) && LeftBlocked(defs, k, ms, depth)
    ensures OneHole(Resume(j, k)) && LeftBlocked(defs, Resume(j, k), ms, depth)
    decreases k
  {
    ResumeOneHole(j, k);
    if k.Com? {
      if OneHole(k.left) && ClosedTree(k.right) {
        ClosedHasNoHole(k.right);
        ResumeClosed(j, k.right);
        LeftBlockedTwice(defs, j, k.left, ms, depth);
        ResumeOneHole(j, k.left);
      } else {
        ClosedHasNoHole(k.left);
        ResumeClosed(j, k.left);
        LeftBlockedTwice(defs, j, k.right, ms, depth);
        ResumeOneHole(j, k.right);
      }
    }
  }

  // ----- an enabled process acts -----

  /** The next step communicates, observes, tests an if, aborts, or reports an error. */
  predicate Acts(defs: Definitions, order: Order, depth: nat, t: State) {
    t.exp != Hole &&
    match Step(defs, order, depth, t)
    case Next(_, event) => event != Silent || t.exp.If?
    case Stopped(_) => t.exp.Con? && t.exp.agent == AbortAgent
    case _ => true
  }

  /** A run of silent steps that leaves the channel alone. */
  ghost predicate Silently(defs: Definitions, order: Order, depth: nat, s: State, states: seq<State>,
                           events: seq<Event>) {
    IsRun(defs, order, depth, states, events) && states[0] == s && states[|events|].channel == s.channel &&
    forall i :: 0 <= i < |events| ==> events[i] == Silent
  }

  lemma SilentlyNow(defs: Definitions, order: Order, depth: nat, s: State)
    requires Invariant(s)
    ensures Silently(defs, order, depth, s, [s], [])
  {
  }

  lemma SilentlyAfter(defs: Definitions, order: Order, depth: nat, s: State, t: State, states: seq<State>,
                      events: seq<Event>)
    requires Invariant(s) && StepsTo(defs, order, depth, s, t, Silent) && t.channel == s.channel
    requires Silently(defs, order, depth, t, states, events)
    ensures Silently(defs, order, depth, s, [s] + states, [Silent] + events)
  {
    var all, es := [s] + states, [Silent] + events;
    forall i | 0 <= i < |es| ensures StepsTo(defs, order, depth, all[i], all[i + 1], es[i]) {
      if i > 0 { assert StepsTo(defs, order, depth, states[i - 1], states[i], events[i - 1]); }
    }
  }

  /** One silent step towards the component that decides: the rest of the way is shorter. */
  predicate Nearer(defs: Definitions, depth: nat, s: State, t: State) {
    Invariant(t) && t.channel == s.channel && LeftBlocked(defs, t.cont, t.channel, depth) &&
    Enabled(defs, t.exp, t.channel, depth) == Yes
  }

  lemma SideClosed(a: Agent, env: Env)
    requires NoHole(a)
    ensures ClosedTree(MakeCls(a, env)) && !OneHole(MakeCls(a, env))
    ensures forall defs, ms, depth :: Enabled(defs, MakeCls(a, env), ms, depth) == Enabled(defs, a, ms, depth)
  {
    ClosedHasNoHole(MakeCls(a, env));
  }

  lemma EntersNearer(defs: Definitions, order: Order, depth: nat, s: State, t: State)
    requires WellFormed(defs) && Invariant(s) && LeftBlocked(defs, s.cont, s.channel, depth) && s.exp.Com?
    requires Enabled(defs, s.exp, s.channel, depth) == Yes && StepsTo(defs, order, depth, s, t, Silent)
    ensures Nearer(defs, depth, s, t)
    ensures t.exp == if Enabled(defs, s.exp.left, s.channel, depth) == No then s.exp.right else s.exp.left
  {
    BranchExactly(defs, order, depth, s, t, Silent);
    var res := StepFrame(defs, order, depth, s, t, Silent);
    var side := if Enabled(defs, s.exp.left, s.channel, depth) == No then Right else Left;
    var j := InnerCont(side, s.exp, s.env);
    SideClosed(s.exp.left, s.env);
    SideClosed(s.exp.right, s.env);
    LeftBlockedTwice(defs, j, s.cont, s.channel, depth);
  }

  lemma UnfoldsNearer(defs: Definitions, order: Order, depth: nat, s: State, t: State)
    requires WellFormed(defs) && Invariant(s) && LeftBlocked(defs, s.cont, s.channel, depth)
    requires s.exp.Con? && s.exp.agent.Defined?
    requires Enabled(defs, s.exp, s.channel, depth) == Yes && StepsTo(defs, order, depth, s, t, Silent)
    ensures Nearer(defs, depth, s, t)
    ensures Unfolds(defs, t.exp, t.channel, depth) < Unfolds(defs, s.exp, s.channel, depth)
  {
    var body := defs[s.exp.agent.name].body;
    var env := Bind(defs[s.exp.agent.name].params, EvalVals(s.exp.args, s.env).value, s.env).value;
    var res := StepFrame(defs, order, depth, s, t, Silent);
    EnabledDeeper(defs, body, s.channel, depth - 1, depth);
    UnfoldsDeeper(defs, body, s.channel, depth - 1, depth);
    ComponentDecides(defs, MakeCls(body, env), s.cont, s.channel, depth);
  }

  /** With nothing enabled on its left, an enabled component comes to act: after finitely many silent steps the
      interpreter communicates, observes, tests, aborts, or reports that an argument has no value. */
  lemma {:induction false} ComesToAct(defs: Definitions, order: Order, depth: nat, s: State)
    returns (states: seq<State>, events: seq<Event>)
    requires WellFormed(defs) && Invariant(s) && LeftBlocked(defs, s.cont, s.channel, depth)
    requires Enabled(defs, s.exp, s.channel, depth) == Yes
    ensures Silently(defs, order, depth, s, states, events) && Acts(defs, order, depth, states[|events|])
    decreases Unfolds(defs, s.exp, s.channel, depth), s.exp
  {
    var o := Step(defs, order, depth, s);
    if Acts(defs, order, depth, s) {
      SilentlyNow(defs, order, depth, s);
      states, events := [s], [];
    } else {
      var t := o.state;
      var res := StepFrame(defs, order, depth, s, t, Silent);
      if s.exp.Com? { EntersNearer(defs, order, depth, s, t); }
      if s.exp.Con? { UnfoldsNearer(defs, order, depth, s, t); }
      states, events := ComesToAct(defs, order, depth, t);
      SilentlyAfter(defs, order, depth, s, t, states, events);
      states, events := [s] + states, [Silent] + events;
    }
  }

  // ----- from any state -----

  /** Replacing a component by one with the same answer keeps the answer of the process. */
  lemma {:induction false} SameDecides(defs: Definitions, e: Agent, f: Agent, k: Agent, ms: seq<Message>, depth: nat)
    requires OneHole(k) && e != Hole && f != Hole && Enabled(defs, e, ms, depth) == Enabled(defs, f, ms, depth)
    ensures Enabled(defs, Resume(e, k), ms, depth) == Enabled(defs, Resume(f, k), ms, depth)
    decreases k
  {
    if k.Com? {
      Filled(e, k);
      Filled(f, k);
      SameDecides(defs, e, f, if HoleLeft(k) then k.left else k.right, ms, depth);
    }
  }

  lemma {:induction false} NoAnswer(defs: Definitions, e: Agent, k: Agent, ms: seq<Message>, depth: nat)
    requires OneHole(k) && e != Hole && Enabled(defs, e, ms, depth) != Yes && Enabled(defs, e, ms, depth) != No
    ensures Enabled(defs, Resume(e, k), ms, depth) != No
    decreases k
  {
    if k.Com? {
      Filled(e, k);
      NoAnswer(defs, e, if HoleLeft(k) then k.left else k.right, ms, depth);
    }
  }

  /** When the process is enabled and a component has no answer, another one decides. */
  lemma {:induction false} OtherDecides(defs: Definitions, e: Agent, f: Agent, k: Agent, ms: seq<Message>, depth: nat)
    requires OneHole(k) && e != Hole && f != Hole && Enabled(defs, Resume(e, k), ms, depth) == Yes
    requires Enabled(defs, e, ms, depth) != Yes && Enabled(defs, e, ms, depth) != No
    ensures Enabled(defs, Resume(f, k), ms, depth) == Yes
    decreases k
  {
    if k.Com? {
      Filled(e, k);
      Filled(f, k);
      if HoleLeft(k) {
        NoAnswer(defs, e, k.left, ms, depth);
        OtherDecides(defs, e, f, k.left, ms, depth);
      } else if Enabled(defs, k.left, ms, depth) == No {
        OtherDecides(defs, e, f, k.right, ms, depth);
      }
    }
  }

  /** The process that the machine stands for can go on. */
  predicate Alive(defs: Definitions, depth: nat, s: State) {
    Enabled(defs, Resume(s.exp, s.cont), s.channel, depth) == Yes
  }

  lemma AliveExactly(defs: Definitions, depth: nat, s: State)
    requires Invariant(s)
    ensures Alive(defs, depth, s) <==> Enabled(defs, World(s), s.channel, depth) == Yes
  {
    NormResume(s.exp, s.cont, s.env);
    EnabledNorm(defs, Resume(s.exp, s.cont), s.env, s.channel, depth);
  }

  /** A silent step other than a test keeps the process alive: it enters a component or goes back to the top. */
  lemma StaysAlive(defs: Definitions, order: Order, depth: nat, s: State, t: State)
    requires WellFormed(defs) && Invariant(s) && Alive(defs, depth, s) && !s.exp.If?
    requires StepsTo(defs, order, depth, s, t, Silent)
    ensures Invariant(t) && t.channel == s.channel && Alive(defs, depth, t)
    ensures t.cont == Hole || (!s.exp.Con? && !s.exp.Recv? && !s.exp.Send?)
  {
    var res := StepFrame(defs, order, depth, s, t, Silent);
    match s.exp
    case Sum(_, _) =>
      BranchExactly(defs, order, depth, s, t, Silent);
      if t.cont == s.cont && Enabled(defs, t.exp, s.channel, depth) == Yes {
        SameDecides(defs, s.exp, t.exp, s.cont, s.channel, depth);
      }
    case Com(_, _) => SidesAlive(defs, order, depth, s, t);
    case Cls(b, _) =>
      if Enabled(defs, b, s.channel, depth) == Yes { SameDecides(defs, s.exp, b, s.cont, s.channel, depth); }
    case Con(Defined(_), _) => UnfoldingAlive(defs, order, depth, s, t);
    case Recv(_, _, _) => SameDecides(defs, s.exp, MakeCls(s.exp, s.env), s.cont, s.channel, depth);
    case Send(_, _, _) => SameDecides(defs, s.exp, MakeCls(s.exp, s.env), s.cont, s.channel, depth);
    case _ =>
  }

  lemma SidesAlive(defs: Definitions, order: Order, depth: nat, s: State, t: State)
    requires WellFormed(defs) && Invariant(s) && Alive(defs, depth, s) && s.exp.Com?
    requires StepsTo(defs, order, depth, s, t, Silent)
    ensures Alive(defs, depth, t)
  {
    BranchExactly(defs, order, depth, s, t, Silent);
    var l, r := s.exp.left, s.exp.right;
    SideClosed(l, s.env);
    SideClosed(r, s.env);
    if TakesLeft(s, t) {
      EnterLaw(Left, l, r, s.cont, s.env);
      SameDecides(defs, s.exp, Com(l, MakeCls(r, s.env)), s.cont, s.channel, depth);
    }
    if TakesRight(s, t) {
      EnterLaw(Right, l, r, s.cont, s.env);
      SameDecides(defs, s.exp, Com(MakeCls(l, s.env), r), s.cont, s.channel, depth);
    }
  }

  lemma UnfoldingAlive(defs: Definitions, order: Order, depth: nat, s: State, t: State)
    requires WellFormed(defs) && Invariant(s) && Alive(defs, depth, s) && s.exp.Con? && s.exp.agent.Defined?
    requires StepsTo(defs, order, depth, s, t, Silent)
    ensures Alive(defs, depth, t)
  {
    var d := defs[s.exp.agent.name];
    var env := Bind(d.params, EvalVals(s.exp.args, s.env).value, s.env).value;
    if Enabled(defs, s.exp, s.channel, depth) == Yes || Enabled(defs, s.exp, s.channel, depth) == No {
      EnabledDeeper(defs, d.body, s.channel, depth - 1, depth);
      SameDecides(defs, s.exp, MakeCls(d.body, env), s.cont, s.channel, depth);
    } else {
      OtherDecides(defs, s.exp, MakeCls(d.body, env), s.cont, s.channel, depth);
    }
  }

  /** From every state that a run can reach, a process that can go on does so: after finitely many silent steps the
      interpreter communicates, observes, tests an if, aborts, or reports an error. */
  lemma {:induction false} EnabledActs(defs: Definitions, order: Order, depth: nat, s: State)
    returns (states: seq<State>, events: seq<Event>)
    requires WellFormed(defs) && Invariant(s) && Enabled(defs, World(s), s.channel, depth) == Yes
    ensures Silently(defs, order, depth, s, states, events) && Acts(defs, order, depth, states[|events|])
    decreases s.exp
  {
    AliveExactly(defs, depth, s);
    if Acts(defs, order, depth, s) {
      SilentlyNow(defs, order, depth, s);
      states, events := [s], [];
    } else if s.cont == Hole {
      states, events := ComesToAct(defs, order, depth, s);
    } else {
      var o := Step(defs, order, depth, s);
      if o.Stopped? { StoppedBlocked(defs, order, depth, s); }
      var t := o.state;
      StaysAlive(defs, order, depth, s, t);
      if t.cont == Hole {
        states, events := ComesToAct(defs, order, depth, t);
      } else {
        AliveExactly(defs, depth, t);
        states, events := EnabledActs(defs, order, depth, t);
      }
      SilentlyAfter(defs, order, depth, s, t, states, events);
      states, events := [s] + states, [Silent] + events;
    }
  }
}
