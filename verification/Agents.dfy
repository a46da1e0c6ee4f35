/** Agent expressions and the continuations of the interpreter (src/driver/driver.c): a
    continuation is an agent expression with a hole, the empty list, below parallel operators. */
module Agents {

  /** Bindings of value variables, the newest first. */
  type Env = seq<(string, int)>

  datatype ValueOp =
    | Plus | Minus | Times | Divide | Modulo | Or | And
    | Equal | Less | LessEqual | Greater | GreaterEqual

  datatype ValueExp =
    | Constant(value: int)
    | Variable(name: string)
    | Apply(op: ValueOp, left: ValueExp, right: ValueExp)
    | Negation(arg: ValueExp)

  /** A channel, or an observation label (accept, others) that reading ignores. */
  datatype Action = Channel(name: string) | Observation(name: string)

  datatype AgentName = StopAgent | AbortAgent | Defined(name: string)

  datatype Agent =
    | Hole
    | Recv(action: Action, params: seq<string>, body: Agent)
    | Send(channel: string, args: seq<ValueExp>, body: Agent)
    | Sum(left: Agent, right: Agent)
    | Com(left: Agent, right: Agent)
    | If(condition: ValueExp, left: Agent, right: Agent)
    | Con(agent: AgentName, args: seq<ValueExp>)
    | Cls(body: Agent, env: Env)

  /** The expression has no hole anywhere, as every parsed agent. */
  predicate NoHole(a: Agent) {
    match a
    case Hole => false
    case Recv(_, _, b) => NoHole(b)
    case Send(_, _, b) => NoHole(b)
    case Sum(l, r) => NoHole(l) && NoHole(r)
    case Com(l, r) => NoHole(l) && NoHole(r)
    case If(_, l, r) => NoHole(l) && NoHole(r)
    case Con(_, _) => true
    case Cls(b, _) => NoHole(b)
  }

  predicate IsBranch(a: Agent) {
    a.Sum? || a.Com?
  }

  function Branch(a: Agent, l: Agent, r: Agent): Agent
    requires IsBranch(a)
  {
    if a.Sum? then Sum(l, r) else Com(l, r)
  }

  /** resume_out_most: the hole if there is one, else the continuation itself. */
  function ResumeOutMost(k: Agent): Agent {
    if k == Hole then Hole
    else if IsBranch(k) then
      if k.left == Hole then k.left
      else if k.right == Hole then k.right
      else if ResumeOutMost(k.left) == Hole then Hole
      else if ResumeOutMost(k.right) == Hole then Hole
      else k
    else k
  }

  predicate IsHole(k: Agent) {
    ResumeOutMost(k) == Hole
  }

  /** A hole at any depth below branches. */
  predicate HasHole(k: Agent) {
    k == Hole || (IsBranch(k) && (HasHole(k.left) || HasHole(k.right)))
  }

  /** The test of the interpreter finds a hole exactly when there is one, at any depth. */
  lemma {:induction false} IsHoleExactly(k: Agent)
    ensures IsHole(k) <==> HasHole(k)
  {
    if IsBranch(k) {
      IsHoleExactly(k.left);
      IsHoleExactly(k.right);
    }
  }

  /** resume: fills the holes of a continuation; with nothing to fill in, the other side of the
      outermost branch. */
  function Resume(e: Agent, k: Agent): Agent {
    if e == Hole then
      if k == Hole then e
      else if IsBranch(k) then
        if IsHole(k.left) then k.right
        else if IsHole(k.right) then k.left
        else k
      else k
    else
      if k == Hole then e
      else if IsBranch(k) then Branch(k, Resume(e, k.left), Resume(e, k.right))
      else k
  }

  function MakeCls(a: Agent, env: Env): Agent {
    if a.Cls? then a else Cls(a, env)
  }

  datatype Side = Left | Right | Switch

  /** make_cont_out_most1 */
  function InnerCont(side: Side, e: Agent, env: Env): Agent
    requires side != Switch
  {
    if IsBranch(e) then
      if side == Right then Branch(e, MakeCls(e.left, env), Hole) else Branch(e, Hole, MakeCls(e.right, env))
    else e
  }

  /** make_cont: the continuation for one side of a parallel agent, or after a send. */
  function MakeCont(side: Side, e: Agent, k: Agent, env: Env): Agent {
    if side == Switch then
      if IsBranch(k) then
        if IsHole(k.left) then
          var t := Resume(e, k);
          if IsBranch(t) then Branch(t, t.left, Hole) else t
        else if IsHole(k.right) then
          var t := Resume(e, k);
          if IsBranch(t) then Branch(t, Hole, t.right) else t
        else k
      else k
    else Resume(InnerCont(side, e, env), k)
  }

  // ----- continuations of the interpreter -----

  /** A tree of closures. */
  predicate ClosedTree(a: Agent) {
    match a
    case Cls(b, _) => NoHole(b)
    case Com(l, r) => ClosedTree(l) && ClosedTree(r)
    case _ => false
  }

  /** Exactly one hole, below parallel operators only, and closures everywhere else. */
  predicate OneHole(k: Agent) {
    match k
    case Hole => true
    case Com(l, r) => (OneHole(l) && ClosedTree(r)) || (ClosedTree(l) && OneHole(r))
    case _ => false
  }

  lemma {:induction false} ClosedHasNoHole(a: Agent)
    requires ClosedTree(a)
    ensures !HasHole(a) && NoHole(a) && !OneHole(a)
  {
    if a.Com? {
      ClosedHasNoHole(a.left);
      ClosedHasNoHole(a.right);
    }
  }

  lemma {:induction false} OneHoleHasHole(k: Agent)
    requires OneHole(k)
    ensures HasHole(k)
  {
    if k.Com? {
      if OneHole(k.left) && ClosedTree(k.right) { OneHoleHasHole(k.left); } else { OneHoleHasHole(k.right); }
    }
  }

  lemma {:induction false} NoHoleHasNone(a: Agent)
    requires NoHole(a)
    ensures !HasHole(a)
  {
    if IsBranch(a) {
      NoHoleHasNone(a.left);
      NoHoleHasNone(a.right);
    }
  }

  /** Filling a tree without holes changes nothing. */
  lemma {:induction false} ResumeClosed(e: Agent, a: Agent)
    requires e != Hole && !HasHole(a)
    ensures Resume(e, a) == a
  {
    if IsBranch(a) {
      ResumeClosed(e, a.left);
      ResumeClosed(e, a.right);
    }
  }

  /** Filling a one-hole continuation in two stages. */
  lemma {:induction false} ResumeTwice(e: Agent, j: Agent, k: Agent)
    requires e != Hole && OneHole(j) && j != Hole && OneHole(k)
    ensures Resume(e, Resume(j, k)) == Resume(Resume(e, j), k)
    decreases k
  {
    ResumeNotHole(e, j);
    if k.Com? {
      if OneHole(k.left) && ClosedTree(k.right) {
        ResumeTwice(e, j, k.left);
        ClosedHasNoHole(k.right);
        ResumeClosed(j, k.right);
        ResumeClosed(e, k.right);
        ResumeClosed(Resume(e, j), k.right);
      } else {
        ResumeTwice(e, j, k.right);
        ClosedHasNoHole(k.left);
        ResumeClosed(j, k.left);
        ResumeClosed(e, k.left);
        ResumeClosed(Resume(e, j), k.left);
      }
    }
  }

  lemma ResumeNotHole(e: Agent, k: Agent)
    requires e != Hole
    ensures Resume(e, k) != Hole
  {
  }

  lemma {:induction false} ResumeOneHole(j: Agent, k: Agent)
    requires OneHole(j) && j != Hole && OneHole(k)
    ensures OneHole(Resume(j, k)) && Resume(j, k) != Hole
    decreases k
  {
    if k.Com? {
      if OneHole(k.left) && ClosedTree(k.right) {
        ResumeOneHole(j, k.left);
        ClosedHasNoHole(k.right);
        ResumeClosed(j, k.right);
      } else {
        ResumeOneHole(j, k.right);
        ClosedHasNoHole(k.left);
        ResumeClosed(j, k.left);
      }
    }
  }

  lemma {:induction false} ResumeFills(e: Agent, k: Agent)
    requires NoHole(e) && OneHole(k)
    ensures NoHole(Resume(e, k))
    ensures ClosedTree(e) ==> ClosedTree(Resume(e, k))
  {
    if k.Com? {
      if OneHole(k.left) && ClosedTree(k.right) {
        ResumeFills(e, k.left);
        ClosedHasNoHole(k.right);
        ResumeClosed(e, k.right);
      } else {
        ResumeFills(e, k.right);
        ClosedHasNoHole(k.left);
        ResumeClosed(e, k.left);
      }
    }
  }

  // ----- the laws of the continuations -----

  /** The coroutine law: after a send the sibling is evaluated with the sender in its place; filling
      the new continuation with the sibling gives what filling the old one with the sender gives. */
  lemma SwitchLaw(e: Agent, k: Agent, env: Env)
    requires NoHole(e) && OneHole(k) && k != Hole
    ensures Resume(Resume(Hole, k), MakeCont(Switch, e, k, env)) == Resume(e, k)
    ensures ClosedTree(Resume(Hole, k))
    ensures ClosedTree(e) ==> OneHole(MakeCont(Switch, e, k, env)) && MakeCont(Switch, e, k, env) != Hole
  {
    IsHoleExactly(k.left);
    IsHoleExactly(k.right);
    if OneHole(k.left) && ClosedTree(k.right) {
      OneHoleHasHole(k.left);
      ClosedHasNoHole(k.right);
      ResumeClosed(e, k.right);
      ResumeFills(e, k.left);
      NoHoleHasNone(Resume(e, k.left));
      ResumeClosed(k.right, Resume(e, k.left));
    } else {
      OneHoleHasHole(k.right);
      ClosedHasNoHole(k.left);
      ResumeClosed(e, k.left);
      ResumeFills(e, k.right);
      NoHoleHasNone(Resume(e, k.right));
      ResumeClosed(k.left, Resume(e, k.right));
    }
  }

  /** Entering one side of a parallel agent closes the other side and changes nothing else. */
  lemma EnterLaw(side: Side, p: Agent, q: Agent, k: Agent, env: Env)
    requires side != Switch && NoHole(p) && NoHole(q) && OneHole(k)
    ensures OneHole(MakeCont(side, Com(p, q), k, env))
    ensures side == Left ==> Resume(p, MakeCont(side, Com(p, q), k, env)) == Resume(Com(p, MakeCls(q, env)), k)
    ensures side == Right ==> Resume(q, MakeCont(side, Com(p, q), k, env)) == Resume(Com(MakeCls(p, env), q), k)
  {
    var j := InnerCont(side, Com(p, q), env);
    var e := if side == Left then p else q;
    var closed := if side == Left then MakeCls(q, env) else MakeCls(p, env);
    assert ClosedTree(closed);
    ResumeTwice(e, j, k);
    ResumeOneHole(j, k);
    NoHoleHasNone(closed);
    ResumeClosed(e, closed);
  }
}
