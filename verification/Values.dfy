/** The laws of the values of the interpreter: operators, environments and argument lists
    (applyto... and n_boundls in src/driver/driver.c). */
module Values {
  import opened Wrappers
  import opened Agents
  import opened Machine

  // ----- operators -----

  function Magnitude(a: int): nat {
    if a < 0 then -a else a
  }

  /** q and r are a quotient towards zero and its remainder. */
  predicate IsQuotient(a: int, b: int, q: int, r: int) {
    a == q * b + r && Magnitude(r) < Magnitude(b) && (a >= 0 ==> r >= 0) && (a <= 0 ==> r <= 0)
  }

  lemma {:induction false} MultipleIsBeyond(d: int, b: int)
    requires d > 0
    ensures (b >= 0 ==> d * b >= b) && (b <= 0 ==> d * b <= b)
  {
    if d > 1 {
      MultipleIsBeyond(d - 1, b);
      assert d * b == (d - 1) * b + b;
    }
  }

  lemma MultipleIsLarger(d: int, b: int)
    requires d != 0
    ensures Magnitude(d * b) >= Magnitude(b)
  {
    if d > 0 {
      MultipleIsBeyond(d, b);
    } else {
      MultipleIsBeyond(-d, b);
      assert d * b == -(-d * b);
    }
  }

  lemma QuotientUnique(a: int, b: int, q: int, r: int, q': int, r': int)
    requires IsQuotient(a, b, q, r) && IsQuotient(a, b, q', r')
    ensures q == q' && r == r'
  {
    var d := q - q';
    assert d * b == q * b - q' * b;
    if d != 0 { MultipleIsLarger(d, b); }
  }

  /** Division and remainder are the only quotient towards zero and its remainder. */
  lemma DivisionExactly(a: int, b: int, q: int, r: int)
    ensures ApplyOp(Divide, a, b) == Some(q) && ApplyOp(Modulo, a, b) == Some(r) <==> IsQuotient(a, b, q, r)
  {
    if b != 0 {
      QuotientTruncates(a, b);
      var d := Quotient(a, b);
      assert IsQuotient(a, b, d, a - d * b);
      if IsQuotient(a, b, q, r) { QuotientUnique(a, b, q, r, d, a - d * b); }
    }
  }

  /** An operator fails only for a division or a remainder by zero. */
  lemma OperatorFailsExactly(op: ValueOp, a: int, b: int)
    ensures ApplyOp(op, a, b).None? <==> b == 0 && (op == Divide || op == Modulo)
  {
  }

  /** Sums and products are determined by counting up and down, and differences undo sums. */
  lemma ArithmeticLaws(a: int, b: int)
    ensures ApplyOp(Plus, a, 0) == Some(a) && ApplyOp(Plus, a, b + 1) == Some(ApplyOp(Plus, a, b).value + 1)
    ensures ApplyOp(Times, a, 0) == Some(0) && ApplyOp(Times, a, b + 1) == Some(ApplyOp(Times, a, b).value + a)
    ensures ApplyOp(Minus, ApplyOp(Plus, a, b).value, b) == Some(a)
  {
  }

  /** Of smaller, equal and greater exactly one holds, the first when the difference is negative, and the other
      two comparisons are the opposites. */
  lemma ComparisonLaws(a: int, b: int)
    ensures ApplyOp(Less, a, b) == Some(AsInt(ApplyOp(Minus, a, b).value < 0)) == ApplyOp(Greater, b, a)
    ensures ApplyOp(Equal, a, b) == Some(AsInt(ApplyOp(Minus, a, b) == Some(0)))
    ensures ApplyOp(Less, a, b).value + ApplyOp(Equal, a, b).value + ApplyOp(Greater, a, b).value == 1
    ensures ApplyOp(LessEqual, a, b).value + ApplyOp(Greater, a, b).value == 1
    ensures ApplyOp(GreaterEqual, a, b).value + ApplyOp(Less, a, b).value == 1
  {
  }

  function Opposite(a: int): int {
    AsInt(a == 0)
  }

  /** Conjunction and disjunction give 0 or 1, exchange under negation, and a conjunction holds when both sides
      do. */
  lemma LogicLaws(a: int, b: int)
    ensures ApplyOp(And, a, b) == Some(1) <==> a != 0 && b != 0
    ensures ApplyOp(And, a, b).value == 0 || ApplyOp(And, a, b).value == 1
    ensures ApplyOp(Or, a, b) == Some(Opposite(ApplyOp(And, Opposite(a), Opposite(b)).value))
  {
  }

  // ----- expressions -----

  /** The value of every variable is known and no divisor is zero. */
  predicate Evaluates(v: ValueExp, env: Env) {
    match v
    case Constant(_) => true
    case Variable(name) => exists i :: 0 <= i < |env| && env[i].0 == name
    case Apply(op, l, r) =>
      Evaluates(l, env) && Evaluates(r, env) && !((op == Divide || op == Modulo) && EvalVal(r, env) == Some(0))
    case Negation(arg) => Evaluates(arg, env)
  }

  /** An expression has a value if and only if its variables are bound and it divides by zero nowhere. */
  lemma {:induction false} EvaluatesExactly(v: ValueExp, env: Env)
    ensures EvalVal(v, env).Some? <==> Evaluates(v, env)
  {
    match v
    case Constant(_) =>
    case Variable(name) => BoundExactly(name, env);
    case Apply(op, l, r) => EvaluatesExactly(l, env); EvaluatesExactly(r, env);
    case Negation(arg) => EvaluatesExactly(arg, env);
  }

  /** The values of a list are those of its elements, in order. */
  lemma {:induction false} EvalValsEach(vs: seq<ValueExp>, env: Env)
    ensures EvalVals(vs, env).Some? <==> forall i :: 0 <= i < |vs| ==> EvalVal(vs[i], env).Some?
    ensures EvalVals(vs, env).Some? ==>
              |EvalVals(vs, env).value| == |vs| &&
              forall i :: 0 <= i < |vs| ==> EvalVal(vs[i], env) == Some(EvalVals(vs, env).value[i])
  {
    if vs != [] {
      EvalValsEach(vs[1..], env);
      if EvalVals(vs[1..], env).Some? {
        forall i | 0 < i < |vs| ensures EvalVal(vs[i], env) == Some(EvalVals(vs[1..], env).value[i - 1]) {
          assert vs[i] == vs[1..][i - 1];
        }
      } else {
        var i :| 0 <= i < |vs| - 1 && EvalVal(vs[1..][i], env).None?;
        assert vs[i + 1] == vs[1..][i];
      }
    }
  }

  // ----- environments -----

  /** The i-th binding is the newest one of the name. */
  predicate Newest(name: string, env: Env, i: int) {
    0 <= i < |env| && env[i].0 == name && forall j :: 0 <= j < i ==> env[j].0 != name
  }

  lemma {:induction false} NewestValue(name: string, env: Env, i: nat)
    requires Newest(name, env, i)
    ensures ValueOf(name, env) == Some(env[i].1)
  {
    if i > 0 {
      assert env[0].0 != name;
      forall j | 0 <= j < i - 1 ensures env[1..][j].0 != name { assert env[1..][j] == env[j + 1]; }
      NewestValue(name, env[1..], i - 1);
    }
  }

  lemma {:induction false} BoundExactly(name: string, env: Env)
    ensures ValueOf(name, env).Some? <==> exists i :: 0 <= i < |env| && env[i].0 == name
  {
    if env != [] && env[0].0 != name {
      BoundExactly(name, env[1..]);
      if i :| 0 <= i < |env| && env[i].0 == name { assert env[1..][i - 1] == env[i]; }
      if i :| 0 <= i < |env| - 1 && env[1..][i].0 == name { assert env[i + 1] == env[1..][i]; }
    }
  }

  /** Binding fails exactly when the lengths differ. */
  lemma {:induction false} BindFailsExactly(params: seq<string>, values: seq<int>, env: Env)
    ensures Bind(params, values, env).None? <==> |params| != |values|
  {
    if params != [] && values != [] { BindFailsExactly(params[1..], values[1..], [(params[0], values[0])] + env); }
  }

  /** i is the last position of the name. */
  predicate LastAt(params: seq<string>, x: string, i: int) {
    0 <= i < |params| && params[i] == x && forall j :: i < j < |params| ==> params[j] != x
  }

  /** A name that is bound has the value at its last position; any other name keeps its value. */
  lemma {:induction false} BindMeaning(params: seq<string>, values: seq<int>, env: Env, x: string)
    requires Bind(params, values, env).Some?
    ensures |params| == |values|
    ensures x !in params ==> ValueOf(x, Bind(params, values, env).value) == ValueOf(x, env)
    ensures forall i :: LastAt(params, x, i) ==> ValueOf(x, Bind(params, values, env).value) == Some(values[i])
  {
    BindFailsExactly(params, values, env);
    if params != [] {
      var first := [(params[0], values[0])] + env;
      BindMeaning(params[1..], values[1..], first, x);
      assert first[0] == (params[0], values[0]) && first[1..] == env;
      if x in params[1..] { assert x in params; }
      forall i | LastAt(params, x, i) ensures ValueOf(x, Bind(params, values, env).value) == Some(values[i]) {
        if i > 0 {
          assert LastAt(params[1..], x, i - 1);
        }
      }
    }
  }

  /** Different parameters have the values at their positions. */
  lemma BindEach(params: seq<string>, values: seq<int>, env: Env, i: nat)
    requires Bind(params, values, env).Some? && NoDuplicates(params) && i < |params|
    ensures |params| == |values| && ValueOf(params[i], Bind(params, values, env).value) == Some(values[i])
  {
    BindMeaning(params, values, env, params[i]);
    assert LastAt(params, params[i], i);
  }
}
