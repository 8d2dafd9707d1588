/** The evaluator of `src/interpreter/mod.rs`: `flatten` reduces a tree to a
    value by structural recursion. Its panics (an empty `-`, an `i64`
    overflow in a debug build, the `todo!()` for tokens it does not handle)
    are error results here. */
module Interpreter {
  import opened Outcomes
  import opened Integers
  import opened Tokens
  import opened Analyzer

  datatype EvalError =
    | MissingOperand  // `children[0]` on a `-` without children
    | Overflow        // an `i64` sum or difference out of range
    | UnsupportedNode // a parenthesis or tokenization-error node

  /** `flatten`. */
  function Flatten(e: Expr): (r: Result<Value, EvalError>)
    decreases e, 1
    ensures e.token.Value? ==> r == Ok(e.token.value)
    ensures e.token.Keyword? ==> r == Ok(Int(0))
    ensures e.token == Operator(Minus) && e.children == [] ==> r == Err(MissingOperand)
    ensures !(e.token.Operator? || e.token.Value? || e.token.Keyword?) ==> r == Err(UnsupportedNode)
    ensures r.Ok? && e.token.Operator? ==> forall k | 0 <= k < |e.children| :: Flatten(e.children[k]).Ok?
  {
    match e.token
    case Operator(Plus) => AddAll(Int(0), e.children)
    case Operator(Minus) =>
      if |e.children| == 0 then Err(MissingOperand)
      else (
        match Flatten(e.children[0])
        case Err(err) => Err(err)
        case Ok(first) => SubtractAll(first, e.children[1..]))
    case Value(v) => Ok(v)
    case Keyword(Defun) => Ok(Int(0))
    case _ => Err(UnsupportedNode)
  }

  /** The `+` fold: starting from `acc`, add each child's value in turn,
      left to right. */
  function AddAll(acc: Value, cs: seq<Expr>): (r: Result<Value, EvalError>)
    decreases cs, 0
    ensures cs == [] ==> r == Ok(acc)
    ensures r.Ok? ==> forall k | 0 <= k < |cs| :: Flatten(cs[k]).Ok?
  {
    if |cs| == 0 then Ok(acc)
    else
      match Flatten(cs[0])
      case Err(err) => Err(err)
      case Ok(v) => if InI64(acc.n + v.n) then AddAll(Add(acc, v), cs[1..]) else Err(Overflow)
  }

  /** The `-` fold: starting from `acc`, subtract each child's value in
      turn, left to right. */
  function SubtractAll(acc: Value, cs: seq<Expr>): (r: Result<Value, EvalError>)
    decreases cs, 0
    ensures cs == [] ==> r == Ok(acc)
    ensures r.Ok? ==> forall k | 0 <= k < |cs| :: Flatten(cs[k]).Ok?
  {
    if |cs| == 0 then Ok(acc)
    else
      match Flatten(cs[0])
      case Err(err) => Err(err)
      case Ok(v) => if InI64(acc.n - v.n) then SubtractAll(Sub(acc, v), cs[1..]) else Err(Overflow)
  }

  /* ---------- reference semantics over unbounded integers ---------- */

  /** Trees whose evaluation reaches no unsupported node and no empty `-`. */
  predicate Evaluable(e: Expr)
    decreases e
  {
    match e.token
    case Operator(op) =>
      && (op == Minus ==> |e.children| > 0)
      && forall k | 0 <= k < |e.children| :: Evaluable(e.children[k])
    case Value(_) => true
    case Keyword(_) => true
    case _ => false
  }

  predicate AllEvaluable(cs: seq<Expr>) {
    forall k | 0 <= k < |cs| :: Evaluable(cs[k])
  }

  /** What a tree means: `+` is the sum of its children, `-` is its first
      child less the sum of the others, a value is itself and `def` is 0. */
  function Meaning(e: Expr): int
    requires Evaluable(e)
    decreases e, 1
  {
    match e.token
    case Operator(Plus) => Sum(e.children)
    case Operator(Minus) => Meaning(e.children[0]) - Sum(e.children[1..])
    case Value(v) => v.n
    case Keyword(_) => 0
  }

  /** The children's meanings added up, right to left. */
  function Sum(cs: seq<Expr>): int
    requires AllEvaluable(cs)
    decreases cs, 0
  {
    if |cs| == 0 then 0 else Meaning(cs[0]) + Sum(cs[1..])
  }

  /** The sum of the absolute values of the leaves: a bound on every
      intermediate result of the evaluation. */
  function Magnitude(e: Expr): nat
    decreases e, 1
  {
    match e.token
    case Operator(_) => MagnitudeSum(e.children)
    case Value(v) => Abs(v.n)
    case _ => 0
  }

  function Abs(x: int): nat {
    if x < 0 then -x else x
  }

  function MagnitudeSum(cs: seq<Expr>): nat
    decreases cs, 0
  {
    if |cs| == 0 then 0 else Magnitude(cs[0]) + MagnitudeSum(cs[1..])
  }

  /* ---------- soundness: a value is always the meaning ---------- */

  /** Whatever `flatten` returns is the tree's meaning: the left folds of
      the program compute the sums of the reference semantics. */
  lemma {:induction false} FlattenSound(e: Expr)
    decreases e, 1
    ensures Flatten(e).Ok? ==> Evaluable(e) && Flatten(e).value.n == Meaning(e)
  {
    match e.token
    case Operator(Plus) =>
      AddAllSound(Int(0), e.children);
    case Operator(Minus) =>
      if |e.children| > 0 {
        FlattenSound(e.children[0]);
        if Flatten(e).Ok? {
          SubtractAllSound(Flatten(e.children[0]).value, e.children[1..]);
          forall k | 0 <= k < |e.children|
            ensures Evaluable(e.children[k])
          {
            if k > 0 {
              assert e.children[k] == e.children[1..][k - 1];
            }
          }
        }
      }
    case _ =>
  }

  lemma {:induction false} AddAllSound(acc: Value, cs: seq<Expr>)
    decreases cs, 0
    ensures AddAll(acc, cs).Ok? ==> AllEvaluable(cs) && AddAll(acc, cs).value.n == acc.n + Sum(cs)
  {
    if |cs| > 0 {
      FlattenSound(cs[0]);
      if Flatten(cs[0]).Ok? {
        var v := Flatten(cs[0]).value;
        if InI64(acc.n + v.n) {
          AddAllSound(Add(acc, v), cs[1..]);
          ConsEvaluable(cs);
        }
      }
    }
  }

  lemma {:induction false} SubtractAllSound(acc: Value, cs: seq<Expr>)
    decreases cs, 0
    ensures SubtractAll(acc, cs).Ok? ==>
      AllEvaluable(cs) && SubtractAll(acc, cs).value.n == acc.n - Sum(cs)
  {
    if |cs| > 0 {
      FlattenSound(cs[0]);
      if Flatten(cs[0]).Ok? {
        var v := Flatten(cs[0]).value;
        if InI64(acc.n - v.n) {
          SubtractAllSound(Sub(acc, v), cs[1..]);
          ConsEvaluable(cs);
        }
      }
    }
  }

  lemma ConsEvaluable(cs: seq<Expr>)
    requires |cs| > 0
    ensures AllEvaluable(cs) <==> Evaluable(cs[0]) && AllEvaluable(cs[1..])
  {
    if Evaluable(cs[0]) && AllEvaluable(cs[1..]) {
      forall k | 0 < k < |cs|
        ensures Evaluable(cs[k])
      {
        assert cs[k] == cs[1..][k - 1];
      }
    }
  }

  /* ---------- completeness: small enough trees always evaluate ---------- */

  lemma {:induction false} MeaningBounded(e: Expr)
    requires Evaluable(e)
    decreases e, 1
    ensures Abs(Meaning(e)) <= Magnitude(e)
  {
    match e.token
    case Operator(Plus) =>
      SumBounded(e.children);
    case Operator(Minus) =>
      ConsEvaluable(e.children);
      MeaningBounded(e.children[0]);
      SumBounded(e.children[1..]);
    case _ =>
  }

  lemma {:induction false} SumBounded(cs: seq<Expr>)
    requires AllEvaluable(cs)
    decreases cs, 0
    ensures Abs(Sum(cs)) <= MagnitudeSum(cs)
  {
    if |cs| > 0 {
      ConsEvaluable(cs);
      MeaningBounded(cs[0]);
      SumBounded(cs[1..]);
    }
  }

  /** Every evaluable tree whose leaves' absolute values add up to at most
      `i64::MAX` evaluates, without overflow, to its meaning. */
  lemma {:induction false} FlattenComplete(e: Expr)
    requires Evaluable(e) && Magnitude(e) <= I64_MAX
    decreases e, 1
    ensures Flatten(e).Ok? && Flatten(e).value.n == Meaning(e)
  {
    MeaningBounded(e);
    match e.token
    case Operator(Plus) =>
      AddAllComplete(Int(0), e.children);
    case Operator(Minus) =>
      ConsEvaluable(e.children);
      FlattenComplete(e.children[0]);
      MeaningBounded(e.children[0]);
      SubtractAllComplete(Flatten(e.children[0]).value, e.children[1..]);
    case _ =>
  }

  lemma {:induction false} AddAllComplete(acc: Value, cs: seq<Expr>)
    requires AllEvaluable(cs)
    requires Abs(acc.n) + MagnitudeSum(cs) <= I64_MAX
    decreases cs, 0
    ensures AddAll(acc, cs).Ok? && AddAll(acc, cs).value.n == acc.n + Sum(cs)
  {
    if |cs| > 0 {
      ConsEvaluable(cs);
      FlattenComplete(cs[0]);
      MeaningBounded(cs[0]);
      var v := Flatten(cs[0]).value;
      AddAllComplete(Add(acc, v), cs[1..]);
    }
  }

  lemma {:induction false} SubtractAllComplete(acc: Value, cs: seq<Expr>)
    requires AllEvaluable(cs)
    requires Abs(acc.n) + MagnitudeSum(cs) <= I64_MAX
    decreases cs, 0
    ensures SubtractAll(acc, cs).Ok? && SubtractAll(acc, cs).value.n == acc.n - Sum(cs)
  {
    if |cs| > 0 {
      ConsEvaluable(cs);
      FlattenComplete(cs[0]);
      MeaningBounded(cs[0]);
      var v := Flatten(cs[0]).value;
      SubtractAllComplete(Sub(acc, v), cs[1..]);
    }
  }

  /* ---------- which errors can happen ---------- */

  /** On an evaluable tree the only possible failure is an overflow; on a
      tree `expressionize` built, `flatten` never meets an unsupported node. */
  lemma {:induction false} FlattenFailures(e: Expr)
    decreases e, 1
    ensures Evaluable(e) && Flatten(e).Err? ==> Flatten(e).error == Overflow
    ensures Built(e) && Flatten(e).Err? ==> Flatten(e).error != UnsupportedNode
  {
    match e.token
    case Operator(Plus) =>
      AddAllFailures(Int(0), e.children);
    case Operator(Minus) =>
      if |e.children| > 0 {
        FlattenFailures(e.children[0]);
        if Flatten(e.children[0]).Ok? {
          SubtractAllFailures(Flatten(e.children[0]).value, e.children[1..]);
        }
        BuiltTail(e.children);
        ConsEvaluable(e.children);
      }
    case _ =>
  }

  predicate AllBuilt(cs: seq<Expr>) {
    forall k | 0 <= k < |cs| :: Built(cs[k])
  }

  lemma BuiltTail(cs: seq<Expr>)
    requires |cs| > 0
    ensures AllBuilt(cs) ==> AllBuilt(cs[1..])
  {
    if AllBuilt(cs) {
      forall k | 0 <= k < |cs| - 1
        ensures Built(cs[1..][k])
      {
        assert cs[1..][k] == cs[k + 1];
      }
    }
  }

  lemma {:induction false} AddAllFailures(acc: Value, cs: seq<Expr>)
    decreases cs, 0
    ensures AllEvaluable(cs) && AddAll(acc, cs).Err? ==> AddAll(acc, cs).error == Overflow
    ensures AllBuilt(cs) && AddAll(acc, cs).Err? ==> AddAll(acc, cs).error != UnsupportedNode
  {
    if |cs| > 0 {
      FlattenFailures(cs[0]);
      ConsEvaluable(cs);
      BuiltTail(cs);
      if Flatten(cs[0]).Ok? {
        var v := Flatten(cs[0]).value;
        if InI64(acc.n + v.n) {
          AddAllFailures(Add(acc, v), cs[1..]);
        }
      }
    }
  }

  lemma {:induction false} SubtractAllFailures(acc: Value, cs: seq<Expr>)
    decreases cs, 0
    ensures AllEvaluable(cs) && SubtractAll(acc, cs).Err? ==> SubtractAll(acc, cs).error == Overflow
    ensures AllBuilt(cs) && SubtractAll(acc, cs).Err? ==> SubtractAll(acc, cs).error != UnsupportedNode
  {
    if |cs| > 0 {
      FlattenFailures(cs[0]);
      ConsEvaluable(cs);
      BuiltTail(cs);
      if Flatten(cs[0]).Ok? {
        var v := Flatten(cs[0]).value;
        if InI64(acc.n - v.n) {
          SubtractAllFailures(Sub(acc, v), cs[1..]);
        }
      }
    }
  }

  /* ---------- small cases ---------- */

  function Leaf(x: i64): Expr {
    Expr(Value(Int(x)), [])
  }

  /** `+` of nothing is 0, `-` subtracts left to right from its first
      operand, a single operand of `-` is returned unnegated, `-` of nothing
      fails, `def` is 0, a value is itself, and a parenthesis node is not
      evaluated. */
  lemma FlattenExamples(v: Value)
    ensures Flatten(Expr(Operator(Plus), [])) == Ok(Int(0))
    ensures Flatten(Expr(Operator(Plus), [Leaf(1), Leaf(2), Leaf(3)])) == Ok(Int(6))
    ensures Flatten(Expr(Operator(Minus), [Leaf(10), Leaf(3), Leaf(2)])) == Ok(Int(5))
    ensures Flatten(Expr(Operator(Minus), [Leaf(7)])) == Ok(Int(7))
    ensures Flatten(Expr(Operator(Minus), [])) == Err(MissingOperand)
    ensures Flatten(Expr(Keyword(Defun), [Leaf(4)])) == Ok(Int(0))
    ensures Flatten(Expr(Value(v), [])) == Ok(v)
    ensures Flatten(Expr(OpenParenthesis, [])) == Err(UnsupportedNode)
    ensures Flatten(Expr(Operator(Plus), [Leaf(I64_MAX), Leaf(1)])) == Err(Overflow)
  {
    var three := [Leaf(1), Leaf(2), Leaf(3)];
    assert three[1..] == [Leaf(2), Leaf(3)];
    assert three[1..][1..] == [Leaf(3)];
    var sub := [Leaf(10), Leaf(3), Leaf(2)];
    assert sub[1..] == [Leaf(3), Leaf(2)];
    assert sub[1..][1..] == [Leaf(2)];
    var big := [Leaf(I64_MAX), Leaf(1)];
    assert big[1..] == [Leaf(1)];
    assert AddAll(Int(0), big) == AddAll(Int(I64_MAX), [Leaf(1)]);
  }
}
