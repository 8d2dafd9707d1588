/** Small token runs taken through `expressionize` from the first token to
    the last, and the recorded root of one of them through `flatten`. */
module Scenarios {
  import opened Outcomes
  import opened Tokens
  import opened Lexer
  import opened Analyzer
  import opened Interpreter

  /** Token records with no source position, for stating builder cases. */
  function Records(ts: seq<Token>): (r: seq<TokenData>)
    ensures |r| == |ts| && forall k | 0 <= k < |ts| :: r[k].token == ts[k]
  {
    seq(|ts|, k requires 0 <= k < |ts| => TokenData(ts[k], 1, k))
  }

  const P := Operator(Plus)
  const One := Value(Int(1))
  const Two := Value(Int(2))

  /** The arena after `+ 1 2`: one `+` node with two value children. */
  const PlusArena := [Node(P, None, [1, 2]), Node(One, Some(0), []), Node(Two, Some(0), [])]

  lemma ArenaSteps()
    ensures Attach([], None, P) == [Node(P, None, [])]
    ensures Attach([Node(P, None, [])], Some(0), One) == [Node(P, None, [1]), Node(One, Some(0), [])]
    ensures Attach([Node(P, None, [1]), Node(One, Some(0), [])], Some(0), Two) == PlusArena
  {
    var a1 := [Node(P, None, [])];
    var u1 := a1[0 := a1[0].(children := a1[0].children + [1])];
    assert a1[0].children + [1] == [1];
    assert |u1| == 1 && u1[0] == Node(P, None, [1]);
    assert u1 == [Node(P, None, [1])];
    var a2 := [Node(P, None, [1]), Node(One, Some(0), [])];
    var u2 := a2[0 := a2[0].(children := a2[0].children + [2])];
    assert a2[0].children + [2] == [1, 2];
    assert |u2| == 2 && u2[0] == Node(P, None, [1, 2]) && u2[1] == a2[1];
    assert u2 == [Node(P, None, [1, 2]), Node(One, Some(0), [])];
  }

  /** `bs` is a run of builders, from the initial one, that `Step` takes
      from each to the next over the tokens of `ts`. */
  predicate Trace(ts: seq<TokenData>, bs: seq<Builder>) {
    && |bs| == |ts| + 1
    && bs[0] == Builder([], None, 0, [])
    && forall k | 0 <= k < |ts| :: StepsTo(ts, bs, k)
  }

  /** `Step` takes builder `k` to builder `k + 1` on token `k`. */
  predicate StepsTo(ts: seq<TokenData>, bs: seq<Builder>, k: nat)
    requires k < |ts| && k + 1 < |bs|
  {
    Inv(bs[k]) ==> Step(bs[k], ts[k].token, k) == Ok(bs[k + 1])
  }

  /** `Consume` replays `Step` over the tokens: it ends with the last
      builder of any trace. */
  lemma {:induction false} Replay(ts: seq<TokenData>, bs: seq<Builder>)
    requires Trace(ts, bs)
    ensures Consume(ts) == Ok(bs[|ts|])
  {
    if |ts| > 0 {
      var n := |ts|;
      var init := ts[..n - 1];
      forall k | 0 <= k < n - 1
        ensures StepsTo(init, bs[..n], k)
      {
        assert StepsTo(ts, bs, k);
        assert init[k] == ts[k] && bs[..n][k] == bs[k] && bs[..n][k + 1] == bs[k + 1];
      }
      Replay(init, bs[..n]);
      assert StepsTo(ts, bs, n - 1);
    }
  }

  const A1 := [Node(P, None, [])]
  const A2 := [Node(P, None, [1]), Node(One, Some(0), [])]

  lemma StepPlus(d: int, at: nat)
    ensures Inv(Builder([], None, d, []))
    ensures Step(Builder([], None, d, []), P, at) == Ok(Builder(A1, Some(0), d, []))
  {
    ArenaSteps();
  }

  lemma StepOne(d: int, at: nat)
    ensures Inv(Builder(A1, Some(0), d, []))
    ensures Step(Builder(A1, Some(0), d, []), One, at) == Ok(Builder(A2, Some(0), d, []))
  {
    ArenaSteps();
    assert NodeOk(A1, 0);
  }

  /** The arena after `+ 1` is well formed below its `+` node. */
  lemma PlusOneInv(d: int)
    ensures Inv(Builder(A2, Some(0), d, []))
  {
    assert NodeOk(A2, 0) && NodeOk(A2, 1);
  }

  lemma StepTwo(d: int, at: nat)
    ensures Inv(Builder(A2, Some(0), d, []))
    ensures Step(Builder(A2, Some(0), d, []), Two, at) == Ok(Builder(PlusArena, Some(0), d, []))
  {
    PlusOneInv(d);
    ArenaSteps();
  }

  /** A known step, placed at position `k` of a trace. */
  lemma {:induction false} StepAt(ts: seq<TokenData>, bs: seq<Builder>, k: nat, b: Builder, r: Builder)
    requires k < |ts| && k + 1 < |bs| && bs[k] == b && bs[k + 1] == r
    requires Inv(b) ==> Step(b, ts[k].token, k) == Ok(r)
    ensures StepsTo(ts, bs, k)
  {
  }

  /** The builders the loop passes through on `( + 1 2 )`. */
  const SingleRun := [Builder([], None, 0, []), Builder([], None, 1, []), Builder(A1, Some(0), 1, []),
                      Builder(A2, Some(0), 1, []), Builder(PlusArena, Some(0), 1, []),
                      Builder(PlusArena, Some(0), 0, [])]

  predicate IsSingleGroup(ts: seq<TokenData>) {
    && |ts| == 5
    && ts[0].token == OpenParenthesis
    && ts[1].token == P && ts[2].token == One && ts[3].token == Two
    && ts[4].token == CloseParenthesis
  }

  lemma {:induction false} SingleGroupOpen(ts: seq<TokenData>)
    requires IsSingleGroup(ts)
    ensures StepsTo(ts, SingleRun, 0) && StepsTo(ts, SingleRun, 1)
  {
    var bs := SingleRun;
    StepAt(ts, bs, 0, Builder([], None, 0, []), Builder([], None, 1, []));
    StepPlus(1, 1);
    StepAt(ts, bs, 1, Builder([], None, 1, []), Builder(A1, Some(0), 1, []));
  }

  lemma {:induction false} SingleGroupOperands(ts: seq<TokenData>)
    requires IsSingleGroup(ts)
    ensures StepsTo(ts, SingleRun, 2) && StepsTo(ts, SingleRun, 3)
  {
    var bs := SingleRun;
    StepOne(1, 2);
    StepAt(ts, bs, 2, Builder(A1, Some(0), 1, []), Builder(A2, Some(0), 1, []));
    StepTwo(1, 3);
    StepAt(ts, bs, 3, Builder(A2, Some(0), 1, []), Builder(PlusArena, Some(0), 1, []));
  }

  lemma {:induction false} SingleGroupClose(ts: seq<TokenData>)
    requires IsSingleGroup(ts)
    ensures StepsTo(ts, SingleRun, 4)
  {
    SingleClose(4);
    StepAt(ts, SingleRun, 4, Builder(PlusArena, Some(0), 1, []), Builder(PlusArena, Some(0), 0, []));
  }

  lemma {:induction false} SingleGroupTrace(ts: seq<TokenData>)
    requires IsSingleGroup(ts)
    ensures Trace(ts, SingleRun)
  {
    SingleGroupOpen(ts);
    SingleGroupOperands(ts);
    SingleGroupClose(ts);
    forall k | 0 <= k < |ts|
      ensures StepsTo(ts, SingleRun, k)
    {
      assert k == 0 || k == 1 || k == 2 || k == 3 || k == 4;
    }
  }

  /** A group that closes back to depth 0 leaves the `+` node current and
      unrecorded. */
  lemma {:induction false} SingleGroup(ts: seq<TokenData>)
    requires IsSingleGroup(ts)
    ensures Consume(ts) == Ok(Builder(PlusArena, Some(0), 0, []))
  {
    SingleGroupTrace(ts);
    Replay(ts, SingleRun);
  }

  /** The `)` that ends `( + 1 2` only lowers the depth to 0: the current
      node is moved up, and recorded, only while the depth stays positive. */
  lemma SingleClose(at: nat)
    ensures Inv(Builder(PlusArena, Some(0), 1, []))
    ensures Step(Builder(PlusArena, Some(0), 1, []), CloseParenthesis, at)
              == Ok(Builder(PlusArena, Some(0), 0, []))
  {
    StepTwo(1, at);
  }

  /** Hence `( + 1 2 )` on its own yields no roots. */
  lemma SingleGroupNotRecorded()
    ensures Expressionize(Records([OpenParenthesis, P, One, Two, CloseParenthesis]))
              == Ok(Expressions(PlusArena, [], map[]))
  {
    SingleGroup(Records([OpenParenthesis, P, One, Two, CloseParenthesis]));
  }

  /** The inner `)` of `( ( + 1 2 ) )` moves to the parentless `+` node's
      parent and records it; the outer one only lowers the depth. */
  lemma ClosingSteps(at: nat)
    ensures Inv(Builder(PlusArena, Some(0), 2, []))
    ensures Step(Builder(PlusArena, Some(0), 2, []), CloseParenthesis, at)
              == Ok(Builder(PlusArena, None, 1, [0]))
    ensures Inv(Builder(PlusArena, None, 1, [0]))
    ensures Step(Builder(PlusArena, None, 1, [0]), CloseParenthesis, at)
              == Ok(Builder(PlusArena, None, 0, [0]))
  {
    StepTwo(2, at);
    assert NodeOk(PlusArena, 0);
    assert PlusArena[0].parent == None;
    assert [] + [0] == [0];
  }

  /** The builders the loop passes through on `( ( + 1 2 ) )`. */
  const DoubleRun := [Builder([], None, 0, []), Builder([], None, 1, []), Builder([], None, 2, []),
                      Builder(A1, Some(0), 2, []), Builder(A2, Some(0), 2, []),
                      Builder(PlusArena, Some(0), 2, []), Builder(PlusArena, None, 1, [0]),
                      Builder(PlusArena, None, 0, [0])]

  predicate IsDoubleGroup(ts: seq<TokenData>) {
    && |ts| == 7
    && ts[0].token == OpenParenthesis && ts[1].token == OpenParenthesis
    && ts[2].token == P && ts[3].token == One && ts[4].token == Two
    && ts[5].token == CloseParenthesis && ts[6].token == CloseParenthesis
  }

  lemma {:induction false} DoubleGroupOpens(ts: seq<TokenData>)
    requires IsDoubleGroup(ts)
    ensures StepsTo(ts, DoubleRun, 0) && StepsTo(ts, DoubleRun, 1)
  {
    var bs := DoubleRun;
    StepAt(ts, bs, 0, Builder([], None, 0, []), Builder([], None, 1, []));
    StepAt(ts, bs, 1, Builder([], None, 1, []), Builder([], None, 2, []));
  }

  lemma {:induction false} DoubleGroupOperator(ts: seq<TokenData>)
    requires IsDoubleGroup(ts)
    ensures StepsTo(ts, DoubleRun, 2)
  {
    StepPlus(2, 2);
    StepAt(ts, DoubleRun, 2, Builder([], None, 2, []), Builder(A1, Some(0), 2, []));
  }

  lemma {:induction false} DoubleGroupValues(ts: seq<TokenData>)
    requires IsDoubleGroup(ts)
    ensures StepsTo(ts, DoubleRun, 3) && StepsTo(ts, DoubleRun, 4)
  {
    var bs := DoubleRun;
    StepOne(2, 3);
    StepAt(ts, bs, 3, Builder(A1, Some(0), 2, []), Builder(A2, Some(0), 2, []));
    StepTwo(2, 4);
    StepAt(ts, bs, 4, Builder(A2, Some(0), 2, []), Builder(PlusArena, Some(0), 2, []));
  }

  lemma {:induction false} DoubleGroupCloses(ts: seq<TokenData>)
    requires IsDoubleGroup(ts)
    ensures StepsTo(ts, DoubleRun, 5) && StepsTo(ts, DoubleRun, 6)
  {
    var bs := DoubleRun;
    ClosingSteps(5);
    StepAt(ts, bs, 5, Builder(PlusArena, Some(0), 2, []), Builder(PlusArena, None, 1, [0]));
    ClosingSteps(6);
    StepAt(ts, bs, 6, Builder(PlusArena, None, 1, [0]), Builder(PlusArena, None, 0, [0]));
  }

  lemma {:induction false} DoubleGroupTrace(ts: seq<TokenData>)
    requires IsDoubleGroup(ts)
    ensures Trace(ts, DoubleRun)
  {
    DoubleGroupOpens(ts);
    DoubleGroupOperator(ts);
    DoubleGroupValues(ts);
    DoubleGroupCloses(ts);
    forall k | 0 <= k < |ts|
      ensures StepsTo(ts, DoubleRun, k)
    {
      assert k == 0 || k == 1 || k == 2 || k == 3 || k == 4 || k == 5 || k == 6;
    }
  }

  /** `( ( + 1 2 ) )`: the inner `)` records the `+` node. */
  lemma {:induction false} DoubleGroup(ts: seq<TokenData>)
    requires IsDoubleGroup(ts)
    ensures Consume(ts) == Ok(Builder(PlusArena, None, 0, [0]))
  {
    DoubleGroupTrace(ts);
    Replay(ts, DoubleRun);
  }

  /** Wrapped once more, `( ( + 1 2 ) )` records the `+` node as a root. */
  lemma DoubleGroupRecorded()
    ensures Expressionize(Records([OpenParenthesis, OpenParenthesis, P, One, Two,
                                   CloseParenthesis, CloseParenthesis]))
              == Ok(Expressions(PlusArena, [0], map[]))
  {
    DoubleGroup(Records([OpenParenthesis, OpenParenthesis, P, One, Two, CloseParenthesis, CloseParenthesis]));
  }

  /** The recorded root of `( ( + 1 2 ) )` is the tree `+ 1 2`, and
      flattening it gives 3. */
  lemma DoubleGroupEvaluates()
    ensures WellFormed(PlusArena)
    ensures Subtree(PlusArena, 0) == Expr(P, [Leaf(1), Leaf(2)])
    ensures Flatten(Subtree(PlusArena, 0)) == Ok(Int(3))
  {
    StepTwo(0, 0);
    var e := Subtree(PlusArena, 0);
    assert e.children[0] == Subtree(PlusArena, 1) == Leaf(1);
    assert e.children[1] == Subtree(PlusArena, 2) == Leaf(2);
    assert e == Expr(P, [Leaf(1), Leaf(2)]);
    assert [Leaf(1), Leaf(2)][1..] == [Leaf(2)];
  }

  /** The builders while reading `( )`. */
  const EmptyRun := [Builder([], None, 0, []), Builder([], None, 1, []), Builder([], None, 0, [])]

  lemma {:induction false} EmptyGroupTrace(ts: seq<TokenData>)
    requires |ts| == 2 && ts[0].token == OpenParenthesis && ts[1].token == CloseParenthesis
    ensures Trace(ts, EmptyRun)
  {
    StepAt(ts, EmptyRun, 0, Builder([], None, 0, []), Builder([], None, 1, []));
    StepAt(ts, EmptyRun, 1, Builder([], None, 1, []), Builder([], None, 0, []));
    forall k | 0 <= k < |ts|
      ensures StepsTo(ts, EmptyRun, k)
    {
      assert k == 0 || k == 1;
    }
  }

  /** A `)` that closes nothing stops the loop at its own index. */
  lemma {:induction false} ExtraClose(ts: seq<TokenData>)
    requires |ts| == 3 && ts[0].token == OpenParenthesis
    requires ts[1].token == CloseParenthesis && ts[2].token == CloseParenthesis
    ensures Consume(ts) == Err(TooManyClosing(2))
  {
    EmptyGroupTrace(ts[..2]);
    Replay(ts[..2], EmptyRun);
  }

  /** The builders while reading `(`. */
  const OpenRun := [Builder([], None, 0, []), Builder([], None, 1, [])]

  lemma {:induction false} OpenTrace(ts: seq<TokenData>)
    requires |ts| == 1 && ts[0].token == OpenParenthesis
    ensures Trace(ts, OpenRun)
  {
    StepAt(ts, OpenRun, 0, Builder([], None, 0, []), Builder([], None, 1, []));
  }

  /** A token the loop does not handle stops it at its own index. */
  lemma {:induction false} BadToken(ts: seq<TokenData>)
    requires |ts| == 2 && ts[0].token == OpenParenthesis && ts[1].token.TokenizationError?
    ensures Consume(ts) == Err(UnexpectedToken(1))
  {
    OpenTrace(ts[..1]);
    Replay(ts[..1], OpenRun);
  }

  /** An extra `)` and a tokenization error both stop the builder at the
      offending token. */
  lemma BuilderStops()
    ensures Expressionize(Records([OpenParenthesis, CloseParenthesis, CloseParenthesis]))
              == Err(TooManyClosing(2))
    ensures Expressionize(Records([OpenParenthesis, TokenizationError("x")])) == Err(UnexpectedToken(1))
  {
    ExtraClose(Records([OpenParenthesis, CloseParenthesis, CloseParenthesis]));
    BadToken(Records([OpenParenthesis, TokenizationError("x")]));
  }
}
