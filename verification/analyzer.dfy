/** The expression builder of `src/analyzer/mod.rs`. The program links
    `Rc<Node>` values through `parent` pointers and shared `RefCell` child
    lists; the model keeps every node in an arena (a sequence in creation
    order) and links them by index. A child is always created after its
    parent, so child indices exceed parent indices. */
module Analyzer {
  import opened Outcomes
  import opened Tokens

  /** `Node`: its token, the index of its parent and the indices of its
      children in the order they were pushed. */
  datatype Node = Node(token: Token, parent: Option<nat>, children: seq<nat>)

  /** The panics of `expressionize`, with the index of the offending token:
      a `)` that closes more parentheses than were opened, and a token that
      is not an operator, a value or a parenthesis. */
  datatype BuildError = TooManyClosing(at: nat) | UnexpectedToken(at: nat)

  /** The loop state of `expressionize`: the nodes made so far, the current
      node, the parenthesis depth and the recorded parentless nodes. */
  datatype Builder = Builder(arena: seq<Node>, current: Option<nat>, depth: int, nodes: seq<nat>)

  /** What `expressionize` returns: the recorded roots (with the arena they
      index into) and the name table, which this version never fills. */
  datatype Expressions = Expressions(arena: seq<Node>, roots: seq<nat>, names: map<string, nat>)

  /** The value a node stands for: its token and, recursively, its children. */
  datatype Expr = Expr(token: Token, children: seq<Expr>)

  /* ---------- shape of a built arena ---------- */

  /** Only operators and values become nodes, and values are leaves. */
  predicate TokenOk(a: seq<Node>, i: nat)
    requires i < |a|
  {
    && (a[i].token.Operator? || a[i].token.Value?)
    && (a[i].token.Value? ==> a[i].children == [])
  }

  /** A node's parent was made before it and lists it as a child. */
  predicate ParentOk(a: seq<Node>, i: nat)
    requires i < |a|
  {
    a[i].parent.Some? ==> a[i].parent.value < i && i in a[a[i].parent.value].children
  }

  /** A node's children were made after it, point back to it, and appear in
      the order they were made. */
  predicate ChildrenOk(a: seq<Node>, i: nat)
    requires i < |a|
  {
    && (forall k | 0 <= k < |a[i].children| ::
          i < a[i].children[k] < |a| && a[a[i].children[k]].parent == Some(i))
    && (forall k, l | 0 <= k < l < |a[i].children| :: a[i].children[k] < a[i].children[l])
  }

  predicate NodeOk(a: seq<Node>, i: nat)
    requires i < |a|
  {
    TokenOk(a, i) && ParentOk(a, i) && ChildrenOk(a, i)
  }

  predicate WellFormed(a: seq<Node>) {
    forall i | 0 <= i < |a| :: NodeOk(a, i)
  }

  /** `Node::get_parent`. Parent and child links agree: the parent lists the
      node among its children, and a node without a parent is nobody's child. */
  function GetParent(a: seq<Node>, i: nat): (p: Option<nat>)
    requires WellFormed(a) && i < |a|
    ensures p.Some? ==> p.value < i && i in a[p.value].children
    ensures p.None? ==> forall j | 0 <= j < |a| :: i !in a[j].children
  {
    assert NodeOk(a, i);
    ChildHasParent(a, i);
    a[i].parent
  }

  lemma ChildHasParent(a: seq<Node>, i: nat)
    requires WellFormed(a) && i < |a|
    ensures a[i].parent.None? ==> forall j | 0 <= j < |a| :: i !in a[j].children
  {
    forall j | 0 <= j < |a| && i in a[j].children
      ensures a[i].parent == Some(j)
    {
      assert NodeOk(a, j);
    }
  }

  /** The parentless node reached by following parents up from `i`. */
  function RootOf(a: seq<Node>, i: nat): (r: nat)
    requires WellFormed(a) && i < |a|
    decreases i
    ensures r <= i && a[r].parent.None?
  {
    assert NodeOk(a, i);
    match a[i].parent
    case None => i
    case Some(p) => RootOf(a, p)
  }

  /** Recorded roots: parentless operator nodes, in creation order. */
  predicate RootsOk(a: seq<Node>, roots: seq<nat>) {
    && (forall k | 0 <= k < |roots| ::
          roots[k] < |a| && a[roots[k]].parent.None? && a[roots[k]].token.Operator?)
    && (forall k, l | 0 <= k < l < |roots| :: roots[k] < roots[l])
  }

  /** The loop invariant of `expressionize`. Besides the arena's shape, the
      current node is an operator, and every recorded root was made before
      the tree the current node belongs to, so no root is recorded twice. */
  predicate Inv(b: Builder) {
    && WellFormed(b.arena)
    && (b.current.Some? ==> b.current.value < |b.arena| && b.arena[b.current.value].token.Operator?)
    && RootsOk(b.arena, b.nodes)
    && (b.current.Some? ==>
          forall k | 0 <= k < |b.nodes| :: b.nodes[k] < RootOf(b.arena, b.current.value))
  }

  /* ---------- one token ---------- */

  /** A fresh childless node for `t` whose parent is `parent`, pushed as the
      last child of `parent` when there is one. */
  function Attach(a: seq<Node>, parent: Option<nat>, t: Token): (r: seq<Node>)
    requires parent.Some? ==> parent.value < |a|
    ensures |r| == |a| + 1
    ensures r[|a|] == Node(t, parent, [])
    ensures forall i | 0 <= i < |a| ::
              r[i].token == a[i].token && r[i].parent == a[i].parent && a[i].children <= r[i].children
    ensures parent.Some? ==> r[parent.value].children == a[parent.value].children + [|a|]
    ensures forall i | 0 <= i < |a| && Some(i) != parent :: r[i].children == a[i].children
  {
    var a' := match parent
      case None => a
      case Some(p) => a[p := a[p].(children := a[p].children + [|a|])];
    a' + [Node(t, parent, [])]
  }

  /** Attaching keeps the arena well formed and every old node's token,
      parent and root; old child lists only grow at their end. */
  lemma AttachOk(a: seq<Node>, parent: Option<nat>, t: Token)
    requires WellFormed(a)
    requires parent.Some? ==> parent.value < |a| && a[parent.value].token.Operator?
    requires t.Operator? || t.Value?
    ensures var r := Attach(a, parent, t);
      && |r| == |a| + 1
      && WellFormed(r)
      && r[|a|] == Node(t, parent, [])
      && (forall i | 0 <= i < |a| ::
            r[i].token == a[i].token && r[i].parent == a[i].parent && a[i].children <= r[i].children)
      && (forall i | 0 <= i < |a| :: RootOf(r, i) == RootOf(a, i))
      && RootOf(r, |a|) == (if parent.Some? then RootOf(a, parent.value) else |a|)
  {
    var r := Attach(a, parent, t);
    AttachWellFormed(a, parent, t);
    RootOfAttach(a, parent, t, r);
  }

  lemma AttachWellFormed(a: seq<Node>, parent: Option<nat>, t: Token)
    requires WellFormed(a)
    requires parent.Some? ==> parent.value < |a| && a[parent.value].token.Operator?
    requires t.Operator? || t.Value?
    ensures WellFormed(Attach(a, parent, t))
  {
    var r := Attach(a, parent, t);
    var n := |a|;
    forall i | 0 <= i < |r|
      ensures NodeOk(r, i)
    {
      if i < n {
        assert NodeOk(a, i);
        if a[i].parent.Some? {
          var q := a[i].parent.value;
          assert i in a[q].children;
          assert a[q].children <= r[q].children;
        }
        forall k | 0 <= k < |a[i].children|
          ensures r[a[i].children[k]].parent == Some(i)
        {
          assert a[a[i].children[k]].parent == Some(i);
        }
      }
    }
  }

  lemma RootOfAttach(a: seq<Node>, parent: Option<nat>, t: Token, r: seq<Node>)
    requires WellFormed(a) && WellFormed(r)
    requires parent.Some? ==> parent.value < |a|
    requires |r| == |a| + 1 && r[|a|] == Node(t, parent, [])
    requires forall i | 0 <= i < |a| :: r[i].parent == a[i].parent
    ensures forall i | 0 <= i < |a| :: RootOf(r, i) == RootOf(a, i)
    ensures RootOf(r, |a|) == (if parent.Some? then RootOf(a, parent.value) else |a|)
  {
    forall i | 0 <= i < |a|
      ensures RootOf(r, i) == RootOf(a, i)
    {
      RootOfSame(a, r, i);
    }
    if parent.Some? {
      RootOfSame(a, r, parent.value);
    }
  }

  lemma {:induction false} RootOfSame(a: seq<Node>, r: seq<Node>, i: nat)
    requires WellFormed(a) && WellFormed(r) && i < |a| <= |r|
    requires forall j | 0 <= j < |a| :: r[j].parent == a[j].parent
    decreases i
    ensures RootOf(r, i) == RootOf(a, i)
  {
    assert NodeOk(a, i);
    if a[i].parent.Some? {
      RootOfSame(a, r, a[i].parent.value);
    }
  }

  /** Tokens `expressionize` handles; any other token hits its `todo!()`. */
  predicate Supported(t: Token) {
    t.Operator? || t.Value? || t.OpenParenthesis? || t.CloseParenthesis?
  }

  /** The change a token makes to the parenthesis depth. */
  function DepthChange(t: Token): int {
    if t.OpenParenthesis? then 1 else if t.CloseParenthesis? then -1 else 0
  }

  /** The tokens of the nodes made so far, in creation order. */
  function NodeTokensOf(a: seq<Node>): (r: seq<Token>)
    ensures |r| == |a|
    ensures forall i | 0 <= i < |a| :: r[i] == a[i].token
  {
    seq(|a|, i requires 0 <= i < |a| => a[i].token)
  }

  /** One pass of the loop body of `expressionize`. */
  function Step(b: Builder, t: Token, at: nat): (r: Result<Builder, BuildError>)
    requires Inv(b)
    ensures r.Ok? <==> Supported(t) && (t.CloseParenthesis? ==> b.depth > 0)
    ensures r.Err? ==> r.error == (if Supported(t) then TooManyClosing(at) else UnexpectedToken(at))
    ensures r.Ok? ==> Inv(r.value)
    ensures r.Ok? ==> r.value.depth == b.depth + DepthChange(t)
    ensures r.Ok? ==>
      NodeTokensOf(r.value.arena) == NodeTokensOf(b.arena) + (if t.Operator? || t.Value? then [t] else [])
    ensures r.Ok? ==> b.nodes <= r.value.nodes
  {
    match t
    case Operator(_) =>
      AttachKeepsInv(b, t);
      Ok(Builder(Attach(b.arena, b.current, t), Some(|b.arena|), b.depth, b.nodes))
    case Value(_) =>
      AttachKeepsInv(b, t);
      Ok(Builder(Attach(b.arena, b.current, t), b.current, b.depth, b.nodes))
    case OpenParenthesis => Ok(b.(depth := b.depth + 1))
    case CloseParenthesis =>
      var depth := b.depth - 1;
      if depth > 0 && b.current.Some? then
        var c := b.current.value;
        assert NodeOk(b.arena, c);
        var parent := GetParent(b.arena, c);
        var nodes := if parent.None? then b.nodes + [c] else b.nodes;
        PopKeepsInv(b);
        Ok(Builder(b.arena, parent, depth, nodes))
      else if depth < 0 then Err(TooManyClosing(at))
      else Ok(b.(depth := depth))
    case _ => Err(UnexpectedToken(at))
  }

  /** A new operator node becomes the current node and a new value node
      leaves it be; either way the invariant holds and the arena's tokens
      grow by the new one. */
  lemma AttachKeepsInv(b: Builder, t: Token)
    requires Inv(b) && (t.Operator? || t.Value?)
    ensures var a := Attach(b.arena, b.current, t);
      && Inv(Builder(a, if t.Operator? then Some(|b.arena|) else b.current, b.depth, b.nodes))
      && NodeTokensOf(a) == NodeTokensOf(b.arena) + [t]
  {
    AttachOk(b.arena, b.current, t);
    var a := Attach(b.arena, b.current, t);
    assert NodeTokensOf(a) == NodeTokensOf(b.arena) + [t];
  }

  /** Moving the current node to its parent, and recording it when it has
      none, keeps the invariant. */
  lemma PopKeepsInv(b: Builder)
    requires Inv(b) && b.current.Some?
    ensures var c := b.current.value;
      Inv(Builder(b.arena, b.arena[c].parent,  b.depth - 1,
                  if b.arena[c].parent.None? then b.nodes + [c] else b.nodes))
  {
    var a := b.arena;
    var c := b.current.value;
    assert NodeOk(a, c);
    match a[c].parent
    case None =>
      var nodes := b.nodes + [c];
      forall k | 0 <= k < |nodes|
        ensures nodes[k] < |a| && a[nodes[k]].parent.None? && a[nodes[k]].token.Operator?
      {
        if k == |b.nodes| { assert nodes[k] == c; } else { assert nodes[k] == b.nodes[k]; }
      }
      forall k, l | 0 <= k < l < |nodes|
        ensures nodes[k] < nodes[l]
      {
        assert nodes[k] == b.nodes[k];
        if l == |b.nodes| {
          assert RootOf(a, c) == c;
        }
      }
    case Some(p) =>
      assert c in a[p].children;
      assert NodeOk(a, p);
      assert a[p].token.Operator?;
      assert RootOf(a, c) == RootOf(a, p);
  }

  /** The state after the first `|ts|` tokens, or the panic that stopped the loop. */
  function Consume(ts: seq<TokenData>): (r: Result<Builder, BuildError>)
    ensures r.Ok? ==> Inv(r.value)
    ensures r.Ok? ==> r.value.depth == Balance(ts)
    ensures r.Ok? ==> NodeTokensOf(r.value.arena) == NodeTokens(ts)
  {
    if |ts| == 0 then Ok(Builder([], None, 0, []))
    else
      match Consume(ts[..|ts| - 1])
      case Err(e) => Err(e)
      case Ok(b) => Step(b, ts[|ts| - 1].token, |ts| - 1)
  }

  /** Opening minus closing parentheses among the tokens. */
  function Balance(ts: seq<TokenData>): int {
    if |ts| == 0 then 0 else Balance(ts[..|ts| - 1]) + DepthChange(ts[|ts| - 1].token)
  }

  /** The operator and value tokens, in order. */
  function NodeTokens(ts: seq<TokenData>): seq<Token> {
    if |ts| == 0 then []
    else
      var t := ts[|ts| - 1].token;
      NodeTokens(ts[..|ts| - 1]) + (if t.Operator? || t.Value? then [t] else [])
  }

  /** A run of tokens the loop gets through: every token is supported and
      no prefix closes more parentheses than it opens. */
  predicate Clean(ts: seq<TokenData>) {
    forall k | 0 <= k < |ts| :: FineAt(ts, k)
  }

  /** Token `k` is supported and leaves the depth non-negative. */
  predicate FineAt(ts: seq<TokenData>, k: nat)
    requires k < |ts|
  {
    Supported(ts[k].token) && Balance(ts[..k + 1]) >= 0
  }

  /** `expressionize`: the recorded roots when the parentheses balance,
      none otherwise; the name table is always empty. */
  function Expressionize(ts: seq<TokenData>): (r: Result<Expressions, BuildError>)
    ensures r.Ok? ==> WellFormed(r.value.arena) && RootsOk(r.value.arena, r.value.roots)
    ensures r.Ok? ==> r.value.names == map[]
    ensures r.Ok? && Balance(ts) != 0 ==> r.value.roots == []
    ensures r.Ok? ==> NodeTokensOf(r.value.arena) == NodeTokens(ts)
  {
    match Consume(ts)
    case Err(e) => Err(e)
    case Ok(b) => Ok(Expressions(b.arena, if b.depth != 0 then [] else b.nodes, map[]))
  }

  lemma CleanSnoc(ts: seq<TokenData>)
    requires |ts| > 0
    ensures Clean(ts) <==>
      Clean(ts[..|ts| - 1]) && Supported(ts[|ts| - 1].token) && Balance(ts) >= 0
  {
    var n := |ts| - 1;
    var init := ts[..n];
    if Clean(ts) {
      forall k | 0 <= k < |init|
        ensures FineAt(init, k)
      {
        assert FineAt(ts, k);
        assert init[..k + 1] == ts[..k + 1];
      }
      assert FineAt(ts, n);
      assert ts[..n + 1] == ts;
    }
    if Clean(init) && Supported(ts[n].token) && Balance(ts) >= 0 {
      forall k | 0 <= k < |ts|
        ensures FineAt(ts, k)
      {
        if k < n {
          assert FineAt(init, k);
          assert init[..k + 1] == ts[..k + 1];
        } else {
          assert ts[..k + 1] == ts;
        }
      }
    }
  }

  /** The loop runs to the end exactly on clean token runs; otherwise it
      stops at the first token that is unsupported or closes one
      parenthesis too many, and everything before that token is clean. */
  lemma {:induction false} ConsumeOutcome(ts: seq<TokenData>)
    ensures Consume(ts).Ok? <==> Clean(ts)
    ensures Consume(ts).Err? ==>
      var at := Consume(ts).error.at;
      && at < |ts|
      && Clean(ts[..at])
      && (Consume(ts).error.UnexpectedToken? <==> !Supported(ts[at].token))
      && (Consume(ts).error.TooManyClosing? ==>
            ts[at].token.CloseParenthesis? && Balance(ts[..at + 1]) == -1)
  {
    if |ts| > 0 {
      var init := ts[..|ts| - 1];
      ConsumeOutcome(init);
      CleanSnoc(ts);
      match Consume(init)
      case Err(e) =>
        assert ts[..e.at] == init[..e.at];
        assert ts[..e.at + 1] == init[..e.at + 1];
        assert ts[e.at] == init[e.at];
      case Ok(b) =>
        var n := |ts| - 1;
        assert ts[..n] == init;
        assert ts[..n + 1] == ts;
        assert Balance(ts) == b.depth + DepthChange(ts[n].token);
        if n > 0 {
          assert FineAt(init, n - 1);
          assert init[..n] == init;
        }
        assert b.depth >= 0;
    }
  }

  /** `expressionize` succeeds exactly on clean token runs. */
  lemma ExpressionizeSucceeds(ts: seq<TokenData>)
    ensures Expressionize(ts).Ok? <==> Clean(ts)
    ensures Clean(ts) && Balance(ts) == 0 ==> Expressionize(ts).value.roots == Consume(ts).value.nodes
  {
    ConsumeOutcome(ts);
  }

  /** The rules of the loop body, token by token. An operator becomes a new
      node whose parent is the current node, pushed as that node's last
      child, and becomes the current node. A value becomes a childless node
      pushed the same way, and the current node stays. `(` only deepens. A
      `)` that leaves the depth positive records a parentless current node
      and moves to its parent; one that leaves it at zero changes nothing
      else. Nodes already made keep their token and parent. */
  lemma StepRules(b: Builder, t: Token, at: nat)
    requires Inv(b)
    requires Step(b, t, at).Ok?
    ensures var r := Step(b, t, at).value;
      var n := |b.arena|;
      && (forall i | 0 <= i < n ::
            r.arena[i].token == b.arena[i].token && r.arena[i].parent == b.arena[i].parent)
      && (t.Operator? || t.Value? ==>
            && |r.arena| == n + 1
            && r.arena[n] == Node(t, b.current, [])
            && (b.current.Some? ==>
                  r.arena[b.current.value].children == b.arena[b.current.value].children + [n])
            && r.nodes == b.nodes
            && r.current == (if t.Operator? then Some(n) else b.current))
      && (t.OpenParenthesis? ==> r == b.(depth := b.depth + 1))
      && (t.CloseParenthesis? && b.depth - 1 > 0 && b.current.Some? ==>
            var c := b.current.value;
            && r.arena == b.arena
            && r.current == b.arena[c].parent
            && r.nodes == (if b.arena[c].parent.None? then b.nodes + [c] else b.nodes))
      && (t.CloseParenthesis? && (b.depth - 1 == 0 || b.current.None?) ==>
            r == b.(depth := b.depth - 1))
  {
    if t.Operator? || t.Value? {
      AttachOk(b.arena, b.current, t);
    }
  }

  /* ---------- the tree a root stands for ---------- */

  /** The tree under node `i`: what the program reaches from an `Rc<Node>`. */
  function Subtree(a: seq<Node>, i: nat): (e: Expr)
    requires WellFormed(a) && i < |a|
    decreases |a| - i
    ensures e.token == a[i].token && |e.children| == |a[i].children|
  {
    assert NodeOk(a, i);
    Expr(a[i].token, seq(|a[i].children|, k requires 0 <= k < |a[i].children| =>
      Subtree(a, a[i].children[k])))
  }

  /** The trees `expressionize` can make: operator and value nodes only,
      values as leaves. */
  predicate Built(e: Expr) {
    && (e.token.Operator? || e.token.Value?)
    && (e.token.Value? ==> e.children == [])
    && forall k | 0 <= k < |e.children| :: Built(e.children[k])
  }

  lemma {:induction false} SubtreeBuilt(a: seq<Node>, i: nat)
    requires WellFormed(a) && i < |a|
    decreases |a| - i
    ensures Built(Subtree(a, i))
  {
    assert NodeOk(a, i);
    var e := Subtree(a, i);
    forall k | 0 <= k < |e.children|
      ensures Built(e.children[k])
    {
      SubtreeBuilt(a, a[i].children[k]);
    }
  }

  /** The trees of the recorded roots, in order. */
  function Roots(x: Expressions): (r: seq<Expr>)
    requires WellFormed(x.arena) && RootsOk(x.arena, x.roots)
    ensures |r| == |x.roots|
    ensures forall k | 0 <= k < |r| :: Built(r[k]) && r[k].token.Operator?
  {
    SubtreesBuilt(x.arena);
    seq(|x.roots|, k requires 0 <= k < |x.roots| => Subtree(x.arena, x.roots[k]))
  }

  lemma SubtreesBuilt(a: seq<Node>)
    requires WellFormed(a)
    ensures forall i | 0 <= i < |a| :: Built(Subtree(a, i))
  {
    forall i | 0 <= i < |a|
      ensures Built(Subtree(a, i))
    {
      SubtreeBuilt(a, i);
    }
  }
}
