/**
  The rebase protocol of worker/src/opt/rel.rs: resolving a relation tree's `Table` leaves against a
  target naming context, producing a tree in a target representation whose ancestors' boards are
  derived afresh. The asynchronous plumbing is read as ordinary sequential calls: sibling rebases
  are independent and recombined by position, so the order they run in does not matter.

  A rule is a function from a source tree to an optional replacement (`rebase_at`); `RebaseTree` is the
  trait's provided `rebase`. `ClosureRebaseAt` and `ContextRebaseAt` are the two concrete rules.
*/
module Rebase {
  import opened Wrappers
  import opened Rel
  import opened Tree
  import opened Meta

  /**
    The collaborators of the target representation used by `rebase`: its `to_inner_context`, the
    rebase of an expression against a context (`Context::rebase`), and its fold rule `dot`.
  */
  datatype RebaseEnv<!B, !M1, !M2> = RebaseEnv(
    innerContext: GenericRel<ExprT<M1>, B> -> Context<M2>,
    rebaseExpr: (Context<M2>, ExprT<M1>) -> ExprT<M2>,
    dot: Dot<B, M2>)

  /** `rebase_at`: a replacement for the node, or `None` to carry on into its children. */
  type Rule<!B1, !M1, !B2, !M2> = RelT<B1, M1> -> Option<RelT<B2, M2>>

  /**
    The context a node's own expressions are resolved against: the target representation's inner
    context of the node whose children are the rebased children's boards, or the default (empty)
    context when any of those boards is an error.
  */
  function InheritedContext<M1, B2, M2>(
    rebased: GenericRel<ExprT<M1>, RelT<B2, M2>>, env: RebaseEnv<B2, M1, M2>): (ctx: Context<M2>)
    ensures !ChildrenOk(rebased) ==> ctx == EmptyContext()
    ensures ChildrenOk(rebased) ==>
      ctx == env.innerContext(MapChildren(rebased, (c: RelT<B2, M2>) requires c.board.Ok? => c.board.value))
  {
    MapExpressionsIdentity(rebased);
    var boards := MapChildren(MapExpressions(rebased, (e: ExprT<M1>) => e), (c: RelT<B2, M2>) => c.board);
    ChildBoardsAgree(rebased, boards);
    match IntoResult(boards)
    case Ok(inner) =>
      ChildBoardsUnwrap(rebased, boards, inner);
      env.innerContext(inner)
    case Err(_) => EmptyContext()
  }

  lemma ChildBoardsUnwrap<E, B, M>(
    rebased: GenericRel<E, RelT<B, M>>, boards: GenericRel<E, ValidateResult<B>>, inner: GenericRel<E, B>)
    requires boards == MapChildren(rebased, (c: RelT<B, M>) => c.board)
    requires IntoResult(boards) == Ok(inner)
    ensures forall c :: c in Children(rebased) ==> c.board.Ok?
    ensures inner == MapChildren(rebased, (c: RelT<B, M>) requires c.board.Ok? => c.board.value)
  {
    forall c | c in Children(rebased) ensures c.board.Ok? {
      var i :| 0 <= i < |Children(rebased)| && Children(rebased)[i] == c;
      assert Children(boards)[i] == Ok(Children(inner)[i]);
    }
    var u := MapChildren(rebased, (c: RelT<B, M>) requires c.board.Ok? => c.board.value);
    assert Children(inner) == Children(u) by {
      assert Unwraps(Children(inner), Children(boards));
    }
    ShapeDetermines(inner, u);
  }

  /** The node with every child rebased (`map_async` with `rebase`); expressions are untouched. */
  function RebaseChildren<B1, M1, B2, M2>(
    rule: Rule<B1, M1, B2, M2>, env: RebaseEnv<B2, M1, M2>, t: RelT<B1, M1>): (n: GenericRel<ExprT<M1>, RelT<B2, M2>>)
    ensures SameShape(t.root, n) && Expressions(n) == Expressions(t.root)
    ensures |Children(n)| == |Children(t.root)|
    ensures forall i :: 0 <= i < |Children(t.root)| ==> Children(n)[i] == RebaseTree(rule, env, Children(t.root)[i])
    decreases t, 0
  {
    MapChildren(t.root, (c: RelT<B1, M1>) requires ChildOf(c, t.root) => ChildIsField(t.root, c); RebaseTree(rule, env, c))
  }

  /**
    `RebaseRel::rebase`: the rule's replacement of the root when there is one; otherwise the node
    rebuilt by `RelT::from` from the rebased children and the node's own expressions resolved against
    the inherited context, with its board derived afresh. `RebaseStep` states what it computes.
  */
  function RebaseTree<B1, M1, B2, M2>(
    rule: Rule<B1, M1, B2, M2>, env: RebaseEnv<B2, M1, M2>, t: RelT<B1, M1>): RelT<B2, M2>
    decreases t, 1
  {
    match rule(t)
    case Some(u) => u
    case None =>
      var rebased := RebaseChildren(rule, env, t);
      var inherited := InheritedContext(rebased, env);
      FromWrapped(MapExpressions(rebased, (e: ExprT<M1>) => env.rebaseExpr(inherited, e)), env.dot)
  }

  /**
    One step of `rebase`: a matching rule's replacement is the result; otherwise the result has the
    node's shape, the rebased children, the node's expressions each rebased against the inherited
    context, and the board `FromWrapped` derives for that node.
  */
  lemma RebaseStep<B1, M1, B2, M2>(rule: Rule<B1, M1, B2, M2>, env: RebaseEnv<B2, M1, M2>, t: RelT<B1, M1>)
    ensures rule(t).Some? ==> RebaseTree(rule, env, t) == rule(t).value
    ensures rule(t).None? ==>
      var r := RebaseTree(rule, env, t);
      var rebased := RebaseChildren(rule, env, t);
      && SameShape(t.root, r.root)
      && Children(r.root) == Children(rebased)
      && Expressions(r.root) == Apply(Expressions(t.root), (e: ExprT<M1>) => env.rebaseExpr(InheritedContext(rebased, env), e))
      && r.board == FromWrapped(r.root, env.dot).board
  {
  }

  // ---------------------------------------------------------------------------------------------
  // The two concrete rules

  /**
    `RebaseClosure::rebase_at`: a `Table` leaf is replaced by a leaf with the same key whose board is
    the old error, or else what the closure makes of the old board and the key; any other node does
    not match.
  */
  function ClosureRebaseAt<B1, M1, B2, M2>(
    closure: (B1, ContextKey) -> ValidateResult<B2>, at: RelT<B1, M1>): (r: Option<RelT<B2, M2>>)
    ensures r.Some? <==> at.root.Table?
    ensures r.Some? ==> r.value.root == Table(at.root.key)
    ensures r.Some? && at.board.Err? ==> r.value.board == Err(at.board.error)
    ensures r.Some? && at.board.Ok? ==> r.value.board == closure(at.board.value, at.root.key)
  {
    match at.root
    case Table(key) =>
      var board := match at.board
        case Err(e) => Err(e)
        case Ok(b) => closure(b, key);
      Some(RelT(Table(key), board))
    case _ => None
  }

  datatype ContextError = ContextError(message: string)

  /**
    The collaborators of the catalog rule: `Context::get` and `into_table_error`, which are not part
    of this model.
  */
  datatype Catalog<!B> = Catalog(
    get: (Context<B>, ContextKey) -> Result<B, ContextError>,
    intoTableError: ContextError -> ValidateError)

  /** The lookup closure of the catalog rule: the old board is ignored, the key is looked up. */
  function Lookup<B>(ctx: Context<B>, catalog: Catalog<B>, key: ContextKey): ValidateResult<B> {
    match catalog.get(ctx, key)
    case Ok(b) => Ok(b)
    case Err(e) => Err(catalog.intoTableError(e))
  }

  /**
    `rebase_at` for a `Context<To>` used directly as a catalog: `RebaseClosure` with a closure that
    looks the key up in the context, a miss becoming the leaf's error board.
  */
  function ContextRebaseAt<B1, M1, B2, M2>(
    ctx: Context<B2>, catalog: Catalog<B2>, at: RelT<B1, M1>): (r: Option<RelT<B2, M2>>)
    ensures r.Some? <==> at.root.Table?
    ensures r.Some? ==> r.value.root == Table(at.root.key)
    ensures r.Some? && at.board.Err? ==> r.value.board == Err(at.board.error)
    ensures r.Some? && at.board.Ok? && catalog.get(ctx, at.root.key).Ok? ==>
      r.value.board == Ok(catalog.get(ctx, at.root.key).value)
    ensures r.Some? && at.board.Ok? && catalog.get(ctx, at.root.key).Err? ==>
      r.value.board == Err(catalog.intoTableError(catalog.get(ctx, at.root.key).error))
  {
    ClosureRebaseAt((_: B1, key: ContextKey) => Lookup(ctx, catalog, key), at)
  }

  // ---------------------------------------------------------------------------------------------
  // Laws

  /** The rule replaces only `Table` leaves, and by leaves with the same key. */
  ghost predicate LeafOnly<B1(!new), M1(!new), B2, M2>(rule: Rule<B1, M1, B2, M2>) {
    forall t :: rule(t).Some? ==> t.root.Table? && rule(t).value.root == Table(t.root.key)
  }

  lemma ClosureRuleIsLeafOnly<B1(!new), M1(!new), B2, M2>(closure: (B1, ContextKey) -> ValidateResult<B2>)
    ensures LeafOnly((at: RelT<B1, M1>) => ClosureRebaseAt<B1, M1, B2, M2>(closure, at))
  {
  }

  lemma ContextRuleIsLeafOnly<B1(!new), M1(!new), B2, M2>(ctx: Context<B2>, catalog: Catalog<B2>)
    ensures LeafOnly((at: RelT<B1, M1>) => ContextRebaseAt<B1, M1, B2, M2>(ctx, catalog, at))
  {
  }

  /** Same operators, fields and arity at every node: only expressions and boards may differ. */
  ghost predicate SameSkeleton<B1, M1, B2, M2>(a: RelT<B1, M1>, b: RelT<B2, M2>)
    decreases a
  {
    && SameShape(a.root, b.root)
    && |Children(a.root)| == |Children(b.root)|
    && forall i :: 0 <= i < |Children(a.root)| ==> SameSkeleton(Children(a.root)[i], Children(b.root)[i])
  }

  /** A leaf-only rule keeps the whole tree's skeleton: rebasing touches leaves, never structure. */
  lemma {:induction false} RebaseKeepsSkeleton<B1(!new), M1(!new), B2, M2>(
    rule: Rule<B1, M1, B2, M2>, env: RebaseEnv<B2, M1, M2>, t: RelT<B1, M1>)
    requires LeafOnly(rule)
    ensures SameSkeleton(t, RebaseTree(rule, env, t))
    decreases t
  {
    var r := RebaseTree(rule, env, t);
    RebaseStep(rule, env, t);
    if rule(t).None? {
      forall i | 0 <= i < |Children(t.root)|
        ensures SameSkeleton(Children(t.root)[i], Children(r.root)[i])
      {
        ChildIsField(t.root, Children(t.root)[i]);
        RebaseKeepsSkeleton(rule, env, Children(t.root)[i]);
      }
    }
  }

  /**
    With a leaf-only rule, every interior node of the result carries the board `FromWrapped`
    derives from its rebased children and re-resolved expressions; only leaves carry lookups.
  */
  lemma {:induction false} RebaseDerivesAncestors<B1(!new), M1(!new), B2, M2>(
    rule: Rule<B1, M1, B2, M2>, env: RebaseEnv<B2, M1, M2>, t: RelT<B1, M1>)
    requires LeafOnly(rule)
    ensures DerivedAbove(RebaseTree(rule, env, t), env.dot)
    decreases t
  {
    var r := RebaseTree(rule, env, t);
    RebaseStep(rule, env, t);
    if rule(t).None? {
      forall c | c in Children(r.root) ensures DerivedAbove(c, env.dot) {
        var i :| 0 <= i < |Children(r.root)| && Children(r.root)[i] == c;
        ChildIsField(t.root, Children(t.root)[i]);
        RebaseDerivesAncestors(rule, env, Children(t.root)[i]);
      }
    }
  }

  /** A failed lookup anywhere in the result of a leaf-only rule makes the root's board an error. */
  lemma FailedLookupReachesRoot<B1(!new), M1(!new), B2, M2>(
    rule: Rule<B1, M1, B2, M2>, env: RebaseEnv<B2, M1, M2>, t: RelT<B1, M1>, d: RelT<B2, M2>)
    requires LeafOnly(rule)
    requires Within(d, RebaseTree(rule, env, t)) && d.board.Err?
    ensures RebaseTree(rule, env, t).board.Err?
  {
    RebaseDerivesAncestors(rule, env, t);
    ErrorReachesRoot(RebaseTree(rule, env, t), d, env.dot);
  }

  /**
    Rebasing is the identity on a full match: when the catalog holds, for every valid leaf, that
    leaf's own metadata, and rebasing an expression leaves it as it is, rebasing a tree whose
    interior boards are derived gives back the same tree, boards included.
  */
  lemma {:induction false} RebaseFullMatch<B(!new), M(!new)>(
    ctx: Context<B>, catalog: Catalog<B>, env: RebaseEnv<B, M, M>, t: RelT<B, M>)
    requires DerivedAbove(t, env.dot)
    requires forall d :: Within(d, t) && d.root.Table? && d.board.Ok? ==>
      catalog.get(ctx, d.root.key) == Ok(d.board.value)
    requires forall c, e :: env.rebaseExpr(c, e) == e
    ensures RebaseTree((at: RelT<B, M>) => ContextRebaseAt<B, M, B, M>(ctx, catalog, at), env, t) == t
    decreases t
  {
    var rule := (at: RelT<B, M>) => ContextRebaseAt<B, M, B, M>(ctx, catalog, at);
    var r := RebaseTree(rule, env, t);
    RebaseStep(rule, env, t);
    if rule(t).None? {
      var rebased := RebaseChildren(rule, env, t);
      forall i | 0 <= i < |Children(t.root)|
        ensures Children(rebased)[i] == Children(t.root)[i]
      {
        var c := Children(t.root)[i];
        ChildIsField(t.root, c);
        forall d | Within(d, c) ensures Within(d, t) {
          WithinChild(d, c, t);
        }
        RebaseFullMatch(ctx, catalog, env, c);
      }
      assert Children(r.root) == Children(t.root);
      assert Expressions(r.root) == Expressions(t.root);
      ShapeDetermines(r.root, t.root);
    }
  }

  /**
    Error containment: rebasing `Join(Table(missing), Table(found), op)` against a catalog where
    `missing` fails and `found` resolves leaves the right leaf's board `Ok`, gives the left leaf the
    lookup error, and makes the join's board that same error.
  */
  lemma JoinErrorContainment<B1, M1, B2, M2>(
    ctx: Context<B2>, catalog: Catalog<B2>, env: RebaseEnv<B2, M1, M2>,
    left: RelT<B1, M1>, right: RelT<B1, M1>, op: JoinOperator<ExprT<M1>>, board: ValidateResult<B1>)
    requires left.root.Table? && right.root.Table?
    requires left.board.Ok? && right.board.Ok?
    requires catalog.get(ctx, left.root.key).Err? && catalog.get(ctx, right.root.key).Ok?
    ensures var rule := (at: RelT<B1, M1>) => ContextRebaseAt<B1, M1, B2, M2>(ctx, catalog, at);
      var r := RebaseTree(rule, env, RelT(Join(left, right, op), board));
      && r.root.Join?
      && r.root.left.board == Err(catalog.intoTableError(catalog.get(ctx, left.root.key).error))
      && r.root.right.board.Ok?
      && r.board == r.root.left.board
  {
    var rule := (at: RelT<B1, M1>) => ContextRebaseAt<B1, M1, B2, M2>(ctx, catalog, at);
    var t := RelT(Join(left, right, op), board);
    var r := RebaseTree(rule, env, t);
    RebaseStep(rule, env, t);
    RebaseStep(rule, env, left);
    RebaseStep(rule, env, right);
    var l := RebaseTree(rule, env, left);
    assert Children(r.root) == [l, RebaseTree(rule, env, right)];
    assert !ChildrenOk(r.root) by {
      assert l in Children(r.root);
    }
  }
}
