/**
  Lowering a relation tree to query syntax (`to_ansatz!` and `ToAnsatz for RelT` in
  worker/src/opt/rel.rs). The target is a small model of the SQL syntax tree: the fields the
  lowering sets are modelled, and the conversions between its forms (`into()`, `wrapped()`,
  `with_alias`), whose bodies are not part of this model, are parameters. So are the lowering of an
  expression and the name of a column key.

  The tree is folded bottom-up: the children are lowered first, then one node whose child slots hold
  lowered forms. Each node's lowering builds its output by updating one form in place, field by
  field (`LowerNode`); `NodeAnsatz` is its specification.
*/
module Ansatz {
  import opened Wrappers
  import opened Rel
  import opened Tree

  datatype CompositionError = CompositionError(message: string)

  type Lowered<T> = Result<T, CompositionError>

  // ---------------------------------------------------------------------------------------------
  // The target syntax

  /** An expression of the target syntax; its structure is not part of this model. */
  datatype SqlExpr = SqlExpr(text: string)

  datatype OrderByExpr = OrderByExpr(expr: SqlExpr, asc: Option<bool>)

  datatype SqlSetOperator = SqlUnion | SqlExcept | SqlIntersect

  datatype SqlJoinConstraint = SqlOn(expr: SqlExpr) | SqlUsing(columns: seq<string>) | SqlNatural

  datatype SqlJoinOperator =
    | SqlInner(constraint: SqlJoinConstraint)
    | SqlLeftOuter(constraint: SqlJoinConstraint)
    | SqlRightOuter(constraint: SqlJoinConstraint)
    | SqlFullOuter(constraint: SqlJoinConstraint)
    | SqlCrossJoin

  datatype Query = Query(body: SetExpr, orderBy: seq<OrderByExpr>, limit: Option<SqlExpr>, offset: Option<SqlExpr>)

  datatype SetExpr =
    | SelectExpr(select: Select)
    | QueryExpr(query: Query)
    | SetOperation(op: SqlSetOperator, all: bool, left: SetExpr, right: SetExpr)

  datatype Select = Select(
    distinct: bool,
    projection: seq<SqlExpr>,
    from: seq<TableWithJoins>,
    selection: Option<SqlExpr>,
    groupBy: seq<SqlExpr>)

  datatype TableWithJoins = TableWithJoins(relation: TableFactor, joins: seq<SqlJoin>)

  datatype SqlJoin = SqlJoin(relation: TableFactor, joinOperator: SqlJoinOperator)

  datatype TableFactor =
    | TableRef(name: seq<string>, alias: Option<string>, args: seq<SqlExpr>, withHints: seq<SqlExpr>)
    | DerivedTable(subquery: Query, alias: Option<string>)
    | NestedJoin(nested: TableWithJoins)

  /** `RelAnsatz`: whichever syntactic form a lowered relation happens to be in. */
  datatype RelAnsatz =
    | AsQuery(query: Query)
    | AsSelect(select: Select)
    | AsSetExpr(setExpr: SetExpr)
    | AsTableWithJoins(tableWithJoins: TableWithJoins)
    | AsTableFactor(tableFactor: TableFactor)

  /**
    The collaborators of the lowering: the conversions of a lowered relation into each syntactic
    form, `wrapped()` (a `SELECT` over it), `with_alias`, `ContextKey::name`, and the lowering of an
    expression (its `to_ansatz` followed by `into()`).
  */
  datatype Lowering<!E> = Lowering(
    toQuery: RelAnsatz -> Query,
    toSelect: RelAnsatz -> Select,
    toSetExpr: RelAnsatz -> SetExpr,
    toTableWithJoins: RelAnsatz -> TableWithJoins,
    toTableFactor: RelAnsatz -> TableFactor,
    wrapped: RelAnsatz -> Select,
    withAlias: (RelAnsatz, string) -> RelAnsatz,
    keyName: ContextKey -> string,
    lowerExpr: E -> Lowered<SqlExpr>)

  // ---------------------------------------------------------------------------------------------
  // Join operators and constraints

  /** The one-to-one copy of the set operator into the syntax. */
  function LowerSetOperator(op: SetOperator): SqlSetOperator {
    match op
    case Union => SqlUnion
    case Except => SqlExcept
    case Intersect => SqlIntersect
  }

  lemma LowerSetOperatorInjective(a: SetOperator, b: SetOperator)
    ensures LowerSetOperator(a) == LowerSetOperator(b) ==> a == b
  {
  }

  /**
    `TryInto<ast::JoinConstraint>`: `On` lowers its expression and fails exactly when that fails;
    `Using` becomes the names of its keys, in order; `Natural` stays natural.
  */
  function LowerJoinConstraint<E>(c: JoinConstraint<E>, lw: Lowering<E>): (r: Lowered<SqlJoinConstraint>)
    ensures r.Err? <==> c.On? && lw.lowerExpr(c.expr).Err?
    ensures r.Err? ==> r == Err(lw.lowerExpr(c.expr).error)
    ensures r.Ok? && c.On? ==> r.value == SqlOn(lw.lowerExpr(c.expr).value)
    ensures c.Using? ==>
      && r.Ok? && r.value.SqlUsing? && |r.value.columns| == |c.keys|
      && forall i :: 0 <= i < |c.keys| ==> r.value.columns[i] == lw.keyName(c.keys[i])
    ensures c.Natural? ==> r == Ok(SqlNatural)
  {
    match c
    case On(expr) =>
      var e :- lw.lowerExpr(expr);
      Ok(SqlOn(e))
    case Using(keys) => Ok(SqlUsing(Apply(keys, lw.keyName)))
    case Natural => Ok(SqlNatural)
  }

  /**
    `TryInto<ast::JoinOperator>`: the operator is kept one-to-one and its constraint lowered; the
    operator fails exactly when its constraint does.
  */
  function LowerJoinOperator<E>(op: JoinOperator<E>, lw: Lowering<E>): (r: Lowered<SqlJoinOperator>)
    ensures op.CrossJoin? ==> r == Ok(SqlCrossJoin)
    ensures !op.CrossJoin? ==> (r.Err? <==> LowerJoinConstraint(op.constraint, lw).Err?)
    ensures !op.CrossJoin? && r.Err? ==> r.error == LowerJoinConstraint(op.constraint, lw).error
    ensures r.Ok? ==>
      && (op.Inner? <==> r.value.SqlInner?)
      && (op.LeftOuter? <==> r.value.SqlLeftOuter?)
      && (op.RightOuter? <==> r.value.SqlRightOuter?)
      && (op.FullOuter? <==> r.value.SqlFullOuter?)
      && (!op.CrossJoin? ==> r.value.constraint == LowerJoinConstraint(op.constraint, lw).value)
  {
    match op
    case Inner(c) => var k :- LowerJoinConstraint(c, lw); Ok(SqlInner(k))
    case LeftOuter(c) => var k :- LowerJoinConstraint(c, lw); Ok(SqlLeftOuter(k))
    case RightOuter(c) => var k :- LowerJoinConstraint(c, lw); Ok(SqlRightOuter(k))
    case FullOuter(c) => var k :- LowerJoinConstraint(c, lw); Ok(SqlFullOuter(k))
    case CrossJoin => Ok(SqlCrossJoin)
  }

  // ---------------------------------------------------------------------------------------------
  // Lists of expressions

  function Min(a: int, b: int): int {
    if a <= b then a else b
  }

  /** Pairs of equal positions, as long as the shorter list (`Iterator::zip`). */
  function Zip<A, B>(a: seq<A>, b: seq<B>): (r: seq<(A, B)>)
    ensures |r| == Min(|a|, |b|)
    ensures forall i :: 0 <= i < |r| ==> r[i] == (a[i], b[i])
  {
    seq(Min(|a|, |b|), i requires 0 <= i < Min(|a|, |b|) => (a[i], b[i]))
  }

  /** Lowering a list of expressions, stopping at the first failure (`collect::<Result<Vec<_>, _>>`). */
  function LowerAll<E>(es: seq<E>, lower: E -> Lowered<SqlExpr>): (r: Lowered<seq<SqlExpr>>)
    ensures r.Ok? <==> forall i :: 0 <= i < |es| ==> lower(es[i]).Ok?
    ensures r.Ok? ==> |r.value| == |es| && forall i :: 0 <= i < |es| ==> lower(es[i]) == Ok(r.value[i])
    ensures r.Err? ==>
      exists i :: 0 <= i < |es| && lower(es[i]) == Err(r.error) && forall j :: 0 <= j < i ==> lower(es[j]).Ok?
  {
    CollectByIndex(Apply(es, lower));
    Collect(Apply(es, lower))
  }

  /** One `ORDER BY` item: the sort key lowered, ascending exactly for `Asc`. */
  function LowerOrderByItem<E>(item: (E, Order), lower: E -> Lowered<SqlExpr>): Lowered<OrderByExpr> {
    var asc := match item.1 case Asc => true case Desc => false;
    var e :- lower(item.0);
    Ok(OrderByExpr(e, Some(asc)))
  }

  /** The `ORDER BY` list: the sort keys zipped with the orders, lowered in turn. */
  function LowerOrderByItems<E>(sortBy: seq<E>, order: seq<Order>, lower: E -> Lowered<SqlExpr>): (r: Lowered<seq<OrderByExpr>>)
    ensures r.Ok? <==> forall i :: 0 <= i < Min(|sortBy|, |order|) ==> lower(sortBy[i]).Ok?
    ensures r.Ok? ==>
      && |r.value| == Min(|sortBy|, |order|)
      && forall i :: 0 <= i < |r.value| ==>
           r.value[i] == OrderByExpr(lower(sortBy[i]).value, Some(order[i] == Asc))
    ensures r.Err? ==>
      exists i :: 0 <= i < Min(|sortBy|, |order|) && lower(sortBy[i]) == Err(r.error)
        && forall j :: 0 <= j < i ==> lower(sortBy[j]).Ok?
  {
    var items := Apply(Zip(sortBy, order), (item: (E, Order)) => LowerOrderByItem(item, lower));
    CollectByIndex(items);
    Collect(items)
  }

  /** The loop behind `LowerAll`. */
  method LowerEach<E>(es: seq<E>, lower: E -> Lowered<SqlExpr>) returns (r: Lowered<seq<SqlExpr>>)
    ensures r == LowerAll(es, lower)
  {
    var out: seq<SqlExpr> := [];
    var i := 0;
    while i < |es|
      invariant 0 <= i <= |es|
      invariant Unwraps(out, Apply(es, lower)[..i])
      invariant AllOk(Apply(es, lower)[..i])
    {
      var x := lower(es[i]);
      if x.Err? {
        CollectStopsAt(Apply(es, lower), i);
        return Err(x.error);
      }
      assert Apply(es, lower)[..i + 1] == Apply(es, lower)[..i] + [x];
      out := out + [x.value];
      i := i + 1;
    }
    assert Apply(es, lower)[..i] == Apply(es, lower);
    CollectAllOk(Apply(es, lower), out);
    r := Ok(out);
  }

  /** The loop behind `LowerOrderByItems`: it runs over the shorter of the two lists. */
  method LowerOrderBy<E>(sortBy: seq<E>, order: seq<Order>, lower: E -> Lowered<SqlExpr>)
    returns (r: Lowered<seq<OrderByExpr>>)
    ensures r == LowerOrderByItems(sortBy, order, lower)
  {
    ghost var items := Apply(Zip(sortBy, order), (item: (E, Order)) => LowerOrderByItem(item, lower));
    var out: seq<OrderByExpr> := [];
    var i := 0;
    while i < |sortBy| && i < |order|
      invariant 0 <= i <= Min(|sortBy|, |order|)
      invariant Unwraps(out, items[..i])
      invariant AllOk(items[..i])
    {
      var asc := match order[i] case Asc => true case Desc => false;
      var e := lower(sortBy[i]);
      if e.Err? {
        CollectStopsAt(items, i);
        return Err(e.error);
      }
      assert items[..i + 1] == items[..i] + [Ok(OrderByExpr(e.value, Some(asc)))];
      out := out + [OrderByExpr(e.value, Some(asc))];
      i := i + 1;
    }
    assert items[..i] == items;
    CollectAllOk(items, out);
    r := Ok(out);
  }

  // ---------------------------------------------------------------------------------------------
  // One node

  /**
    The specification of one arm of `to_ansatz!`: the node's child slots already hold lowered
    forms; the result is the form the arm builds, or the first failure of an expression it lowers.
  */
  function NodeAnsatz<E>(n: GenericRel<E, RelAnsatz>, lw: Lowering<E>): Lowered<RelAnsatz> {
    match n
    case OrderBy(order, sortBy, from) =>
      var items :- LowerOrderByItems(sortBy, order, lw.lowerExpr);
      Ok(AsQuery(lw.toQuery(from).(orderBy := items)))
    case Distinct(from) =>
      Ok(AsSelect(lw.toSelect(from).(distinct := true)))
    case Limit(numberRows, from) =>
      var e :- lw.lowerExpr(numberRows);
      Ok(AsQuery(lw.toQuery(from).(limit := Some(e))))
    case Offset(offset, from) =>
      var e :- lw.lowerExpr(offset);
      Ok(AsQuery(lw.toQuery(from).(offset := Some(e))))
    case Set(op, left, right) =>
      Ok(AsSetExpr(SetOperation(LowerSetOperator(op), false, lw.toSetExpr(left), lw.toSetExpr(right))))
    case Join(left, right, operator) =>
      var base := lw.toTableWithJoins(left);
      var relation := lw.toTableFactor(right);
      var joinOperator :- LowerJoinOperator(operator, lw);
      Ok(AsTableWithJoins(base.(joins := base.joins + [SqlJoin(relation, joinOperator)])))
    case Selection(from, filter) =>
      var e :- lw.lowerExpr(filter);
      Ok(AsSelect(lw.wrapped(from).(selection := Some(e))))
    case Aggregation(attributes, groupBy, from) =>
      var projection :- LowerAll(attributes, lw.lowerExpr);
      var grouping :- LowerAll(groupBy, lw.lowerExpr);
      Ok(AsSelect(lw.wrapped(from).(projection := projection, groupBy := grouping)))
    case Projection(attributes, from) =>
      var projection :- LowerAll(attributes, lw.lowerExpr);
      Ok(AsSelect(lw.wrapped(from).(projection := projection)))
    case WithAlias(from, alias) =>
      Ok(lw.withAlias(from, alias))
    case Table(key) =>
      Ok(AsTableFactor(TableRef(Reverse(key.segments), None, [], [])))
  }

  /** The key's segments, most significant first. */
  function Reverse<T>(s: seq<T>): (r: seq<T>)
    ensures |r| == |s| && forall i :: 0 <= i < |s| ==> r[i] == s[|s| - 1 - i]
  {
    if s == [] then [] else Reverse(s[1..]) + [s[0]]
  }

  /**
    One arm of `to_ansatz!`, as the source writes it: start from the converted child form and
    assign the fields the operator determines, returning at the first expression that fails.
  */
  method LowerNode<E>(n: GenericRel<E, RelAnsatz>, lw: Lowering<E>) returns (r: Lowered<RelAnsatz>)
    ensures r == NodeAnsatz(n, lw)
  {
    match n
    case OrderBy(order, sortBy, from) =>
      var out := lw.toQuery(from);
      var items := LowerOrderBy(sortBy, order, lw.lowerExpr);
      if items.Err? {
        return Err(items.error);
      }
      out := out.(orderBy := items.value);
      r := Ok(AsQuery(out));
    case Distinct(from) =>
      var out := lw.toSelect(from);
      out := out.(distinct := true);
      r := Ok(AsSelect(out));
    case Limit(numberRows, from) =>
      var out := lw.toQuery(from);
      var e := lw.lowerExpr(numberRows);
      if e.Err? {
        return Err(e.error);
      }
      out := out.(limit := Some(e.value));
      r := Ok(AsQuery(out));
    case Offset(offset, from) =>
      var out := lw.toQuery(from);
      var e := lw.lowerExpr(offset);
      if e.Err? {
        return Err(e.error);
      }
      out := out.(offset := Some(e.value));
      r := Ok(AsQuery(out));
    case Set(op, left, right) =>
      r := Ok(AsSetExpr(SetOperation(LowerSetOperator(op), false, lw.toSetExpr(left), lw.toSetExpr(right))));
    case Join(left, right, operator) =>
      var out := lw.toTableWithJoins(left);
      var relation := lw.toTableFactor(right);
      var joinOperator := LowerJoinOperator(operator, lw);
      if joinOperator.Err? {
        return Err(joinOperator.error);
      }
      out := out.(joins := out.joins + [SqlJoin(relation, joinOperator.value)]);
      r := Ok(AsTableWithJoins(out));
    case Selection(from, filter) =>
      var out := lw.wrapped(from);
      var e := lw.lowerExpr(filter);
      if e.Err? {
        return Err(e.error);
      }
      out := out.(selection := Some(e.value));
      r := Ok(AsSelect(out));
    case Aggregation(attributes, groupBy, from) =>
      var out := lw.wrapped(from);
      var projection := LowerEach(attributes, lw.lowerExpr);
      if projection.Err? {
        return Err(projection.error);
      }
      out := out.(projection := projection.value);
      var grouping := LowerEach(groupBy, lw.lowerExpr);
      if grouping.Err? {
        return Err(grouping.error);
      }
      out := out.(groupBy := grouping.value);
      r := Ok(AsSelect(out));
    case Projection(attributes, from) =>
      var out := lw.wrapped(from);
      var projection := LowerEach(attributes, lw.lowerExpr);
      if projection.Err? {
        return Err(projection.error);
      }
      out := out.(projection := projection.value);
      r := Ok(AsSelect(out));
    case WithAlias(from, alias) =>
      r := Ok(lw.withAlias(from, alias));
    case Table(key) =>
      var ident := key.segments;
      ident := Reverse(ident);
      r := Ok(AsTableFactor(TableRef(ident, None, [], [])));
  }

  // ---------------------------------------------------------------------------------------------
  // The tree

  /**
    `ToAnsatz for RelT` (`try_fold`): the children are lowered first and any failure among them is
    the result; otherwise the node is lowered over the children's forms. Boards are not consulted.
  */
  function ToAnsatz<B, M>(t: RelT<B, M>, lw: Lowering<ExprT<M>>): Lowered<RelAnsatz>
    decreases t, 1
  {
    var children :- IntoResult(LowerChildren(t, lw));
    NodeAnsatz(children, lw)
  }

  /** The node with each child replaced by its lowering. */
  function LowerChildren<B, M>(t: RelT<B, M>, lw: Lowering<ExprT<M>>): (n: GenericRel<ExprT<M>, Lowered<RelAnsatz>>)
    ensures SameShape(t.root, n) && Expressions(n) == Expressions(t.root)
    ensures |Children(n)| == |Children(t.root)|
    ensures forall i :: 0 <= i < |Children(t.root)| ==> Children(n)[i] == ToAnsatz(Children(t.root)[i], lw)
    decreases t, 0
  {
    MapChildren(t.root, (c: RelT<B, M>) requires ChildOf(c, t.root) => ChildIsField(t.root, c); ToAnsatz(c, lw))
  }

  /**
    The expressions a node's lowering actually lowers: all of them, except that `OrderBy` lowers
    only the sort keys that have an order to pair with.
  */
  function LoweredExpressions<E, C>(n: GenericRel<E, C>): (r: seq<E>)
    ensures !n.OrderBy? ==> r == Expressions(n)
    ensures n.OrderBy? ==> |r| == Min(|n.sortBy|, |n.order|) && r == n.sortBy[..|r|]
  {
    if n.OrderBy? then n.sortBy[..Min(|n.sortBy|, |n.order|)] else Expressions(n)
  }

  lemma LoweredExpressionsAgree<E, C1, C2>(a: GenericRel<E, C1>, b: GenericRel<E, C2>)
    requires SameShape(a, b) && Expressions(a) == Expressions(b)
    ensures LoweredExpressions(a) == LoweredExpressions(b)
  {
  }

  // ---------------------------------------------------------------------------------------------
  // What each operator lowers to

  /** `Table`: a table reference named by the key's segments reversed, with no alias, arguments or hints. */
  lemma TableLowering<E>(key: ContextKey, lw: Lowering<E>)
    ensures var r := NodeAnsatz(Table(key), lw);
      && r.Ok? && r.value.AsTableFactor? && r.value.tableFactor.TableRef?
      && |r.value.tableFactor.name| == |key.segments|
      && (forall i :: 0 <= i < |key.segments| ==>
            r.value.tableFactor.name[i] == key.segments[|key.segments| - 1 - i])
      && r.value.tableFactor.alias.None?
      && r.value.tableFactor.args == [] && r.value.tableFactor.withHints == []
  {
  }

  /** `Set`: a set operation over both lowered sides, never `ALL`. */
  lemma SetLowering<E>(op: SetOperator, left: RelAnsatz, right: RelAnsatz, lw: Lowering<E>)
    ensures var r := NodeAnsatz(Set(op, left, right), lw);
      && r.Ok? && r.value.AsSetExpr? && r.value.setExpr.SetOperation?
      && !r.value.setExpr.all
      && r.value.setExpr.op == LowerSetOperator(op)
      && r.value.setExpr.left == lw.toSetExpr(left) && r.value.setExpr.right == lw.toSetExpr(right)
  {
  }

  /**
    `OrderBy`: the query of the lowered child with its `ORDER BY` list replaced by the sort keys
    paired positionally with the orders, as many as the shorter list has; everything else kept.
  */
  lemma OrderByLowering<E>(order: seq<Order>, sortBy: seq<E>, from: RelAnsatz, lw: Lowering<E>)
    ensures var r := NodeAnsatz(OrderBy(order, sortBy, from), lw);
      var items := LowerOrderByItems(sortBy, order, lw.lowerExpr);
      && (r.Ok? <==> items.Ok?)
      && (r.Err? ==> r.error == items.error)
      && (r.Ok? ==>
            && r.value.AsQuery?
            && r.value.query.orderBy == items.value
            && r.value.query.(orderBy := lw.toQuery(from).orderBy) == lw.toQuery(from))
  {
  }

  /** Sort keys without an order to pair with are never lowered: dropping them changes nothing. */
  lemma OrderByIgnoresUnpairedKeys<E>(order: seq<Order>, sortBy: seq<E>, from: RelAnsatz, lw: Lowering<E>)
    ensures NodeAnsatz(OrderBy(order, sortBy, from), lw)
      == NodeAnsatz(OrderBy(order, sortBy[..Min(|sortBy|, |order|)], from), lw)
  {
    assert Zip(sortBy, order) == Zip(sortBy[..Min(|sortBy|, |order|)], order);
  }

  /** `Distinct`: the lowered child as a `SELECT`, with `distinct` set and nothing else changed. */
  lemma DistinctLowering<E>(from: RelAnsatz, lw: Lowering<E>)
    ensures var r := NodeAnsatz(Distinct(from), lw);
      && r.Ok? && r.value.AsSelect? && r.value.select.distinct
      && r.value.select.(distinct := lw.toSelect(from).distinct) == lw.toSelect(from)
  {
  }

  /** `WithAlias`: never fails; the lowered child renamed by the sqlparser `with_alias` conversion. */
  lemma WithAliasLowering<E>(from: RelAnsatz, alias: string, lw: Lowering<E>)
    ensures NodeAnsatz(WithAlias(from, alias), lw) == Ok(lw.withAlias(from, alias))
  {
  }

  /** `Limit`: the query of the lowered child with the row count as its limit. */
  lemma LimitLowering<E>(numberRows: E, from: RelAnsatz, lw: Lowering<E>)
    ensures var r := NodeAnsatz(Limit(numberRows, from), lw);
      && (r.Ok? <==> lw.lowerExpr(numberRows).Ok?)
      && (r.Err? ==> r.error == lw.lowerExpr(numberRows).error)
      && (r.Ok? ==>
            && r.value.AsQuery? && r.value.query.limit == Some(lw.lowerExpr(numberRows).value)
            && r.value.query.(limit := lw.toQuery(from).limit) == lw.toQuery(from))
  {
  }

  /** `Offset`: the query of the lowered child with the offset set. */
  lemma OffsetLowering<E>(offset: E, from: RelAnsatz, lw: Lowering<E>)
    ensures var r := NodeAnsatz(Offset(offset, from), lw);
      && (r.Ok? <==> lw.lowerExpr(offset).Ok?)
      && (r.Err? ==> r.error == lw.lowerExpr(offset).error)
      && (r.Ok? ==>
            && r.value.AsQuery? && r.value.query.offset == Some(lw.lowerExpr(offset).value)
            && r.value.query.(offset := lw.toQuery(from).offset) == lw.toQuery(from))
  {
  }

  /** `Selection`: a `SELECT` wrapping the lowered child, filtered by the lowered condition. */
  lemma SelectionLowering<E>(from: RelAnsatz, filter: E, lw: Lowering<E>)
    ensures var r := NodeAnsatz(Selection(from, filter), lw);
      && (r.Ok? <==> lw.lowerExpr(filter).Ok?)
      && (r.Err? ==> r.error == lw.lowerExpr(filter).error)
      && (r.Ok? ==>
            && r.value.AsSelect? && r.value.select.selection == Some(lw.lowerExpr(filter).value)
            && r.value.select.(selection := lw.wrapped(from).selection) == lw.wrapped(from))
  {
  }

  /** `Projection`: a `SELECT` wrapping the lowered child whose select list is the lowered attributes. */
  lemma ProjectionLowering<E>(attributes: seq<E>, from: RelAnsatz, lw: Lowering<E>)
    ensures var r := NodeAnsatz(Projection(attributes, from), lw);
      && (r.Ok? <==> LowerAll(attributes, lw.lowerExpr).Ok?)
      && (r.Err? ==> r.error == LowerAll(attributes, lw.lowerExpr).error)
      && (r.Ok? ==>
            && r.value.AsSelect? && r.value.select.projection == LowerAll(attributes, lw.lowerExpr).value
            && r.value.select.(projection := lw.wrapped(from).projection) == lw.wrapped(from))
  {
  }

  /**
    `Aggregation`: as `Projection`, and the `GROUP BY` list is the lowered grouping keys; the
    attributes are lowered first, so a failing attribute wins over a failing grouping key.
  */
  lemma AggregationLowering<E>(attributes: seq<E>, groupBy: seq<E>, from: RelAnsatz, lw: Lowering<E>)
    ensures var r := NodeAnsatz(Aggregation(attributes, groupBy, from), lw);
      var p := LowerAll(attributes, lw.lowerExpr);
      var g := LowerAll(groupBy, lw.lowerExpr);
      && (r.Ok? <==> p.Ok? && g.Ok?)
      && (r.Err? ==> r.error == if p.Err? then p.error else g.error)
      && (r.Ok? ==>
            && r.value.AsSelect?
            && r.value.select.projection == p.value && r.value.select.groupBy == g.value
            && r.value.select.(projection := lw.wrapped(from).projection, groupBy := lw.wrapped(from).groupBy)
               == lw.wrapped(from))
  {
  }

  /**
    `Join`: the lowered left side as a table with joins, with exactly one join appended: the lowered
    right side under the lowered operator. The existing joins are kept in front.
  */
  lemma JoinLowering<E>(left: RelAnsatz, right: RelAnsatz, operator: JoinOperator<E>, lw: Lowering<E>)
    ensures var r := NodeAnsatz(Join(left, right, operator), lw);
      var base := lw.toTableWithJoins(left);
      var op := LowerJoinOperator(operator, lw);
      && (r.Ok? <==> op.Ok?)
      && (r.Err? ==> r.error == op.error)
      && (r.Ok? ==>
            && r.value.AsTableWithJoins?
            && r.value.tableWithJoins.relation == base.relation
            && |r.value.tableWithJoins.joins| == |base.joins| + 1
            && r.value.tableWithJoins.joins[..|base.joins|] == base.joins
            && r.value.tableWithJoins.joins[|base.joins|] == SqlJoin(lw.toTableFactor(right), op.value))
  {
  }

  /**
    A node's lowering fails exactly when one of the expressions it lowers fails, and then with that
    expression's error; the structural conversions never fail.
  */
  lemma NodeLoweringFails<E>(n: GenericRel<E, RelAnsatz>, lw: Lowering<E>)
    ensures NodeAnsatz(n, lw).Err? <==>
      exists i :: 0 <= i < |LoweredExpressions(n)| && lw.lowerExpr(LoweredExpressions(n)[i]).Err?
    ensures NodeAnsatz(n, lw).Err? ==>
      exists i :: 0 <= i < |LoweredExpressions(n)| && lw.lowerExpr(LoweredExpressions(n)[i]) == Err(NodeAnsatz(n, lw).error)
  {
    var r := NodeAnsatz(n, lw);
    var es := LoweredExpressions(n);
    match n
    case Aggregation(attributes, groupBy, from) => AggregationLoweringFails(attributes, groupBy, from, lw);
    case Join(left, right, operator) => JoinLoweringFails(left, right, operator, lw);
    case OrderBy(order, sortBy, from) =>
      assert forall i :: 0 <= i < |es| ==> es[i] == sortBy[i];
    case Projection(attributes, from) =>
      assert es == attributes;
    case Selection(from, filter) =>
      assert es == [filter];
      assert r.Err? ==> lw.lowerExpr(es[0]) == Err(r.error);
    case Limit(numberRows, from) =>
      assert es == [numberRows];
      assert r.Err? ==> lw.lowerExpr(es[0]) == Err(r.error);
    case Offset(offset, from) =>
      assert es == [offset];
      assert r.Err? ==> lw.lowerExpr(es[0]) == Err(r.error);
    case _ =>
      assert es == [];
  }

  lemma AggregationLoweringFails<E>(attributes: seq<E>, groupBy: seq<E>, from: RelAnsatz, lw: Lowering<E>)
    ensures var n := Aggregation(attributes, groupBy, from);
      && (NodeAnsatz(n, lw).Err? <==>
            exists i :: 0 <= i < |LoweredExpressions(n)| && lw.lowerExpr(LoweredExpressions(n)[i]).Err?)
      && (NodeAnsatz(n, lw).Err? ==>
            exists i :: 0 <= i < |LoweredExpressions(n)| && lw.lowerExpr(LoweredExpressions(n)[i]) == Err(NodeAnsatz(n, lw).error))
  {
    var n := Aggregation(attributes, groupBy, from);
    var es := LoweredExpressions(n);
    var p := LowerAll(attributes, lw.lowerExpr);
    var g := LowerAll(groupBy, lw.lowerExpr);
    assert es == attributes + groupBy;
    if p.Err? {
      var i :| 0 <= i < |attributes| && lw.lowerExpr(attributes[i]) == Err(p.error);
      assert es[i] == attributes[i];
    } else if g.Err? {
      var i :| 0 <= i < |groupBy| && lw.lowerExpr(groupBy[i]) == Err(g.error);
      assert es[|attributes| + i] == groupBy[i];
    } else {
      forall i | 0 <= i < |es| ensures lw.lowerExpr(es[i]).Ok? {
        if i < |attributes| {
          assert es[i] == attributes[i];
        } else {
          assert es[i] == groupBy[i - |attributes|];
        }
      }
    }
  }

  lemma JoinLoweringFails<E>(left: RelAnsatz, right: RelAnsatz, operator: JoinOperator<E>, lw: Lowering<E>)
    ensures var n := Join(left, right, operator);
      && (NodeAnsatz(n, lw).Err? <==>
            exists i :: 0 <= i < |LoweredExpressions(n)| && lw.lowerExpr(LoweredExpressions(n)[i]).Err?)
      && (NodeAnsatz(n, lw).Err? ==>
            exists i :: 0 <= i < |LoweredExpressions(n)| && lw.lowerExpr(LoweredExpressions(n)[i]) == Err(NodeAnsatz(n, lw).error))
  {
    var n := Join(left, right, operator);
    var es := LoweredExpressions(n);
    JoinLowering(left, right, operator, lw);
    if !operator.CrossJoin? && operator.constraint.On? {
      var expr := operator.constraint.expr;
      assert es == [expr];
      assert NodeAnsatz(n, lw).Err? ==> lw.lowerExpr(es[0]) == Err(NodeAnsatz(n, lw).error);
    } else {
      assert es == [];
    }
  }

  // ---------------------------------------------------------------------------------------------
  // The whole tree

  /** Every expression the lowering of the tree would lower does lower. */
  ghost predicate Lowerable<B, M>(t: RelT<B, M>, lw: Lowering<ExprT<M>>)
    decreases t
  {
    && (forall i :: 0 <= i < |LoweredExpressions(t.root)| ==> lw.lowerExpr(LoweredExpressions(t.root)[i]).Ok?)
    && forall i :: 0 <= i < |Children(t.root)| ==> Lowerable(Children(t.root)[i], lw)
  }

  /** The children's lowerings succeeded and the node keeps the expressions the source node lowers. */
  lemma LoweredNode<B, M>(t: RelT<B, M>, lw: Lowering<ExprT<M>>, children: GenericRel<ExprT<M>, RelAnsatz>)
    requires IntoResult(LowerChildren(t, lw)) == Ok(children)
    ensures LoweredExpressions(children) == LoweredExpressions(t.root)
    ensures forall i :: 0 <= i < |Children(t.root)| ==> ToAnsatz(Children(t.root)[i], lw).Ok?
  {
    var lowered := LowerChildren(t, lw);
    SameShapeTransitive(t.root, lowered, children);
    LoweredExpressionsAgree(t.root, children);
    forall i | 0 <= i < |Children(t.root)| ensures ToAnsatz(Children(t.root)[i], lw).Ok? {
      assert Children(lowered)[i] in Children(lowered);
    }
  }

  /**
    Lowering fails only when an expression fails to lower: the tree lowers exactly when every
    expression any node's lowering reaches lowers, whatever the boards say.
  */
  lemma {:induction false} LoweringSucceedsIff<B, M>(t: RelT<B, M>, lw: Lowering<ExprT<M>>)
    ensures ToAnsatz(t, lw).Ok? <==> Lowerable(t, lw)
    decreases t
  {
    var lowered := LowerChildren(t, lw);
    forall i | 0 <= i < |Children(t.root)|
      ensures ToAnsatz(Children(t.root)[i], lw).Ok? <==> Lowerable(Children(t.root)[i], lw)
    {
      ChildIsField(t.root, Children(t.root)[i]);
      LoweringSucceedsIff(Children(t.root)[i], lw);
    }
    if IntoResult(lowered).Ok? {
      var children := IntoResult(lowered).value;
      LoweredNode(t, lw, children);
      NodeLoweringFails(children, lw);
    } else {
      var c := FailingChild(t, lw);
      var i :| 0 <= i < |Children(t.root)| && Children(t.root)[i] == c;
    }
  }

  /** A lowering error is the error of an expression in some node of the tree. */
  lemma {:induction false} LoweringErrorOrigin<B, M>(t: RelT<B, M>, lw: Lowering<ExprT<M>>)
    requires ToAnsatz(t, lw).Err?
    ensures exists d, i ::
      && Within(d, t) && 0 <= i < |LoweredExpressions(d.root)|
      && lw.lowerExpr(LoweredExpressions(d.root)[i]) == Err(ToAnsatz(t, lw).error)
    decreases t
  {
    var e := ToAnsatz(t, lw).error;
    var lowered := LowerChildren(t, lw);
    if IntoResult(lowered).Ok? {
      var children := IntoResult(lowered).value;
      LoweredNode(t, lw, children);
      NodeLoweringFails(children, lw);
      var i :| 0 <= i < |LoweredExpressions(t.root)| && lw.lowerExpr(LoweredExpressions(t.root)[i]) == Err(e);
      assert Within(t, t);
    } else {
      var c := FailingChild(t, lw);
      LoweringErrorOrigin(c, lw);
      var d :| Within(d, c) && exists i ::
        0 <= i < |LoweredExpressions(d.root)| && lw.lowerExpr(LoweredExpressions(d.root)[i]) == Err(e);
      WithinChild(d, c, t);
    }
  }

  /** When the children's lowerings fail, the tree's error is a child's error. */
  lemma FailingChild<B, M>(t: RelT<B, M>, lw: Lowering<ExprT<M>>) returns (c: RelT<B, M>)
    requires IntoResult(LowerChildren(t, lw)).Err?
    ensures c in Children(t.root) && c < t
    ensures ToAnsatz(c, lw) == Err(ToAnsatz(t, lw).error)
  {
    var lowered := LowerChildren(t, lw);
    var k :| 0 <= k < |Children(lowered)| && Children(lowered)[k] == Err(IntoResult(lowered).error);
    c := Children(t.root)[k];
    ChildIsField(t.root, c);
  }

  /** Same operators, fields and expressions at every node: the trees differ at most in their boards. */
  ghost predicate SameExceptBoards<B1, B2, M>(a: RelT<B1, M>, b: RelT<B2, M>)
    decreases a
  {
    && SameShape(a.root, b.root)
    && Expressions(a.root) == Expressions(b.root)
    && |Children(a.root)| == |Children(b.root)|
    && forall i :: 0 <= i < |Children(a.root)| ==> SameExceptBoards(Children(a.root)[i], Children(b.root)[i])
  }

  /**
    Lowering never reads a board: trees that differ only in their boards (even in the type of their
    relation metadata) lower identically, valid or not.
  */
  lemma {:induction false} LoweringIgnoresBoards<B1, B2, M>(a: RelT<B1, M>, b: RelT<B2, M>, lw: Lowering<ExprT<M>>)
    requires SameExceptBoards(a, b)
    ensures ToAnsatz(a, lw) == ToAnsatz(b, lw)
    decreases a
  {
    var la := LowerChildren(a, lw);
    var lb := LowerChildren(b, lw);
    forall i | 0 <= i < |Children(a.root)| ensures Children(la)[i] == Children(lb)[i] {
      ChildIsField(a.root, Children(a.root)[i]);
      LoweringIgnoresBoards(Children(a.root)[i], Children(b.root)[i], lw);
    }
    SameShapeSymmetric(a.root, la);
    SameShapeTransitive(la, a.root, b.root);
    SameShapeTransitive(la, b.root, lb);
    ShapeDetermines(la, lb);
  }

  /**
    A projection of a table lowers to a `SELECT` over the table reference, named by the key
    reversed, whose select list is the lowered attributes.
  */
  lemma ProjectionOfTable<B, M>(
    attributes: seq<ExprT<M>>, key: ContextKey, leafBoard: ValidateResult<B>, board: ValidateResult<B>,
    lw: Lowering<ExprT<M>>)
    requires forall i :: 0 <= i < |attributes| ==> lw.lowerExpr(attributes[i]).Ok?
    ensures var r := ToAnsatz(RelT(Projection(attributes, RelT(Table(key), leafBoard)), board), lw);
      var table := AsTableFactor(TableRef(Reverse(key.segments), None, [], []));
      && r.Ok? && r.value.AsSelect?
      && r.value.select.(projection := []) == lw.wrapped(table).(projection := [])
      && |r.value.select.projection| == |attributes|
      && forall i :: 0 <= i < |attributes| ==> lw.lowerExpr(attributes[i]) == Ok(r.value.select.projection[i])
  {
    var leaf := RelT(Table(key), leafBoard);
    var t := RelT(Projection(attributes, leaf), board);
    var table := AsTableFactor(TableRef(Reverse(key.segments), None, [], []));
    assert ToAnsatz(leaf, lw) == Ok(table) by {
      assert LowerChildren(leaf, lw) == Table(key);
    }
    assert LowerChildren(t, lw) == Projection(attributes, Ok(table));
  }
}
