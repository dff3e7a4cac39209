/**
  The relational-algebra node `GenericRel<Expr, Child>` of worker/src/opt/rel.rs: a closed sum of
  ten operators plus the `Table` leaf, generic in the type of the expressions it carries and in the
  type of its children, with its structural combinators.

  Every combinator is specified through three projections of a node that are defined once here:
  `Children` (the child slots, in field order), `Expressions` (the expression slots, in field order)
  and `SameShape` (same operator, same non-expression and non-child fields, expression lists of the
  same lengths). `ShapeDetermines` proves that the three together pin a node down completely, so a
  contract written with them says everything about the result.
*/
module Rel {
  import opened Wrappers

  /** A hierarchical column or table key; the least significant segment comes first. */
  datatype ContextKey = ContextKey(segments: seq<string>)

  datatype Order = Asc | Desc

  datatype SetOperator = Union | Except | Intersect

  datatype JoinConstraint<E> = On(expr: E) | Using(keys: seq<ContextKey>) | Natural

  datatype JoinOperator<E> =
    | Inner(constraint: JoinConstraint<E>)
    | LeftOuter(constraint: JoinConstraint<E>)
    | RightOuter(constraint: JoinConstraint<E>)
    | FullOuter(constraint: JoinConstraint<E>)
    | CrossJoin

  datatype GenericRel<E, C> =
    | Aggregation(attributes: seq<E>, groupBy: seq<E>, from: C)
    | Projection(attributes: seq<E>, from: C)
    | Selection(from: C, filter: E)
    | Join(left: C, right: C, operator: JoinOperator<E>)
    | Set(op: SetOperator, left: C, right: C)
    | Offset(offset: E, from: C)
    | Limit(numberRows: E, from: C)
    | OrderBy(order: seq<Order>, sortBy: seq<E>, from: C)
    | Distinct(from: C)
    | WithAlias(from: C, alias: string)
    | Table(key: ContextKey)

  // ---------------------------------------------------------------------------------------------
  // Sequence helpers: element-wise map, and `collect::<Result<Vec<_>, _>>()`

  function Apply<A, B>(s: seq<A>, f: A --> B): (r: seq<B>)
    requires forall x :: x in s ==> f.requires(x)
    ensures |r| == |s| && forall i :: 0 <= i < |s| ==> r[i] == f(s[i])
  {
    seq(|s|, i requires 0 <= i < |s| => f(s[i]))
  }

  ghost predicate AllOk<V, Er>(s: seq<Result<V, Er>>) {
    forall x :: x in s ==> x.Ok?
  }

  /** `vs` is `rs` with every `Ok` unwrapped. */
  ghost predicate Unwraps<V, Er>(vs: seq<V>, rs: seq<Result<V, Er>>) {
    |vs| == |rs| && forall i :: 0 <= i < |rs| ==> rs[i] == Ok(vs[i])
  }

  /** Collecting an iterator of results into a result of a vector: the first error wins. */
  function Collect<V, Er>(s: seq<Result<V, Er>>): (r: Result<seq<V>, Er>)
    ensures r.Ok? <==> AllOk(s)
    ensures r.Ok? ==> Unwraps(r.value, s)
    ensures r.Err? ==> exists i :: 0 <= i < |s| && s[i] == Err(r.error) && AllOk(s[..i])
  {
    if s == [] then Ok([])
    else if s[0].Err? then
      assert AllOk(s[..0]);
      Err(s[0].error)
    else
      var rest := Collect(s[1..]);
      if rest.Err? then
        ghost var i :| 0 <= i < |s[1..]| && s[1..][i] == Err(rest.error) && AllOk(s[1..][..i]);
        assert s[..i + 1] == [s[0]] + s[1..][..i];
        Err(rest.error)
      else
        Ok([s[0].value] + rest.value)
  }

  /** A `Collect` that meets an error after a run of successes returns that error. */
  lemma {:induction false} CollectStopsAt<V, Er>(s: seq<Result<V, Er>>, i: nat)
    requires i < |s| && AllOk(s[..i]) && s[i].Err?
    ensures Collect(s) == Err(s[i].error)
    decreases i
  {
    if i > 0 {
      assert s[0] in s[..i];
      assert s[1..][..i - 1] == s[1..i];
      assert forall x :: x in s[1..i] ==> x in s[..i];
      CollectStopsAt(s[1..], i - 1);
    }
  }

  /** A `Collect` of successes returns their values. */
  lemma CollectAllOk<V, Er>(s: seq<Result<V, Er>>, vs: seq<V>)
    requires Unwraps(vs, s)
    ensures Collect(s) == Ok(vs)
  {
    var r := Collect(s);
    assert AllOk(s) by {
      forall x | x in s ensures x.Ok? {
        var k :| 0 <= k < |s| && s[k] == x;
      }
    }
    assert r.value == vs;
  }

  /** `Collect` by position: it succeeds exactly when every entry does, and fails with the first failure. */
  lemma CollectByIndex<V, Er>(s: seq<Result<V, Er>>)
    ensures Collect(s).Ok? <==> forall i :: 0 <= i < |s| ==> s[i].Ok?
    ensures Collect(s).Err? ==>
      exists i :: 0 <= i < |s| && s[i] == Err(Collect(s).error) && forall j :: 0 <= j < i ==> s[j].Ok?
  {
    if forall i :: 0 <= i < |s| ==> s[i].Ok? {
      forall x | x in s ensures x.Ok? {
        var k :| 0 <= k < |s| && s[k] == x;
      }
    } else {
      var k :| 0 <= k < |s| && s[k].Err?;
      assert s[k] in s;
      var r := Collect(s);
      var i :| 0 <= i < |s| && s[i] == Err(r.error) && AllOk(s[..i]);
      forall j | 0 <= j < i ensures s[j].Ok? {
        assert s[..i][j] in s[..i];
      }
    }
  }

  /** Collecting two lists in turn fails with the first failure of their concatenation. */
  lemma ConcatFirstError<V, Er>(a: seq<Result<V, Er>>, g: seq<Result<V, Er>>)
    ensures Collect(a).Err? ==>
      exists i :: 0 <= i < |a + g| && (a + g)[i] == Err(Collect(a).error)
        && forall j :: 0 <= j < i ==> (a + g)[j].Ok?
    ensures Collect(a).Ok? && Collect(g).Err? ==>
      exists i :: 0 <= i < |a + g| && (a + g)[i] == Err(Collect(g).error)
        && forall j :: 0 <= j < i ==> (a + g)[j].Ok?
  {
    CollectByIndex(a);
    CollectByIndex(g);
    if Collect(a).Err? {
      var i :| 0 <= i < |a| && a[i] == Err(Collect(a).error) && forall j :: 0 <= j < i ==> a[j].Ok?;
      assert (a + g)[i] == a[i];
    } else if Collect(g).Err? {
      var i :| 0 <= i < |g| && g[i] == Err(Collect(g).error) && forall j :: 0 <= j < i ==> g[j].Ok?;
      assert (a + g)[|a| + i] == g[i];
      forall j | 0 <= j < |a| + i ensures (a + g)[j].Ok? {
        if j >= |a| {
          assert (a + g)[j] == g[j - |a|];
        }
      }
    }
  }

  // ---------------------------------------------------------------------------------------------
  // Join constraints and operators

  function ConstraintExpressions<E>(c: JoinConstraint<E>): seq<E> {
    if c.On? then [c.expr] else []
  }

  function OperatorExpressions<E>(op: JoinOperator<E>): seq<E> {
    if op.CrossJoin? then [] else ConstraintExpressions(op.constraint)
  }

  /** Same constructor and the same `Using` keys. */
  predicate SameConstraintShape<E1, E2>(a: JoinConstraint<E1>, b: JoinConstraint<E2>) {
    match a
    case On(_) => b.On?
    case Using(keys) => b.Using? && b.keys == keys
    case Natural => b.Natural?
  }

  predicate SameOperatorShape<E1, E2>(a: JoinOperator<E1>, b: JoinOperator<E2>) {
    match a
    case Inner(c) => b.Inner? && SameConstraintShape(c, b.constraint)
    case LeftOuter(c) => b.LeftOuter? && SameConstraintShape(c, b.constraint)
    case RightOuter(c) => b.RightOuter? && SameConstraintShape(c, b.constraint)
    case FullOuter(c) => b.FullOuter? && SameConstraintShape(c, b.constraint)
    case CrossJoin => b.CrossJoin?
  }

  /** `JoinConstraint::map_expressions` and its async twin: only the `On` expression is rewritten. */
  function MapConstraintExpressions<E, O>(c: JoinConstraint<E>, f: E --> O): (r: JoinConstraint<O>)
    requires forall e :: e in ConstraintExpressions(c) ==> f.requires(e)
    ensures SameConstraintShape(c, r)
    ensures ConstraintExpressions(r) == Apply(ConstraintExpressions(c), f)
  {
    match c
    case On(e) => On(f(e))
    case Using(keys) => Using(keys)
    case Natural => Natural
  }

  /** `JoinOperator::map_expressions` and its async twin. */
  function MapOperatorExpressions<E, O>(op: JoinOperator<E>, f: E --> O): (r: JoinOperator<O>)
    requires forall e :: e in OperatorExpressions(op) ==> f.requires(e)
    ensures SameOperatorShape(op, r)
    ensures OperatorExpressions(r) == Apply(OperatorExpressions(op), f)
  {
    match op
    case Inner(c) => Inner(MapConstraintExpressions(c, f))
    case LeftOuter(c) => LeftOuter(MapConstraintExpressions(c, f))
    case RightOuter(c) => RightOuter(MapConstraintExpressions(c, f))
    case FullOuter(c) => FullOuter(MapConstraintExpressions(c, f))
    case CrossJoin => CrossJoin
  }

  /** `JoinConstraint::into_result_expressions`: only an `On` can fail. */
  function ConstraintIntoResult<V, Er>(c: JoinConstraint<Result<V, Er>>): (r: Result<JoinConstraint<V>, Er>)
    ensures r.Ok? <==> AllOk(ConstraintExpressions(c))
    ensures r.Ok? ==> SameConstraintShape(c, r.value) && Unwraps(ConstraintExpressions(r.value), ConstraintExpressions(c))
    ensures r.Err? ==> c.On? && c.expr == Err(r.error)
  {
    match c
    case On(e) => if e.Err? then Err(e.error) else Ok(On(e.value))
    case Using(keys) => Ok(Using(keys))
    case Natural => Ok(Natural)
  }

  /** `JoinOperator::into_result_expressions`: a `CrossJoin` never fails. */
  function OperatorIntoResult<V, Er>(op: JoinOperator<Result<V, Er>>): (r: Result<JoinOperator<V>, Er>)
    ensures r.Ok? <==> AllOk(OperatorExpressions(op))
    ensures r.Ok? ==> SameOperatorShape(op, r.value) && Unwraps(OperatorExpressions(r.value), OperatorExpressions(op))
    ensures r.Err? ==> Err(r.error) in OperatorExpressions(op)
  {
    match op
    case Inner(c) => var c' :- ConstraintIntoResult(c); Ok(Inner(c'))
    case LeftOuter(c) => var c' :- ConstraintIntoResult(c); Ok(LeftOuter(c'))
    case RightOuter(c) => var c' :- ConstraintIntoResult(c); Ok(RightOuter(c'))
    case FullOuter(c) => var c' :- ConstraintIntoResult(c); Ok(FullOuter(c'))
    case CrossJoin => Ok(CrossJoin)
  }

  // ---------------------------------------------------------------------------------------------
  // Projections of a node

  /** The child slots, in field order. */
  function Children<E, C>(n: GenericRel<E, C>): seq<C> {
    match n
    case Aggregation(_, _, from) => [from]
    case Projection(_, from) => [from]
    case Selection(from, _) => [from]
    case Join(left, right, _) => [left, right]
    case Set(_, left, right) => [left, right]
    case Offset(_, from) => [from]
    case Limit(_, from) => [from]
    case OrderBy(_, _, from) => [from]
    case Distinct(from) => [from]
    case WithAlias(from, _) => [from]
    case Table(_) => []
  }

  /** A child is the node's `left` or `right` (binary nodes) or its `from` (unary nodes). */
  lemma ChildIsField<E, C>(n: GenericRel<E, C>, c: C)
    requires c in Children(n)
    ensures if n.Join? || n.Set? then c == n.left || c == n.right else !n.Table? && c == n.from
  {
  }

  /** The expression slots, in field order. */
  function Expressions<E, C>(n: GenericRel<E, C>): seq<E> {
    match n
    case Aggregation(attributes, groupBy, _) => attributes + groupBy
    case Projection(attributes, _) => attributes
    case Selection(_, filter) => [filter]
    case Join(_, _, operator) => OperatorExpressions(operator)
    case Set(_, _, _) => []
    case Offset(offset, _) => [offset]
    case Limit(numberRows, _) => [numberRows]
    case OrderBy(_, sortBy, _) => sortBy
    case Distinct(_) => []
    case WithAlias(_, _) => []
    case Table(_) => []
  }

  /**
    Same operator, same `order` list, set operator, alias, table key and join shape, and expression
    lists of the same lengths: everything but the contents of the child and expression slots.
  */
  predicate SameShape<E1, C1, E2, C2>(a: GenericRel<E1, C1>, b: GenericRel<E2, C2>) {
    match a
    case Aggregation(attributes, groupBy, _) =>
      b.Aggregation? && |b.attributes| == |attributes| && |b.groupBy| == |groupBy|
    case Projection(attributes, _) => b.Projection? && |b.attributes| == |attributes|
    case Selection(_, _) => b.Selection?
    case Join(_, _, operator) => b.Join? && SameOperatorShape(operator, b.operator)
    case Set(op, _, _) => b.Set? && b.op == op
    case Offset(_, _) => b.Offset?
    case Limit(_, _) => b.Limit?
    case OrderBy(order, sortBy, _) => b.OrderBy? && b.order == order && |b.sortBy| == |sortBy|
    case Distinct(_) => b.Distinct?
    case WithAlias(_, alias) => b.WithAlias? && b.alias == alias
    case Table(key) => b.Table? && b.key == key
  }

  lemma SameShapeSymmetric<E1, C1, E2, C2>(a: GenericRel<E1, C1>, b: GenericRel<E2, C2>)
    requires SameShape(a, b)
    ensures SameShape(b, a)
  {
  }

  lemma SameShapeTransitive<E1, C1, E2, C2, E3, C3>(
    a: GenericRel<E1, C1>, b: GenericRel<E2, C2>, c: GenericRel<E3, C3>)
    requires SameShape(a, b) && SameShape(b, c)
    ensures SameShape(a, c)
  {
  }

  // ---------------------------------------------------------------------------------------------
  // Structural combinators

  /**
    `map_async` (and the derived synchronous `map`), awaited in field order: every child slot is
    replaced by its image under `f`; every expression and every other field is kept.
  */
  function MapChildren<E, C, CC>(n: GenericRel<E, C>, f: C --> CC): (r: GenericRel<E, CC>)
    requires forall c :: c in Children(n) ==> f.requires(c)
    ensures SameShape(n, r)
    ensures Expressions(r) == Expressions(n)
    ensures Children(r) == Apply(Children(n), f)
  {
    match n
    case Aggregation(attributes, groupBy, from) => Aggregation(attributes, groupBy, f(from))
    case Projection(attributes, from) => Projection(attributes, f(from))
    case Selection(from, filter) => Selection(f(from), filter)
    case Join(left, right, operator) => Join(f(left), f(right), operator)
    case Set(op, left, right) => Set(op, f(left), f(right))
    case Offset(offset, from) => Offset(offset, f(from))
    case Limit(numberRows, from) => Limit(numberRows, f(from))
    case OrderBy(order, sortBy, from) => OrderBy(order, sortBy, f(from))
    case Distinct(from) => Distinct(f(from))
    case WithAlias(from, alias) => WithAlias(f(from), alias)
    case Table(key) => Table(key)
  }

  /**
    `map_expressions` and `map_expressions_async` (whose `join_all` keeps positions): every
    expression slot is replaced by its image under `f`; every child and every other field is kept.
  */
  function MapExpressions<E, C, O>(n: GenericRel<E, C>, f: E --> O): (r: GenericRel<O, C>)
    requires forall e :: e in Expressions(n) ==> f.requires(e)
    ensures SameShape(n, r)
    ensures Children(r) == Children(n)
    ensures Expressions(r) == Apply(Expressions(n), f)
  {
    match n
    case Aggregation(attributes, groupBy, from) =>
      Aggregation(Apply(attributes, f), Apply(groupBy, f), from)
    case Projection(attributes, from) => Projection(Apply(attributes, f), from)
    case Selection(from, filter) => Selection(from, f(filter))
    case Join(left, right, operator) => Join(left, right, MapOperatorExpressions(operator, f))
    case Set(op, left, right) => Set(op, left, right)
    case Offset(offset, from) => Offset(f(offset), from)
    case Limit(numberRows, from) => Limit(f(numberRows), from)
    case OrderBy(order, sortBy, from) => OrderBy(order, Apply(sortBy, f), from)
    case Distinct(from) => Distinct(from)
    case WithAlias(from, alias) => WithAlias(from, alias)
    case Table(key) => Table(key)
  }

  /**
    `into_result_expressions`: a node whose expression slots hold results becomes `Ok` of the node of
    unwrapped values exactly when every expression is `Ok`; otherwise it is the error of the
    first failing expression in field order (attributes before `group_by`).
  */
  function IntoResultExpressions<V, Er, C>(n: GenericRel<Result<V, Er>, C>): (r: Result<GenericRel<V, C>, Er>)
    ensures r.Ok? <==> AllOk(Expressions(n))
    ensures r.Ok? ==> SameShape(n, r.value) && Children(r.value) == Children(n)
    ensures r.Ok? ==> Unwraps(Expressions(r.value), Expressions(n))
    ensures r.Err? ==>
      exists i :: 0 <= i < |Expressions(n)| && Expressions(n)[i] == Err(r.error)
        && forall j :: 0 <= j < i ==> Expressions(n)[j].Ok?
  {
    match n
    case Aggregation(attributes, groupBy, from) =>
      ConcatFirstError(attributes, groupBy);
      var a :- Collect(attributes);
      var g :- Collect(groupBy);
      Ok(Aggregation(a, g, from))
    case Projection(attributes, from) =>
      CollectByIndex(attributes);
      var a :- Collect(attributes);
      Ok(Projection(a, from))
    case Selection(from, filter) =>
      var w :- filter;
      Ok(Selection(from, w))
    case Join(left, right, operator) =>
      var op :- OperatorIntoResult(operator);
      Ok(Join(left, right, op))
    case Set(op, left, right) => Ok(Set(op, left, right))
    case Offset(offset, from) =>
      var o :- offset;
      Ok(Offset(o, from))
    case Limit(numberRows, from) =>
      var k :- numberRows;
      Ok(Limit(k, from))
    case OrderBy(order, sortBy, from) =>
      CollectByIndex(sortBy);
      var b :- Collect(sortBy);
      Ok(OrderBy(order, b, from))
    case Distinct(from) => Ok(Distinct(from))
    case WithAlias(from, alias) => Ok(WithAlias(from, alias))
    case Table(key) => Ok(Table(key))
  }

  /**
    The derived `into_result` over the child slots: `Ok` of the node of unwrapped children exactly
    when every child is `Ok`; otherwise one of the children's errors (which one is not promised).
  */
  function IntoResult<E, V, Er>(n: GenericRel<E, Result<V, Er>>): (r: Result<GenericRel<E, V>, Er>)
    ensures r.Ok? <==> AllOk(Children(n))
    ensures r.Ok? ==> SameShape(n, r.value) && Expressions(r.value) == Expressions(n)
    ensures r.Ok? ==> Unwraps(Children(r.value), Children(n))
    ensures r.Err? ==> Err(r.error) in Children(n)
  {
    match n
    case Aggregation(attributes, groupBy, from) =>
      var c :- from;
      Ok(Aggregation(attributes, groupBy, c))
    case Projection(attributes, from) =>
      var c :- from;
      Ok(Projection(attributes, c))
    case Selection(from, filter) =>
      var c :- from;
      Ok(Selection(c, filter))
    case Join(left, right, operator) =>
      var l :- left;
      var r :- right;
      Ok(Join(l, r, operator))
    case Set(op, left, right) =>
      var l :- left;
      var r :- right;
      Ok(Set(op, l, r))
    case Offset(offset, from) =>
      var c :- from;
      Ok(Offset(offset, c))
    case Limit(numberRows, from) =>
      var c :- from;
      Ok(Limit(numberRows, c))
    case OrderBy(order, sortBy, from) =>
      var c :- from;
      Ok(OrderBy(order, sortBy, c))
    case Distinct(from) =>
      var c :- from;
      Ok(Distinct(c))
    case WithAlias(from, alias) =>
      var c :- from;
      Ok(WithAlias(c, alias))
    case Table(key) => Ok(Table(key))
  }

  // ---------------------------------------------------------------------------------------------
  // Laws

  /** The shape, the children and the expressions of a node determine the node. */
  lemma ShapeDetermines<E, C>(a: GenericRel<E, C>, b: GenericRel<E, C>)
    requires SameShape(a, b)
    requires Children(a) == Children(b) && Expressions(a) == Expressions(b)
    ensures a == b
  {
    match a
    case Aggregation(attributes, groupBy, _) =>
      assert attributes == Expressions(a)[..|attributes|] == Expressions(b)[..|attributes|] == b.attributes;
      assert groupBy == Expressions(a)[|attributes|..] == Expressions(b)[|attributes|..] == b.groupBy;
    case Join(_, _, operator) =>
      assert [a.left, a.right] == [b.left, b.right];
      if !operator.CrossJoin? && operator.constraint.On? {
        assert [operator.constraint.expr] == [b.operator.constraint.expr];
      }
    case Set(_, _, _) =>
      assert [a.left, a.right] == [b.left, b.right];
    case Selection(_, _) =>
      assert [a.filter] == [b.filter];
    case Offset(_, _) =>
      assert [a.offset] == [b.offset];
    case Limit(_, _) =>
      assert [a.numberRows] == [b.numberRows];
    case Table(_) =>
    case _ =>
      assert [a.from] == [b.from];
  }

  /**
    The operators that carry no expression (`Set`, `Distinct`, `WithAlias`, `Table`, and a `Join`
    whose operator is a `CrossJoin` or whose constraint is `Using` or `Natural`) can never fail to
    collapse, and collapse to themselves.
  */
  lemma NoExpressionsNeverFails<V, Er, C>(n: GenericRel<Result<V, Er>, C>)
    requires
      || n.Set? || n.Distinct? || n.WithAlias? || n.Table?
      || (n.Join? && (n.operator.CrossJoin? || n.operator.constraint.Using? || n.operator.constraint.Natural?))
    ensures IntoResultExpressions(n).Ok?
    ensures SameShape(n, IntoResultExpressions(n).value)
    ensures Children(IntoResultExpressions(n).value) == Children(n)
    ensures Expressions(IntoResultExpressions(n).value) == []
  {
    assert Expressions(n) == [];
  }

  /** Mapping the identity over the expressions gives the node back. */
  lemma MapExpressionsIdentity<E, C>(n: GenericRel<E, C>)
    ensures MapExpressions(n, (e: E) => e) == n
  {
    var r := MapExpressions(n, (e: E) => e);
    assert Expressions(r) == Expressions(n);
    ShapeDetermines(r, n);
  }

  /** Two expression maps in a row are one map of the composition. */
  lemma MapExpressionsCompose<E, C, O, P>(n: GenericRel<E, C>, f: E -> O, g: O -> P)
    ensures MapExpressions(MapExpressions(n, f), g) == MapExpressions(n, (e: E) => g(f(e)))
  {
    var a := MapExpressions(MapExpressions(n, f), g);
    var b := MapExpressions(n, (e: E) => g(f(e)));
    assert Expressions(a) == Expressions(b);
    ShapeDetermines(a, b);
  }

  /** Two child maps in a row are one map of the composition. */
  lemma MapChildrenCompose<E, C, CC, CCC>(n: GenericRel<E, C>, f: C -> CC, g: CC -> CCC)
    ensures MapChildren(MapChildren(n, f), g) == MapChildren(n, (c: C) => g(f(c)))
  {
    var a := MapChildren(MapChildren(n, f), g);
    var b := MapChildren(n, (c: C) => g(f(c)));
    assert Children(a) == Children(b);
    ShapeDetermines(a, b);
  }

  /** A child map and an expression map touch disjoint slots, so they commute. */
  lemma MapsCommute<E, C, O, CC>(n: GenericRel<E, C>, f: E -> O, g: C -> CC)
    ensures MapChildren(MapExpressions(n, f), g) == MapExpressions(MapChildren(n, g), f)
  {
    var a := MapChildren(MapExpressions(n, f), g);
    var b := MapExpressions(MapChildren(n, g), f);
    ShapeDetermines(a, b);
  }
}
