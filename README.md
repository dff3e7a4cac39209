# Relation trees of the query optimiser, in Dafny

This project models the relational algebra at the heart of the worker's query optimiser
(`worker/src/opt/rel.rs`) and proves properties of it.

- **`GenericRel` (module `Rel`, `rel.dfy`).** The node type is generic in its expressions `E` and
  its children `C`, and has eleven operators: `Aggregation`, `Projection`, `Selection`, `Join`,
  `Set`, `Offset`, `Limit`, `OrderBy`, `Distinct`, `WithAlias` and `Table`. The join operators and
  constraints are part of it.
- **Structural combinators.** These are `map` over children (`MapChildren`), `map_expressions`
  (`MapExpressions`) and the two ways of collapsing a node of results into a result of a node
  (`IntoResultExpressions` and `IntoResult`). Each is specified by the node's shape, its children
  and its expressions, which are lists read off the node in field order.
- **`RelT` (module `Tree`, `tree.dfy`).** A relation tree pairs a node with a *board*, the node's
  validation outcome. `FromWrapped` derives the board bottom-up:
  - an error on a child's board wins;
  - otherwise an error on an expression's board wins;
  - otherwise the representation's fold rule (`dot`) decides.

  `Derived`, `DerivedAbove` and `ErrorReachesRoot` state what a tree built this way guarantees.
- **`TableMeta` (module `Meta`, `meta.dfy`).** This is the concrete relation representation. Its
  fold rule `TableMeta::dot` is written twice: as the specification function `TableMetaDot`, and
  as the imperative method `Dot`, which is built from the loops of the source (`CollectLocations`,
  `CollectProvenances`, `CollectAudiences` and `IntersectAudiences`). Each method is proved equal
  to the function. The same holds for `to_inner_context`.
- **The rebase protocol (module `Rebase`, `rebase.dfy`).**
  - `RebaseTree` tries a rule at each node. Where the rule declines, it recurses into the children,
    rebases the node's expressions in the context inherited from the rebased children, and
    re-derives the board.
  - `ClosureRebaseAt` and `ContextRebaseAt` are the two rules of the source. Both replace exactly
    the `Table` leaves.
  - The lemmas show five things: the rebased tree keeps its skeleton; every interior board is
    re-derived; a failed catalog lookup reaches the root; a failure on one side of a join is not
    masked by the other side; and rebasing against a context that holds every leaf's own metadata
    gives back the same tree.
- **The lowering to SQL (module `Ansatz`, `ansatz.dfy`).**
  - `NodeAnsatz` is the per-operator rule of the `to_ansatz!` block. `LowerNode` is its
    imperative form, with the `let mut out` updates and the collecting loops, and is proved equal
    to it.
  - `ToAnsatz` folds the rule over a tree.
  - Lemmas give each operator's output, show when lowering fails and where its error comes from,
    and show that boards play no part.

Parts of the system that the core only calls are parameters bundled in small datatypes:
- `Meta.ContextOps`: `Context::dot`, `Context::extend` and `ContextKey::common`.
- `Rebase.RebaseEnv`: `to_inner_context`, the expression rebase, and the representation's `dot`.
- `Rebase.Catalog`: `Context::get` and `into_table_error`.
- `Ansatz.Lowering`: the sqlparser conversions `into()`, `wrapped()` and `with_alias()`,
  `ContextKey::name`, and the lowering of an expression tree.

Three behaviours of the code are easy to misread:
- **Projection audience.** The audience of a projection is the *intersection* of its attributes'
  audiences, as `dot` computes it (rel.rs:809-828). It is not a union. `Meta.AudienceNarrows`
  states it.
- **Boards and lowering.** Lowering a tree to SQL never reads the boards, so an invalid tree is
  lowered as readily as a valid one. `Ansatz.LoweringIgnoresBoards` states it.
- **Unpaired sort keys.** `OrderBy` pairs sort keys with orders by `zip`, so sort keys beyond the
  `order` list are dropped without an error. `Ansatz.OrderByIgnoresUnpairedKeys` states it.

## Model

| member | source | states |
|---|---|---|
| Rel.Collect | worker/src/opt/rel.rs:492-546 | `collect::<Result<Vec<_>,_>>`: the result is `Ok` iff every element is `Ok`, then unwraps each element in order; otherwise it is the first `Err` |
| Rel.CollectStopsAt | worker/src/opt/rel.rs:492-546 | collecting stops at the first error: if all elements before `i` are `Ok` and element `i` is `Err`, the result is that error |
| Rel.CollectAllOk | worker/src/opt/rel.rs:492-546 | collecting a sequence of `Ok`s yields exactly the unwrapped values |
| Rel.CollectByIndex | worker/src/opt/rel.rs:492-546 | index form of `Collect`: `Ok` iff every position is `Ok`; an `Err` comes from a position with only `Ok`s before it |
| Rel.MapConstraintExpressions | worker/src/opt/rel.rs:18-37 | `JoinConstraint::map_expressions(_async)`: the constructor and `Using` keys are kept; the `On` expression is replaced by `f` of it |
| Rel.MapOperatorExpressions | worker/src/opt/rel.rs:113-142 | `JoinOperator::map_expressions(_async)`: the operator variant and constraint shape are kept; the expression list is `f` applied to each |
| Rel.ConstraintIntoResult | worker/src/opt/rel.rs:39-48 | `JoinConstraint::into_result_expressions`: `Ok` iff the `On` expression (if any) is `Ok`, then the same shape with it unwrapped; an `Err` is the `On` expression's |
| Rel.OperatorIntoResult | worker/src/opt/rel.rs:94-111 | `JoinOperator::into_result_expressions`: `Ok` iff all its expressions are `Ok`, with the same shape and unwrapped expressions; an `Err` is one of its expressions' |
| Rel.ChildIsField | worker/src/opt/rel.rs:159-209 | a child of a node is its `left` or `right` (`Join`, `Set`) or its `from` (every other non-`Table` operator) |
| Rel.SameShapeSymmetric | worker/src/opt/rel.rs:159-209 | having the same shape is symmetric |
| Rel.SameShapeTransitive | worker/src/opt/rel.rs:159-209 | having the same shape is transitive |
| Rel.MapChildren | worker/src/opt/rel.rs:320-375 | `map_async`: same shape, same expressions, children are `f` of the old children in order |
| Rel.MapExpressions | worker/src/opt/rel.rs:376-489 | `map_expressions(_async)`: same shape, same children, expressions are `f` of the old expressions in order (join expressions included) |
| Rel.IntoResultExpressions | worker/src/opt/rel.rs:492-546 | `into_result_expressions`: `Ok` iff every expression is `Ok`, with the same shape and children and the expressions unwrapped; an `Err` is the first failing expression's error in field order (attributes before `group_by`) |
| Rel.ConcatFirstError | worker/src/opt/rel.rs:496-499 | collecting `attributes` and then `group_by` fails with the first failure of the two lists read in turn |
| Rel.IntoResult | worker/src/opt/rel.rs:706-709 | the derived `into_result` over children (derived at rel.rs:160, also used at rel.rs:591-595): `Ok` iff every child is `Ok`, with the same shape and expressions and the children unwrapped; an `Err` is one of the children's errors |
| Rel.ShapeDetermines | worker/src/opt/rel.rs:159-209 | a node is determined by its shape, its children and its expressions |
| Rel.NoExpressionsNeverFails | worker/src/opt/rel.rs:492-546 | nodes without expressions (`Set`, `Distinct`, `WithAlias`, `Table`, cross/`Using`/`Natural` joins) always collapse to `Ok` |
| Rel.MapExpressionsIdentity | worker/src/opt/rel.rs:438-489 | mapping expressions by the identity closure leaves the node unchanged |
| Rel.MapExpressionsCompose | worker/src/opt/rel.rs:438-489 | two expression maps compose into one |
| Rel.MapChildrenCompose | worker/src/opt/rel.rs:320-375 | two child maps compose into one |
| Rel.MapsCommute | worker/src/opt/rel.rs:320-489 | mapping children and mapping expressions commute |
| Tree.IsLeaf | worker/src/opt/rel.rs:549-554 | `is_leaf` holds exactly for nodes without children |
| Tree.FromWrapped | worker/src/opt/rel.rs:698-716 | `from` / `from_wrapped`: the root is kept; the board is a child's error if any child failed, else the first failing expression's error in field order, else `dot` of the unwrapped node |
| Tree.DeriveBoard | worker/src/opt/rel.rs:705-714 | the `try` block of `from_wrapped` on collapsed child boards; its three outcomes are stated by `Tree.DeriveBoardCases` |
| Tree.DeriveBoardCases | worker/src/opt/rel.rs:705-714 | the `try` block yields exactly those three cases |
| Tree.ChildBoardsAgree | worker/src/opt/rel.rs:706-709 | the children's boards are all `Ok` iff every child is valid; each board is some child's |
| Tree.ExpressionBoardsAgree | worker/src/opt/rel.rs:710-712 | the expressions' boards are all `Ok` iff every expression is valid; each board is some expression's |
| Tree.FlattenedIsUnwrapped | worker/src/opt/rel.rs:705-713 | when both collapses succeed, `dot` is applied to the node with every board unwrapped |
| Tree.WithinChild | worker/src/opt/rel.rs:309-312 | a node below a child is below the parent |
| Tree.FromWrappedDerived | worker/src/opt/rel.rs:698-716 | a tree built with `from` over derived subtrees is derived throughout |
| Tree.DerivedIsDerivedAbove | worker/src/opt/rel.rs:698-716 | a derived tree has derived boards at every interior node |
| Tree.ChildErrorReachesParent | worker/src/opt/rel.rs:706-709 | a derived interior node whose child has an `Err` board has an `Err` board |
| Tree.ErrorReachesRoot | worker/src/opt/rel.rs:703-716 | in a tree whose interior boards are derived, any `Err` board below makes the root's board `Err` |
| Meta.FromContext | worker/src/opt/rel.rs:758-765 | `TableMeta::from`: always `Ok`; its context is the given one; location, source, provenance empty, audience empty |
| Meta.ToContext | worker/src/opt/rel.rs:767-772 | `to_context` is the columns; `Meta.FromContext` states that it inverts `TableMeta::from` |
| Meta.Unanimous | worker/src/opt/rel.rs:788-792 | a location is chosen iff the children's locations form a singleton, and it is that location |
| Meta.Pick | worker/src/opt/rel.rs:788-792 | the element of a singleton set |
| Meta.TableMetaDot | worker/src/opt/rel.rs:774-838 | `TableMeta::dot`: fails iff `Context::dot` fails (same error); columns are its result; no source; a location iff the children's locations are unanimous; provenance is `common` of the table key or the children's provenances; audience is exactly the values in every one of the audiences intersected, empty when there are none |
| Meta.MeetMembers | worker/src/opt/rel.rs:821-828 | folding by intersection keeps exactly the values in the start set and in every set of the list |
| Meta.IntersectionMembers | worker/src/opt/rel.rs:821-828 | the intersection of a list of audiences holds exactly the values in all of them; empty for no audiences |
| Meta.SomesMembers | worker/src/opt/rel.rs:794-807 | keeping the `Some` values of a list keeps exactly those values, and is never longer |
| Meta.AudienceNarrows | worker/src/opt/rel.rs:809-828 | a node's audience is within each projection attribute's audience (projection) or each child's audience (other nodes); a table's audience is empty |
| Meta.ProvenanceInputs | worker/src/opt/rel.rs:794-807 | `common` receives the table's own key for a table; otherwise exactly the children's provenances that are present, one per child at most, in child order (`left` before `right`) |
| Meta.TableLeafMeta | worker/src/opt/rel.rs:774-838 | a valid table leaf's metadata has no location, provenance `common([key])` and an empty audience |
| Meta.TableLeafFromWrapped | worker/src/opt/rel.rs:698-716 | a `Table` leaf built by `from` with `TableMeta::dot` as the fold rule has exactly `dot`'s board for the bare leaf: no location, provenance `common([key])`, empty audience |
| Meta.InnerColumnsIgnoresExpressions | worker/src/opt/rel.rs:840-848 | `to_inner_context` depends only on the children |
| Meta.InnerColumns | worker/src/opt/rel.rs:843-847 | `to_inner_context` as a fold of `extend` over the children's contexts from an empty one; `Meta.InnerContext` and `Meta.InnerColumnsIgnoresExpressions` state its facts |
| Meta.CollectLocations | worker/src/opt/rel.rs:779-784 | the loop gathers exactly the set of the children's locations |
| Meta.CollectProvenances | worker/src/opt/rel.rs:794-807 | the loop gathers exactly the provenances `common` is given |
| Meta.CollectAudiences | worker/src/opt/rel.rs:809-819 | the loop gathers exactly the audiences to intersect |
| Meta.IntersectAudiences | worker/src/opt/rel.rs:821-828 | popping the last audience and intersecting the rest into it computes `Intersection` |
| Meta.Dot | worker/src/opt/rel.rs:774-838 | the imperative `dot` returns `TableMetaDot` |
| Meta.InnerContext | worker/src/opt/rel.rs:840-848 | `to_inner_context` extends an empty context with each child's context in order |
| Rebase.InheritedContext | worker/src/opt/rel.rs:591-596 | the inherited context is `to_inner_context` of the unwrapped children's boards when all are `Ok`, and the default empty context otherwise |
| Rebase.ChildBoardsUnwrap | worker/src/opt/rel.rs:591-595 | when the children's boards collapse to `Ok`, every child is valid and the result is the node of unwrapped boards |
| Rebase.RebaseChildren | worker/src/opt/rel.rs:588-589 | `map_async(rebase)`: same shape and expressions; each child is the rebased child |
| Rebase.RebaseTree | worker/src/opt/rel.rs:575-610 | `rebase`; what it computes is stated by `Rebase.RebaseStep`, `Rebase.RebaseKeepsSkeleton`, `Rebase.RebaseDerivesAncestors` and `Rebase.RebaseFullMatch` |
| Rebase.RebaseStep | worker/src/opt/rel.rs:575-610 | `rebase`: the rule's replacement when it has one; otherwise same shape, rebased children, each expression rebased in the inherited context, and the board re-derived with `from` |
| Rebase.ClosureRebaseAt | worker/src/opt/rel.rs:648-665 | `RebaseClosure::rebase_at`: replaces exactly the `Table` nodes, keeping the key; an `Err` board is copied, an `Ok` board is replaced by the closure's result |
| Rebase.Lookup | worker/src/opt/rel.rs:679-683 | the getter closure: a hit is the value, a miss is `into_table_error` of the lookup error; stated by `Rebase.ContextRebaseAt` |
| Rebase.ContextRebaseAt | worker/src/opt/rel.rs:674-688 | `Context::rebase_at`: like the closure rule with a lookup; a hit becomes the board, a miss becomes `into_table_error` of the lookup error |
| Rebase.ClosureRuleIsLeafOnly | worker/src/opt/rel.rs:648-665 | the closure rule only ever replaces a `Table` leaf by a `Table` leaf of the same key |
| Rebase.ContextRuleIsLeafOnly | worker/src/opt/rel.rs:674-688 | so does the context rule |
| Rebase.RebaseKeepsSkeleton | worker/src/opt/rel.rs:575-610 | with a leaf-only rule, the rebased tree has the original's operators, keys and child structure |
| Rebase.RebaseDerivesAncestors | worker/src/opt/rel.rs:598-604 | with a leaf-only rule, every interior board of the rebased tree is the one `from` derives |
| Rebase.FailedLookupReachesRoot | worker/src/opt/rel.rs:575-610 | with a leaf-only rule, an `Err` board anywhere in the rebased tree makes its root `Err` |
| Rebase.JoinErrorContainment | worker/src/opt/rel.rs:674-688 | rebasing a join of two tables against a context that has only the right key: the left leaf carries the lookup error, the right leaf stays valid, and the join's board is the left error |
| Rebase.RebaseFullMatch | worker/src/opt/rel.rs:575-610 | with a context holding every valid leaf's own metadata and an expression rebase that changes nothing, rebasing a tree with derived interior boards gives back the same tree, boards included |
| Ansatz.LowerSetOperatorInjective | worker/src/opt/rel.rs:150 | the set operator conversion is one-to-one |
| Ansatz.LowerSetOperator | worker/src/opt/rel.rs:150-157 | the `copy_ast_enum!` conversion of set operators; `Ansatz.LowerSetOperatorInjective` and `Ansatz.SetLowering` state its facts |
| Ansatz.LowerJoinConstraint | worker/src/opt/rel.rs:50-66 | `try_into` for constraints: fails iff it is `On` and the expression fails to lower (same error); `On` lowers its expression; `Using` names each key in order; `Natural` maps to `Natural` |
| Ansatz.LowerJoinOperator | worker/src/opt/rel.rs:77-92 | `try_into` for operators: the variant is kept; it fails iff the constraint does (same error); `CrossJoin` never fails |
| Ansatz.Zip | worker/src/opt/rel.rs:215-217 | `zip` pairs equal positions up to the shorter length |
| Ansatz.LowerAll | worker/src/opt/rel.rs:271-274 | lowering a list: `Ok` iff every element lowers, with the lowered values in order; otherwise the first failing element's error |
| Ansatz.LowerOrderByItems | worker/src/opt/rel.rs:213-231 | the `ORDER BY` list pairs the first min(len(by), len(order)) keys with their orders, `asc` iff `Asc`; fails with the first failing key's error |
| Ansatz.LowerOrderByItem | worker/src/opt/rel.rs:218-228 | one `ORDER BY` item: `asc` iff `Asc`, and the key's lowering error; stated by `Ansatz.LowerOrderByItems` |
| Ansatz.LowerEach | worker/src/opt/rel.rs:271-274 | the collecting loop computes `LowerAll` |
| Ansatz.LowerOrderBy | worker/src/opt/rel.rs:215-229 | the `zip`/`map`/`collect` loop computes `LowerOrderByItems` |
| Ansatz.Reverse | worker/src/opt/rel.rs:293-294 | reversing the key's segments puts position `i` at `n-1-i` |
| Ansatz.LowerNode | worker/src/opt/rel.rs:211-303 | the imperative per-operator lowering returns `NodeAnsatz` |
| Ansatz.NodeAnsatz | worker/src/opt/rel.rs:211-303 | the per-operator rule; stated arm by arm by the `…Lowering` lemmas below and by `Ansatz.NodeLoweringFails` |
| Ansatz.LowerChildren | worker/src/opt/rel.rs:742-747 | the fold maps the node to a new node of the same shape and expressions whose children are the children's lowerings |
| Ansatz.ToAnsatz | worker/src/opt/rel.rs:742-747 | `RelT::to_ansatz`, the fold; stated by `Ansatz.LoweringSucceedsIff`, `Ansatz.LoweringErrorOrigin` and `Ansatz.LoweringIgnoresBoards` |
| Ansatz.LoweredExpressions | worker/src/opt/rel.rs:213-231 | the expressions lowering reads: all of them, except the sort keys beyond the `order` list |
| Ansatz.LoweredExpressionsAgree | worker/src/opt/rel.rs:211-303 | nodes of the same shape and expressions lower the same expressions |
| Ansatz.TableLowering | worker/src/opt/rel.rs:292-301 | a table lowers to a table reference named by the reversed key, without alias, args or hints |
| Ansatz.SetLowering | worker/src/opt/rel.rs:247-254 | a set node lowers to a set operation with the converted operator, `all` false, and both sides converted |
| Ansatz.OrderByLowering | worker/src/opt/rel.rs:213-231 | `OrderBy` fails iff its items fail (same error); otherwise the child's query with `order_by` replaced and nothing else changed |
| Ansatz.OrderByIgnoresUnpairedKeys | worker/src/opt/rel.rs:215-217 | sort keys beyond the `order` list have no effect on the lowering |
| Ansatz.DistinctLowering | worker/src/opt/rel.rs:232-236 | `Distinct` never fails; the child's select with `distinct` set and nothing else changed |
| Ansatz.WithAliasLowering | worker/src/opt/rel.rs:289-291 | `WithAlias` never fails and is the lowered child renamed by `with_alias` |
| Ansatz.LimitLowering | worker/src/opt/rel.rs:237-241 | `Limit` fails iff its expression does (same error); otherwise the child's query with `limit` set and nothing else changed |
| Ansatz.OffsetLowering | worker/src/opt/rel.rs:242-246 | `Offset` fails iff its expression does (same error); otherwise the child's query with `offset` set and nothing else changed |
| Ansatz.SelectionLowering | worker/src/opt/rel.rs:264-268 | `Selection` fails iff its predicate does (same error); otherwise the wrapped child with `selection` set and nothing else changed |
| Ansatz.ProjectionLowering | worker/src/opt/rel.rs:281-288 | `Projection` fails iff an attribute does (first error); otherwise the wrapped child with `projection` replaced and nothing else changed |
| Ansatz.AggregationLowering | worker/src/opt/rel.rs:269-280 | `Aggregation` fails iff an attribute or grouping key does (attributes first); otherwise the wrapped child with `projection` and `group_by` replaced |
| Ansatz.JoinLowering | worker/src/opt/rel.rs:255-263 | `Join` fails iff its operator does (same error); otherwise the left side's joins with one join to the right side appended |
| Ansatz.NodeLoweringFails | worker/src/opt/rel.rs:211-303 | a node fails to lower iff one of the expressions it lowers fails, and its error is that expression's |
| Ansatz.AggregationLoweringFails | worker/src/opt/rel.rs:269-280 | the same for `Aggregation` |
| Ansatz.JoinLoweringFails | worker/src/opt/rel.rs:255-263 | the same for `Join` |
| Ansatz.LoweredNode | worker/src/opt/rel.rs:742-747 | when the children lower, every child lowers and the lowered node reads the same expressions |
| Ansatz.LoweringSucceedsIff | worker/src/opt/rel.rs:742-747 | `RelT::to_ansatz` succeeds iff every expression it lowers at every node lowers |
| Ansatz.LoweringErrorOrigin | worker/src/opt/rel.rs:742-747 | a lowering error is the lowering error of an expression at some node of the tree |
| Ansatz.FailingChild | worker/src/opt/rel.rs:742-747 | when the children fail to lower, some child fails with the node's error |
| Ansatz.LoweringIgnoresBoards | worker/src/opt/rel.rs:742-747 | trees that differ only in their boards lower identically |
| Ansatz.ProjectionOfTable | worker/src/opt/rel.rs:281-301 | a projection of a table lowers to the wrapped table reference with the lowered attributes as projection |

## Left out

- `worker/src/node/access/account.rs` and the other optimiser passes are not part of this model.
- Asynchrony: `map_async`, `map_expressions_async`, `rebase` and `rebase_at` are modelled as
  sequential computations. Their futures are awaited one at a time, in field order, and nothing
  else runs in between.
- `Arc` sharing, `unsafe impl Sync`, serde (de)serialisation and `Debug` are not modelled. The
  trees are immutable values.
- `Context::dot`, `Context::extend`, `Context::get`, `ContextKey::common` and `ContextKey::name`,
  the expression algebra's rebase and `to_ansatz`, and the sqlparser conversions `into()`,
  `wrapped()` and `with_alias()` are outside this file. They are function-valued parameters, and
  the model claims only what follows from their results.
- The expression tree `ExprT`: its body is opaque text and only its board is modelled.
- `ExprMeta` keeps only the audience.
- Meta.TableMetaDot: the column context comes from `Context::dot` applied to the node, whose
  expression slots hold the whole `ExprMeta`. Here they hold only the audience, so `ContextOps.dot`
  sees the expressions' audiences alone. Any other `ExprMeta` field that `Context::dot` might read
  is not modelled, because `Context::dot` is not part of this model.
- `Context::new` and `Context::default` are taken to be the empty context.
- The sqlparser AST is reduced to the fields the lowering sets or reads.
- The `copy_ast_enum!` conversion of set operators is a one-to-one map.
- Rel.IntoResult: the child-level `into_result` is generated by a macro whose body is not part of
  this model. The model scans left to right, but its contract claims only that an error is some
  child's error, not which one wins.
- `Ansatz.Lowering.lowerExpr` stands for two conversions of the source. Projection and aggregation
  attributes become `SelectItem`s; `group_by`, selection, limit, offset and sort keys become `Expr`s.
  Both are the expression's own `to_ansatz` followed by an infallible `into()`, so they fail, and
  fail with the same error, on the same expressions. The model uses one target type `SqlExpr` and
  does not tell a select item from a plain expression.
- Tree.Derived: the board invariant is a property of trees built with `from`. Trees built by other
  means (deserialisation, direct construction) need not satisfy it, so the lemmas require it.
