/**
  The relation tree `RelT<B, E>` of worker/src/opt/rel.rs: a `GenericRel` node whose children are
  (shared, immutable) relation trees, paired with a board, the validation outcome of the node.
  `FromWrapped` derives the board bottom-up from the children's boards, the carried expressions'
  boards and the representation's fold rule `dot`, which is a parameter here: the tree is generic in
  its representation, and `Meta.TableMetaDot` is the concrete one.
*/
module Tree {
  import opened Wrappers
  import opened Rel

  datatype ValidateError = ValidateError(message: string)

  type ValidateResult<T> = Result<T, ValidateError>

  /**
    A tree of the companion expression algebra, which is not part of this model: its body is
    carried as opaque text, and its board is the metadata (or the error) it was validated to.
  */
  datatype ExprT<M> = ExprT(term: string, board: ValidateResult<M>)

  /** A relation tree with relation metadata `B` and expression metadata `M`. */
  datatype RelT<B, M> = RelT(root: GenericRel<ExprT<M>, RelT<B, M>>, board: ValidateResult<B>)

  /** The fold rule of a representation: a node of metadata values to the node's own metadata. */
  type Dot<!B, !M> = GenericRel<M, B> -> ValidateResult<B>

  /** `is_leaf`: exactly the nodes without children, which are the `Table` references. */
  function IsLeaf<B, M>(t: RelT<B, M>): (r: bool)
    ensures r <==> Children(t.root) == []
  {
    t.root.Table?
  }

  ghost predicate ChildrenOk<E, B, M>(root: GenericRel<E, RelT<B, M>>) {
    forall c :: c in Children(root) ==> c.board.Ok?
  }

  ghost predicate ExpressionsOk<B, M>(root: GenericRel<ExprT<M>, RelT<B, M>>) {
    forall e :: e in Expressions(root) ==> e.board.Ok?
  }

  /** `c` is one of the node's children (stated by position, as the trees need not support equality). */
  ghost predicate ChildOf<E, B, M>(c: RelT<B, M>, root: GenericRel<E, RelT<B, M>>) {
    exists i :: 0 <= i < |Children(root)| && Children(root)[i] == c
  }

  /** The node of metadata values read off a node whose boards are all `Ok`. */
  function Unwrapped<B, M>(root: GenericRel<ExprT<M>, RelT<B, M>>): (u: GenericRel<M, B>)
    requires ChildrenOk(root) && ExpressionsOk(root)
  {
    MapChildren(
      MapExpressions(root, (e: ExprT<M>) requires e.board.Ok? => e.board.value),
      (c: RelT<B, M>) requires c.board.Ok? => c.board.value)
  }

  /**
    `from_wrapped` (and `from`, which only wraps the children in `Arc` first): the root is kept and
    the board is derived. A child error wins over an expression error; the first failing expression,
    in field order, wins over the fold rule; otherwise the board is the fold rule applied to the
    fully unwrapped node.
  */
  function FromWrapped<B, M>(root: GenericRel<ExprT<M>, RelT<B, M>>, dot: Dot<B, M>): (r: RelT<B, M>)
    ensures r.root == root
    ensures !ChildrenOk(root) ==>
      r.board.Err? && exists c :: c in Children(root) && c.board == Err(r.board.error)
    ensures ChildrenOk(root) && !ExpressionsOk(root) ==>
      && r.board.Err?
      && exists i :: 0 <= i < |Expressions(root)| && Expressions(root)[i].board == Err(r.board.error)
           && forall j :: 0 <= j < i ==> Expressions(root)[j].board.Ok?
    ensures ChildrenOk(root) && ExpressionsOk(root) ==> r.board == dot(Unwrapped(root))
  {
    DeriveBoardCases(root, dot);
    RelT(root, DeriveBoard(root, IntoResult(MapChildren(root, (c: RelT<B, M>) => c.board)), dot))
  }

  /** The `try` block of `from_wrapped`, once the children's boards are collapsed. */
  function DeriveBoard<B, M>(
    root: GenericRel<ExprT<M>, RelT<B, M>>, childBoards: ValidateResult<GenericRel<ExprT<M>, B>>,
    dot: Dot<B, M>): ValidateResult<B>
  {
    match childBoards
    case Err(e) => Err(e)
    case Ok(inherited) =>
      var exprBoards := MapExpressions(inherited, (e: ExprT<M>) => e.board);
      match IntoResultExpressions(exprBoards)
      case Err(e) => Err(e)
      case Ok(flattened) => dot(flattened)
  }

  lemma DeriveBoardCases<B, M>(root: GenericRel<ExprT<M>, RelT<B, M>>, dot: Dot<B, M>)
    ensures var b := DeriveBoard(root, IntoResult(MapChildren(root, (c: RelT<B, M>) => c.board)), dot);
      && (!ChildrenOk(root) ==> b.Err? && exists c :: c in Children(root) && c.board == Err(b.error))
      && (ChildrenOk(root) && !ExpressionsOk(root) ==>
            && b.Err?
            && exists i :: 0 <= i < |Expressions(root)| && Expressions(root)[i].board == Err(b.error)
                 && forall j :: 0 <= j < i ==> Expressions(root)[j].board.Ok?)
      && (ChildrenOk(root) && ExpressionsOk(root) ==> b == dot(Unwrapped(root)))
  {
    var boards := MapChildren(root, (c: RelT<B, M>) => c.board);
    ChildBoardsAgree(root, boards);
    match IntoResult(boards)
    case Err(e) =>
    case Ok(inherited) =>
      var exprBoards := MapExpressions(inherited, (e: ExprT<M>) => e.board);
      ExpressionBoardsAgree(root, inherited, exprBoards);
      match IntoResultExpressions(exprBoards)
      case Err(e) =>
      case Ok(flattened) =>
        FlattenedIsUnwrapped(root, inherited, exprBoards, flattened);
  }

  lemma ChildBoardsAgree<E, B, M>(
    root: GenericRel<E, RelT<B, M>>, boards: GenericRel<E, ValidateResult<B>>)
    requires boards == MapChildren(root, (c: RelT<B, M>) => c.board)
    ensures AllOk(Children(boards)) <==> ChildrenOk(root)
    ensures forall x :: x in Children(boards) ==> exists c :: c in Children(root) && c.board == x
  {
    forall x | x in Children(boards)
      ensures exists c :: c in Children(root) && c.board == x
    {
      var i :| 0 <= i < |Children(boards)| && Children(boards)[i] == x;
      assert Children(root)[i] in Children(root);
    }
    if AllOk(Children(boards)) {
      forall c | c in Children(root) ensures c.board.Ok? {
        var i :| 0 <= i < |Children(root)| && Children(root)[i] == c;
        assert Children(boards)[i] in Children(boards);
      }
    }
  }

  lemma ExpressionBoardsAgree<B, M>(
    root: GenericRel<ExprT<M>, RelT<B, M>>, inherited: GenericRel<ExprT<M>, B>,
    exprBoards: GenericRel<ValidateResult<M>, B>)
    requires Expressions(inherited) == Expressions(root)
    requires exprBoards == MapExpressions(inherited, (e: ExprT<M>) => e.board)
    ensures AllOk(Expressions(exprBoards)) <==> ExpressionsOk(root)
    ensures forall x :: x in Expressions(exprBoards) ==> exists e :: e in Expressions(root) && e.board == x
  {
    forall x | x in Expressions(exprBoards)
      ensures exists e :: e in Expressions(root) && e.board == x
    {
      var i :| 0 <= i < |Expressions(exprBoards)| && Expressions(exprBoards)[i] == x;
      assert Expressions(root)[i] in Expressions(root);
    }
    if AllOk(Expressions(exprBoards)) {
      forall e | e in Expressions(root) ensures e.board.Ok? {
        var i :| 0 <= i < |Expressions(root)| && Expressions(root)[i] == e;
        assert Expressions(exprBoards)[i] in Expressions(exprBoards);
      }
    }
  }

  lemma FlattenedIsUnwrapped<B, M>(
    root: GenericRel<ExprT<M>, RelT<B, M>>, inherited: GenericRel<ExprT<M>, B>,
    exprBoards: GenericRel<ValidateResult<M>, B>, flattened: GenericRel<M, B>)
    requires IntoResult(MapChildren(root, (c: RelT<B, M>) => c.board)) == Ok(inherited)
    requires exprBoards == MapExpressions(inherited, (e: ExprT<M>) => e.board)
    requires IntoResultExpressions(exprBoards) == Ok(flattened)
    ensures ChildrenOk(root) && ExpressionsOk(root)
    ensures flattened == Unwrapped(root)
  {
    var boards := MapChildren(root, (c: RelT<B, M>) => c.board);
    ChildBoardsAgree(root, boards);
    ExpressionBoardsAgree(root, inherited, exprBoards);
    var u := Unwrapped(root);
    assert Children(flattened) == Children(u) by {
      assert Unwraps(Children(inherited), Children(boards));
    }
    assert Expressions(flattened) == Expressions(u) by {
      assert Unwraps(Expressions(flattened), Expressions(exprBoards));
    }
    ShapeDetermines(flattened, u);
  }

  // ---------------------------------------------------------------------------------------------
  // The board invariant

  /** `d` is `t` or a node below it. */
  ghost predicate Within<B, M>(d: RelT<B, M>, t: RelT<B, M>)
    decreases t
  {
    d == t || exists c :: c in Children(t.root) && Within(d, c)
  }

  lemma WithinChild<B, M>(d: RelT<B, M>, c: RelT<B, M>, t: RelT<B, M>)
    requires Within(d, c) && c in Children(t.root)
    ensures Within(d, t)
  {
  }

  /** Every node's board is the one `FromWrapped` derives: the tree was built by `from`. */
  ghost predicate Derived<B, M>(t: RelT<B, M>, dot: Dot<B, M>)
    decreases t
  {
    && t.board == FromWrapped(t.root, dot).board
    && forall c :: c in Children(t.root) ==> Derived(c, dot)
  }

  /**
    Every interior node's board is the one `FromWrapped` derives; leaf boards are arbitrary, as after
    a rebase, whose leaves carry their catalog lookup.
  */
  ghost predicate DerivedAbove<B, M>(t: RelT<B, M>, dot: Dot<B, M>)
    decreases t
  {
    && DerivedIfInterior(t, dot)
    && forall c :: c in Children(t.root) ==> DerivedAbove(c, dot)
  }

  /** The node's own board is the derived one, unless it is a leaf. */
  ghost predicate DerivedIfInterior<B, M>(t: RelT<B, M>, dot: Dot<B, M>) {
    !IsLeaf(t) ==> t.board == FromWrapped(t.root, dot).board
  }

  /** A tree built by `FromWrapped` over derived children is derived. */
  lemma FromWrappedDerived<B, M>(root: GenericRel<ExprT<M>, RelT<B, M>>, dot: Dot<B, M>)
    requires forall c :: c in Children(root) ==> Derived(c, dot)
    ensures Derived(FromWrapped(root, dot), dot)
  {
  }

  lemma {:induction false} DerivedIsDerivedAbove<B, M>(t: RelT<B, M>, dot: Dot<B, M>)
    requires Derived(t, dot)
    ensures DerivedAbove(t, dot)
    decreases t
  {
    forall c | c in Children(t.root) ensures DerivedAbove(c, dot) {
      ChildIsField(t.root, c);
      DerivedIsDerivedAbove(c, dot);
    }
  }

  /** An interior node whose board is derived reads its children's boards. */
  lemma ChildErrorReachesParent<B, M>(t: RelT<B, M>, c: RelT<B, M>, dot: Dot<B, M>)
    requires DerivedIfInterior(t, dot)
    requires c in Children(t.root) && c.board.Err?
    ensures t.board.Err?
  {
    assert !ChildrenOk(t.root);
  }

  /**
    Errors are contained only until an ancestor reads them: in a tree whose interior boards are
    derived, an `Err` board anywhere makes the root's board `Err`.
  */
  lemma {:induction false} ErrorReachesRoot<B, M>(t: RelT<B, M>, d: RelT<B, M>, dot: Dot<B, M>)
    requires DerivedAbove(t, dot) && Within(d, t) && d.board.Err?
    ensures t.board.Err?
    decreases t
  {
    if d != t {
      var c :| c in Children(t.root) && Within(d, c);
      assert DerivedAbove(c, dot);
      ChildIsField(t.root, c);
      ErrorReachesRoot(c, d, dot);
      ChildErrorReachesParent(t, c, dot);
    }
  }
}
