/**
  `TableMeta`, the concrete relation metadata of worker/src/opt/rel.rs, and its fold rule
  `TableMeta::dot`: columns by context merge, location by unanimity, provenance by common key
  prefix, audience by intersection. The source builds these with mutable sets and vectors, so the
  methods here do the same with loops, and each is proved equal to a specification function; the
  lemmas state what the specification functions mean.
*/
module Meta {
  import opened Wrappers
  import opened Rel
  import opened Tree

  /** A physical location or security label. */
  type BlockType = string

  /** Column metadata of the expression algebra; only its audience is read here. */
  datatype ExprMeta = ExprMeta(audience: set<BlockType>)

  /** An ordered mapping from column keys to column metadata. */
  datatype Context<M> = Context(entries: seq<(ContextKey, M)>)

  /** `Context::new()` and `Context::default()`. */
  function EmptyContext<M>(): Context<M> {
    Context([])
  }

  datatype TableMeta = TableMeta(
    columns: Context<ExprMeta>,
    loc: Option<BlockType>,
    source: Option<ContextKey>,
    provenance: Option<ContextKey>,
    audience: set<BlockType>)

  /**
    The collaborators of the fold rule whose bodies are not part of this model: `Context::dot`,
    `Context::extend` and `ContextKey::common`.
  */
  datatype ContextOps = ContextOps(
    dot: GenericRel<ExprMeta, Context<ExprMeta>> -> ValidateResult<Context<ExprMeta>>,
    extend: (Context<ExprMeta>, Context<ExprMeta>) -> Context<ExprMeta>,
    common: seq<ContextKey> -> Option<ContextKey>)

  /** `ToContext for TableMeta`. */
  function ToContext(m: TableMeta): Context<ExprMeta> {
    m.columns
  }

  /** `TableMeta::from`: the given columns, every other field at its default. */
  function FromContext(ctx: Context<ExprMeta>): (r: ValidateResult<TableMeta>)
    ensures r.Ok? && ToContext(r.value) == ctx
    ensures r.value.loc == None && r.value.source == None && r.value.provenance == None
    ensures r.value.audience == {}
  {
    Ok(TableMeta(ctx, None, None, None, {}))
  }

  // ---------------------------------------------------------------------------------------------
  // Specification functions

  /** The distinct locations the children report; children without one are ignored. */
  function ChildLocations(node: GenericRel<ExprMeta, TableMeta>): set<BlockType> {
    set c | c in Children(node) && c.loc.Some? :: c.loc.value
  }

  /** The one location of a singleton, and nothing for an empty set or a conflict. */
  function Unanimous(locs: set<BlockType>): (r: Option<BlockType>)
    ensures r.Some? <==> |locs| == 1
    ensures r.Some? ==> locs == {r.value}
  {
    if |locs| == 1 then
      var l := Pick(locs);
      Some(l)
    else
      None
  }

  /** The element of a singleton set. */
  function Pick(s: set<BlockType>): (l: BlockType)
    requires |s| == 1
    ensures s == {l}
  {
    var l :| l in s;
    assert |s - {l}| == 0;
    assert s - {l} == {};
    l
  }

  /** The values of the `Some` entries, in order. */
  function Somes<T>(s: seq<Option<T>>): seq<T> {
    if s == [] then []
    else
      var last := s[|s| - 1];
      Somes(s[..|s| - 1]) + (if last.Some? then [last.value] else [])
  }

  /** What `ContextKey::common` is given: the table's own key, or the children's provenances. */
  function Provenances(node: GenericRel<ExprMeta, TableMeta>): seq<ContextKey> {
    match node
    case Table(key) => [key]
    case _ => Somes(Apply(Children(node), (c: TableMeta) => c.provenance))
  }

  /** The audiences that are intersected: a projection's attributes', or else the children's. */
  function Audiences(node: GenericRel<ExprMeta, TableMeta>): seq<set<BlockType>> {
    match node
    case Projection(attributes, _) => Apply(attributes, (a: ExprMeta) => a.audience)
    case _ => Apply(Children(node), (c: TableMeta) => c.audience)
  }

  /** `acc` intersected with every set of `s`, front to back. */
  function Meet(acc: set<BlockType>, s: seq<set<BlockType>>): set<BlockType> {
    if s == [] then acc else Meet(acc * s[0], s[1..])
  }

  /** Pop the last audience (or start from the empty set), then intersect it with the rest. */
  function Intersection(auds: seq<set<BlockType>>): set<BlockType> {
    if auds == [] then {} else Meet(auds[|auds| - 1], auds[..|auds| - 1])
  }

  /** `TableMeta::dot`, as a function of the node of metadata it folds. */
  function TableMetaDot(node: GenericRel<ExprMeta, TableMeta>, ops: ContextOps): (r: ValidateResult<TableMeta>)
    ensures r.Err? <==> ops.dot(MapChildren(node, ToContext)).Err?
    ensures r.Err? ==> r.error == ops.dot(MapChildren(node, ToContext)).error
    ensures r.Ok? ==> r.value.columns == ops.dot(MapChildren(node, ToContext)).value
    ensures r.Ok? ==> r.value.source == None
    ensures r.Ok? ==> (r.value.loc.Some? <==> |ChildLocations(node)| == 1)
    ensures r.Ok? && r.value.loc.Some? ==> ChildLocations(node) == {r.value.loc.value}
    ensures r.Ok? ==> r.value.provenance == ops.common(Provenances(node))
    ensures r.Ok? ==> forall x ::
      x in r.value.audience <==> |Audiences(node)| > 0 && forall a :: a in Audiences(node) ==> x in a
  {
    match ops.dot(MapChildren(node, ToContext))
    case Err(e) => Err(e)
    case Ok(columns) =>
      IntersectionMembers(Audiences(node));
      Ok(TableMeta(
        columns,
        Unanimous(ChildLocations(node)),
        None,
        ops.common(Provenances(node)),
        Intersection(Audiences(node))))
  }

  /** The fold rule of the `TableMeta` representation, for `Tree.FromWrapped`. */
  function TableDot(ops: ContextOps): Dot<TableMeta, ExprMeta> {
    (node: GenericRel<ExprMeta, TableMeta>) => TableMetaDot(node, ops)
  }

  /** `extend`, from the left, with every context of `cs` in turn. */
  function ExtendAll(acc: Context<ExprMeta>, cs: seq<Context<ExprMeta>>, ops: ContextOps): Context<ExprMeta>
    decreases |cs|
  {
    if cs == [] then acc else ExtendAll(ops.extend(acc, cs[0]), cs[1..], ops)
  }

  /** `to_inner_context`: the children's columns, merged into a new context one child after another. */
  function InnerColumns<E>(root: GenericRel<E, TableMeta>, ops: ContextOps): Context<ExprMeta> {
    ExtendAll(EmptyContext(), Apply(Children(root), ToContext), ops)
  }

  // ---------------------------------------------------------------------------------------------
  // What the specification functions mean

  lemma {:induction false} MeetMembers(acc: set<BlockType>, s: seq<set<BlockType>>, x: BlockType)
    ensures x in Meet(acc, s) <==> x in acc && forall a :: a in s ==> x in a
    decreases |s|
  {
    if s != [] {
      MeetMembers(acc * s[0], s[1..], x);
      assert s == [s[0]] + s[1..];
    }
  }

  /** A label survives the intersection exactly when every contributor has it (and there is one). */
  lemma IntersectionMembers(auds: seq<set<BlockType>>)
    ensures forall x :: x in Intersection(auds) <==> |auds| > 0 && forall a :: a in auds ==> x in a
  {
    forall x ensures x in Intersection(auds) <==> |auds| > 0 && forall a :: a in auds ==> x in a {
      if auds != [] {
        MeetMembers(auds[|auds| - 1], auds[..|auds| - 1], x);
        assert auds == auds[..|auds| - 1] + [auds[|auds| - 1]];
      }
    }
  }

  /** Exactly the `Some` values survive, and there are no more of them than entries. */
  lemma {:induction false} SomesMembers<T>(s: seq<Option<T>>)
    ensures forall x :: x in Somes(s) <==> Some(x) in s
    ensures |Somes(s)| <= |s|
    decreases |s|
  {
    if s != [] {
      SomesMembers(s[..|s| - 1]);
      assert s == s[..|s| - 1] + [s[|s| - 1]];
    }
  }

  /**
    The audience of a node is within the audience of every contributor: a projection's attributes,
    or any other node's children; with no contributor (a `Table`) it is empty. A projection's
    attributes are intersected, not united.
  */
  lemma AudienceNarrows(node: GenericRel<ExprMeta, TableMeta>, ops: ContextOps)
    requires TableMetaDot(node, ops).Ok?
    ensures var aud := TableMetaDot(node, ops).value.audience;
      && (node.Projection? ==> forall a :: a in node.attributes ==> aud <= a.audience)
      && (!node.Projection? ==> forall c :: c in Children(node) ==> aud <= c.audience)
      && (node.Table? ==> aud == {})
  {
    var aud := TableMetaDot(node, ops).value.audience;
    var auds := Audiences(node);
    if node.Projection? {
      forall a | a in node.attributes ensures aud <= a.audience {
        var i :| 0 <= i < |node.attributes| && node.attributes[i] == a;
        assert auds[i] in auds;
      }
    } else {
      forall c | c in Children(node) ensures aud <= c.audience {
        var i :| 0 <= i < |Children(node)| && Children(node)[i] == c;
        assert auds[i] in auds;
      }
    }
  }

  /**
    `ContextKey::common` sees the `Table`'s own key and nothing else, and for any other node exactly
    the provenances its children have, at most one per child, in child order (`left` before `right`).
  */
  lemma ProvenanceInputs(node: GenericRel<ExprMeta, TableMeta>)
    ensures node.Table? ==> Provenances(node) == [node.key]
    ensures !node.Table? ==>
      && |Provenances(node)| <= |Children(node)|
      && forall k :: k in Provenances(node) <==> exists c :: c in Children(node) && c.provenance == Some(k)
    ensures node.Join? || node.Set? ==>
      Provenances(node) ==
        (if node.left.provenance.Some? then [node.left.provenance.value] else [])
        + (if node.right.provenance.Some? then [node.right.provenance.value] else [])
    ensures !node.Table? && !node.Join? && !node.Set? ==>
      Provenances(node) == if node.from.provenance.Some? then [node.from.provenance.value] else []
  {
    if !node.Table? {
      var opts := Apply(Children(node), (c: TableMeta) => c.provenance);
      SomesMembers(opts);
      if node.Join? || node.Set? {
        var l, r := node.left.provenance, node.right.provenance;
        assert opts == [l, r];
        assert opts[..1] == [l] && [l][..0] == [];
        assert Somes([l]) == if l.Some? then [l.value] else [];
        assert Somes(opts) == Somes([l]) + (if r.Some? then [r.value] else []);
      } else {
        assert opts[..0] == [];
      }
      forall k ensures k in Provenances(node) <==> exists c :: c in Children(node) && c.provenance == Some(k) {
        if k in Provenances(node) {
          var i :| 0 <= i < |opts| && opts[i] == Some(k);
          assert Children(node)[i] in Children(node);
        }
        if exists c :: c in Children(node) && c.provenance == Some(k) {
          var c :| c in Children(node) && c.provenance == Some(k);
          var i :| 0 <= i < |Children(node)| && Children(node)[i] == c;
          assert opts[i] in opts;
        }
      }
    }
  }

  /** A `Table` leaf has no children: no location, its own key as the only provenance, no audience. */
  lemma TableLeafMeta(key: ContextKey, ops: ContextOps)
    requires TableMetaDot(Table(key), ops).Ok?
    ensures TableMetaDot(Table(key), ops).value.loc == None
    ensures TableMetaDot(Table(key), ops).value.provenance == ops.common([key])
    ensures TableMetaDot(Table(key), ops).value.audience == {}
  {
    assert ChildLocations(Table(key)) == {};
  }

  /**
    A `Table` leaf built by `RelT::from` in the `TableMeta` representation: its board is `dot` of the
    bare leaf, so a valid one has no location, provenance `common([key])` and no audience.
  */
  lemma TableLeafFromWrapped(key: ContextKey, ops: ContextOps)
    ensures var leaf := FromWrapped<TableMeta, ExprMeta>(Table(key), TableDot(ops));
      && leaf.board == TableMetaDot(Table(key), ops)
      && (leaf.board.Ok? ==>
            && leaf.board.value.loc == None
            && leaf.board.value.provenance == ops.common([key])
            && leaf.board.value.audience == {})
  {
    var root: GenericRel<ExprT<ExprMeta>, RelT<TableMeta, ExprMeta>> := Table(key);
    var bare: GenericRel<ExprMeta, TableMeta> := Table(key);
    ShapeDetermines(Unwrapped(root), bare);
    if TableMetaDot(bare, ops).Ok? {
      TableLeafMeta(key, ops);
    }
  }

  /** The inner context is read off the children only: the expressions play no part. */
  lemma InnerColumnsIgnoresExpressions<E1, E2>(a: GenericRel<E1, TableMeta>, b: GenericRel<E2, TableMeta>, ops: ContextOps)
    requires Children(a) == Children(b)
    ensures InnerColumns(a, ops) == InnerColumns(b, ops)
  {
  }

  // ---------------------------------------------------------------------------------------------
  // The imperative fold

  /** The `locs` set of `TableMeta::dot`, filled by insertion while visiting the children. */
  method CollectLocations(node: GenericRel<ExprMeta, TableMeta>) returns (locs: set<BlockType>)
    ensures locs == ChildLocations(node)
  {
    var children := Children(node);
    locs := {};
    for i := 0 to |children|
      invariant locs == set j | 0 <= j < i && children[j].loc.Some? :: children[j].loc.value
    {
      if children[i].loc.Some? {
        locs := locs + {children[i].loc.value};
      }
    }
    forall l | l in ChildLocations(node) ensures l in locs {
      var c :| c in children && c.loc.Some? && c.loc.value == l;
      var j :| 0 <= j < |children| && children[j] == c;
    }
  }

  /** The `provenances` vector of `TableMeta::dot`. */
  method CollectProvenances(node: GenericRel<ExprMeta, TableMeta>) returns (provenances: seq<ContextKey>)
    ensures provenances == Provenances(node)
  {
    if node.Table? {
      provenances := [node.key];
      return;
    }
    var children := Children(node);
    ghost var opts := Apply(children, (c: TableMeta) => c.provenance);
    provenances := [];
    for i := 0 to |children|
      invariant provenances == Somes(opts[..i])
    {
      assert opts[..i + 1][..i] == opts[..i];
      if children[i].provenance.Some? {
        provenances := provenances + [children[i].provenance.value];
      }
    }
    assert opts[..|children|] == opts;
  }

  /** The `audiences` vector of `TableMeta::dot`. */
  method CollectAudiences(node: GenericRel<ExprMeta, TableMeta>) returns (audiences: seq<set<BlockType>>)
    ensures audiences == Audiences(node)
  {
    audiences := [];
    if node.Projection? {
      var attributes := node.attributes;
      for i := 0 to |attributes|
        invariant audiences == Apply(attributes[..i], (a: ExprMeta) => a.audience)
      {
        audiences := audiences + [attributes[i].audience];
      }
      assert attributes[..|attributes|] == attributes;
    } else {
      var children := Children(node);
      for i := 0 to |children|
        invariant audiences == Apply(children[..i], (c: TableMeta) => c.audience)
      {
        audiences := audiences + [children[i].audience];
      }
      assert children[..|children|] == children;
    }
  }

  /** Pop the last audience (or the empty set) and intersect the rest into it, in order. */
  method IntersectAudiences(audiences: seq<set<BlockType>>) returns (audience: set<BlockType>)
    ensures audience == Intersection(audiences)
  {
    if |audiences| == 0 {
      return {};
    }
    var rest := audiences[..|audiences| - 1];
    audience := audiences[|audiences| - 1];
    for i := 0 to |rest|
      invariant Meet(audience, rest[i..]) == Intersection(audiences)
    {
      assert rest[i..][1..] == rest[i + 1..];
      audience := audience * rest[i];
    }
  }

  /** `TableMeta::dot`: the metadata of a node from its children's metadata and its expressions'. */
  method Dot(node: GenericRel<ExprMeta, TableMeta>, ops: ContextOps) returns (r: ValidateResult<TableMeta>)
    ensures r == TableMetaDot(node, ops)
  {
    var inherited := MapChildren(node, ToContext);
    var columns := ops.dot(inherited);
    if columns.Err? {
      return Err(columns.error);
    }
    var locs := CollectLocations(node);
    var source: Option<ContextKey> := None;
    var loc: Option<BlockType> := None;
    if |locs| == 1 {
      var l :| l in locs;
      loc := Some(l);
    }
    var provenances := CollectProvenances(node);
    var provenance := ops.common(provenances);
    var audiences := CollectAudiences(node);
    var audience := IntersectAudiences(audiences);
    r := Ok(TableMeta(columns.value, loc, source, provenance, audience));
  }

  /** `Repr::to_inner_context` for `TableMeta`: extend a new context with each child's columns. */
  method InnerContext<E>(root: GenericRel<E, TableMeta>, ops: ContextOps) returns (ctx: Context<ExprMeta>)
    ensures ctx == InnerColumns(root, ops)
  {
    var children := Children(root);
    ghost var contexts := Apply(children, ToContext);
    ctx := EmptyContext();
    for i := 0 to |children|
      invariant ExtendAll(ctx, contexts[i..], ops) == InnerColumns(root, ops)
    {
      assert contexts[i..][1..] == contexts[i + 1..];
      ctx := ops.extend(ctx, ToContext(children[i]));
    }
  }
}
