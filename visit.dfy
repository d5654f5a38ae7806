/** The `Visitor` hooks and the `Visit::traverse` walk of src/ir.rs.

    The source walks a tree through `&mut` references and lets the visitor
    change every node in place. Here each walk consumes the visitor's state
    and a node and returns both as updated: Rust's `&mut` rules out any
    aliasing, so nothing else can observe the difference. The functions
    `Traverse*` are the walk's meaning; the methods `Traverse*InPlace` follow
    the source statement by statement (the `Vec<T>` impl is a loop) and are
    proved to compute exactly what the functions describe. */
module Visit {
  import opened Ir

  /** The three hooks of the `Visitor` trait for a visitor whose own state
      has type `S`. A hook receives the state and the node it is shown, and
      returns both as it left them. */
  datatype Visitor<!S> = Visitor(
    visitStatement: (S, Statement) -> (S, Statement),
    visitExpr: (S, Expression) -> (S, Expression),
    visitSpan: (S, Span) -> (S, Span))

  /** The trait's default hooks: each leaves state and node as they were. */
  function DefaultVisitor<S(!new)>(): (v: Visitor<S>)
    ensures forall s: S, sp: Span :: v.visitSpan(s, sp) == (s, sp)
    ensures forall s: S, e: Expression :: v.visitExpr(s, e) == (s, e)
    ensures forall s: S, st: Statement :: v.visitStatement(s, st) == (s, st)
  {
    Visitor((s, st) => (s, st), (s, e) => (s, e), (s, sp) => (s, sp))
  }

  /** A `visit_expr` hook that never replaces a node by a larger one. The walk
      descends into whatever node the hook leaves behind, so this is what
      makes it finish. */
  ghost predicate ExprHookShrinks<S(!new)>(v: Visitor<S>)
  {
    forall s: S, e: Expression :: NodeCount(v.visitExpr(s, e).1) <= NodeCount(e)
  }

  /** `impl Visit for Span`: the span is shown to `visit_span`. */
  function TraverseSpan<S(!new)>(v: Visitor<S>, s: S, span: Span): (S, Span)
  {
    v.visitSpan(s, span)
  }

  /** `impl Visit for Expression`: `visit_expr` on the node, then
      `visit_span` on its span, then its payload. */
  function TraverseExpr<S(!new)>(v: Visitor<S>, s: S, e: Expression): (S, Expression)
    requires ExprHookShrinks(v)
    decreases NodeCount(e), 0
  {
    var (s1, e1) := v.visitExpr(s, e);
    var (s2, span) := TraverseSpan(v, s1, e1.span);
    var (s3, data) := TraverseData(v, s2, e1.data);
    (s3, Expression(span, data))
  }

  /** `impl Visit for ExpressionData`: the operands of `Op` left to right,
      the arguments of `Call` as a list; literals and variables have no
      children. */
  function TraverseData<S(!new)>(v: Visitor<S>, s: S, d: ExpressionData): (S, ExpressionData)
    requires ExprHookShrinks(v)
    decreases DataNodeCount(d), 2
  {
    match d
    case Op(l, op, r) =>
      var (s1, l') := TraverseExpr(v, s, l);
      var (s2, r') := TraverseExpr(v, s1, r);
      (s2, Op(l', op, r'))
    case Number(_) => (s, d)
    case Variable(_) => (s, d)
    case Call(callee, args) =>
      var (s1, args') := TraverseList(v, s, args);
      (s1, Call(callee, args'))
  }

  /** `impl<T: Visit> Visit for Vec<T>`, at the one `T` the source uses:
      the elements in order. */
  function TraverseList<S(!new)>(v: Visitor<S>, s: S, es: seq<Expression>): (S, seq<Expression>)
    requires ExprHookShrinks(v)
    decreases ListNodeCount(es), 1
  {
    if es == [] then (s, [])
    else
      var (s1, x) := TraverseExpr(v, s, es[0]);
      var (s2, xs) := TraverseList(v, s1, es[1..]);
      (s2, [x] + xs)
  }

  /** `impl Visit for FunctionData`: the name span, then the body; the
      argument names are not visited. */
  function TraverseFunctionData<S(!new)>(v: Visitor<S>, s: S, fd: FunctionData): (S, FunctionData)
    requires ExprHookShrinks(v)
  {
    var (s1, nameSpan) := TraverseSpan(v, s, fd.nameSpan);
    var (s2, body) := TraverseExpr(v, s1, fd.body);
    (s2, FunctionData(nameSpan, fd.args, body))
  }

  /** `impl Visit for StatementData`: a definition's `FunctionData` (not its
      name), or the printed expression. */
  function TraverseStatementData<S(!new)>(v: Visitor<S>, s: S, d: StatementData): (S, StatementData)
    requires ExprHookShrinks(v)
  {
    match d
    case Function(name, data) =>
      var (s1, data') := TraverseFunctionData(v, s, data);
      (s1, StatementData.Function(name, data'))
    case Print(x) =>
      var (s1, x') := TraverseExpr(v, s, x);
      (s1, Print(x'))
  }

  /** `impl Visit for Statement`: the statement's span, then its payload.
      `visit_statement` is not called. */
  function TraverseStatement<S(!new)>(v: Visitor<S>, s: S, st: Statement): (S, Statement)
    requires ExprHookShrinks(v)
  {
    var (s1, span) := TraverseSpan(v, s, st.span);
    var (s2, data) := TraverseStatementData(v, s1, st.data);
    (s2, Statement(span, data))
  }

  lemma ListNodeCountBounds(es: seq<Expression>, i: nat)
    requires i < |es|
    ensures NodeCount(es[i]) <= ListNodeCount(es)
  {
    if i > 0 {
      ListNodeCountBounds(es[1..], i - 1);
    }
  }

  /** Walking a list one element longer walks the shorter list first, then
      the new last element from the state the shorter walk left. */
  lemma {:induction false} TraverseListSnoc<S(!new)>(v: Visitor<S>, s: S, es: seq<Expression>, x: Expression)
    requires ExprHookShrinks(v)
    ensures var (s1, es') := TraverseList(v, s, es);
            var (s2, x') := TraverseExpr(v, s1, x);
            TraverseList(v, s, es + [x]) == (s2, es' + [x'])
  {
    if es == [] {
      assert es + [x] == [x];
      var (s1, x') := TraverseExpr(v, s, x);
      assert [x][1..] == [];
      assert TraverseList(v, s1, []) == (s1, []);
      assert [x'] + [] == [] + [x'];
    } else {
      assert (es + [x])[0] == es[0];
      assert (es + [x])[1..] == es[1..] + [x];
      var (s0, y) := TraverseExpr(v, s, es[0]);
      TraverseListSnoc(v, s0, es[1..], x);
      var (s1, ys) := TraverseList(v, s0, es[1..]);
      assert TraverseList(v, s, es) == (s1, [y] + ys);
      assert [y] + (ys + [TraverseExpr(v, s1, x).1]) == ([y] + ys) + [TraverseExpr(v, s1, x).1];
    }
  }

  method TraverseSpanInPlace<S(!new)>(v: Visitor<S>, s: S, span: Span) returns (s': S, span': Span)
    ensures (s', span') == TraverseSpan(v, s, span)
  {
    var t := v.visitSpan(s, span);
    s', span' := t.0, t.1;
  }

  method TraverseExprInPlace<S(!new)>(v: Visitor<S>, s: S, e: Expression) returns (s': S, e': Expression)
    requires ExprHookShrinks(v)
    ensures (s', e') == TraverseExpr(v, s, e)
    decreases NodeCount(e), 0
  {
    var t := v.visitExpr(s, e);
    s', e' := t.0, t.1;
    var span, data;
    s', span := TraverseSpanInPlace(v, s', e'.span);
    e' := e'.(span := span);
    s', data := TraverseDataInPlace(v, s', e'.data);
    e' := e'.(data := data);
  }

  method TraverseDataInPlace<S(!new)>(v: Visitor<S>, s: S, d: ExpressionData) returns (s': S, d': ExpressionData)
    requires ExprHookShrinks(v)
    ensures (s', d') == TraverseData(v, s, d)
    decreases DataNodeCount(d), 2
  {
    s', d' := s, d;
    match d
    case Op(l, op, r) =>
      var l', r';
      s', l' := TraverseExprInPlace(v, s', l);
      s', r' := TraverseExprInPlace(v, s', r);
      d' := Op(l', op, r');
    case Number(_) =>
    case Variable(_) =>
    case Call(callee, args) =>
      var args';
      s', args' := TraverseListInPlace(v, s', args);
      d' := Call(callee, args');
  }

  /** The `for x in self { x.traverse(db, v) }` loop: each element is
      replaced, in order, by its walked version. */
  method TraverseListInPlace<S(!new)>(v: Visitor<S>, s: S, es: seq<Expression>) returns (s': S, es': seq<Expression>)
    requires ExprHookShrinks(v)
    ensures (s', es') == TraverseList(v, s, es)
    decreases ListNodeCount(es), 1
  {
    s', es' := s, es;
    var i := 0;
    while i < |es|
      invariant 0 <= i <= |es|
      invariant |es'| == |es|
      invariant es'[i..] == es[i..]
      invariant (s', es'[..i]) == TraverseList(v, s, es[..i])
    {
      ListNodeCountBounds(es, i);
      var x;
      ghost var done := es'[..i];
      assert es'[i] == es[i];
      s', x := TraverseExprInPlace(v, s', es[i]);
      TraverseListSnoc(v, s, es[..i], es[i]);
      assert es[..i + 1] == es[..i] + [es[i]];
      es' := es'[i := x];
      assert es'[..i + 1] == done + [x];
      i := i + 1;
    }
    assert es[..i] == es;
    assert es'[..i] == es';
  }

  method TraverseFunctionDataInPlace<S(!new)>(v: Visitor<S>, s: S, fd: FunctionData) returns (s': S, fd': FunctionData)
    requires ExprHookShrinks(v)
    ensures (s', fd') == TraverseFunctionData(v, s, fd)
  {
    fd' := fd;
    var nameSpan, body;
    s', nameSpan := TraverseSpanInPlace(v, s, fd'.nameSpan);
    fd' := fd'.(nameSpan := nameSpan);
    s', body := TraverseExprInPlace(v, s', fd'.body);
    fd' := fd'.(body := body);
  }

  method TraverseStatementDataInPlace<S(!new)>(v: Visitor<S>, s: S, d: StatementData) returns (s': S, d': StatementData)
    requires ExprHookShrinks(v)
    ensures (s', d') == TraverseStatementData(v, s, d)
  {
    match d
    case Function(name, data) =>
      var data';
      s', data' := TraverseFunctionDataInPlace(v, s, data);
      d' := StatementData.Function(name, data');
    case Print(x) =>
      var x';
      s', x' := TraverseExprInPlace(v, s, x);
      d' := Print(x');
  }

  method TraverseStatementInPlace<S(!new)>(v: Visitor<S>, s: S, st: Statement) returns (s': S, st': Statement)
    requires ExprHookShrinks(v)
    ensures (s', st') == TraverseStatement(v, s, st)
  {
    st' := st;
    var span, data;
    s', span := TraverseSpanInPlace(v, s, st'.span);
    st' := st'.(span := span);
    s', data := TraverseStatementDataInPlace(v, s', st'.data);
    st' := st'.(data := data);
  }
}
