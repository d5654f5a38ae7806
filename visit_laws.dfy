/** What the walk of src/ir.rs promises about order and about what it may
    change, stated against independent descriptions of a tree: the sequence
    of hook calls a pre-order walk makes, the spans of a tree in pre-order,
    and the tree with every span erased. */
module VisitLaws {
  import opened Ir
  import opened Visit

  // ---------------------------------------------------------------------
  // Order: the hook calls of a walk

  /** One call of a hook, with the node it was shown. */
  datatype Event = ExprVisited(expr: Expression) | SpanVisited(span: Span)

  /** The hook calls a pre-order walk of `e` makes: `visit_expr` on the node,
      `visit_span` on its span, then those of its children left to right. */
  function ExprEvents(e: Expression): seq<Event>
  {
    [ExprVisited(e), SpanVisited(e.span)] + DataEvents(e.data)
  }

  function DataEvents(d: ExpressionData): seq<Event>
  {
    match d
    case Op(l, _, r) => ExprEvents(l) + ExprEvents(r)
    case Number(_) => []
    case Variable(_) => []
    case Call(_, args) => ListEvents(args)
  }

  function ListEvents(es: seq<Expression>): seq<Event>
  {
    if es == [] then [] else ExprEvents(es[0]) + ListEvents(es[1..])
  }

  function FunctionDataEvents(fd: FunctionData): seq<Event>
  {
    [SpanVisited(fd.nameSpan)] + ExprEvents(fd.body)
  }

  function StatementEvents(st: Statement): seq<Event>
  {
    [SpanVisited(st.span)] +
    match st.data
    case Function(_, data) => FunctionDataEvents(data)
    case Print(x) => ExprEvents(x)
  }

  /** The visitor state after the hooks have been shown `events` in order. */
  function Replay<S(!new)>(v: Visitor<S>, s: S, events: seq<Event>): S
  {
    if events == [] then s
    else
      var s1 := match events[0]
        case ExprVisited(e) => v.visitExpr(s, e).0
        case SpanVisited(sp) => v.visitSpan(s, sp).0;
      Replay(v, s1, events[1..])
  }

  /** A visitor whose hooks may update its own state but leave every node
      they are shown as it was. */
  ghost predicate Observes<S(!new)>(v: Visitor<S>)
  {
    (forall s: S, e: Expression :: v.visitExpr(s, e).1 == e) &&
    (forall s: S, sp: Span :: v.visitSpan(s, sp).1 == sp)
  }

  lemma {:induction false} ReplayAppend<S(!new)>(v: Visitor<S>, s: S, a: seq<Event>, b: seq<Event>)
    ensures Replay(v, s, a + b) == Replay(v, Replay(v, s, a), b)
  {
    if a == [] {
      assert a + b == b;
    } else {
      assert (a + b)[0] == a[0];
      assert (a + b)[1..] == a[1..] + b;
      var s1 := match a[0]
        case ExprVisited(e) => v.visitExpr(s, e).0
        case SpanVisited(sp) => v.visitSpan(s, sp).0;
      ReplayAppend(v, s1, a[1..], b);
    }
  }

  /** A walk shows the hooks exactly the pre-order sequence of hook calls and
      changes nothing when the hooks change nothing. */
  lemma {:induction false} ObservingExpr<S(!new)>(v: Visitor<S>, s: S, e: Expression)
    requires Observes(v)
    ensures ExprHookShrinks(v)
    ensures TraverseExpr(v, s, e) == (Replay(v, s, ExprEvents(e)), e)
    decreases NodeCount(e), 0
  {
    var s1 := v.visitExpr(s, e).0;
    var s2 := v.visitSpan(s1, e.span).0;
    ObservingData(v, s2, e.data);
    var evs := [ExprVisited(e), SpanVisited(e.span)];
    ReplayAppend(v, s, evs, DataEvents(e.data));
    assert evs[1..] == [SpanVisited(e.span)];
    assert evs[1..][1..] == [];
    assert Replay(v, s2, evs[1..][1..]) == s2;
    assert Replay(v, s1, evs[1..]) == s2;
    assert Replay(v, s, evs) == s2;
  }

  lemma {:induction false} ObservingData<S(!new)>(v: Visitor<S>, s: S, d: ExpressionData)
    requires Observes(v)
    ensures ExprHookShrinks(v)
    ensures TraverseData(v, s, d) == (Replay(v, s, DataEvents(d)), d)
    decreases DataNodeCount(d), 2
  {
    match d
    case Op(l, _, r) =>
      ObservingExpr(v, s, l);
      ObservingExpr(v, Replay(v, s, ExprEvents(l)), r);
      ReplayAppend(v, s, ExprEvents(l), ExprEvents(r));
    case Number(_) =>
    case Variable(_) =>
    case Call(_, args) =>
      ObservingList(v, s, args);
  }

  lemma {:induction false} ObservingList<S(!new)>(v: Visitor<S>, s: S, es: seq<Expression>)
    requires Observes(v)
    ensures ExprHookShrinks(v)
    ensures TraverseList(v, s, es) == (Replay(v, s, ListEvents(es)), es)
    decreases ListNodeCount(es), 1
  {
    if es != [] {
      ObservingExpr(v, s, es[0]);
      var s1 := Replay(v, s, ExprEvents(es[0]));
      ObservingList(v, s1, es[1..]);
      ReplayAppend(v, s, ExprEvents(es[0]), ListEvents(es[1..]));
      assert [es[0]] + es[1..] == es;
    }
  }

  /** `FunctionData`: the name span is shown first, then the body in
      pre-order; the argument names are never shown. */
  lemma ObservingFunctionData<S(!new)>(v: Visitor<S>, s: S, fd: FunctionData)
    requires Observes(v)
    ensures ExprHookShrinks(v)
    ensures TraverseFunctionData(v, s, fd) == (Replay(v, s, FunctionDataEvents(fd)), fd)
  {
    var s1 := v.visitSpan(s, fd.nameSpan).0;
    ObservingExpr(v, s1, fd.body);
    ReplayAppend(v, s, [SpanVisited(fd.nameSpan)], ExprEvents(fd.body));
  }

  /** `Statement`: the statement's span first, then its payload. */
  lemma ObservingStatement<S(!new)>(v: Visitor<S>, s: S, st: Statement)
    requires Observes(v)
    ensures ExprHookShrinks(v)
    ensures TraverseStatement(v, s, st) == (Replay(v, s, StatementEvents(st)), st)
  {
    var s1 := v.visitSpan(s, st.span).0;
    match st.data
    case Function(_, data) =>
      ObservingFunctionData(v, s1, data);
      ReplayAppend(v, s, [SpanVisited(st.span)], FunctionDataEvents(data));
    case Print(x) =>
      ObservingExpr(v, s1, x);
      ReplayAppend(v, s, [SpanVisited(st.span)], ExprEvents(x));
  }

  /** Hooks that change nothing, shown any events, leave the state alone. */
  lemma {:induction false} ReplayDefault<S(!new)>(s: S, events: seq<Event>)
    ensures Replay(DefaultVisitor(), s, events) == s
  {
    if events != [] {
      ReplayDefault(s, events[1..]);
    }
  }

  /** The trait's default hooks make a walk of an expression change nothing:
      neither the visitor's state nor the tree. */
  lemma DefaultWalkIsIdentityExpr<S(!new)>(s: S, e: Expression)
    ensures ExprHookShrinks(DefaultVisitor<S>())
    ensures TraverseExpr(DefaultVisitor(), s, e) == (s, e)
  {
    ObservingExpr(DefaultVisitor(), s, e);
    ReplayDefault(s, ExprEvents(e));
  }

  /** The same for a statement. */
  lemma DefaultWalkIsIdentity<S(!new)>(s: S, st: Statement)
    ensures ExprHookShrinks(DefaultVisitor<S>())
    ensures TraverseStatement(DefaultVisitor(), s, st) == (s, st)
  {
    ObservingStatement(DefaultVisitor(), s, st);
    ReplayDefault(s, StatementEvents(st));
  }

  /** A visitor that counts the spans it is shown: the default hooks with
      `visit_span` overridden. */
  function SpanCounter(): (v: Visitor<nat>)
    ensures Observes(v)
    ensures forall n: nat, sp: Span :: v.visitSpan(n, sp).0 == n + 1
    ensures forall n: nat, e: Expression :: v.visitExpr(n, e).0 == n
    ensures forall n: nat, st: Statement :: v.visitStatement(n, st) == (n, st)
  {
    DefaultVisitor<nat>().(visitSpan := (n: nat, sp) => (n + 1, sp))
  }

  lemma {:induction false} CountSpansExpr(n: nat, e: Expression)
    ensures ExprHookShrinks(SpanCounter())
    ensures TraverseExpr(SpanCounter(), n, e) == (n + NodeCount(e), e)
    decreases NodeCount(e), 0
  {
    CountSpansData(n + 1, e.data);
  }

  lemma {:induction false} CountSpansData(n: nat, d: ExpressionData)
    ensures ExprHookShrinks(SpanCounter())
    ensures TraverseData(SpanCounter(), n, d) == (n + DataNodeCount(d), d)
    decreases DataNodeCount(d), 2
  {
    match d
    case Op(l, _, r) =>
      CountSpansExpr(n, l);
      CountSpansExpr(n + NodeCount(l), r);
    case Number(_) =>
    case Variable(_) =>
    case Call(_, args) =>
      CountSpansList(n, args);
  }

  lemma {:induction false} CountSpansList(n: nat, es: seq<Expression>)
    ensures ExprHookShrinks(SpanCounter())
    ensures TraverseList(SpanCounter(), n, es) == (n + ListNodeCount(es), es)
    decreases ListNodeCount(es), 1
  {
    if es != [] {
      CountSpansExpr(n, es[0]);
      CountSpansList(n + NodeCount(es[0]), es[1..]);
      assert [es[0]] + es[1..] == es;
    }
  }

  /** Walking a `FunctionData` calls `visit_span` exactly once more than
      there are expression nodes in its body, and changes nothing when the
      hook changes nothing. */
  lemma CountSpansFunctionData(n: nat, fd: FunctionData)
    ensures ExprHookShrinks(SpanCounter())
    ensures TraverseFunctionData(SpanCounter(), n, fd) == (n + 1 + NodeCount(fd.body), fd)
  {
    CountSpansExpr(n + 1, fd.body);
  }

  // ---------------------------------------------------------------------
  // Frames: what a visitor that overrides only `visit_span` may change

  /** The span every span is replaced by when a tree is erased. */
  function Placeholder(): Span
  {
    Span(DefId.Unknown(), 0, 0)
  }

  /** The tree with every span replaced by `Placeholder()`: its shape,
      operators, literals, variables and call targets. */
  function EraseSpans(e: Expression): Expression
  {
    Expression(Placeholder(), EraseData(e.data))
  }

  function EraseData(d: ExpressionData): ExpressionData
  {
    match d
    case Op(l, op, r) => Op(EraseSpans(l), op, EraseSpans(r))
    case Number(_) => d
    case Variable(_) => d
    case Call(callee, args) => Call(callee, EraseList(args))
  }

  function EraseList(es: seq<Expression>): seq<Expression>
  {
    if es == [] then [] else [EraseSpans(es[0])] + EraseList(es[1..])
  }

  function EraseFunctionData(fd: FunctionData): FunctionData
  {
    FunctionData(Placeholder(), fd.args, EraseSpans(fd.body))
  }

  function EraseStatement(st: Statement): Statement
  {
    Statement(Placeholder(),
      match st.data
      case Function(name, data) => StatementData.Function(name, EraseFunctionData(data))
      case Print(x) => Print(EraseSpans(x)))
  }

  /** The spans of a tree in pre-order: the node's own, then its children's
      left to right. */
  function SpansOf(e: Expression): seq<Span>
  {
    [e.span] + DataSpans(e.data)
  }

  function DataSpans(d: ExpressionData): seq<Span>
  {
    match d
    case Op(l, _, r) => SpansOf(l) + SpansOf(r)
    case Number(_) => []
    case Variable(_) => []
    case Call(_, args) => ListSpans(args)
  }

  function ListSpans(es: seq<Expression>): seq<Span>
  {
    if es == [] then [] else SpansOf(es[0]) + ListSpans(es[1..])
  }

  function FunctionDataSpans(fd: FunctionData): seq<Span>
  {
    [fd.nameSpan] + SpansOf(fd.body)
  }

  function StatementSpans(st: Statement): seq<Span>
  {
    [st.span] +
    match st.data
    case Function(_, data) => FunctionDataSpans(data)
    case Print(x) => SpansOf(x)
  }

  /** `visit_span` shown `spans` one after the other: the final state and
      the spans it left. */
  function ThreadSpans<S(!new)>(v: Visitor<S>, s: S, spans: seq<Span>): (S, seq<Span>)
  {
    if spans == [] then (s, [])
    else
      var (s1, x) := v.visitSpan(s, spans[0]);
      var (s2, xs) := ThreadSpans(v, s1, spans[1..]);
      (s2, [x] + xs)
  }

  /** A visitor that keeps the default `visit_expr`. */
  ghost predicate SpanOnly<S(!new)>(v: Visitor<S>)
  {
    forall s: S, e: Expression :: v.visitExpr(s, e) == (s, e)
  }

  lemma {:induction false} ThreadSpansAppend<S(!new)>(v: Visitor<S>, s: S, a: seq<Span>, b: seq<Span>)
    ensures var (s1, a') := ThreadSpans(v, s, a);
            var (s2, b') := ThreadSpans(v, s1, b);
            ThreadSpans(v, s, a + b) == (s2, a' + b')
  {
    if a == [] {
      assert a + b == b;
      assert ThreadSpans(v, s, a) == (s, []);
      assert [] + ThreadSpans(v, s, b).1 == ThreadSpans(v, s, b).1;
    } else {
      assert (a + b)[0] == a[0];
      assert (a + b)[1..] == a[1..] + b;
      var (s0, x) := v.visitSpan(s, a[0]);
      ThreadSpansAppend(v, s0, a[1..], b);
      var (s1, xs) := ThreadSpans(v, s0, a[1..]);
      var (s2, b') := ThreadSpans(v, s1, b);
      assert [x] + (xs + b') == ([x] + xs) + b';
    }
  }

  /** With only `visit_span` overridden, a walk changes nothing but spans,
      and the spans it leaves are what `visit_span` returned when shown the
      original spans once each, in pre-order. */
  lemma {:induction false} SpanOnlyExpr<S(!new)>(v: Visitor<S>, s: S, e: Expression)
    requires SpanOnly(v)
    ensures ExprHookShrinks(v)
    ensures var (s', e') := TraverseExpr(v, s, e);
            EraseSpans(e') == EraseSpans(e) && ThreadSpans(v, s, SpansOf(e)) == (s', SpansOf(e'))
    decreases NodeCount(e), 0
  {
    var (s1, span) := v.visitSpan(s, e.span);
    SpanOnlyData(v, s1, e.data);
    assert SpansOf(e)[0] == e.span;
    assert SpansOf(e)[1..] == DataSpans(e.data);
  }

  lemma {:induction false} SpanOnlyData<S(!new)>(v: Visitor<S>, s: S, d: ExpressionData)
    requires SpanOnly(v)
    ensures ExprHookShrinks(v)
    ensures var (s', d') := TraverseData(v, s, d);
            EraseData(d') == EraseData(d) && ThreadSpans(v, s, DataSpans(d)) == (s', DataSpans(d'))
    decreases DataNodeCount(d), 2
  {
    match d
    case Op(l, _, r) =>
      SpanOnlyExpr(v, s, l);
      var (s1, l') := TraverseExpr(v, s, l);
      SpanOnlyExpr(v, s1, r);
      ThreadSpansAppend(v, s, SpansOf(l), SpansOf(r));
    case Number(_) =>
    case Variable(_) =>
    case Call(_, args) =>
      SpanOnlyList(v, s, args);
  }

  lemma {:induction false} SpanOnlyList<S(!new)>(v: Visitor<S>, s: S, es: seq<Expression>)
    requires SpanOnly(v)
    ensures ExprHookShrinks(v)
    ensures var (s', es') := TraverseList(v, s, es);
            EraseList(es') == EraseList(es) && ThreadSpans(v, s, ListSpans(es)) == (s', ListSpans(es'))
    decreases ListNodeCount(es), 1
  {
    if es != [] {
      SpanOnlyExpr(v, s, es[0]);
      var (s1, x) := TraverseExpr(v, s, es[0]);
      SpanOnlyList(v, s1, es[1..]);
      ThreadSpansAppend(v, s, SpansOf(es[0]), ListSpans(es[1..]));
      var (s2, xs) := TraverseList(v, s1, es[1..]);
      assert ([x] + xs)[0] == x;
      assert ([x] + xs)[1..] == xs;
    }
  }

  /** With only `visit_span` overridden, walking a `FunctionData` keeps its
      argument names and body shape, and shows `visit_span` exactly its
      1 + (number of body nodes) spans, name span first. */
  lemma SpanOnlyFunctionData<S(!new)>(v: Visitor<S>, s: S, fd: FunctionData)
    requires SpanOnly(v)
    ensures ExprHookShrinks(v)
    ensures var (s', fd') := TraverseFunctionData(v, s, fd);
            fd'.args == fd.args &&
            EraseFunctionData(fd') == EraseFunctionData(fd) &&
            ThreadSpans(v, s, FunctionDataSpans(fd)) == (s', FunctionDataSpans(fd'))
    ensures |FunctionDataSpans(fd)| == 1 + NodeCount(fd.body)
  {
    var (s1, nameSpan) := v.visitSpan(s, fd.nameSpan);
    SpanOnlyExpr(v, s1, fd.body);
    ThreadSpansAppend(v, s, [fd.nameSpan], SpansOf(fd.body));
    SpanCount(fd.body);
  }

  /** With only `visit_span` overridden, walking a statement keeps
      everything but its spans (a definition's name included). */
  lemma SpanOnlyStatement<S(!new)>(v: Visitor<S>, s: S, st: Statement)
    requires SpanOnly(v)
    ensures ExprHookShrinks(v)
    ensures var (s', st') := TraverseStatement(v, s, st);
            EraseStatement(st') == EraseStatement(st) &&
            ThreadSpans(v, s, StatementSpans(st)) == (s', StatementSpans(st'))
  {
    var (s1, span) := v.visitSpan(s, st.span);
    match st.data
    case Function(_, data) =>
      SpanOnlyFunctionData(v, s1, data);
      ThreadSpansAppend(v, s, [st.span], FunctionDataSpans(data));
    case Print(x) =>
      SpanOnlyExpr(v, s1, x);
      ThreadSpansAppend(v, s, [st.span], SpansOf(x));
  }

  /** A `visit_span` that leaves the visitor's state alone rewrites each
      span on its own. */
  lemma {:induction false} ThreadSpansStateless<S(!new)>(v: Visitor<S>, s: S, spans: seq<Span>)
    requires forall sp: Span :: v.visitSpan(s, sp).0 == s
    ensures var (s', out) := ThreadSpans(v, s, spans);
            s' == s && |out| == |spans| &&
            forall i :: 0 <= i < |spans| ==> out[i] == v.visitSpan(s, spans[i]).1
  {
    if spans != [] {
      ThreadSpansStateless(v, s, spans[1..]);
      var (s', out) := ThreadSpans(v, s, spans);
      forall i | 0 <= i < |spans|
        ensures out[i] == v.visitSpan(s, spans[i]).1
      {
        if i > 0 {
          assert out[i] == ThreadSpans(v, s, spans[1..]).1[i - 1];
        }
      }
    }
  }

  // ---------------------------------------------------------------------
  // A tree is determined by its shape and its spans

  lemma {:induction false} SpanCount(e: Expression)
    ensures |SpansOf(e)| == NodeCount(e)
    decreases NodeCount(e), 0
  {
    SpanCountData(e.data);
  }

  lemma {:induction false} SpanCountData(d: ExpressionData)
    ensures |DataSpans(d)| == DataNodeCount(d)
    decreases DataNodeCount(d), 2
  {
    match d
    case Op(l, _, r) => SpanCount(l); SpanCount(r);
    case Number(_) =>
    case Variable(_) =>
    case Call(_, args) => SpanCountList(args);
  }

  lemma {:induction false} SpanCountList(es: seq<Expression>)
    ensures |ListSpans(es)| == ListNodeCount(es)
    decreases ListNodeCount(es), 1
  {
    if es != [] {
      SpanCount(es[0]);
      SpanCountList(es[1..]);
    }
  }

  lemma {:induction false} EraseCount(e: Expression)
    ensures NodeCount(EraseSpans(e)) == NodeCount(e)
    decreases NodeCount(e), 0
  {
    EraseCountData(e.data);
  }

  lemma {:induction false} EraseCountData(d: ExpressionData)
    ensures DataNodeCount(EraseData(d)) == DataNodeCount(d)
    decreases DataNodeCount(d), 2
  {
    match d
    case Op(l, _, r) => EraseCount(l); EraseCount(r);
    case Number(_) =>
    case Variable(_) =>
    case Call(_, args) => EraseCountList(args);
  }

  lemma {:induction false} EraseCountList(es: seq<Expression>)
    ensures ListNodeCount(EraseList(es)) == ListNodeCount(es)
    decreases ListNodeCount(es), 1
  {
    if es != [] {
      EraseCount(es[0]);
      EraseCountList(es[1..]);
      var r := EraseList(es);
      assert r[0] == EraseSpans(es[0]);
      assert r[1..] == EraseList(es[1..]);
    }
  }

  /** Two expressions with the same shape and the same spans are equal. */
  lemma {:induction false} ShapeAndSpansDetermine(a: Expression, b: Expression)
    requires EraseSpans(a) == EraseSpans(b) && SpansOf(a) == SpansOf(b)
    ensures a == b
    decreases NodeCount(a), 0
  {
    assert a.span == SpansOf(a)[0] == SpansOf(b)[0] == b.span;
    assert DataSpans(a.data) == SpansOf(a)[1..] == SpansOf(b)[1..] == DataSpans(b.data);
    ShapeAndSpansDetermineData(a.data, b.data);
  }

  lemma {:induction false} ShapeAndSpansDetermineData(a: ExpressionData, b: ExpressionData)
    requires EraseData(a) == EraseData(b) && DataSpans(a) == DataSpans(b)
    ensures a == b
    decreases DataNodeCount(a), 2
  {
    match a
    case Op(l1, _, r1) =>
      var Op(l2, _, r2) := b;
      SplitBySize(l1, l2, SpansOf(r1), SpansOf(r2));
      ShapeAndSpansDetermine(l1, l2);
      ShapeAndSpansDetermine(r1, r2);
    case Number(_) =>
    case Variable(_) =>
    case Call(_, args1) =>
      ShapeAndSpansDetermineList(args1, b.args);
  }

  lemma {:induction false} ShapeAndSpansDetermineList(a: seq<Expression>, b: seq<Expression>)
    requires EraseList(a) == EraseList(b) && ListSpans(a) == ListSpans(b)
    ensures a == b
    decreases ListNodeCount(a), 1
  {
    if a != [] {
      if b == [] {
        assert false;
      }
      assert EraseList(a)[0] == EraseSpans(a[0]) && EraseList(b)[0] == EraseSpans(b[0]);
      assert EraseList(a)[1..] == EraseList(a[1..]) && EraseList(b)[1..] == EraseList(b[1..]);
      SplitBySize(a[0], b[0], ListSpans(a[1..]), ListSpans(b[1..]));
      ShapeAndSpansDetermine(a[0], b[0]);
      ShapeAndSpansDetermineList(a[1..], b[1..]);
      assert a == [a[0]] + a[1..] && b == [b[0]] + b[1..];
    } else if b != [] {
      assert false;
    }
  }

  /** Trees of the same shape contribute prefixes of the same length. */
  lemma SplitBySize(x: Expression, y: Expression, rest1: seq<Span>, rest2: seq<Span>)
    requires EraseSpans(x) == EraseSpans(y)
    requires SpansOf(x) + rest1 == SpansOf(y) + rest2
    ensures SpansOf(x) == SpansOf(y) && rest1 == rest2
  {
    SpanCount(x);
    SpanCount(y);
    EraseCount(x);
    EraseCount(y);
    var n := |SpansOf(x)|;
    assert SpansOf(x) == (SpansOf(x) + rest1)[..n];
    assert SpansOf(y) == (SpansOf(y) + rest2)[..n];
    assert rest1 == (SpansOf(x) + rest1)[n..];
    assert rest2 == (SpansOf(y) + rest2)[n..];
  }

  /** Two function definitions with the same shape and the same spans are
      equal. */
  lemma ShapeAndSpansDetermineFunctionData(a: FunctionData, b: FunctionData)
    requires EraseFunctionData(a) == EraseFunctionData(b)
    requires FunctionDataSpans(a) == FunctionDataSpans(b)
    ensures a == b
  {
    assert a.nameSpan == FunctionDataSpans(a)[0] == FunctionDataSpans(b)[0] == b.nameSpan;
    assert SpansOf(a.body) == FunctionDataSpans(a)[1..] == FunctionDataSpans(b)[1..] == SpansOf(b.body);
    ShapeAndSpansDetermine(a.body, b.body);
  }

  // ---------------------------------------------------------------------
  // `visit_statement` is never called

  lemma {:induction false} StatementHookUnusedExpr<S(!new)>(v: Visitor<S>, h: (S, Statement) -> (S, Statement), s: S, e: Expression)
    requires ExprHookShrinks(v)
    ensures ExprHookShrinks(v.(visitStatement := h))
    ensures TraverseExpr(v.(visitStatement := h), s, e) == TraverseExpr(v, s, e)
    decreases NodeCount(e), 0
  {
    var (s1, e1) := v.visitExpr(s, e);
    var (s2, span) := v.visitSpan(s1, e1.span);
    StatementHookUnusedData(v, h, s2, e1.data);
  }

  lemma {:induction false} StatementHookUnusedData<S(!new)>(v: Visitor<S>, h: (S, Statement) -> (S, Statement), s: S, d: ExpressionData)
    requires ExprHookShrinks(v)
    ensures ExprHookShrinks(v.(visitStatement := h))
    ensures TraverseData(v.(visitStatement := h), s, d) == TraverseData(v, s, d)
    decreases DataNodeCount(d), 2
  {
    match d
    case Op(l, _, r) =>
      StatementHookUnusedExpr(v, h, s, l);
      StatementHookUnusedExpr(v, h, TraverseExpr(v, s, l).0, r);
    case Number(_) =>
    case Variable(_) =>
    case Call(_, args) =>
      StatementHookUnusedList(v, h, s, args);
  }

  lemma {:induction false} StatementHookUnusedList<S(!new)>(v: Visitor<S>, h: (S, Statement) -> (S, Statement), s: S, es: seq<Expression>)
    requires ExprHookShrinks(v)
    ensures ExprHookShrinks(v.(visitStatement := h))
    ensures TraverseList(v.(visitStatement := h), s, es) == TraverseList(v, s, es)
    decreases ListNodeCount(es), 1
  {
    if es != [] {
      StatementHookUnusedExpr(v, h, s, es[0]);
      StatementHookUnusedList(v, h, TraverseExpr(v, s, es[0]).0, es[1..]);
    }
  }

  /** Replacing `visit_statement` by any hook at all changes no walk of a
      statement: no `traverse` calls it. */
  lemma StatementHookUnused<S(!new)>(v: Visitor<S>, h: (S, Statement) -> (S, Statement), s: S, st: Statement)
    requires ExprHookShrinks(v)
    ensures ExprHookShrinks(v.(visitStatement := h))
    ensures TraverseStatement(v.(visitStatement := h), s, st) == TraverseStatement(v, s, st)
  {
    var (s1, span) := v.visitSpan(s, st.span);
    match st.data
    case Function(_, data) =>
      var (s2, nameSpan) := v.visitSpan(s1, data.nameSpan);
      StatementHookUnusedExpr(v, h, s2, data.body);
    case Print(x) =>
      StatementHookUnusedExpr(v, h, s1, x);
  }
}
