/** The span-localising parse step of src/parser.rs. The grammar itself is
    generated code and is a parameter here: a function from source text to
    statements with absolute spans, or a syntax error. */
module Parser {
  import opened Ir
  import opened Visit
  import opened VisitLaws

  datatype Option<T> = None | Some(value: T)

  datatype Result<T, E> = Ok(value: T) | Err(error: E)

  /** A syntax error reported by the grammar, by the text its `Display`
      implementation renders. */
  datatype ParseError = ParseError(message: string)

  /** What `parse_statements` yields: the tracked `Program` and the
      diagnostics it pushed into the `Diagnostics` accumulator. */
  datatype Parsed = Parsed(program: Program, diagnostics: seq<Diagnostic>)

  /** The `RewriteSpans` visitor: the offset of the statement being
      localised and the identity of the function it defines. */
  datatype RewriteSpans = RewriteSpans(startOffset: Usize, defId: DefId)
  {
    /** `visit_span`: retag the span with the function's identity and make
        both ends relative to the statement's start. `usize` subtraction
        wraps modulo 2^64, so adding the offset back always recovers the
        absolute position, and when the span lies at or after the offset the
        result is the plain difference. */
    function VisitSpan(span: Span): (r: Span)
      ensures r.id == defId
      ensures (r.start + startOffset) % USIZE_MODULUS == span.start
      ensures (r.end + startOffset) % USIZE_MODULUS == span.end
      ensures startOffset <= span.start ==> r.start == span.start - startOffset
      ensures startOffset <= span.end ==> r.end == span.end - startOffset
    {
      Span(defId, WrappingSub(span.start, startOffset), WrappingSub(span.end, startOffset))
    }

    /** `visit_span` as the source writes it: three assignments to the span
        it is given. */
    method VisitSpanInPlace(span: Span) returns (span': Span)
      ensures span' == VisitSpan(span)
    {
      span' := span;
      span' := span'.(id := defId);
      span' := span'.(start := WrappingSub(span'.start, startOffset));
      span' := span'.(end := WrappingSub(span'.end, startOffset));
    }
  }

  /** `RewriteSpans` as a visitor: the trait's default hooks with only
      `visit_span` overridden, and that one leaves the visitor itself
      unchanged. */
  function RewriteVisitor(): (v: Visitor<RewriteSpans>)
    ensures ExprHookShrinks(v) && SpanOnly(v)
    ensures forall rw: RewriteSpans, st: Statement :: v.visitStatement(rw, st) == (rw, st)
    ensures forall rw: RewriteSpans, sp: Span :: v.visitSpan(rw, sp) == (rw, rw.VisitSpan(sp))
  {
    DefaultVisitor<RewriteSpans>().(visitSpan := (rw: RewriteSpans, sp) => (rw, rw.VisitSpan(sp)))
  }

  /** `DefId::new(db, DefIdData::Function(name))`: the identity every span of
      function `name` is tagged with. It is never `DefId::unknown`. */
  function FunctionDefId(name: FunctionId): (d: DefId)
    ensures d != DefId.Unknown()
  {
    DefId(DefIdData.Function(name))
  }

  /** Distinct functions are tagged with distinct identities, so the spans
      of one definition are never confused with those of another. */
  lemma FunctionDefIdInjective(a: FunctionId, b: FunctionId)
    ensures FunctionDefId(a) == FunctionDefId(b) <==> a == b
  {
  }

  /** The closure given to `flat_map`: a definition becomes a tracked
      `Function` whose `FunctionData` has been walked with `RewriteSpans`,
      offset by the statement's own start; a `print` is dropped. */
  function LocaliseStatement(x: Statement): (r: Option<Function>)
    ensures r.Some? <==> x.data.Function?
    ensures r.Some? ==> r.value.name == x.data.name
  {
    match x.data
    case Function(name, data) =>
      var rewrite := RewriteSpans(x.span.start, FunctionDefId(name));
      var (_, localised) := TraverseFunctionData(RewriteVisitor(), rewrite, data);
      Some(Function.Function(name, localised))
    case Print(_) => None
  }

  /** What `flat_map` takes from one statement: the closure's `Some` as a
      one-element sequence, its `None` as nothing. */
  function Contribution(x: Statement): (fs: seq<Function>)
    ensures |fs| <= 1
    ensures x.data.Function? <==> |fs| == 1
    ensures |fs| == 1 ==> fs[0] == LocaliseStatement(x).value
  {
    match LocaliseStatement(x)
    case Some(f) => [f]
    case None => []
  }

  /** `stmts.into_iter().flat_map(..).collect()`. */
  function CollectFunctions(stmts: seq<Statement>): (fs: seq<Function>)
    ensures |fs| <= |stmts|
  {
    if stmts == [] then [] else Contribution(stmts[0]) + CollectFunctions(stmts[1..])
  }

  /** `parse_statements`: on a syntax error, an empty program and exactly
      one diagnostic at offsets 0..0 carrying the error's text; otherwise
      the localised function definitions, in order, and no diagnostic. */
  function ParseStatements(grammar: string -> Result<seq<Statement>, ParseError>, sourceText: string): (r: Parsed)
    ensures grammar(sourceText).Err? ==>
              r.program.functions == [] &&
              r.diagnostics == [Diagnostic(0, 0, grammar(sourceText).error.message)]
    ensures grammar(sourceText).Ok? ==>
              r.diagnostics == [] &&
              r.program.functions == CollectFunctions(grammar(sourceText).value)
  {
    match grammar(sourceText)
    case Ok(stmts) => Parsed(Program(CollectFunctions(stmts)), [])
    case Err(err) => Parsed(Program([]), [Diagnostic(0, 0, err.message)])
  }

  // ---------------------------------------------------------------------
  // Localising one definition

  /** A localised definition keeps its name, argument names and body shape;
      its i-th span (name span first, then the body in pre-order) is
      `visit_span` applied to the i-th original span, so every one of them
      carries the function's own identity. */
  lemma LocalisedSpans(x: Statement)
    requires x.data.Function?
    ensures var f := LocaliseStatement(x).value;
            var before := FunctionDataSpans(x.data.data);
            var after := FunctionDataSpans(f.data);
            var rewrite := RewriteSpans(x.span.start, FunctionDefId(x.data.name));
            f.name == x.data.name &&
            f.data.args == x.data.data.args &&
            EraseFunctionData(f.data) == EraseFunctionData(x.data.data) &&
            |after| == |before| == 1 + NodeCount(x.data.data.body) &&
            (forall i :: 0 <= i < |before| ==> after[i] == rewrite.VisitSpan(before[i])) &&
            (forall sp :: sp in after ==> sp.id == FunctionDefId(x.data.name))
  {
    var rewrite := RewriteSpans(x.span.start, FunctionDefId(x.data.name));
    SpanOnlyFunctionData(RewriteVisitor(), rewrite, x.data.data);
    ThreadSpansStateless(RewriteVisitor(), rewrite, FunctionDataSpans(x.data.data));
  }

  /** Every span of the definition's `FunctionData` starts and ends at or
      after the statement's own start: then no subtraction wraps. */
  ghost predicate SpansAfterStart(x: Statement)
  {
    x.data.Function? &&
    forall sp :: sp in FunctionDataSpans(x.data.data) ==>
      x.span.start <= sp.start && x.span.start <= sp.end
  }

  /** When no subtraction wraps, each localised span is the original shifted
      down by the statement's start, so its length and the order of its ends
      are preserved. */
  lemma LocalisedOffsets(x: Statement)
    requires SpansAfterStart(x)
    ensures var f := LocaliseStatement(x).value;
            var before := FunctionDataSpans(x.data.data);
            var after := FunctionDataSpans(f.data);
            |after| == |before| &&
            forall i :: 0 <= i < |before| ==>
              after[i].id == FunctionDefId(x.data.name) &&
              after[i].start == before[i].start - x.span.start &&
              after[i].end == before[i].end - x.span.start &&
              after[i].end - after[i].start == before[i].end - before[i].start &&
              (before[i].start <= before[i].end <==> after[i].start <= after[i].end)
  {
    LocalisedSpans(x);
    var before := FunctionDataSpans(x.data.data);
    forall i | 0 <= i < |before|
      ensures before[i] in before
    {
    }
  }

  /** `b` is `a` with every span (the statement's own included) moved by
      `k` bytes, and nothing else changed. */
  ghost predicate ShiftedBy(a: Statement, b: Statement, k: int)
  {
    EraseStatement(b) == EraseStatement(a) &&
    |StatementSpans(b)| == |StatementSpans(a)| &&
    forall i :: 0 <= i < |StatementSpans(a)| ==>
      StatementSpans(b)[i].id == StatementSpans(a)[i].id &&
      StatementSpans(b)[i].start == StatementSpans(a)[i].start + k &&
      StatementSpans(b)[i].end == StatementSpans(a)[i].end + k
  }

  /** Moving a definition within the file does not change its localised
      value: the offset subtracted is the statement's own start, which moves
      with it. This is what lets an edit elsewhere in the file leave the
      tracked `Function` unchanged. */
  lemma TranslationInvariance(a: Statement, b: Statement, k: int)
    requires a.data.Function? && ShiftedBy(a, b, k)
    ensures LocaliseStatement(a) == LocaliseStatement(b)
  {
    var fa := a.data.data;
    assert EraseStatement(b).data == EraseStatement(a).data;
    assert b.data.Function?;
    var fb := b.data.data;
    var name := a.data.name;
    assert b.data.name == name;
    assert EraseFunctionData(fb) == EraseFunctionData(fa);
    var sa, sb := StatementSpans(a), StatementSpans(b);
    assert sa == [a.span] + FunctionDataSpans(fa);
    assert sb == [b.span] + FunctionDataSpans(fb);
    assert sa[0] == a.span && sb[0] == b.span;
    assert b.span.start == a.span.start + k;
    LocalisedSpans(a);
    LocalisedSpans(b);
    var la, lb := LocaliseStatement(a).value.data, LocaliseStatement(b).value.data;
    var ra := RewriteSpans(a.span.start, FunctionDefId(name));
    var rb := RewriteSpans(b.span.start, FunctionDefId(name));
    forall i | 0 <= i < |FunctionDataSpans(fa)|
      ensures FunctionDataSpans(la)[i] == FunctionDataSpans(lb)[i]
    {
      assert FunctionDataSpans(fa)[i] == sa[i + 1];
      assert FunctionDataSpans(fb)[i] == sb[i + 1];
      ShiftedSpanLocalisesAlike(ra, FunctionDataSpans(fa)[i], FunctionDataSpans(fb)[i], k);
    }
    ShapeAndSpansDetermineFunctionData(la, lb);
  }

  lemma ShiftedSpanLocalisesAlike(ra: RewriteSpans, s: Span, t: Span, k: int)
    requires 0 <= ra.startOffset + k < USIZE_MODULUS
    requires t.start == s.start + k && t.end == s.end + k
    ensures ra.VisitSpan(s) == RewriteSpans(ra.startOffset + k, ra.defId).VisitSpan(t)
  {
  }

  // ---------------------------------------------------------------------
  // Collecting the definitions of a file

  /** The definitions of a concatenation are those of its parts, in order. */
  lemma {:induction false} CollectFunctionsAppend(a: seq<Statement>, b: seq<Statement>)
    ensures CollectFunctions(a + b) == CollectFunctions(a) + CollectFunctions(b)
  {
    if a == [] {
      assert a + b == b;
    } else {
      assert (a + b)[0] == a[0];
      assert (a + b)[1..] == a[1..] + b;
      CollectFunctionsAppend(a[1..], b);
      var h := Contribution(a[0]);
      assert CollectFunctions(a + b) == h + CollectFunctions(a[1..] + b);
      assert h + (CollectFunctions(a[1..]) + CollectFunctions(b)) == (h + CollectFunctions(a[1..])) + CollectFunctions(b);
    }
  }

  /** The number of function definitions among `stmts`. */
  function DefinitionCount(stmts: seq<Statement>): nat
  {
    if stmts == [] then 0
    else (if stmts[0].data.Function? then 1 else 0) + DefinitionCount(stmts[1..])
  }

  /** One function is collected per definition: none is lost, none is
      duplicated. */
  lemma {:induction false} CollectFunctionsCount(stmts: seq<Statement>)
    ensures |CollectFunctions(stmts)| == DefinitionCount(stmts)
  {
    if stmts != [] {
      CollectFunctionsCount(stmts[1..]);
    }
  }

  /** A single statement contributes its localised definition, or nothing
      if it is a `print`. */
  lemma CollectFunctionsSingle(x: Statement)
    ensures x.data.Function? ==> CollectFunctions([x]) == [LocaliseStatement(x).value]
    ensures x.data.Print? ==> CollectFunctions([x]) == []
  {
  }

  /** `print` statements are dropped: removing one anywhere changes nothing. */
  lemma PrintDropped(before: seq<Statement>, x: Statement, after: seq<Statement>)
    requires x.data.Print?
    ensures CollectFunctions(before + [x] + after) == CollectFunctions(before + after)
  {
    CollectFunctionsAppend(before + [x], after);
    CollectFunctionsAppend(before, [x]);
    CollectFunctionsSingle(x);
    CollectFunctionsAppend(before, after);
  }

  /** A function is collected exactly when some statement of the file
      localises to it. */
  lemma {:induction false} CollectFunctionsMembers(stmts: seq<Statement>, f: Function)
    ensures f in CollectFunctions(stmts) <==>
            exists j :: 0 <= j < |stmts| && LocaliseStatement(stmts[j]) == Some(f)
  {
    if stmts != [] {
      CollectFunctionsMembers(stmts[1..], f);
      if exists j :: 0 <= j < |stmts| && LocaliseStatement(stmts[j]) == Some(f) {
        var j :| 0 <= j < |stmts| && LocaliseStatement(stmts[j]) == Some(f);
        if j > 0 {
          assert stmts[1..][j - 1] == stmts[j];
        }
      }
      if exists j :: 0 <= j < |stmts[1..]| && LocaliseStatement(stmts[1..][j]) == Some(f) {
        var j :| 0 <= j < |stmts[1..]| && LocaliseStatement(stmts[1..][j]) == Some(f);
        assert stmts[j + 1] == stmts[1..][j];
      }
    }
  }

  /** Every span of every collected function carries that function's own
      identity. */
  lemma FunctionsTaggedWithOwnName(stmts: seq<Statement>)
    ensures forall f :: f in CollectFunctions(stmts) ==>
              forall sp :: sp in FunctionDataSpans(f.data) ==> sp.id == FunctionDefId(f.name)
  {
    forall f | f in CollectFunctions(stmts)
      ensures forall sp :: sp in FunctionDataSpans(f.data) ==> sp.id == FunctionDefId(f.name)
    {
      CollectFunctionsMembers(stmts, f);
      var j :| 0 <= j < |stmts| && LocaliseStatement(stmts[j]) == Some(f);
      LocalisedSpans(stmts[j]);
    }
  }

  /** The tracked value of a definition depends on nothing but its own
      statement, up to where that statement sits: with any statements
      before and after it, and moved by any number of bytes, it yields the
      same `Function` at its place among the file's functions. */
  lemma EditIsolation(before1: seq<Statement>, a: Statement, after1: seq<Statement>,
                      before2: seq<Statement>, b: Statement, after2: seq<Statement>, k: int)
    requires a.data.Function? && ShiftedBy(a, b, k)
    ensures |CollectFunctions(before1)| < |CollectFunctions(before1 + [a] + after1)|
    ensures |CollectFunctions(before2)| < |CollectFunctions(before2 + [b] + after2)|
    ensures CollectFunctions(before1 + [a] + after1)[|CollectFunctions(before1)|] ==
            CollectFunctions(before2 + [b] + after2)[|CollectFunctions(before2)|]
  {
    TranslationInvariance(a, b, k);
    assert b.data.Function? by {
      assert EraseStatement(b).data == EraseStatement(a).data;
    }
    CollectFunctionsAppend(before1 + [a], after1);
    CollectFunctionsAppend(before1, [a]);
    CollectFunctionsSingle(a);
    CollectFunctionsAppend(before2 + [b], after2);
    CollectFunctionsAppend(before2, [b]);
    CollectFunctionsSingle(b);
  }
}
