/** The intermediate representation of the language (src/ir.rs): interned
    identifiers, source spans, statements, expressions, function definitions,
    programs and diagnostics. */
module Ir {

  /** Rust's `usize` on a 64-bit target. */
  const USIZE_MODULUS: int := 0x1_0000_0000_0000_0000

  type Usize = x: int | 0 <= x < USIZE_MODULUS

  /** `a - b` on `usize` as a release build computes it (modulo 2^64). */
  function WrappingSub(a: Usize, b: Usize): (r: Usize)
    ensures b <= a ==> r == a - b
    ensures a < b ==> r == a - b + USIZE_MODULUS
  {
    (a - b) % USIZE_MODULUS
  }

  /** An interned variable name: two handles are equal exactly when their texts are. */
  datatype VariableId = VariableId(text: string)

  /** An interned function name: two handles are equal exactly when their texts are. */
  datatype FunctionId = FunctionId(text: string)

  /** What a definition identity stands for. */
  datatype DefIdData = Unknown | Function(name: FunctionId)

  /** An interned definition identity, determined by its `DefIdData`. */
  datatype DefId = DefId(data: DefIdData)
  {
    /** `DefId::unknown`: the identity interned for `DefIdData::Unknown`,
        which no function's identity equals. */
    static function Unknown(): (d: DefId)
      ensures d.data.Unknown?
      ensures forall name: FunctionId :: d != DefId(DefIdData.Function(name))
    {
      DefId(DefIdData.Unknown)
    }
  }

  /** A byte range `start..end`, scoped to the definition `id`. */
  datatype Span = Span(id: DefId, start: Usize, end: Usize)

  /** A number literal. The source stores an `OrderedFloat<f64>`; only its
      equality matters here, so the literal is an opaque key. */
  datatype OrderedFloat = OrderedFloat(key: int)

  datatype Op = Add | Subtract | Multiply | Divide

  datatype Expression = Expression(span: Span, data: ExpressionData)

  datatype ExpressionData =
    | Op(left: Expression, op: Op, right: Expression)
    | Number(value: OrderedFloat)
    | Variable(variable: VariableId)
    | Call(callee: FunctionId, args: seq<Expression>)

  datatype FunctionData = FunctionData(nameSpan: Span, args: seq<VariableId>, body: Expression)

  datatype StatementData =
    /** `fn <name>(<args>) = <body>` */
    | Function(name: FunctionId, data: FunctionData)
    /** `print <expr>` */
    | Print(expr: Expression)

  datatype Statement = Statement(span: Span, data: StatementData)

  /** A tracked function: its name and its (localised) definition. */
  datatype Function = Function(name: FunctionId, data: FunctionData)

  /** A tracked program: the functions it defines, in source order. */
  datatype Program = Program(functions: seq<Function>)

  datatype Diagnostic = Diagnostic(start: Usize, end: Usize, message: string)

  /** The number of expression nodes in a tree. */
  function NodeCount(e: Expression): (n: nat)
    ensures n >= 1
  {
    1 + DataNodeCount(e.data)
  }

  function DataNodeCount(d: ExpressionData): nat
  {
    match d
    case Op(l, _, r) => NodeCount(l) + NodeCount(r)
    case Number(_) => 0
    case Variable(_) => 0
    case Call(_, args) => ListNodeCount(args)
  }

  function ListNodeCount(es: seq<Expression>): nat
  {
    if es == [] then 0 else NodeCount(es[0]) + ListNodeCount(es[1..])
  }
}
