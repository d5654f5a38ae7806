# Span localisation in a tiny expression language front end

This project models the AST and the span-localising parse step of a small
compiler front end for a language of function definitions
(`fn f(x, y) = x * y;`) and `print` statements over the four arithmetic
operators. The front end is built on an incremental query engine. It wants
an edit to one function not to invalidate the others. So after parsing, every
position inside a function definition is rewritten. It becomes relative to the
start of that definition's statement, and it is tagged with the definition's
own identity (`DefId`). That way a function's value depends only on its own
text, not on where it sits in the file.

Four modules follow the two source files:

- `Ir` (`ir.dfy`, from `src/ir.rs`): interned identifiers, spans, statements,
  expressions, `FunctionData`, the tracked `Function` and `Program` records,
  diagnostics, and `DefId::unknown`. `usize` is the subset type `Usize`
  (below 2^64).
- `Visit` (`visit.dfy`, from `src/ir.rs`): the `Visitor` hooks and the
  `Visit::traverse` walk. A visitor is a record of three hooks over a state
  `S`. Each hook takes the state and a node and returns both as updated, as
  Rust's `&mut self` and `&mut node` allow. The functions `Traverse*` give the
  walk's meaning. The methods `Traverse*InPlace` follow the source statement
  by statement, with the `Vec<T>` impl as a `while` loop. Each is proved to
  compute what its function describes. Apart from the loop, the methods are
  straight transcriptions of their functions, so all the walk's properties
  are proved about the functions.
- `VisitLaws` (`visit_laws.dfy`): what the walk promises, stated against
  independent descriptions of a tree. These are the pre-order sequence of hook
  calls (`ExprEvents`), the spans in pre-order (`SpansOf`), and the tree with
  every span erased (`EraseSpans`).
- `Parser` (`parser.dfy`, from `src/parser.rs`): `RewriteSpans::visit_span`,
  the `flat_map` closure of `parse_statements`, and `parse_statements`
  itself. The generated grammar is a function parameter
  `grammar: string -> Result<seq<Statement>, ParseError>`.

Where the code and its tests disagree, the model follows the code. On a
syntax error `parse_statements` pushes one diagnostic at `start = 0,
end = 0` with the error's text (src/parser.rs:57-67). The test at
src/parser.rs:334-353 instead expects `{ start: 10, end: 11, message:
"unexpected character" }`, which the code as written does not produce.

## Model

| member | source | states |
|---|---|---|
| `Ir.DefId.Unknown` | src/ir.rs:32-36 | `DefId::unknown` is the identity of `DefIdData::Unknown`, and it differs from the identity of every function |
| `Ir.WrappingSub` | src/parser.rs:22-23 | `usize` subtraction as a release build computes it: the plain difference when no underflow occurs, and the difference plus 2^64 when the subtrahend is larger |
| `Visit.TraverseSpanInPlace` | src/ir.rs:170-174 | walking a span is one call of `visit_span` |
| `Visit.TraverseExprInPlace` | src/ir.rs:95-101 | `visit_expr` on the node, then `visit_span` on the span it left behind, then the payload it left behind |
| `Visit.TraverseDataInPlace` | src/ir.rs:111-125 | `Op` walks the left operand, then the right one; `Call` walks its argument list; `Number` and `Variable` have no children |
| `Visit.TraverseListInPlace` | src/ir.rs:198-204 | the `for x in self` loop replaces each element in order by its walked version, threading the visitor state |
| `Visit.TraverseFunctionDataInPlace` | src/ir.rs:156-161 | the name span is walked, then the body; the argument list is passed through untouched |
| `Visit.TraverseStatementDataInPlace` | src/ir.rs:79-86 | a definition walks its `FunctionData` and keeps its name; a `print` walks its expression |
| `Visit.TraverseStatementInPlace` | src/ir.rs:61-66 | the statement's span is walked, then its payload |
| `Visit.TraverseListSnoc` | src/ir.rs:198-204 | a list one element longer is walked as the shorter list, then the new element from the state that walk left |
| `VisitLaws.ObservingExpr` | src/ir.rs:95-101 | for hooks that leave nodes unchanged, a walk makes exactly the pre-order calls: `visit_expr` on a node, then `visit_span` on its span, then its children left to right; the tree is unchanged |
| `VisitLaws.ObservingData` | src/ir.rs:111-125 | the same law for a payload: left operand before right operand, arguments in order, no calls for literals and variables |
| `VisitLaws.ObservingList` | src/ir.rs:198-204 | the same law for an argument list: elements in order |
| `VisitLaws.ObservingFunctionData` | src/ir.rs:156-161 | the same law for a definition: the name span first, then the body; the argument names are never shown to a hook |
| `VisitLaws.ObservingStatement` | src/ir.rs:61-66 | the same law for a statement: its span first, then its payload |
| `VisitLaws.DefaultWalkIsIdentityExpr` | src/ir.rs:188-192 | with the trait's default hooks, walking an expression changes neither the visitor's state nor the tree |
| `VisitLaws.DefaultWalkIsIdentity` | src/ir.rs:188-192 | with the trait's default hooks, walking a statement changes neither the visitor's state nor the statement |
| `VisitLaws.CountSpansExpr` | src/ir.rs:95-101 | walking an expression calls `visit_span` once per node |
| `VisitLaws.CountSpansData` | src/ir.rs:111-125 | walking a payload calls `visit_span` once per node below it |
| `VisitLaws.CountSpansList` | src/ir.rs:198-204 | walking an argument list calls `visit_span` once per node in it |
| `VisitLaws.CountSpansFunctionData` | src/ir.rs:156-161 | walking a `FunctionData` calls `visit_span` exactly 1 + (number of body nodes) times |
| `VisitLaws.SpanOnlyExpr` | src/ir.rs:95-101 | with only `visit_span` overridden, shape, operators, literals, variables and call targets are kept; the new spans are what `visit_span` returned when shown each original span once, in pre-order |
| `VisitLaws.SpanOnlyData` | src/ir.rs:111-125 | the same frame law for a payload |
| `VisitLaws.SpanOnlyList` | src/ir.rs:198-204 | the same frame law for an argument list |
| `VisitLaws.SpanOnlyFunctionData` | src/ir.rs:156-161 | the same frame law for a definition: its argument names are unchanged and `visit_span` sees its 1 + (number of body nodes) spans, name span first |
| `VisitLaws.SpanOnlyStatement` | src/ir.rs:61-66 | the same frame law for a statement, the definition's name included |
| `VisitLaws.StatementHookUnused` | src/ir.rs:61-66 | replacing `visit_statement` by any hook at all changes no walk of a statement: no `traverse` calls it |
| `VisitLaws.StatementHookUnusedExpr` | src/ir.rs:95-101 | the walk of an expression never calls `visit_statement` |
| `VisitLaws.StatementHookUnusedData` | src/ir.rs:111-125 | the walk of a payload never calls `visit_statement` |
| `VisitLaws.StatementHookUnusedList` | src/ir.rs:198-204 | the walk of an argument list never calls `visit_statement` |
| `Parser.RewriteSpans.VisitSpan` | src/parser.rs:20-24 | `visit_span` tags the span with the function's `DefId`; each end minus the offset wraps modulo 2^64, so adding the offset back recovers it; when the end is at or after the offset, the result is the plain difference |
| `Parser.RewriteSpans.VisitSpanInPlace` | src/parser.rs:20-24 | the three in-place assignments compute `VisitSpan` |
| `Parser.RewriteVisitor` | src/parser.rs:19-25 | `RewriteSpans` keeps the default `visit_statement` and `visit_expr`, which leave state and node unchanged; its `visit_span` is `VisitSpan` and leaves the visitor itself unchanged |
| `Parser.FunctionDefId` | src/parser.rs:45 | the identity a definition's spans are tagged with is never `DefId::unknown` |
| `Parser.FunctionDefIdInjective` | src/parser.rs:45 | two functions get the same identity if and only if they have the same name |
| `Parser.LocaliseStatement` | src/parser.rs:38-54 | a definition yields a `Function` with its own name; a `print` yields nothing |
| `Parser.Contribution` | src/parser.rs:38-54 | `flat_map` takes at most one function from a statement: exactly one, the closure's localised `Function`, for a definition, and none for a `print` |
| `Parser.CollectFunctions` | src/parser.rs:36-55 | the collected functions are never more than the statements |
| `Parser.CollectFunctionsCount` | src/parser.rs:36-55 | exactly one function is collected per definition statement |
| `Parser.ParseStatements` | src/parser.rs:29-69 | on a syntax error: no functions and exactly one diagnostic `{0, 0, message}`; on success: no diagnostic, and the functions collected from the statements |
| `Parser.LocalisedSpans` | src/parser.rs:39-47 | a localised definition keeps its name, argument names and shape; its i-th span is `visit_span` of the i-th original span, so every span carries the function's own `DefId` |
| `Parser.LocalisedOffsets` | src/parser.rs:22-23 | when every span starts and ends at or after the statement's start, each new end is the old end minus that start, so every span's length and the order of its ends are preserved |
| `Parser.TranslationInvariance` | src/parser.rs:39-47 | a definition moved by `k` bytes (its statement span included) localises to the same `Function`, because the offset used is the statement's own start |
| `Parser.CollectFunctionsAppend` | src/parser.rs:36-55 | the functions of a concatenation of statements are those of its parts, in order |
| `Parser.CollectFunctionsSingle` | src/parser.rs:38-54 | a definition contributes exactly its localised function, and a `print` contributes nothing |
| `Parser.PrintDropped` | src/parser.rs:53 | removing a `print` statement anywhere leaves the collected functions unchanged |
| `Parser.CollectFunctionsMembers` | src/parser.rs:36-55 | a function is collected if and only if some statement of the file localises to it |
| `Parser.FunctionsTaggedWithOwnName` | src/parser.rs:45 | every span of every collected function carries the `DefId` of that function's own name |
| `Parser.EditIsolation` | src/parser.rs:39-51 | with any statements around it, and moved by any number of bytes, a definition yields the same `Function` at its place among the file's functions |

## Left out

- The query engine is not part of this model: input revisions, memoisation, backdating, tracked-struct identity and interning tables (src/ir.rs:7-50, src/ir.rs:137-144). Interned ids are values determined by their content (`FunctionId(text)`, `DefId(data)`). That is the one property of interning the code relies on.
- The `Diagnostics` accumulator is not modelled as a side channel. `ParseStatements` returns what it pushes alongside the `Program`.
- The grammar is generated code that is not part of this model, so it is the parameter `grammar`. Operator precedence and the position of syntax errors are left out. The precedence test at src/parser.rs:356-458 depends on the grammar alone and is not modelled.
- `type_check.rs`, `compile.rs` and `db.rs` are not part of this model: name resolution, arity checks and `find_function`.
- The driver in `src/main.rs` is left out: file reading, iteration over arguments, and logging.
- Number literals are `OrderedFloat<f64>` in the source. Here a literal is an opaque key, because only its equality matters to the walk.
- The debug print in `parse_statements` (src/parser.rs:49) and the `Debug` formatting of `parse_string` are output only, so they are left out.
- The test expectations at src/parser.rs:95-332 show a `Program` with `statements`. They predate the current `Program { functions }` (src/ir.rs:47-50), so they are not modelled.
- `Parser.RewriteSpans.VisitSpan` follows a release build, where `usize` subtraction wraps. A debug build panics on the same inputs. The panic is not modelled. `Parser.LocalisedOffsets` gives the exact result whenever nothing wraps, which is the case for spans a grammar places inside their statement.
- `Visit.TraverseExprInPlace` requires `ExprHookShrinks`: a `visit_expr` hook may rewrite the node, but not into a larger one. The source places no such limit. This also excludes hooks that grow the tree and still let the walk finish, such as one that expands a literal once. The only visitor in the source, `RewriteSpans`, keeps the default `visit_expr`, so nothing the code does is lost.
- `Visit.TraverseListInPlace`: the `Vec<T>` impl is generic, but the source uses it only for `Vec<Expression>`, so it is modelled at that type only.
- The `db` handle passed to every `traverse` and kept in `RewriteSpans` is never read by the code modelled here, so it is omitted.
