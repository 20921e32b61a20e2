# MongoOdm visitor, modelled in Dafny

This project models `Graviton\Rql\Visitor\MongoOdm`. That class walks the
abstract syntax tree of a parsed RQL query and translates it into calls on a
Doctrine MongoDB ODM query builder.

`visit(query)` starts a fresh context stack and calls `recurse` on the
query's filter. `recurse` does the following, in order:

1. It offers the node to an optional visit-node listener, which may replace
   both the node and the builder.
2. At the root only, it applies sort, then limit and skip.
3. It pushes the original node onto the context stack and dispatches on the
   node:
   - `internalMap` comes first: like to `visitLike`, elemMatch to
     `visitElemMatch`.
   - Then scalar comparisons go through `scalarMap`, membership tests through
     `arrayMap`, and `and`/`or` through `queryMap`.
   - Anything else returns the builder untouched.
4. It pops the stack.

Field conditions go on the builder at the top level. Inside a logic node or
an elemMatch they go on a fresh `expr()`. Each child of a logic node is
translated as such an expression and handed to `addAnd` or `addOr` on the
node's own target.

The Doctrine builder is seen from the outside only:

- Builders and expressions are integer handles. Handle 0 (`Builder.Live`) is
  the builder the visitor starts with, and every `expr()` yields the next
  fresh handle.
- Every call the visitor makes on a handle is appended to a trace of `Call`
  values. The trace holds only the visitor's own calls: calls a listener makes
  on the builder it receives are not recorded.
- The builder is fluent: `field`, `equals`, `addAnd` and the rest return the
  handle they were called on.
- Each visit-node event the visitor dispatches is logged along with the
  arguments it carried.

The modules:

- `Rql` (`rql.dfy`): the tree.
  - Node kinds: scalar (eq, ne, lt, gt, le, ge, like), array (in, out),
    elemMatch, logic (and, or, not), unknown query nodes (`Custom`), and a
    missing filter (`Absent`).
  - The query's sort fields and limit.
- `Builder` (`builder.dfy`): handles, the `Call` record, and the views of a
  trace used to state properties.
  - `CallsOn` lists the calls that change one handle.
  - `Created` lists the handles `expr()` returned.
- `Tables` (`tables.dfy`): the four lookup tables.
- `Translation` (`translation.dfy`): every method of the visitor as a function
  over a snapshot of its state. The snapshot holds the builder field, the
  context stack, the trace, the event log and the next fresh handle.
  `NewExpr`, `GetField` and `DispatchNodeEvent` are plain definitions. What
  they promise is proved elsewhere: fresh `expr()` handles in
  `Reference.EmitAllocates`, the selector and its scope in
  `Properties.GetFieldIsSelector` and `Properties.TranslationIsScoped`, and
  the listener's effect in `Properties.RecurseEvents` and
  `Properties.ListenerBuilderPersists`.
- `Visitor` (`mongo_odm.dfy`): the class `MongoOdm`.
  - It holds those fields and has one method per PHP method of the visitor,
    including the `foreach` loops of `visitLogic` and `visitSort`.
  - Two methods differ from the PHP in form. `Dispatch` is the dispatch chain
    of `recurse` (`src/Visitor/MongoOdm.php:157-169`) moved into a method of
    its own. `Recurse` adds a check against the stack capacity `maxDepth`
    (see "Left out").
  - Each method is proved to change the state exactly as the function of the
    same name in `Translation` says.
- `Reference` (`reference.dfy`): a stateless, compositional statement of the
  calls a node should yield (`Emit`), with its scoping and allocation
  properties.
- `Properties` (`properties.dfy`): the main theorem and the properties of the
  visitor derived from it.
  - The main theorem: without a listener, `recurse` makes exactly the calls of
    `Emit`.
  - The listener and context-stack properties hold for any listener.

Two points about the order of the translation:

- **Sort, limit and skip come first.** `recurse` applies them at
  `src/Visitor/MongoOdm.php:152-154`, before the filter node is pushed and
  dispatched at `src/Visitor/MongoOdm.php:156-169`. They therefore come first
  in the trace (`Properties.EndToEndScenario`).
- **No registry of custom node kinds.** Only the fixed `internalMap` is
  consulted, before the base-class tests. An unknown node kind falls through
  to "return the builder".

## Model

| member | source | states |
|---|---|---|
| Tables.ScalarMap | src/Visitor/MongoOdm.php:50-57 | there is a comparison method for every scalar operator except like |
| Tables.ArrayMap | src/Visitor/MongoOdm.php:64-67 | `in` maps to `in` and `out` to `notIn`, and only they do |
| Tables.QueryMap | src/Visitor/MongoOdm.php:74-77 | `and` and `or` have a combinator; `not` has none |
| Tables.InternalMap | src/Visitor/MongoOdm.php:84-87 | exactly the like nodes go to visitLike and exactly the elemMatch nodes to visitElemMatch |
| Tables.TablesAreInjective | src/Visitor/MongoOdm.php:50-77 | distinct operators map to distinct builder methods in each table |
| Properties.TablesMatchOperators | src/Visitor/MongoOdm.php:50-77 | each table agrees with the operator's intended meaning: eq to equals, ne to notEqual, lt/gt/le/ge to lt/gt/lte/gte, in to in, out to notIn, and to addAnd, or to addOr |
| Translation.SortCalls | src/Visitor/MongoOdm.php:285-290 | one `sort(name, order)` per field, in input order, on the given builder |
| Translation.VisitSort | src/Visitor/MongoOdm.php:285-290 | appends one `sort(name, order)` per field on the builder, in input order, and changes nothing else |
| Translation.VisitLimit | src/Visitor/MongoOdm.php:328-331 | appends `limit(count)` and then `skip(offset)` on the builder, and changes nothing else |
| Translation.LikeValue | src/Visitor/MongoOdm.php:300-303 | the value `equals` receives is never a raw glob; any other value is passed on unchanged |
| Translation.VisitQuery | src/Visitor/MongoOdm.php:200-208 | only the root's sort, limit and skip calls are appended; nothing else changes |
| Translation.Visit | src/Visitor/MongoOdm.php:127-131 | visit starts from an empty context stack and extends the trace, the event log and the handle counter; the listener may replace the builder field (:150), and without a listener the field keeps its builder; on normal return the stack is empty |
| Translation.Recurse | src/Visitor/MongoOdm.php:141-173 | recurse extends the trace, the event log and the handle counter; the listener may replace the builder field (:150), and without a listener the field keeps its builder; on normal return the context stack is as before the call |
| Translation.Dispatch | src/Visitor/MongoOdm.php:157-169 | the dispatch after the push extends the trace, the event log and the handle counter; a listener met in a sub-node may replace the builder field, and without a listener the field keeps its builder; on success the stack is as it found it |
| Translation.VisitScalar | src/Visitor/MongoOdm.php:218-222 | visitScalar succeeds exactly when the operator has a scalarMap entry; it extends the trace and the handle counter and leaves the stack, the event log and the builder field unchanged |
| Translation.VisitArray | src/Visitor/MongoOdm.php:232-236 | visitArray always succeeds; it extends the trace and the handle counter and leaves the stack, the event log and the builder field unchanged |
| Translation.VisitLike | src/Visitor/MongoOdm.php:298-305 | visitLike always succeeds; it extends the trace and the handle counter and leaves the stack, the event log and the builder field unchanged |
| Translation.VisitElemMatch | src/Visitor/MongoOdm.php:314-319 | visitElemMatch extends the trace, the event log and the handle counter; a listener met in the sub-query may replace the builder field, and without a listener the field keeps its builder; on success the stack is as before |
| Translation.VisitLogic | src/Visitor/MongoOdm.php:263-276 | visitLogic extends the trace, the event log and the handle counter; a listener met in a child may replace the builder field, and without a listener the field keeps its builder; on success the stack is as before |
| Translation.LogicLoop | src/Visitor/MongoOdm.php:269-274 | on success the foreach returns the target it was given, with the stack as before; without a listener the builder field keeps its builder |
| Visitor.MongoOdm.constructor | src/Visitor/MongoOdm.php:29-43 | a visitor starts on the live builder with an empty stack, trace and event log |
| Visitor.MongoOdm.NewExpr | src/Visitor/MongoOdm.php:249 | the new state and handle are those of `Translation.NewExpr`: one `expr()` on the builder, which yields the next fresh handle |
| Visitor.MongoOdm.Visit | src/Visitor/MongoOdm.php:127-131 | the method's new state and result are those of `Translation.Visit` |
| Visitor.MongoOdm.Recurse | src/Visitor/MongoOdm.php:141-173 | the method's new state and result are those of `Translation.Recurse`, including the builder field set from the listener and the pop skipped on failure |
| Visitor.MongoOdm.Dispatch | src/Visitor/MongoOdm.php:157-169 | the dispatch chain's new state and result are those of `Translation.Dispatch` |
| Visitor.MongoOdm.DispatchNodeEvent | src/Visitor/MongoOdm.php:180-193 | returns `Translation.DispatchNodeEvent` and logs the event exactly when the listener is called |
| Visitor.MongoOdm.VisitQuery | src/Visitor/MongoOdm.php:200-208 | the new state is that of `Translation.VisitQuery` |
| Visitor.MongoOdm.VisitScalar | src/Visitor/MongoOdm.php:218-222 | the new state and result are those of `Translation.VisitScalar` |
| Visitor.MongoOdm.VisitArray | src/Visitor/MongoOdm.php:232-236 | the new state and result are those of `Translation.VisitArray` |
| Visitor.MongoOdm.GetField | src/Visitor/MongoOdm.php:246-252 | the new state and selector are those of `Translation.GetField` |
| Visitor.MongoOdm.VisitLogic | src/Visitor/MongoOdm.php:263-276 | the foreach loop's new state and result are those of `Translation.VisitLogic` |
| Visitor.MongoOdm.VisitSort | src/Visitor/MongoOdm.php:285-290 | the loop appends `SortCalls` of the fields and nothing else |
| Visitor.MongoOdm.VisitLike | src/Visitor/MongoOdm.php:298-305 | the new state and result are those of `Translation.VisitLike` |
| Visitor.MongoOdm.VisitElemMatch | src/Visitor/MongoOdm.php:314-319 | the new state and result are those of `Translation.VisitElemMatch` |
| Visitor.MongoOdm.VisitLimit | src/Visitor/MongoOdm.php:328-331 | appends `limit(count)`, then `skip(offset)`, on the builder |
| Reference.EmitConfined | src/Visitor/MongoOdm.php:246-252 | a clause changes only handles in its own fresh range and stands for one of them, except that an unknown or missing clause stands for the builder; a top-level node changes only the builder and its own handles, and stands for the builder |
| Reference.EmitAllocates | src/Visitor/MongoOdm.php:249 | the handles created while translating a node are exactly the consecutive range it was given, each asked of the builder |
| Reference.ChildrenCombine | src/Visitor/MongoOdm.php:269-274 | the calls that change a logic node's target are one combinator call per child, in child order |
| Reference.ClauseAvoids | src/Visitor/MongoOdm.php:270 | a child translated as an expression changes no handle that existed before it, the target included |
| Reference.ChildResults | src/Visitor/MongoOdm.php:270 | the j-th combinator argument is the j-th child's own translation as an expression |
| Properties.RecurseMatchesEmit | src/Visitor/MongoOdm.php:141-173 | without a listener, recurse on a supported node makes exactly the reference calls and returns the reference handle, with the stack restored |
| Properties.DispatchMatchesEmit | src/Visitor/MongoOdm.php:157-169 | the same for the dispatch after the push |
| Properties.LogicMatchesEmit | src/Visitor/MongoOdm.php:263-276 | the same for visitLogic |
| Properties.LoopMatchesEmit | src/Visitor/MongoOdm.php:269-274 | the same for the foreach from any child on |
| Properties.GetFieldIsSelector | src/Visitor/MongoOdm.php:246-252 | getField appends exactly the reference selector calls (`expr()` then `field` when a clause, `field` on the builder otherwise) and returns the reference selector |
| Properties.RecurseWithoutListener | src/Visitor/MongoOdm.php:141-173 | without a listener, recurse pushes the node, dispatches it unchanged on the same builder, and pops the frame only when the dispatch succeeded |
| Properties.VisitMatchesEmit | src/Visitor/MongoOdm.php:127-131 | without a listener, visit makes the root's sort, limit and skip calls, then the filter's reference calls, and ends with an empty stack |
| Properties.VisitOrdersQueryCallsFirst | src/Visitor/MongoOdm.php:150-156 | for any listener, sort, limit and skip come before every filter call the visitor makes, on the builder the listener returned for the root (a listener's own calls are not in the trace) |
| Properties.QueryCallsInOrder | src/Visitor/MongoOdm.php:200-208 | sort calls in input order and then limit and skip, each only when present, all on the builder |
| Properties.ScalarNodeMakesOneComparison | src/Visitor/MongoOdm.php:218-222 | a scalar node makes its selector calls and exactly one comparison from scalarMap, on its own field and with its own value |
| Properties.ArrayNodeKeepsValues | src/Visitor/MongoOdm.php:232-236 | an array node makes one in/notIn call with its value list unchanged, in the same order and with duplicates kept |
| Properties.LikeNodeMatchesWithEquals | src/Visitor/MongoOdm.php:157-159 | a like node is routed to visitLike and succeeds with `equals` on the glob's regex or on the raw value, where visitScalar would fail |
| Properties.ElemMatchNodeWrapsSubquery | src/Visitor/MongoOdm.php:314-319 | the selector is obtained first; the sub-query, as an expression, changes only its own fresh handles; and `elemMatch` on the selector receives it |
| Properties.LogicNodeCombinesChildrenInOrder | src/Visitor/MongoOdm.php:263-276 | an and/or node's target receives exactly one addAnd/addOr per child, in child order, each carrying that child's own expression; the node returns its target |
| Properties.LogicEmissionCombines | src/Visitor/MongoOdm.php:265-273 | in the reference translation a logic node stands for its target, the calls on that target are its combinator calls, one per child in order, and the j-th carries the j-th child's own expression |
| Properties.TranslationIsScoped | src/Visitor/MongoOdm.php:246-252 | a clause changes only handles created during its translation, and never the builder when the builder is older than those handles (as it is from `visit` on); every `expr()` is asked of the builder, and the handles come out consecutive |
| Properties.NestedOrIsOneClause | src/Visitor/MongoOdm.php:265-272 | in `and(or(x, y), z)` the builder gets two addAnd, the first with the `or` expression, and that expression gets the two addOr |
| Properties.NestedOrOnBuilder | src/Visitor/MongoOdm.php:263-276 | the builder's share of that translation |
| Properties.OrClauseShare | src/Visitor/MongoOdm.php:265-272 | an `or` clause of two alternatives stands for its own fresh expression and puts exactly two addOr calls on it |
| Properties.NestedOrOnExpression | src/Visitor/MongoOdm.php:265-272 | the `or` expression's share of that translation |
| Properties.UnrecognisedNodeIsNoOp | src/Visitor/MongoOdm.php:167-168 | when the listener does not fire, an unknown or missing node returns the builder and leaves the whole state unchanged |
| Properties.UnmappedLogicFailsAfterFirstChild | src/Visitor/MongoOdm.php:265-273 | `not(...)` gets a null method name from the lookup at :165, so visitLogic makes its own `expr()` when it is a clause, then exactly the calls of its first child, then fails calling the null method at :272, leaving its frame on the stack |
| Properties.ListenerBuilderPersists | src/Visitor/MongoOdm.php:150 | when the listener's node is a leaf, the builder the listener returns stays in the builder field after the node; every call a top-level condition makes is on that builder; a clause asks that builder for its `expr()` and changes only that expression |
| Properties.RecurseEvents | src/Visitor/MongoOdm.php:150-156 | a node's event carries the stack as it was before the node; every event raised beneath it sees that stack with the node's original, pre-listener value on top; no event for a node that is not dispatched |
| Properties.RecurseStaysBeneath | src/Visitor/MongoOdm.php:156-170 | every event raised during a recurse carries the stack it started from |
| Properties.DispatchEvents | src/Visitor/MongoOdm.php:157-169 | the same for the dispatch after the push |
| Properties.ElemMatchEvents | src/Visitor/MongoOdm.php:314-319 | the same for visitElemMatch |
| Properties.LoopEvents | src/Visitor/MongoOdm.php:269-274 | the same for visitLogic's foreach |
| Properties.EndToEndScenario | src/Visitor/MongoOdm.php:127-173 | `and(eq(status,active), in(tag,(a,b)))` sorted by name and limited to 5 yields: sort, limit, skip, then the two conditions, each on its own expression and added to the builder with addAnd |

## Left out

- The Symfony event dispatcher and `VisitNodeEvent` are not modelled. A
  listener is a total function `(node, builder, context) -> (node, builder)`.
  Side effects the listener has outside the visitor are not modelled. A
  listener that pushes onto or pops from the `SplStack` it is handed is not
  modelled either: the model passes the stack as a value.
- Doctrine's `Builder` and `Expr` have no query semantics in the model. A call
  is only recorded, and every method is assumed to return the handle it was
  called on.
- `Glob::toRegex` and `\MongoRegex` are a parameter, the conversion function
  `toRegex`, which is applied to the glob's pattern.
- `setBuilder`, `getBuilder` and `setDispatcher` (`src/Visitor/MongoOdm.php:99-120`)
  are not methods of the model. A visitor is constructed with its listener and
  starts on the live builder.
- Call-stack depth: the listener may return any node, so recursion need not
  terminate. The model therefore has a stack capacity, `maxDepth`. A `recurse`
  entered with a full stack fails with `StackExhausted`, standing in for PHP
  running out of stack.
- An absent filter returns the builder. Before PHP 8, `get_class(null)` at
  `src/Visitor/MongoOdm.php:157` yields no `internalMap` key (PHP 7.2 adds a
  warning), and the `instanceof` tests that follow fail. From PHP 8 on,
  `get_class(null)` throws a `TypeError` instead. The model follows the
  behaviour before PHP 8.
- Translation.Recurse: no claim of stack balance on a failure path. As in the
  source, a failure skips the pop at `src/Visitor/MongoOdm.php:170` (there is
  no `finally`).
- PHP's runtime errors are collapsed into one fault, `UnmappedOperator`. A
  missing `scalarMap` key fails at the call at `src/Visitor/MongoOdm.php:221`,
  and a missing `queryMap` key fails at the call with a null method name at
  `src/Visitor/MongoOdm.php:272`, after the target's `expr()` and the first
  child. The notice PHP raises on the missing key itself
  (`src/Visitor/MongoOdm.php:165` and `:220`) is assumed not to throw; under an error
  handler that turns notices into exceptions the source would fail there
  instead, before any call. Exceptions thrown by the listener or the builder
  are not modelled.
- Values are strings, integers, booleans, null, globs and regexes. Floating-point
  values and dates are not modelled.
- Sort fields are a sequence of name and order. PHP's associative array would
  also rule out repeated names, which the model does not.
- The RQL parser, the node classes and `Graviton\Rql\Node\ElemMatchNode` are
  not part of this model beyond the shape of the tree.
- Properties.RecurseMatchesEmit and the lemmas built on it: they cover trees
  without a listener and without a `not` node that has children, since such a
  node fails (Properties.UnmappedLogicFailsAfterFirstChild). With a listener,
  only the listener, ordering and context-stack properties are proved.
