/**
 * The visitor's behaviour as functions over a snapshot of its state: the
 * current builder handle, the context stack, the calls made on the builder so
 * far, the visit-node events dispatched so far, and the next handle that
 * `expr()` will return. Each function mirrors one method of the visitor; the
 * class in module Visitor is proved to behave exactly as these functions say.
 */
module Translation {

  import opened Wrappers
  import opened Rql
  import opened Builder
  import opened Tables

  /** What a visit-node listener hands back: the node and builder to go on with. */
  datatype Replacement = Replacement(node: Node, builder: Handle)

  /** A listener on the visit-node event: (node, builder, context) to replacement. */
  type Hook = (Node, Handle, seq<Node>) -> Replacement

  /** One dispatched visit-node event, with the arguments it carried. */
  datatype Event = Event(node: Node, builder: Handle, context: seq<Node>)

  /**
   * The visitor's configuration: the optional listener, the glob-to-regex
   * conversion, and the number of nested `recurse` frames the call stack holds.
   */
  datatype Config = Config(dispatcher: Option<Hook>, toRegex: string -> string, maxDepth: nat)

  datatype State = State(builder: Handle, context: seq<Node>, trace: seq<Call>, events: seq<Event>, next: Handle)

  datatype Fault =
    | UnmappedOperator(node: Node)   // a table gave a null method name and PHP called it
    | StackExhausted                 // the call stack is full

  datatype Result = Success(handle: Handle) | Failure(fault: Fault)

  datatype Outcome = Outcome(state: State, result: Result)

  /** `t` is `s` after more work: calls and events appended, handles allocated, frames pushed. */
  predicate Extends(s: State, t: State)
  {
    s.trace <= t.trace && s.events <= t.events && s.next <= t.next && s.context <= t.context
  }

  /** One call on the builder, appended to the trace. */
  function Record(s: State, c: Call): State
  {
    s.(trace := s.trace + [c])
  }

  /** `$this->builder->expr()`: a new expression handle. */
  function NewExpr(s: State): (State, Handle)
  {
    (s.(trace := s.trace + [ExprCall(s.builder, s.next)], next := s.next + 1), s.next)
  }

  /** getField: a field selector on a fresh expression when `expr`, else on the builder. */
  function GetField(s: State, field: string, expr: bool): (State, Handle)
  {
    if expr then
      var e := NewExpr(s);
      (Record(e.0, FieldCall(e.1, field)), e.1)
    else
      (Record(s, FieldCall(s.builder, field)), s.builder)
  }

  /** The listener fires only when one is registered and the node is a query node. */
  predicate Dispatches(cfg: Config, node: Node)
  {
    cfg.dispatcher.Some? && IsQueryNode(node)
  }

  /** dispatchNodeEvent: the node and builder to go on with. */
  function DispatchNodeEvent(cfg: Config, s: State, node: Node): Replacement
  {
    if Dispatches(cfg, node) then cfg.dispatcher.value(node, s.builder, s.context)
    else Replacement(node, s.builder)
  }

  /** The event log after dispatchNodeEvent. */
  function Notified(cfg: Config, s: State, node: Node): seq<Event>
  {
    if Dispatches(cfg, node) then s.events + [Event(node, s.builder, s.context)] else s.events
  }

  /** visitSort's calls: one sort per field, in the order given. */
  function SortCalls(b: Handle, fields: seq<SortField>): (r: seq<Call>)
    ensures |r| == |fields|
    ensures forall i :: 0 <= i < |r| ==> r[i] == SortCall(b, fields[i].name, fields[i].order)
  {
    if fields == [] then [] else [SortCall(b, fields[0].name, fields[0].order)] + SortCalls(b, fields[1..])
  }

  lemma {:induction false} SortCallsAppend(b: Handle, a: seq<SortField>, c: seq<SortField>)
    ensures SortCalls(b, a + c) == SortCalls(b, a) + SortCalls(b, c)
  {
    if a == [] {
      assert a + c == c;
    } else {
      assert (a + c)[1..] == a[1..] + c;
      SortCallsAppend(b, a[1..], c);
    }
  }

  /** visitSort: one `sort` per field, in input order, on the current builder; nothing else changes. */
  function VisitSort(s: State, fields: seq<SortField>): (r: State)
    ensures r == s.(trace := r.trace) && s.trace <= r.trace && |r.trace| == |s.trace| + |fields|
    ensures forall i :: 0 <= i < |fields| ==> r.trace[|s.trace| + i] == SortCall(s.builder, fields[i].name, fields[i].order)
  {
    s.(trace := s.trace + SortCalls(s.builder, fields))
  }

  /** visitLimit: `limit(count)` and then `skip(offset)`, both on the builder. */
  function VisitLimit(s: State, l: Limit): (r: State)
    ensures r == s.(trace := r.trace) && s.trace <= r.trace && |r.trace| == |s.trace| + 2
    ensures r.trace[|s.trace|] == LimitCall(s.builder, l.count) && r.trace[|s.trace| + 1] == SkipCall(s.builder, l.offset)
  {
    s.(trace := s.trace + [LimitCall(s.builder, l.count), SkipCall(s.builder, l.offset)])
  }

  /** The calls visitQuery makes on builder `b`: sort first, then limit and skip. */
  function QueryCalls(b: Handle, q: Query): seq<Call>
  {
    (if q.sort.Some? then SortCalls(b, q.sort.value) else []) +
    (if q.limit.Some? then [LimitCall(b, q.limit.value.count), SkipCall(b, q.limit.value.offset)] else [])
  }

  /** visitQuery: sort and limit, each only when the query has one. */
  function VisitQuery(s: State, q: Query): (r: State)
    ensures r == s.(trace := s.trace + QueryCalls(s.builder, q))
  {
    var s1 := if q.sort.Some? then VisitSort(s, q.sort.value) else s;
    if q.limit.Some? then VisitLimit(s1, q.limit.value) else s1
  }

  /** visit: a fresh context stack, then recurse on the root query. */
  function Visit(cfg: Config, s: State, q: Query): (o: Outcome)
    ensures Extends(s.(context := []), o.state)
    ensures cfg.dispatcher.None? ==> o.state.builder == s.builder
    ensures o.result.Success? ==> o.state.context == []
  {
    Recurse(cfg, s.(context := []), q.query, false, Some(q))
  }

  /**
   * recurse: the listener first, then (for the root) sort and limit, then the
   * pre-listener node is pushed, the node is dispatched, and the stack popped.
   * A failure propagates at once and leaves the pushed frames in place.
   */
  function Recurse(cfg: Config, s: State, node: Node, expr: bool, root: Option<Query>): (o: Outcome)
    requires |s.context| <= cfg.maxDepth
    ensures Extends(s, o.state)
    ensures cfg.dispatcher.None? ==> o.state.builder == s.builder
    ensures o.result.Success? ==> o.state.context == s.context
    decreases cfg.maxDepth - |s.context|, 2
  {
    if |s.context| == cfg.maxDepth then Outcome(s, Failure(StackExhausted))
    else
      var rep := DispatchNodeEvent(cfg, s, node);
      var s1 := s.(builder := rep.builder, events := Notified(cfg, s, node));
      var s2 := if root.Some? then VisitQuery(s1, root.value) else s1;
      var o := Dispatch(cfg, s2.(context := s2.context + [node]), rep.node, expr);
      if o.result.Failure? then o
      else Outcome(o.state.(context := o.state.context[..|o.state.context| - 1]), o.result)
  }

  /**
   * The dispatch inside recurse: internalMap by exact class first, then the
   * scalar, array and logic base classes, else the builder unchanged.
   */
  function Dispatch(cfg: Config, s: State, node: Node, expr: bool): (o: Outcome)
    requires 0 < |s.context| <= cfg.maxDepth
    ensures Extends(s, o.state)
    ensures cfg.dispatcher.None? ==> o.state.builder == s.builder
    ensures o.result.Success? ==> o.state.context == s.context
    decreases cfg.maxDepth - |s.context| + 1, 1
  {
    match InternalMap(node)
    case Some(VisitLikeMethod) => VisitLike(cfg, s, node, expr)
    case Some(VisitElemMatchMethod) => VisitElemMatch(cfg, s, node, expr)
    case None =>
      if node.Scalar? then VisitScalar(s, node, expr)
      else if node.Array? then VisitArray(s, node, expr)
      else if node.Logic? then VisitLogic(cfg, s, QueryMap(node.logicOp), node, expr)
      else Outcome(s, Success(s.builder))
  }

  /** visitScalar: the comparison from scalarMap on the field selector. */
  function VisitScalar(s: State, node: Node, expr: bool): (o: Outcome)
    requires node.Scalar?
    ensures Extends(s, o.state) && o.state.context == s.context
    ensures o.state.builder == s.builder && o.state.events == s.events
    ensures o.result.Success? <==> node.scalarOp != Like
  {
    var f := GetField(s, node.field, expr);
    match ScalarMap(node.scalarOp)
    case None => Outcome(f.0, Failure(UnmappedOperator(node)))
    case Some(m) => Outcome(Record(f.0, ScalarCall(f.1, m, node.value)), Success(f.1))
  }

  /** visitArray: `in` or `notIn` from arrayMap with the node's values. */
  function VisitArray(s: State, node: Node, expr: bool): (o: Outcome)
    requires node.Array?
    ensures Extends(s, o.state) && o.state.context == s.context && o.result.Success?
    ensures o.state.builder == s.builder && o.state.events == s.events
  {
    var f := GetField(s, node.field, expr);
    Outcome(Record(f.0, ArrayCall(f.1, ArrayMap(node.arrayOp), node.values)), Success(f.1))
  }

  /** The value visitLike compares with: the regex of a glob, else the value itself. */
  function LikeValue(cfg: Config, v: Value): (r: Value)
    ensures !r.Glob?
    ensures !v.Glob? ==> r == v
  {
    if v.Glob? then Regex(cfg.toRegex(v.pattern)) else v
  }

  /** visitLike: `equals` with the converted value on the field selector. */
  function VisitLike(cfg: Config, s: State, node: Node, expr: bool): (o: Outcome)
    requires node.Scalar?
    ensures Extends(s, o.state) && o.state.context == s.context && o.result.Success?
    ensures o.state.builder == s.builder && o.state.events == s.events
  {
    var v := LikeValue(cfg, node.value);
    var f := GetField(s, node.field, expr);
    Outcome(Record(f.0, ScalarCall(f.1, Equals, v)), Success(f.1))
  }

  /** visitElemMatch: the selector first, then the sub-query as an expression. */
  function VisitElemMatch(cfg: Config, s: State, node: Node, expr: bool): (o: Outcome)
    requires node.ElemMatch? && 0 < |s.context| <= cfg.maxDepth
    ensures Extends(s, o.state)
    ensures cfg.dispatcher.None? ==> o.state.builder == s.builder
    ensures o.result.Success? ==> o.state.context == s.context
    decreases cfg.maxDepth - |s.context| + 1, 0, 0
  {
    var f := GetField(s, node.field, expr);
    var o := Recurse(cfg, f.0, node.sub, true, None);
    if o.result.Failure? then o
    else Outcome(Record(o.state, ElemMatchCall(f.1, o.result.handle)), Success(f.1))
  }

  /** visitLogic: the target (a fresh expression when `expr`), then every child. */
  function VisitLogic(cfg: Config, s: State, addMethod: Option<LogicMethod>, node: Node, expr: bool): (o: Outcome)
    requires node.Logic? && 0 < |s.context| <= cfg.maxDepth
    ensures Extends(s, o.state)
    ensures cfg.dispatcher.None? ==> o.state.builder == s.builder
    ensures o.result.Success? ==> o.state.context == s.context
    decreases cfg.maxDepth - |s.context| + 1, 0, |node.children| + 1
  {
    var t := if expr then NewExpr(s) else (s, s.builder);
    LogicLoop(cfg, t.0, t.1, addMethod, node, 0)
  }

  /**
   * The foreach of visitLogic from child `i` on: each child is recursed as an
   * expression and handed to the add method on `target`. A missing add method
   * is called anyway, which fails after the first child.
   */
  function LogicLoop(cfg: Config, s: State, target: Handle, addMethod: Option<LogicMethod>, node: Node, i: nat): (o: Outcome)
    requires node.Logic? && i <= |node.children| && 0 < |s.context| <= cfg.maxDepth
    ensures Extends(s, o.state)
    ensures cfg.dispatcher.None? ==> o.state.builder == s.builder
    ensures o.result.Success? ==> o.state.context == s.context && o.result.handle == target
    decreases cfg.maxDepth - |s.context| + 1, 0, |node.children| - i
  {
    if i == |node.children| then Outcome(s, Success(target))
    else
      var o := Recurse(cfg, s, node.children[i], true, None);
      if o.result.Failure? then o
      else if addMethod.None? then Outcome(o.state, Failure(UnmappedOperator(node)))
      else LogicLoop(cfg, Record(o.state, LogicCall(target, addMethod.value, o.result.handle)), target, addMethod, node, i + 1)
  }
}
