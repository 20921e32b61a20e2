/**
 * What the visitor guarantees, proved about the functions of module
 * Translation (which the MongoOdm class follows step by step). The central
 * result, RecurseMatchesEmit, says that without a listener `recurse` makes
 * exactly the calls of the reference translation; the node-kind properties
 * follow from it. The listener and context-stack properties hold for any
 * listener.
 */
module Properties {

  import opened Wrappers
  import opened Rql
  import opened Builder
  import opened Tables
  import opened Translation
  import opened Reference

  /** The state after the calls of `e` were made. */
  function After(s: State, e: Emission): State
  {
    s.(trace := s.trace + e.calls, next := e.next)
  }

  /** Without a listener, recurse on a supported node that fits the stack makes the reference calls. */
  lemma {:induction false} RecurseMatchesEmit(cfg: Config, s: State, node: Node, expr: bool)
    requires cfg.dispatcher.None? && Supported(node)
    requires |s.context| < cfg.maxDepth && WithinDepth(node, cfg.maxDepth - |s.context|)
    ensures Recurse(cfg, s, node, expr, None)
         == Outcome(After(s, Emit(cfg.toRegex, s.builder, s.next, node, expr)),
                    Success(Emit(cfg.toRegex, s.builder, s.next, node, expr).result))
    decreases node, 2
  {
    DispatchMatchesEmit(cfg, s.(context := s.context + [node]), node, expr);
    assert (s.context + [node])[..|s.context|] == s.context;
  }

  lemma {:induction false} DispatchMatchesEmit(cfg: Config, s: State, node: Node, expr: bool)
    requires cfg.dispatcher.None? && Supported(node)
    requires 0 < |s.context| <= cfg.maxDepth && WithinDepth(node, cfg.maxDepth - |s.context| + 1)
    ensures Dispatch(cfg, s, node, expr)
         == Outcome(After(s, Emit(cfg.toRegex, s.builder, s.next, node, expr)),
                    Success(Emit(cfg.toRegex, s.builder, s.next, node, expr).result))
    decreases node, 1
  {
    match node
    case Scalar(op, f, v) =>
      if op == Like {
        LikeMatchesEmit(cfg, s, node, expr);
      } else {
        ScalarMatchesEmit(cfg, s, node, expr);
      }
    case Array(op, f, vs) =>
      ArrayMatchesEmit(cfg, s, node, expr);
    case ElemMatch(f, sub) =>
      ElemMatchMatchesEmit(cfg, s, node, expr);
    case Logic(op, children) =>
      LogicMatchesEmit(cfg, s, node, expr);
    case Custom(_) =>
    case Absent =>
  }

  lemma ScalarMatchesEmit(cfg: Config, s: State, node: Node, expr: bool)
    requires node.Scalar? && node.scalarOp != Like
    ensures VisitScalar(s, node, expr)
         == Outcome(After(s, Emit(cfg.toRegex, s.builder, s.next, node, expr)),
                    Success(Emit(cfg.toRegex, s.builder, s.next, node, expr).result))
  {
  }

  lemma LikeMatchesEmit(cfg: Config, s: State, node: Node, expr: bool)
    requires node.Scalar? && node.scalarOp == Like
    ensures VisitLike(cfg, s, node, expr)
         == Outcome(After(s, Emit(cfg.toRegex, s.builder, s.next, node, expr)),
                    Success(Emit(cfg.toRegex, s.builder, s.next, node, expr).result))
  {
  }

  lemma ArrayMatchesEmit(cfg: Config, s: State, node: Node, expr: bool)
    requires node.Array?
    ensures VisitArray(s, node, expr)
         == Outcome(After(s, Emit(cfg.toRegex, s.builder, s.next, node, expr)),
                    Success(Emit(cfg.toRegex, s.builder, s.next, node, expr).result))
  {
  }

  lemma {:induction false} ElemMatchMatchesEmit(cfg: Config, s: State, node: Node, expr: bool)
    requires cfg.dispatcher.None? && node.ElemMatch? && Supported(node)
    requires 0 < |s.context| <= cfg.maxDepth && WithinDepth(node, cfg.maxDepth - |s.context| + 1)
    ensures VisitElemMatch(cfg, s, node, expr)
         == Outcome(After(s, Emit(cfg.toRegex, s.builder, s.next, node, expr)),
                    Success(Emit(cfg.toRegex, s.builder, s.next, node, expr).result))
    decreases node, 0
  {
    var sel := Selector(s.builder, s.next, node.field, expr);
    GetFieldIsSelector(s, node.field, expr);
    var g := GetField(s, node.field, expr);
    RecurseMatchesEmit(cfg, g.0, node.sub, true);
    var inner := Emit(cfg.toRegex, s.builder, sel.next, node.sub, true);
    var call := ElemMatchCall(sel.result, inner.result);
    assert VisitElemMatch(cfg, s, node, expr) == Outcome(Record(After(g.0, inner), call), Success(sel.result));
    Regroup(s.trace, sel.calls, inner.calls, [call]);
  }

  /** getField makes the selector calls of the reference translation. */
  lemma GetFieldIsSelector(s: State, field: string, expr: bool)
    ensures var sel := Selector(s.builder, s.next, field, expr);
      GetField(s, field, expr) == (After(s, sel), sel.result)
  {
    if expr {
      assert s.trace + [ExprCall(s.builder, s.next)] + [FieldCall(s.next, field)]
          == s.trace + [ExprCall(s.builder, s.next), FieldCall(s.next, field)];
    }
  }

  lemma {:induction false} LogicMatchesEmit(cfg: Config, s: State, node: Node, expr: bool)
    requires cfg.dispatcher.None? && node.Logic? && Supported(node)
    requires 0 < |s.context| <= cfg.maxDepth && WithinDepth(node, cfg.maxDepth - |s.context| + 1)
    ensures VisitLogic(cfg, s, QueryMap(node.logicOp), node, expr)
         == Outcome(After(s, Emit(cfg.toRegex, s.builder, s.next, node, expr)),
                    Success(Emit(cfg.toRegex, s.builder, s.next, node, expr).result))
    decreases node, 0, |node.children| + 1
  {
    var t := if expr then NewExpr(s) else (s, s.builder);
    var pre: seq<Call> := if expr then [ExprCall(s.builder, s.next)] else [];
    assert t.0 == s.(trace := s.trace + pre, next := t.0.next);
    assert VisitLogic(cfg, s, QueryMap(node.logicOp), node, expr) == LogicLoop(cfg, t.0, t.1, QueryMap(node.logicOp), node, 0);
    if node.children != [] {
      ClausesMatchEmit(cfg, s, node, expr, t.0, t.1, pre);
    }
  }

  /** The clauses of a non-empty logic node, after its target is made. */
  lemma {:induction false} ClausesMatchEmit(cfg: Config, s: State, node: Node, expr: bool, s1: State, target: Handle, pre: seq<Call>)
    requires cfg.dispatcher.None? && node.Logic? && Supported(node) && node.children != []
    requires 0 < |s.context| <= cfg.maxDepth && WithinDepth(node, cfg.maxDepth - |s.context| + 1)
    requires pre == (if expr then [ExprCall(s.builder, s.next)] else [])
    requires target == (if expr then s.next else s.builder)
    requires s1 == s.(trace := s.trace + pre, next := if expr then s.next + 1 else s.next)
    ensures LogicLoop(cfg, s1, target, QueryMap(node.logicOp), node, 0)
         == Outcome(After(s, Emit(cfg.toRegex, s.builder, s.next, node, expr)),
                    Success(Emit(cfg.toRegex, s.builder, s.next, node, expr).result))
    decreases node, 0, |node.children| + 1, 0
  {
    var children := node.children;
    LoopMatchesEmit(cfg, s1, target, node, 0);
    assert children[0..] == children;
    var cs := EmitChildren(cfg.toRegex, s.builder, s1.next, children, target, Combinator(node.logicOp));
    assert Emit(cfg.toRegex, s.builder, s.next, node, expr) == Emission(pre + cs.calls, target, cs.next);
    Regroup(s.trace, pre, cs.calls, []);
    assert pre + cs.calls + [] == pre + cs.calls;
  }

  lemma {:induction false} LoopMatchesEmit(cfg: Config, s: State, target: Handle, node: Node, i: nat)
    requires cfg.dispatcher.None? && node.Logic? && node.logicOp != Not && Supported(node)
    requires i <= |node.children| && 0 < |s.context| <= cfg.maxDepth
    requires forall j :: 0 <= j < |node.children| ==> WithinDepth(node.children[j], cfg.maxDepth - |s.context|)
    ensures var r := EmitChildren(cfg.toRegex, s.builder, s.next, node.children[i..], target, Combinator(node.logicOp));
      LogicLoop(cfg, s, target, QueryMap(node.logicOp), node, i)
        == Outcome(s.(trace := s.trace + r.calls, next := r.next), Success(target))
    decreases node, 0, |node.children| - i
  {
    var children := node.children;
    if i < |children| {
      var m := Combinator(node.logicOp);
      assert QueryMap(node.logicOp) == Some(m);
      RecurseMatchesEmit(cfg, s, children[i], true);
      var c := Emit(cfg.toRegex, s.builder, s.next, children[i], true);
      var link := LogicCall(target, m, c.result);
      var s1 := Record(After(s, c), link);
      LoopStep(cfg, s, target, m, node, i, After(s, c), c.result);
      LoopMatchesEmit(cfg, s1, target, node, i + 1);
      ChildrenFrom(cfg.toRegex, s.builder, s.next, children, i, target, m);
      var rest := EmitChildren(cfg.toRegex, s.builder, c.next, children[i + 1..], target, m);
      assert s1.trace == s.trace + c.calls + [link];
      Regroup(s.trace, c.calls, [link], rest.calls);
    }
  }

  lemma Regroup(a: seq<Call>, b: seq<Call>, c: seq<Call>, d: seq<Call>)
    ensures a + b + c + d == a + (b + c + d)
  {
  }

  /** The clauses from the i-th on: the i-th clause, its combine call, then the clauses after it. */
  lemma ChildrenFrom(tr: string -> string, b: Handle, k: Handle, children: seq<Node>, i: nat, target: Handle, m: LogicMethod)
    requires i < |children| && forall j :: 0 <= j < |children| ==> Supported(children[j])
    ensures var c := Emit(tr, b, k, children[i], true);
      var rest := EmitChildren(tr, b, c.next, children[i + 1..], target, m);
      EmitChildren(tr, b, k, children[i..], target, m)
        == Batch(c.calls + [LogicCall(target, m, c.result)] + rest.calls, rest.next, [c.result] + rest.results)
  {
    assert children[i..][0] == children[i];
    assert children[i..][1..] == children[i + 1..];
  }

  /** One successful clause: its calls, then the combine call into the target, then the next clause. */
  lemma LoopStep(cfg: Config, s: State, target: Handle, m: LogicMethod, node: Node, i: nat, t: State, h: Handle)
    requires node.Logic? && i < |node.children| && 0 < |s.context| <= cfg.maxDepth
    requires Recurse(cfg, s, node.children[i], true, None) == Outcome(t, Success(h))
    ensures LogicLoop(cfg, s, target, Some(m), node, i)
         == LogicLoop(cfg, Record(t, LogicCall(target, m, h)), target, Some(m), node, i + 1)
  {
  }

  /**
   * Without a listener, visit makes the sort calls, then limit and skip, all
   * on the builder, then the reference calls of the filter, and ends with an
   * empty context stack.
   */
  lemma VisitMatchesEmit(cfg: Config, s: State, q: Query)
    requires cfg.dispatcher.None? && Supported(q.query) && WithinDepth(q.query, cfg.maxDepth)
    ensures var e := Emit(cfg.toRegex, s.builder, s.next, q.query, false);
      Visit(cfg, s, q)
        == Outcome(s.(context := [], trace := s.trace + QueryCalls(s.builder, q) + e.calls, next := e.next), Success(e.result))
  {
    var s0 := s.(context := []);
    var s2 := s0.(trace := s.trace + QueryCalls(s.builder, q));
    assert DispatchNodeEvent(cfg, s0, q.query) == Replacement(q.query, s.builder);
    assert s0.(builder := s.builder, events := Notified(cfg, s0, q.query)) == s0;
    assert VisitQuery(s0, q) == s2;
    assert s2.context + [q.query] == [q.query];
    DispatchMatchesEmit(cfg, s2.(context := [q.query]), q.query, false);
    var e := Emit(cfg.toRegex, s.builder, s.next, q.query, false);
    var o := Dispatch(cfg, s2.(context := [q.query]), q.query, false);
    assert o.state == s2.(context := [q.query], trace := s2.trace + e.calls, next := e.next);
    assert o.state.context[..|o.state.context| - 1] == [];
    assert Recurse(cfg, s0, q.query, false, Some(q)) == Outcome(o.state.(context := []), o.result);
  }

  /** For any listener, sort, limit and skip come before every call of the filter, on the builder the listener chose. */
  lemma VisitOrdersQueryCallsFirst(cfg: Config, s: State, q: Query)
    requires cfg.maxDepth > 0
    ensures var b := DispatchNodeEvent(cfg, s.(context := []), q.query).builder;
      s.trace + QueryCalls(b, q) <= Visit(cfg, s, q).state.trace
  {
  }

  /**
   * The root's own calls, all on the builder: one sort per sort field in
   * input order, then limit and skip; each group only when the query has it.
   */
  lemma QueryCallsInOrder(b: Handle, q: Query)
    ensures var qc := QueryCalls(b, q);
      var n := if q.sort.Some? then |q.sort.value| else 0;
      && |qc| == n + (if q.limit.Some? then 2 else 0)
      && (forall i :: 0 <= i < n ==> qc[i] == SortCall(b, q.sort.value[i].name, q.sort.value[i].order))
      && (q.limit.Some? ==> qc[n] == LimitCall(b, q.limit.value.count) && qc[n + 1] == SkipCall(b, q.limit.value.offset))
      && forall i :: 0 <= i < |qc| ==> qc[i].on == b
  {
  }

  /** A scalar node makes one comparison, from scalarMap, on its own field and with its own value. */
  lemma ScalarNodeMakesOneComparison(cfg: Config, s: State, op: ScalarOp, field: string, value: Value, expr: bool)
    requires cfg.dispatcher.None? && op != Like && |s.context| < cfg.maxDepth
    ensures var sel := if expr then s.next else s.builder;
      Recurse(cfg, s, Scalar(op, field, value), expr, None)
        == Outcome(s.(trace := s.trace + (if expr then [ExprCall(s.builder, sel)] else [])
                                       + [FieldCall(sel, field), ScalarCall(sel, ScalarMap(op).value, value)],
                      next := if expr then s.next + 1 else s.next),
                   Success(sel))
  {
    RecurseMatchesEmit(cfg, s, Scalar(op, field, value), expr);
  }

  /** The tables agree with the intended operator meanings. */
  lemma TablesMatchOperators(s: ScalarOp, a: ArrayOp, l: LogicOp)
    ensures ScalarMap(s) == if s == Like then None else Some(Comparison(s))
    ensures ArrayMap(a) == Membership(a)
    ensures QueryMap(l) == if l == Not then None else Some(Combinator(l))
  {
  }

  /** An array node makes one in/notIn call on its field with the value list as given. */
  lemma ArrayNodeKeepsValues(cfg: Config, s: State, op: ArrayOp, field: string, values: seq<Value>, expr: bool)
    requires cfg.dispatcher.None? && |s.context| < cfg.maxDepth
    ensures var sel := if expr then s.next else s.builder;
      Recurse(cfg, s, Array(op, field, values), expr, None)
        == Outcome(s.(trace := s.trace + (if expr then [ExprCall(s.builder, sel)] else [])
                                       + [FieldCall(sel, field), ArrayCall(sel, ArrayMap(op), values)],
                      next := if expr then s.next + 1 else s.next),
                   Success(sel))
  {
    RecurseMatchesEmit(cfg, s, Array(op, field, values), expr);
  }

  /**
   * A like node goes to visitLike although it is a scalar node: it succeeds
   * with one `equals`, on the glob's regex or on the raw value, where
   * visitScalar would fail for lack of a scalarMap entry.
   */
  lemma LikeNodeMatchesWithEquals(cfg: Config, s: State, field: string, value: Value, expr: bool)
    requires cfg.dispatcher.None? && |s.context| < cfg.maxDepth
    ensures var sel := if expr then s.next else s.builder;
      var operand := if value.Glob? then Regex(cfg.toRegex(value.pattern)) else value;
      Recurse(cfg, s, Scalar(Like, field, value), expr, None)
        == Outcome(s.(trace := s.trace + (if expr then [ExprCall(s.builder, sel)] else [])
                                       + [FieldCall(sel, field), ScalarCall(sel, Equals, operand)],
                      next := if expr then s.next + 1 else s.next),
                   Success(sel))
    ensures VisitScalar(s, Scalar(Like, field, value), expr).result.Failure?
  {
    RecurseMatchesEmit(cfg, s, Scalar(Like, field, value), expr);
  }

  /**
   * An elemMatch node takes its field selector first, then translates the
   * sub-query as an expression that changes only handles it created itself,
   * and hands that expression to `elemMatch` on the selector.
   */
  lemma ElemMatchNodeWrapsSubquery(cfg: Config, s: State, field: string, sub: Node, expr: bool)
    requires cfg.dispatcher.None? && Supported(sub)
    requires |s.context| < cfg.maxDepth && WithinDepth(ElemMatch(field, sub), cfg.maxDepth - |s.context|)
    ensures var sel := Selector(s.builder, s.next, field, expr);
      var inner := Emit(cfg.toRegex, s.builder, sel.next, sub, true);
      && Recurse(cfg, s, ElemMatch(field, sub), expr, None)
           == Outcome(s.(trace := s.trace + sel.calls + inner.calls + [ElemMatchCall(sel.result, inner.result)], next := inner.next),
                      Success(sel.result))
      && Confined(inner.calls, s.builder, false, sel.next, inner.next)
  {
    var node := ElemMatch(field, sub);
    RecurseMatchesEmit(cfg, s, node, expr);
    var sel := Selector(s.builder, s.next, field, expr);
    var inner := Emit(cfg.toRegex, s.builder, sel.next, sub, true);
    var call := ElemMatchCall(sel.result, inner.result);
    var e := Emit(cfg.toRegex, s.builder, s.next, node, expr);
    assert e == Emission(sel.calls + inner.calls + [call], sel.result, inner.next);
    Regroup(s.trace, sel.calls, inner.calls, [call]);
    assert After(s, e) == s.(trace := s.trace + sel.calls + inner.calls + [call], next := inner.next);
    EmitConfined(cfg.toRegex, s.builder, sel.next, sub, true);
  }

  /**
   * A logic node (and, or) stands for its target: a fresh expression when
   * it is a clause, else the builder. The calls that change the target are
   * exactly one addAnd/addOr per child, in child order, the j-th carrying
   * the handle of the j-th child's own translation as an expression.
   */
  lemma LogicNodeCombinesChildrenInOrder(cfg: Config, s: State, node: Node, expr: bool)
    requires cfg.dispatcher.None? && node.Logic? && node.logicOp != Not && Supported(node)
    requires |s.context| < cfg.maxDepth && WithinDepth(node, cfg.maxDepth - |s.context|)
    requires s.builder < s.next
    ensures var o := Recurse(cfg, s, node, expr, None);
      var t := if expr then s.next else s.builder;
      var k := if expr then s.next + 1 else s.next;
      var m := Combinator(node.logicOp);
      var r := EmitChildren(cfg.toRegex, s.builder, k, node.children, t, m);
      && o.result == Success(t)
      && o.state.context == s.context
      && |s.trace| <= |o.state.trace|
      && CallsOn(o.state.trace[|s.trace|..], t) == Combined(t, m, r.results)
      && forall j :: 0 <= j < |node.children| ==>
           r.results[j] == Emit(cfg.toRegex, s.builder, EmitChildren(cfg.toRegex, s.builder, k, node.children[..j], t, m).next, node.children[j], true).result
  {
    var e := Emit(cfg.toRegex, s.builder, s.next, node, expr);
    RecurseMatchesEmit(cfg, s, node, expr);
    var o := Recurse(cfg, s, node, expr, None);
    assert o == Outcome(After(s, e), Success(e.result));
    assert o.state.trace[|s.trace|..] == e.calls;
    LogicEmissionCombines(cfg.toRegex, s.builder, s.next, node, expr);
  }

  /** In the reference translation, the calls on a logic node's target are its combinator calls. */
  lemma LogicEmissionCombines(tr: string -> string, b: Handle, k: Handle, node: Node, expr: bool)
    requires node.Logic? && node.logicOp != Not && Supported(node) && b < k
    ensures var t := if expr then k else b;
      var e := Emit(tr, b, k, node, expr);
      var r := EmitChildren(tr, b, if expr then k + 1 else k, node.children, t, Combinator(node.logicOp));
      && e.result == t
      && CallsOn(e.calls, t) == Combined(t, Combinator(node.logicOp), r.results)
      && forall j :: 0 <= j < |node.children| ==>
           r.results[j] == Emit(tr, b, EmitChildren(tr, b, if expr then k + 1 else k, node.children[..j], t, Combinator(node.logicOp)).next, node.children[j], true).result
  {
    var t := if expr then k else b;
    var k' := if expr then k + 1 else k;
    var m := Combinator(node.logicOp);
    var e := Emit(tr, b, k, node, expr);
    var prefix: seq<Call> := if expr then [ExprCall(b, k)] else [];
    CallsOnUntouched(prefix, t);
    var r := EmitChildren(tr, b, k', node.children, t, m);
    if node.children == [] {
      assert e.calls == prefix;
    } else {
      assert e.calls == prefix + r.calls;
      CallsOnAppend(prefix, r.calls, t);
      ChildrenCombine(tr, b, k', node.children, t, m);
    }
    ChildResults(tr, b, k', node.children, t, m);
  }

  /**
   * Scoping and fresh handles: without a listener, a translated clause
   * (`expr`) changes only handles created during its own translation, and so
   * never a builder older than those handles; a top-level node changes the builder and its own handles
   * only. Every `expr()` is asked of the builder and the handles created are
   * consecutive, so no two expressions share a handle.
   */
  lemma TranslationIsScoped(cfg: Config, s: State, node: Node, expr: bool)
    requires cfg.dispatcher.None? && Supported(node)
    requires |s.context| < cfg.maxDepth && WithinDepth(node, cfg.maxDepth - |s.context|)
    ensures var o := Recurse(cfg, s, node, expr, None);
      && o.result.Success?
      && o.state.context == s.context && o.state.builder == s.builder
      && |s.trace| <= |o.state.trace|
      && Confined(o.state.trace[|s.trace|..], s.builder, !expr, s.next, o.state.next)
      && Created(o.state.trace[|s.trace|..]) == Range(s.next, o.state.next)
      && (forall i :: |s.trace| <= i < |o.state.trace| && o.state.trace[i].ExprCall? ==> o.state.trace[i].on == s.builder)
      && (expr && s.builder < s.next ==> CallsOn(o.state.trace[|s.trace|..], s.builder) == [])
  {
    RecurseMatchesEmit(cfg, s, node, expr);
    var e := Emit(cfg.toRegex, s.builder, s.next, node, expr);
    var o := Recurse(cfg, s, node, expr, None);
    assert o.state.trace[|s.trace|..] == e.calls;
    EmitConfined(cfg.toRegex, s.builder, s.next, node, expr);
    EmitAllocates(cfg.toRegex, s.builder, s.next, node, expr);
    if expr && s.builder < s.next {
      ClauseAvoids(cfg.toRegex, s.builder, s.next, node, s.builder);
    }
    forall i | |s.trace| <= i < |o.state.trace| && o.state.trace[i].ExprCall?
      ensures o.state.trace[i].on == s.builder
    {
      assert o.state.trace[i] == e.calls[i - |s.trace|];
    }
  }

  /**
   * A nested `or` inside a top-level `and` reaches the builder as one
   * clause: the builder gets exactly two addAnd calls, the first with the
   * `or` expression (the first handle allocated), and that expression gets
   * exactly two addOr calls, one per alternative.
   */
  lemma NestedOrIsOneClause(cfg: Config, s: State, x: Node, y: Node, z: Node, outer: Node)
    requires cfg.dispatcher.None? && Supported(x) && Supported(y) && Supported(z)
    requires outer == Logic(And, [Logic(Or, [x, y]), z])
    requires |s.context| < cfg.maxDepth
    requires WithinDepth(outer, cfg.maxDepth - |s.context|)
    requires s.builder < s.next
    ensures var o := Recurse(cfg, s, outer, false, None);
      |s.trace| <= |o.state.trace| && OrClauseUnderAnd(o.state.trace[|s.trace|..], s.builder, s.next)
  {
    var e := Emit(cfg.toRegex, s.builder, s.next, outer, false);
    RecurseMatchesEmit(cfg, s, outer, false);
    var o := Recurse(cfg, s, outer, false, None);
    assert o.state.trace == s.trace + e.calls;
    assert o.state.trace[|s.trace|..] == e.calls;
    NestedOrOnBuilder(cfg.toRegex, s.builder, s.next, x, y, z);
    NestedOrOnExpression(cfg.toRegex, s.builder, s.next, x, y, z);
  }

  /**
   * The calls `made` change builder `b` by exactly two addAnd, the first with
   * expression `k`, and change `k` by exactly two addOr.
   */
  predicate OrClauseUnderAnd(made: seq<Call>, b: Handle, k: Handle)
  {
    && |CallsOn(made, b)| == 2
    && CallsOn(made, b)[0] == LogicCall(b, AddAnd, k)
    && CallsOn(made, b)[1].LogicCall? && CallsOn(made, b)[1].logicMethod == AddAnd
    && |CallsOn(made, k)| == 2
    && CallsOn(made, k)[0].LogicCall? && CallsOn(made, k)[0].logicMethod == AddOr
    && CallsOn(made, k)[1].LogicCall? && CallsOn(made, k)[1].logicMethod == AddOr
  }

  /** The builder's share of the nested-or translation: two addAnd, the first with the `or` expression. */
  lemma NestedOrOnBuilder(tr: string -> string, b: Handle, k: Handle, x: Node, y: Node, z: Node)
    requires Supported(x) && Supported(y) && Supported(z) && b < k
    ensures var made := Emit(tr, b, k, Logic(And, [Logic(Or, [x, y]), z]), false).calls;
      && |CallsOn(made, b)| == 2
      && CallsOn(made, b)[0] == LogicCall(b, AddAnd, k)
      && CallsOn(made, b)[1].LogicCall? && CallsOn(made, b)[1].logicMethod == AddAnd
  {
    var inner := Logic(Or, [x, y]);
    var r := EmitChildren(tr, b, k, [inner, z], b, AddAnd);
    assert Emit(tr, b, k, Logic(And, [inner, z]), false).calls == [] + r.calls;
    assert [] + r.calls == r.calls;
    ChildrenCombine(tr, b, k, [inner, z], b, AddAnd);
    assert r.results[0] == Emit(tr, b, k, inner, true).result == k;
  }

  /** The `or` expression's share: one addOr per alternative. */
  lemma NestedOrOnExpression(tr: string -> string, b: Handle, k: Handle, x: Node, y: Node, z: Node)
    requires Supported(x) && Supported(y) && Supported(z) && b < k
    ensures var made := Emit(tr, b, k, Logic(And, [Logic(Or, [x, y]), z]), false).calls;
      && |CallsOn(made, k)| == 2
      && CallsOn(made, k)[0].LogicCall? && CallsOn(made, k)[0].logicMethod == AddOr
      && CallsOn(made, k)[1].LogicCall? && CallsOn(made, k)[1].logicMethod == AddOr
  {
    var inner := Logic(Or, [x, y]);
    var ci := Emit(tr, b, k, inner, true);
    OrClauseShare(tr, b, k, x, y);
    var link := LogicCall(b, AddAnd, ci.result);
    var rest := EmitChildren(tr, b, ci.next, [z], b, AddAnd);
    assert [inner, z][1..] == [z];
    var r := EmitChildren(tr, b, k, [inner, z], b, AddAnd);
    assert r.calls == ci.calls + [link] + rest.calls;
    assert Emit(tr, b, k, Logic(And, [inner, z]), false).calls == r.calls;
    CallsOnUntouched([link], k);
    ChildrenConfined(tr, b, ci.next, [z], b, AddAnd);
    CallsOnUntouched(rest.calls, k);
    CallsOnAppend(ci.calls, [link], k);
    CallsOnAppend(ci.calls + [link], rest.calls, k);
  }

  /** An `or` clause of two alternatives puts exactly its two addOr calls on its own expression. */
  lemma OrClauseShare(tr: string -> string, b: Handle, k: Handle, x: Node, y: Node)
    requires Supported(x) && Supported(y) && b < k
    ensures var ci := Emit(tr, b, k, Logic(Or, [x, y]), true);
      && ci.result == k && k < ci.next
      && |CallsOn(ci.calls, k)| == 2
      && CallsOn(ci.calls, k)[0].LogicCall? && CallsOn(ci.calls, k)[0].logicMethod == AddOr
      && CallsOn(ci.calls, k)[1].LogicCall? && CallsOn(ci.calls, k)[1].logicMethod == AddOr
  {
    var ci := Emit(tr, b, k, Logic(Or, [x, y]), true);
    var alts := EmitChildren(tr, b, k + 1, [x, y], k, AddOr);
    assert ci.calls == [ExprCall(b, k)] + alts.calls;
    ChildrenCombine(tr, b, k + 1, [x, y], k, AddOr);
    CallsOnUntouched([ExprCall(b, k)], k);
    CallsOnAppend([ExprCall(b, k)], alts.calls, k);
  }

  /** A node no table covers, or a missing one, yields the builder and makes no call. */
  lemma UnrecognisedNodeIsNoOp(cfg: Config, s: State, node: Node, expr: bool)
    requires node.Custom? || node.Absent?
    requires !Dispatches(cfg, node) && |s.context| < cfg.maxDepth
    ensures Recurse(cfg, s, node, expr, None) == Outcome(s, Success(s.builder))
  {
    assert (s.context + [node])[..|s.context|] == s.context;
  }

  /**
   * `not()` has no queryMap entry: its first child is translated, then the
   * null method name fails, and the node's frame stays on the context stack.
   */
  lemma UnmappedLogicFailsAfterFirstChild(cfg: Config, s: State, children: seq<Node>, expr: bool)
    requires cfg.dispatcher.None? && children != [] && Supported(children[0])
    requires |s.context| + 1 < cfg.maxDepth && WithinDepth(children[0], cfg.maxDepth - |s.context| - 1)
    ensures var o := Recurse(cfg, s, Logic(Not, children), expr, None);
      var first := Emit(cfg.toRegex, s.builder, if expr then s.next + 1 else s.next, children[0], true);
      && o.result == Failure(UnmappedOperator(Logic(Not, children)))
      && o.state.context == s.context + [Logic(Not, children)]
      && o.state.trace == s.trace + (if expr then [ExprCall(s.builder, s.next)] else []) + first.calls
      && o.state.next == first.next
  {
    var node := Logic(Not, children);
    var pushed := s.(context := s.context + [node]);
    var t := if expr then NewExpr(pushed) else (pushed, pushed.builder);
    RecurseMatchesEmit(cfg, t.0, children[0], true);
    var c := Recurse(cfg, t.0, children[0], true, None);
    var pre: seq<Call> := if expr then [ExprCall(s.builder, s.next)] else [];
    var first := Emit(cfg.toRegex, s.builder, t.0.next, children[0], true);
    assert c.state == pushed.(trace := s.trace + pre + first.calls, next := first.next);
    UnmappedLoopStops(cfg, t.0, t.1, node);
    var failed := Outcome(c.state, Failure(UnmappedOperator(node)));
    assert VisitLogic(cfg, pushed, None, node, expr) == failed;
    assert Dispatch(cfg, pushed, node, expr) == failed;
    RecurseWithoutListener(cfg, s, node, expr);
    assert Recurse(cfg, s, node, expr, None) == failed;
  }

  /** A logic loop with no combinator stops after its first clause, failing on the node. */
  lemma UnmappedLoopStops(cfg: Config, s: State, target: Handle, node: Node)
    requires node.Logic? && node.children != [] && 0 < |s.context| <= cfg.maxDepth
    requires Recurse(cfg, s, node.children[0], true, None).result.Success?
    ensures LogicLoop(cfg, s, target, None, node, 0)
         == Outcome(Recurse(cfg, s, node.children[0], true, None).state, Failure(UnmappedOperator(node)))
  {
  }

  /** Without a listener, recurse pushes the node, dispatches it, and pops it only on success. */
  lemma RecurseWithoutListener(cfg: Config, s: State, node: Node, expr: bool)
    requires cfg.dispatcher.None? && |s.context| < cfg.maxDepth
    ensures var o := Dispatch(cfg, s.(context := s.context + [node]), node, expr);
      Recurse(cfg, s, node, expr, None)
        == if o.result.Failure? then o else Outcome(o.state.(context := o.state.context[..|s.context|]), o.result)
  {
  }

  /**
   * The listener's builder is written to the visitor's builder field: after
   * a node the listener turned into a leaf, the field still holds it, so the
   * next sibling and every later call start from it. A top-level condition
   * is placed on that builder; a clause goes on a fresh expression asked of it.
   */
  lemma ListenerBuilderPersists(cfg: Config, s: State, node: Node, expr: bool)
    requires Dispatches(cfg, node) && |s.context| < cfg.maxDepth
    requires var rep := cfg.dispatcher.value(node, s.builder, s.context);
      !rep.node.Logic? && !rep.node.ElemMatch?
    ensures var rep := cfg.dispatcher.value(node, s.builder, s.context);
      var o := Recurse(cfg, s, node, expr, None);
      && o.state.builder == rep.builder
      && (!expr && o.result.Success? ==> o.result.handle == rep.builder)
      && |s.trace| <= |o.state.trace|
      && (!expr ==> forall i :: |s.trace| <= i < |o.state.trace| && o.state.trace[i].Mutates() ==> o.state.trace[i].on == rep.builder)
      && (expr ==> forall i :: |s.trace| <= i < |o.state.trace| ==>
            (o.state.trace[i].Mutates() ==> o.state.trace[i].on == s.next)
            && (o.state.trace[i].ExprCall? ==> o.state.trace[i].on == rep.builder))
  {
  }

  /** Every event of `evs` from index `from` on carries a context that starts with `ctx`. */
  predicate Beneath(evs: seq<Event>, from: nat, ctx: seq<Node>)
  {
    forall i :: from <= i < |evs| ==> ctx <= evs[i].context
  }

  lemma BeneathParent(evs: seq<Event>, from: nat, ctx: seq<Node>, n: Node)
    requires Beneath(evs, from, ctx + [n])
    ensures Beneath(evs, from, ctx)
  {
    forall i | from <= i < |evs|
      ensures ctx <= evs[i].context
    {
      assert (ctx + [n])[..|ctx|] == ctx;
      assert evs[i].context[..|ctx|] == evs[i].context[..|ctx| + 1][..|ctx|];
    }
  }

  /**
   * The context stack as the listener sees it: a node's own event carries
   * the stack as it was before the node, and every event raised while the
   * node is dispatched sees that stack with the node's original, pre-listener
   * value on top of it. Holds for any listener.
   */
  lemma {:induction false} RecurseEvents(cfg: Config, s: State, node: Node, expr: bool, root: Option<Query>)
    requires |s.context| <= cfg.maxDepth
    ensures var o := Recurse(cfg, s, node, expr, root);
      && (Dispatches(cfg, node) && |s.context| < cfg.maxDepth ==>
            |s.events| < |o.state.events|
            && o.state.events[|s.events|] == Event(node, s.builder, s.context)
            && Beneath(o.state.events, |s.events| + 1, s.context + [node]))
      && (!Dispatches(cfg, node) ==> Beneath(o.state.events, |s.events|, s.context + [node]))
    decreases cfg.maxDepth - |s.context|, 2
  {
    if |s.context| < cfg.maxDepth {
      var rep := DispatchNodeEvent(cfg, s, node);
      var s1 := s.(builder := rep.builder, events := Notified(cfg, s, node));
      var s2 := if root.Some? then VisitQuery(s1, root.value) else s1;
      DispatchEvents(cfg, s2.(context := s2.context + [node]), rep.node, expr);
    }
  }

  lemma {:induction false} DispatchEvents(cfg: Config, s: State, node: Node, expr: bool)
    requires 0 < |s.context| <= cfg.maxDepth
    ensures Beneath(Dispatch(cfg, s, node, expr).state.events, |s.events|, s.context)
    decreases cfg.maxDepth - |s.context| + 1, 1
  {
    match InternalMap(node)
    case Some(VisitLikeMethod) =>
    case Some(VisitElemMatchMethod) => ElemMatchEvents(cfg, s, node, expr);
    case None =>
      if node.Logic? {
        var t := if expr then NewExpr(s) else (s, s.builder);
        LoopEvents(cfg, t.0, t.1, QueryMap(node.logicOp), node, 0);
      }
  }

  lemma {:induction false} ElemMatchEvents(cfg: Config, s: State, node: Node, expr: bool)
    requires node.ElemMatch? && 0 < |s.context| <= cfg.maxDepth
    ensures Beneath(VisitElemMatch(cfg, s, node, expr).state.events, |s.events|, s.context)
    decreases cfg.maxDepth - |s.context| + 1, 0, 0
  {
    var g := GetField(s, node.field, expr);
    RecurseStaysBeneath(cfg, g.0, node.sub, true, None);
  }

  /** Every event raised during a recurse carries the context stack it started from. */
  lemma {:induction false} RecurseStaysBeneath(cfg: Config, s: State, node: Node, expr: bool, root: Option<Query>)
    requires |s.context| <= cfg.maxDepth
    ensures Beneath(Recurse(cfg, s, node, expr, root).state.events, |s.events|, s.context)
    decreases cfg.maxDepth - |s.context|, 3
  {
    var evs := Recurse(cfg, s, node, expr, root).state.events;
    RecurseEvents(cfg, s, node, expr, root);
    if !Dispatches(cfg, node) {
      BeneathParent(evs, |s.events|, s.context, node);
    } else if |s.context| < cfg.maxDepth {
      BeneathParent(evs, |s.events| + 1, s.context, node);
    }
  }

  lemma {:induction false} LoopEvents(cfg: Config, s: State, target: Handle, addMethod: Option<LogicMethod>, node: Node, i: nat)
    requires node.Logic? && i <= |node.children| && 0 < |s.context| <= cfg.maxDepth
    ensures Beneath(LogicLoop(cfg, s, target, addMethod, node, i).state.events, |s.events|, s.context)
    decreases cfg.maxDepth - |s.context| + 1, 0, |node.children| - i
  {
    if i < |node.children| {
      var child := node.children[i];
      var o := Recurse(cfg, s, child, true, None);
      RecurseStaysBeneath(cfg, s, child, true, None);
      if o.result.Success? && addMethod.Some? {
        var s1 := Record(o.state, LogicCall(target, addMethod.value, o.result.handle));
        LoopEvents(cfg, s1, target, addMethod, node, i + 1);
        var final := LogicLoop(cfg, s1, target, addMethod, node, i + 1).state.events;
        assert o.state.events <= final;
        forall j | |s.events| <= j < |final|
          ensures s.context <= final[j].context
        {
          if j < |o.state.events| {
            assert final[j] == o.state.events[j];
          }
        }
      }
    }
  }

  /** The scenario of a root `and` of an eq and an in, sorted by name, limited to 5. */
  lemma EndToEndScenario(toRegex: string -> string, maxDepth: nat, s: State, q: Query)
    requires maxDepth >= 2 && s == State(Live, [], [], [], Live + 1)
    requires q == Query(Logic(And, [Scalar(Eq, "status", Str("active")), Array(ArrayOp.In, "tag", [Str("a"), Str("b")])]),
                        Some([SortField("name", 1)]), Some(Limit(5, 0)))
    ensures var o := Visit(Config(None, toRegex, maxDepth), s, q);
      && o.result == Success(Live)
      && o.state.context == []
      && o.state.trace[..3] == [SortCall(0, "name", 1), LimitCall(0, 5), SkipCall(0, 0)]
      && o.state.trace[3..] == [
           ExprCall(0, 1), FieldCall(1, "status"), ScalarCall(1, Equals, Str("active")), LogicCall(0, AddAnd, 1),
           ExprCall(0, 2), FieldCall(2, "tag"), ArrayCall(2, ArrayMethod.In, [Str("a"), Str("b")]), LogicCall(0, AddAnd, 2)]
  {
    var cfg := Config(None, toRegex, maxDepth);
    assert WithinDepth(q.query.children[0], maxDepth - 1) && WithinDepth(q.query.children[1], maxDepth - 1);
    assert WithinDepth(q.query, maxDepth);
    VisitMatchesEmit(cfg, s, q);
    var qc := QueryCalls(Live, q);
    ScenarioQueryCalls(q);
    var e := Emit(toRegex, s.builder, s.next, q.query, false);
    ScenarioFilter(toRegex, s.builder, s.next, q.query);
    var o := Visit(cfg, s, q);
    Split(o.state.trace, qc, e.calls);
  }

  /** A trace made of two parts splits back into them. */
  lemma Split(tr: seq<Call>, a: seq<Call>, b: seq<Call>)
    requires tr == a + b
    ensures tr[..|a|] == a && tr[|a|..] == b
  {
  }

  /** The scenario's root calls: one sort, then limit and skip. */
  lemma ScenarioQueryCalls(q: Query)
    requires q.sort == Some([SortField("name", 1)]) && q.limit == Some(Limit(5, 0))
    ensures QueryCalls(Live, q) == [SortCall(0, "name", 1), LimitCall(0, 5), SkipCall(0, 0)]
  {
    assert SortCalls(Live, [SortField("name", 1)]) == [SortCall(0, "name", 1)];
  }

  /** The reference calls of the scenario's filter. */
  lemma ScenarioFilter(toRegex: string -> string, b: Handle, k: Handle, filter: Node)
    requires b == Live && k == Live + 1
    requires filter == Logic(And, [Scalar(Eq, "status", Str("active")), Array(ArrayOp.In, "tag", [Str("a"), Str("b")])])
    ensures Emit(toRegex, b, k, filter, false) == Emission([
           ExprCall(0, 1), FieldCall(1, "status"), ScalarCall(1, Equals, Str("active")), LogicCall(0, AddAnd, 1),
           ExprCall(0, 2), FieldCall(2, "tag"), ArrayCall(2, ArrayMethod.In, [Str("a"), Str("b")]), LogicCall(0, AddAnd, 2)], 0, 3)
  {
    var ch := filter.children;
    var c1 := Emit(toRegex, 0, 1, ch[0], true);
    assert c1 == Emission([ExprCall(0, 1), FieldCall(1, "status"), ScalarCall(1, Equals, Str("active"))], 1, 2);
    var c2 := Emit(toRegex, 0, 2, ch[1], true);
    assert c2 == Emission([ExprCall(0, 2), FieldCall(2, "tag"), ArrayCall(2, ArrayMethod.In, [Str("a"), Str("b")])], 2, 3);
    assert ch[1..] == [ch[1]];
    assert ch[1..][1..] == [];
    var rest := EmitChildren(toRegex, 0, 3, ch[1..][1..], 0, AddAnd);
    assert rest == Batch([], 3, []);
    var last := EmitChildren(toRegex, 0, 2, ch[1..], 0, AddAnd);
    assert last.calls == c2.calls + [LogicCall(0, AddAnd, 2)] + [];
    assert last == Batch(c2.calls + [LogicCall(0, AddAnd, 2)], 3, [2]);
    var all := EmitChildren(toRegex, 0, 1, ch, 0, AddAnd);
    assert all == Batch(c1.calls + [LogicCall(0, AddAnd, 1)] + last.calls, 3, [1, 2]);
  }
}
