/**
 * The MongoOdm visitor: walks an RQL tree and constrains a MongoDB ODM query
 * builder. Its fields are the current builder handle, the context stack of
 * nodes being visited, and, as observations of the outside world, the calls
 * made on the builder, the visit-node events dispatched and the next handle
 * `expr()` will yield. Every method is proved to change the state exactly as
 * the function of the same name in module Translation says.
 */
module Visitor {

  import opened Wrappers
  import opened Rql
  import opened Builder
  import opened Tables
  import opened Translation

  class MongoOdm {
    var builder: Handle
    var context: seq<Node>
    var trace: seq<Call>
    var events: seq<Event>
    var next: Handle
    const dispatcher: Option<Hook>
    const toRegex: string -> string
    const maxDepth: nat

    function Settings(): Config
    {
      Config(dispatcher, toRegex, maxDepth)
    }

    function Snapshot(): State
      reads this
    {
      State(builder, context, trace, events, next)
    }

    /** A visitor on the live builder, with no calls made yet. */
    constructor (dispatcher: Option<Hook>, toRegex: string -> string, maxDepth: nat)
      ensures Snapshot() == State(Live, [], [], [], Live + 1)
      ensures Settings() == Config(dispatcher, toRegex, maxDepth)
    {
      this.dispatcher := dispatcher;
      this.toRegex := toRegex;
      this.maxDepth := maxDepth;
      builder := Live;
      context := [];
      trace := [];
      events := [];
      next := Live + 1;
    }

    /** A call on the builder, or on an expression obtained from it. */
    method Record(c: Call)
      modifies this`trace
      ensures trace == old(trace) + [c]
    {
      trace := trace + [c];
    }

    /** `$this->builder->expr()`. */
    method NewExpr() returns (e: Handle)
      modifies this`trace, this`next
      ensures (Snapshot(), e) == Translation.NewExpr(old(Snapshot()))
    {
      e := next;
      trace := trace + [ExprCall(builder, e)];
      next := next + 1;
    }

    method Visit(q: Query) returns (r: Result)
      modifies this
      ensures Outcome(Snapshot(), r) == Translation.Visit(Settings(), old(Snapshot()), q)
    {
      context := [];
      r := Recurse(q.query, false, Some(q));
    }

    method Recurse(node: Node, expr: bool, root: Option<Query>) returns (r: Result)
      requires |context| <= maxDepth
      modifies this
      ensures Outcome(Snapshot(), r) == Translation.Recurse(Settings(), old(Snapshot()), node, expr, root)
      decreases maxDepth - |context|, 2
    {
      if |context| == maxDepth {
        return Failure(StackExhausted);
      }
      var originalNode := node;
      var rep := DispatchNodeEvent(node);
      builder := rep.builder;
      if root.Some? {
        VisitQuery(root.value);
      }
      context := context + [originalNode];
      r := Dispatch(rep.node, expr);
      if r.Failure? {
        return;
      }
      context := context[..|context| - 1];
    }

    /** The dispatch inside recurse, between the push and the pop. */
    method Dispatch(node: Node, expr: bool) returns (r: Result)
      requires 0 < |context| <= maxDepth
      modifies this
      ensures Outcome(Snapshot(), r) == Translation.Dispatch(Settings(), old(Snapshot()), node, expr)
      decreases maxDepth - |context| + 1, 1
    {
      var internal := InternalMap(node);
      if internal == Some(VisitLikeMethod) {
        r := VisitLike(node, expr);
      } else if internal == Some(VisitElemMatchMethod) {
        r := VisitElemMatch(node, expr);
      } else if node.Scalar? {
        r := VisitScalar(node, expr);
      } else if node.Array? {
        r := VisitArray(node, expr);
      } else if node.Logic? {
        r := VisitLogic(QueryMap(node.logicOp), node, expr);
      } else {
        r := Success(builder);
      }
    }

    /** Dispatches the visit-node event when a listener is set and the node is a query node. */
    method DispatchNodeEvent(node: Node) returns (rep: Replacement)
      modifies this`events
      ensures rep == Translation.DispatchNodeEvent(Settings(), old(Snapshot()), node)
      ensures events == Notified(Settings(), old(Snapshot()), node)
    {
      rep := Replacement(node, builder);
      if dispatcher.Some? && IsQueryNode(node) {
        events := events + [Event(node, builder, context)];
        rep := dispatcher.value(node, builder, context);
      }
    }

    method VisitQuery(q: Query)
      modifies this`trace
      ensures Snapshot() == Translation.VisitQuery(old(Snapshot()), q)
    {
      if q.sort.Some? {
        VisitSort(q.sort.value);
      }
      if q.limit.Some? {
        VisitLimit(q.limit.value);
      }
    }

    method VisitScalar(node: Node, expr: bool) returns (r: Result)
      requires node.Scalar?
      modifies this`trace, this`next
      ensures Outcome(Snapshot(), r) == Translation.VisitScalar(old(Snapshot()), node, expr)
    {
      var m := ScalarMap(node.scalarOp);
      var selector := GetField(node.field, expr);
      if m.None? {
        return Failure(UnmappedOperator(node));
      }
      Record(ScalarCall(selector, m.value, node.value));
      r := Success(selector);
    }

    method VisitArray(node: Node, expr: bool) returns (r: Result)
      requires node.Array?
      modifies this`trace, this`next
      ensures Outcome(Snapshot(), r) == Translation.VisitArray(old(Snapshot()), node, expr)
    {
      var m := ArrayMap(node.arrayOp);
      var selector := GetField(node.field, expr);
      Record(ArrayCall(selector, m, node.values));
      r := Success(selector);
    }

    method GetField(field: string, expr: bool) returns (selector: Handle)
      modifies this`trace, this`next
      ensures (Snapshot(), selector) == Translation.GetField(old(Snapshot()), field, expr)
    {
      if expr {
        selector := NewExpr();
      } else {
        selector := builder;
      }
      Record(FieldCall(selector, field));
    }

    method VisitLogic(addMethod: Option<LogicMethod>, node: Node, expr: bool) returns (r: Result)
      requires node.Logic? && 0 < |context| <= maxDepth
      modifies this
      ensures Outcome(Snapshot(), r) == Translation.VisitLogic(Settings(), old(Snapshot()), addMethod, node, expr)
      decreases maxDepth - |context| + 1, 0, |node.children| + 1
    {
      var target := builder;
      if expr {
        target := NewExpr();
      }
      var i := 0;
      while i < |node.children|
        invariant 0 <= i <= |node.children|
        invariant context == old(context)
        invariant LogicLoop(Settings(), Snapshot(), target, addMethod, node, i)
               == Translation.VisitLogic(Settings(), old(Snapshot()), addMethod, node, expr)
      {
        var sub := Recurse(node.children[i], true, None);
        if sub.Failure? {
          return sub;
        }
        if addMethod.None? {
          return Failure(UnmappedOperator(node));
        }
        Record(LogicCall(target, addMethod.value, sub.handle));
        i := i + 1;
      }
      r := Success(target);
    }

    method VisitSort(fields: seq<SortField>)
      modifies this`trace
      ensures Snapshot() == Translation.VisitSort(old(Snapshot()), fields)
    {
      for i := 0 to |fields|
        invariant trace == old(trace) + SortCalls(builder, fields[..i])
      {
        var call := SortCall(builder, fields[i].name, fields[i].order);
        assert fields[..i + 1] == fields[..i] + [fields[i]];
        assert SortCalls(builder, [fields[i]]) == [call];
        SortCallsAppend(builder, fields[..i], [fields[i]]);
        Record(call);
      }
      assert fields[..|fields|] == fields;
      assert trace == old(trace) + SortCalls(builder, fields);
    }

    method VisitLike(node: Node, expr: bool) returns (r: Result)
      requires node.Scalar?
      modifies this`trace, this`next
      ensures Outcome(Snapshot(), r) == Translation.VisitLike(Settings(), old(Snapshot()), node, expr)
    {
      var query := node.value;
      if query.Glob? {
        query := Regex(toRegex(query.pattern));
      }
      var selector := GetField(node.field, expr);
      Record(ScalarCall(selector, Equals, query));
      r := Success(selector);
    }

    method VisitElemMatch(node: Node, expr: bool) returns (r: Result)
      requires node.ElemMatch? && 0 < |context| <= maxDepth
      modifies this
      ensures Outcome(Snapshot(), r) == Translation.VisitElemMatch(Settings(), old(Snapshot()), node, expr)
      decreases maxDepth - |context| + 1, 0, 0
    {
      var selector := GetField(node.field, expr);
      var sub := Recurse(node.sub, true, None);
      if sub.Failure? {
        return sub;
      }
      Record(ElemMatchCall(selector, sub.handle));
      r := Success(selector);
    }

    method VisitLimit(l: Limit)
      modifies this`trace
      ensures Snapshot() == Translation.VisitLimit(old(Snapshot()), l)
    {
      Record(LimitCall(builder, l.count));
      Record(SkipCall(builder, l.offset));
    }
  }
}
