/**
 * A reference translation, written from what the visitor is meant to do
 * rather than from how it does it: no state, no context stack, no listener.
 * `Emit(b, k, node, expr)` is the list of calls a node yields when `b` is the
 * builder and `k` the next handle `expr()` returns, the handle standing for
 * the node's condition, and the next handle afterwards.
 */
module Reference {

  import opened Rql
  import opened Builder

  datatype Emission = Emission(calls: seq<Call>, result: Handle, next: Handle)

  /** What a list of sibling clauses yields, with the handle each clause stands for. */
  datatype Batch = Batch(calls: seq<Call>, next: Handle, results: seq<Handle>)

  /** A field condition goes on a new expression when it is a clause of something, else on the builder. */
  function Selector(b: Handle, k: Handle, field: string, expr: bool): Emission
  {
    if expr then Emission([ExprCall(b, k), FieldCall(k, field)], k, k + 1)
    else Emission([FieldCall(b, field)], b, k)
  }

  /** eq, ne, lt, gt, le, ge compare with the like-named method; like matches with equals. */
  function Comparison(op: ScalarOp): ScalarMethod
  {
    match op
    case Eq => Equals
    case Ne => NotEqual
    case Lt => ScalarMethod.Lt
    case Gt => ScalarMethod.Gt
    case Le => Lte
    case Ge => Gte
    case Like => Equals
  }

  /** like() with a glob compares with the glob's regex; everything else with its own value. */
  function Operand(toRegex: string -> string, op: ScalarOp, v: Value): Value
  {
    if op == Like && v.Glob? then Regex(toRegex(v.pattern)) else v
  }

  function Membership(op: ArrayOp): ArrayMethod
  {
    if op == ArrayOp.In then ArrayMethod.In else NotIn
  }

  function Combinator(op: LogicOp): LogicMethod
    requires op != Not
  {
    if op == And then AddAnd else AddOr
  }

  function Emit(toRegex: string -> string, b: Handle, k: Handle, node: Node, expr: bool): (e: Emission)
    requires Supported(node)
    ensures k <= e.next
    decreases node, 1
  {
    match node
    case Scalar(op, f, v) =>
      var sel := Selector(b, k, f, expr);
      Emission(sel.calls + [ScalarCall(sel.result, Comparison(op), Operand(toRegex, op, v))], sel.result, sel.next)
    case Array(op, f, vs) =>
      var sel := Selector(b, k, f, expr);
      Emission(sel.calls + [ArrayCall(sel.result, Membership(op), vs)], sel.result, sel.next)
    case ElemMatch(f, sub) =>
      var sel := Selector(b, k, f, expr);
      var inner := Emit(toRegex, b, sel.next, sub, true);
      Emission(sel.calls + inner.calls + [ElemMatchCall(sel.result, inner.result)], sel.result, inner.next)
    case Logic(op, children) =>
      var target := if expr then Emission([ExprCall(b, k)], k, k + 1) else Emission([], b, k);
      if children == [] then target
      else
        var cs := EmitChildren(toRegex, b, target.next, children, target.result, Combinator(op));
        Emission(target.calls + cs.calls, target.result, cs.next)
    case Custom(_) => Emission([], b, k)
    case Absent => Emission([], b, k)
  }

  /** Each clause in turn, as an expression, then combined into `target` with `m`. */
  function EmitChildren(toRegex: string -> string, b: Handle, k: Handle, children: seq<Node>, target: Handle, m: LogicMethod): (r: Batch)
    requires forall i :: 0 <= i < |children| ==> Supported(children[i])
    ensures k <= r.next && |r.results| == |children|
    decreases children, 0
  {
    if children == [] then Batch([], k, [])
    else
      var c := Emit(toRegex, b, k, children[0], true);
      var rest := EmitChildren(toRegex, b, c.next, children[1..], target, m);
      Batch(c.calls + [LogicCall(target, m, c.result)] + rest.calls, rest.next, [c.result] + rest.results)
  }

  /** Every call that changes something changes `b` itself (only when `own`) or a handle in [k, next). */
  predicate Confined(calls: seq<Call>, b: Handle, own: bool, k: Handle, next: Handle)
  {
    forall i :: 0 <= i < |calls| && calls[i].Mutates() ==> (own && calls[i].on == b) || k <= calls[i].on < next
  }

  lemma ConfinedAppend(a: seq<Call>, c: seq<Call>, b: Handle, own: bool, k: Handle, next: Handle)
    requires Confined(a, b, own, k, next) && Confined(c, b, own, k, next)
    ensures Confined(a + c, b, own, k, next)
  {
    forall i | 0 <= i < |a + c| && (a + c)[i].Mutates()
      ensures (own && (a + c)[i].on == b) || k <= (a + c)[i].on < next
    {
      if i >= |a| {
        assert (a + c)[i] == c[i - |a|];
      }
    }
  }

  lemma ConfinedWiden(calls: seq<Call>, b: Handle, own: bool, k: Handle, next: Handle, k': Handle, next': Handle)
    requires Confined(calls, b, own, k, next) && k' <= k && next <= next'
    ensures Confined(calls, b, own, k', next')
  {
  }

  /**
   * Scoping: a clause (`expr`) changes only handles it allocated itself and
   * stands for one of them, unless it is an unknown or missing node, which
   * stands for `b`; a top-level node changes only `b` and its own handles and
   * stands for `b`.
   */
  lemma {:induction false} EmitConfined(toRegex: string -> string, b: Handle, k: Handle, node: Node, expr: bool)
    requires Supported(node)
    ensures var e := Emit(toRegex, b, k, node, expr);
      && Confined(e.calls, b, !expr, k, e.next)
      && (!expr ==> e.result == b)
      && (expr && !node.Custom? && !node.Absent? ==> k <= e.result < e.next)
      && (expr && (node.Custom? || node.Absent?) ==> e.result == b)
    decreases node, 1
  {
    var e := Emit(toRegex, b, k, node, expr);
    match node
    case Scalar(op, f, v) =>
    case Array(op, f, vs) =>
    case ElemMatch(f, sub) =>
      ElemMatchConfined(toRegex, b, k, node, expr);
    case Logic(op, children) =>
      LogicConfined(toRegex, b, k, node, expr);
    case Custom(_) =>
    case Absent =>
  }

  lemma {:induction false} ElemMatchConfined(toRegex: string -> string, b: Handle, k: Handle, node: Node, expr: bool)
    requires node.ElemMatch? && Supported(node)
    ensures var e := Emit(toRegex, b, k, node, expr);
      Confined(e.calls, b, !expr, k, e.next) && (!expr ==> e.result == b) && (expr ==> k <= e.result < e.next)
    decreases node, 0
  {
    var sel := Selector(b, k, node.field, expr);
    var inner := Emit(toRegex, b, sel.next, node.sub, true);
    var call := ElemMatchCall(sel.result, inner.result);
    assert Emit(toRegex, b, k, node, expr) == Emission(sel.calls + inner.calls + [call], sel.result, inner.next);
    EmitConfined(toRegex, b, sel.next, node.sub, true);
    ConfinedWiden(inner.calls, b, false, sel.next, inner.next, k, inner.next);
    ConfinedAppend(sel.calls, inner.calls, b, !expr, k, inner.next);
    ConfinedAppend(sel.calls + inner.calls, [call], b, !expr, k, inner.next);
  }

  lemma {:induction false} LogicConfined(toRegex: string -> string, b: Handle, k: Handle, node: Node, expr: bool)
    requires node.Logic? && Supported(node)
    ensures var e := Emit(toRegex, b, k, node, expr);
      Confined(e.calls, b, !expr, k, e.next) && (!expr ==> e.result == b) && (expr ==> k <= e.result < e.next)
    decreases node, 0
  {
    var children := node.children;
    if children != [] {
      var target := if expr then Emission([ExprCall(b, k)], k, k + 1) else Emission([], b, k);
      var cs := EmitChildren(toRegex, b, target.next, children, target.result, Combinator(node.logicOp));
      assert Emit(toRegex, b, k, node, expr) == Emission(target.calls + cs.calls, target.result, cs.next);
      ChildrenConfined(toRegex, b, target.next, children, target.result, Combinator(node.logicOp));
      assert Confined(cs.calls, b, !expr, k, cs.next) by {
        var cc := cs.calls;
        assert Confined(cc, target.result, true, target.next, cs.next);
        forall i | 0 <= i < |cc| && cc[i].Mutates()
          ensures (!expr && cc[i].on == b) || k <= cc[i].on < cs.next
        {
          assert cc[i].on == target.result || target.next <= cc[i].on < cs.next;
        }
      }
      ConfinedAppend(target.calls, cs.calls, b, !expr, k, cs.next);
    }
  }

  /** Sibling clauses change `target` (by combining into it) and otherwise only their own handles. */
  lemma {:induction false} ChildrenConfined(toRegex: string -> string, b: Handle, k: Handle, children: seq<Node>, target: Handle, m: LogicMethod)
    requires forall i :: 0 <= i < |children| ==> Supported(children[i])
    ensures Confined(EmitChildren(toRegex, b, k, children, target, m).calls, target, true, k, EmitChildren(toRegex, b, k, children, target, m).next)
    decreases children, 0
  {
    if children != [] {
      var r := EmitChildren(toRegex, b, k, children, target, m);
      var c := Emit(toRegex, b, k, children[0], true);
      var rest := EmitChildren(toRegex, b, c.next, children[1..], target, m);
      EmitConfined(toRegex, b, k, children[0], true);
      ChildrenConfined(toRegex, b, c.next, children[1..], target, m);
      assert Confined(c.calls, target, true, k, r.next);
      assert Confined([LogicCall(target, m, c.result)], target, true, k, r.next);
      ConfinedWiden(rest.calls, target, true, c.next, rest.next, k, r.next);
      ConfinedAppend(c.calls, [LogicCall(target, m, c.result)], target, true, k, r.next);
      ConfinedAppend(c.calls + [LogicCall(target, m, c.result)], rest.calls, target, true, k, r.next);
    }
  }

  /**
   * Fresh handles: the `expr()` calls of a translation are all made on `b`
   * and create exactly the handles k, k + 1, ..., next - 1, in that order.
   */
  lemma {:induction false} EmitAllocates(toRegex: string -> string, b: Handle, k: Handle, node: Node, expr: bool)
    requires Supported(node)
    ensures var e := Emit(toRegex, b, k, node, expr);
      && Created(e.calls) == Range(k, e.next)
      && forall i :: 0 <= i < |e.calls| && e.calls[i].ExprCall? ==> e.calls[i].on == b
    decreases node, 1
  {
    var e := Emit(toRegex, b, k, node, expr);
    match node
    case Scalar(op, f, v) =>
      var sel := Selector(b, k, f, expr);
      CreatedAppend(sel.calls, [ScalarCall(sel.result, Comparison(op), Operand(toRegex, op, v))]);
      SelectorAllocates(b, k, f, expr);
    case Array(op, f, vs) =>
      var sel := Selector(b, k, f, expr);
      CreatedAppend(sel.calls, [ArrayCall(sel.result, Membership(op), vs)]);
      SelectorAllocates(b, k, f, expr);
    case ElemMatch(f, sub) =>
      ElemMatchAllocates(toRegex, b, k, node, expr);
    case Logic(op, children) =>
      LogicAllocates(toRegex, b, k, node, expr);
    case Custom(_) =>
    case Absent =>
  }

  lemma {:induction false} ElemMatchAllocates(toRegex: string -> string, b: Handle, k: Handle, node: Node, expr: bool)
    requires node.ElemMatch? && Supported(node)
    ensures var e := Emit(toRegex, b, k, node, expr);
      && Created(e.calls) == Range(k, e.next)
      && forall i :: 0 <= i < |e.calls| && e.calls[i].ExprCall? ==> e.calls[i].on == b
    decreases node, 0
  {
    var sel := Selector(b, k, node.field, expr);
    var inner := Emit(toRegex, b, sel.next, node.sub, true);
    var call := ElemMatchCall(sel.result, inner.result);
    assert Emit(toRegex, b, k, node, expr) == Emission(sel.calls + inner.calls + [call], sel.result, inner.next);
    SelectorAllocates(b, k, node.field, expr);
    EmitAllocates(toRegex, b, sel.next, node.sub, true);
    CreatedAppend(sel.calls, inner.calls);
    CreatedAppend(sel.calls + inner.calls, [call]);
    RangeAppend(k, sel.next, inner.next);
    ExprCallsOn(sel.calls, inner.calls, b);
    ExprCallsOn(sel.calls + inner.calls, [call], b);
  }

  lemma {:induction false} LogicAllocates(toRegex: string -> string, b: Handle, k: Handle, node: Node, expr: bool)
    requires node.Logic? && Supported(node)
    ensures var e := Emit(toRegex, b, k, node, expr);
      && Created(e.calls) == Range(k, e.next)
      && forall i :: 0 <= i < |e.calls| && e.calls[i].ExprCall? ==> e.calls[i].on == b
    decreases node, 0
  {
    var e := Emit(toRegex, b, k, node, expr);
    var target := if expr then Emission([ExprCall(b, k)], k, k + 1) else Emission([], b, k);
    assert Created(target.calls) == Range(k, target.next) by {
      if expr {
        assert Created(target.calls) == [k] + Created([]);
      }
    }
    if node.children != [] {
      var op := node.logicOp;
      var cs := EmitChildren(toRegex, b, target.next, node.children, target.result, Combinator(op));
      assert e == Emission(target.calls + cs.calls, target.result, cs.next);
      ChildrenAllocate(toRegex, b, target.next, node.children, target.result, Combinator(op));
      CreatedAppend(target.calls, cs.calls);
      RangeAppend(k, target.next, cs.next);
      ExprCallsOn(target.calls, cs.calls, b);
    }
  }

  lemma {:induction false} ChildrenAllocate(toRegex: string -> string, b: Handle, k: Handle, children: seq<Node>, target: Handle, m: LogicMethod)
    requires forall i :: 0 <= i < |children| ==> Supported(children[i])
    ensures var r := EmitChildren(toRegex, b, k, children, target, m);
      && Created(r.calls) == Range(k, r.next)
      && forall i :: 0 <= i < |r.calls| && r.calls[i].ExprCall? ==> r.calls[i].on == b
    decreases children, 0
  {
    if children != [] {
      var c := Emit(toRegex, b, k, children[0], true);
      var rest := EmitChildren(toRegex, b, c.next, children[1..], target, m);
      EmitAllocates(toRegex, b, k, children[0], true);
      ChildrenAllocate(toRegex, b, c.next, children[1..], target, m);
      CreatedAppend(c.calls, [LogicCall(target, m, c.result)]);
      CreatedAppend(c.calls + [LogicCall(target, m, c.result)], rest.calls);
      RangeAppend(k, c.next, rest.next);
      ExprCallsOn(c.calls, [LogicCall(target, m, c.result)], b);
      ExprCallsOn(c.calls + [LogicCall(target, m, c.result)], rest.calls, b);
    }
  }

  lemma SelectorAllocates(b: Handle, k: Handle, field: string, expr: bool)
    ensures var sel := Selector(b, k, field, expr);
      && Created(sel.calls) == Range(k, sel.next)
      && forall i :: 0 <= i < |sel.calls| && sel.calls[i].ExprCall? ==> sel.calls[i].on == b
  {
    var sel := Selector(b, k, field, expr);
    if expr {
      assert Created(sel.calls) == [k] + Created([FieldCall(k, field)]);
      assert Created([FieldCall(k, field)]) == [] + Created([]);
    } else {
      assert Created(sel.calls) == [] + Created([]);
    }
  }

  lemma ExprCallsOn(a: seq<Call>, c: seq<Call>, b: Handle)
    requires forall i :: 0 <= i < |a| && a[i].ExprCall? ==> a[i].on == b
    requires forall i :: 0 <= i < |c| && c[i].ExprCall? ==> c[i].on == b
    ensures forall i :: 0 <= i < |a + c| && (a + c)[i].ExprCall? ==> (a + c)[i].on == b
  {
    forall i | 0 <= i < |a + c| && (a + c)[i].ExprCall?
      ensures (a + c)[i].on == b
    {
      if i >= |a| {
        assert (a + c)[i] == c[i - |a|];
      }
    }
  }

  lemma RangeAppend(lo: Handle, mid: Handle, hi: Handle)
    requires lo <= mid <= hi
    ensures Range(lo, mid) + Range(mid, hi) == Range(lo, hi)
  {
  }

  /** One combine call into `t` per handle, in order. */
  function Combined(t: Handle, m: LogicMethod, hs: seq<Handle>): (r: seq<Call>)
    ensures |r| == |hs| && forall j :: 0 <= j < |hs| ==> r[j] == LogicCall(t, m, hs[j])
  {
    if hs == [] then [] else [LogicCall(t, m, hs[0])] + Combined(t, m, hs[1..])
  }

  /**
   * Combination order: the calls that change `target` are exactly one
   * combine call per clause, in clause order, each carrying the handle the
   * clause stands for.
   */
  lemma {:induction false} ChildrenCombine(toRegex: string -> string, b: Handle, k: Handle, children: seq<Node>, target: Handle, m: LogicMethod)
    requires forall i :: 0 <= i < |children| ==> Supported(children[i])
    requires target < k
    ensures CallsOn(EmitChildren(toRegex, b, k, children, target, m).calls, target)
         == Combined(target, m, EmitChildren(toRegex, b, k, children, target, m).results)
    decreases children, 0
  {
    if children != [] {
      var r := EmitChildren(toRegex, b, k, children, target, m);
      var c := Emit(toRegex, b, k, children[0], true);
      var rest := EmitChildren(toRegex, b, c.next, children[1..], target, m);
      var link := LogicCall(target, m, c.result);
      assert r.calls == c.calls + [link] + rest.calls;
      assert r.results == [c.result] + rest.results;
      ClauseAvoids(toRegex, b, k, children[0], target);
      assert CallsOn([link], target) == [link] by {
        assert [link][1..] == [];
      }
      CallsOnAppend(c.calls, [link], target);
      assert CallsOn(c.calls + [link], target) == [link];
      CallsOnAppend(c.calls + [link], rest.calls, target);
      ChildrenCombine(toRegex, b, c.next, children[1..], target, m);
      assert CallsOn(r.calls, target) == [link] + Combined(target, m, rest.results);
      assert r.results[1..] == rest.results;
    }
  }

  /** A clause translated from handle `k` on makes no call that changes a handle below `k`. */
  lemma ClauseAvoids(toRegex: string -> string, b: Handle, k: Handle, node: Node, h: Handle)
    requires Supported(node) && h < k
    ensures CallsOn(Emit(toRegex, b, k, node, true).calls, h) == []
  {
    var e := Emit(toRegex, b, k, node, true);
    EmitConfined(toRegex, b, k, node, true);
    CallsOnUntouched(e.calls, h);
  }

  /** The j-th clause stands for the handle of its own translation, started where clause j - 1 ended. */
  lemma {:induction false} ChildResults(toRegex: string -> string, b: Handle, k: Handle, children: seq<Node>, target: Handle, m: LogicMethod)
    requires forall i :: 0 <= i < |children| ==> Supported(children[i])
    ensures var r := EmitChildren(toRegex, b, k, children, target, m);
      forall j :: 0 <= j < |children| ==>
        r.results[j] == Emit(toRegex, b, EmitChildren(toRegex, b, k, children[..j], target, m).next, children[j], true).result
    decreases children, 0
  {
    if children != [] {
      var r := EmitChildren(toRegex, b, k, children, target, m);
      var c := Emit(toRegex, b, k, children[0], true);
      var rest := EmitChildren(toRegex, b, c.next, children[1..], target, m);
      ChildResults(toRegex, b, c.next, children[1..], target, m);
      forall j | 0 <= j < |children|
        ensures r.results[j] == Emit(toRegex, b, EmitChildren(toRegex, b, k, children[..j], target, m).next, children[j], true).result
      {
        if j == 0 {
          assert children[..0] == [];
        } else {
          var pre := children[..j];
          assert pre[0] == children[0];
          assert pre[1..] == children[1..][..j - 1];
          assert children[1..][j - 1] == children[j];
          assert EmitChildren(toRegex, b, k, pre, target, m).next == EmitChildren(toRegex, b, c.next, children[1..][..j - 1], target, m).next;
          assert r.results[j] == rest.results[j - 1];
        }
      }
    }
  }
}
