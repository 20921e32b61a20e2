/**
 * The Doctrine MongoDB query builder as the visitor sees it from outside:
 * opaque handles and the calls made on them, recorded in order. Handle 0 is
 * the builder the visitor was given; every `expr()` yields a new handle.
 * Calls are fluent: a call returns the handle it was made on.
 */
module Builder {

  import opened Rql

  type Handle = nat

  /** The live builder, the one that becomes the executable query. */
  const Live: Handle := 0

  datatype ScalarMethod = Equals | NotEqual | Lt | Gt | Lte | Gte

  datatype ArrayMethod = In | NotIn

  datatype LogicMethod = AddAnd | AddOr

  datatype Call =
    | ExprCall(on: Handle, created: Handle)          // on.expr() returned `created`
    | FieldCall(on: Handle, name: string)            // on.field(name)
    | ScalarCall(on: Handle, scalarMethod: ScalarMethod, value: Value)
    | ArrayCall(on: Handle, arrayMethod: ArrayMethod, values: seq<Value>)
    | ElemMatchCall(on: Handle, sub: Handle)
    | LogicCall(on: Handle, logicMethod: LogicMethod, sub: Handle)
    | SortCall(on: Handle, name: string, order: int)
    | LimitCall(on: Handle, count: int)
    | SkipCall(on: Handle, offset: int)
  {
    /** Every call but `expr()` changes the builder or expression it is made on. */
    predicate Mutates()
    {
      !ExprCall?
    }
  }

  /** The calls of `calls` that change handle `h`, in order. */
  function CallsOn(calls: seq<Call>, h: Handle): (r: seq<Call>)
    ensures forall i :: 0 <= i < |r| ==> r[i].Mutates() && r[i].on == h
    ensures |r| <= |calls|
  {
    if calls == [] then []
    else (if calls[0].Mutates() && calls[0].on == h then [calls[0]] else []) + CallsOn(calls[1..], h)
  }

  lemma {:induction false} CallsOnAppend(a: seq<Call>, b: seq<Call>, h: Handle)
    ensures CallsOn(a + b, h) == CallsOn(a, h) + CallsOn(b, h)
  {
    if a == [] {
      assert a + b == b;
    } else {
      assert (a + b)[1..] == a[1..] + b;
      CallsOnAppend(a[1..], b, h);
    }
  }

  lemma {:induction false} CallsOnUntouched(calls: seq<Call>, h: Handle)
    requires forall i :: 0 <= i < |calls| && calls[i].Mutates() ==> calls[i].on != h
    ensures CallsOn(calls, h) == []
  {
    if calls != [] {
      CallsOnUntouched(calls[1..], h);
    }
  }

  /** The handles created by the `expr()` calls of `calls`, in order. */
  function Created(calls: seq<Call>): seq<Handle>
  {
    if calls == [] then []
    else (if calls[0].ExprCall? then [calls[0].created] else []) + Created(calls[1..])
  }

  lemma {:induction false} CreatedAppend(a: seq<Call>, b: seq<Call>)
    ensures Created(a + b) == Created(a) + Created(b)
  {
    if a == [] {
      assert a + b == b;
    } else {
      assert (a + b)[1..] == a[1..] + b;
      CreatedAppend(a[1..], b);
    }
  }

  /** The handles lo, lo + 1, ..., hi - 1. */
  function Range(lo: Handle, hi: Handle): (r: seq<Handle>)
    requires lo <= hi
    ensures |r| == hi - lo && forall i :: 0 <= i < |r| ==> r[i] == lo + i
    decreases hi - lo
  {
    if lo == hi then [] else [lo] + Range(lo + 1, hi)
  }
}
