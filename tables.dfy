/**
 * The visitor's lookup tables: node class to builder method (scalarMap,
 * arrayMap, queryMap) and node class to internal visit method (internalMap).
 * A class missing from a table yields PHP's null for its method name.
 */
module Tables {

  import opened Wrappers
  import opened Rql
  import opened Builder

  datatype InternalMethod = VisitLikeMethod | VisitElemMatchMethod

  /** scalarMap: six comparison classes; LikeNode has no entry. */
  function ScalarMap(op: ScalarOp): (m: Option<ScalarMethod>)
    ensures m.None? <==> op == Like
  {
    match op
    case Eq => Some(Equals)
    case Ne => Some(NotEqual)
    case Lt => Some(ScalarMethod.Lt)
    case Gt => Some(ScalarMethod.Gt)
    case Le => Some(Lte)
    case Ge => Some(Gte)
    case Like => None
  }

  /** arrayMap: InNode to in, OutNode to notIn. */
  function ArrayMap(op: ArrayOp): (m: ArrayMethod)
    ensures m == ArrayMethod.In <==> op == ArrayOp.In
    ensures m == NotIn <==> op == Out
  {
    match op
    case In => ArrayMethod.In
    case Out => NotIn
  }

  /** queryMap: AndNode to addAnd, OrNode to addOr; NotNode has no entry. */
  function QueryMap(op: LogicOp): (m: Option<LogicMethod>)
    ensures m.None? <==> op == Not
  {
    match op
    case And => Some(AddAnd)
    case Or => Some(AddOr)
    case Not => None
  }

  /** internalMap, looked up by exact class: LikeNode and ElemMatchNode. */
  function InternalMap(n: Node): (m: Option<InternalMethod>)
    ensures m == Some(VisitLikeMethod) <==> n.Scalar? && n.scalarOp == Like
    ensures m == Some(VisitElemMatchMethod) <==> n.ElemMatch?
  {
    match n
    case Scalar(Like, _, _) => Some(VisitLikeMethod)
    case ElemMatch(_, _) => Some(VisitElemMatchMethod)
    case _ => None
  }

  /** No two operators share a builder method, in any of the three tables. */
  lemma TablesAreInjective(a: ScalarOp, b: ScalarOp, x: ArrayOp, y: ArrayOp, l: LogicOp, r: LogicOp)
    ensures ScalarMap(a).Some? && ScalarMap(a) == ScalarMap(b) ==> a == b
    ensures ArrayMap(x) == ArrayMap(y) ==> x == y
    ensures QueryMap(l).Some? && QueryMap(l) == QueryMap(r) ==> l == r
  {
  }
}
