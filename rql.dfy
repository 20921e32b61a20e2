/**
 * The RQL abstract syntax tree that the parser hands to the visitor: query
 * nodes, their values, and the root query with its sort and limit clauses.
 * Nodes are immutable values; the visitor only reads them.
 */
module Rql {

  import opened Wrappers

  /** Scalar values carried by query nodes, and the regex built for a glob. */
  datatype Value =
    | Str(s: string)
    | Num(n: int)
    | Bool(b: bool)
    | Null
    | Glob(pattern: string)   // a wildcard pattern, as produced for like()
    | Regex(source: string)   // a MongoDB regular expression

  /** The concrete classes under AbstractScalarOperatorNode; LikeNode is one of them. */
  datatype ScalarOp = Eq | Ne | Lt | Gt | Le | Ge | Like

  /** The concrete classes under AbstractArrayOperatorNode: InNode and OutNode. */
  datatype ArrayOp = In | Out

  /** The concrete classes under AbstractLogicOperatorNode. */
  datatype LogicOp = And | Or | Not

  datatype Node =
    | Scalar(scalarOp: ScalarOp, field: string, value: Value)
    | Array(arrayOp: ArrayOp, field: string, values: seq<Value>)
    | ElemMatch(field: string, sub: Node)
    | Logic(logicOp: LogicOp, children: seq<Node>)
    | Custom(kind: string)    // a query node of a class that no table and no base class covers
    | Absent                  // no node at all (a query without a filter)

  /** Every node except the missing one is an AbstractQueryNode. */
  predicate IsQueryNode(n: Node)
  {
    !n.Absent?
  }

  datatype SortField = SortField(name: string, order: int)

  datatype Limit = Limit(count: int, offset: int)

  /** The parser's root object: filter, optional sort node, optional limit node. */
  datatype Query = Query(query: Node, sort: Option<seq<SortField>>, limit: Option<Limit>)

  /**
   * True when no `not()` node with children occurs in `n`: the visitor has no
   * builder method for `not()` and fails as soon as it would combine a child.
   */
  predicate Supported(n: Node)
  {
    match n
    case ElemMatch(_, sub) => Supported(sub)
    case Logic(op, children) =>
      (op == Not ==> children == []) &&
      forall i :: 0 <= i < |children| ==> Supported(children[i])
    case _ => true
  }

  /** True when every path from `n` down to a leaf visits at most `depth` nodes. */
  predicate WithinDepth(n: Node, depth: nat)
  {
    depth > 0 &&
    match n
    case ElemMatch(_, sub) => WithinDepth(sub, depth - 1)
    case Logic(_, children) => forall i :: 0 <= i < |children| ==> WithinDepth(children[i], depth - 1)
    case _ => true
  }
}
