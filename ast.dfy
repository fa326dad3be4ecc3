/**
 * The B compiler's syntax tree (src/ast.h).
 *
 * The C `ASTNode` is a tag, a union of payloads and a `successor` link.
 * Here each of the 30 tags is a constructor carrying the union member its
 * kind uses, and every constructor carries the `successor` field, which in C
 * lies outside the union. A C pointer that may be null is a `Link`.
 */
module Ast {
  import opened Wrappers

  /** The storage class of a variable introduction: exactly one of two. */
  datatype VariableType = VarAuto | VarExtrn

  /** The C `int` payload of a number node. */
  newtype Int32 = x: int | -0x8000_0000 <= x < 0x8000_0000

  /** A possibly-null `ASTNode*`. */
  type Link = Option<Node>

  datatype Node =
    // declarations and statements
    | GlobalDeclaration(title: string, next: Link, successor: Link)
    | Auto(next: Link, successor: Link)              // next: chain of Variable nodes
    | Extrn(next: Link, successor: Link)
    | Assignment(title: string, next: Link, successor: Link)   // next: the value
    | WhileLoop(inner: Link, next: Link, successor: Link)      // inner: condition, next: body
    | If(cond: Link, statements: Link, elseT: Link, successor: Link)
    | Label(name: string, successor: Link)
    | Return(next: Link, successor: Link)
    | Goto(name: string, successor: Link)
    | Function(title: string, args: Link, statements: Link, successor: Link)
    // expressions
    | Add(left: Link, right: Link, successor: Link)
    | Subtract(left: Link, right: Link, successor: Link)
    | Multiply(left: Link, right: Link, successor: Link)
    | Divide(left: Link, right: Link, successor: Link)
    | GtEq(left: Link, right: Link, successor: Link)
    | LtEq(left: Link, right: Link, successor: Link)
    | Greater(left: Link, right: Link, successor: Link)
    | Less(left: Link, right: Link, successor: Link)
    | Equals(left: Link, right: Link, successor: Link)
    | NEquals(left: Link, right: Link, successor: Link)
    | FunctionCall(title: string, next: Link, successor: Link)
    | Not(inner: Link, successor: Link)
    | Negative(inner: Link, successor: Link)
    | Inc(name: string, successor: Link)
    | Dec(name: string, successor: Link)
    | Number(integer: Int32, successor: Link)
    // `title` is the storage both `list.title` and `string` read
    | Variable(title: string, next: Link, variableType: VariableType, successor: Link)
    | Array(inner: Link, next: Link, successor: Link)
    | ArrayRef(title: string, next: Link, successor: Link)
    // the sentinel that ends a chain and marks a missing else
    | Stop(successor: Link)

  /** The ten operators a binary expression node can stand for. */
  datatype BinaryOp =
    | OpAdd | OpSubtract | OpMultiply | OpDivide
    | OpGtEq | OpLtEq | OpGreater | OpLess | OpEquals | OpNEquals

  predicate IsBinary(n: Node) {
    n.Add? || n.Subtract? || n.Multiply? || n.Divide? || n.GtEq? ||
    n.LtEq? || n.Greater? || n.Less? || n.Equals? || n.NEquals?
  }

  function OperatorOf(n: Node): BinaryOp
    requires IsBinary(n)
  {
    match n
    case Add(_, _, _) => OpAdd
    case Subtract(_, _, _) => OpSubtract
    case Multiply(_, _, _) => OpMultiply
    case Divide(_, _, _) => OpDivide
    case GtEq(_, _, _) => OpGtEq
    case LtEq(_, _, _) => OpLtEq
    case Greater(_, _, _) => OpGreater
    case Less(_, _, _) => OpLess
    case Equals(_, _, _) => OpEquals
    case NEquals(_, _, _) => OpNEquals
  }

  /** Builds the binary node for an operator; the inverse of OperatorOf. */
  function BinaryNode(op: BinaryOp, l: Link, r: Link, succ: Link): (n: Node)
    ensures IsBinary(n) && OperatorOf(n) == op
    ensures n.left == l && n.right == r && n.successor == succ
  {
    match op
    case OpAdd => Add(l, r, succ)
    case OpSubtract => Subtract(l, r, succ)
    case OpMultiply => Multiply(l, r, succ)
    case OpDivide => Divide(l, r, succ)
    case OpGtEq => GtEq(l, r, succ)
    case OpLtEq => LtEq(l, r, succ)
    case OpGreater => Greater(l, r, succ)
    case OpLess => Less(l, r, succ)
    case OpEquals => Equals(l, r, succ)
    case OpNEquals => NEquals(l, r, succ)
  }

  /**
   * Where a node's `list.next` lies, for the kinds whose union member is the
   * `list` struct; None for the others, whose storage holds no such field.
   */
  function ListNext(n: Node): Option<Link> {
    match n
    case GlobalDeclaration(_, next, _) => Some(next)
    case Auto(next, _) => Some(next)
    case Extrn(next, _) => Some(next)
    case Assignment(_, next, _) => Some(next)
    case WhileLoop(_, next, _) => Some(next)
    case Return(next, _) => Some(next)
    case FunctionCall(_, next, _) => Some(next)
    case Variable(_, next, _, _) => Some(next)
    case Array(_, next, _) => Some(next)
    case ArrayRef(_, next, _) => Some(next)
    case _ => None
  }

  /** The position of a node's tag in the C enumeration. */
  function Ordinal(n: Node): (k: nat)
    ensures k < 30
    ensures k == 29 <==> n.Stop?
  {
    match n
    case GlobalDeclaration(_, _, _) => 0
    case Auto(_, _) => 1
    case Extrn(_, _) => 2
    case Assignment(_, _, _) => 3
    case WhileLoop(_, _, _) => 4
    case If(_, _, _, _) => 5
    case Label(_, _) => 6
    case Return(_, _) => 7
    case Goto(_, _) => 8
    case Function(_, _, _, _) => 9
    case Add(_, _, _) => 10
    case Subtract(_, _, _) => 11
    case Multiply(_, _, _) => 12
    case Divide(_, _, _) => 13
    case GtEq(_, _, _) => 14
    case LtEq(_, _, _) => 15
    case Greater(_, _, _) => 16
    case Less(_, _, _) => 17
    case Equals(_, _, _) => 18
    case NEquals(_, _, _) => 19
    case FunctionCall(_, _, _) => 20
    case Not(_, _) => 21
    case Negative(_, _) => 22
    case Inc(_, _) => 23
    case Dec(_, _) => 24
    case Number(_, _) => 25
    case Variable(_, _, _, _) => 26
    case Array(_, _, _) => 27
    case ArrayRef(_, _, _) => 28
    case Stop(_) => 29
  }

  /** The identifiers of the C enumeration, in declaration order. */
  const KindSpellings: seq<string> := [
    "_GLOBAL_DECLARATION", "_AUTO", "_EXTRN", "_ASSIGNMENT", "_WHILE_LOOP",
    "_IF", "_LABEL", "_RETURN", "_GOTO", "_FUNCTION",
    "_ADD", "_SUBTRACT", "_MULTIPLY", "_DIVIDE", "_GTEQ", "_LTEQ",
    "_GREATER", "_LESS", "_EQUALS", "_NEQUALS", "_FUNCTION_CALL",
    "_NOT", "_NEGATIVE", "_INC", "_DEC",
    "_NUMBER", "_VARIABLE", "_ARRAY", "_ARRAY_REF",
    "STOP"]

  /** `ASTNodeTypeNames`: the name table, which has no entry for `_NEGATIVE`. */
  const ASTNodeTypeNames: seq<string> := [
    "_GLOBAL_DECLARATION", "_AUTO", "_EXTRN", "_ASSIGNMENT", "_WHILE_LOOP",
    "_IF", "_LABEL", "_RETURN", "_GOTO", "_FUNCTION",
    "_ADD", "_SUBTRACT", "_MULTIPLY", "_DIVIDE", "_GTEQ", "_LTEQ",
    "_GREATER", "_LESS", "_EQUALS", "_NEQUALS", "_FUNCTION_CALL",
    "_NOT",
    "_INC", "_DEC",
    "_NUMBER", "_VARIABLE", "_ARRAY", "_ARRAY_REF",
    "STOP"]

  /**
   * `ASTNodeTypeNames[node->type]`: the table entry indexed by the tag, or
   * None where the index lies past the end of the table.
   */
  function TypeName(n: Node): Option<string> {
    if Ordinal(n) < |ASTNodeTypeNames| then Some(ASTNodeTypeNames[Ordinal(n)]) else None
  }

  /**
   * The table is one entry short: it names the kinds before `_NEGATIVE`
   * correctly, names every kind from `_NEGATIVE` to `_ARRAY_REF` after the
   * kind that follows it, and has no entry at all for `STOP`.
   */
  lemma TypeNameTable(n: Node)
    ensures |KindSpellings| == 30 && |ASTNodeTypeNames| == 29
    ensures Ordinal(n) < 22 ==> TypeName(n) == Some(KindSpellings[Ordinal(n)])
    ensures 22 <= Ordinal(n) < 29 ==> TypeName(n) == Some(KindSpellings[Ordinal(n) + 1])
    ensures n.Negative? ==> TypeName(n) == Some("_INC")
    ensures TypeName(n) == None <==> n.Stop?
  {
    assert ASTNodeTypeNames[..22] == KindSpellings[..22];
    assert ASTNodeTypeNames[22..] == KindSpellings[23..];
  }
}
