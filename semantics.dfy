/**
 * What a B expression means: its value as a signed 64-bit word that wraps
 * around, and its effect on the variables (increment and decrement write
 * back). This is the reference the lowering of expressions is proved against.
 */
module Semantics {
  import opened Wrappers
  import opened Words
  import opened Ast

  /** The value held by each variable in scope. */
  type Store = map<string, Word>

  /**
   * C++ leaves unspecified in which order the two operands of a binary
   * operator are lowered; `ord(op)` is true where the left one goes first.
   */
  type Order = BinaryOp -> bool

  /**
   * A binary operator applied to two words read as signed integers: the
   * arithmetic wraps modulo 2^64, division truncates toward zero and is
   * undefined (None) for a zero divisor or a quotient outside the signed
   * range, and a comparison gives 1 or 0.
   */
  function Apply(op: BinaryOp, a: Word, b: Word): Option<Word> {
    var x, y := Signed(a), Signed(b);
    match op
    case OpAdd => Some(Wrap(x + y))
    case OpSubtract => Some(Wrap(x - y))
    case OpMultiply => Some(Wrap(x * y))
    case OpDivide =>
      if y == 0 || TruncDiv(x, y) >= -MinSigned then None else Some(Wrap(TruncDiv(x, y)))
    case OpGtEq => Some(FromBool(x >= y))
    case OpLtEq => Some(FromBool(x <= y))
    case OpGreater => Some(FromBool(x > y))
    case OpLess => Some(FromBool(x < y))
    case OpEquals => Some(FromBool(x == y))
    case OpNEquals => Some(FromBool(x != y))
  }

  /**
   * The value of an expression and the store after it, or None where the
   * expression has no defined value: a null node, an unbound or unwritten
   * variable, an undefined division, or a kind that computes nothing
   * (function call, negation, arrays, statements).
   */
  function Eval(e: Link, s: Store, ord: Order): Option<(Word, Store)>
    decreases e
  {
    match e
    case None => None
    case Some(n) =>
      if IsBinary(n) then
        var op := OperatorOf(n);
        var first := if ord(op) then n.left else n.right;
        var second := if ord(op) then n.right else n.left;
        var a := Eval(first, s, ord);
        if a.None? then None
        else
          var b := Eval(second, a.value.1, ord);
          if b.None? then None
          else
            var v := if ord(op) then Apply(op, a.value.0, b.value.0) else Apply(op, b.value.0, a.value.0);
            if v.None? then None else Some((v.value, b.value.1))
      else
        match n
        case Not(inner, _) =>
          var a := Eval(inner, s, ord);
          if a.None? then None else Some((FromBool(a.value.0 == 0), a.value.1))
        case Inc(x, _) =>
          if x in s then Some((s[x], s[x := Wrap(s[x] as int + 1)])) else None
        case Dec(x, _) =>
          if x in s then Some((s[x], s[x := Wrap(s[x] as int - 1)])) else None
        case Number(i, _) => Some((Wrap(i as int), s))
        case Variable(x, _, _, _) => if x in s then Some((s[x], s)) else None
        case _ => None
  }
}
