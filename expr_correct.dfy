/**
 * The code `add_expression` emits computes what the expression means.
 *
 * A source store is read off the machine through the name table: a name
 * whose handle holds a word has that word (View). When no two names share a
 * handle and nothing is stored at the null handle, running the emitted code
 * and reading the result operand fails exactly when the expression has no
 * defined value, and otherwise yields the expression's value and leaves the
 * memory showing the store the expression leaves behind.
 */
module ExprCorrectness {
  import opened Wrappers
  import opened Words
  import opened Ast
  import opened Ir
  import opened Semantics
  import opened Lowering

  /** The store a B program sees through the name table and memory. */
  function View(named: Names, mem: map<Handle, Word>): Store {
    map x | x in named && named[x] in mem :: mem[named[x]]
  }

  /** No two names share a non-null handle. */
  ghost predicate Distinct(named: Names) {
    forall x, y :: x in named && y in named && x != y && named[x] != NullHandle ==> named[x] != named[y]
  }

  /** named' keeps every binding of named and binds each name it adds to the null handle. */
  ghost predicate NullExtends(named: Names, named': Names) {
    && (forall x :: x in named ==> x in named' && named'[x] == named[x])
    && (forall x :: x in named' && x !in named ==> named'[x] == NullHandle)
  }

  /** Names bound to null are invisible when nothing is stored at null. */
  lemma {:induction false} ViewNullExtends(named: Names, named': Names, mem: map<Handle, Word>)
    requires NullExtends(named, named') && NullHandle !in mem
    ensures View(named', mem) == View(named, mem)
  {
  }

  /** Storing through a name's handle changes that name's value and no other. */
  lemma {:induction false} ViewStore(named: Names, mem: map<Handle, Word>, x: string, w: Word)
    requires Distinct(named) && x in named && named[x] != NullHandle
    ensures View(named, mem[named[x] := w]) == View(named, mem)[x := w]
  {
  }

  // ---------------------------------------------------------------------
  // Machine arithmetic against signed arithmetic

  /** A word's signed value differs from it by zero or one modulus. */
  lemma {:induction false} SignedOffset(w: Word)
    ensures Signed(w) == w || Signed(w) == w - Modulus
  {
  }

  /** A multiple of q by a positive factor d is q plus d - 1 further copies of q. */
  lemma {:induction false} MulGrows(q: nat, d: nat)
    requires d >= 1
    ensures q * d >= q + (d - 1) * q
    decreases d
  {
    if d > 1 {
      MulGrows(q, d - 1);
      assert q * d == q * (d - 1) + q;
    }
  }

  /** Division shrinks a natural number, strictly when the divisor exceeds one. */
  lemma {:induction false} DivShrinks(p: nat, d: nat)
    requires d >= 1
    ensures p / d <= p
    ensures d >= 2 && p > 0 ==> p / d < p
  {
    var q := p / d;
    assert q * d + p % d == p;
    MulGrows(q, d);
    if d >= 2 {
      assert (d - 1) * q >= q by {
        MulGrows(q, d - 1);
        assert (d - 1) * q == q * (d - 1);
      }
    }
  }

  /**
   * The signed quotient of two in-range values leaves the signed range
   * exactly when the minimum is divided by minus one.
   */
  lemma {:induction false} TruncDivOverflow(x: int, y: int)
    requires MinSigned <= x < -MinSigned && MinSigned <= y < -MinSigned && y != 0
    ensures TruncDiv(x, y) >= -MinSigned <==> x == MinSigned && y == -1
  {
    DivShrinks(Abs(x), Abs(y));
  }

  /** Each binary operator agrees with the LLVM instruction `add_expression` emits for it. */
  lemma {:induction false} ApplyAgrees(op: BinaryOp, a: Word, b: Word)
    ensures op == OpAdd ==> Apply(op, a, b) == ArithResult(AddOp, a, b)
    ensures op == OpSubtract ==> Apply(op, a, b) == ArithResult(SubOp, a, b)
    ensures op == OpMultiply ==> Apply(op, a, b) == ArithResult(MulOp, a, b)
    ensures op == OpDivide ==> Apply(op, a, b) == ArithResult(SDivOp, a, b)
    ensures op == OpGtEq ==> Apply(op, a, b) == Some(FromBool(PredHolds(SgePred, a, b)))
    ensures op == OpLtEq ==> Apply(op, a, b) == Some(FromBool(PredHolds(SlePred, a, b)))
    ensures op == OpGreater ==> Apply(op, a, b) == Some(FromBool(PredHolds(SgtPred, a, b)))
    ensures op == OpLess ==> Apply(op, a, b) == Some(FromBool(PredHolds(SltPred, a, b)))
    ensures op == OpEquals ==> Apply(op, a, b) == Some(FromBool(PredHolds(EqPred, a, b)))
    ensures op == OpNEquals ==> Apply(op, a, b) == Some(FromBool(PredHolds(NePred, a, b)))
  {
    var x, y := Signed(a), Signed(b);
    SignedOffset(a);
    SignedOffset(b);
    var i := if x == a then 0 else 1;
    var j := if y == b then 0 else 1;
    assert x == a - i * Modulus && y == b - j * Modulus;
    match op
    case OpAdd =>
      WrapShift(a + b, -(i + j));
    case OpSubtract =>
      WrapShift(a - b, j - i);
    case OpMultiply =>
      MulAgrees(a, b, i, j);
    case OpDivide =>
      if y != 0 {
        TruncDivOverflow(x, y);
      }
    case OpEquals =>
      SignedInjective(a, b);
    case OpNEquals =>
      SignedInjective(a, b);
    case _ =>
  }

  /** Multiplying the signed readings wraps to the product of the unsigned words. */
  lemma {:induction false} MulAgrees(a: Word, b: Word, i: int, j: int)
    requires i in {0, 1} && j in {0, 1}
    requires Signed(a) == a - i * Modulus && Signed(b) == b - j * Modulus
    ensures Apply(OpMultiply, a, b) == ArithResult(MulOp, a, b)
  {
    var x, y := Signed(a), Signed(b);
    var k := -(a * j + b * i - i * j * Modulus);
    assert x * y == a * b + k * Modulus by {
      if i == 0 && j == 1 {
        assert x * y == a * (b - Modulus);
      } else if i == 1 && j == 0 {
        assert x * y == (a - Modulus) * b;
      } else if i == 1 && j == 1 {
        assert x * y == (a - Modulus) * (b - Modulus);
      }
    }
    WrapShift(a * b, k);
  }

  /** One arithmetic instruction fails exactly when an operand or the result is undefined. */
  lemma {:induction false} ArithRun(aop: ArithOp, l: Operand, r: Operand, id: nat, m: Machine)
    ensures var x, y := OperandValue(l, m.regs), OperandValue(r, m.regs);
            var run := Run([Arith(id, aop, l, r)], Reg(id), m);
            && (run.None? <==> x.None? || y.None? || ArithResult(aop, x.value, y.value).None?)
            && (run.Some? ==> run.value.0 == ArithResult(aop, x.value, y.value).value && run.value.1.mem == m.mem)
  {
    var code := [Arith(id, aop, l, r)];
    var m1 := Step(code[0], m);
    if m1.Some? {
      assert Exec(code, m) == Exec([], m1.value);
    }
  }

  /**
   * A comparison and its widening to i64 fail exactly when an operand has
   * no value, and otherwise yield 1 when the predicate holds and 0 when not.
   */
  lemma {:induction false} CompareRun(p: Pred, l: Operand, r: Operand, id: nat, m: Machine)
    ensures var x, y := OperandValue(l, m.regs), OperandValue(r, m.regs);
            var c := Compare(p, l, r, id);
            var run := Run(c.0, c.1, m);
            && (run.None? <==> x.None? || y.None?)
            && (run.Some? ==> run.value.0 == FromBool(PredHolds(p, x.value, y.value)) && run.value.1.mem == m.mem)
  {
    var c := Compare(p, l, r, id);
    var m1 := Step(c.0[0], m);
    if m1.Some? {
      assert Exec(c.0, m) == Exec(c.0[1..], m1.value);
      var m2 := Step(c.0[1], m1.value);
      assert m2.Some?;
      assert Exec(c.0[1..], m1.value) == Exec([], m2.value);
    }
  }

  /**
   * The instructions that combine two operands fail exactly when an
   * operand has no value or the operator is undefined on the values, and
   * otherwise yield the operator's result without touching memory.
   */
  lemma {:induction false} CombineRun(op: BinaryOp, l: Operand, r: Operand, id: nat, m: Machine)
    ensures var c := Combine(op, l, r, id);
            var x, y := OperandValue(l, m.regs), OperandValue(r, m.regs);
            var run := Run(c.0, c.1, m);
            && (run.None? <==> x.None? || y.None? || Apply(op, x.value, y.value).None?)
            && (run.Some? ==> run.value.0 == Apply(op, x.value, y.value).value && run.value.1.mem == m.mem)
  {
    var x, y := OperandValue(l, m.regs), OperandValue(r, m.regs);
    if x.Some? && y.Some? {
      ApplyAgrees(op, x.value, y.value);
    }
    match op
    case OpAdd => ArithRun(AddOp, l, r, id, m);
    case OpSubtract => ArithRun(SubOp, l, r, id, m);
    case OpMultiply => ArithRun(MulOp, l, r, id, m);
    case OpDivide => ArithRun(SDivOp, l, r, id, m);
    case OpGtEq => CompareRun(SgePred, l, r, id, m);
    case OpLtEq => CompareRun(SlePred, l, r, id, m);
    case OpGreater => CompareRun(SgtPred, l, r, id, m);
    case OpLess => CompareRun(SltPred, l, r, id, m);
    case OpEquals => CompareRun(EqPred, l, r, id, m);
    case OpNEquals => CompareRun(NePred, l, r, id, m);
  }

  // ---------------------------------------------------------------------
  // What the emitted code touches

  /**
   * Lowering an expression uses fresh registers only, from nextId up to the
   * returned nextId; its result is a register among them, a constant or
   * null, never undef; and it only adds null bindings to the name table.
   */
  lemma {:induction false} LowerExprFacts(named: Names, nextId: nat, e: Link, ord: Order)
    requires LowerExpr(named, nextId, e, ord).ExprOk?
    ensures var r := LowerExpr(named, nextId, e, ord);
            && nextId <= r.nextId
            && WritesWithin(r.code, nextId, r.nextId)
            && (r.val.Reg? ==> nextId <= r.val.id < r.nextId)
            && !r.val.UndefValue?
            && NullExtends(named, r.named)
    decreases e, 1
  {
    var n := e.value;
    if IsBinary(n) {
      BinaryFacts(named, nextId, n, ord);
    } else if n.Not? {
      var a := LowerExpr(named, nextId, n.inner, ord);
      LowerExprFacts(named, nextId, n.inner, ord);
      var c := Compare(EqPred, a.val, Imm(0), a.nextId);
      assert WritesWithin(c.0, a.nextId, c.2);
      WritesWithinAppend(a.code, c.0, nextId, a.nextId, c.2);
    } else if n.Inc? || n.Dec? {
      var r := LowerExpr(named, nextId, e, ord);
      assert WritesWithin(r.code, nextId, r.nextId) by {
        forall k, q | 0 <= k < |r.code| && q in Writes(r.code[k]) ensures nextId <= q < r.nextId {
          assert k == 0 || k == 1 || k == 2 || k == 3;
        }
      }
    }
  }

  lemma {:induction false} BinaryFacts(named: Names, nextId: nat, n: Node, ord: Order)
    requires IsBinary(n) && LowerExpr(named, nextId, Some(n), ord).ExprOk?
    ensures var r := LowerExpr(named, nextId, Some(n), ord);
            && nextId <= r.nextId
            && WritesWithin(r.code, nextId, r.nextId)
            && (r.val.Reg? ==> nextId <= r.val.id < r.nextId)
            && !r.val.UndefValue?
            && NullExtends(named, r.named)
    decreases n, 0
  {
    var op := OperatorOf(n);
    var first := if ord(op) then n.left else n.right;
    var second := if ord(op) then n.right else n.left;
    var a, b, c := BinaryUnfold(named, nextId, n, ord);
    LowerExprFacts(named, nextId, first, ord);
    LowerExprFacts(a.named, a.nextId, second, ord);
    if ord(op) {
      CombineFacts(op, a.val, b.val, b.nextId);
    } else {
      CombineFacts(op, b.val, a.val, b.nextId);
    }
    WritesWithinAppend(a.code, b.code, nextId, a.nextId, b.nextId);
    WritesWithinAppend(a.code + b.code, c.0, nextId, b.nextId, c.2);
  }

  /** The code for a binary expression: both operands' code, then the combining instructions. */
  lemma {:induction false} BinaryUnfold(named: Names, nextId: nat, n: Node, ord: Order)
    returns (a: ExprOut, b: ExprOut, c: (seq<Inst>, Operand, nat))
    requires IsBinary(n) && LowerExpr(named, nextId, Some(n), ord).ExprOk?
    ensures a == LowerExpr(named, nextId, if ord(OperatorOf(n)) then n.left else n.right, ord) && a.ExprOk?
    ensures b == LowerExpr(a.named, a.nextId, if ord(OperatorOf(n)) then n.right else n.left, ord) && b.ExprOk?
    ensures c == if ord(OperatorOf(n)) then Combine(OperatorOf(n), a.val, b.val, b.nextId)
                 else Combine(OperatorOf(n), b.val, a.val, b.nextId)
    ensures LowerExpr(named, nextId, Some(n), ord) == ExprOk(b.named, c.2, a.code + b.code + c.0, c.1)
  {
    var op := OperatorOf(n);
    a := LowerExpr(named, nextId, if ord(op) then n.left else n.right, ord);
    b := LowerExpr(a.named, a.nextId, if ord(op) then n.right else n.left, ord);
    c := if ord(op) then Combine(op, a.val, b.val, b.nextId) else Combine(op, b.val, a.val, b.nextId);
  }

  /** What a binary expression means: its operands in order, then the operator. */
  lemma {:induction false} EvalBinaryUnfold(n: Node, s: Store, ord: Order)
    requires IsBinary(n)
    ensures var op := OperatorOf(n);
            var a := Eval(if ord(op) then n.left else n.right, s, ord);
            var b := if a.None? then None else Eval(if ord(op) then n.right else n.left, a.value.1, ord);
            var v := if b.None? then None else ApplyInOrder(op, ord(op), a.value.0, b.value.0);
            Eval(Some(n), s, ord) == if v.None? then None else Some((v.value, b.value.1))
  {
  }

  /** The combining instructions write one or two fresh registers and yield the last. */
  lemma {:induction false} CombineFacts(op: BinaryOp, l: Operand, r: Operand, id: nat)
    ensures var c := Combine(op, l, r, id);
            && WritesWithin(c.0, id, c.2)
            && c.1.Reg? && id <= c.1.id < c.2 <= id + 2
  {
    var c := Combine(op, l, r, id);
    assert WritesWithin(c.0, id, c.2) by {
      forall k, q | 0 <= k < |c.0| && q in Writes(c.0[k]) ensures id <= q < c.2 {
      }
    }
  }

  // ---------------------------------------------------------------------
  // The correctness of expression lowering

  /**
   * The code for e, run from m, agrees with what e means in the store m
   * shows: it fails exactly when e has no value, and otherwise yields e's
   * value and leaves memory showing the store e leaves.
   */
  ghost predicate Simulates(named: Names, nextId: nat, e: Link, ord: Order, m: Machine)
    requires LowerExpr(named, nextId, e, ord).ExprOk?
  {
    var r := LowerExpr(named, nextId, e, ord);
    var ev := Eval(e, View(named, m.mem), ord);
    var run := Run(r.code, r.val, m);
    && (run.None? <==> ev.None?)
    && (run.Some? ==> run.value.0 == ev.value.0 && View(r.named, run.value.1.mem) == ev.value.1)
  }

  /** Adding null bindings keeps handles distinct. */
  lemma {:induction false} DistinctNullExtends(named: Names, named': Names)
    requires Distinct(named) && NullExtends(named, named')
    ensures Distinct(named')
  {
  }

  /**
   * The correctness of `add_expression`: for every expression it lowers,
   * from every machine whose memory keeps the null handle empty and whose
   * name table binds no two names to one handle, the code simulates the
   * expression.
   */
  lemma {:induction false} LowerExprCorrect(named: Names, nextId: nat, e: Link, ord: Order, m: Machine)
    requires LowerExpr(named, nextId, e, ord).ExprOk?
    requires Distinct(named) && NullHandle !in m.mem
    ensures Simulates(named, nextId, e, ord, m)
    decreases e, 1
  {
    var n := e.value;
    if IsBinary(n) {
      BinaryCorrect(named, nextId, n, ord, m);
    } else if n.Not? {
      NotCorrect(named, nextId, n, ord, m);
    } else if n.Inc? || n.Dec? {
      StepCorrect(named, nextId, n, ord, m);
    } else if n.Variable? {
      VariableCorrect(named, nextId, n, ord, m);
    }
  }

  /** A name: the load reads the slot the name is bound to, or fails on the null handle. */
  lemma {:induction false} VariableCorrect(named: Names, nextId: nat, n: Node, ord: Order, m: Machine)
    requires n.Variable? && LowerExpr(named, nextId, Some(n), ord).ExprOk?
    requires Distinct(named) && NullHandle !in m.mem
    ensures Simulates(named, nextId, Some(n), ord, m)
  {
    var (named1, h) := Subscript(named, n.title, NullHandle);
    assert NullExtends(named, named1);
    ViewNullExtends(named, named1, m.mem);
    var code := [Load(nextId, h)];
    assert LowerExpr(named, nextId, Some(n), ord) == ExprOk(named1, nextId + 1, code, Reg(nextId));
    if h in m.mem {
      assert Exec(code, m) == Exec([], Step(code[0], m).value);
    }
  }

  lemma {:induction false} BinaryCorrect(named: Names, nextId: nat, n: Node, ord: Order, m: Machine)
    requires IsBinary(n) && LowerExpr(named, nextId, Some(n), ord).ExprOk?
    requires Distinct(named) && NullHandle !in m.mem
    ensures Simulates(named, nextId, Some(n), ord, m)
    decreases n, 1
  {
    var op := OperatorOf(n);
    var first := if ord(op) then n.left else n.right;
    var second := if ord(op) then n.right else n.left;
    var s := View(named, m.mem);
    var a, b, c := BinaryUnfold(named, nextId, n, ord);
    var r := LowerExpr(named, nextId, Some(n), ord);
    assert r.code == a.code + (b.code + c.0) && r.val == c.1 && r.named == b.named;
    var ea := Eval(first, s, ord);
    EvalBinaryUnfold(n, s, ord);
    var run := Run(r.code, r.val, m);
    LowerExprFacts(named, nextId, first, ord);
    LowerExprCorrect(named, nextId, first, ord, m);
    RunAppend(a.code, b.code + c.0, c.1, m);
    if Exec(a.code, m).None? {
      assert run.None? && ea.None?;
    } else {
      var m1 := Exec(a.code, m).value;
      assert run == Run(b.code + c.0, c.1, m1);
      ExecFrame(a.code, m, nextId, a.nextId);
      DistinctNullExtends(named, a.named);
      SecondOperandCorrect(a.named, a.nextId, a.val, second, op, ord(op), ord, m1);
      var va := OperandValue(a.val, m1.regs);
      assert ea.Some? <==> va.Some?;
      if va.Some? {
        assert ea == Some((va.value, View(a.named, m1.mem)));
      }
    }
  }

  /** An operator applied to the value lowered first (x) and second (y), in source order. */
  function ApplyInOrder(op: BinaryOp, leftFirst: bool, x: Word, y: Word): Option<Word> {
    if leftFirst then Apply(op, x, y) else Apply(op, y, x)
  }

  /**
   * The second half of a binary expression's code: once the first
   * operand's code has run, the second operand's code and the combining
   * instructions fail exactly when the first operand, the second, or the
   * operator has no value.
   */
  lemma {:induction false} SecondOperandCorrect(named: Names, nextId: nat, first: Operand, second: Link,
                                               op: BinaryOp, leftFirst: bool, ord: Order, m: Machine)
    requires LowerExpr(named, nextId, second, ord).ExprOk?
    requires Distinct(named) && NullHandle !in m.mem
    requires first.Reg? ==> first.id < nextId
    ensures var b := LowerExpr(named, nextId, second, ord);
            var c := if leftFirst then Combine(op, first, b.val, b.nextId) else Combine(op, b.val, first, b.nextId);
            var run := Run(b.code + c.0, c.1, m);
            var va := OperandValue(first, m.regs);
            var eb := Eval(second, View(named, m.mem), ord);
            && (run.None? <==> va.None? || eb.None? || ApplyInOrder(op, leftFirst, va.value, eb.value.0).None?)
            && (run.Some? ==> run.value.0 == ApplyInOrder(op, leftFirst, va.value, eb.value.0).value
                              && View(b.named, run.value.1.mem) == eb.value.1)
    decreases second, 2
  {
    var b := LowerExpr(named, nextId, second, ord);
    var c := if leftFirst then Combine(op, first, b.val, b.nextId) else Combine(op, b.val, first, b.nextId);
    LowerExprFacts(named, nextId, second, ord);
    LowerExprCorrect(named, nextId, second, ord, m);
    RunAppend(b.code, c.0, c.1, m);
    if Exec(b.code, m).Some? {
      var m2 := Exec(b.code, m).value;
      ExecFrame(b.code, m, nextId, b.nextId);
      assert OperandValue(first, m2.regs) == OperandValue(first, m.regs);
      if leftFirst {
        CombineRun(op, first, b.val, b.nextId, m2);
      } else {
        CombineRun(op, b.val, first, b.nextId, m2);
      }
    }
  }

  lemma {:induction false} NotCorrect(named: Names, nextId: nat, n: Node, ord: Order, m: Machine)
    requires n.Not? && LowerExpr(named, nextId, Some(n), ord).ExprOk?
    requires Distinct(named) && NullHandle !in m.mem
    ensures Simulates(named, nextId, Some(n), ord, m)
    decreases n, 0
  {
    var a := LowerExpr(named, nextId, n.inner, ord);
    var c := Compare(EqPred, a.val, Imm(0), a.nextId);
    var r := LowerExpr(named, nextId, Some(n), ord);
    assert r.code == a.code + c.0 && r.val == c.1 && r.named == a.named;
    LowerExprCorrect(named, nextId, n.inner, ord, m);
    RunAppend(a.code, c.0, c.1, m);
    if Exec(a.code, m).Some? {
      CompareRun(EqPred, a.val, Imm(0), a.nextId, Exec(a.code, m).value);
    }
  }

  /**
   * The code for `x++` or `x--`: load, step by one, store the stepped
   * value back, and undo the step on the result.
   */
  lemma {:induction false} StepCodeRun(h: Handle, step: ArithOp, undo: ArithOp, id: nat, m: Machine)
    requires step in {AddOp, SubOp} && undo in {AddOp, SubOp} && NullHandle !in m.mem
    ensures var code := [Load(id, h), Arith(id + 1, step, Reg(id), Imm(1)),
                         Store(Reg(id + 1), h), Arith(id + 2, undo, Reg(id + 1), Imm(1))];
            var run := Run(code, Reg(id + 2), m);
            && (run.None? <==> h !in m.mem)
            && (run.Some? ==>
                  var w := ArithResult(step, m.mem[h], 1).value;
                  run.value.0 == ArithResult(undo, w, 1).value && run.value.1.mem == m.mem[h := w])
  {
    var code := [Load(id, h), Arith(id + 1, step, Reg(id), Imm(1)),
                 Store(Reg(id + 1), h), Arith(id + 2, undo, Reg(id + 1), Imm(1))];
    if h in m.mem {
      var v := m.mem[h];
      var w := ArithResult(step, v, 1).value;
      var back := ArithResult(undo, w, 1).value;
      var m1 := Machine(m.regs[id := v], m.mem);
      var m2 := Machine(m1.regs[id + 1 := w], m.mem);
      var m3 := Machine(m2.regs, m.mem[h := w]);
      var m4 := Machine(m3.regs[id + 2 := back], m3.mem);
      assert Step(code[0], m) == Some(m1);
      assert Step(code[1], m1) == Some(m2);
      assert Step(code[2], m2) == Some(m3);
      assert Step(code[3], m3) == Some(m4);
      assert Exec(code[3..], m3) == Some(m4);
      assert Exec(code[2..], m2) == Some(m4);
      assert Exec(code[1..], m1) == Some(m4);
      assert Exec(code, m) == Some(m4);
    } else {
      assert Step(code[0], m).None?;
    }
  }

  /** The statement forms' code runs the first three steps of the expression forms': load, step, store. */
  lemma {:induction false} StepStoreRun(h: Handle, step: ArithOp, id: nat, m: Machine)
    requires step in {AddOp, SubOp} && NullHandle !in m.mem
    ensures var code := [Load(id, h), Arith(id + 1, step, Reg(id), Imm(1)), Store(Reg(id + 1), h)];
            var run := Exec(code, m);
            && (run.None? <==> h !in m.mem)
            && (run.Some? ==> run.value.mem == m.mem[h := ArithResult(step, m.mem[h], 1).value])
  {
    var code := [Load(id, h), Arith(id + 1, step, Reg(id), Imm(1)), Store(Reg(id + 1), h)];
    if h in m.mem {
      var v := m.mem[h];
      var w := ArithResult(step, v, 1).value;
      var m1 := Machine(m.regs[id := v], m.mem);
      var m2 := Machine(m1.regs[id + 1 := w], m.mem);
      var m3 := Machine(m2.regs, m.mem[h := w]);
      assert Step(code[0], m) == Some(m1);
      assert Step(code[1], m1) == Some(m2);
      assert Step(code[2], m2) == Some(m3);
      assert Exec(code[2..], m2) == Some(m3);
      assert Exec(code[1..], m1) == Some(m3);
      assert Exec(code, m) == Some(m3);
    } else {
      assert Step(code[0], m).None?;
    }
  }

  /** The code the statement forms `x++;` and `x--;` append: load, step by one, store, through handle h. */
  function StepCodeOf(id: nat, op: ArithOp, h: Handle): seq<Inst> {
    [Load(id, h), Arith(id + 1, op, Reg(id), Imm(1)), Store(Reg(id + 1), h)]
  }

  /**
   * Running the code that steps x through its handle in named, with the
   * name table named' after lowering: it fails exactly when x has no value,
   * and otherwise leaves the memory showing x one more (add) or one less
   * (subtract), with wrap-around, and every other name as it was.
   */
  ghost predicate StepStores(named: Names, named': Names, x: string, op: ArithOp, id: nat, m: Machine) {
    var run := Exec(StepCodeOf(id, op, Subscript(named, x, NullHandle).1), m);
    var s := View(named, m.mem);
    && (run.None? <==> x !in s)
    && (run.Some? ==>
          && x in s
          && View(named', run.value.mem) == s[x := if op == AddOp then Wrap(s[x] as int + 1) else Wrap(s[x] as int - 1)])
  }

  /**
   * `x++;` and `x--;` as statements (LowerStep, with the add or the
   * subtract): lowering appends the load, step and store through x's handle,
   * and running that code leaves the store StepStores describes, the one
   * the expressions `x++` and `x--` leave behind (IncYieldsOldValue,
   * DecYieldsOldValue).
   */
  lemma {:induction false} StepStatementStores(st: State, x: string, op: ArithOp, m: Machine)
    requires HasInsertPoint(st) && op in {AddOp, SubOp} && Distinct(st.named) && NullHandle !in m.mem
    ensures var r := LowerStep(st, x, op);
            var j := st.insertBlock;
            && Blocks(r.st)[j].insts == Blocks(st)[j].insts + StepCodeOf(st.nextId, op, Subscript(st.named, x, NullHandle).1)
            && StepStores(st.named, r.st.named, x, op, st.nextId, m)
  {
    StepCode(st, x, op);
    StepStoreMeaning(st.named, x, op, st.nextId, m);
  }

  /** The code and name table the statement forms leave: the second lookup of x finds what the first left. */
  lemma {:induction false} StepCode(st: State, x: string, op: ArithOp)
    requires HasInsertPoint(st)
    ensures var r := LowerStep(st, x, op);
            var j := st.insertBlock;
            && r.st.named == Subscript(st.named, x, NullHandle).0
            && Blocks(r.st)[j].insts == Blocks(st)[j].insts + StepCodeOf(st.nextId, op, Subscript(st.named, x, NullHandle).1)
  {
    var (named1, h) := Subscript(st.named, x, NullHandle);
    assert Subscript(named1, x, NullHandle) == (named1, h);
  }

  /** The store the statement forms' code leaves, read through the name table. */
  lemma {:induction false} StepStoreMeaning(named: Names, x: string, op: ArithOp, id: nat, m: Machine)
    requires op in {AddOp, SubOp} && Distinct(named) && NullHandle !in m.mem
    ensures StepStores(named, Subscript(named, x, NullHandle).0, x, op, id, m)
  {
    var (named1, h) := Subscript(named, x, NullHandle);
    assert NullExtends(named, named1);
    ViewNullExtends(named, named1, m.mem);
    StepStoreRun(h, op, id, m);
    assert StepCodeOf(id, op, h) == [Load(id, h), Arith(id + 1, op, Reg(id), Imm(1)), Store(Reg(id + 1), h)];
    if h in m.mem {
      var w := ArithResult(op, m.mem[h], 1).value;
      assert w == if op == AddOp then Wrap(m.mem[h] as int + 1) else Wrap(m.mem[h] as int - 1);
      DistinctNullExtends(named, named1);
      ViewStore(named1, m.mem, x, w);
    }
  }

  /** Stepping a word by one and back gives the word again. */
  lemma {:induction false} StepBack(v: Word)
    ensures Wrap(Wrap(v + 1) - 1) == v
    ensures Wrap(Wrap(v - 1) + 1) == v
  {
    if v + 1 == Modulus {
      assert Wrap(v + 1) == 0;
    }
    if v == 0 {
      assert Wrap(v - 1) == Modulus - 1;
    }
  }

  /** The code for `x++` and `x--`: load, step, store, and step back for the expression's value. */
  lemma {:induction false} StepUnfold(named: Names, nextId: nat, n: Node, ord: Order)
    requires n.Inc? || n.Dec?
    ensures var (named1, h) := Subscript(named, n.name, NullHandle);
            var step, undo := if n.Inc? then AddOp else SubOp, if n.Inc? then SubOp else AddOp;
            LowerExpr(named, nextId, Some(n), ord)
            == ExprOk(named1, nextId + 3,
                      [Load(nextId, h), Arith(nextId + 1, step, Reg(nextId), Imm(1)),
                       Store(Reg(nextId + 1), h), Arith(nextId + 2, undo, Reg(nextId + 1), Imm(1))],
                      Reg(nextId + 2))
  {
  }

  /** What `x++` and `x--` mean: the old value, with the stepped one stored. */
  lemma {:induction false} EvalStepUnfold(n: Node, s: Store, ord: Order)
    requires n.Inc? || n.Dec?
    ensures var x := n.name;
            Eval(Some(n), s, ord)
            == if x !in s then None
               else Some((s[x], s[x := if n.Inc? then Wrap(s[x] as int + 1) else Wrap(s[x] as int - 1)]))
  {
  }

  /** Increment and decrement expressions yield the old value and write back the stepped one. */
  lemma {:induction false} StepCorrect(named: Names, nextId: nat, n: Node, ord: Order, m: Machine)
    requires (n.Inc? || n.Dec?) && Distinct(named) && NullHandle !in m.mem
    ensures LowerExpr(named, nextId, Some(n), ord).ExprOk?
    ensures Simulates(named, nextId, Some(n), ord, m)
  {
    var x := n.name;
    var (named1, h) := Subscript(named, x, NullHandle);
    assert NullExtends(named, named1);
    ViewNullExtends(named, named1, m.mem);
    var r := LowerExpr(named, nextId, Some(n), ord);
    var step, undo := if n.Inc? then AddOp else SubOp, if n.Inc? then SubOp else AddOp;
    StepUnfold(named, nextId, n, ord);
    EvalStepUnfold(n, View(named, m.mem), ord);
    StepCodeRun(h, step, undo, nextId, m);
    if h in m.mem {
      StepBack(m.mem[h]);
      var w := if n.Inc? then Wrap(m.mem[h] as int + 1) else Wrap(m.mem[h] as int - 1);
      ViewStore(named, m.mem, x, w);
    }
  }

  // ---------------------------------------------------------------------
  // Consequences for single operators

  /** `x++` as an expression yields the value before the increment and stores one more. */
  lemma {:induction false} IncYieldsOldValue(named: Names, nextId: nat, x: string, succ: Link, ord: Order, m: Machine)
    requires Distinct(named) && NullHandle !in m.mem && x in named && named[x] in m.mem
    ensures var r := LowerExpr(named, nextId, Some(Inc(x, succ)), ord);
            var run := Run(r.code, r.val, m);
            && run.Some?
            && run.value.0 == m.mem[named[x]]
            && View(r.named, run.value.1.mem) == View(named, m.mem)[x := Wrap(m.mem[named[x]] as int + 1)]
  {
    StepUnfold(named, nextId, Inc(x, succ), ord);
    StepCorrect(named, nextId, Inc(x, succ), ord, m);
  }

  /** `x--` as an expression yields the value before the decrement and stores one less. */
  lemma {:induction false} DecYieldsOldValue(named: Names, nextId: nat, x: string, succ: Link, ord: Order, m: Machine)
    requires Distinct(named) && NullHandle !in m.mem && x in named && named[x] in m.mem
    ensures var r := LowerExpr(named, nextId, Some(Dec(x, succ)), ord);
            var run := Run(r.code, r.val, m);
            && run.Some?
            && run.value.0 == m.mem[named[x]]
            && View(r.named, run.value.1.mem) == View(named, m.mem)[x := Wrap(m.mem[named[x]] as int - 1)]
  {
    StepUnfold(named, nextId, Dec(x, succ), ord);
    StepCorrect(named, nextId, Dec(x, succ), ord, m);
  }

  /** `!e` yields 1 exactly when e yields 0, and otherwise 0. */
  lemma {:induction false} NotIsBoolean(named: Names, nextId: nat, inner: Link, succ: Link, ord: Order, m: Machine)
    requires LowerExpr(named, nextId, inner, ord).ExprOk?
    requires Distinct(named) && NullHandle !in m.mem
    ensures var r := LowerExpr(named, nextId, Some(Not(inner, succ)), ord);
            var a := LowerExpr(named, nextId, inner, ord);
            var run := Run(r.code, r.val, m);
            var inRun := Run(a.code, a.val, m);
            && (run.Some? <==> inRun.Some?)
            && (run.Some? ==> (run.value.0 == 1 <==> inRun.value.0 == 0) && (run.value.0 == 0 || run.value.0 == 1))
  {
    var n := Not(inner, succ);
    NotCorrect(named, nextId, n, ord, m);
    LowerExprCorrect(named, nextId, inner, ord, m);
  }

  /** A comparison of two expressions yields only 0 or 1. */
  lemma {:induction false} ComparisonIsBoolean(op: BinaryOp, l: Link, r: Link, succ: Link, named: Names, nextId: nat, ord: Order, m: Machine)
    requires op in {OpGtEq, OpLtEq, OpGreater, OpLess, OpEquals, OpNEquals}
    requires LowerExpr(named, nextId, Some(BinaryNode(op, l, r, succ)), ord).ExprOk?
    requires Distinct(named) && NullHandle !in m.mem
    ensures var out := LowerExpr(named, nextId, Some(BinaryNode(op, l, r, succ)), ord);
            var run := Run(out.code, out.val, m);
            run.Some? ==> run.value.0 == 0 || run.value.0 == 1
  {
    LowerExprCorrect(named, nextId, Some(BinaryNode(op, l, r, succ)), ord, m);
  }

  /**
   * Division of constants truncates toward zero: `-7 / 2` is -3, not the
   * -4 a flooring division would give.
   */
  lemma {:induction false} DivisionTruncates(succ: Link, named: Names, nextId: nat, ord: Order, m: Machine)
    requires Distinct(named) && NullHandle !in m.mem
    ensures var e := Some(Divide(Some(Number(-7, None)), Some(Number(2, None)), succ));
            var out := LowerExpr(named, nextId, e, ord);
            out.ExprOk? && Run(out.code, out.val, m).Some? && Signed(Run(out.code, out.val, m).value.0) == -3
  {
    var e := Some(Divide(Some(Number(-7, None)), Some(Number(2, None)), succ));
    ConstantQuotient(succ, View(named, m.mem), ord);
    ConstantQuotientLowers(succ, named, nextId, ord);
    LowerExprCorrect(named, nextId, e, ord, m);
    SignedWrap(-3);
  }

  /** `-7 / 2` lowers without reading through a null node. */
  lemma {:induction false} ConstantQuotientLowers(succ: Link, named: Names, nextId: nat, ord: Order)
    ensures LowerExpr(named, nextId, Some(Divide(Some(Number(-7, None)), Some(Number(2, None)), succ)), ord).ExprOk?
  {
  }

  /** The reference semantics of `-7 / 2`: the word of -3, the store unchanged. */
  lemma {:induction false} ConstantQuotient(succ: Link, s: Store, ord: Order)
    ensures Eval(Some(Divide(Some(Number(-7, None)), Some(Number(2, None)), succ)), s, ord) == Some((Wrap(-3), s))
  {
    assert Apply(OpDivide, Wrap(-7), Wrap(2)) == Some(Wrap(-3)) by {
      SignedWrap(-7);
      SignedWrap(2);
      assert TruncDiv(-7, 2) == -3;
    }
    EvalBinaryUnfold(Divide(Some(Number(-7, None)), Some(Number(2, None)), succ), s, ord);
  }
}
