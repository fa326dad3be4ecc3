/**
 * The lowering pass of src/llvm_ir.cpp as it runs: the global tables, the
 * return flag and the builder's insertion point are fields that
 * `add_expression`, `add_statement`, `add_function` and `generate_llvm_ir`
 * update step by step. Each method is proved to leave the state that the
 * corresponding function of Lowering computes, and to end the way it says.
 */
module LlvmIr {
  import opened Wrappers
  import opened Ast
  import opened Ir
  import opened Semantics
  import opened Lowering
  import opened Registry

  /** How a call ends: it returned, `fatal_error` exited with a message, or it dereferenced null. */
  datatype Status = Normal | Exited(msg: string) | Crashed

  function StatusOf(r: Outcome): Status {
    match r
    case Ok(_) => Normal
    case Fatal(m) => Exited(m)
    case Undefined => Crashed
  }

  /** How the work for one node ends: go on with the successor, stop the chain, or abort. */
  datatype StepStatus = Next | Last | StepExited(msg: string) | StepCrashed

  function StepStatusOf(r: NodeOutcome): StepStatus {
    match r
    case Continue(_) => Next
    case Finish(_) => Last
    case StepFatal(m) => StepExited(m)
    case StepUndefined => StepCrashed
  }

  /** A nested chain's status as the status of the node that holds it. */
  function Nested(s: Status, goesOn: bool): StepStatus {
    match s
    case Normal => if goesOn then Next else Last
    case Exited(m) => StepExited(m)
    case Crashed => StepCrashed
  }

  /** Instructions appended one after the other land in order; bindings made in between do not matter. */
  lemma {:induction false} EmitThen(s: State, a: seq<Inst>, named: Names, nextId: nat, b: seq<Inst>)
    requires HasInsertPoint(s)
    ensures Emit(Emit(s, a).(named := named, nextId := nextId), b) == Emit(s.(named := named, nextId := nextId), a + b)
  {
    var s1 := s.(named := named, nextId := nextId);
    var f, j := s.insertFn, s.insertBlock;
    var blk := Blocks(s)[j];
    var s2 := Emit(s1, a);
    assert Emit(s, a).(named := named, nextId := nextId) == s2;
    assert Blocks(s2) == Blocks(s)[j := blk.(insts := blk.insts + a)];
    assert blk.insts + a + b == blk.insts + (a + b);
    assert Blocks(Emit(s2, b)) == Blocks(s)[j := blk.(insts := blk.insts + (a + b))];
    assert Blocks(Emit(s1, a + b)) == Blocks(s)[j := blk.(insts := blk.insts + (a + b))];
  }

  /** The operand a binary node lowers first under `ord`, and the one it lowers second. */
  function FirstOperand(n: Node, ord: Order): Link
    requires IsBinary(n)
  {
    if ord(OperatorOf(n)) then n.left else n.right
  }

  function SecondOperand(n: Node, ord: Order): Link
    requires IsBinary(n)
  {
    if ord(OperatorOf(n)) then n.right else n.left
  }

  /** The operation of a binary node on its operands' values, the left one first. */
  function Operation(n: Node, ord: Order, first: Operand, second: Operand, id: nat): (seq<Inst>, Operand, nat)
    requires IsBinary(n)
  {
    var op := OperatorOf(n);
    if ord(op) then Combine(op, first, second, id) else Combine(op, second, first, id)
  }

  /** A binary expression at the insertion point: its first operand, then its second, then the operation. */
  lemma {:induction false} EmitBinary(st: State, n: Node, ord: Order, sa: State, va: Operand, sb: State, vb: Operand)
    requires HasInsertPoint(st) && IsBinary(n)
    requires EmitExpr(st, FirstOperand(n, ord), ord) == Some((sa, va))
    requires EmitExpr(sa, SecondOperand(n, ord), ord) == Some((sb, vb))
    ensures var c := Operation(n, ord, va, vb, sb.nextId);
            EmitExpr(st, Some(n), ord) == Some((Emit(sb.(nextId := c.2), c.0), c.1))
  {
    var ra := LowerExpr(st.named, st.nextId, FirstOperand(n, ord), ord);
    var rb := LowerExpr(ra.named, ra.nextId, SecondOperand(n, ord), ord);
    var c := Operation(n, ord, va, vb, sb.nextId);
    EmitThen(st.(named := ra.named, nextId := ra.nextId), ra.code, rb.named, rb.nextId, rb.code);
    EmitThen(st.(named := rb.named, nextId := rb.nextId), ra.code + rb.code, rb.named, c.2, c.0);
    assert sb.(nextId := c.2) == Emit(st.(named := rb.named, nextId := rb.nextId), ra.code + rb.code).(named := rb.named, nextId := c.2);
    assert LowerExpr(st.named, st.nextId, Some(n), ord) == ExprOk(rb.named, c.2, ra.code + rb.code + c.0, c.1);
  }

  /** A binary expression reads through a null node when either operand does. */
  lemma {:induction false} EmitBinaryUndefined(st: State, n: Node, ord: Order)
    requires HasInsertPoint(st) && IsBinary(n)
    requires var a := EmitExpr(st, FirstOperand(n, ord), ord);
             a.None? || EmitExpr(a.value.0, SecondOperand(n, ord), ord).None?
    ensures EmitExpr(st, Some(n), ord).None?
  {
    var ra := LowerExpr(st.named, st.nextId, FirstOperand(n, ord), ord);
    if ra.ExprOk? {
      var sa := Emit(st.(named := ra.named, nextId := ra.nextId), ra.code);
      assert sa.named == ra.named && sa.nextId == ra.nextId;
    }
  }

  lemma {:induction false} EmitNothing(s: State)
    requires HasInsertPoint(s)
    ensures Emit(s, []) == s
  {
    var blk := Blocks(s)[s.insertBlock];
    assert blk.insts + [] == blk.insts;
    assert Blocks(s)[s.insertBlock := blk] == Blocks(s);
  }

  class CodeGen {
    /** The module's functions (`TheModule`) and globals. */
    var funcs: seq<Func>
    var globals: seq<string>
    /** `Builder`'s insertion point: a function and one of its blocks. */
    var insertFn: nat
    var insertBlock: nat
    var namedValues: Names
    var extrnValues: Names
    var basicBlockValues: map<string, BlockRef>
    var functionDoesReturn: bool
    /** The identity the next new value or stack slot gets. */
    var nextId: nat
    /** The order in which the operands of a binary operator are lowered. */
    const ord: Order

    function Abs(): State
      reads this
    {
      State(funcs, globals, insertFn, insertBlock, namedValues, extrnValues, basicBlockValues, functionDoesReturn, nextId)
    }

    constructor (ord: Order)
      ensures Abs() == Initial && this.ord == ord
    {
      funcs, globals := [], [];
      insertFn, insertBlock := 0, 0;
      namedValues, extrnValues, basicBlockValues := map[], map[], map[];
      functionDoesReturn := false;
      nextId := 0;
      this.ord := ord;
    }

    // -------------------------------------------------------------------
    // Builder primitives

    /** `Builder->Create...` for instructions without a result. */
    method Append(insts: seq<Inst>)
      requires HasInsertPoint(Abs())
      modifies this
      ensures Abs() == Emit(old(Abs()), insts)
    {
      var b := funcs[insertFn].blocks[insertBlock];
      funcs := funcs[insertFn := funcs[insertFn].(blocks := funcs[insertFn].blocks[insertBlock := b.(insts := b.insts + insts)])];
    }

    /** An instruction with a result: it gets the next identity. */
    method AppendValue(inst: nat -> Inst) returns (v: Operand)
      requires HasInsertPoint(Abs())
      modifies this
      ensures v == Reg(old(nextId))
      ensures Abs() == Emit(old(Abs()).(nextId := old(nextId) + 1), [inst(old(nextId))])
    {
      var id := nextId;
      nextId := nextId + 1;
      Append([inst(id)]);
      v := Reg(id);
    }

    /** `NamedValues[x] = Builder->CreateAlloca(...)`: a new stack slot bound to x. */
    method AllocateSlot(x: string)
      requires HasInsertPoint(Abs())
      modifies this
      ensures Abs() == Allocate(old(Abs()), x)
    {
      var slot := nextId;
      Append([Alloca(slot, x)]);
      nextId := nextId + 1;
      namedValues := namedValues[x := Slot(slot)];
    }

    /** `BasicBlock::Create(ctx, name, function)`: a new empty block at the end of the current function. */
    method CreateBlock(name: string) returns (b: nat)
      requires insertFn < |funcs|
      modifies this
      ensures b == |Blocks(old(Abs()))|
      ensures Abs() == AddBlock(old(Abs()), name)
    {
      b := |funcs[insertFn].blocks|;
      funcs := funcs[insertFn := funcs[insertFn].(blocks := funcs[insertFn].blocks + [Block(name, [])])];
    }

    method SetInsertPoint(b: nat)
      requires insertFn < |funcs| && b < |funcs[insertFn].blocks|
      modifies this
      ensures Abs() == MoveTo(old(Abs()), b)
    {
      insertBlock := b;
    }

    /** `NamedValues[x]`. */
    method Lookup(x: string) returns (h: Handle)
      modifies this
      ensures (namedValues, h) == Subscript(old(namedValues), x, NullHandle)
      ensures Abs() == old(Abs()).(named := namedValues)
    {
      if x !in namedValues {
        namedValues := namedValues[x := NullHandle];
      }
      h := namedValues[x];
    }

    /** `BasicBlockValues[x]`. */
    method LookupBlock(x: string) returns (b: BlockRef)
      modifies this
      ensures (basicBlockValues, b) == Subscript(old(basicBlockValues), x, NullBlock)
      ensures Abs() == old(Abs()).(labels := basicBlockValues)
    {
      if x !in basicBlockValues {
        basicBlockValues := basicBlockValues[x := NullBlock];
      }
      b := basicBlockValues[x];
    }

    // -------------------------------------------------------------------
    // add_expression

    /**
     * `add_expression`: emits the expression's code at the insertion point
     * and returns the operand holding its value; None where it reads through
     * a null node.
     */
    method AddExpression(e: Link) returns (v: Option<Operand>)
      requires HasInsertPoint(Abs())
      modifies this
      ensures var r := EmitExpr(old(Abs()), e, ord);
              && (v.Some? <==> r.Some?)
              && (r.Some? ==> Abs() == r.value.0 && v.value == r.value.1)
      decreases e
    {
      if e.None? {
        return None;
      }
      var n := e.value;
      if IsBinary(n) {
        v := AddBinary(n);
      } else if n.Not? {
        v := AddNot(n);
      } else if n.Inc? {
        v := AddIncDec(n.name, AddOp, SubOp);
      } else if n.Dec? {
        v := AddIncDec(n.name, SubOp, AddOp);
      } else {
        v := AddLeaf(n);
      }
    }

    /** A number, a name read through its handle, and the kinds lowered to the null value. */
    method AddLeaf(n: Node) returns (v: Option<Operand>)
      requires HasInsertPoint(Abs()) && !IsBinary(n) && !n.Not? && !n.Inc? && !n.Dec?
      modifies this
      ensures var r := EmitExpr(old(Abs()), Some(n), ord);
              && (v.Some? <==> r.Some?)
              && (r.Some? ==> Abs() == r.value.0 && v.value == r.value.1)
    {
      match n
      case Number(i, _) =>
        EmitNothing(Abs());
        v := Some(Imm(Constant(i)));
      case Variable(x, _, _, _) =>
        var h := Lookup(x);
        var w := AppendValue((id: nat) => Load(id, h));
        v := Some(w);
      case _ =>
        EmitNothing(Abs());
        v := Some(NullValue);
    }

    /** The binary operators: both operands, in the order `ord` gives, then the operation. */
    method AddBinary(n: Node) returns (v: Option<Operand>)
      requires HasInsertPoint(Abs()) && IsBinary(n)
      modifies this
      ensures var r := EmitExpr(old(Abs()), Some(n), ord);
              && (v.Some? <==> r.Some?)
              && (r.Some? ==> Abs() == r.value.0 && v.value == r.value.1)
      decreases n
    {
      ghost var st := Abs();
      var a := AddExpression(FirstOperand(n, ord));
      if a.None? {
        EmitBinaryUndefined(st, n, ord);
        return None;
      }
      ghost var sa := Abs();
      var b := AddExpression(SecondOperand(n, ord));
      if b.None? {
        EmitBinaryUndefined(st, n, ord);
        return None;
      }
      EmitBinary(st, n, ord, sa, a.value, Abs(), b.value);
      var c := Operation(n, ord, a.value, b.value, nextId);
      nextId := c.2;
      Append(c.0);
      v := Some(c.1);
    }

    /** `!e`: the operand compared with zero, widened to i64. */
    method AddNot(n: Node) returns (v: Option<Operand>)
      requires HasInsertPoint(Abs()) && n.Not?
      modifies this
      ensures var r := EmitExpr(old(Abs()), Some(n), ord);
              && (v.Some? <==> r.Some?)
              && (r.Some? ==> Abs() == r.value.0 && v.value == r.value.1)
      decreases n
    {
      ghost var st := Abs();
      ghost var ra := LowerExpr(st.named, st.nextId, n.inner, ord);
      var a := AddExpression(n.inner);
      if a.None? {
        return None;
      }
      var c := Compare(EqPred, a.value, Imm(0), nextId);
      ghost var sa := Abs();
      nextId := c.2;
      Append(c.0);
      EmitThen(st.(named := ra.named, nextId := ra.nextId), ra.code, ra.named, c.2, c.0);
      assert sa.(nextId := c.2) == Emit(st.(named := ra.named, nextId := ra.nextId), ra.code).(named := ra.named, nextId := c.2);
      v := Some(c.1);
    }

    /**
     * The expression forms `x++` and `x--`: load x, step it, store it back,
     * and undo the step to yield the value before.
     */
    method AddIncDec(x: string, step: ArithOp, undo: ArithOp) returns (v: Option<Operand>)
      requires HasInsertPoint(Abs())
      modifies this
      ensures var (named1, h) := Subscript(old(namedValues), x, NullHandle);
              var (named2, h2) := Subscript(named1, x, NullHandle);
              var id := old(nextId);
              && v == Some(Reg(id + 2))
              && Abs() == Emit(old(Abs()).(named := named2, nextId := id + 3),
                               [Load(id, h), Arith(id + 1, step, Reg(id), Imm(1)),
                                Store(Reg(id + 1), h2), Arith(id + 2, undo, Reg(id + 1), Imm(1))])
    {
      var id := nextId;
      var h := Lookup(x);
      var h2 := Lookup(x);
      nextId := id + 3;
      Append([Load(id, h), Arith(id + 1, step, Reg(id), Imm(1)), Store(Reg(id + 1), h2), Arith(id + 2, undo, Reg(id + 1), Imm(1))]);
      v := Some(Reg(id + 2));
    }

    /** `CreateICmpNE(add_expression(cond), 0)`. */
    method AddCondition(cond: Link) returns (c: Option<Operand>)
      requires HasInsertPoint(Abs())
      modifies this
      ensures var r := EmitCondition(old(Abs()), cond, ord);
              && (c.Some? <==> r.Some?)
              && (r.Some? ==> Abs() == r.value.0 && c.value == r.value.1)
    {
      var v := AddExpression(cond);
      if v.None? {
        return None;
      }
      var t := AppendValue((id: nat) => ICmp(id, NePred, v.value, Imm(0)));
      c := Some(t);
    }

    // -------------------------------------------------------------------
    // add_statement

    /** `add_statement` on a chain of statements. */
    method AddStatement(l: Link) returns (status: Status)
      requires HasInsertPoint(Abs())
      modifies this
      ensures var r := LowerStmt(old(Abs()), l, ord);
              status == StatusOf(r) && (r.Ok? ==> Abs() == r.st)
      decreases l, 4
    {
      if l.None? {
        return Crashed;
      }
      var n := l.value;
      var step := AddNode(n);
      match step
      case Next => status := AddStatement(n.successor);
      case Last => status := Normal;
      case StepExited(m) => status := Exited(m);
      case StepCrashed => status := Crashed;
    }

    /** The case of `add_statement` for the node's kind, up to the call on its successor. */
    method AddNode(n: Node) returns (step: StepStatus)
      requires HasInsertPoint(Abs())
      modifies this
      ensures var r := LowerNode(old(Abs()), n, ord);
              step == StepStatusOf(r) && ((r.Continue? || r.Finish?) ==> Abs() == r.st)
      decreases n, 3
    {
      match n
      case Stop(_) =>
        step := Last;
      case Auto(_, _) =>
        step := AddDeclarations(n);
      case Extrn(_, _) =>
        step := AddDeclarations(n);
      case Variable(_, _, _, _) =>
        step := AddVariable(n);
      case Assignment(_, _, _) =>
        step := AddAssignment(n);
      case WhileLoop(_, _, _) =>
        step := AddWhile(n);
      case If(_, _, _, _) =>
        step := AddIf(n);
      case Label(_, _) =>
        step := AddLabel(n);
      case Goto(_, _) =>
        step := AddGoto(n);
      case Return(_, _) =>
        step := AddReturn(n);
      case Inc(_, _) =>
        step := AddStep(n);
      case Dec(_, _) =>
        step := AddStep(n);
      case _ =>
        step := StepExited("unknown statement.");
    }

    /** `auto` and `extrn` lists: the declarations on the list, then the successor. */
    method AddDeclarations(n: Node) returns (step: StepStatus)
      requires HasInsertPoint(Abs()) && (n.Auto? || n.Extrn?)
      modifies this
      ensures var r := LowerNode(old(Abs()), n, ord);
              step == StepStatusOf(r) && ((r.Continue? || r.Finish?) ==> Abs() == r.st)
      decreases n, 2
    {
      ghost var st := Abs();
      assert LowerNode(st, n, ord) == Chained(LowerStmt(st, n.next, ord));
      var s := AddStatement(n.next);
      step := Nested(s, true);
    }

    /** An auto variable gets a stack slot and the chain goes on; an extern one becomes a global and the chain ends. */
    method AddVariable(n: Node) returns (step: StepStatus)
      requires HasInsertPoint(Abs()) && n.Variable?
      modifies this
      ensures var r := LowerNode(old(Abs()), n, ord);
              step == StepStatusOf(r) && ((r.Continue? || r.Finish?) ==> Abs() == r.st)
      decreases n, 2
    {
      ghost var st := Abs();
      assert LowerNode(st, n, ord) == LowerVariable(st, n, ord);
      if n.variableType == VarAuto {
        AllocateSlot(n.title);
        var s := AddStatement(n.next);
        step := Nested(s, false);
      } else {
        extrnValues := extrnValues[n.title := GlobalVar(|globals|)];
        globals := globals + [n.title];
        step := Last;
      }
    }

    method AddAssignment(n: Node) returns (step: StepStatus)
      requires HasInsertPoint(Abs()) && n.Assignment?
      modifies this
      ensures var r := LowerNode(old(Abs()), n, ord);
              step == StepStatusOf(r) && ((r.Continue? || r.Finish?) ==> Abs() == r.st)
    {
      var v := AddExpression(n.next);
      if v.None? {
        return StepCrashed;
      }
      var h := Lookup(n.title);
      Append([Store(v.value, h)]);
      step := Next;
    }

    method AddLabel(n: Node) returns (step: StepStatus)
      requires HasInsertPoint(Abs()) && n.Label?
      modifies this
      ensures var r := LowerNode(old(Abs()), n, ord);
              step == StepStatusOf(r) && ((r.Continue? || r.Finish?) ==> Abs() == r.st)
    {
      var f := insertFn;
      var b := CreateBlock(n.name);
      basicBlockValues := basicBlockValues[n.name := BlockAt(f, b)];
      Append([Br(BlockAt(f, b))]);
      SetInsertPoint(b);
      step := Next;
    }

    method AddGoto(n: Node) returns (step: StepStatus)
      requires HasInsertPoint(Abs()) && n.Goto?
      modifies this
      ensures var r := LowerNode(old(Abs()), n, ord);
              step == StepStatusOf(r) && ((r.Continue? || r.Finish?) ==> Abs() == r.st)
    {
      var target := LookupBlock(n.name);
      Append([Br(target)]);
      step := Next;
    }

    method AddReturn(n: Node) returns (step: StepStatus)
      requires HasInsertPoint(Abs()) && n.Return?
      modifies this
      ensures var r := LowerNode(old(Abs()), n, ord);
              step == StepStatusOf(r) && ((r.Continue? || r.Finish?) ==> Abs() == r.st)
    {
      var v := AddExpression(n.next);
      if v.None? {
        return StepCrashed;
      }
      Append([Ret(v.value)]);
      functionDoesReturn := true;
      step := Last;
    }

    /** The statement forms of `x++` and `x--`: load, step, store. */
    method AddStep(n: Node) returns (step: StepStatus)
      requires HasInsertPoint(Abs()) && (n.Inc? || n.Dec?)
      modifies this
      ensures var r := LowerNode(old(Abs()), n, ord);
              step == StepStatusOf(r) && ((r.Continue? || r.Finish?) ==> Abs() == r.st)
    {
      ghost var st := Abs();
      var op := if n.Inc? then AddOp else SubOp;
      assert LowerNode(st, n, ord) == LowerStep(st, n.name, op);
      var id := nextId;
      var h := Lookup(n.name);
      var h2 := Lookup(n.name);
      nextId := id + 2;
      Append([Load(id, h), Arith(id + 1, op, Reg(id), Imm(1)), Store(Reg(id + 1), h2)]);
      step := Next;
    }

    method AddWhile(n: Node) returns (step: StepStatus)
      requires HasInsertPoint(Abs()) && n.WhileLoop?
      modifies this
      ensures var r := LowerNode(old(Abs()), n, ord);
              step == StepStatusOf(r) && ((r.Continue? || r.Finish?) ==> Abs() == r.st)
      decreases n, 2
    {
      ghost var st := Abs();
      assert LowerNode(st, n, ord) == LowerWhile(st, n, ord);
      var f := insertFn;
      var thenBlock := CreateBlock("while_then");
      var mergeBlock := CreateBlock("while_merge");
      var c := AddCondition(n.inner);
      if c.None? {
        return StepCrashed;
      }
      WhileUnfold(st, n, Abs(), c.value, ord);
      Append([CondBr(c.value, BlockAt(f, thenBlock), BlockAt(f, mergeBlock))]);
      step := AddLoopBody(n, thenBlock);
    }

    /** The loop body in block k, then the retest of the condition. */
    method AddLoopBody(n: Node, k: nat) returns (step: StepStatus)
      requires HasInsertPoint(Abs()) && k + 1 < |Blocks(Abs())| && n.WhileLoop?
      modifies this
      ensures var r := LowerStmt(MoveTo(old(Abs()), k), n.next, ord);
              var t := if !r.Ok? then Chained(r) else LoopBack(r.st, n.inner, k, ord);
              step == StepStatusOf(t) && ((t.Continue? || t.Finish?) ==> Abs() == t.st)
      decreases n, 1
    {
      SetInsertPoint(k);
      var s := AddStatement(n.next);
      if !s.Normal? {
        return Nested(s, true);
      }
      step := AddLoopBack(n.inner, k);
    }

    /** The end of a loop body: test the condition again, branch back or out, continue after the loop. */
    method AddLoopBack(cond: Link, k: nat) returns (step: StepStatus)
      requires HasInsertPoint(Abs()) && k + 1 < |Blocks(Abs())|
      modifies this
      ensures var r := LoopBack(old(Abs()), cond, k, ord);
              step == StepStatusOf(r) && (r.Continue? ==> Abs() == r.st)
    {
      var f := insertFn;
      var c := AddCondition(cond);
      if c.None? {
        return StepCrashed;
      }
      Append([CondBr(c.value, BlockAt(f, k), BlockAt(f, k + 1))]);
      SetInsertPoint(k + 1);
      step := Next;
    }

    method AddIf(n: Node) returns (step: StepStatus)
      requires HasInsertPoint(Abs()) && n.If?
      modifies this
      ensures var r := LowerIf(old(Abs()), n, ord);
              step == StepStatusOf(r) && ((r.Continue? || r.Finish?) ==> Abs() == r.st)
      decreases n, 2
    {
      ghost var st := Abs();
      var f := insertFn;
      var thenBlock := CreateBlock("if_then");
      var mergeBlock := CreateBlock("if_merge");
      var c := AddCondition(n.cond);
      if c.None? || n.elseT.None? {
        return StepCrashed;
      }
      ghost var sc := Abs();
      if !n.elseT.value.Stop? {
        IfElseUnfold(st, n, sc, c.value, ord);
        step := AddWithElse(n, thenBlock, c.value);
      } else {
        IfNoElseUnfold(st, n, sc, c.value, ord);
        step := AddWithoutElse(n, thenBlock, c.value);
      }
    }

    /**
     * An `if` with an else arm, once blocks k and k + 1 exist and the
     * condition is lowered: block `if_else` (k + 2), the conditional branch,
     * the else arm, then the then arm.
     */
    method AddWithElse(n: Node, k: nat, cond: Operand) returns (step: StepStatus)
      requires HasInsertPoint(Abs()) && |Blocks(Abs())| == k + 2 && n.If?
      modifies this
      ensures var f := old(insertFn);
              var s2 := Emit(AddBlock(old(Abs()), "if_else"), [CondBr(cond, BlockAt(f, k), BlockAt(f, k + 2))]);
              var r := LowerElse(s2, n.elseT, k, ord);
              var t := if !r.Continue? then r else LowerThen(r.st, n.statements, k, ord);
              step == StepStatusOf(t) && ((t.Continue? || t.Finish?) ==> Abs() == t.st)
      decreases n, 1
    {
      var f := insertFn;
      var elseBlock := CreateBlock("if_else");
      Append([CondBr(cond, BlockAt(f, k), BlockAt(f, elseBlock))]);
      var s := AddElse(n.elseT, k);
      if !s.Next? {
        return s;
      }
      step := AddThen(n.statements, k);
    }

    /** An `if` whose else arm is STOP: the conditional branch to k or the merge block k + 1, then the then arm. */
    method AddWithoutElse(n: Node, k: nat, cond: Operand) returns (step: StepStatus)
      requires HasInsertPoint(Abs()) && |Blocks(Abs())| == k + 2 && n.If?
      modifies this
      ensures var f := old(insertFn);
              var r := LowerThen(Emit(old(Abs()), [CondBr(cond, BlockAt(f, k), BlockAt(f, k + 1))]), n.statements, k, ord);
              step == StepStatusOf(r) && ((r.Continue? || r.Finish?) ==> Abs() == r.st)
      decreases n, 1
    {
      var f := insertFn;
      Append([CondBr(cond, BlockAt(f, k), BlockAt(f, k + 1))]);
      step := AddThen(n.statements, k);
    }

    /** The else arm in block k + 2, closed with a branch to the merge block unless that block already ends. */
    method AddElse(elseArm: Link, k: nat) returns (step: StepStatus)
      requires HasInsertPoint(Abs()) && k + 2 < |Blocks(Abs())|
      modifies this
      ensures var r := LowerElse(old(Abs()), elseArm, k, ord);
              step == StepStatusOf(r) && ((r.Continue? || r.Finish?) ==> Abs() == r.st)
      decreases elseArm, 5
    {
      var f := insertFn;
      SetInsertPoint(k + 2);
      var s := AddStatement(elseArm);
      if !s.Normal? {
        return Nested(s, true);
      }
      if !HasTerminator(funcs[f].blocks[k + 2]) {
        Append([Br(BlockAt(f, k + 1))]);
      }
      step := Next;
    }

    /** The then arm in block k, closed the same way; the insertion point moves to the merge block. */
    method AddThen(thenArm: Link, k: nat) returns (step: StepStatus)
      requires HasInsertPoint(Abs()) && k + 1 < |Blocks(Abs())|
      modifies this
      ensures var r := LowerThen(old(Abs()), thenArm, k, ord);
              step == StepStatusOf(r) && ((r.Continue? || r.Finish?) ==> Abs() == r.st)
      decreases thenArm, 5
    {
      var f := insertFn;
      SetInsertPoint(k);
      var s := AddStatement(thenArm);
      if !s.Normal? {
        return Nested(s, true);
      }
      if !HasTerminator(funcs[f].blocks[k]) {
        Append([Br(BlockAt(f, k + 1))]);
      }
      SetInsertPoint(k + 1);
      step := Next;
    }

    // -------------------------------------------------------------------
    // add_function, analyze_ast, generate_llvm_ir

    /**
     * `add_function`: counts the argument chain, creates the function and
     * its entry block, clears the return flag, lowers the body and appends
     * `ret undef` when no return was lowered.
     */
    method AddFunction(title: string, args: Link, body: Link) returns (status: Status)
      modifies this
      ensures var r := LowerFunction(old(Abs()), title, args, body, ord);
              status == StatusOf(r) && (r.Ok? ==> Abs() == r.st)
    {
      var arity := 0;
      var current := args;
      while current.Some?
        invariant ArgCount(args).Some? <==> ArgCount(current).Some?
        invariant ArgCount(args).Some? ==> ArgCount(args).value == arity + ArgCount(current).value
        decreases current
      {
        var next := ListNext(current.value);
        if next.None? {
          return Crashed;
        }
        arity := arity + 1;
        current := next.value;
      }
      funcs := funcs + [Func(title, arity, [Block("entry", [])])];
      functionDoesReturn := false;
      insertFn, insertBlock := |funcs| - 1, 0;
      status := AddStatement(body);
      if status.Normal? && !functionDoesReturn {
        Append([Ret(UndefValue)]);
      }
    }

    /** `analyze_ast`: whether some root is a function titled `main`. */
    method AnalyzeAst(reg: AstRegistry) returns (found: bool)
      requires reg.Valid()
      ensures found <==> HasMain(reg.Roots())
    {
      found := false;
      for i := 0 to reg.astLength
        invariant found <==> HasMain(reg.Roots()[..i])
      {
        var root := reg.generatedAst[i];
        if root.Function? && root.title == "main" {
          found := true;
        }
        assert reg.Roots()[..i + 1] == reg.Roots()[..i] + [root];
      }
      assert reg.Roots()[..reg.astLength] == reg.Roots();
    }

    /**
     * `generate_llvm_ir`: "no entry point." without `main`; otherwise each
     * root in turn, a function lowered, a global declaration skipped (its
     * handler does nothing), anything else reported by its table name.
     */
    method GenerateLlvmIr(reg: AstRegistry) returns (status: Status)
      requires reg.Valid()
      modifies this
      ensures var r := GenerateIr(old(Abs()), reg.Roots(), ord);
              status == StatusOf(r) && (r.Ok? ==> Abs() == r.st)
    {
      var found := AnalyzeAst(reg);
      if !found {
        return Exited("no entry point.");
      }
      var i := 0;
      while i < reg.astLength
        invariant 0 <= i <= reg.astLength
        invariant LowerRoots(old(Abs()), reg.Roots(), 0, ord) == LowerRoots(Abs(), reg.Roots(), i, ord)
        decreases reg.astLength - i
      {
        var root := reg.generatedAst[i];
        if root.Function? {
          var s := AddFunction(root.title, root.args, root.statements);
          if !s.Normal? {
            return s;
          }
        } else if !root.GlobalDeclaration? {
          var name := TypeName(root);
          if name.None? {
            return Crashed;
          }
          return Exited("unrecognized root type \"" + name.value + "\"\n");
        }
        i := i + 1;
      }
      status := Normal;
    }
  }
}
