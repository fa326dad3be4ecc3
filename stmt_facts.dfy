/**
 * How `add_statement` changes the module under construction: it only
 * appends instructions to the block holding the insertion point and adds
 * new blocks at the end of the current function; a block it leaves ends in
 * a terminator; the global tables only gain entries.
 */
module StmtFacts {
  import opened Wrappers
  import opened Ast
  import opened Ir
  import opened Semantics
  import opened Lowering

  /**
   * From st to st' the function at the insertion point changed only by
   * instructions appended to block `active` and by blocks added after the
   * existing ones; the other functions, the names of the existing blocks,
   * the function's name and arity are unchanged, and the tables and the
   * globals only grew.
   */
  ghost predicate Frame(st: State, st': State, active: nat) {
    && StaysIn(st, st')
    && (forall i :: 0 <= i < |st.funcs| && i != st.insertFn ==> st'.funcs[i] == st.funcs[i])
    && st'.funcs[st.insertFn].name == st.funcs[st.insertFn].name
    && st'.funcs[st.insertFn].arity == st.funcs[st.insertFn].arity
    && (forall j :: 0 <= j < |Blocks(st)| && j != active ==> Blocks(st')[j] == Blocks(st)[j])
    && (active < |Blocks(st)| ==>
          && Blocks(st')[active].name == Blocks(st)[active].name
          && Blocks(st)[active].insts <= Blocks(st')[active].insts)
    && st.nextId <= st'.nextId
    && st.named.Keys <= st'.named.Keys
    && st.labels.Keys <= st'.labels.Keys
    && st.extrn.Keys <= st'.extrn.Keys
    && st.globals <= st'.globals
  }

  /**
   * Frame for the block holding the insertion point; the insertion point
   * ends there or in a new block, and a block it leaves ends in a terminator.
   */
  ghost predicate Grows(st: State, st': State) {
    && HasInsertPoint(st)
    && Frame(st, st', st.insertBlock)
    && (st'.insertBlock == st.insertBlock || st'.insertBlock >= |Blocks(st)|)
    && (st'.insertBlock != st.insertBlock ==> HasTerminator(Blocks(st')[st.insertBlock]))
  }

  lemma {:induction false} FrameTrans(s1: State, s2: State, s3: State, a: nat, b: nat)
    requires Frame(s1, s2, a) && Frame(s2, s3, b) && (b == a || b >= |Blocks(s1)|)
    ensures Frame(s1, s3, a)
  {
  }

  lemma {:induction false} GrowsTrans(s1: State, s2: State, s3: State)
    requires Grows(s1, s2) && Grows(s2, s3)
    ensures Grows(s1, s3)
  {
    FrameTrans(s1, s2, s3, s1.insertBlock, s2.insertBlock);
  }

  /** Appending at the insertion point. */
  lemma {:induction false} EmitGrows(st: State, insts: seq<Inst>)
    requires HasInsertPoint(st)
    ensures var s := Emit(st, insts);
            && Grows(st, s)
            && s.insertBlock == st.insertBlock
            && |Blocks(s)| == |Blocks(st)|
            && Blocks(s)[st.insertBlock].insts == Blocks(st)[st.insertBlock].insts + insts
  {
  }

  /** Adding a block at the end of the function. */
  lemma {:induction false} AddBlockGrows(st: State, name: string)
    requires HasInsertPoint(st)
    ensures var s := AddBlock(st, name);
            && Grows(st, s)
            && s.insertBlock == st.insertBlock
            && |Blocks(s)| == |Blocks(st)| + 1
            && Blocks(s)[|Blocks(st)|] == Block(name, [])
  {
  }

  /** Moving the insertion point to a new block, once the block it leaves is terminated. */
  lemma {:induction false} MoveToGrows(st: State, s: State, k: nat)
    requires Grows(st, s) && |Blocks(st)| <= k < |Blocks(s)|
    requires HasTerminator(Blocks(s)[st.insertBlock])
    ensures Grows(st, MoveTo(s, k))
  {
  }

  /** Lowering an expression appends its code at the insertion point. */
  lemma {:induction false} EmitExprGrows(st: State, e: Link, ord: Order)
    requires HasInsertPoint(st) && EmitExpr(st, e, ord).Some?
    ensures var s := EmitExpr(st, e, ord).value.0;
            && Grows(st, s)
            && s.insertBlock == st.insertBlock
            && |Blocks(s)| == |Blocks(st)|
  {
    var r := LowerExpr(st.named, st.nextId, e, ord);
    var s0 := st.(named := r.named, nextId := r.nextId);
    EmitGrows(s0, r.code);
    assert r.nextId >= st.nextId && st.named.Keys <= r.named.Keys by {
      LowerExprGrowsTables(st.named, st.nextId, e, ord);
    }
  }

  /** Lowering an expression only adds names and consumes identities. */
  lemma {:induction false} LowerExprGrowsTables(named: Names, nextId: nat, e: Link, ord: Order)
    requires LowerExpr(named, nextId, e, ord).ExprOk?
    ensures var r := LowerExpr(named, nextId, e, ord);
            nextId <= r.nextId && named.Keys <= r.named.Keys
    decreases e
  {
    var n := e.value;
    if IsBinary(n) {
      var op := OperatorOf(n);
      var first := if ord(op) then n.left else n.right;
      var second := if ord(op) then n.right else n.left;
      var a := LowerExpr(named, nextId, first, ord);
      LowerExprGrowsTables(named, nextId, first, ord);
      LowerExprGrowsTables(a.named, a.nextId, second, ord);
    } else if n.Not? {
      LowerExprGrowsTables(named, nextId, n.inner, ord);
    }
  }

  /** Lowering a branch condition appends its code and the test at the insertion point. */
  lemma {:induction false} EmitConditionGrows(st: State, e: Link, ord: Order)
    requires HasInsertPoint(st) && EmitCondition(st, e, ord).Some?
    ensures var s := EmitCondition(st, e, ord).value.0;
            && Grows(st, s)
            && s.insertBlock == st.insertBlock
            && |Blocks(s)| == |Blocks(st)|
  {
    EmitExprGrows(st, e, ord);
    var (s1, v) := EmitExpr(st, e, ord).value;
    EmitGrows(s1.(nextId := s1.nextId + 1), [ICmp(s1.nextId, NePred, v, Imm(0))]);
    GrowsTrans(st, s1, s1.(nextId := s1.nextId + 1));
  }

  // ---------------------------------------------------------------------
  // Lowering statements grows the module

  /** `add_statement` on a chain only appends and adds blocks (Grows). */
  lemma {:induction false} StmtGrows(st: State, l: Link, ord: Order)
    requires HasInsertPoint(st)
    ensures var r := LowerStmt(st, l, ord); r.Ok? ==> Grows(st, r.st)
    decreases l, 4
  {
    if l.Some? {
      var n := l.value;
      NodeGrows(st, n, ord);
      var s := LowerNode(st, n, ord);
      if s.Continue? {
        StmtGrows(s.st, n.successor, ord);
        var r := LowerStmt(s.st, n.successor, ord);
        if r.Ok? {
          GrowsTrans(st, s.st, r.st);
        }
      }
    }
  }

  /** A node that lowers to a state only grew the module. */
  ghost predicate NodeGrew(st: State, r: NodeOutcome) {
    (r.Continue? || r.Finish?) ==> Grows(st, r.st)
  }

  lemma {:induction false} NodeGrows(st: State, n: Node, ord: Order)
    requires HasInsertPoint(st)
    ensures NodeGrew(st, LowerNode(st, n, ord))
    decreases n, 4
  {
    if n.Auto? || n.Extrn? || n.Variable? || n.WhileLoop? || n.If? {
      NestingGrows(st, n, ord);
    } else {
      FlatGrows(st, n, ord);
    }
  }

  /** The kinds that hold a nested chain. */
  lemma {:induction false} NestingGrows(st: State, n: Node, ord: Order)
    requires HasInsertPoint(st) && (n.Auto? || n.Extrn? || n.Variable? || n.WhileLoop? || n.If?)
    ensures NodeGrew(st, LowerNode(st, n, ord))
    decreases n, 3
  {
    match n
    case Auto(next, _) => DeclarationGrows(st, n, ord);
    case Extrn(next, _) => DeclarationGrows(st, n, ord);
    case Variable(_, _, _, _) =>
      VariableGrows(st, n, ord);
      assert LowerNode(st, n, ord) == LowerVariable(st, n, ord);
    case WhileLoop(_, _, _) =>
      WhileGrows(st, n, ord);
      assert LowerNode(st, n, ord) == LowerWhile(st, n, ord);
    case If(_, _, _, _) =>
      IfGrows(st, n, ord);
      assert LowerNode(st, n, ord) == LowerIf(st, n, ord);
  }

  /** The kinds without a nested chain. */
  lemma {:induction false} FlatGrows(st: State, n: Node, ord: Order)
    requires HasInsertPoint(st) && !(n.Auto? || n.Extrn? || n.Variable? || n.WhileLoop? || n.If?)
    ensures NodeGrew(st, LowerNode(st, n, ord))
  {
    match n
    case Assignment(_, _, _) => AssignmentGrows(st, n, ord);
    case Label(_, _) => LabelGrows(st, n, ord);
    case Goto(_, _) => GotoGrows(st, n, ord);
    case Return(_, _) => ReturnGrows(st, n, ord);
    case Inc(_, _) => StepGrows(st, n, ord);
    case Dec(_, _) => StepGrows(st, n, ord);
    case _ => OtherGrows(st, n, ord);
  }

  lemma {:induction false} DeclarationGrows(st: State, n: Node, ord: Order)
    requires HasInsertPoint(st) && (n.Auto? || n.Extrn?)
    ensures NodeGrew(st, LowerNode(st, n, ord))
    decreases n, 2
  {
    StmtGrows(st, n.next, ord);
    assert LowerNode(st, n, ord) == Chained(LowerStmt(st, n.next, ord));
  }

  lemma {:induction false} StepGrows(st: State, n: Node, ord: Order)
    requires HasInsertPoint(st) && (n.Inc? || n.Dec?)
    ensures NodeGrew(st, LowerNode(st, n, ord))
  {
    var op := if n.Inc? then AddOp else SubOp;
    assert LowerNode(st, n, ord) == LowerStep(st, n.name, op);
  }

  /** The sentinel leaves the state as it is; every other kind is fatal. */
  lemma {:induction false} OtherGrows(st: State, n: Node, ord: Order)
    requires HasInsertPoint(st)
    requires !(n.Auto? || n.Extrn? || n.Variable? || n.Assignment? || n.WhileLoop? || n.If?)
    requires !(n.Label? || n.Goto? || n.Return? || n.Inc? || n.Dec?)
    ensures NodeGrew(st, LowerNode(st, n, ord))
  {
  }

  lemma {:induction false} AssignmentGrows(st: State, n: Node, ord: Order)
    requires HasInsertPoint(st) && n.Assignment?
    ensures NodeGrew(st, LowerNode(st, n, ord))
  {
    var r := EmitExpr(st, n.next, ord);
    if r.Some? {
      EmitExprGrows(st, n.next, ord);
      var (s1, v) := r.value;
      var (named, h) := Subscript(s1.named, n.title, NullHandle);
      var s2 := s1.(named := named);
      EmitGrows(s2, [Store(v, h)]);
      GrowsTrans(st, s1, s2);
      GrowsTrans(st, s2, Emit(s2, [Store(v, h)]));
      assert LowerNode(st, n, ord) == Continue(Emit(s2, [Store(v, h)]));
    }
  }

  lemma {:induction false} LabelGrows(st: State, n: Node, ord: Order)
    requires HasInsertPoint(st) && n.Label?
    ensures NodeGrew(st, LowerNode(st, n, ord))
  {
    var f, k := st.insertFn, |Blocks(st)|;
    var s0 := AddBlock(st, n.name);
    AddBlockGrows(st, n.name);
    var s1 := s0.(labels := st.labels[n.name := BlockAt(f, k)]);
    var s2 := Emit(s1, [Br(BlockAt(f, k))]);
    EmitGrows(s1, [Br(BlockAt(f, k))]);
    GrowsTrans(st, s1, s2);
    MoveToGrows(st, s2, k);
    assert LowerNode(st, n, ord) == Continue(MoveTo(s2, k));
  }

  lemma {:induction false} GotoGrows(st: State, n: Node, ord: Order)
    requires HasInsertPoint(st) && n.Goto?
    ensures NodeGrew(st, LowerNode(st, n, ord))
  {
    var (labels, target) := Subscript(st.labels, n.name, NullBlock);
    EmitGrows(st.(labels := labels), [Br(target)]);
    assert LowerNode(st, n, ord) == Continue(Emit(st.(labels := labels), [Br(target)]));
  }

  lemma {:induction false} ReturnGrows(st: State, n: Node, ord: Order)
    requires HasInsertPoint(st) && n.Return?
    ensures NodeGrew(st, LowerNode(st, n, ord))
  {
    var r := EmitExpr(st, n.next, ord);
    if r.Some? {
      EmitExprGrows(st, n.next, ord);
      var s1 := Emit(r.value.0, [Ret(r.value.1)]);
      EmitGrows(r.value.0, [Ret(r.value.1)]);
      GrowsTrans(st, r.value.0, s1);
      assert LowerNode(st, n, ord) == Finish(s1.(doesReturn := true));
    }
  }

  lemma {:induction false} VariableGrows(st: State, n: Node, ord: Order)
    requires HasInsertPoint(st) && n.Variable?
    ensures NodeGrew(st, LowerVariable(st, n, ord))
    decreases n, 2
  {
    if n.variableType == VarAuto {
      var s1 := Emit(st, [Alloca(st.nextId, n.title)]);
      EmitGrows(st, [Alloca(st.nextId, n.title)]);
      var s2 := Allocate(st, n.title);
      StmtGrows(s2, n.next, ord);
      var r := LowerStmt(s2, n.next, ord);
      if r.Ok? {
        GrowsTrans(st, s2, r.st);
      }
    }
  }

  lemma {:induction false} WhileGrows(st: State, n: Node, ord: Order)
    requires HasInsertPoint(st) && n.WhileLoop?
    ensures NodeGrew(st, LowerWhile(st, n, ord))
    decreases n, 2
  {
    var f, k := st.insertFn, |Blocks(st)|;
    var s0 := AddBlock(st, "while_then");
    var s1 := AddBlock(s0, "while_merge");
    var c := EmitCondition(s1, n.inner, ord);
    if c.Some? {
      WhileUnfold(st, n, c.value.0, c.value.1, ord);
      var s2 := Emit(c.value.0, [CondBr(c.value.1, BlockAt(f, k), BlockAt(f, k + 1))]);
      WhileHeadGrows(st, n, c.value.0, c.value.1, ord);
      StmtGrows(MoveTo(s2, k), n.next, ord);
      var r := LowerStmt(MoveTo(s2, k), n.next, ord);
      if r.Ok? {
        assert LowerWhile(st, n, ord) == LoopBack(r.st, n.inner, k, ord);
        GrowsTrans(st, MoveTo(s2, k), r.st);
        LoopBackGrows(st, r.st, n.inner, k, ord);
      } else {
        assert LowerWhile(st, n, ord) == Chained(r);
      }
    }
  }

  /** The two loop blocks and the first test, with the insertion point moved into the body block. */
  lemma {:induction false} WhileHeadGrows(st: State, n: Node, sc: State, cond: Operand, ord: Order)
    requires HasInsertPoint(st) && n.WhileLoop?
    requires EmitCondition(AddBlock(AddBlock(st, "while_then"), "while_merge"), n.inner, ord) == Some((sc, cond))
    ensures var f, k := st.insertFn, |Blocks(st)|;
            var s2 := Emit(sc, [CondBr(cond, BlockAt(f, k), BlockAt(f, k + 1))]);
            && |Blocks(s2)| == k + 2
            && Grows(st, MoveTo(s2, k))
  {
    var f, k := st.insertFn, |Blocks(st)|;
    var s0 := AddBlock(st, "while_then");
    var s1 := AddBlock(s0, "while_merge");
    var s2 := Emit(sc, [CondBr(cond, BlockAt(f, k), BlockAt(f, k + 1))]);
    AddBlockGrows(st, "while_then");
    AddBlockGrows(s0, "while_merge");
    GrowsTrans(st, s0, s1);
    EmitConditionGrows(s1, n.inner, ord);
    GrowsTrans(st, s1, sc);
    EmitGrows(sc, [CondBr(cond, BlockAt(f, k), BlockAt(f, k + 1))]);
    GrowsTrans(st, sc, s2);
    MoveToGrows(st, s2, k);
  }

  /** The retest at the end of a loop body, which is not the block the loop started in. */
  lemma {:induction false} LoopBackGrows(st: State, sb: State, cond: Link, k: nat, ord: Order)
    requires Grows(st, sb) && sb.insertBlock != st.insertBlock && |Blocks(st)| <= k && k + 1 < |Blocks(sb)|
    ensures var r := LoopBack(sb, cond, k, ord); r.Continue? ==> Grows(st, r.st)
  {
    var f := sb.insertFn;
    var c := EmitCondition(sb, cond, ord);
    if c.Some? {
      EmitConditionGrows(sb, cond, ord);
      GrowsTrans(st, sb, c.value.0);
      var s3 := Emit(c.value.0, [CondBr(c.value.1, BlockAt(f, k), BlockAt(f, k + 1))]);
      EmitGrows(c.value.0, [CondBr(c.value.1, BlockAt(f, k), BlockAt(f, k + 1))]);
      GrowsTrans(st, c.value.0, s3);
      MoveToGrows(st, s3, k + 1);
    }
  }

  lemma {:induction false} IfGrows(st: State, n: Node, ord: Order)
    requires HasInsertPoint(st) && n.If?
    ensures NodeGrew(st, LowerIf(st, n, ord))
    decreases n, 2
  {
    var s0 := AddBlock(st, "if_then");
    var s1 := AddBlock(s0, "if_merge");
    var c := EmitCondition(s1, n.cond, ord);
    if c.Some? && n.elseT.Some? {
      assert Grows(st, c.value.0) by {
        AddBlockGrows(st, "if_then");
        AddBlockGrows(s0, "if_merge");
        GrowsTrans(st, s0, s1);
        EmitConditionGrows(s1, n.cond, ord);
        GrowsTrans(st, s1, c.value.0);
      }
      if !n.elseT.value.Stop? {
        IfElseGrows(st, n, c.value.0, c.value.1, ord);
      } else {
        IfNoElseGrows(st, n, c.value.0, c.value.1, ord);
      }
    }
  }

  /** An `if` with an else arm, from the state after its condition. */
  lemma {:induction false} IfElseGrows(st: State, n: Node, sc: State, cond: Operand, ord: Order)
    requires HasInsertPoint(st) && n.If? && n.elseT.Some? && !n.elseT.value.Stop?
    requires EmitCondition(AddBlock(AddBlock(st, "if_then"), "if_merge"), n.cond, ord) == Some((sc, cond))
    requires Grows(st, sc) && |Blocks(sc)| == |Blocks(st)| + 2 && sc.insertBlock == st.insertBlock
    ensures NodeGrew(st, LowerIf(st, n, ord))
    decreases n, 1
  {
    var f, k := st.insertFn, |Blocks(st)|;
    IfElseUnfold(st, n, sc, cond, ord);
    var s1e := AddBlock(sc, "if_else");
    var s2 := Emit(s1e, [CondBr(cond, BlockAt(f, k), BlockAt(f, k + 2))]);
    var r := LowerElse(s2, n.elseT, k, ord);
    AddBlockGrows(sc, "if_else");
    GrowsTrans(st, sc, s1e);
    EmitGrows(s1e, [CondBr(cond, BlockAt(f, k), BlockAt(f, k + 2))]);
    GrowsTrans(st, s1e, s2);
    ElseFrame(s2, n.elseT, k, ord);
    if r.Continue? {
      FrameTrans(st, s2, r.st, st.insertBlock, k + 2);
      ThenFrame(r.st, n.statements, k, ord);
      var t := LowerThen(r.st, n.statements, k, ord);
      if t.Continue? {
        FrameTrans(st, r.st, t.st, st.insertBlock, k);
      }
    }
  }

  /** An `if` without an else arm, from the state after its condition. */
  lemma {:induction false} IfNoElseGrows(st: State, n: Node, sc: State, cond: Operand, ord: Order)
    requires HasInsertPoint(st) && n.If? && n.elseT.Some? && n.elseT.value.Stop?
    requires EmitCondition(AddBlock(AddBlock(st, "if_then"), "if_merge"), n.cond, ord) == Some((sc, cond))
    requires Grows(st, sc) && |Blocks(sc)| == |Blocks(st)| + 2 && sc.insertBlock == st.insertBlock
    ensures NodeGrew(st, LowerIf(st, n, ord))
    decreases n, 1
  {
    var f, k := st.insertFn, |Blocks(st)|;
    IfNoElseUnfold(st, n, sc, cond, ord);
    var s2 := Emit(sc, [CondBr(cond, BlockAt(f, k), BlockAt(f, k + 1))]);
    EmitGrows(sc, [CondBr(cond, BlockAt(f, k), BlockAt(f, k + 1))]);
    GrowsTrans(st, sc, s2);
    ThenFrame(s2, n.statements, k, ord);
    var t := LowerThen(s2, n.statements, k, ord);
    assert LowerIf(st, n, ord) == t;
    if t.Continue? {
      FrameTrans(st, s2, t.st, st.insertBlock, k);
    }
  }

  /** The else arm of an `if` changes only block k + 2 and new blocks. */
  lemma {:induction false} ElseFrame(st: State, elseArm: Link, k: nat, ord: Order)
    requires HasInsertPoint(st) && k + 2 < |Blocks(st)|
    ensures var r := LowerElse(st, elseArm, k, ord);
            (r.Continue? || r.Finish?) ==> r.Continue? && Frame(st, r.st, k + 2)
    decreases elseArm, 5
  {
    var f := st.insertFn;
    var s0 := MoveTo(st, k + 2);
    StmtGrows(s0, elseArm, ord);
    var r := LowerStmt(s0, elseArm, ord);
    if r.Ok? && !HasTerminator(Blocks(r.st)[k + 2]) {
      EmitGrows(r.st, [Br(BlockAt(f, k + 1))]);
      FrameTrans(st, r.st, Emit(r.st, [Br(BlockAt(f, k + 1))]), k + 2, r.st.insertBlock);
    }
  }

  /**
   * The then arm of an `if` changes only block k and new blocks, leaves
   * block k ending in a terminator, and moves the insertion point to k + 1.
   */
  lemma {:induction false} ThenFrame(st: State, thenArm: Link, k: nat, ord: Order)
    requires HasInsertPoint(st) && k + 1 < |Blocks(st)|
    ensures var r := LowerThen(st, thenArm, k, ord);
            (r.Continue? || r.Finish?) ==>
              && r.Continue?
              && Frame(st, r.st, k)
              && r.st.insertBlock == k + 1
              && HasTerminator(Blocks(r.st)[k])
    decreases thenArm, 5
  {
    var f := st.insertFn;
    var s0 := MoveTo(st, k);
    StmtGrows(s0, thenArm, ord);
    var r := LowerStmt(s0, thenArm, ord);
    if r.Ok? {
      if !HasTerminator(Blocks(r.st)[k]) {
        EmitGrows(r.st, [Br(BlockAt(f, k + 1))]);
        FrameTrans(st, r.st, Emit(r.st, [Br(BlockAt(f, k + 1))]), k, k);
      }
    }
  }
}
