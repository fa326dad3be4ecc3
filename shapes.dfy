/**
 * The control-flow shapes `add_statement` builds: the blocks an `if`, a
 * `while` and a label create, where their branches go, and where the
 * insertion point is left.
 */
module Shapes {
  import opened Wrappers
  import opened Ast
  import opened Ir
  import opened Semantics
  import opened Lowering
  import opened StmtFacts
  import opened ExprCorrectness
  import opened Tables

  /** The last instruction of a block. */
  function LastInst(b: Block): Inst
    requires b.insts != []
  {
    b.insts[|b.insts| - 1]
  }

  /** A branch condition ends in a test of the expression against zero, whose result is the operand returned. */
  lemma {:induction false} ConditionEnds(st: State, e: Link, ord: Order)
    requires HasInsertPoint(st) && EmitCondition(st, e, ord).Some?
    ensures var s := EmitCondition(st, e, ord).value.0;
            var c := EmitCondition(st, e, ord).value.1;
            && HasInsertPoint(s)
            && s.insertBlock == st.insertBlock
            && Blocks(s)[s.insertBlock].insts != []
            && c.Reg?
            && LastInst(Blocks(s)[s.insertBlock]) == ICmp(c.id, NePred, EmitExpr(st, e, ord).value.1, Imm(0))
  {
    EmitConditionGrows(st, e, ord);
  }

  /**
   * The two blocks an `if` or a `while` creates (k and k + 1) before its
   * condition is lowered in the block it started in.
   */
  lemma {:induction false} Prologue(st: State, first: string, second: string, e: Link, sc: State, cond: Operand, ord: Order)
    requires HasInsertPoint(st)
    requires EmitCondition(AddBlock(AddBlock(st, first), second), e, ord) == Some((sc, cond))
    ensures var k := |Blocks(st)|;
            && HasInsertPoint(sc)
            && sc.insertFn == st.insertFn
            && (forall j :: 0 <= j < k && j != st.insertBlock ==> Blocks(sc)[j] == Blocks(st)[j])
            && sc.insertBlock == st.insertBlock
            && |Blocks(sc)| == k + 2
            && Blocks(sc)[k] == Block(first, [])
            && Blocks(sc)[k + 1] == Block(second, [])
            && EmitExpr(AddBlock(AddBlock(st, first), second), e, ord).Some?
            && EndsInTest(Blocks(sc)[sc.insertBlock], cond, EmitExpr(AddBlock(AddBlock(st, first), second), e, ord).value.1)
  {
    var s0 := AddBlock(st, first);
    var s1 := AddBlock(s0, second);
    AddBlockGrows(st, first);
    AddBlockGrows(s0, second);
    GrowsTrans(st, s0, s1);
    EmitConditionGrows(s1, e, ord);
    ConditionEnds(s1, e, ord);
    GrowsTrans(st, s1, sc);
  }

  /** The block ends with `icmp ne v, 0` whose result is the operand c. */
  predicate EndsInTest(b: Block, c: Operand, v: Operand) {
    && b.insts != []
    && c.Reg?
    && LastInst(b) == ICmp(c.id, NePred, v, Imm(0))
  }

  /**
   * The block ends with the test of the value v against zero and a branch
   * on it to block k (the body) or block k + 1 (the merge).
   */
  predicate EndsInLoopTest(b: Block, f: nat, k: nat, v: Operand) {
    && |b.insts| >= 2
    && var br := b.insts[|b.insts| - 1];
       && br.CondBr?
       && br.ifTrue == BlockAt(f, k)
       && br.ifFalse == BlockAt(f, k + 1)
       && EndsInTest(Block(b.name, b.insts[..|b.insts| - 1]), br.cond, v)
  }

  /** The else half of an `if` leaves block k + 2 ending in a terminator. */
  lemma {:induction false} ElseEnds(st: State, elseArm: Link, k: nat, ord: Order)
    requires HasInsertPoint(st) && k + 2 < |Blocks(st)|
    ensures var r := LowerElse(st, elseArm, k, ord); r.Continue? ==> HasTerminator(Blocks(r.st)[k + 2])
  {
    StmtGrows(MoveTo(st, k + 2), elseArm, ord);
  }

  /**
   * An `if` with an else arm: blocks `if_then` (k), `if_merge` (k + 1) and
   * `if_else` (k + 2); the block it started in ends with a branch on the
   * condition to k or k + 2; blocks k and k + 2 end in terminators; the
   * insertion point is left in the merge block; and the arms are lowered
   * and closed as ArmsClosed says.
   */
  lemma {:induction false} IfElseShape(st: State, n: Node, sc: State, cond: Operand, ord: Order)
    requires HasInsertPoint(st) && n.If? && n.elseT.Some? && !n.elseT.value.Stop?
    requires EmitCondition(AddBlock(AddBlock(st, "if_then"), "if_merge"), n.cond, ord) == Some((sc, cond))
    ensures var r := LowerIf(st, n, ord);
            var f, k, j := st.insertFn, |Blocks(st)|, st.insertBlock;
            r.Continue? ==>
              && |Blocks(r.st)| > k + 2
              && Blocks(r.st)[k].name == "if_then"
              && Blocks(r.st)[k + 1] == Block("if_merge", [])
              && Blocks(r.st)[k + 2].name == "if_else"
              && Blocks(r.st)[j].insts != []
              && LastInst(Blocks(r.st)[j]) == CondBr(cond, BlockAt(f, k), BlockAt(f, k + 2))
              && HasTerminator(Blocks(r.st)[k])
              && HasTerminator(Blocks(r.st)[k + 2])
              && r.st.insertBlock == k + 1
    ensures var r := LowerIf(st, n, ord);
            var f, k := st.insertFn, |Blocks(st)|;
            var s2 := Emit(AddBlock(sc, "if_else"), [CondBr(cond, BlockAt(f, k), BlockAt(f, k + 2))]);
            var e := LowerElse(s2, n.elseT, k, ord);
            r.Continue? ==> e.Continue? && ArmsClosed(s2, e.st, r.st, n, k, ord)
  {
    var f, k := st.insertFn, |Blocks(st)|;
    Prologue(st, "if_then", "if_merge", n.cond, sc, cond, ord);
    IfElseUnfold(st, n, sc, cond, ord);
    var s2 := Emit(AddBlock(sc, "if_else"), [CondBr(cond, BlockAt(f, k), BlockAt(f, k + 2))]);
    IfElseArms(s2, n, k, ord);
    IfElseArmsClose(s2, n, k, ord);
  }

  /**
   * The arms of an `if` with an else arm, from the state s2 its prologue
   * left, through the state e the else half left, to the state t the then
   * half left: the else arm is lowered first, in block k + 2, and closed by
   * a branch to the merge block k + 1 only if block k + 2 lacks a
   * terminator; the then arm is lowered next, in block k, from the state
   * the else half left, and closed the same way; the blocks from `if_else`
   * to the last one the else arm added are complete before the then arm
   * starts, and the then arm's own blocks come after them.
   */
  ghost predicate ArmsClosed(s2: State, e: State, t: State, n: Node, k: nat, ord: Order)
    requires HasInsertPoint(s2) && n.If? && k + 2 < |Blocks(s2)|
    requires HasInsertPoint(e) && e.insertFn == s2.insertFn && |Blocks(e)| >= |Blocks(s2)|
  {
    var f := s2.insertFn;
    var ea := LowerStmt(MoveTo(s2, k + 2), n.elseT, ord);
    var ta := LowerStmt(MoveTo(e, k), n.statements, ord);
    && ea.Ok? && k + 2 < |Blocks(ea.st)|
    && ArmClosed(ea.st, e, k + 2, BlockAt(f, k + 1))
    && ta.Ok? && k < |Blocks(ta.st)|
    && ArmClosed(ta.st, t, k, BlockAt(f, k + 1))
    && |Blocks(e)| <= |Blocks(t)|
    && (forall i :: k + 2 <= i < |Blocks(e)| ==> Blocks(t)[i] == Blocks(e)[i])
  }

  /** ArmsClosed for the two halves of an `if` with an else arm. */
  lemma {:induction false} IfElseArmsClose(s2: State, n: Node, k: nat, ord: Order)
    requires HasInsertPoint(s2) && n.If? && |Blocks(s2)| == k + 3 && s2.insertBlock < k
    ensures var e := LowerElse(s2, n.elseT, k, ord);
            e.Continue? ==>
              var t := LowerThen(e.st, n.statements, k, ord);
              t.Continue? ==> ArmsClosed(s2, e.st, t.st, n, k, ord)
  {
    ElseCloses(s2, n.elseT, k, ord);
    var e := LowerElse(s2, n.elseT, k, ord);
    if e.Continue? {
      ThenCloses(e.st, n.statements, k, ord);
      ThenFrame(e.st, n.statements, k, ord);
    }
  }

  /**
   * From a, the state an `if` arm left, to b: a branch to merge is appended
   * where the arm left the insertion point exactly when the arm's own block
   * does not already end in a terminator; no block is added.
   */
  predicate ArmClosed(a: State, b: State, arm: nat, merge: BlockRef)
    requires HasInsertPoint(a) && arm < |Blocks(a)|
  {
    && b.insertFn == a.insertFn
    && b.insertFn < |b.funcs|
    && |Blocks(b)| == |Blocks(a)|
    && (HasTerminator(Blocks(a)[arm]) ==> Blocks(b) == Blocks(a))
    && (!HasTerminator(Blocks(a)[arm]) ==>
          && Blocks(b)[a.insertBlock].insts == Blocks(a)[a.insertBlock].insts + [Br(merge)]
          && (forall i :: 0 <= i < |Blocks(a)| && i != a.insertBlock ==> Blocks(b)[i] == Blocks(a)[i]))
  }

  /** The then half of an `if`: the arm in block k, closed as ArmClosed says, then the merge block k + 1. */
  lemma {:induction false} ThenCloses(st: State, thenArm: Link, k: nat, ord: Order)
    requires HasInsertPoint(st) && k + 1 < |Blocks(st)|
    ensures var a := LowerStmt(MoveTo(st, k), thenArm, ord);
            var t := LowerThen(st, thenArm, k, ord);
            && (t.Continue? <==> a.Ok?)
            && (a.Ok? ==>
                  && k < |Blocks(a.st)|
                  && t.st.insertBlock == k + 1
                  && ArmClosed(a.st, t.st, k, BlockAt(st.insertFn, k + 1)))
  {
  }

  /** The else half of an `if`: the arm in block k + 2, closed as ArmClosed says, the insertion point left where the arm left it. */
  lemma {:induction false} ElseCloses(st: State, elseArm: Link, k: nat, ord: Order)
    requires HasInsertPoint(st) && k + 2 < |Blocks(st)|
    ensures var a := LowerStmt(MoveTo(st, k + 2), elseArm, ord);
            var e := LowerElse(st, elseArm, k, ord);
            && (e.Continue? <==> a.Ok?)
            && (a.Ok? ==>
                  && k + 2 < |Blocks(a.st)|
                  && e.st.insertBlock == a.st.insertBlock
                  && ArmClosed(a.st, e.st, k + 2, BlockAt(st.insertFn, k + 1)))
  {
  }

  /** The two arms of an `if` with an else arm, from the state its prologue left (s2). */
  lemma {:induction false} IfElseArms(s2: State, n: Node, k: nat, ord: Order)
    requires HasInsertPoint(s2) && n.If? && |Blocks(s2)| == k + 3 && s2.insertBlock < k
    ensures var r := LowerElse(s2, n.elseT, k, ord);
            var t := if !r.Continue? then r else LowerThen(r.st, n.statements, k, ord);
            var j := s2.insertBlock;
            t.Continue? ==>
              && |Blocks(t.st)| > k + 2
              && Blocks(t.st)[k].name == Blocks(s2)[k].name
              && Blocks(t.st)[k + 1] == Blocks(s2)[k + 1]
              && Blocks(t.st)[k + 2].name == Blocks(s2)[k + 2].name
              && Blocks(t.st)[j] == Blocks(s2)[j]
              && HasTerminator(Blocks(t.st)[k])
              && HasTerminator(Blocks(t.st)[k + 2])
              && t.st.insertBlock == k + 1
  {
    ElseFrame(s2, n.elseT, k, ord);
    ElseEnds(s2, n.elseT, k, ord);
    var r := LowerElse(s2, n.elseT, k, ord);
    if r.Continue? {
      ThenFrame(r.st, n.statements, k, ord);
    }
  }

  /**
   * An `if` whose else arm is STOP: blocks `if_then` (k) and `if_merge`
   * (k + 1) only, besides those the then arm adds; the block it started in
   * ends with a branch on the condition to k or k + 1; block k ends in a
   * terminator; the insertion point is left in the merge block.
   */
  lemma {:induction false} IfNoElseShape(st: State, n: Node, sc: State, cond: Operand, ord: Order)
    requires HasInsertPoint(st) && n.If? && n.elseT.Some? && n.elseT.value.Stop?
    requires EmitCondition(AddBlock(AddBlock(st, "if_then"), "if_merge"), n.cond, ord) == Some((sc, cond))
    ensures var r := LowerIf(st, n, ord);
            var f, k, j := st.insertFn, |Blocks(st)|, st.insertBlock;
            r.Continue? ==>
              && |Blocks(r.st)| > k + 1
              && Blocks(r.st)[k].name == "if_then"
              && Blocks(r.st)[k + 1] == Block("if_merge", [])
              && Blocks(r.st)[j].insts != []
              && LastInst(Blocks(r.st)[j]) == CondBr(cond, BlockAt(f, k), BlockAt(f, k + 1))
              && HasTerminator(Blocks(r.st)[k])
              && r.st.insertBlock == k + 1
  {
    var f, k := st.insertFn, |Blocks(st)|;
    Prologue(st, "if_then", "if_merge", n.cond, sc, cond, ord);
    var s2 := Emit(sc, [CondBr(cond, BlockAt(f, k), BlockAt(f, k + 1))]);
    ThenFrame(s2, n.statements, k, ord);
    IfNoElseUnfold(st, n, sc, cond, ord);
  }

  /**
   * The then arm of an `if` whose else arm is STOP is closed as ArmClosed
   * says; when the then arm is STOP too, the `if` adds exactly the two
   * blocks `if_then` and `if_merge`.
   */
  lemma {:induction false} IfNoElseCloses(st: State, n: Node, sc: State, cond: Operand, ord: Order)
    requires HasInsertPoint(st) && n.If? && n.elseT.Some? && n.elseT.value.Stop?
    requires EmitCondition(AddBlock(AddBlock(st, "if_then"), "if_merge"), n.cond, ord) == Some((sc, cond))
    ensures var r := LowerIf(st, n, ord);
            var f, k := st.insertFn, |Blocks(st)|;
            var s2 := Emit(sc, [CondBr(cond, BlockAt(f, k), BlockAt(f, k + 1))]);
            var arm := LowerStmt(MoveTo(s2, k), n.statements, ord);
            r.Continue? ==>
              && arm.Ok? && k < |Blocks(arm.st)|
              && ArmClosed(arm.st, r.st, k, BlockAt(f, k + 1))
              && (n.statements == Some(Stop(None)) ==> |Blocks(r.st)| == k + 2)
  {
    var f, k := st.insertFn, |Blocks(st)|;
    Prologue(st, "if_then", "if_merge", n.cond, sc, cond, ord);
    var s2 := Emit(sc, [CondBr(cond, BlockAt(f, k), BlockAt(f, k + 1))]);
    ThenCloses(s2, n.statements, k, ord);
    IfNoElseUnfold(st, n, sc, cond, ord);
    if n.statements == Some(Stop(None)) {
      StopChain(MoveTo(s2, k), ord);
    }
  }

  /**
   * The shape of an `if`, with and without an else arm: the branch of the
   * block it started in goes to the merge block on a false condition
   * exactly when the else arm is STOP.
   */
  lemma {:induction false} IfShape(st: State, n: Node, ord: Order)
    requires HasInsertPoint(st) && n.If?
    ensures var r := LowerIf(st, n, ord);
            var f, k, j := st.insertFn, |Blocks(st)|, st.insertBlock;
            r.Continue? ==>
              && n.elseT.Some?
              && |Blocks(r.st)| > k + 1
              && Blocks(r.st)[k].name == "if_then"
              && Blocks(r.st)[k + 1] == Block("if_merge", [])
              && Blocks(r.st)[j].insts != []
              && LastInst(Blocks(r.st)[j]).CondBr?
              && LastInst(Blocks(r.st)[j]).ifTrue == BlockAt(f, k)
              && (LastInst(Blocks(r.st)[j]).ifFalse == BlockAt(f, k + 1) <==> n.elseT.value.Stop?)
              && (!n.elseT.value.Stop? ==> |Blocks(r.st)| > k + 2 && Blocks(r.st)[k + 2].name == "if_else")
              && HasTerminator(Blocks(r.st)[k])
              && r.st.insertBlock == k + 1
  {
    var c := EmitCondition(AddBlock(AddBlock(st, "if_then"), "if_merge"), n.cond, ord);
    if c.Some? && n.elseT.Some? {
      if n.elseT.value.Stop? {
        IfNoElseShape(st, n, c.value.0, c.value.1, ord);
      } else {
        IfElseShape(st, n, c.value.0, c.value.1, ord);
      }
    }
  }

  /**
   * A while loop: blocks `while_then` (k) and `while_merge` (k + 1); the
   * condition is lowered twice, first in the block the loop started in,
   * then again from the state the body left, in the block where the body
   * ended; each time its value is tested against zero and followed by a
   * branch to k or k + 1; the insertion point is left in k + 1.
   */
  lemma {:induction false} WhileShape(st: State, n: Node, ord: Order)
    requires HasInsertPoint(st) && n.WhileLoop?
    ensures var r := LowerWhile(st, n, ord);
            var f, k, j := st.insertFn, |Blocks(st)|, st.insertBlock;
            var s0 := AddBlock(AddBlock(st, "while_then"), "while_merge");
            r.Continue? ==>
              && |Blocks(r.st)| > k + 1
              && Blocks(r.st)[k].name == "while_then"
              && Blocks(r.st)[k + 1].name == "while_merge"
              && r.st.insertBlock == k + 1
              && EmitExpr(s0, n.inner, ord).Some?
              && EndsInLoopTest(Blocks(r.st)[j], f, k, EmitExpr(s0, n.inner, ord).value.1)
              && var c := EmitCondition(s0, n.inner, ord).value;
                 var s1 := Emit(c.0, [CondBr(c.1, BlockAt(f, k), BlockAt(f, k + 1))]);
                 var body := LowerStmt(MoveTo(s1, k), n.next, ord);
                 && body.Ok?
                 && k <= body.st.insertBlock < |Blocks(r.st)|
                 && body.st.insertBlock != k + 1
                 && EmitExpr(body.st, n.inner, ord).Some?
                 && EndsInLoopTest(Blocks(r.st)[body.st.insertBlock], f, k, EmitExpr(body.st, n.inner, ord).value.1)
  {
    var f, k, j := st.insertFn, |Blocks(st)|, st.insertBlock;
    var c := EmitCondition(AddBlock(AddBlock(st, "while_then"), "while_merge"), n.inner, ord);
    if c.Some? {
      var (sc, cond) := c.value;
      Prologue(st, "while_then", "while_merge", n.inner, sc, cond, ord);
      var s2 := Emit(sc, [CondBr(cond, BlockAt(f, k), BlockAt(f, k + 1))]);
      assert Blocks(s2)[j].insts[..|Blocks(s2)[j].insts| - 1] == Blocks(sc)[j].insts;
      assert EndsInLoopTest(Blocks(s2)[j], f, k, EmitExpr(AddBlock(AddBlock(st, "while_then"), "while_merge"), n.inner, ord).value.1);
      var s3 := MoveTo(s2, k);
      StmtGrows(s3, n.next, ord);
      var r := LowerStmt(s3, n.next, ord);
      if r.Ok? {
        WhileBackEdge(s3, r.st, n.inner, ord);
      }
    }
  }

  /**
   * The second half of a while loop: from the state the body left (which
   * grew from the body block k), the retest of the condition and the
   * branch go into the block where the body ended.
   */
  lemma {:induction false} WhileBackEdge(s3: State, sb: State, e: Link, ord: Order)
    requires HasInsertPoint(s3) && s3.insertBlock + 1 < |Blocks(s3)| && Grows(s3, sb)
    ensures var f, k := s3.insertFn, s3.insertBlock;
            var t := LoopBack(sb, e, k, ord);
            t.Continue? ==>
              && |Blocks(t.st)| == |Blocks(sb)|
              && t.st.insertFn == f
              && t.st.insertBlock == k + 1
              && (forall j :: 0 <= j < |Blocks(s3)| && j != k ==> Blocks(t.st)[j] == Blocks(s3)[j])
              && Blocks(t.st)[k].name == Blocks(s3)[k].name
              && EmitExpr(sb, e, ord).Some?
              && EndsInLoopTest(Blocks(t.st)[sb.insertBlock], f, k, EmitExpr(sb, e, ord).value.1)
              && sb.insertBlock != k + 1 && k <= sb.insertBlock
  {
    var f, k := s3.insertFn, s3.insertBlock;
    var c2 := EmitCondition(sb, e, ord);
    if c2.Some? {
      EmitConditionGrows(sb, e, ord);
      ConditionEnds(sb, e, ord);
      var (sc, cond) := c2.value;
      FrameTrans(s3, sb, sc, k, sb.insertBlock);
      var s4 := Emit(sc, [CondBr(cond, BlockAt(f, k), BlockAt(f, k + 1))]);
      var b := sb.insertBlock;
      assert Blocks(s4)[b].insts[..|Blocks(s4)[b].insts| - 1] == Blocks(sc)[b].insts;
    }
  }

  /**
   * A label: a new block named after it (k), a branch to it from the
   * block the label appears in, the insertion point moved into it, and the
   * label bound to it whether or not the name was bound before.
   */
  lemma {:induction false} LabelShape(st: State, n: Node, ord: Order)
    requires HasInsertPoint(st) && n.Label?
    ensures var r := LowerNode(st, n, ord);
            var f, k, j := st.insertFn, |Blocks(st)|, st.insertBlock;
            && r.Continue?
            && |Blocks(r.st)| == k + 1
            && Blocks(r.st)[k] == Block(n.name, [])
            && Blocks(r.st)[j].insts == Blocks(st)[j].insts + [Br(BlockAt(f, k))]
            && r.st.insertBlock == k
            && n.name in r.st.labels && r.st.labels[n.name] == BlockAt(f, k)
  {
  }

  /**
   * A goto: a branch to the block bound to the label, or, when the label
   * has not been lowered yet, to the null block, which `operator[]` then
   * binds to the label; the insertion point stays in the block, now
   * terminated, so what follows is appended after the branch.
   */
  lemma {:induction false} GotoShape(st: State, n: Node, ord: Order)
    requires HasInsertPoint(st) && n.Goto?
    ensures var r := LowerNode(st, n, ord);
            var j := st.insertBlock;
            && r.Continue?
            && |Blocks(r.st)| == |Blocks(st)|
            && r.st.insertBlock == j
            && Blocks(r.st)[j].insts == Blocks(st)[j].insts + [Br(if n.name in st.labels then st.labels[n.name] else NullBlock)]
            && HasTerminator(Blocks(r.st)[j])
            && n.name in r.st.labels
            && r.st.labels[n.name] == (if n.name in st.labels then st.labels[n.name] else NullBlock)
  {
  }

  /**
   * A goto to a label that comes later in the same chain branches to the
   * null block; the label then rebinds the name to its own block.
   */
  lemma {:induction false} ForwardGoto(st: State, x: string, ord: Order)
    requires HasInsertPoint(st) && x !in st.labels
    ensures var r := LowerStmt(st, Some(Goto(x, Some(Label(x, Some(Stop(None)))))), ord);
            var f, k, j := st.insertFn, |Blocks(st)|, st.insertBlock;
            && r.Ok?
            && Blocks(r.st)[j].insts == Blocks(st)[j].insts + [Br(NullBlock), Br(BlockAt(f, k))]
            && r.st.labels == st.labels[x := BlockAt(f, k)]
  {
    var stop := Some(Stop(None));
    var n := Goto(x, Some(Label(x, stop)));
    var s1, s2 := GotoLabelChain(st, x, ord);
    GotoShape(st, n, ord);
    LabelShape(s1, Label(x, stop), ord);
    assert Blocks(s2)[st.insertBlock] == Blocks(s1)[st.insertBlock].(insts := Blocks(s1)[st.insertBlock].insts + [Br(BlockAt(st.insertFn, |Blocks(st)|))]);
  }

  /** The chain of ForwardGoto: the goto and the label both go on, and STOP ends it. */
  lemma {:induction false} GotoLabelChain(st: State, x: string, ord: Order) returns (s1: State, s2: State)
    requires HasInsertPoint(st)
    ensures var n := Goto(x, Some(Label(x, Some(Stop(None)))));
            && LowerNode(st, n, ord).Continue? && s1 == LowerNode(st, n, ord).st
            && HasInsertPoint(s1)
            && LowerNode(s1, Label(x, Some(Stop(None))), ord).Continue?
            && s2 == LowerNode(s1, Label(x, Some(Stop(None))), ord).st
            && LowerStmt(st, Some(n), ord) == Ok(s2)
  {
    var stop := Some(Stop(None));
    var n := Goto(x, Some(Label(x, stop)));
    s1 := LowerNode(st, n, ord).st;
    s2 := LowerNode(s1, Label(x, stop), ord).st;
    ChainFinishes(s2, Stop(None), ord);
    ChainContinues(s1, Label(x, stop), ord);
    ChainContinues(st, n, ord);
  }

  /**
   * A return: `ret` of the operand the expression lowered to (never
   * `undef`; the null value for the kinds `add_expression` gives no value
   * for) at the end of the block, the flag raised, and the rest of the
   * chain not lowered.
   */
  lemma {:induction false} ReturnShape(st: State, e: Link, succ: Link, succ': Link, ord: Order)
    requires HasInsertPoint(st)
    ensures var r := LowerStmt(st, Some(Return(e, succ)), ord);
            && r == LowerStmt(st, Some(Return(e, succ')), ord)
            && (r.Ok? ==>
                  && r.st.doesReturn
                  && HasInsertPoint(r.st)
                  && Blocks(r.st)[r.st.insertBlock].insts != []
                  && EmitExpr(st, e, ord).Some?
                  && LastInst(Blocks(r.st)[r.st.insertBlock]) == Ret(EmitExpr(st, e, ord).value.1)
                  && LastInst(Blocks(r.st)[r.st.insertBlock]).val != UndefValue)
  {
    if EmitExpr(st, e, ord).Some? {
      LowerExprFacts(st.named, st.nextId, e, ord);
    }
  }

  /**
   * An extern declaration chain: the first variable becomes a new global,
   * bound in the extern table, and nothing else of the chain is lowered.
   */
  lemma {:induction false} ExternChainStops(st: State, x: string, rest: Link, rest': Link, s: Link, s': Link, succ: Link, ord: Order)
    requires HasInsertPoint(st)
    ensures var r := LowerNode(st, Extrn(Some(Variable(x, rest, VarExtrn, s)), succ), ord);
            && r == LowerNode(st, Extrn(Some(Variable(x, rest', VarExtrn, s')), succ), ord)
            && r.Continue?
            && r.st.funcs == st.funcs
            && r.st.globals == st.globals + [x]
            && r.st.extrn == st.extrn[x := GlobalVar(|st.globals|)]
            && r.st.named == st.named
  {
    var v := Variable(x, rest, VarExtrn, s);
    var t := st.(globals := st.globals + [x], extrn := st.extrn[x := GlobalVar(|st.globals|)]);
    assert LowerNode(st, v, ord) == Finish(t);
    assert LowerStmt(st, Some(v), ord) == Ok(t);
    var v' := Variable(x, rest', VarExtrn, s');
    assert LowerNode(st, v', ord) == Finish(t);
    assert LowerStmt(st, Some(v'), ord) == Ok(t);
  }

  /** `auto x0, x1, ...;`: the chain of auto Variable nodes, linked through `next` and ended by STOP. */
  function AutoChain(xs: seq<string>, s: Link): (l: Link)
    ensures l.Some?
  {
    if xs == [] then Some(Stop(None))
    else Some(Variable(xs[0], AutoChain(xs[1..], s), VarAuto, s))
  }

  /** One `alloca` per name, numbered from id. */
  function Allocas(id: nat, xs: seq<string>): (code: seq<Inst>)
    ensures |code| == |xs|
    decreases xs
  {
    if xs == [] then [] else [Alloca(id, xs[0])] + Allocas(id + 1, xs[1..])
  }

  /** The i-th `alloca` of Allocas(id, xs) allocates slot id + i for xs[i]. */
  lemma {:induction false} AllocasAt(id: nat, xs: seq<string>)
    ensures forall i :: 0 <= i < |xs| ==> Allocas(id, xs)[i] == Alloca(id + i, xs[i])
    decreases xs
  {
    if xs != [] {
      AllocasAt(id + 1, xs[1..]);
      forall i | 1 <= i < |xs| ensures Allocas(id, xs)[i] == Alloca(id + i, xs[i]) {
        assert xs[i] == xs[1..][i - 1];
      }
    }
  }

  /** k is the position of the last declaration of x in xs. */
  predicate IsLastDecl(xs: seq<string>, k: int, x: string) {
    && 0 <= k < |xs| && xs[k] == x
    && forall m :: k < m < |xs| ==> xs[m] != x
  }

  /** The position of the last declaration of x in xs, or -1 when xs does not declare x. */
  function LastIndexOf(xs: seq<string>, x: string): (k: int)
    ensures x in xs ==> IsLastDecl(xs, k, x)
    ensures x !in xs ==> k == -1
  {
    if xs == [] then -1
    else
      var k := LastIndexOf(xs[1..], x);
      if k >= 0 then LastDeclAfterHead(xs, k, x); k + 1
      else if xs[0] == x then LastDeclHead(xs); 0
      else -1
  }

  /**
   * From named to named', the names xs were bound to new slots numbered
   * from id: names outside xs kept their bindings, no other name was added,
   * and every name of xs is bound to the slot of its last declaration.
   */
  ghost predicate NamesBound(named: Names, named': Names, id: nat, xs: seq<string>) {
    && (forall y :: y in named && y !in xs ==> y in named' && named'[y] == named[y])
    && (forall y :: y in named' ==> y in named || y in xs)
    && (forall y :: y in xs ==> y in named' && named'[y] == Slot(id + LastIndexOf(xs, y)))
  }

  /**
   * From st to t, an auto chain declaring xs was lowered: one `alloca` per
   * name appended at the insertion point, which did not move; the counter
   * advanced by one per name; the names bound as NamesBound says; and the
   * globals, extern names, labels and return flag untouched.
   */
  ghost predicate AutoBound(st: State, t: State, xs: seq<string>)
    requires HasInsertPoint(st)
  {
    && CodeAppended(st, t, Allocas(st.nextId, xs))
    && t.nextId == st.nextId + |xs|
    && NamesBound(st.named, t.named, st.nextId, xs)
    && t.globals == st.globals && t.extrn == st.extrn
    && t.labels == st.labels && t.doesReturn == st.doesReturn
  }

  /** From st to t, code was appended at the insertion point, which did not move, and no other block changed. */
  ghost predicate CodeAppended(st: State, t: State, code: seq<Inst>)
    requires HasInsertPoint(st)
  {
    var j := st.insertBlock;
    && HasInsertPoint(t) && t.insertFn == st.insertFn && t.insertBlock == j
    && |t.funcs| == |st.funcs| && |Blocks(t)| == |Blocks(st)|
    && Blocks(t)[j].insts == Blocks(st)[j].insts + code
    && (forall i :: 0 <= i < |Blocks(st)| && i != j ==> Blocks(t)[i] == Blocks(st)[i])
  }

  /** A declaration in an auto chain hands its state, after the allocation, to the rest of the chain. */
  lemma {:induction false} AutoChainUnfold(st: State, xs: seq<string>, s: Link, ord: Order)
    requires HasInsertPoint(st) && xs != []
    ensures LowerStmt(st, AutoChain(xs, s), ord) == LowerStmt(Allocate(st, xs[0]), AutoChain(xs[1..], s), ord)
  {
    var n := Variable(xs[0], AutoChain(xs[1..], s), VarAuto, s);
    assert LowerNode(st, n, ord) == LowerVariable(st, n, ord);
  }

  /** Lowering an auto chain declaring xs: it succeeds, as AutoBound says. */
  lemma {:induction false} AutoChainBinds(st: State, xs: seq<string>, s: Link, ord: Order)
    requires HasInsertPoint(st)
    ensures var r := LowerStmt(st, AutoChain(xs, s), ord);
            r.Ok? && AutoBound(st, r.st, xs)
    decreases |xs|
  {
    if xs == [] {
      StopChain(st, ord);
      NothingAllocated(st);
    } else {
      var s1 := Allocate(st, xs[0]);
      AutoChainBinds(s1, xs[1..], s, ord);
      AutoChainUnfold(st, xs, s, ord);
      AllocatesOne(st, xs, s1, LowerStmt(s1, AutoChain(xs[1..], s), ord).st);
    }
  }

  /** An empty auto chain allocates nothing. */
  lemma {:induction false} NothingAllocated(st: State)
    requires HasInsertPoint(st)
    ensures AutoBound(st, st, [])
  {
    assert Allocas(st.nextId, []) == [];
    assert Blocks(st)[st.insertBlock].insts + [] == Blocks(st)[st.insertBlock].insts;
  }

  /** The inductive step of AutoChainBinds: one allocation, then the rest of the chain. */
  lemma {:induction false} AllocatesOne(st: State, xs: seq<string>, s1: State, t: State)
    requires HasInsertPoint(st) && xs != [] && s1 == Allocate(st, xs[0])
    requires AutoBound(s1, t, xs[1..])
    ensures AutoBound(st, t, xs)
  {
    AllocatesCode(st, xs, s1, t);
    assert s1.nextId == st.nextId + 1;
    assert s1.named == st.named[xs[0] := Slot(st.nextId)];
    assert NamesBound(s1.named, t.named, st.nextId + 1, xs[1..]);
    AllocatesNames(st.named, s1.named, t.named, st.nextId, xs);
  }

  /** The code half of the inductive step of AutoChainBinds: one `alloca`, then the rest. */
  lemma {:induction false} AllocatesCode(st: State, xs: seq<string>, s1: State, t: State)
    requires HasInsertPoint(st) && xs != [] && s1 == Allocate(st, xs[0])
    requires CodeAppended(s1, t, Allocas(s1.nextId, xs[1..]))
    ensures CodeAppended(st, t, Allocas(st.nextId, xs))
  {
    var j, id := st.insertBlock, st.nextId;
    var b := Blocks(st)[j];
    assert Blocks(s1) == Blocks(st)[j := b.(insts := b.insts + [Alloca(id, xs[0])])];
    assert Allocas(id, xs) == [Alloca(id, xs[0])] + Allocas(id + 1, xs[1..]);
    assert b.insts + [Alloca(id, xs[0])] + Allocas(id + 1, xs[1..]) == b.insts + Allocas(id, xs);
  }

  /** The names half of the inductive step of AutoChainBinds: xs[0] bound to slot id, then the rest. */
  lemma {:induction false} AllocatesNames(named: Names, named1: Names, named': Names, id: nat, xs: seq<string>)
    requires xs != [] && named1 == named[xs[0] := Slot(id)]
    requires NamesBound(named1, named', id + 1, xs[1..])
    ensures NamesBound(named, named', id, xs)
  {
    TailIn(xs);
    forall y | y in xs ensures y in named' && named'[y] == Slot(id + LastIndexOf(xs, y)) {
      var i :| 0 <= i < |xs| && xs[i] == y;
      if i > 0 {
        assert xs[1..][i - 1] == y;
      }
    }
  }

  /** Every name declared in xs[1..] is declared in xs. */
  lemma {:induction false} TailIn(xs: seq<string>)
    requires xs != []
    ensures forall y :: y in xs[1..] ==> y in xs
  {
    forall y | y in xs[1..] ensures y in xs {
      var j :| 0 <= j < |xs| - 1 && xs[1..][j] == y;
      assert xs[j + 1] == y;
    }
  }

  /** The last declaration of x in xs[1..] is its last in xs, one position on. */
  lemma {:induction false} LastDeclAfterHead(xs: seq<string>, k: int, x: string)
    requires xs != [] && IsLastDecl(xs[1..], k, x)
    ensures IsLastDecl(xs, k + 1, x)
  {
    forall m | k + 1 < m < |xs| ensures xs[m] != x {
      assert xs[m] == xs[1..][m - 1];
    }
  }

  /** A head not declared again is its own last declaration. */
  lemma {:induction false} LastDeclHead(xs: seq<string>)
    requires xs != [] && xs[0] !in xs[1..]
    ensures IsLastDecl(xs, 0, xs[0])
  {
    forall m | 0 < m < |xs| ensures xs[m] != xs[0] {
      assert xs[m] == xs[1..][m - 1];
    }
  }

  /**
   * An `auto` declaration of xs: lowering goes on to its successor, in the
   * state AutoBound describes; when no two names shared a slot before, the
   * new slots are held by no name bound before, two distinct names of xs
   * get distinct slots, and still no two names share a slot.
   */
  lemma {:induction false} AutoDeclarationBinds(st: State, xs: seq<string>, s: Link, succ: Link, ord: Order)
    requires HasInsertPoint(st)
    ensures var r := LowerNode(st, Auto(AutoChain(xs, s), succ), ord);
            && r.Continue?
            && AutoBound(st, r.st, xs)
            && (forall i, k :: 0 <= i < |xs| && 0 <= k < |xs| && xs[i] != xs[k] ==> r.st.named[xs[i]] != r.st.named[xs[k]])
            && (SlotsFresh(TablesOf(st)) ==>
                  && (forall y, i :: y in st.named && 0 <= i < |xs| ==> st.named[y] != r.st.named[xs[i]])
                  && SlotsFresh(TablesOf(r.st)))
  {
    AutoChainBinds(st, xs, s, ord);
    var t := LowerStmt(st, AutoChain(xs, s), ord).st;
    assert LowerNode(st, Auto(AutoChain(xs, s), succ), ord) == Continue(t);
    NewSlotsDistinct(st.named, t.named, st.nextId, xs);
  }

  /**
   * The names of xs bound as NamesBound says hold distinct slots when they
   * are distinct; when every slot bound before is below id and no two names
   * shared one, none of the new slots was held before and still no two names
   * share one, every slot being below id + |xs|.
   */
  lemma {:induction false} NewSlotsDistinct(named: Names, named': Names, id: nat, xs: seq<string>)
    requires NamesBound(named, named', id, xs)
    ensures forall i, k :: 0 <= i < |xs| && 0 <= k < |xs| && xs[i] != xs[k] ==> named'[xs[i]] != named'[xs[k]]
    ensures SlotsFresh(Tabs(named, id, map[], false)) ==>
              && (forall y, i :: y in named && 0 <= i < |xs| ==> named[y] != named'[xs[i]])
              && SlotsFresh(Tabs(named', id + |xs|, map[], false))
  {
    forall i, k | 0 <= i < |xs| && 0 <= k < |xs| && xs[i] != xs[k]
      ensures named'[xs[i]] != named'[xs[k]]
    {
      assert xs[LastIndexOf(xs, xs[i])] != xs[LastIndexOf(xs, xs[k])];
    }
    if SlotsFresh(Tabs(named, id, map[], false)) {
      forall a, b | a in named' && b in named' && a != b && named'[a] != NullHandle
        ensures named'[a] != named'[b]
      {
        if a in xs && b in xs {
          assert xs[LastIndexOf(xs, a)] != xs[LastIndexOf(xs, b)];
        }
      }
    }
  }

  /** STOP ends a chain and changes nothing. */
  lemma {:induction false} StopChain(st: State, ord: Order)
    requires HasInsertPoint(st)
    ensures LowerStmt(st, Some(Stop(None)), ord) == Ok(st)
  {
    assert LowerNode(st, Stop(None), ord) == Finish(st);
  }



  /**
   * An `if` whose then arm is itself an `if` (here with empty arms):
   * the outer then block ends in the inner branch, so the fall-through
   * test finds a terminator there and adds no branch to the outer merge
   * block, while the inner merge block, where the insertion point really
   * was, is left empty and without a terminator for good.
   */
  lemma {:induction false} NestedIfLeavesMergeOpen(st: State, c1: Link, c2: Link, succ: Link, ord: Order)
    requires HasInsertPoint(st)
    ensures var stop := Some(Stop(None));
            var inner := If(c2, stop, stop, stop);
            var r := LowerStmt(st, Some(If(c1, Some(inner), stop, succ)), ord);
            var k := |Blocks(st)|;
            r.Ok? ==> |Blocks(r.st)| > k + 3 && Blocks(r.st)[k + 3] == Block("if_merge", [])
  {
    var stop := Some(Stop(None));
    var n := If(c1, Some(If(c2, stop, stop, stop)), stop, succ);
    var k := |Blocks(st)|;
    NestedOuter(st, c1, c2, succ, ord);
    var q := LowerNode(st, n, ord);
    if q.Continue? {
      ChainContinues(st, n, ord);
      MergeStaysOpen(q.st, succ, k, ord);
    }
  }

  /** The outer `if` of NestedIfLeavesMergeOpen, up to its successor. */
  lemma {:induction false} NestedOuter(st: State, c1: Link, c2: Link, succ: Link, ord: Order)
    requires HasInsertPoint(st)
    ensures var stop := Some(Stop(None));
            var q := LowerNode(st, If(c1, Some(If(c2, stop, stop, stop)), stop, succ), ord);
            var k := |Blocks(st)|;
            && !q.Finish?
            && (q.Continue? ==>
                  && q.st.insertBlock == k + 1
                  && |Blocks(q.st)| > k + 3
                  && Blocks(q.st)[k + 3] == Block("if_merge", []))
  {
    var stop := Some(Stop(None));
    var inner := If(c2, stop, stop, stop);
    var n := If(c1, Some(inner), stop, succ);
    var f, k := st.insertFn, |Blocks(st)|;
    var c := EmitCondition(AddBlock(AddBlock(st, "if_then"), "if_merge"), c1, ord);
    if c.Some? {
      var (sc, cond) := c.value;
      Prologue(st, "if_then", "if_merge", c1, sc, cond, ord);
      IfNoElseUnfold(st, n, sc, cond, ord);
      var s2 := Emit(sc, [CondBr(cond, BlockAt(f, k), BlockAt(f, k + 1))]);
      NestedThen(s2, c2, k, ord);
    }
  }

  /** Whatever follows the outer `if` leaves its empty merge block (k + 3) as it is. */
  lemma {:induction false} MergeStaysOpen(s: State, succ: Link, k: nat, ord: Order)
    requires HasInsertPoint(s) && s.insertBlock != k + 3
    requires |Blocks(s)| > k + 3 && Blocks(s)[k + 3] == Block("if_merge", [])
    ensures var r := LowerStmt(s, succ, ord);
            r.Ok? ==> |Blocks(r.st)| > k + 3 && Blocks(r.st)[k + 3] == Block("if_merge", [])
  {
    StmtGrows(s, succ, ord);
  }

  /** The then half of the outer `if` of NestedIfLeavesMergeOpen. */
  lemma {:induction false} NestedThen(s2: State, c2: Link, k: nat, ord: Order)
    requires HasInsertPoint(s2) && |Blocks(s2)| == k + 2
    ensures var stop := Some(Stop(None));
            var t := LowerThen(s2, Some(If(c2, stop, stop, stop)), k, ord);
            t.Continue? ==>
              && |Blocks(t.st)| > k + 3
              && Blocks(t.st)[k + 3] == Block("if_merge", [])
              && t.st.insertBlock == k + 1
  {
    InnerIfChain(MoveTo(s2, k), c2, ord);
  }

  /**
   * The chain holding only the inner `if` of NestedIfLeavesMergeOpen: the
   * block it starts in (j) ends in the conditional branch, and its merge
   * block is the second block it adds.
   */
  lemma {:induction false} InnerIfChain(s3: State, c2: Link, ord: Order)
    requires HasInsertPoint(s3)
    ensures var stop := Some(Stop(None));
            var r := LowerStmt(s3, Some(If(c2, stop, stop, stop)), ord);
            var k, j := |Blocks(s3)|, s3.insertBlock;
            r.Ok? ==>
              && |Blocks(r.st)| > k + 1
              && Blocks(r.st)[k + 1] == Block("if_merge", [])
              && HasTerminator(Blocks(r.st)[j])
  {
    var stop := Some(Stop(None));
    var inner := If(c2, stop, stop, stop);
    var q := LowerNode(s3, inner, ord);
    if q.Continue? {
      assert q == LowerIf(s3, inner, ord);
      IfShape(s3, inner, ord);
      ChainContinues(s3, inner, ord);
      ChainFinishes(q.st, Stop(None), ord);
      assert LowerStmt(s3, Some(inner), ord) == Ok(q.st);
    } else {
      IfFollows(s3, inner, ord);
    }
  }
}
