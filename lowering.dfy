/**
 * The lowering pass of src/llvm_ir.cpp as functions on the code
 * generator's state: which instructions each node emits, which blocks it
 * creates, where it leaves the insertion point, which names it binds, and
 * when it aborts. The class LlvmIr.CodeGen performs the same steps in place
 * and is proved to agree with these functions.
 */
module Lowering {
  import opened Wrappers
  import opened Words
  import opened Ast
  import opened Ir
  import opened Semantics

  type Names = map<string, Handle>

  /**
   * Everything the pass reads and writes: the module's functions and
   * globals, the builder's insertion point (function, block), the three
   * global tables, the `functionDoesReturn` flag, and the next unused
   * identity for a new value or stack slot.
   */
  datatype State = State(
    funcs: seq<Func>,
    globals: seq<string>,
    insertFn: nat,
    insertBlock: nat,
    named: Names,
    extrn: Names,
    labels: map<string, BlockRef>,
    doesReturn: bool,
    nextId: nat)

  /** The state before `generate_llvm_ir`: an empty module and empty tables. */
  const Initial: State := State([], [], 0, 0, map[], map[], map[], false, 0)

  /** How lowering ends: normally, with a `fatal_error`, or in undefined behaviour. */
  datatype Outcome = Ok(st: State) | Fatal(msg: string) | Undefined

  /** How one node ends: go on with its successor, stop the chain, or abort. */
  datatype NodeOutcome = Continue(st: State) | Finish(st: State) | StepFatal(msg: string) | StepUndefined

  /** What lowering an expression produces: its code and the operand holding its value. */
  datatype ExprOut =
    | ExprOk(named: Names, nextId: nat, code: seq<Inst>, val: Operand)
    | ExprUndefined

  // ---------------------------------------------------------------------
  // Builder primitives

  /** `std::map::operator[]`: the entry for key, inserting the null value first if absent. */
  function Subscript<V>(m: map<string, V>, key: string, absent: V): (map<string, V>, V) {
    if key in m then (m, m[key]) else (m[key := absent], absent)
  }

  predicate HasInsertPoint(st: State) {
    st.insertFn < |st.funcs| && st.insertBlock < |st.funcs[st.insertFn].blocks|
  }

  /** The blocks of the function holding the insertion point. */
  function Blocks(st: State): seq<Block>
    requires st.insertFn < |st.funcs|
  {
    st.funcs[st.insertFn].blocks
  }

  function WithBlocks(st: State, blocks: seq<Block>): State
    requires st.insertFn < |st.funcs|
  {
    st.(funcs := st.funcs[st.insertFn := st.funcs[st.insertFn].(blocks := blocks)])
  }

  /** `Builder->Create...`: appends instructions at the insertion point. */
  function Emit(st: State, insts: seq<Inst>): State
    requires HasInsertPoint(st)
  {
    var b := Blocks(st)[st.insertBlock];
    WithBlocks(st, Blocks(st)[st.insertBlock := b.(insts := b.insts + insts)])
  }

  /** `BasicBlock::Create(ctx, name, parent)`: a new empty block at the end of the current function. */
  function AddBlock(st: State, name: string): State
    requires st.insertFn < |st.funcs|
  {
    WithBlocks(st, Blocks(st) + [Block(name, [])])
  }

  /** `Builder->SetInsertPoint(block)` for a block of the current function. */
  function MoveTo(st: State, index: nat): State
    requires st.insertFn < |st.funcs| && index < |Blocks(st)|
  {
    st.(insertBlock := index)
  }

  /** Lowering stays in the function it started in and removes no block. */
  predicate StaysIn(st: State, st': State) {
    && st.insertFn < |st.funcs|
    && HasInsertPoint(st')
    && st'.insertFn == st.insertFn
    && |st'.funcs| == |st.funcs|
    && |Blocks(st')| >= |Blocks(st)|
  }

  // ---------------------------------------------------------------------
  // Expressions: `add_expression`

  /** `ConstantInt::get(i64, node->integer)`: the C int, sign-extended. */
  function Constant(i: Int32): Word {
    Wrap(i as int)
  }

  /** The instructions that combine two operand values, with the next unused identity. */
  function Combine(op: BinaryOp, l: Operand, r: Operand, id: nat): (seq<Inst>, Operand, nat) {
    match op
    case OpAdd => ([Arith(id, AddOp, l, r)], Reg(id), id + 1)
    case OpSubtract => ([Arith(id, SubOp, l, r)], Reg(id), id + 1)
    case OpMultiply => ([Arith(id, MulOp, l, r)], Reg(id), id + 1)
    case OpDivide => ([Arith(id, SDivOp, l, r)], Reg(id), id + 1)
    case OpGtEq => Compare(SgePred, l, r, id)
    case OpLtEq => Compare(SlePred, l, r, id)
    case OpGreater => Compare(SgtPred, l, r, id)
    case OpLess => Compare(SltPred, l, r, id)
    case OpEquals => Compare(EqPred, l, r, id)
    case OpNEquals => Compare(NePred, l, r, id)
  }

  /** `CreateICmp...` followed by `CreateZExt` to i64. */
  function Compare(p: Pred, l: Operand, r: Operand, id: nat): (seq<Inst>, Operand, nat) {
    ([ICmp(id, p, l, r), ZExt(id + 1, Reg(id))], Reg(id + 1), id + 2)
  }

  /**
   * `add_expression`: the code for an expression, emitted in order, and
   * the operand that holds its value. Names are looked up with
   * `operator[]`, so an unbound name is entered as null and yields the null
   * handle. Kinds without a case yield the null value and emit nothing.
   */
  function LowerExpr(named: Names, nextId: nat, e: Link, ord: Order): ExprOut
    decreases e
  {
    match e
    case None => ExprUndefined
    case Some(n) =>
      if IsBinary(n) then
        var op := OperatorOf(n);
        var first := if ord(op) then n.left else n.right;
        var second := if ord(op) then n.right else n.left;
        var a := LowerExpr(named, nextId, first, ord);
        if a.ExprUndefined? then ExprUndefined
        else
          var b := LowerExpr(a.named, a.nextId, second, ord);
          if b.ExprUndefined? then ExprUndefined
          else
            var c := if ord(op) then Combine(op, a.val, b.val, b.nextId) else Combine(op, b.val, a.val, b.nextId);
            ExprOk(b.named, c.2, a.code + b.code + c.0, c.1)
      else
        match n
        case Not(inner, _) =>
          var a := LowerExpr(named, nextId, inner, ord);
          if a.ExprUndefined? then ExprUndefined
          else
            var c := Compare(EqPred, a.val, Imm(0), a.nextId);
            ExprOk(a.named, c.2, a.code + c.0, c.1)
        case Inc(x, _) =>
          var (named1, h) := Subscript(named, x, NullHandle);
          var (named2, h2) := Subscript(named1, x, NullHandle);
          var code := [Load(nextId, h), Arith(nextId + 1, AddOp, Reg(nextId), Imm(1)),
                       Store(Reg(nextId + 1), h2), Arith(nextId + 2, SubOp, Reg(nextId + 1), Imm(1))];
          ExprOk(named2, nextId + 3, code, Reg(nextId + 2))
        case Dec(x, _) =>
          var (named1, h) := Subscript(named, x, NullHandle);
          var (named2, h2) := Subscript(named1, x, NullHandle);
          var code := [Load(nextId, h), Arith(nextId + 1, SubOp, Reg(nextId), Imm(1)),
                       Store(Reg(nextId + 1), h2), Arith(nextId + 2, AddOp, Reg(nextId + 1), Imm(1))];
          ExprOk(named2, nextId + 3, code, Reg(nextId + 2))
        case Number(i, _) => ExprOk(named, nextId, [], Imm(Constant(i)))
        case Variable(x, _, _, _) =>
          var (named1, h) := Subscript(named, x, NullHandle);
          ExprOk(named1, nextId + 1, [Load(nextId, h)], Reg(nextId))
        case _ => ExprOk(named, nextId, [], NullValue)
  }

  /** Lowers an expression at the insertion point. */
  function EmitExpr(st: State, e: Link, ord: Order): (r: Option<(State, Operand)>)
    requires HasInsertPoint(st)
    ensures r.Some? ==> StaysIn(st, r.value.0) && r.value.0.insertBlock == st.insertBlock && |Blocks(r.value.0)| == |Blocks(st)|
  {
    var r := LowerExpr(st.named, st.nextId, e, ord);
    if r.ExprUndefined? then None
    else Some((Emit(st.(named := r.named, nextId := r.nextId), r.code), r.val))
  }

  /** `CreateICmpNE(add_expression(cond), 0)`: the i1 a branch tests. */
  function EmitCondition(st: State, cond: Link, ord: Order): (r: Option<(State, Operand)>)
    requires HasInsertPoint(st)
    ensures r.Some? ==> StaysIn(st, r.value.0) && r.value.0.insertBlock == st.insertBlock && |Blocks(r.value.0)| == |Blocks(st)|
  {
    var r := EmitExpr(st, cond, ord);
    if r.None? then None
    else
      var (s, v) := r.value;
      Some((Emit(s.(nextId := s.nextId + 1), [ICmp(s.nextId, NePred, v, Imm(0))]), Reg(s.nextId)))
  }

  // ---------------------------------------------------------------------
  // Statements: `add_statement`

  /** The outcome of a nested chain, as a step that goes on with the successor. */
  function Chained(r: Outcome): NodeOutcome {
    match r
    case Ok(s) => Continue(s)
    case Fatal(m) => StepFatal(m)
    case Undefined => StepUndefined
  }

  /** The outcome of a nested chain, as a step that stops the chain. */
  function Ended(r: Outcome): NodeOutcome {
    match r
    case Ok(s) => Finish(s)
    case Fatal(m) => StepFatal(m)
    case Undefined => StepUndefined
  }

  /**
   * `add_statement` on a chain: lowers the node, then its successor when
   * the node goes on to it. A null node is undefined behaviour.
   */
  function LowerStmt(st: State, l: Link, ord: Order): (r: Outcome)
    requires HasInsertPoint(st)
    ensures r.Ok? ==> StaysIn(st, r.st)
    decreases l, 4
  {
    match l
    case None => Undefined
    case Some(n) =>
      match LowerNode(st, n, ord)
      case Continue(s1) => LowerStmt(s1, n.successor, ord)
      case Finish(s1) => Ok(s1)
      case StepFatal(m) => Fatal(m)
      case StepUndefined => Undefined
  }

  /** A node that lets lowering go on hands its state to its successor. */
  lemma {:induction false} ChainContinues(st: State, n: Node, ord: Order)
    requires HasInsertPoint(st) && LowerNode(st, n, ord).Continue?
    ensures LowerStmt(st, Some(n), ord) == LowerStmt(LowerNode(st, n, ord).st, n.successor, ord)
  {
  }

  /** A node that ends its chain makes the chain's result. */
  lemma {:induction false} ChainFinishes(st: State, n: Node, ord: Order)
    requires HasInsertPoint(st) && LowerNode(st, n, ord).Finish?
    ensures LowerStmt(st, Some(n), ord) == Ok(LowerNode(st, n, ord).st)
  {
  }

  /** The work `add_statement` does for one node, up to the call on its successor. */
  function LowerNode(st: State, n: Node, ord: Order): (r: NodeOutcome)
    requires HasInsertPoint(st)
    ensures (r.Continue? || r.Finish?) ==> StaysIn(st, r.st)
    decreases n, 3
  {
    match n
    case Stop(_) => Finish(st)
    case Auto(next, _) => Chained(LowerStmt(st, next, ord))
    case Extrn(next, _) => Chained(LowerStmt(st, next, ord))
    case Variable(_, _, _, _) => LowerVariable(st, n, ord)
    case Assignment(title, value, _) =>
      var r := EmitExpr(st, value, ord);
      if r.None? then StepUndefined
      else
        var (s1, v) := r.value;
        var (named, h) := Subscript(s1.named, title, NullHandle);
        Continue(Emit(s1.(named := named), [Store(v, h)]))
    case WhileLoop(_, _, _) => LowerWhile(st, n, ord)
    case If(_, _, _, _) => LowerIf(st, n, ord)
    case Label(name, _) =>
      var f, k := st.insertFn, |Blocks(st)|;
      var s1 := AddBlock(st, name).(labels := st.labels[name := BlockAt(f, k)]);
      Continue(MoveTo(Emit(s1, [Br(BlockAt(f, k))]), k))
    case Goto(name, _) =>
      var (labels, target) := Subscript(st.labels, name, NullBlock);
      Continue(Emit(st.(labels := labels), [Br(target)]))
    case Return(value, _) =>
      var r := EmitExpr(st, value, ord);
      if r.None? then StepUndefined
      else Finish(Emit(r.value.0, [Ret(r.value.1)]).(doesReturn := true))
    case Inc(x, _) => LowerStep(st, x, AddOp)
    case Dec(x, _) => LowerStep(st, x, SubOp)
    case _ => StepFatal("unknown statement.")
  }

  /**
   * A variable introduction: an auto name gets a fresh stack slot in
   * `NamedValues` and the chain goes on; an extern name becomes a global in
   * `ExtrnValues` and the rest of the chain is not lowered.
   */
  function LowerVariable(st: State, n: Node, ord: Order): (r: NodeOutcome)
    requires HasInsertPoint(st) && n.Variable?
    ensures (r.Continue? || r.Finish?) ==> StaysIn(st, r.st)
    decreases n, 2
  {
    if n.variableType == VarAuto then
      Ended(LowerStmt(Allocate(st, n.title), n.next, ord))
    else
      Finish(st.(globals := st.globals + [n.title], extrn := st.extrn[n.title := GlobalVar(|st.globals|)]))
  }

  /** `NamedValues[x] = CreateAlloca(...)`: a new stack slot at the insertion point, bound to x. */
  function Allocate(st: State, x: string): (s: State)
    requires HasInsertPoint(st)
    ensures StaysIn(st, s)
  {
    var s1 := Emit(st, [Alloca(st.nextId, x)]);
    s1.(named := s1.named[x := Slot(st.nextId)], nextId := st.nextId + 1)
  }

  /** The statement forms of increment and decrement: load, add or subtract one, store. */
  function LowerStep(st: State, x: string, op: ArithOp): (r: NodeOutcome)
    requires HasInsertPoint(st)
    ensures r.Continue? && StaysIn(st, r.st)
  {
    var (named1, h) := Subscript(st.named, x, NullHandle);
    var (named2, h2) := Subscript(named1, x, NullHandle);
    var id := st.nextId;
    Continue(Emit(st.(named := named2, nextId := id + 2),
      [Load(id, h), Arith(id + 1, op, Reg(id), Imm(1)), Store(Reg(id + 1), h2)]))
  }

  /**
   * A while loop: blocks `while_then` (k) and `while_merge` (k + 1), the
   * condition tested before entry and again after the body, both tests
   * branching to k or k + 1, and the insertion point left in k + 1.
   */
  function LowerWhile(st: State, n: Node, ord: Order): (r: NodeOutcome)
    requires HasInsertPoint(st) && n.WhileLoop?
    ensures (r.Continue? || r.Finish?) ==> StaysIn(st, r.st)
    decreases n, 2
  {
    var f, k := st.insertFn, |Blocks(st)|;
    var c := EmitCondition(AddBlock(AddBlock(st, "while_then"), "while_merge"), n.inner, ord);
    if c.None? then StepUndefined
    else
      var s1 := Emit(c.value.0, [CondBr(c.value.1, BlockAt(f, k), BlockAt(f, k + 1))]);
      var r := LowerStmt(MoveTo(s1, k), n.next, ord);
      if !r.Ok? then Chained(r) else LoopBack(r.st, n.inner, k, ord)
  }

  /** A `while` loop, once the condition is lowered: the body in block k, then the retest. */
  lemma {:induction false} WhileUnfold(st: State, n: Node, sc: State, cond: Operand, ord: Order)
    requires HasInsertPoint(st) && n.WhileLoop?
    requires EmitCondition(AddBlock(AddBlock(st, "while_then"), "while_merge"), n.inner, ord) == Some((sc, cond))
    ensures var f, k := st.insertFn, |Blocks(st)|;
            var s1 := Emit(sc, [CondBr(cond, BlockAt(f, k), BlockAt(f, k + 1))]);
            && HasInsertPoint(s1) && k + 1 < |Blocks(s1)|
            && LowerWhile(st, n, ord)
               == (var r := LowerStmt(MoveTo(s1, k), n.next, ord);
                   if !r.Ok? then Chained(r) else LoopBack(r.st, n.inner, k, ord))
  {
  }

  /**
   * The end of a loop body: the condition tested again, a branch to the
   * body block k or the merge block k + 1, and the insertion point moved
   * to k + 1.
   */
  function LoopBack(st: State, cond: Link, k: nat, ord: Order): (r: NodeOutcome)
    requires HasInsertPoint(st) && k + 1 < |Blocks(st)|
    ensures r.Continue? || r.StepUndefined?
    ensures r.Continue? ==> StaysIn(st, r.st)
  {
    var f := st.insertFn;
    var c := EmitCondition(st, cond, ord);
    if c.None? then StepUndefined
    else Continue(MoveTo(Emit(c.value.0, [CondBr(c.value.1, BlockAt(f, k), BlockAt(f, k + 1))]), k + 1))
  }

  /**
   * An if: blocks `if_then` (k) and `if_merge` (k + 1), and `if_else`
   * (k + 2) only when the else arm is not the STOP sentinel. The else arm is
   * lowered before the then arm.
   */
  function LowerIf(st: State, n: Node, ord: Order): (r: NodeOutcome)
    requires HasInsertPoint(st) && n.If?
    ensures (r.Continue? || r.Finish?) ==> StaysIn(st, r.st)
    decreases n, 2
  {
    var f, k := st.insertFn, |Blocks(st)|;
    var s1 := AddBlock(AddBlock(st, "if_then"), "if_merge");
    var c := EmitCondition(s1, n.cond, ord);
    if c.None? || n.elseT.None? then StepUndefined
    else if !n.elseT.value.Stop? then
      var s2 := Emit(AddBlock(c.value.0, "if_else"), [CondBr(c.value.1, BlockAt(f, k), BlockAt(f, k + 2))]);
      var r := LowerElse(s2, n.elseT, k, ord);
      if !r.Continue? then r else LowerThen(r.st, n.statements, k, ord)
    else
      LowerThen(Emit(c.value.0, [CondBr(c.value.1, BlockAt(f, k), BlockAt(f, k + 1))]), n.statements, k, ord)
  }

  /** An `if` without an else arm, once the condition is lowered: the then arm. */
  lemma {:induction false} IfNoElseUnfold(st: State, n: Node, sc: State, cond: Operand, ord: Order)
    requires HasInsertPoint(st) && n.If? && n.elseT.Some? && n.elseT.value.Stop?
    requires EmitCondition(AddBlock(AddBlock(st, "if_then"), "if_merge"), n.cond, ord) == Some((sc, cond))
    ensures var f, k := st.insertFn, |Blocks(st)|;
            && HasInsertPoint(sc) && k + 1 < |Blocks(sc)|
            && LowerIf(st, n, ord) == LowerThen(Emit(sc, [CondBr(cond, BlockAt(f, k), BlockAt(f, k + 1))]), n.statements, k, ord)
  {
  }
  /** An `if` with an else arm, once the condition is lowered: the else arm in a third block, then the then arm. */
  lemma {:induction false} IfElseUnfold(st: State, n: Node, sc: State, cond: Operand, ord: Order)
    requires HasInsertPoint(st) && n.If? && n.elseT.Some? && !n.elseT.value.Stop?
    requires EmitCondition(AddBlock(AddBlock(st, "if_then"), "if_merge"), n.cond, ord) == Some((sc, cond))
    ensures var f, k := st.insertFn, |Blocks(st)|;
            var s2 := Emit(AddBlock(sc, "if_else"), [CondBr(cond, BlockAt(f, k), BlockAt(f, k + 2))]);
            && HasInsertPoint(s2) && k + 2 < |Blocks(s2)|
            && LowerIf(st, n, ord) == (var r := LowerElse(s2, n.elseT, k, ord); if !r.Continue? then r else LowerThen(r.st, n.statements, k, ord))
  {
  }

  /**
   * The `else` half of an `if`: lower the arm in block k + 2 and branch to
   * the merge block k + 1 unless block k + 2 already ends in a terminator;
   * the insertion point stays where the arm left it.
   */
  function LowerElse(st: State, elseArm: Link, k: nat, ord: Order): (r: NodeOutcome)
    requires HasInsertPoint(st) && k + 2 < |Blocks(st)|
    ensures (r.Continue? || r.Finish?) ==> StaysIn(st, r.st)
    decreases elseArm, 5
  {
    var f := st.insertFn;
    var r := LowerStmt(MoveTo(st, k + 2), elseArm, ord);
    if !r.Ok? then Chained(r)
    else
      // the check reads the else block, not the insertion point
      Continue(if HasTerminator(Blocks(r.st)[k + 2]) then r.st else Emit(r.st, [Br(BlockAt(f, k + 1))]))
  }

  /**
   * The `then` half of an `if`: lower the arm in block k, branch to the
   * merge block k + 1 unless block k already ends in a terminator, and
   * continue in the merge block.
   */
  function LowerThen(st: State, thenArm: Link, k: nat, ord: Order): (r: NodeOutcome)
    requires HasInsertPoint(st) && k + 1 < |Blocks(st)|
    ensures (r.Continue? || r.Finish?) ==> StaysIn(st, r.st)
    decreases thenArm, 5
  {
    var f := st.insertFn;
    var r := LowerStmt(MoveTo(st, k), thenArm, ord);
    if !r.Ok? then Chained(r)
    else
      // the check reads the then block, not the insertion point
      var s1 := if HasTerminator(Blocks(r.st)[k]) then r.st else Emit(r.st, [Br(BlockAt(f, k + 1))]);
      Continue(MoveTo(s1, k + 1))
  }

  // ---------------------------------------------------------------------
  // Functions and the module: `add_function`, `analyze_ast`, `generate_llvm_ir`

  /** The number of nodes on an argument chain, following `list.next` up to null. */
  function ArgCount(args: Link): Option<nat>
    decreases args
  {
    match args
    case None => Some(0)
    case Some(a) =>
      var next := ListNext(a);
      if next.None? then None
      else
        var c := ArgCount(next.value);
        if c.None? then None else Some(c.value + 1)
  }

  /**
   * `add_function`: a new function with one i64 parameter per argument
   * node, an `entry` block holding the insertion point, the return flag
   * cleared, the body lowered, and `ret undef` appended when no return
   * statement was lowered.
   */
  function LowerFunction(st: State, title: string, args: Link, body: Link, ord: Order): Outcome {
    var arity := ArgCount(args);
    if arity.None? then Undefined
    else
      var r := LowerStmt(Enter(st, title, arity.value), body, ord);
      if !r.Ok? then r
      else if !r.st.doesReturn then Ok(Emit(r.st, [Ret(UndefValue)]))
      else r
  }

  /**
   * The state in which `add_function` lowers the body: the new function
   * appended to the module with its `entry` block holding the insertion
   * point, and the return flag cleared.
   */
  function Enter(st: State, title: string, arity: nat): (s: State)
    ensures HasInsertPoint(s) && s.insertFn == |st.funcs| && s.insertBlock == 0
  {
    st.(funcs := st.funcs + [Func(title, arity, [Block("entry", [])])],
        doesReturn := false, insertFn := |st.funcs|, insertBlock := 0)
  }

  predicate IsMain(n: Node) {
    n.Function? && n.title == "main"
  }

  /** What `analyze_ast` looks for: some root is a function titled `main`. */
  predicate HasMain(roots: seq<Node>) {
    exists i :: 0 <= i < |roots| && IsMain(roots[i])
  }

  /** The loop of `generate_llvm_ir` from root i on. */
  function LowerRoots(st: State, roots: seq<Node>, i: nat, ord: Order): Outcome
    requires i <= |roots|
    decreases |roots| - i
  {
    if i == |roots| then Ok(st)
    else
      match roots[i]
      case Function(title, args, body, _) =>
        var r := LowerFunction(st, title, args, body, ord);
        if r.Ok? then LowerRoots(r.st, roots, i + 1, ord) else r
      case GlobalDeclaration(_, _, _) => LowerRoots(st, roots, i + 1, ord)
      case _ =>
        var name := TypeName(roots[i]);
        if name.None? then Undefined
        else Fatal("unrecognized root type \"" + name.value + "\"\n")
  }

  /** `generate_llvm_ir`: no entry point is fatal before anything is lowered. */
  function GenerateIr(st: State, roots: seq<Node>, ord: Order): Outcome {
    if !HasMain(roots) then Fatal("no entry point.") else LowerRoots(st, roots, 0, ord)
  }
}
