/**
 * The abstract intermediate representation that stands in for LLVM's
 * `IRBuilder`, `Module`, `Function` and `BasicBlock`: a module is a sequence
 * of functions, a function a sequence of blocks, a block a sequence of
 * instructions. Straight-line instructions have an execution semantics over
 * registers and memory.
 */
module Ir {
  import opened Wrappers
  import opened Words

  /** An `llvm::Value*` used as an operand. */
  datatype Operand =
    | Reg(id: nat)          // the result of an earlier instruction
    | Imm(word: Word)       // a `ConstantInt`
    | UndefValue            // `UndefValue::get`
    | NullValue             // a null `Value*`

  /** An `llvm::Value*` used as an address: an alloca, a global, or null. */
  datatype Handle = NullHandle | Slot(id: nat) | GlobalVar(index: nat)

  /** An `llvm::BasicBlock*`: a block of a function of the module, or null. */
  datatype BlockRef = NullBlock | BlockAt(fn: nat, index: nat)

  datatype ArithOp = AddOp | SubOp | MulOp | SDivOp

  datatype Pred = EqPred | NePred | SgePred | SlePred | SgtPred | SltPred

  datatype Inst =
    | Alloca(dst: nat, name: string)
    | Load(dst: nat, ptr: Handle)
    | Store(val: Operand, ptr: Handle)
    | Arith(dst: nat, op: ArithOp, lhs: Operand, rhs: Operand)
    | ICmp(dst: nat, pred: Pred, lhs: Operand, rhs: Operand)   // yields an i1
    | ZExt(dst: nat, arg: Operand)                               // i1 to i64
    | CondBr(cond: Operand, ifTrue: BlockRef, ifFalse: BlockRef)
    | Br(target: BlockRef)
    | Ret(val: Operand)

  predicate IsTerminator(i: Inst) {
    i.CondBr? || i.Br? || i.Ret?
  }

  datatype Block = Block(name: string, insts: seq<Inst>)

  datatype Func = Func(name: string, arity: nat, blocks: seq<Block>)

  /** `BasicBlock::getTerminator() != nullptr`: the last instruction ends the block. */
  predicate HasTerminator(b: Block) {
    |b.insts| > 0 && IsTerminator(b.insts[|b.insts| - 1])
  }

  // ---------------------------------------------------------------------
  // Execution of straight-line code

  /** Registers hold instruction results; memory holds the words stored at handles. */
  datatype Machine = Machine(regs: map<nat, Word>, mem: map<Handle, Word>)

  /** The run-time value of an operand; None where it has none (undef, null, unset register). */
  function OperandValue(o: Operand, regs: map<nat, Word>): Option<Word> {
    match o
    case Reg(r) => if r in regs then Some(regs[r]) else None
    case Imm(w) => Some(w)
    case UndefValue => None
    case NullValue => None
  }

  /** LLVM's integer arithmetic on i64; None where `sdiv` is undefined. */
  function ArithResult(op: ArithOp, a: Word, b: Word): Option<Word> {
    match op
    case AddOp => Some(Wrap(a + b))
    case SubOp => Some(Wrap(a - b))
    case MulOp => Some(Wrap(a * b))
    case SDivOp =>
      if b == 0 || (Signed(a) == MinSigned && Signed(b) == -1) then None
      else Some(Wrap(TruncDiv(Signed(a), Signed(b))))
  }

  /** LLVM's `icmp` predicates; the ordered ones compare as signed. */
  predicate PredHolds(p: Pred, a: Word, b: Word) {
    match p
    case EqPred => a == b
    case NePred => a != b
    case SgePred => Signed(a) >= Signed(b)
    case SlePred => Signed(a) <= Signed(b)
    case SgtPred => Signed(a) > Signed(b)
    case SltPred => Signed(a) < Signed(b)
  }

  /**
   * One straight-line instruction. None stands for undefined behaviour
   * (a load from null or from unwritten memory, a null or undefined operand,
   * `sdiv` by zero or overflow) and for control leaving the code (a terminator).
   * An i1 is kept as the word 0 or 1.
   */
  function Step(i: Inst, m: Machine): Option<Machine> {
    match i
    case Alloca(dst, _) => Some(m.(mem := m.mem - {Slot(dst)}))
    case Load(dst, p) =>
      if p in m.mem then Some(m.(regs := m.regs[dst := m.mem[p]])) else None
    case Store(v, p) =>
      var w := OperandValue(v, m.regs);
      if p.NullHandle? || w.None? then None else Some(m.(mem := m.mem[p := w.value]))
    case Arith(dst, op, l, r) =>
      var a, b := OperandValue(l, m.regs), OperandValue(r, m.regs);
      if a.None? || b.None? then None
      else
        var v := ArithResult(op, a.value, b.value);
        if v.None? then None else Some(m.(regs := m.regs[dst := v.value]))
    case ICmp(dst, p, l, r) =>
      var a, b := OperandValue(l, m.regs), OperandValue(r, m.regs);
      if a.None? || b.None? then None
      else Some(m.(regs := m.regs[dst := FromBool(PredHolds(p, a.value, b.value))]))
    case ZExt(dst, x) =>
      var a := OperandValue(x, m.regs);
      if a.None? then None else Some(m.(regs := m.regs[dst := a.value]))
    case _ => None
  }

  function Exec(code: seq<Inst>, m: Machine): Option<Machine> {
    if code == [] then Some(m)
    else
      var m1 := Step(code[0], m);
      if m1.None? then None else Exec(code[1..], m1.value)
  }

  /** Runs code, then reads the value it computed. */
  function Run(code: seq<Inst>, result: Operand, m: Machine): Option<(Word, Machine)> {
    var m1 := Exec(code, m);
    if m1.None? then None
    else
      var v := OperandValue(result, m1.value.regs);
      if v.None? then None else Some((v.value, m1.value))
  }

  // ---------------------------------------------------------------------
  // Facts about execution

  /** The registers an instruction writes. */
  function Writes(i: Inst): set<nat> {
    match i
    case Load(dst, _) => {dst}
    case Arith(dst, _, _, _) => {dst}
    case ICmp(dst, _, _, _) => {dst}
    case ZExt(dst, _) => {dst}
    case _ => {}
  }

  /** Every register the code writes is at least lo and below hi. */
  ghost predicate WritesWithin(code: seq<Inst>, lo: nat, hi: nat) {
    forall k, r :: 0 <= k < |code| && r in Writes(code[k]) ==> lo <= r < hi
  }

  /** Running two pieces of code one after the other. */
  lemma {:induction false} ExecAppend(a: seq<Inst>, b: seq<Inst>, m: Machine)
    ensures Exec(a + b, m) == (if Exec(a, m).None? then None else Exec(b, Exec(a, m).value))
    decreases |a|
  {
    if a != [] {
      assert (a + b)[0] == a[0];
      assert (a + b)[1..] == a[1..] + b;
      var m1 := Step(a[0], m);
      if m1.Some? {
        ExecAppend(a[1..], b, m1.value);
      }
    } else {
      assert a + b == b;
    }
  }

  /**
   * Code leaves alone every register it does not write, and never puts a
   * value at the null handle.
   */
  lemma {:induction false} ExecFrame(code: seq<Inst>, m: Machine, lo: nat, hi: nat)
    requires WritesWithin(code, lo, hi)
    requires NullHandle !in m.mem
    requires Exec(code, m).Some?
    ensures forall r :: r < lo || hi <= r ==>
              (r in Exec(code, m).value.regs <==> r in m.regs) &&
              (r in m.regs ==> Exec(code, m).value.regs[r] == m.regs[r])
    ensures NullHandle !in Exec(code, m).value.mem
    decreases |code|
  {
    if code != [] {
      var m1 := Step(code[0], m).value;
      assert forall r :: r !in Writes(code[0]) ==>
        (r in m1.regs <==> r in m.regs) && (r in m.regs ==> m1.regs[r] == m.regs[r]);
      assert WritesWithin(code[1..], lo, hi) by {
        forall k, r | 0 <= k < |code[1..]| && r in Writes(code[1..][k]) ensures lo <= r < hi {
          assert code[1..][k] == code[k + 1];
        }
      }
      ExecFrame(code[1..], m1, lo, hi);
    }
  }

  /** Running code and reading a value, when the code is two pieces. */
  lemma RunAppend(a: seq<Inst>, b: seq<Inst>, v: Operand, m: Machine)
    ensures Run(a + b, v, m) == (if Exec(a, m).None? then None else Run(b, v, Exec(a, m).value))
  {
    ExecAppend(a, b, m);
  }

  /** The writes of two pieces of code, each within a range, are within the union. */
  lemma WritesWithinAppend(a: seq<Inst>, b: seq<Inst>, lo: nat, mid: nat, hi: nat)
    requires WritesWithin(a, lo, mid) && WritesWithin(b, mid, hi) && lo <= mid <= hi
    ensures WritesWithin(a + b, lo, hi)
  {
    forall k, r | 0 <= k < |a + b| && r in Writes((a + b)[k]) ensures lo <= r < hi {
      if k < |a| {
        assert (a + b)[k] == a[k];
      } else {
        assert (a + b)[k] == b[k - |a|];
      }
    }
  }
}
