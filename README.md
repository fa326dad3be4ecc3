# The B compiler's lowering pass, modelled in Dafny

blang compiles the B language to LLVM IR. The parser builds one syntax tree
per top-level declaration and appends it to the global list
`generated_ast` (src/ast.c). `generate_llvm_ir` (src/llvm_ir.cpp) then
works as follows:

- It first checks that some root is a function titled `main`.
- It lowers every function root through `add_function`, which walks the
  body with `add_statement` and `add_expression`.
- It reports any other root kind by its entry in `ASTNodeTypeNames`
  (src/ast.h).

The pass keeps its state in globals:

- the module and the builder's insertion point;
- the tables `NamedValues` (auto variables to stack slots), `ExtrnValues`
  (extern names to globals) and `BasicBlockValues` (labels to blocks);
- the `functionDoesReturn` flag.

The project has these parts:

- **Ast** (`ast.dfy`): the syntax tree, with one constructor per node kind.
  It also holds the kind-name table.
- **Ir** (`ir.dfy`): an abstract IR of functions, blocks and instructions,
  with an execution semantics for straight-line code.
- **Semantics** (`semantics.dfy`): what an expression means. It works on
  64-bit words that wrap around, and division truncates.
- **Lowering** (`lowering.dfy`): the pass written as functions on a `State`
  that holds every global the pass touches.
- **LlvmIr** (`llvm_ir.dfy`): the pass as it runs. The class `CodeGen`
  holds those globals as fields, and its methods update them step by step.
  Each method is proved to leave exactly the state that the matching
  Lowering function computes, and to end the same way:
  - normally;
  - with `fatal_error` and its message;
  - in undefined behaviour, such as a null node dereferenced or a table
    index past its end.
- **Registry** (`registry.dfy`): the parser's root list as a class over an
  array.
- **ExprCorrectness, StmtFacts, Tables, Shapes, Program**: lemmas about the
  Lowering functions.
  - **ExprCorrectness**: the code emitted for an expression, when run,
    computes what the expression means.
  - **StmtFacts**: lowering statements only appends code and adds blocks.
  - **Tables**: how the tables and the return flag evolve.
  - **Shapes**: the block structure produced for loops, ifs, labels, gotos
    and returns.
  - **Program**: functions and the whole module.

The model keeps the source's behaviour, including these quirks:

- A name that was never bound reads as a null handle, because
  `operator[]` inserts a null entry.
- The tables are never cleared between functions. A `goto` in a later
  function can reach a label block of an earlier one.
- An `extrn` declaration stops the declaration chain after its first name.
- After each arm of an `if`, the check for a terminator reads the arm's
  own first block, not the block where lowering ended.
- Any `return` anywhere in a body suppresses the final `ret undef`.
- Parameters are counted but never bound.
- The name table has no entry for `_NEGATIVE`. From that kind on, every
  kind is reported under the next kind's name, and `STOP` indexes past
  the table's end.

## Model

| member | source | states |
|---|---|---|
| Ast.TypeNameTable | src/ast.h:108-143 | The name table has 29 entries for 30 kinds. Kinds before `_NEGATIVE` get their own spelling, and each later kind gets the spelling of the kind after it. `_NEGATIVE` is reported as "_INC". The lookup falls off the table exactly for `STOP`. |
| Registry.AstRegistry.constructor | src/ast.c:12-13 | The registry starts empty: no roots and length 0. |
| Registry.AstRegistry.AppendStatement | src/ast.c:15-23 | It exits exactly when the reallocation fails. Otherwise the roots are the old roots with the node added at the end, the length grows by one and the array is a fresh one. |
| ExprCorrectness.LowerExprCorrect | src/llvm_ir.cpp:70-167 | For every expression that lowers, running its code from any memory fails exactly when the expression has no value. Otherwise the code yields the expression's value and leaves memory showing the store the expression leaves. |
| ExprCorrectness.BinaryCorrect | src/llvm_ir.cpp:73-120 | The same agreement for the ten binary operators, with the operands lowered in the order `ord` gives. |
| ExprCorrectness.VariableCorrect | src/llvm_ir.cpp:156-160 | The same agreement for a variable read: a load through the name's slot. |
| ExprCorrectness.NotCorrect | src/llvm_ir.cpp:124-133 | The same agreement for `!e`. |
| ExprCorrectness.StepCorrect | src/llvm_ir.cpp:134-151 | `x++` and `x--` as expressions always lower, and their code agrees with their meaning. |
| ExprCorrectness.IncYieldsOldValue | src/llvm_ir.cpp:134-142 | For a bound name, `x++` yields the value x had before and leaves x one greater, modulo 2^64. |
| ExprCorrectness.DecYieldsOldValue | src/llvm_ir.cpp:143-151 | For a bound name, `x--` yields the value x had before and leaves x one less, modulo 2^64. |
| ExprCorrectness.NotIsBoolean | src/llvm_ir.cpp:124-133 | `!e` yields a value exactly when e does. The value is 0 or 1, and it is 1 exactly when e is 0. |
| ExprCorrectness.ComparisonIsBoolean | src/llvm_ir.cpp:85-120 | The six comparisons yield 0 or 1. |
| ExprCorrectness.StepStatementStores | src/llvm_ir.cpp:281-300 | `x++;` and `x--;` as statements append a load, a step by one and a store, each through the name's `NamedValues` entry. Running that code fails exactly when the name has no value. Otherwise x becomes one more or one less, modulo 2^64, and every other name keeps its value. This is the same store `x++` and `x--` leave as expressions. |
| ExprCorrectness.DivisionTruncates | src/llvm_ir.cpp:82-84 | `sdiv` truncates toward zero: -7 / 2 runs to -3. |
| StmtFacts.StmtGrows | src/llvm_ir.cpp:170-305 | A chain that lowers leaves every other function untouched. In its function it appends instructions to the insertion block and adds blocks after the existing ones. The tables and globals only gain keys. If the insertion point moved, it moved to a block the chain added, and the block the chain started in ends in a terminator. |
| StmtFacts.NodeGrows | src/llvm_ir.cpp:172-304 | The same for a single node of any kind. |
| Tables.StmtFollows | src/llvm_ir.cpp:170-305 | A chain that lowers raises `functionDoesReturn` exactly when the flag was already up or the chain contains a return. Every label the chain does not define keeps its block. Distinct names keep distinct fresh stack slots. The only fatal message is "unknown statement.". |
| Tables.NodeFollows | src/llvm_ir.cpp:172-304 | The same for one node. A node that lets lowering go on to its successor is not STOP, a variable introduction or a return. A node that finishes the chain is one of those three. |
| Tables.NodeOutcomeKinds | src/llvm_ir.cpp:172-304 | A kind without a case in `add_statement` is the fatal "unknown statement.". STOP finishes with nothing changed. A label, a goto, `x++;` and `x--;` always go on. An assignment goes on, and a return finishes, exactly when its value lowers; otherwise they are undefined. An extern variable finishes. |
| Tables.FatalComesFrom | src/llvm_ir.cpp:172-304 | A fatal error from one node comes only from a kind without a case, or from `auto`, `extrn`, an auto variable, a while loop or an if, each of which lowers a nested chain. |
| Shapes.IfShape | src/llvm_ir.cpp:228-266 | An if adds blocks `if_then` and `if_merge`, and `if_else` when the else arm is not STOP. The starting block ends in a conditional branch to `if_then`, and to `if_merge` exactly when there is no else arm. The then block ends in a terminator, and lowering goes on in the merge block. |
| Shapes.IfElseShape | src/llvm_ir.cpp:228-263 | With an else arm, the conditional branch targets `if_then` and `if_else`, and both arm blocks end in a terminator. The else arm is lowered first, in `if_else`, and the then arm after it, in `if_then`, starting from the state the else half left. Each arm gets a branch to `if_merge` where it ended exactly when its own first block had no terminator; otherwise nothing is appended. The blocks the else arm added are complete before the then arm starts. |
| Shapes.ElseCloses | src/llvm_ir.cpp:247-250 | After the else arm, a branch to the merge block is appended where the arm ended exactly when `if_else` lacks a terminator, and no block changes otherwise. |
| Shapes.ThenCloses | src/llvm_ir.cpp:257-262 | After the then arm, a branch to the merge block is appended where the arm ended exactly when `if_then` lacks a terminator, and no block changes otherwise. Lowering goes on in the merge block. |
| Shapes.IfNoElseShape | src/llvm_ir.cpp:228-263 | Without an else arm, the added blocks begin with `if_then` and an empty `if_merge`, the block the `if` started in ends with the conditional branch to these two, `if_then` ends in a terminator, and lowering goes on in `if_merge`. |
| Shapes.IfNoElseCloses | src/llvm_ir.cpp:228-263 | Without an else arm, the then arm gets a branch to `if_merge` exactly when `if_then` has no terminator, and no block besides the then arm's own is created. An empty then arm leaves exactly the two new blocks. |
| Shapes.NestedIfLeavesMergeOpen | src/llvm_ir.cpp:257-263 | When an if is nested as the then arm of another, the inner `if_merge` block (k + 3) is left empty, with no terminator. The outer then-arm check reads the outer `if_then` block, which already ends in the inner conditional branch, so no branch from the inner merge block to the outer one is added. |
| Shapes.WhileShape | src/llvm_ir.cpp:203-227 | A while loop adds `while_then` and `while_merge`. The starting block ends in a test of the condition and a branch to `while_then` or `while_merge`. The block where the body ends ends with the same test and branch. Each test compares with 0 the operand the condition lowers to, from the state at that point. Lowering goes on in `while_merge`. |
| Shapes.WhileBackEdge | src/llvm_ir.cpp:217-224 | After the body, the condition is lowered again from the state the body left and compared with 0, and the branch goes back to the loop or out to the merge block. Blocks outside the body are untouched. |
| Shapes.LabelShape | src/llvm_ir.cpp:267-272 | A label adds a block named after it and binds the name to that block. The current block gets a branch to it, and lowering goes on in the new block. |
| Shapes.GotoShape | src/llvm_ir.cpp:273-276 | A goto appends a branch to the label's block, or to a null block when the label is unbound. An unbound label becomes bound to null. |
| Shapes.ForwardGoto | src/llvm_ir.cpp:273-276 | A goto to a label defined later branches to null, and the label then rebinds the name to its new block. |
| Shapes.ReturnShape | src/llvm_ir.cpp:277-280 | A return ignores its successor. It ends the block in `ret` of the operand its value lowers to, never `undef`, and raises the return flag. For the kinds that lower to a null value, this is `ret void`. |
| Shapes.ExternChainStops | src/llvm_ir.cpp:174-196 | `extrn x, ...` adds only x as a global and binds it in `ExtrnValues`. The rest of the chain is never lowered, and `NamedValues` is unchanged. |
| Shapes.AutoChainBinds | src/llvm_ir.cpp:179-184 | A chain of auto variables always lowers. It appends one alloca per name, in order, at the insertion point, which does not move. It binds each name to the slot of its last declaration. Names outside the chain keep their bindings. |
| Shapes.AllocasAt | src/llvm_ir.cpp:181 | The i-th alloca of a declaration chain allocates slot id + i for the i-th name. |
| Shapes.AutoDeclarationBinds | src/llvm_ir.cpp:174-184 | `auto x0, x1, ...;` goes on to its successor in the state AutoChainBinds describes. Distinct names get distinct slots. When no two names shared a slot before, no new slot was held by any earlier name, and still no two names share one. |
| Program.FunctionShape | src/llvm_ir.cpp:309-346 | A function root appends one function with the root's title, one parameter per argument node and an `entry` block first. Earlier functions are unchanged. An argument chain that reaches a node without a `list.next` is undefined behaviour. |
| Program.FunctionEpilogue | src/llvm_ir.cpp:342-352 | For any argument chain that counts, the body is lowered in the new function. Afterwards the return flag is up exactly when the body contains a return anywhere. Without one, `ret undef` is appended to the block where the body ended. |
| Program.FunctionKeepsTables | src/llvm_ir.cpp:342-346 | Lowering a function keeps every label binding the body does not redefine, and every `NamedValues` key. |
| Program.GotoIntoEarlierFunction | src/llvm_ir.cpp:273-276 | A goto to a label defined in an earlier function branches into that function's block. |
| Program.ArgCountOfCounts | src/llvm_ir.cpp:314-317 | The argument loop counts n nodes for an n-node chain. |
| Program.RootsShape | src/llvm_ir.cpp:376-389 | If the root loop succeeds, every root was a function or a global declaration, and the module's functions are the function roots in order. A fatal exit is "unknown statement." or the message for a root of another kind. |
| Program.MainListed | src/llvm_ir.cpp:359-370 | When some root is `main`, "main" is among the function titles. |
| Program.NoEntryPoint | src/llvm_ir.cpp:359-370 | Generation fails with "no entry point." exactly when no root is a function titled `main`. |
| Program.GenerateOk | src/llvm_ir.cpp:372-391 | A successful generation had a `main` root and only recognized roots. Its functions are the function roots in order. |
| Program.NegativeRootReportedAsInc | src/llvm_ir.cpp:384-386 | A `_NEGATIVE` root is reported as "unrecognized root type "_INC"". |
| Program.StopRootUndefined | src/llvm_ir.cpp:384-386 | A STOP root indexes past the name table: undefined behaviour. |
| LlvmIr.CodeGen.constructor | src/llvm_ir.cpp:44-50 | The pass starts with an empty module, empty tables and the return flag down. |
| LlvmIr.CodeGen.AddExpression | src/llvm_ir.cpp:70-167 | It yields a value exactly when the expression lowers, and leaves the emitted code and tables the expression's lowering computes. |
| LlvmIr.CodeGen.AddBinary | src/llvm_ir.cpp:73-120 | A binary operator: both operands, then the operation, as specified. |
| LlvmIr.CodeGen.AddNot | src/llvm_ir.cpp:124-133 | `!e`: compare with zero and widen, as specified. |
| LlvmIr.CodeGen.AddIncDec | src/llvm_ir.cpp:134-151 | Load, step, store, then undo the step. Each `NamedValues[...]` lookup may insert a null entry. |
| LlvmIr.CodeGen.AddLeaf | src/llvm_ir.cpp:121-165 | Numbers, variable reads and the kinds that give a null value, as specified. |
| LlvmIr.CodeGen.AddCondition | src/llvm_ir.cpp:208-212 | The condition `e != 0`, as specified. |
| LlvmIr.CodeGen.AddStatement | src/llvm_ir.cpp:170-305 | A chain: the same status and the same final state as the chain's lowering. |
| LlvmIr.CodeGen.AddNode | src/llvm_ir.cpp:172-304 | One node: whether to go on, stop or abort, and the new state, as specified. |
| LlvmIr.CodeGen.AddDeclarations | src/llvm_ir.cpp:174-178 | `auto`/`extrn`: the declaration chain, then go on. |
| LlvmIr.CodeGen.AddVariable | src/llvm_ir.cpp:179-196 | A variable introduction, as specified. |
| LlvmIr.CodeGen.AddAssignment | src/llvm_ir.cpp:197-202 | A store of the value into the name's slot. |
| LlvmIr.CodeGen.AddWhile | src/llvm_ir.cpp:203-227 | A while loop, as specified. |
| LlvmIr.CodeGen.AddLoopBody | src/llvm_ir.cpp:215-225 | The loop body in `while_then`, then the back edge. |
| LlvmIr.CodeGen.AddLoopBack | src/llvm_ir.cpp:217-225 | The retest and branch, then continue in `while_merge`. |
| LlvmIr.CodeGen.AddIf | src/llvm_ir.cpp:228-266 | An if, as specified. |
| LlvmIr.CodeGen.AddWithElse | src/llvm_ir.cpp:242-252 | The else block, the branch, the else arm and then the then arm. |
| LlvmIr.CodeGen.AddWithoutElse | src/llvm_ir.cpp:253-263 | The branch to then/merge, then the then arm. |
| LlvmIr.CodeGen.AddElse | src/llvm_ir.cpp:247-250 | The else arm in `if_else`, closed with a branch to the merge block unless `if_else` already ends in a terminator. |
| LlvmIr.CodeGen.AddThen | src/llvm_ir.cpp:257-262 | The then arm in `if_then`, closed the same way. Lowering then goes on in the merge block. |
| LlvmIr.CodeGen.AddLabel | src/llvm_ir.cpp:267-272 | A label, as specified. |
| LlvmIr.CodeGen.AddGoto | src/llvm_ir.cpp:273-276 | A goto, as specified. |
| LlvmIr.CodeGen.AddReturn | src/llvm_ir.cpp:277-280 | A return and the raised flag, as specified. |
| LlvmIr.CodeGen.AddStep | src/llvm_ir.cpp:281-300 | `x++;`/`x--;` as statements: load, step, store. |
| LlvmIr.CodeGen.AddFunction | src/llvm_ir.cpp:309-353 | Count the arguments in a loop, enter the new function, lower the body and add `ret undef`, as specified. |
| LlvmIr.CodeGen.AnalyzeAst | src/llvm_ir.cpp:359-366 | The search loop finds `main` exactly when some root is a function titled `main`. |
| LlvmIr.CodeGen.GenerateLlvmIr | src/llvm_ir.cpp:372-391 | "no entry point." without `main`. Otherwise the root loop runs, and the status and final state match the whole pass's specification. |

In the rows for CodeGen methods, "as specified" means the following. The
method's status (go on, stop, fatal message, undefined) and its final
state equal the outcome of the Lowering function for the same node. The
lemmas of the Shapes, Tables, StmtFacts and ExprCorrectness modules state
what that outcome is.

## Left out

- The LLVM library itself is replaced by the abstract IR in `ir.dfy`:
  - instruction names;
  - types beyond i1/i64;
  - the printing of the module;
  - the object-file back end.
- The tokenizer, the parser's grammar actions, the command line and file
  I/O are not part of this model. The parser appears only through
  `append_statement`.
- The order in which C++ evaluates the two operands of a binary operator
  is unspecified. It is the parameter `ord` rather than one fixed order.
- Function calls, negation, arrays and array references lower to a null
  value in `add_expression`. They carry no further semantics here.
- A builder call given that null value, such as a store, an arithmetic
  instruction, `icmp` or `ret`, is modelled as emitting the instruction
  with the null operand (`ret` of it is `ret void`). What LLVM would do
  with a null `Value*` is not modelled. In the run semantics, a store,
  arithmetic or `icmp` that reads the null operand fails.
- `add_global_variable` does nothing. A global-declaration root is
  skipped.
- Registry.AstRegistry.AppendStatement: whether `realloc` succeeds is the
  parameter `reallocSucceeds`. The error message printed before exiting
  is not modelled.
- Number literals are 32-bit `int` payloads, widened to signed 64-bit
  words. Other integer widths of the C++ code are not modelled.
- `fatal_error` is modelled as an outcome carrying its message. The exit
  status and the output stream are not modelled.
- Undefined behaviour is a single outcome. What a program with a null
  dereference or an out-of-range table index would actually do is not
  modelled.
- `FunctionValues` is declared but never used by the pass, so it is not
  modelled.
- `LogErrorV` is never called by the pass, so it is not modelled.
- ExprCorrectness.LowerExprCorrect: the run semantics covers straight-line
  code only. Control flow across blocks is stated structurally by the
  Shapes lemmas, not executed.
