/**
 * `add_function`, `analyze_ast` and `generate_llvm_ir`: each function root
 * becomes one new function of the module, in the order of the roots; the
 * tables of the pass outlive the function that filled them; a program
 * without `main` is rejected before anything is lowered.
 */
module Program {
  import opened Wrappers
  import opened Ast
  import opened Ir
  import opened Semantics
  import opened Lowering
  import opened StmtFacts
  import opened Tables
  import opened Shapes

  /** The names of a module's functions, in order. */
  function Titles(funcs: seq<Func>): seq<string> {
    seq(|funcs|, i requires 0 <= i < |funcs| => funcs[i].name)
  }

  /** The titles of the function roots, in order. */
  function FunctionTitles(roots: seq<Node>): seq<string> {
    if roots == [] then []
    else (if roots[0].Function? then [roots[0].title] else []) + FunctionTitles(roots[1..])
  }

  /** The kinds of root `generate_llvm_ir` accepts. */
  predicate Recognized(n: Node) {
    n.Function? || n.GlobalDeclaration?
  }

  predicate AllRecognized(roots: seq<Node>) {
    forall i :: 0 <= i < |roots| ==> Recognized(roots[i])
  }

  /** The message `generate_llvm_ir` reports for a root of an unexpected kind. */
  function UnrecognizedMessage(name: string): string {
    "unrecognized root type \"" + name + "\"\n"
  }

  // ---------------------------------------------------------------------
  // add_function

  /**
   * A function root appends exactly one function: the functions before it
   * are untouched, the new one has the root's title, one parameter per
   * argument node, and an `entry` block first. An argument chain that runs
   * into a node without a `list.next` field is undefined behaviour.
   */
  lemma {:induction false} FunctionShape(st: State, title: string, args: Link, body: Link, ord: Order)
    ensures var r := LowerFunction(st, title, args, body, ord);
            && (ArgCount(args).None? ==> r.Undefined?)
            && (r.Fatal? ==> r.msg == "unknown statement.")
            && (r.Ok? ==>
                  && ArgCount(args).Some?
                  && |r.st.funcs| == |st.funcs| + 1
                  && r.st.funcs[..|st.funcs|] == st.funcs
                  && r.st.funcs[|st.funcs|].name == title
                  && r.st.funcs[|st.funcs|].arity == ArgCount(args).value
                  && r.st.insertFn == |st.funcs|
                  && r.st.funcs[|st.funcs|].blocks != []
                  && r.st.funcs[|st.funcs|].blocks[0].name == "entry")
  {
    var arity := ArgCount(args);
    if arity.Some? {
      var s1 := Enter(st, title, arity.value);
      StmtGrows(s1, body, ord);
      StmtFollows(s1, body, ord);
      var r := LowerStmt(s1, body, ord);
      if r.Ok? {
        var s2 := if r.st.doesReturn then r.st else Emit(r.st, [Ret(UndefValue)]);
        assert Grows(s1, s2) by {
          if !r.st.doesReturn {
            EmitGrows(r.st, [Ret(UndefValue)]);
            GrowsTrans(s1, r.st, s2);
          }
        }
        assert LowerFunction(st, title, args, body, ord) == Ok(s2);
        assert forall i :: 0 <= i < |st.funcs| ==> s2.funcs[i] == s1.funcs[i] == st.funcs[i];
      }
    }
  }

  /**
   * The return flag after a function is whether its body holds a return
   * statement that lowering reaches; without one, `ret undef` is the last
   * instruction of the block where the body left the insertion point, and
   * with one nothing is appended after the body.
   */
  lemma {:induction false} FunctionEpilogue(st: State, title: string, args: Link, body: Link, ord: Order)
    ensures var arity := ArgCount(args);
            var s1 := Enter(st, title, if arity.Some? then arity.value else 0);
            var b := LowerStmt(s1, body, ord);
            var r := LowerFunction(st, title, args, body, ord);
            arity.Some? && b.Ok? ==>
              && r.Ok?
              && r.st.insertFn == |st.funcs|
              && (r.st.doesReturn <==> ChainVisit(body).anyReturn)
              && (ChainVisit(body).anyReturn ==> r.st == b.st)
              && (!ChainVisit(body).anyReturn ==>
                    && r.st.insertBlock == b.st.insertBlock
                    && Blocks(r.st)[r.st.insertBlock].insts == Blocks(b.st)[b.st.insertBlock].insts + [Ret(UndefValue)])
  {
    var arity := ArgCount(args);
    if arity.Some? {
      var s1 := Enter(st, title, arity.value);
      StmtFollows(s1, body, ord);
      StmtGrows(s1, body, ord);
      var b := LowerStmt(s1, body, ord);
      if b.Ok? && !b.st.doesReturn {
        EmitGrows(b.st, [Ret(UndefValue)]);
      }
    }
  }

  /** An argument chain of `n` variable nodes. */
  function ArgCountOf(n: nat): Link {
    if n == 0 then None else Some(Variable("arg", ArgCountOf(n - 1), VarAuto, None))
  }

  lemma {:induction false} ArgCountOfCounts(n: nat)
    ensures ArgCount(ArgCountOf(n)) == Some(n)
  {
    if n > 0 {
      ArgCountOfCounts(n - 1);
    }
  }

  /**
   * `BasicBlockValues` and `NamedValues` are never cleared: a label of an
   * earlier function keeps its block unless the new body defines it again,
   * and slots stay fresh and distinct across functions.
   */
  lemma {:induction false} FunctionKeepsTables(st: State, title: string, args: Link, body: Link, ord: Order)
    ensures var r := LowerFunction(st, title, args, body, ord);
            r.Ok? ==>
              && (forall x :: x in st.labels && x !in ChainVisit(body).labels ==> x in r.st.labels && r.st.labels[x] == st.labels[x])
              && st.named.Keys <= r.st.named.Keys
              && (SlotsFresh(TablesOf(st)) ==> SlotsFresh(TablesOf(r.st)))
  {
    var arity := ArgCount(args);
    if arity.Some? {
      var s1 := Enter(st, title, arity.value);
      StmtFollows(s1, body, ord);
      StmtGrows(s1, body, ord);
      var r := LowerStmt(s1, body, ord);
      assert TablesOf(s1) == TablesOf(st).(doesReturn := false);
    }
  }

  /**
   * A goto to a label of an earlier function: the body `goto x;` of a new
   * function branches to the block the earlier function registered, and
   * since no return was lowered, `ret undef` follows the branch in the same
   * block.
   */
  lemma {:induction false} GotoIntoEarlierFunction(st: State, title: string, x: string, ord: Order)
    requires x in st.labels
    ensures var r := LowerFunction(st, title, None, Some(Goto(x, Some(Stop(None)))), ord);
            && r.Ok?
            && r.st.funcs[..|st.funcs|] == st.funcs
            && r.st.funcs[|st.funcs|] == Func(title, 0, [Block("entry", [Br(st.labels[x]), Ret(UndefValue)])])
  {
    var s1 := Enter(st, title, 0);
    assert Blocks(s1) == [Block("entry", [])];
    var s2 := Emit(s1, [Br(st.labels[x])]);
    assert [] + [Br(st.labels[x])] == [Br(st.labels[x])];
    assert LowerNode(s1, Goto(x, Some(Stop(None))), ord) == Continue(s2);
    StopChain(s2, ord);
    assert LowerStmt(s1, Some(Goto(x, Some(Stop(None)))), ord) == Ok(s2);
    assert Blocks(s2) == [Block("entry", [Br(st.labels[x])])];
    var s3 := Emit(s2, [Ret(UndefValue)]);
    assert [Br(st.labels[x])] + [Ret(UndefValue)] == [Br(st.labels[x]), Ret(UndefValue)];
    assert Blocks(s3) == [Block("entry", [Br(st.labels[x]), Ret(UndefValue)])];
    assert LowerFunction(st, title, None, Some(Goto(x, Some(Stop(None)))), ord) == Ok(s3);
    assert s3.funcs[..|st.funcs|] == st.funcs;
  }

  // ---------------------------------------------------------------------
  // The roots

  /**
   * The loop of `generate_llvm_ir` adds one function per function root, in
   * order, and nothing for a global declaration; it succeeds only when every
   * root is of one of those two kinds. Its only fatal errors are an unknown
   * statement and an unrecognized root, reported by its name in the table.
   */
  lemma {:induction false} RootsShape(st: State, roots: seq<Node>, i: nat, ord: Order)
    requires i <= |roots|
    ensures var r := LowerRoots(st, roots, i, ord);
            && (r.Ok? ==> AllRecognized(roots[i..]) && Titles(r.st.funcs) == Titles(st.funcs) + FunctionTitles(roots[i..]))
            && (r.Fatal? ==>
                  || r.msg == "unknown statement."
                  || exists j :: i <= j < |roots| && !Recognized(roots[j]) && TypeName(roots[j]).Some?
                                 && r.msg == UnrecognizedMessage(TypeName(roots[j]).value))
    decreases |roots| - i, 1
  {
    var r := LowerRoots(st, roots, i, ord);
    if i < |roots| {
      assert roots[i..] == [roots[i]] + roots[i + 1..];
      match roots[i]
      case Function(_, _, _, _) =>
        RootsFunctionStep(st, roots, i, ord);
      case GlobalDeclaration(_, _, _) =>
        RootsShape(st, roots, i + 1, ord);
      case _ =>
        if TypeName(roots[i]).Some? {
          assert r.msg == UnrecognizedMessage(TypeName(roots[i]).value);
        }
    }
  }

  /** RootsShape when the root at i is a function: its title is added, then the rest are lowered. */
  lemma {:induction false} RootsFunctionStep(st: State, roots: seq<Node>, i: nat, ord: Order)
    requires i < |roots| && roots[i].Function?
    ensures var r := LowerRoots(st, roots, i, ord);
            && (r.Ok? ==> AllRecognized(roots[i..]) && Titles(r.st.funcs) == Titles(st.funcs) + FunctionTitles(roots[i..]))
            && (r.Fatal? ==>
                  || r.msg == "unknown statement."
                  || exists j :: i <= j < |roots| && !Recognized(roots[j]) && TypeName(roots[j]).Some?
                                 && r.msg == UnrecognizedMessage(TypeName(roots[j]).value))
    decreases |roots| - i, 0
  {
    var n := roots[i];
    assert roots[i..] == [n] + roots[i + 1..];
    assert FunctionTitles(roots[i..]) == [n.title] + FunctionTitles(roots[i + 1..]);
    var f := LowerFunction(st, n.title, n.args, n.statements, ord);
    FunctionShape(st, n.title, n.args, n.statements, ord);
    if f.Ok? {
      RootsShape(f.st, roots, i + 1, ord);
      assert Titles(f.st.funcs) == Titles(st.funcs) + [n.title];
    }
  }

  /** A `main` root is among the function titles. */
  lemma {:induction false} MainListed(roots: seq<Node>)
    requires HasMain(roots)
    ensures "main" in FunctionTitles(roots)
  {
    if IsMain(roots[0]) {
    } else {
      var i :| 0 <= i < |roots| && IsMain(roots[i]);
      assert IsMain(roots[1..][i - 1]);
      MainListed(roots[1..]);
    }
  }

  // ---------------------------------------------------------------------
  // analyze_ast and generate_llvm_ir

  /**
   * `analyze_ast` reports "no entry point." exactly when no root is a
   * function titled `main`, whatever the roots would do when lowered.
   */
  lemma {:induction false} NoEntryPoint(st: State, roots: seq<Node>, ord: Order)
    ensures GenerateIr(st, roots, ord) == Fatal("no entry point.") <==> !HasMain(roots)
  {
    if HasMain(roots) {
      RootsShape(st, roots, 0, ord);
      var r := LowerRoots(st, roots, 0, ord);
      if r.Fatal? && r.msg != "unknown statement." {
        var j :| 0 <= j < |roots| && !Recognized(roots[j]) && TypeName(roots[j]).Some?
                 && r.msg == UnrecognizedMessage(TypeName(roots[j]).value);
        assert r.msg[0] == 'u';
        assert "no entry point."[0] == 'n';
      }
    }
  }

  /**
   * A successful run had a `main`, met only functions and global
   * declarations, and appended their functions in order.
   */
  lemma {:induction false} GenerateOk(st: State, roots: seq<Node>, ord: Order)
    ensures var r := GenerateIr(st, roots, ord);
            r.Ok? ==>
              && HasMain(roots)
              && AllRecognized(roots)
              && Titles(r.st.funcs) == Titles(st.funcs) + FunctionTitles(roots)
              && "main" in FunctionTitles(roots)
  {
    if HasMain(roots) {
      RootsShape(st, roots, 0, ord);
      MainListed(roots);
      assert roots[0..] == roots;
    }
  }

  /** A root of an unexpected kind is reported by the name the table gives it: a negation as `_INC`. */
  lemma {:induction false} NegativeRootReportedAsInc(ord: Order)
    ensures var roots := [Function("main", None, Some(Stop(None)), None), Negative(None, None)];
            GenerateIr(Initial, roots, ord) == Fatal(UnrecognizedMessage("_INC"))
  {
    var roots := [Function("main", None, Some(Stop(None)), None), Negative(None, None)];
    assert IsMain(roots[0]);
    var s1 := Enter(Initial, "main", 0);
    StopChain(s1, ord);
    var s2 := Emit(s1, [Ret(UndefValue)]);
    assert LowerFunction(Initial, "main", None, Some(Stop(None)), ord) == Ok(s2);
    TypeNameTable(Negative(None, None));
    assert LowerRoots(s2, roots, 1, ord) == Fatal(UnrecognizedMessage("_INC"));
  }

  /** A STOP root has no entry in the name table: reporting it reads past the table's end. */
  lemma {:induction false} StopRootUndefined(ord: Order)
    ensures GenerateIr(Initial, [Stop(None), Function("main", None, None, None)], ord) == Undefined
  {
    var roots := [Stop(None), Function("main", None, None, None)];
    assert IsMain(roots[1]);
    TypeNameTable(Stop(None));
  }
}
