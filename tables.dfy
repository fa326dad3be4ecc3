/**
 * What `add_statement` does to the pass's global state besides the code:
 * `functionDoesReturn` becomes true exactly when a return statement is
 * lowered, `BasicBlockValues` keeps every entry whose label is not lowered
 * again (it is never cleared), and `NamedValues` keeps binding distinct
 * names to distinct fresh stack slots.
 */
module Tables {
  import opened Wrappers
  import opened Ast
  import opened Ir
  import opened Semantics
  import opened Lowering
  import opened ExprCorrectness

  /** What lowering a chain runs into: a return statement, and the labels it defines. */
  datatype Visit = Visit(anyReturn: bool, labels: set<string>)

  const Nothing: Visit := Visit(false, {})

  function Join(a: Visit, b: Visit): Visit {
    Visit(a.anyReturn || b.anyReturn, a.labels + b.labels)
  }

  /** Whether `add_statement` goes on to a node's successor after the node itself. */
  predicate GoesOn(n: Node) {
    !(n.Stop? || n.Variable? || n.Return?)
  }

  /**
   * The statements that lowering a chain visits, following the same
   * links `add_statement` follows: the chain's successors, the nested
   * chains of declarations, loop bodies and both arms of an if (the else
   * arm only when it is not the STOP sentinel).
   */
  function ChainVisit(l: Link): Visit
    decreases l, 1
  {
    match l
    case None => Nothing
    case Some(n) => if GoesOn(n) then Join(NodeVisit(n), ChainVisit(n.successor)) else NodeVisit(n)
  }

  function NodeVisit(n: Node): Visit
    decreases n, 0
  {
    match n
    case Return(_, _) => Visit(true, {})
    case Label(x, _) => Visit(false, {x})
    case Auto(next, _) => ChainVisit(next)
    case Extrn(next, _) => ChainVisit(next)
    case Variable(_, next, t, _) => if t == VarAuto then ChainVisit(next) else Nothing
    case WhileLoop(_, body, _) => ChainVisit(body)
    case If(_, th, el, _) =>
      if el.Some? && !el.value.Stop? then Join(ChainVisit(el), ChainVisit(th)) else ChainVisit(th)
    case _ => Nothing
  }

  /** The part of the pass's state this module is about: the tables, the flag and the identity counter. */
  datatype Tabs = Tabs(named: Names, nextId: nat, labels: map<string, BlockRef>, doesReturn: bool)

  function TablesOf(st: State): Tabs {
    Tabs(st.named, st.nextId, st.labels, st.doesReturn)
  }

  /**
   * Every name is bound to the null handle or to a stack slot allocated
   * before nextId, and no two names share a slot.
   */
  ghost predicate SlotsFresh(t: Tabs) {
    && Distinct(t.named)
    && (forall x :: x in t.named ==> t.named[x].NullHandle? || (t.named[x].Slot? && t.named[x].id < t.nextId))
  }

  /**
   * From t to t': the return flag was raised exactly if it was already
   * up or v contains a return; every label not in v kept its block; and
   * fresh slots stayed fresh.
   */
  ghost predicate Follows(t: Tabs, t': Tabs, v: Visit) {
    && (t'.doesReturn <==> t.doesReturn || v.anyReturn)
    && (forall x :: x in t.labels && x !in v.labels ==> x in t'.labels && t'.labels[x] == t.labels[x])
    && (SlotsFresh(t) ==> SlotsFresh(t'))
  }

  lemma {:induction false} FollowsTrans(t1: Tabs, t2: Tabs, t3: Tabs, a: Visit, b: Visit)
    requires Follows(t1, t2, a) && Follows(t2, t3, b)
    ensures Follows(t1, t3, Join(a, b))
  {
  }

  /** A step that visits nothing, then one that visits v. */
  lemma {:induction false} FollowsAfter(t1: Tabs, t2: Tabs, t3: Tabs, v: Visit)
    requires Follows(t1, t2, Nothing) && Follows(t2, t3, v)
    ensures Follows(t1, t3, v)
  {
  }

  /** A step that visits v, then one that visits nothing. */
  lemma {:induction false} FollowsBefore(t1: Tabs, t2: Tabs, t3: Tabs, v: Visit)
    requires Follows(t1, t2, v) && Follows(t2, t3, Nothing)
    ensures Follows(t1, t3, v)
  {
  }

  /** Lowering an expression adds only null bindings and consumes identities. */
  lemma {:induction false} EmitExprFollows(st: State, e: Link, ord: Order)
    requires HasInsertPoint(st) && EmitExpr(st, e, ord).Some?
    ensures Follows(TablesOf(st), TablesOf(EmitExpr(st, e, ord).value.0), Nothing)
  {
    var r := LowerExpr(st.named, st.nextId, e, ord);
    LowerExprFacts(st.named, st.nextId, e, ord);
    if SlotsFresh(TablesOf(st)) {
      DistinctNullExtends(st.named, r.named);
    }
  }

  lemma {:induction false} EmitConditionFollows(st: State, e: Link, ord: Order)
    requires HasInsertPoint(st) && EmitCondition(st, e, ord).Some?
    ensures Follows(TablesOf(st), TablesOf(EmitCondition(st, e, ord).value.0), Nothing)
  {
    EmitExprFollows(st, e, ord);
  }

  /** A name looked up with `operator[]` is entered as null when absent. */
  lemma {:induction false} SubscriptFollows(t: Tabs, x: string)
    ensures Follows(t, t.(named := Subscript(t.named, x, NullHandle).0), Nothing)
  {
  }

  // ---------------------------------------------------------------------
  // Lowering statements follows the visit

  /** `add_statement` on a chain changes the tables as ChainVisit says. */
  lemma {:induction false} StmtFollows(st: State, l: Link, ord: Order)
    requires HasInsertPoint(st)
    ensures var r := LowerStmt(st, l, ord);
            && (r.Ok? ==> Follows(TablesOf(st), TablesOf(r.st), ChainVisit(l)))
            && (r.Fatal? ==> r.msg == "unknown statement.")
    decreases l, 4
  {
    if l.Some? {
      var n := l.value;
      NodeFollows(st, n, ord);
      var s := LowerNode(st, n, ord);
      if s.Continue? {
        StmtFollows(s.st, n.successor, ord);
        var r := LowerStmt(s.st, n.successor, ord);
        if r.Ok? {
          FollowsTrans(TablesOf(st), TablesOf(s.st), TablesOf(r.st), NodeVisit(n), ChainVisit(n.successor));
        }
      }
    }
  }

  /** What lowering one node does to the tables, as NodeVisit says. */
  ghost predicate NodeFollowsVisit(st: State, n: Node, r: NodeOutcome) {
    OutcomeFollows(TablesOf(st), n, r)
  }

  /** NodeFollowsVisit, from the tables t the node started with. */
  ghost predicate OutcomeFollows(t: Tabs, n: Node, r: NodeOutcome) {
    && (r.Continue? ==> GoesOn(n))
    && (r.Finish? ==> !GoesOn(n))
    && ((r.Continue? || r.Finish?) ==> Follows(t, TablesOf(r.st), NodeVisit(n)))
    && (r.StepFatal? ==> r.msg == "unknown statement.")
  }

  lemma {:induction false} NodeFollows(st: State, n: Node, ord: Order)
    requires HasInsertPoint(st)
    ensures NodeFollowsVisit(st, n, LowerNode(st, n, ord))
    decreases n, 4
  {
    if n.Auto? || n.Extrn? || n.Variable? || n.WhileLoop? || n.If? {
      NestingFollows(st, n, ord);
    } else {
      FlatFollows(st, n, ord);
    }
  }

  /** The kinds `add_statement` has a case for; every other kind is an unknown statement. */
  predicate Handled(n: Node) {
    || n.Stop? || n.Auto? || n.Extrn? || n.Variable? || n.Assignment? || n.WhileLoop?
    || n.If? || n.Label? || n.Goto? || n.Return? || n.Inc? || n.Dec?
  }

  /**
   * How lowering one node ends, by kind: a kind without a case is a fatal
   * unknown statement; STOP finishes with nothing changed; a label, a goto,
   * an increment and a decrement always go on; an assignment goes on, and a
   * return finishes, exactly when its value lowers, and are undefined
   * otherwise; an extern variable always finishes.
   */
  lemma {:induction false} NodeOutcomeKinds(st: State, n: Node, ord: Order)
    requires HasInsertPoint(st)
    ensures var r := LowerNode(st, n, ord);
            && (!Handled(n) ==> r == StepFatal("unknown statement."))
            && (n.Stop? ==> r == Finish(st))
            && ((n.Label? || n.Goto? || n.Inc? || n.Dec?) ==> r.Continue?)
            && (n.Assignment? ==>
                  && (r.Continue? <==> EmitExpr(st, n.next, ord).Some?)
                  && (!r.Continue? ==> r.StepUndefined?))
            && (n.Return? ==>
                  && (r.Finish? <==> EmitExpr(st, n.next, ord).Some?)
                  && (!r.Finish? ==> r.StepUndefined?))
            && ((n.Variable? && n.variableType == VarExtrn) ==> r.Finish?)
  {
    if n.Variable? {
      assert LowerNode(st, n, ord) == LowerVariable(st, n, ord);
    }
  }

  /** A fatal error comes only from an unknown kind or from a kind holding a nested chain that contains one. */
  lemma {:induction false} FatalComesFrom(st: State, n: Node, ord: Order)
    requires HasInsertPoint(st)
    ensures LowerNode(st, n, ord).StepFatal? ==>
              || !Handled(n) || n.Auto? || n.Extrn? || n.WhileLoop? || n.If?
              || (n.Variable? && n.variableType == VarAuto)
  {
    NodeOutcomeKinds(st, n, ord);
  }

  /** The kinds that hold a nested chain. */
  lemma {:induction false} NestingFollows(st: State, n: Node, ord: Order)
    requires HasInsertPoint(st) && (n.Auto? || n.Extrn? || n.Variable? || n.WhileLoop? || n.If?)
    ensures NodeFollowsVisit(st, n, LowerNode(st, n, ord))
    decreases n, 3
  {
    match n
    case Auto(next, _) => DeclarationFollows(st, n, ord);
    case Extrn(next, _) => DeclarationFollows(st, n, ord);
    case Variable(_, _, _, _) =>
      VariableFollows(st, n, ord);
      assert LowerNode(st, n, ord) == LowerVariable(st, n, ord);
    case WhileLoop(_, _, _) =>
      WhileFollows(st, n, ord);
      assert LowerNode(st, n, ord) == LowerWhile(st, n, ord);
    case If(_, _, _, _) =>
      IfFollows(st, n, ord);
      assert LowerNode(st, n, ord) == LowerIf(st, n, ord);
  }

  /** The kinds without a nested chain. */
  lemma {:induction false} FlatFollows(st: State, n: Node, ord: Order)
    requires HasInsertPoint(st) && !(n.Auto? || n.Extrn? || n.Variable? || n.WhileLoop? || n.If?)
    ensures NodeFollowsVisit(st, n, LowerNode(st, n, ord))
  {
    match n
    case Assignment(_, _, _) => AssignmentFollows(st, n, ord);
    case Label(_, _) => LabelFollows(st, n, ord);
    case Goto(_, _) => GotoFollows(st, n, ord);
    case Return(_, _) => ReturnFollows(st, n, ord);
    case Inc(x, _) => StepFollows(st, n, ord);
    case Dec(x, _) => StepFollows(st, n, ord);
    case _ => OtherFollows(st, n, ord);
  }

  lemma {:induction false} DeclarationFollows(st: State, n: Node, ord: Order)
    requires HasInsertPoint(st) && (n.Auto? || n.Extrn?)
    ensures NodeFollowsVisit(st, n, LowerNode(st, n, ord))
    decreases n, 2
  {
    StmtFollows(st, n.next, ord);
    assert LowerNode(st, n, ord) == Chained(LowerStmt(st, n.next, ord));
  }

  lemma {:induction false} LabelFollows(st: State, n: Node, ord: Order)
    requires HasInsertPoint(st) && n.Label?
    ensures NodeFollowsVisit(st, n, LowerNode(st, n, ord))
  {
  }

  /** The sentinel ends the chain; every other kind is an unknown statement. */
  lemma {:induction false} OtherFollows(st: State, n: Node, ord: Order)
    requires HasInsertPoint(st)
    requires !(n.Auto? || n.Extrn? || n.Variable? || n.Assignment? || n.WhileLoop? || n.If?)
    requires !(n.Label? || n.Goto? || n.Return? || n.Inc? || n.Dec?)
    ensures NodeFollowsVisit(st, n, LowerNode(st, n, ord))
  {
  }

  lemma {:induction false} StepFollows(st: State, n: Node, ord: Order)
    requires HasInsertPoint(st) && (n.Inc? || n.Dec?)
    ensures NodeFollowsVisit(st, n, LowerNode(st, n, ord))
  {
    var op := if n.Inc? then AddOp else SubOp;
    assert LowerNode(st, n, ord) == LowerStep(st, n.name, op);
    var t := TablesOf(st);
    var named1 := Subscript(t.named, n.name, NullHandle).0;
    var named2 := Subscript(named1, n.name, NullHandle).0;
    assert TablesOf(LowerStep(st, n.name, op).st) == t.(named := named2, nextId := t.nextId + 2);
    StepTablesFollow(t, n.name);
  }

  /** Two lookups of the same name and two identities used up. */
  lemma {:induction false} StepTablesFollow(t: Tabs, x: string)
    ensures var named1 := Subscript(t.named, x, NullHandle).0;
            Follows(t, t.(named := Subscript(named1, x, NullHandle).0, nextId := t.nextId + 2), Nothing)
  {
    var named1 := Subscript(t.named, x, NullHandle).0;
    SubscriptFollows(t, x);
    SubscriptFollows(t.(named := named1), x);
  }

  lemma {:induction false} GotoFollows(st: State, n: Node, ord: Order)
    requires HasInsertPoint(st) && n.Goto?
    ensures var r := LowerNode(st, n, ord); r.Continue? && Follows(TablesOf(st), TablesOf(r.st), Nothing)
  {
    var (labels, target) := Subscript(st.labels, n.name, NullBlock);
    assert LowerNode(st, n, ord) == Continue(Emit(st.(labels := labels), [Br(target)]));
  }

  lemma {:induction false} AssignmentFollows(st: State, n: Node, ord: Order)
    requires HasInsertPoint(st) && n.Assignment?
    ensures var r := LowerNode(st, n, ord); r.Continue? ==> Follows(TablesOf(st), TablesOf(r.st), Nothing)
  {
    var r := EmitExpr(st, n.next, ord);
    if r.Some? {
      EmitExprFollows(st, n.next, ord);
      var (s1, v) := r.value;
      var (named, h) := Subscript(s1.named, n.title, NullHandle);
      SubscriptFollows(TablesOf(s1), n.title);
      assert LowerNode(st, n, ord) == Continue(Emit(s1.(named := named), [Store(v, h)]));
    }
  }

  lemma {:induction false} ReturnFollows(st: State, n: Node, ord: Order)
    requires HasInsertPoint(st) && n.Return?
    ensures var r := LowerNode(st, n, ord); r.Finish? ==> Follows(TablesOf(st), TablesOf(r.st), NodeVisit(n))
  {
    var r := EmitExpr(st, n.next, ord);
    if r.Some? {
      EmitExprFollows(st, n.next, ord);
      assert LowerNode(st, n, ord) == Finish(Emit(r.value.0, [Ret(r.value.1)]).(doesReturn := true));
    }
  }

  /** An auto variable gets the next identity as its slot, so slots stay distinct and fresh. */
  lemma {:induction false} VariableFollows(st: State, n: Node, ord: Order)
    requires HasInsertPoint(st) && n.Variable?
    ensures NodeFollowsVisit(st, n, LowerVariable(st, n, ord))
    decreases n, 2
  {
    if n.variableType == VarAuto {
      var s2 := Allocate(st, n.title);
      AllocateFollows(st, n.title);
      StmtFollows(s2, n.next, ord);
      var r := LowerStmt(s2, n.next, ord);
      assert LowerVariable(st, n, ord) == Ended(r);
      if r.Ok? {
        FollowsAfter(TablesOf(st), TablesOf(s2), TablesOf(r.st), ChainVisit(n.next));
        assert ChainVisit(n.next) == NodeVisit(n);
      }
    } else {
      assert TablesOf(LowerVariable(st, n, ord).st) == TablesOf(st);
    }
  }

  /** A fresh stack slot: the name is bound to the next identity, which is then used up. */
  lemma {:induction false} AllocateFollows(st: State, x: string)
    requires HasInsertPoint(st)
    ensures Follows(TablesOf(st), TablesOf(Allocate(st, x)), Nothing)
  {
    var s1 := Emit(st, [Alloca(st.nextId, x)]);
    assert TablesOf(Allocate(st, x)) == TablesOf(st).(named := st.named[x := Slot(st.nextId)], nextId := st.nextId + 1);
  }

  lemma {:induction false} WhileFollows(st: State, n: Node, ord: Order)
    requires HasInsertPoint(st) && n.WhileLoop?
    ensures NodeFollowsVisit(st, n, LowerWhile(st, n, ord))
    decreases n, 2
  {
    var f, k := st.insertFn, |Blocks(st)|;
    var s1 := AddBlock(AddBlock(st, "while_then"), "while_merge");
    var c := EmitCondition(s1, n.inner, ord);
    if c.Some? {
      WhileUnfold(st, n, c.value.0, c.value.1, ord);
      var s2 := MoveTo(Emit(c.value.0, [CondBr(c.value.1, BlockAt(f, k), BlockAt(f, k + 1))]), k);
      assert Follows(TablesOf(st), TablesOf(s2), Nothing) by {
        assert TablesOf(s1) == TablesOf(st);
        EmitConditionFollows(s1, n.inner, ord);
      }
      BodyFollows(TablesOf(st), s2, n, k, ord);
    }
  }

  /** The body and the retest of a loop, from the block k the first test branches to (s2). */
  lemma {:induction false} BodyFollows(t0: Tabs, s2: State, n: Node, k: nat, ord: Order)
    requires HasInsertPoint(s2) && k + 1 < |Blocks(s2)| && n.WhileLoop?
    requires Follows(t0, TablesOf(s2), Nothing)
    ensures var r := LowerStmt(s2, n.next, ord);
            OutcomeFollows(t0, n, if !r.Ok? then Chained(r) else LoopBack(r.st, n.inner, k, ord))
    decreases n, 0
  {
    StmtFollows(s2, n.next, ord);
    var r := LowerStmt(s2, n.next, ord);
    if r.Ok? {
      LoopBackFollows(r.st, n.inner, k, ord);
      var t := LoopBack(r.st, n.inner, k, ord);
      if t.Continue? {
        LoopFollows(n, t0, TablesOf(s2), TablesOf(r.st), TablesOf(t.st));
      }
    }
  }

  /** The tables after a loop: the first test, the body, and the retest. */
  lemma {:induction false} LoopFollows(n: Node, t0: Tabs, t1: Tabs, t2: Tabs, t3: Tabs)
    requires n.WhileLoop?
    requires Follows(t0, t1, Nothing) && Follows(t1, t2, ChainVisit(n.next)) && Follows(t2, t3, Nothing)
    ensures Follows(t0, t3, NodeVisit(n))
  {
    FollowsAfter(t0, t1, t2, ChainVisit(n.next));
    FollowsBefore(t0, t2, t3, ChainVisit(n.next));
  }

  lemma {:induction false} LoopBackFollows(st: State, cond: Link, k: nat, ord: Order)
    requires HasInsertPoint(st) && k + 1 < |Blocks(st)|
    ensures var r := LoopBack(st, cond, k, ord); r.Continue? ==> Follows(TablesOf(st), TablesOf(r.st), Nothing)
  {
    var c := EmitCondition(st, cond, ord);
    if c.Some? {
      EmitConditionFollows(st, cond, ord);
    }
  }

  lemma {:induction false} IfFollows(st: State, n: Node, ord: Order)
    requires HasInsertPoint(st) && n.If?
    ensures NodeFollowsVisit(st, n, LowerIf(st, n, ord))
    decreases n, 2
  {
    var s1 := AddBlock(AddBlock(st, "if_then"), "if_merge");
    var c := EmitCondition(s1, n.cond, ord);
    if c.Some? && n.elseT.Some? {
      assert Follows(TablesOf(st), TablesOf(c.value.0), Nothing) by {
        assert TablesOf(s1) == TablesOf(st);
        EmitConditionFollows(s1, n.cond, ord);
      }
      if !n.elseT.value.Stop? {
        IfElseFollows(st, n, c.value.0, c.value.1, ord);
      } else {
        IfNoElseFollows(st, n, c.value.0, c.value.1, ord);
      }
    }
  }

  /** An `if` with an else arm, from the state after its condition. */
  lemma {:induction false} IfElseFollows(st: State, n: Node, sc: State, cond: Operand, ord: Order)
    requires HasInsertPoint(st) && n.If? && n.elseT.Some? && !n.elseT.value.Stop?
    requires EmitCondition(AddBlock(AddBlock(st, "if_then"), "if_merge"), n.cond, ord) == Some((sc, cond))
    requires Follows(TablesOf(st), TablesOf(sc), Nothing)
    ensures NodeFollowsVisit(st, n, LowerIf(st, n, ord))
    decreases n, 1
  {
    IfElseUnfold(st, n, sc, cond, ord);
    ArmsFollow(TablesOf(st), sc, cond, st.insertFn, |Blocks(st)|, n, ord);
  }

  /**
   * The two arms of an `if` with an else arm, from the state after its
   * condition (sc): block `if_else` and the branch added, the else arm,
   * then the then arm.
   */
  lemma {:induction false} ArmsFollow(t0: Tabs, sc: State, cond: Operand, f: nat, k: nat, n: Node, ord: Order)
    requires HasInsertPoint(sc) && |Blocks(sc)| == k + 2
    requires n.If? && n.elseT.Some? && !n.elseT.value.Stop?
    requires Follows(t0, TablesOf(sc), Nothing)
    ensures var s2 := Emit(AddBlock(sc, "if_else"), [CondBr(cond, BlockAt(f, k), BlockAt(f, k + 2))]);
            var r := LowerElse(s2, n.elseT, k, ord);
            OutcomeFollows(t0, n, if !r.Continue? then r else LowerThen(r.st, n.statements, k, ord))
    decreases n, 0
  {
    var s2 := Emit(AddBlock(sc, "if_else"), [CondBr(cond, BlockAt(f, k), BlockAt(f, k + 2))]);
    assert TablesOf(s2) == TablesOf(sc);
    ElseFollows(s2, n.elseT, k, ord);
    var r := LowerElse(s2, n.elseT, k, ord);
    if r.Continue? {
      ThenFollows(r.st, n.statements, k, ord);
      var t := LowerThen(r.st, n.statements, k, ord);
      if t.Continue? {
        BothArmsFollow(n, t0, TablesOf(s2), TablesOf(r.st), TablesOf(t.st));
      }
    }
  }

  /** The tables after both arms of an `if`, the else arm lowered first. */
  lemma {:induction false} BothArmsFollow(n: Node, t0: Tabs, t1: Tabs, t2: Tabs, t3: Tabs)
    requires n.If? && n.elseT.Some? && !n.elseT.value.Stop?
    requires Follows(t0, t1, Nothing) && Follows(t1, t2, ChainVisit(n.elseT)) && Follows(t2, t3, ChainVisit(n.statements))
    ensures Follows(t0, t3, NodeVisit(n))
  {
    FollowsAfter(t0, t1, t2, ChainVisit(n.elseT));
    FollowsTrans(t0, t2, t3, ChainVisit(n.elseT), ChainVisit(n.statements));
  }

  /** An `if` without an else arm, from the state after its condition. */
  lemma {:induction false} IfNoElseFollows(st: State, n: Node, sc: State, cond: Operand, ord: Order)
    requires HasInsertPoint(st) && n.If? && n.elseT.Some? && n.elseT.value.Stop?
    requires EmitCondition(AddBlock(AddBlock(st, "if_then"), "if_merge"), n.cond, ord) == Some((sc, cond))
    requires Follows(TablesOf(st), TablesOf(sc), Nothing)
    ensures NodeFollowsVisit(st, n, LowerIf(st, n, ord))
    decreases n, 1
  {
    var f, k := st.insertFn, |Blocks(st)|;
    IfNoElseUnfold(st, n, sc, cond, ord);
    var s2 := Emit(sc, [CondBr(cond, BlockAt(f, k), BlockAt(f, k + 1))]);
    assert TablesOf(s2) == TablesOf(sc);
    ThenArmFollows(TablesOf(st), s2, n, k, ord);
  }

  /** The then arm of an `if` without an else arm, from the state its prologue left (s2). */
  lemma {:induction false} ThenArmFollows(t0: Tabs, s2: State, n: Node, k: nat, ord: Order)
    requires HasInsertPoint(s2) && k + 1 < |Blocks(s2)|
    requires n.If? && n.elseT.Some? && n.elseT.value.Stop?
    requires Follows(t0, TablesOf(s2), Nothing)
    ensures OutcomeFollows(t0, n, LowerThen(s2, n.statements, k, ord))
    decreases n, 0
  {
    ThenFollows(s2, n.statements, k, ord);
    var t := LowerThen(s2, n.statements, k, ord);
    if t.Continue? {
      FollowsAfter(t0, TablesOf(s2), TablesOf(t.st), ChainVisit(n.statements));
      assert ChainVisit(n.statements) == NodeVisit(n);
    }
  }

  lemma {:induction false} ElseFollows(st: State, elseArm: Link, k: nat, ord: Order)
    requires HasInsertPoint(st) && k + 2 < |Blocks(st)|
    ensures var r := LowerElse(st, elseArm, k, ord);
            ((r.Continue? || r.Finish?) ==> r.Continue? && Follows(TablesOf(st), TablesOf(r.st), ChainVisit(elseArm)))
            && (r.StepFatal? ==> r.msg == "unknown statement.")
    decreases elseArm, 5
  {
    StmtFollows(MoveTo(st, k + 2), elseArm, ord);
  }

  lemma {:induction false} ThenFollows(st: State, thenArm: Link, k: nat, ord: Order)
    requires HasInsertPoint(st) && k + 1 < |Blocks(st)|
    ensures var r := LowerThen(st, thenArm, k, ord);
            ((r.Continue? || r.Finish?) ==> r.Continue? && Follows(TablesOf(st), TablesOf(r.st), ChainVisit(thenArm)))
            && (r.StepFatal? ==> r.msg == "unknown statement.")
    decreases thenArm, 5
  {
    StmtFollows(MoveTo(st, k), thenArm, ord);
  }
}
