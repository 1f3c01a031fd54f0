/** What later code may rely on: contexts only grow, and they know what the text says about names. */
module M6Context {
  import opened Bytes
  import opened M6Machine
  import opened M6Syntax
  import opened M6Codegen

  predicate Extends(c: Ctx, d: Ctx) {
    c.pool <= d.pool && c.fastLocals <= d.fastLocals && c.inFunction == d.inFunction && (d.ok ==> c.ok) &&
    forall x <- c.locals :: x in d.locals && d.locals[x] == c.locals[x]
  }

  lemma ExtendsTransitive(c: Ctx, d: Ctx, e: Ctx)
    requires Extends(c, d) && Extends(d, e)
    ensures Extends(c, e)
  {
  }

  /** Every slot is that of one name. */
  predicate WellFormed(c: Ctx) {
    forall x <- c.locals :: c.locals[x] < |c.fastLocals| && c.fastLocals[c.locals[x]] == x
  }

  // ------------------------------------------------------------------------------------------ growth

  /** Expressions add constants only. */
  predicate OnlyConstants(c: Ctx, d: Ctx) {
    Extends(c, d) && d.Scope() == c.Scope() && d.locals == c.locals && d.fastLocals == c.fastLocals
  }

  lemma OnlyConstantsThen(c: Ctx, d: Ctx, e: Ctx)
    requires OnlyConstants(c, d) && OnlyConstants(d, e)
    ensures OnlyConstants(c, e)
  {
  }

  lemma ConstGrows(c: Ctx, k: Const, id: string)
    ensures OnlyConstants(c, ConstCode(c, k).1) && OnlyConstants(c, LoadCode(c, id).1)
    ensures OnlyConstants(c, InternName(c, id).1) && OnlyConstants(c, c)
  {
  }

  lemma {:induction false} ExprAdds(c: Ctx, e: Expr)
    ensures OnlyConstants(c, ExprCode(c, e).1)
    decreases e
  {
    hide OnlyConstants, ConstCode, LoadCode, InternName;
    match e
    case Literal(k) => ConstGrows(c, k, "");
    case Name(id) => ConstGrows(c, Nil, id);
    case ListLiteral(elements) => ExprsAdd(c, elements);
    case DictLiteral(entries) => EntriesAdd(c, entries);
    case Unary(_, sub) => ExprAdds(c, sub);
    case Binary(_, lhs, rhs) =>
      var c1 := ExprCode(c, lhs).1;
      ExprAdds(c, lhs);
      ExprAdds(c1, rhs);
      OnlyConstantsThen(c, c1, ExprCode(c1, rhs).1);
    case Paren(sub) => ExprAdds(c, sub);
    case Invoke(fn, args, kwargs) =>
      var c1 := ExprCode(c, fn).1;
      var c2 := ExprsCode(c1, args).1;
      ExprAdds(c, fn);
      ExprsAdd(c1, args);
      EntriesAdd(c2, kwargs);
      OnlyConstantsThen(c, c1, c2);
      OnlyConstantsThen(c, c2, EntriesCode(c2, kwargs).1);
    case Subscript(primary, index) =>
      var c1 := ExprCode(c, primary).1;
      ExprAdds(c, primary);
      ExprAdds(c1, index);
      OnlyConstantsThen(c, c1, ExprCode(c1, index).1);
    case Member(primary, member) =>
      var c1 := ExprCode(c, primary).1;
      ExprAdds(c, primary);
      ConstGrows(c1, Nil, member);
      OnlyConstantsThen(c, c1, InternName(c1, member).1);
  }

  lemma {:induction false} ExprsAdd(c: Ctx, es: seq<Expr>)
    ensures OnlyConstants(c, ExprsCode(c, es).1)
    decreases es
  {
    hide OnlyConstants, ExprCode;
    if es == [] {
      ConstGrows(c, Nil, "");
    } else {
      var c1 := ExprCode(c, es[0]).1;
      ExprAdds(c, es[0]);
      ExprsAdd(c1, es[1..]);
      OnlyConstantsThen(c, c1, ExprsCode(c1, es[1..]).1);
    }
  }

  lemma {:induction false} EntryAdds(c: Ctx, entry: Entry)
    ensures OnlyConstants(c, EntryCode(c, entry).1)
    decreases entry
  {
    hide OnlyConstants, ExprCode;
    var c1 := ExprCode(c, entry.key).1;
    ExprAdds(c, entry.key);
    ExprAdds(c1, entry.value);
    OnlyConstantsThen(c, c1, ExprCode(c1, entry.value).1);
  }

  lemma {:induction false} EntriesAdd(c: Ctx, entries: seq<Entry>)
    ensures OnlyConstants(c, EntriesCode(c, entries).1)
    decreases entries
  {
    hide OnlyConstants, EntryCode;
    if entries == [] {
      ConstGrows(c, Nil, "");
    } else {
      var c1 := EntryCode(c, entries[0]).1;
      EntryAdds(c, entries[0]);
      EntriesAdd(c1, entries[1..]);
      OnlyConstantsThen(c, c1, EntriesCode(c1, entries[1..]).1);
    }
  }

  lemma ExprGrows(c: Ctx, e: Expr)
    ensures Extends(c, ExprCode(c, e).1) && ExprCode(c, e).1.Scope() == c.Scope()
    ensures WellFormed(c) ==> WellFormed(ExprCode(c, e).1)
  {
    hide ExprCode;
    ExprAdds(c, e);
  }

  lemma ExprsGrow(c: Ctx, es: seq<Expr>)
    ensures Extends(c, ExprsCode(c, es).1) && ExprsCode(c, es).1.Scope() == c.Scope()
  {
    hide ExprsCode;
    ExprsAdd(c, es);
  }

  lemma EntryGrows(c: Ctx, entry: Entry)
    ensures Extends(c, EntryCode(c, entry).1) && EntryCode(c, entry).1.Scope() == c.Scope()
  {
    hide EntryCode;
    EntryAdds(c, entry);
  }

  lemma EntriesGrow(c: Ctx, entries: seq<Entry>)
    ensures Extends(c, EntriesCode(c, entries).1) && EntriesCode(c, entries).1.Scope() == c.Scope()
  {
    hide EntriesCode;
    EntriesAdd(c, entries);
  }

  /** What holds of the context behind a piece of code: it has grown, and if there was no error, its names are those the
      text says. */
  predicate Grown(c: Ctx, d: Ctx, after: Names) {
    Extends(c, d) && (WellFormed(c) ==> WellFormed(d)) && (d.ok ==> d.Scope() == after)
  }

  lemma StoreGrows(c: Ctx, id: string)
    ensures Grown(c, StoreCode(c, id).1, c.Scope().AfterStore(id))
  {
    var d := StoreCode(c, id).1;
    if d.ok && c.Scope().StoresLocally(id) {
      assert d.locals.Keys == c.locals.Keys + {id};
    }
  }

  lemma GrownByExpr(c: Ctx, e: Expr)
    ensures Grown(c, ExprCode(c, e).1, c.Scope())
  {
    ExprGrows(c, e);
  }

  lemma GrownThen(c: Ctx, d: Ctx, e: Ctx, between: Names, after: Names)
    requires Grown(c, d, between) && Grown(d, e, after)
    ensures Grown(c, e, after) && (e.ok ==> d.ok && d.Scope() == between)
  {
  }

  lemma GrownByName(c: Ctx, s: string)
    ensures Grown(c, InternName(c, s).1, c.Scope())
  {
  }

  lemma AssignGrows(c: Ctx, t: Target, rhs: Expr)
    ensures Grown(c, AssignCode(c, t, rhs).1, AfterTarget(c.Scope(), t))
  {
    hide Grown;
    match t
    case Variable(id) =>
      var c1 := ExprCode(c, rhs).1;
      GrownByExpr(c, rhs);
      ExprGrows(c, rhs);
      StoreGrows(c1, id);
      GrownThen(c, c1, StoreCode(c1, id).1, c.Scope(), c.Scope().AfterStore(id));
    case Field(primary, member) =>
      var c1 := ExprCode(c, primary).1;
      var c2 := ExprCode(c1, rhs).1;
      TwoExprs(c, primary, rhs);
      GrownByName(c2, member);
      GrownThen(c, c2, InternName(c2, member).1, c.Scope(), c.Scope());
    case Item(primary, index) =>
      var c1 := ExprCode(c, primary).1;
      var c2 := ExprCode(c1, index).1;
      TwoExprs(c, primary, index);
      GrownByExpr(c2, rhs);
      GrownThen(c, c2, ExprCode(c2, rhs).1, c.Scope(), c.Scope());
  }

  lemma TwoExprs(c: Ctx, a: Expr, b: Expr)
    ensures var d := ExprCode(ExprCode(c, a).1, b).1;
            Grown(c, d, c.Scope()) && d.Scope() == c.Scope()
  {
    ExprGrows(c, a);
    ExprGrows(ExprCode(c, a).1, b);
  }

  lemma AugGrows(c: Ctx, t: Target, op: int, rhs: Expr)
    ensures Grown(c, AugCode(c, t, op, rhs).1, AfterTarget(c.Scope(), t))
  {
    hide Grown;
    match t
    case Variable(id) =>
      TwoExprs(c, Name(id), rhs);
      var c2 := ExprCode(LoadCode(c, id).1, rhs).1;
      StoreGrows(c2, id);
      GrownThen(c, c2, StoreCode(c2, id).1, c.Scope(), c.Scope().AfterStore(id));
    case Field(primary, member) =>
      TwoExprs(c, Member(primary, member), rhs);
      var c3 := ExprCode(ExprCode(c, Member(primary, member)).1, rhs).1;
      GrownByName(c3, member);
      GrownThen(c, c3, InternName(c3, member).1, c.Scope(), c.Scope());
    case Item(primary, index) =>
      TwoExprs(c, Subscript(primary, index), rhs);
  }

  lemma {:induction false} StmtGrows(c: Ctx, s: Stmt)
    ensures Grown(c, StmtCode(c, s).1, After(c.Scope(), s))
    decreases s
  {
    hide Grown;
    match s
    case ExprStmt(e) => GrownByExpr(c, e);
    case Assign(lhs, rhs) => AssignGrows(c, lhs, rhs);
    case Aug(lhs, op, rhs) => AugGrows(c, lhs, op, rhs);
    case ScopeStmt(vars) => ScopeGrows(c, vars);
    case Block(body) => StmtsGrow(c, body);
    case If(cond, yes, no) =>
      ExprGrows(c, cond);
      GrownByExpr(c, cond);
      var c1 := ExprCode(c, cond).1;
      StmtGrows(c1, yes);
      var c2 := StmtCode(c1, yes).1;
      GrownThen(c, c1, c2, c.Scope(), After(c.Scope(), yes));
      OptionGrows(c2, no);
      GrownThenOption(c, c2, no, After(c.Scope(), yes));
    case While(cond, loop) =>
      ExprGrows(c, cond);
      GrownByExpr(c, cond);
      var c1 := ExprCode(c, cond).1;
      StmtGrows(c1, loop);
      GrownThen(c, c1, StmtCode(c1, loop).1, c.Scope(), After(c.Scope(), loop));
    case For(init, until, inc, loop) =>
      OptionGrows(c, init);
      var c1 := OptionCode(c, init).1;
      var n1 := AfterOption(c.Scope(), init);
      ExprGrows(c1, Condition(until));
      GrownByExpr(c1, Condition(until));
      var c2 := ExprCode(c1, Condition(until)).1;
      StmtGrows(c2, loop);
      var c3 := StmtCode(c2, loop).1;
      OptionGrows(c3, inc);
      ForGrows(c, c1, c2, c3, OptionCode(c3, inc).1, n1, loop, inc);
    case ThrowStmt(e) => GrownByExpr(c, e);
    case Try(attempt, catchVar, handler) =>
      StmtGrows(c, attempt);
      var c1 := StmtCode(c, attempt).1;
      StoreGrows(c1, catchVar);
      var c2 := StoreCode(c1, catchVar).1;
      StmtGrows(c2, handler);
      TryGrows(c, c1, c2, StmtCode(c2, handler).1, After(c.Scope(), attempt), catchVar, handler);
  }

  lemma ScopeGrows(c: Ctx, vars: seq<string>)
    ensures Grown(c, c.(globals := c.globals + set id | id in vars), After(c.Scope(), ScopeStmt(vars)))
  {
  }

  lemma GrownThenOption(c: Ctx, d: Ctx, s: Option<Stmt>, between: Names)
    requires Grown(c, d, between) && Grown(d, OptionCode(d, s).1, AfterOption(d.Scope(), s))
    ensures Grown(c, OptionCode(d, s).1, AfterOption(between, s))
    ensures OptionCode(d, s).1.ok ==> d.ok
  {
  }

  lemma ForGrows(
      c: Ctx, c1: Ctx, c2: Ctx, c3: Ctx, c4: Ctx, n1: Names, loop: Stmt, inc: Option<Stmt>)
    requires Grown(c, c1, n1) && Grown(c1, c2, c1.Scope()) && c2.Scope() == c1.Scope()
    requires Grown(c2, c3, After(c2.Scope(), loop)) && Grown(c3, c4, AfterOption(c3.Scope(), inc))
    ensures Grown(c, c4, AfterOption(After(n1, loop), inc))
  {
  }

  lemma TryGrows(c: Ctx, c1: Ctx, c2: Ctx, c3: Ctx, n1: Names, catchVar: string, handler: Stmt)
    requires Grown(c, c1, n1) && Grown(c1, c2, c1.Scope().AfterStore(catchVar))
    requires Grown(c2, c3, After(c2.Scope(), handler))
    ensures Grown(c, c3, After(n1.AfterStore(catchVar), handler))
  {
  }

  lemma {:induction false} StmtsGrow(c: Ctx, body: seq<Stmt>)
    ensures Grown(c, StmtsCode(c, body).1, AfterAll(c.Scope(), body))
    decreases body
  {
    if body != [] {
      StmtGrows(c, body[0]);
      StmtsGrow(StmtCode(c, body[0]).1, body[1..]);
    }
  }

  lemma {:induction false} OptionGrows(c: Ctx, s: Option<Stmt>)
    ensures Grown(c, OptionCode(c, s).1, AfterOption(c.Scope(), s))
    decreases s
  {
    if s.Some? {
      StmtGrows(c, s.value);
    }
  }
}
