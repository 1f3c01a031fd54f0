/** Properties of m6 code and m6 programs that name no part of the generator: pools, slots, callees, endless loops. */
module M6Laws {
  import opened Bytes
  import opened M6Machine
  import opened M6Syntax
  import opened M6Codegen

  // ------------------------------------------------------------------------------------------ pools and slots

  predicate StringsOnce(pool: seq<Const>) {
    forall i, j :: 0 <= i < j < |pool| && pool[i].Str? ==> pool[i] != pool[j]
  }

  /** No string is in the pool twice, and every slot fits in two bytes. */
  predicate Tidy(c: Ctx) {
    StringsOnce(c.pool) && |c.fastLocals| <= 65536 && forall x <- c.locals :: c.locals[x] < |c.fastLocals|
  }

  lemma {:induction false} FindMisses(pool: seq<Const>, s: string)
    ensures Find(pool, s) == |pool| ==> Str(s) !in pool
  {
    if pool != [] && pool[0] != Str(s) {
      FindMisses(pool[1..], s);
      assert pool == [pool[0]] + pool[1..];
    }
  }

  lemma NameTidy(c: Ctx, s: string)
    requires Tidy(c)
    ensures Tidy(InternName(c, s).1)
  {
    hide Find;
    FindMisses(c.pool, s);
  }

  lemma ConstTidy(c: Ctx, k: Const)
    requires Tidy(c)
    ensures Tidy(ConstCode(c, k).1)
  {
    hide InternName;
    if k.Str? {
      NameTidy(c, k.text);
    }
  }

  lemma LoadTidy(c: Ctx, id: string)
    requires Tidy(c)
    ensures Tidy(LoadCode(c, id).1)
  {
    hide InternName, Tidy;
    NameTidy(c, id);
  }

  /** A name that has no slot gets the next one, up to the 65536th; the one behind is an error. */
  lemma StoreTidy(c: Ctx, id: string)
    requires Tidy(c)
    ensures Tidy(StoreCode(c, id).1)
    ensures c.inFunction && id !in c.globals && id !in c.locals ==>
              var (code, d) := StoreCode(c, id);
              if |c.fastLocals| < 65536 then code == [StoreFast(|c.fastLocals|)] && d.ok == c.ok
              else code == [] && !d.ok
  {
    hide InternName;
    NameTidy(c, id);
  }

  lemma {:induction false} ExprTidy(c: Ctx, e: Expr)
    requires Tidy(c)
    ensures Tidy(ExprCode(c, e).1)
    decreases e
  {
    hide Tidy, ConstCode, LoadCode, InternName;
    match e
    case Literal(k) => ConstTidy(c, k);
    case Name(id) => LoadTidy(c, id);
    case ListLiteral(elements) => ExprsTidy(c, elements);
    case DictLiteral(entries) => EntriesTidy(c, entries);
    case Unary(_, sub) => ExprTidy(c, sub);
    case Binary(_, lhs, rhs) =>
      ExprTidy(c, lhs);
      ExprTidy(ExprCode(c, lhs).1, rhs);
    case Paren(sub) => ExprTidy(c, sub);
    case Invoke(fn, args, kwargs) =>
      ExprTidy(c, fn);
      ExprsTidy(ExprCode(c, fn).1, args);
      EntriesTidy(ExprsCode(ExprCode(c, fn).1, args).1, kwargs);
    case Subscript(primary, index) =>
      ExprTidy(c, primary);
      ExprTidy(ExprCode(c, primary).1, index);
    case Member(primary, member) =>
      ExprTidy(c, primary);
      NameTidy(ExprCode(c, primary).1, member);
  }

  lemma {:induction false} ExprsTidy(c: Ctx, es: seq<Expr>)
    requires Tidy(c)
    ensures Tidy(ExprsCode(c, es).1)
    decreases es
  {
    hide Tidy, ExprCode;
    if es != [] {
      ExprTidy(c, es[0]);
      ExprsTidy(ExprCode(c, es[0]).1, es[1..]);
    }
  }

  lemma {:induction false} EntryTidy(c: Ctx, entry: Entry)
    requires Tidy(c)
    ensures Tidy(EntryCode(c, entry).1)
    decreases entry
  {
    hide Tidy, ExprCode;
    ExprTidy(c, entry.key);
    ExprTidy(ExprCode(c, entry.key).1, entry.value);
  }

  lemma {:induction false} EntriesTidy(c: Ctx, entries: seq<Entry>)
    requires Tidy(c)
    ensures Tidy(EntriesCode(c, entries).1)
    decreases entries
  {
    hide Tidy, EntryCode;
    if entries != [] {
      EntryTidy(c, entries[0]);
      EntriesTidy(EntryCode(c, entries[0]).1, entries[1..]);
    }
  }

  lemma AssignTidy(c: Ctx, t: Target, rhs: Expr)
    requires Tidy(c)
    ensures Tidy(AssignCode(c, t, rhs).1)
  {
    hide Tidy, ExprCode, StoreCode, InternName;
    match t
    case Variable(id) =>
      ExprTidy(c, rhs);
      StoreTidy(ExprCode(c, rhs).1, id);
    case Field(primary, member) =>
      ExprTidy(c, primary);
      var c1 := ExprCode(c, primary).1;
      ExprTidy(c1, rhs);
      NameTidy(ExprCode(c1, rhs).1, member);
    case Item(primary, index) =>
      ExprTidy(c, primary);
      var c1 := ExprCode(c, primary).1;
      ExprTidy(c1, index);
      ExprTidy(ExprCode(c1, index).1, rhs);
  }

  lemma AugTidy(c: Ctx, t: Target, op: int, rhs: Expr)
    requires Tidy(c)
    ensures Tidy(AugCode(c, t, op, rhs).1)
  {
    hide Tidy, ExprCode, StoreCode, InternName, LoadCode;
    match t
    case Variable(id) =>
      LoadTidy(c, id);
      var c1 := LoadCode(c, id).1;
      ExprTidy(c1, rhs);
      StoreTidy(ExprCode(c1, rhs).1, id);
    case Field(primary, member) =>
      ExprTidy(c, primary);
      var c1 := ExprCode(c, primary).1;
      NameTidy(c1, member);
      var c2 := InternName(c1, member).1;
      ExprTidy(c2, rhs);
      NameTidy(ExprCode(c2, rhs).1, member);
    case Item(primary, index) =>
      ExprTidy(c, primary);
      var c1 := ExprCode(c, primary).1;
      ExprTidy(c1, index);
      ExprTidy(ExprCode(c1, index).1, rhs);
  }

  /** Whatever is compiled, no string comes into the pool twice and every slot fits in the two bytes of its operand. */
  lemma {:induction false} StmtTidy(c: Ctx, s: Stmt)
    requires Tidy(c)
    ensures Tidy(StmtCode(c, s).1)
    decreases s
  {
    hide Tidy, ExprCode, StoreCode, AssignCode, AugCode, Size, LoopParts;
    match s
    case ExprStmt(e) => ExprTidy(c, e);
    case Assign(lhs, rhs) => AssignTidy(c, lhs, rhs);
    case Aug(lhs, op, rhs) => AugTidy(c, lhs, op, rhs);
    case ScopeStmt(vars) => GlobalsTidy(c, c.globals + set id | id in vars);
    case Block(body) => StmtsTidy(c, body);
    case If(cond, yes, no) =>
      ExprTidy(c, cond);
      var c1 := ExprCode(c, cond).1;
      StmtTidy(c1, yes);
      OptionTidy(StmtCode(c1, yes).1, no);
    case While(cond, loop) =>
      ExprTidy(c, cond);
      StmtTidy(ExprCode(c, cond).1, loop);
    case For(init, until, inc, loop) =>
      OptionTidy(c, init);
      var c1 := OptionCode(c, init).1;
      ExprTidy(c1, Condition(until));
      var c2 := ExprCode(c1, Condition(until)).1;
      StmtTidy(c2, loop);
      OptionTidy(StmtCode(c2, loop).1, inc);
    case ThrowStmt(e) => ExprTidy(c, e);
    case Try(attempt, catchVar, handler) =>
      StmtTidy(c, attempt);
      var c1 := StmtCode(c, attempt).1;
      StoreTidy(c1, catchVar);
      StmtTidy(StoreCode(c1, catchVar).1, handler);
  }

  lemma GlobalsTidy(c: Ctx, globals: set<string>)
    requires Tidy(c)
    ensures Tidy(c.(globals := globals))
  {
  }

  lemma {:induction false} StmtsTidy(c: Ctx, body: seq<Stmt>)
    requires Tidy(c)
    ensures Tidy(StmtsCode(c, body).1)
    decreases body
  {
    hide Tidy, StmtCode;
    if body != [] {
      StmtTidy(c, body[0]);
      StmtsTidy(StmtCode(c, body[0]).1, body[1..]);
    }
  }

  lemma {:induction false} OptionTidy(c: Ctx, s: Option<Stmt>)
    requires Tidy(c)
    ensures Tidy(OptionCode(c, s).1)
    decreases s
  {
    hide Tidy, StmtCode;
    if s.Some? {
      StmtTidy(c, s.value);
    }
  }

  // ------------------------------------------------------------------------------------------ meaning

  /** Counts go round at 256. */
  lemma CountsGoRound(n: nat)
    ensures ToByte(n + 256) == ToByte(n) && (n < 256 ==> ToByte(n) == n)
  {
  }

  /** What is called finds the function first: a value that stands for itself is the function, and one that is bound
      gives its function, its receivers, and then the arguments of the call. */
  lemma CalleeIsFirst<V, W>(ops: Ops<V, W>, n: Names, env: map<string, V>, fn: Const, arg: Const, w: W)
    ensures var (f, a) := (ops.constant(fn), ops.constant(arg));
            var (callee, receivers) := ops.bound(f, w);
            Eval(ops, n, env, Invoke(Literal(fn), [Literal(arg)], []), w) ==
            ops.call(f, if receivers == [] then [f, a] else [callee] + receivers + [a], [], w)
  {
    var (f, a) := (ops.constant(fn), ops.constant(arg));
    assert [Literal(arg)][1..] == [];
    assert EvalAll(ops, n, env, [], w) == AllDone([], w);
    assert EvalAll(ops, n, env, [Literal(arg)], w) == AllDone([a] + [], w);
    assert EvalEntries(ops, n, env, [], w) == AllDone([], w);
    var called := Front(ops, f, f, w) + [a];
    assert called == if ops.bound(f, w).1 == [] then [f, a] else [ops.bound(f, w).0] + ops.bound(f, w).1 + [a];
    assert Eval(ops, n, env, Literal(fn), w) == Done(f, w);
    hide EvalAll, EvalEntries;
    assert [a] + [] == [a];
  }

  /** A loop without a condition is left by an exception only. */
  lemma {:induction false} NoConditionNeverEnds<V, W>(
      ops: Ops<V, W>, n: Names, env: map<string, V>, init: Option<Stmt>, inc: Option<Stmt>, loop: Stmt, w: W,
      fuel: nat)
    requires ops.truthy(ops.constant(True))
    ensures !Exec(ops, n, env, For(init, None, inc, loop), w, fuel).Normal?
  {
    hide ExecLoop, ExecOption;
    var first := ExecOption(ops, n, env, init, w, fuel);
    if first.Normal? {
      RoundsGoOn(ops, AfterOption(n, init), first.env, inc, loop, first.world, fuel);
    }
  }

  lemma {:induction false} RoundsGoOn<V, W>(
      ops: Ops<V, W>, n: Names, env: map<string, V>, inc: Option<Stmt>, loop: Stmt, w: W, fuel: nat)
    requires ops.truthy(ops.constant(True))
    ensures !ExecLoop(ops, n, env, None, loop, inc, w, fuel).Normal?
    decreases fuel
  {
    hide Exec, ExecOption;
    if fuel > 0 {
      assert Eval(ops, n, env, Condition(None), w) == Done(ops.constant(True), w);
      var body := Exec(ops, n, env, loop, w, fuel - 1);
      if body.Normal? {
        var behind := ExecOption(ops, After(n, loop), body.env, inc, body.world, fuel - 1);
        if behind.Normal? {
          RoundsGoOn(ops, n, behind.env, inc, loop, behind.world, fuel - 1);
        }
      }
    }
  }
}
