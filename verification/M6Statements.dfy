/** Blocks, branches, loops and exceptions, and whole programs. */
module M6Statements {
  import opened Bytes
  import opened M6Machine
  import opened M6Syntax
  import opened M6Codegen
  import opened M6Context
  import opened M6Correct
  import opened M6Programs

  // ------------------------------------------------------------------------------------------ pieces

  lemma DoesNothing<V(!new), W(!new)>(
      ops: Ops<V, W>, final: Ctx, code: Code, ip: int, env: map<string, V>, s: State<V, W>, fuel: nat)
    requires Matches(final, env, s.locals)
    ensures Does(ops, final, code, ip, s, ip, Normal(env, s.world, []), fuel)
  {
    hide Reaches, Matches, Does;
    NoStep(ops, code, Running(ip, s));
    assert s.stack + [] == s.stack;
    DoesNormal(ops, final, code, ip, s, ip, env, s.world, [], s.locals, fuel);
  }

  lemma ExprRaises<V(!new), W(!new)>(
      ops: Ops<V, W>, final: Ctx, code: Code, ip: int, s: State<V, W>, mid: int, r: Result<V, W>, env: map<string, V>,
      end: int, fuel: nat)
    requires Brings(ops, code, ip, s, mid, One(r)) && r.Raise? && Matches(final, env, s.locals)
    ensures Does(ops, final, code, ip, s, end, Raised(r.exc, env, r.world), fuel)
  {
    hide Reaches, Matches, Does;
    var extra := BringsRaised(ops, code, ip, s, mid, r.exc, r.world);
    assert s.(stack := s.stack + extra, locals := s.locals, world := r.world) ==
           s.(stack := s.stack + extra, world := r.world);
    DoesRaise(ops, final, code, ip, s, end, r.exc, env, r.world, s.locals, extra, fuel);
  }

  /** A condition and the branch behind it: one step or more, and the stack is as before. */
  lemma Branches<V(!new), W(!new)>(
      ops: Ops<V, W>, code: Code, ip: int, s: State<V, W>, mid: int, r: Result<V, W>, offset: int)
    requires Brings(ops, code, ip, s, mid, One(r)) && r.Done? && CodeAt(code, mid, [JumpIfFalse(offset)])
    ensures Reaches(ops, code, Running(ip, s),
                    Running(if ops.truthy(r.value) then mid + JUMP else mid + JUMP + offset, s.(world := r.world)), 1)
  {
    hide Reaches, Fetch;
    CodeAtOne(code, mid, JumpIfFalse(offset));
    var t := s.(stack := s.stack + [r.value], world := r.world);
    TopOf(s.stack, [r.value]);
    OneStep(ops, code, Running(mid, t));
    Then(ops, code, Running(ip, s), Running(mid, t), Step(ops, code, Running(mid, t)), 0, 1);
  }

  /** What has happened in front takes a step at least, so what is behind may have less fuel. */
  lemma FirstCounts<V(!new), W(!new)>(
      ops: Ops<V, W>, final: Ctx, code: Code, ip: int, s: State<V, W>, mid: int, t: State<V, W>, end: int,
      out: Outcome<V, W>, fuel: nat)
    requires Reaches(ops, code, Running(ip, s), Running(mid, t), 1) && t.stack == s.stack && t.handlers == s.handlers
    requires fuel > 0 && Does(ops, final, code, mid, t, end, out, fuel - 1)
    ensures Does(ops, final, code, ip, s, end, out, fuel)
  {
    First(ops, final, code, ip, s, mid, t, end, out, 1, fuel - 1);
    hide Reaches, Matches, RunsOn;
  }

  lemma StmtExtends(c: Ctx, s: Stmt)
    ensures Extends(c, StmtCode(c, s).1)
    ensures StmtCode(c, s).1.ok ==> StmtCode(c, s).1.Scope() == After(c.Scope(), s)
  {
    StmtGrows(c, s);
  }

  lemma OptionExtends(c: Ctx, s: Option<Stmt>)
    ensures Extends(c, OptionCode(c, s).1)
    ensures OptionCode(c, s).1.ok ==> OptionCode(c, s).1.Scope() == AfterOption(c.Scope(), s)
  {
    OptionGrows(c, s);
  }

  lemma InPlaceOk(code: Code, final: Ctx, ip: int, e: Emitted)
    requires InPlace(code, final, ip, e)
    ensures e.1.ok
  {
  }

  // ------------------------------------------------------------------------------------------ statements

  lemma {:induction false} StmtRuns<V(!new), W(!new)>(
      ops: Ops<V, W>, final: Ctx, code: Code, ip: int, c: Ctx, s: Stmt, env: map<string, V>, t: State<V, W>, fuel: nat)
    requires InPlace(code, final, ip, StmtCode(c, s)) && Matches(final, env, t.locals)
    requires StmtFits(ops, s)
    ensures Does(ops, final, code, ip, t, ip + Size(StmtCode(c, s).0),
                 Exec(ops, c.Scope(), env, s, t.world, fuel), fuel)
    decreases fuel, s, 1
  {
    hide Does, InPlace, Matches, Size, AssignCode, AugCode, ExecAssign, ExecAug, Extends, ExprCode, Eval, CallsFit,
         TargetFits;
    match s
    case ExprStmt(e) =>
      var (part, c1) := ExprCode(c, e);
      ExtendsItself(c1);
      Parts(code, final, ip, part, c1, [Pop(1)], c1);
      ExprRuns(ops, final, code, ip, c, e, env, t);
      EffectAfter(ops, final, code, ip, t, ip + Size(part), One(Eval(ops, c.Scope(), env, e, t.world)), Pop(1), env,
                  fuel);
    case Assign(lhs, rhs) => AssignRuns(ops, final, code, ip, c, lhs, rhs, env, t, fuel);
    case Aug(lhs, op, rhs) => AugmentRuns(ops, final, code, ip, c, lhs, op, rhs, env, t, fuel);
    case ScopeStmt(_) =>
      DoesNothing(ops, final, code, ip, env, t, fuel);
      SizeNothing();
    case Block(body) => StmtsRun(ops, final, code, ip, c, body, env, t, fuel);
    case If(cond, yes, no) => IfRuns(ops, final, code, ip, c, cond, yes, no, env, t, fuel);
    case While(cond, loop) => WhileRuns(ops, final, code, ip, c, cond, loop, env, t, fuel);
    case For(init, until, inc, loop) => ForRuns(ops, final, code, ip, c, init, until, inc, loop, env, t, fuel);
    case ThrowStmt(e) => ThrowRuns(ops, final, code, ip, c, e, env, t, fuel);
    case Try(attempt, catchVar, handler) =>
      TryRuns(ops, final, code, ip, c, attempt, catchVar, handler, env, t, fuel);
  }

  lemma ThrowRuns<V(!new), W(!new)>(
      ops: Ops<V, W>, final: Ctx, code: Code, ip: int, c: Ctx, e: Expr, env: map<string, V>, t: State<V, W>, fuel: nat)
    requires InPlace(code, final, ip, StmtCode(c, ThrowStmt(e))) && Matches(final, env, t.locals)
    requires CallsFit(ops, e)
    ensures Does(ops, final, code, ip, t, ip + Size(StmtCode(c, ThrowStmt(e)).0),
                 Exec(ops, c.Scope(), env, ThrowStmt(e), t.world, fuel), fuel)
  {
    hide InPlace, Matches, Size, Extends, ExprCode, Eval, Reaches, Fetch, Does;
    var (part, c1) := ExprCode(c, e);
    ExtendsItself(c1);
    Parts(code, final, ip, part, c1, [Throw], c1);
    ExprRuns(ops, final, code, ip, c, e, env, t);
    var r := Eval(ops, c.Scope(), env, e, t.world);
    var (mid, end) := (ip + Size(part), ip + Size(part + [Throw]));
    if r.Raise? {
      ExprRaises(ops, final, code, ip, t, mid, r, env, end, fuel);
    } else {
      var u := t.(world := r.world);
      assert u.(stack := u.stack + [r.value]) == t.(stack := t.stack + [r.value], world := r.world);
      Throws(ops, code, Running(ip, t), mid, r.value, u);
      assert t.stack + [] == t.stack;
      assert t.(stack := t.stack + [], locals := t.locals, world := r.world) == u;
      hide Brings, CodeAt;
      DoesRaise(ops, final, code, ip, t, end, r.value, env, r.world, t.locals, [], fuel);
    }
  }

  lemma Throws<V(!new), W(!new)>(ops: Ops<V, W>, code: Code, c: Config<V, W>, ip: int, x: V, t: State<V, W>)
    requires Reaches(ops, code, c, Running(ip, t.(stack := t.stack + [x])), 0) && CodeAt(code, ip, [Throw])
    ensures Reaches(ops, code, c, Raising(x, t), 0)
  {
    hide Reaches, Fetch;
    var u := t.(stack := t.stack + [x]);
    CodeAtOne(code, ip, Throw);
    TopOf(t.stack, [x]);
    OneStep(ops, code, Running(ip, u));
    assert Step(ops, code, Running(ip, u)) == Raising(x, t);
    Then(ops, code, c, Running(ip, u), Raising(x, t), 0, 0);
  }

  lemma {:induction false} StmtsRun<V(!new), W(!new)>(
      ops: Ops<V, W>, final: Ctx, code: Code, ip: int, c: Ctx, body: seq<Stmt>, env: map<string, V>, t: State<V, W>,
      fuel: nat)
    requires InPlace(code, final, ip, StmtsCode(c, body)) && Matches(final, env, t.locals)
    requires forall x <- body :: StmtFits(ops, x)
    ensures Does(ops, final, code, ip, t, ip + Size(StmtsCode(c, body).0),
                 ExecAll(ops, c.Scope(), env, body, t.world, fuel), fuel)
    decreases fuel, body, 1
  {
    hide Does, InPlace, Matches, Size, Extends, StmtCode, Exec;
    if body == [] {
      DoesNothing(ops, final, code, ip, env, t, fuel);
      SizeNothing();
    } else {
      var (l, c1) := StmtCode(c, body[0]);
      var (r, c2) := StmtsCode(c1, body[1..]);
      StmtExtends(c, body[0]);
      StmtsExtend(c1, body[1..]);
      Parts(code, final, ip, l, c1, r, c2);
      InPlaceOk(code, final, ip, (l, c1));
      StmtRuns(ops, final, code, ip, c, body[0], env, t, fuel);
      var out := Exec(ops, c.Scope(), env, body[0], t.world, fuel);
      var (mid, end) := (ip + Size(l), ip + Size(l) + Size(r));
      var next := if out.Normal? then ExecAll(ops, c1.Scope(), out.env, body[1..], out.world, fuel) else out;
      if out.Normal? {
        forall locals: map<nat, V> | Matches(final, out.env, locals)
          ensures Does(ops, final, code, mid, StateAfter(t, out.left, locals, out.world), end, next, fuel)
        {
          StmtsRun(ops, final, code, mid, c1, body[1..], out.env, StateAfter(t, out.left, locals, out.world), fuel);
        }
      }
      Sequence(ops, final, code, ip, t, mid, out, end, next, fuel);
    }
  }

  lemma StmtsExtend(c: Ctx, body: seq<Stmt>)
    ensures Extends(c, StmtsCode(c, body).1)
  {
    StmtsGrow(c, body);
  }

  lemma {:induction false} OptionRuns<V(!new), W(!new)>(
      ops: Ops<V, W>, final: Ctx, code: Code, ip: int, c: Ctx, s: Option<Stmt>, env: map<string, V>, t: State<V, W>,
      fuel: nat)
    requires InPlace(code, final, ip, OptionCode(c, s)) && Matches(final, env, t.locals)
    requires OptionFits(ops, s)
    ensures Does(ops, final, code, ip, t, ip + Size(OptionCode(c, s).0),
                 ExecOption(ops, c.Scope(), env, s, t.world, fuel), fuel)
    decreases fuel, s, 1
  {
    hide Does, InPlace, Matches, Size, StmtCode, Exec;
    if s.Some? {
      StmtRuns(ops, final, code, ip, c, s.value, env, t, fuel);
    } else {
      DoesNothing(ops, final, code, ip, env, t, fuel);
      SizeNothing();
    }
  }

  lemma {:induction false} IfRuns<V(!new), W(!new)>(
      ops: Ops<V, W>, final: Ctx, code: Code, ip: int, c: Ctx, cond: Expr, yes: Stmt, no: Option<Stmt>,
      env: map<string, V>, t: State<V, W>, fuel: nat)
    requires InPlace(code, final, ip, StmtCode(c, If(cond, yes, no))) && Matches(final, env, t.locals)
    requires CallsFit(ops, cond) && StmtFits(ops, yes) && OptionFits(ops, no)
    ensures Does(ops, final, code, ip, t, ip + Size(StmtCode(c, If(cond, yes, no)).0),
                 Exec(ops, c.Scope(), env, If(cond, yes, no), t.world, fuel), fuel)
    decreases fuel, If(cond, yes, no), 0
  {
    hide Does, Brings, InPlace, Matches, Size, Extends, ExprCode, Eval, Reaches, StmtCode, OptionCode, Exec, ExecOption;
    var (k, c1) := ExprCode(c, cond);
    var (y, c2) := StmtCode(c1, yes);
    var (e, c3) := OptionCode(c2, no);
    var over := if no.None? then 0 else JUMP;
    IfStands(code, final, ip, c, cond, yes, no);
    IfExec(ops, c.Scope(), env, cond, yes, no, t.world, fuel);
    ExprRuns(ops, final, code, ip, c, cond, env, t);
    var r := Eval(ops, c.Scope(), env, cond, t.world);
    var mid := ip + Size(k);
    var (first, second) := (mid + JUMP, mid + JUMP + Size(y) + over);
    var end := second + Size(e);
    if r.Raise? {
      ExprRaises(ops, final, code, ip, t, mid, r, env, end, fuel);
    } else {
      var u := t.(world := r.world);
      Branches(ops, code, ip, t, mid, r, Size(y) + over);
      if ops.truthy(r.value) {
        YesRuns(ops, final, code, ip, t, first, c1, yes, no.Some?, Size(e), env, u, fuel);
      } else {
        OptionRuns(ops, final, code, second, c2, no, env, u, fuel);
        First(ops, final, code, ip, t, second, u, end, ExecOption(ops, c2.Scope(), env, no, r.world, fuel), 1, fuel);
      }
    }
  }

  /** Where the parts of a branching stand, and what is known about names there. */
  lemma IfStands(code: Code, final: Ctx, ip: int, c: Ctx, cond: Expr, yes: Stmt, no: Option<Stmt>)
    requires InPlace(code, final, ip, StmtCode(c, If(cond, yes, no)))
    ensures var (k, c1) := ExprCode(c, cond);
            var (y, c2) := StmtCode(c1, yes);
            var (e, c3) := OptionCode(c2, no);
            var over := if no.None? then 0 else JUMP;
            var (mid, first) := (ip + Size(k), ip + Size(k) + JUMP);
            var second := first + Size(y) + over;
            InPlace(code, final, ip, (k, c1)) && CodeAt(code, mid, [JumpIfFalse(Size(y) + over)]) &&
            InPlace(code, final, first, (y, c2)) && InPlace(code, final, second, (e, c3)) &&
            (if no.Some? then CodeAt(code, first + Size(y), [Jump(Size(e))]) else Size(e) == 0) &&
            ip + Size(StmtCode(c, If(cond, yes, no)).0) == second + Size(e) &&
            c1.Scope() == c.Scope() && c2.Scope() == After(c.Scope(), yes)
  {
    hide InPlace, Size, Extends, ExprCode, StmtCode, OptionCode, CodeAt;
    var (k, c1) := ExprCode(c, cond);
    var (y, c2) := StmtCode(c1, yes);
    var (e, c3) := OptionCode(c2, no);
    IfCode(c, cond, yes, no);
    SizeNothing();
    ExprGrows(c, cond);
    StmtExtends(c1, yes);
    OptionExtends(c2, no);
    IfParts(code, final, ip, k, c1, JumpIfFalse(Size(y) + if no.None? then 0 else JUMP), y, c2, no.Some?, e, c3);
    InPlaceOk(code, final, ip + Size(k) + JUMP, (y, c2));
  }

  /** The first branch, and the jump over the second one if there is one. */
  lemma {:induction false} YesRuns<V(!new), W(!new)>(
      ops: Ops<V, W>, final: Ctx, code: Code, ip: int, t: State<V, W>, first: int, c: Ctx, yes: Stmt, two: bool,
      over: nat, env: map<string, V>, u: State<V, W>, fuel: nat)
    requires Reaches(ops, code, Running(ip, t), Running(first, u), 1) && u.stack == t.stack && u.handlers == t.handlers
    requires InPlace(code, final, first, StmtCode(c, yes)) && Matches(final, env, u.locals)
    requires StmtFits(ops, yes)
    requires if two then CodeAt(code, first + Size(StmtCode(c, yes).0), [Jump(over)]) else over == 0
    ensures Does(ops, final, code, ip, t, first + Size(StmtCode(c, yes).0) + (if two then JUMP else 0) + over,
                 Exec(ops, c.Scope(), env, yes, u.world, fuel), fuel)
    decreases fuel, yes, 2
  {
    hide Does, InPlace, Matches, Size, CodeAt, StmtCode, Exec, Reaches;
    var mid := first + Size(StmtCode(c, yes).0);
    var end := mid + (if two then JUMP else 0) + over;
    var out := Exec(ops, c.Scope(), env, yes, u.world, fuel);
    StmtRuns(ops, final, code, first, c, yes, env, u, fuel);
    if two {
      forall v: State<V, W> ensures Reaches(ops, code, Running(mid, v), Running(end, v), 0) {
        Jumps(ops, code, mid, over, v);
      }
      Last(ops, final, code, first, u, mid, out, end, fuel);
    }
    First(ops, final, code, ip, t, first, u, end, out, 1, fuel);
  }

  lemma IfExec<V, W>(
      ops: Ops<V, W>, n: Names, env: map<string, V>, cond: Expr, yes: Stmt, no: Option<Stmt>, w: W, fuel: nat)
    ensures var r := Eval(ops, n, env, cond, w);
            Exec(ops, n, env, If(cond, yes, no), w, fuel) ==
            if r.Raise? then Raised(r.exc, env, r.world)
            else if ops.truthy(r.value) then Exec(ops, n, env, yes, r.world, fuel)
            else ExecOption(ops, After(n, yes), env, no, r.world, fuel)
  {
    hide Eval, ExecOption, After;
  }

  /** Where the parts of a branching stand. */
  lemma IfParts(
      code: Code, final: Ctx, ip: int, k: seq<Instr>, c1: Ctx, branch: Instr, y: seq<Instr>, c2: Ctx, two: bool,
      e: seq<Instr>, c3: Ctx)
    requires Extends(c1, c2) && Extends(c2, c3) && (!two ==> e == [] && c3 == c2) && Width(branch) == JUMP
    requires InPlace(code, final, ip,
                     (if two then k + [branch] + y + [Jump(Size(e))] + e else k + [branch] + y, c3))
    ensures var (mid, first) := (ip + Size(k), ip + Size(k) + JUMP);
            var second := first + Size(y) + if two then JUMP else 0;
            InPlace(code, final, ip, (k, c1)) && CodeAt(code, mid, [branch]) && InPlace(code, final, first, (y, c2)) &&
            InPlace(code, final, second, (e, c3)) && (two ==> CodeAt(code, first + Size(y), [Jump(Size(e))])) &&
            ip + Size(if two then k + [branch] + y + [Jump(Size(e))] + e else k + [branch] + y) == second + Size(e)
  {
    hide InPlace, Size, CodeAt, Extends;
    var jump := [Jump(Size(e))];
    ExtendsTransitive(c1, c2, c3);
    ExtendsItself(c1);
    ExtendsItself(c2);
    ExtendsItself(c3);
    SizeOne([branch]);
    SizeOne(jump);
    if two {
      Parts(code, final, ip, k + [branch] + y + jump, c2, e, c3);
      Parts(code, final, ip, k + [branch] + y, c2, jump, c2);
    } else {
      NothingInPlace(code, final, ip, (k + [branch] + y, c3));
      SizeNothing();
    }
    Parts(code, final, ip, k + [branch], c1, y, c2);
    Parts(code, final, ip, k, c1, [branch], c1);
  }

  lemma NothingInPlace(code: Code, final: Ctx, ip: int, e: Emitted)
    requires InPlace(code, final, ip, e)
    ensures forall at: int :: InPlace(code, final, at, ([], e.1))
  {
  }

  // ------------------------------------------------------------------------------------------ loops

  lemma {:induction false} WhileRuns<V(!new), W(!new)>(
      ops: Ops<V, W>, final: Ctx, code: Code, ip: int, c: Ctx, cond: Expr, loop: Stmt, env: map<string, V>,
      t: State<V, W>, fuel: nat)
    requires InPlace(code, final, ip, StmtCode(c, While(cond, loop))) && Matches(final, env, t.locals)
    requires CallsFit(ops, cond) && StmtFits(ops, loop)
    ensures Does(ops, final, code, ip, t, ip + Size(StmtCode(c, While(cond, loop)).0),
                 Exec(ops, c.Scope(), env, While(cond, loop), t.world, fuel), fuel)
    decreases fuel, While(cond, loop), 0
  {
    hide Does, InPlace, Matches, Size, ExprCode, LoopParts, ExecLoop;
    assert StmtCode(c, While(cond, loop)) == LoopCode(c, Some(cond), loop, None);
    LoopRuns(ops, final, code, ip, c, Some(cond), loop, None, env, t, fuel);
  }

  lemma {:induction false} ForRuns<V(!new), W(!new)>(
      ops: Ops<V, W>, final: Ctx, code: Code, ip: int, c: Ctx, init: Option<Stmt>, until: Option<Expr>,
      inc: Option<Stmt>, loop: Stmt, env: map<string, V>, t: State<V, W>, fuel: nat)
    requires InPlace(code, final, ip, StmtCode(c, For(init, until, inc, loop))) && Matches(final, env, t.locals)
    requires StmtFits(ops, For(init, until, inc, loop))
    ensures Does(ops, final, code, ip, t, ip + Size(StmtCode(c, For(init, until, inc, loop)).0),
                 Exec(ops, c.Scope(), env, For(init, until, inc, loop), t.world, fuel), fuel)
    decreases fuel, For(init, until, inc, loop), 0
  {
    hide Does, InPlace, Matches, Size, Extends, ExprCode, OptionCode, LoopParts, ExecLoop, ExecOption;
    var (i, c1) := OptionCode(c, init);
    var (l, c2) := LoopCode(c1, until, loop, inc);
    assert StmtCode(c, For(init, until, inc, loop)) == (i + l, c2);
    OptionExtends(c, init);
    LoopExtends(c1, until, loop, inc);
    Parts(code, final, ip, i, c1, l, c2);
    InPlaceOk(code, final, ip, (i, c1));
    OptionRuns(ops, final, code, ip, c, init, env, t, fuel);
    var out := ExecOption(ops, c.Scope(), env, init, t.world, fuel);
    var (mid, end) := (ip + Size(i), ip + Size(i) + Size(l));
    var next := if out.Normal? then ExecLoop(ops, c1.Scope(), out.env, until, loop, inc, out.world, fuel) else out;
    if out.Normal? {
      forall locals: map<nat, V> | Matches(final, out.env, locals)
        ensures Does(ops, final, code, mid, StateAfter(t, out.left, locals, out.world), end, next, fuel)
      {
        LoopRuns(ops, final, code, mid, c1, until, loop, inc, out.env, StateAfter(t, out.left, locals, out.world),
                 fuel);
      }
    }
    Sequence(ops, final, code, ip, t, mid, out, end, next, fuel);
  }

  lemma LoopExtends(c: Ctx, cond: Option<Expr>, loop: Stmt, inc: Option<Stmt>)
    ensures Extends(c, LoopCode(c, cond, loop, inc).1)
  {
    hide ExprCode, StmtCode, OptionCode, Extends, LoopParts;
    var c1 := ExprCode(c, Condition(cond)).1;
    var c2 := StmtCode(c1, loop).1;
    ExprGrows(c, Condition(cond));
    StmtExtends(c1, loop);
    OptionExtends(c2, inc);
    ExtendsTransitive(c, c1, c2);
    ExtendsTransitive(c, c2, OptionCode(c2, inc).1);
  }

  /** Where the parts of a loop stand, and where its jumps go. */
  lemma LoopPlaces(
      code: Code, final: Ctx, ip: int, k: seq<Instr>, c1: Ctx, b: seq<Instr>, c2: Ctx, n: seq<Instr>, c3: Ctx)
    requires Extends(c1, c2) && Extends(c2, c3) && InPlace(code, final, ip, (LoopParts(k, b, n), c3))
    ensures var (mid, body) := (ip + Size(k), ip + Size(k) + JUMP);
            var (inc, last) := (body + Size(b), body + Size(b) + Size(n));
            var round := Size(b) + Size(n) + JUMP;
            InPlace(code, final, ip, (k, c1)) && CodeAt(code, mid, [JumpIfFalse(round)]) &&
            InPlace(code, final, body, (b, c2)) && InPlace(code, final, inc, (n, c3)) &&
            CodeAt(code, last, [Jump(-(Size(k) + JUMP + round))]) && ip + Size(LoopParts(k, b, n)) == last + JUMP &&
            mid + JUMP + round == last + JUMP && last + JUMP - (Size(k) + JUMP + round) == ip
  {
    hide InPlace, Size, CodeAt, Extends;
    var round := Size(b) + Size(n) + JUMP;
    var (branch, back) := ([JumpIfFalse(round)], [Jump(-(Size(k) + JUMP + round))]);
    ExtendsTransitive(c1, c2, c3);
    ExtendsItself(c1);
    ExtendsItself(c3);
    SizeOne(branch);
    SizeOne(back);
    Parts(code, final, ip, k + branch + b + n, c3, back, c3);
    Parts(code, final, ip, k + branch + b, c2, n, c3);
    Parts(code, final, ip, k + branch, c1, b, c2);
    Parts(code, final, ip, k, c1, branch, c1);
  }

  lemma LoopStands(code: Code, final: Ctx, ip: int, c: Ctx, cond: Option<Expr>, loop: Stmt, inc: Option<Stmt>)
    requires InPlace(code, final, ip, LoopCode(c, cond, loop, inc))
    ensures var (k, c1) := ExprCode(c, Condition(cond));
            var (b, c2) := StmtCode(c1, loop);
            var (n, c3) := OptionCode(c2, inc);
            var (mid, body) := (ip + Size(k), ip + Size(k) + JUMP);
            var (step, last) := (body + Size(b), body + Size(b) + Size(n));
            var round := Size(b) + Size(n) + JUMP;
            InPlace(code, final, ip, (k, c1)) && CodeAt(code, mid, [JumpIfFalse(round)]) &&
            InPlace(code, final, body, (b, c2)) && InPlace(code, final, step, (n, c3)) &&
            CodeAt(code, last, [Jump(ip - (last + JUMP))]) && mid + JUMP + round == last + JUMP &&
            ip + Size(LoopCode(c, cond, loop, inc).0) == last + JUMP &&
            c1.Scope() == c.Scope() && c2.Scope() == After(c.Scope(), loop)
  {
    hide InPlace, Size, Extends, ExprCode, StmtCode, OptionCode, CodeAt, LoopParts;
    var (k, c1) := ExprCode(c, Condition(cond));
    var (b, c2) := StmtCode(c1, loop);
    var (n, c3) := OptionCode(c2, inc);
    ExprGrows(c, Condition(cond));
    StmtExtends(c1, loop);
    OptionExtends(c2, inc);
    LoopPlaces(code, final, ip, k, c1, b, c2, n, c3);
    InPlaceOk(code, final, ip + Size(k) + JUMP, (b, c2));
  }

  /** One round, then the loop again with less fuel. */
  lemma {:induction false} LoopRuns<V(!new), W(!new)>(
      ops: Ops<V, W>, final: Ctx, code: Code, ip: int, c: Ctx, cond: Option<Expr>, loop: Stmt, inc: Option<Stmt>,
      env: map<string, V>, t: State<V, W>, fuel: nat)
    requires InPlace(code, final, ip, LoopCode(c, cond, loop, inc)) && Matches(final, env, t.locals)
    requires CallsFit(ops, Condition(cond)) && StmtFits(ops, loop) && OptionFits(ops, inc)
    ensures Does(ops, final, code, ip, t, ip + Size(LoopCode(c, cond, loop, inc).0),
                 ExecLoop(ops, c.Scope(), env, cond, loop, inc, t.world, fuel), fuel)
    decreases fuel, loop, 2
  {
    hide Does, Brings, InPlace, Matches, Size, Extends, ExprCode, StmtCode, OptionCode, Eval, Exec, ExecOption, Reaches,
         LoopCode, CodeAt;
    if fuel == 0 {
      StillThere(ops, final, code, ip, t, ip + Size(LoopCode(c, cond, loop, inc).0));
    } else {
      var (k, c1) := ExprCode(c, Condition(cond));
      var (b, c2) := StmtCode(c1, loop);
      var (n, c3) := OptionCode(c2, inc);
      LoopStands(code, final, ip, c, cond, loop, inc);
      var (mid, body) := (ip + Size(k), ip + Size(k) + JUMP);
      var last := body + Size(b) + Size(n);
      ExprRuns(ops, final, code, ip, c, Condition(cond), env, t);
      var r := Eval(ops, c.Scope(), env, Condition(cond), t.world);
      if r.Raise? {
        ExprRaises(ops, final, code, ip, t, mid, r, env, last + JUMP, fuel);
      } else {
        var u := t.(world := r.world);
        Branches(ops, code, ip, t, mid, r, Size(b) + Size(n) + JUMP);
        if !ops.truthy(r.value) {
          DoesNothing(ops, final, code, last + JUMP, env, u, fuel);
          First(ops, final, code, ip, t, last + JUMP, u, last + JUMP, Normal(env, r.world, []), 1, fuel);
        } else {
          RoundRuns(ops, final, code, ip, c, cond, loop, inc, env, u, fuel);
          FirstCounts(ops, final, code, ip, t, body, u, last + JUMP,
                      ExecRound(ops, c.Scope(), env, cond, loop, inc, r.world, fuel), fuel);
        }
      }
    }
  }

  lemma StillThere<V(!new), W(!new)>(ops: Ops<V, W>, final: Ctx, code: Code, ip: int, t: State<V, W>, end: int)
    ensures Does(ops, final, code, ip, t, end, OutOfFuel, 0)
  {
    assert Iterate(ops, code, Running(ip, t), 0) == Running(ip, t);
  }

  /** A round behind its condition, and what follows. */
  function ExecRound<V, W>(
      ops: Ops<V, W>, n: Names, env: map<string, V>, cond: Option<Expr>, loop: Stmt, inc: Option<Stmt>, w: W, fuel: nat)
    : Outcome<V, W>
    requires fuel > 0
  {
    match Exec(ops, n, env, loop, w, fuel - 1)
    case Normal(env2, w2, left) =>
      Behind(left, match ExecOption(ops, After(n, loop), env2, inc, w2, fuel - 1)
                   case Normal(env3, w3, left3) =>
                     Behind(left3, ExecLoop(ops, n, env3, cond, loop, inc, w3, fuel - 1))
                   case other => other)
    case other => other
  }

  lemma {:induction false} RoundRuns<V(!new), W(!new)>(
      ops: Ops<V, W>, final: Ctx, code: Code, ip: int, c: Ctx, cond: Option<Expr>, loop: Stmt, inc: Option<Stmt>,
      env: map<string, V>, u: State<V, W>, fuel: nat)
    requires fuel > 0 && InPlace(code, final, ip, LoopCode(c, cond, loop, inc)) && Matches(final, env, u.locals)
    requires CallsFit(ops, Condition(cond)) && StmtFits(ops, loop) && OptionFits(ops, inc)
    ensures Does(ops, final, code, ip + Size(ExprCode(c, Condition(cond)).0) + JUMP, u,
                 ip + Size(LoopCode(c, cond, loop, inc).0),
                 ExecRound(ops, c.Scope(), env, cond, loop, inc, u.world, fuel), fuel - 1)
    decreases fuel, loop, 1
  {
    hide Does, InPlace, Matches, Size, Extends, ExprCode, StmtCode, OptionCode, Exec, ExecOption, ExecLoop, Reaches,
         LoopCode, CodeAt;
    var (k, c1) := ExprCode(c, Condition(cond));
    var (b, c2) := StmtCode(c1, loop);
    var (n, c3) := OptionCode(c2, inc);
    LoopStands(code, final, ip, c, cond, loop, inc);
    var body := ip + Size(k) + JUMP;
    var (step, last) := (body + Size(b), body + Size(b) + Size(n));
    StmtRuns(ops, final, code, body, c1, loop, env, u, fuel - 1);
    var out := Exec(ops, c1.Scope(), env, loop, u.world, fuel - 1);
    var next := out;
    if out.Normal? {
      var out2 := ExecOption(ops, c2.Scope(), out.env, inc, out.world, fuel - 1);
      var again := if out2.Normal? then ExecLoop(ops, c.Scope(), out2.env, cond, loop, inc, out2.world, fuel - 1)
                   else out2;
      next := if out2.Normal? then Behind(out2.left, again) else out2;
      forall locals: map<nat, V> | Matches(final, out.env, locals)
        ensures Does(ops, final, code, step, StateAfter(u, out.left, locals, out.world), last + JUMP, next, fuel - 1)
      {
        var v := StateAfter(u, out.left, locals, out.world);
        OptionRuns(ops, final, code, step, c2, inc, out.env, v, fuel - 1);
        if out2.Normal? {
          forall slots: map<nat, V> | Matches(final, out2.env, slots)
            ensures Does(ops, final, code, last, StateAfter(v, out2.left, slots, out2.world), last + JUMP, again,
                         fuel - 1)
          {
            var x := StateAfter(v, out2.left, slots, out2.world);
            Jumps(ops, code, last, ip - (last + JUMP), x);
            LoopRuns(ops, final, code, ip, c, cond, loop, inc, out2.env, x, fuel - 1);
            First(ops, final, code, last, x, ip, x, last + JUMP, again, 0, fuel - 1);
          }
        }
        Sequence(ops, final, code, step, v, last, out2, last + JUMP, again, fuel - 1);
      }
    }
    Sequence(ops, final, code, body, u, step, out, last + JUMP, next, fuel - 1);
  }

  // ------------------------------------------------------------------------------------------ exceptions

  lemma TryExec<V, W>(
      ops: Ops<V, W>, n: Names, env: map<string, V>, attempt: Stmt, catchVar: string, handler: Stmt, w: W, fuel: nat)
    ensures var out := Exec(ops, n, env, attempt, w, fuel);
            var n1 := After(n, attempt);
            Exec(ops, n, env, Try(attempt, catchVar, handler), w, fuel) ==
            if !out.Raised? then out
            else
              var stored := Store(ops, n1, out.env, out.world, catchVar, out.exc);
              if stored.Normal? then Exec(ops, n1.AfterStore(catchVar), stored.env, handler, stored.world, fuel)
              else stored
  {
    hide After, Store;
  }

  /** Where the parts stand, and where the handler is. */
  lemma TryPlaces(
      code: Code, final: Ctx, ip: int, a: seq<Instr>, c1: Ctx, st: seq<Instr>, c2: Ctx, h: seq<Instr>, c3: Ctx)
    requires Extends(c1, c2) && Extends(c2, c3)
    requires InPlace(code, final, ip,
                     ([TryBegin(Size(a) + 2 + JUMP)] + a + [TryEnd, Jump(Size(st) + Size(h))] + st + h, c3))
    ensures var (body, leave) := (ip + JUMP, ip + JUMP + Size(a));
            var catch := leave + 2 + JUMP;
            var end := catch + Size(st) + Size(h);
            CodeAt(code, ip, [TryBegin(Size(a) + 2 + JUMP)]) && InPlace(code, final, body, (a, c1)) &&
            CodeAt(code, leave, [TryEnd]) && CodeAt(code, leave + 2, [Jump(Size(st) + Size(h))]) &&
            InPlace(code, final, catch, (st, c2)) && InPlace(code, final, catch + Size(st), (h, c3)) &&
            ip + Size([TryBegin(Size(a) + 2 + JUMP)] + a + [TryEnd, Jump(Size(st) + Size(h))] + st + h) == end
  {
    hide InPlace, Size, CodeAt, Extends;
    var (begin, jump) := ([TryBegin(Size(a) + 2 + JUMP)], [Jump(Size(st) + Size(h))]);
    var leave := [TryEnd] + jump;
    ExtendsTransitive(c1, c2, c3);
    ExtendsItself(c1);
    SizeOne(begin);
    SizeOne(jump);
    SizeOne([TryEnd]);
    assert leave == [TryEnd, Jump(Size(st) + Size(h))];
    Parts(code, final, ip, begin + a + leave + st, c2, h, c3);
    Parts(code, final, ip, begin + a + leave, c1, st, c2);
    Parts(code, final, ip, begin + a, c1, leave, c1);
    Parts(code, final, ip, begin, c1, a, c1);
    FinalCodeAt(code, final, ip, (begin, c1));
    CodeAtSplit(code, ip + Size(begin) + Size(a), [TryEnd], jump);
    SizeAppend([TryEnd], jump);
    SizeAppend(begin, a);
  }

  lemma FinalCodeAt(code: Code, final: Ctx, ip: int, e: Emitted)
    requires InPlace(code, final, ip, e)
    ensures CodeAt(code, ip, e.0)
  {
  }

  /** Entering the attempt: its handler goes on top of the others. */
  lemma Enters<V(!new), W(!new)>(ops: Ops<V, W>, code: Code, ip: int, offset: int, t: State<V, W>)
    requires CodeAt(code, ip, [TryBegin(offset)])
    ensures Reaches(ops, code, Running(ip, t),
                    Running(ip + JUMP, t.(handlers := t.handlers + [Handler(ip + JUMP + offset, |t.stack|)])), 0)
  {
    hide Reaches, Fetch;
    CodeAtOne(code, ip, TryBegin(offset));
    OneStep(ops, code, Running(ip, t));
  }

  lemma Leaves<V(!new), W(!new)>(ops: Ops<V, W>, code: Code, ip: int, h: Handler, t: State<V, W>)
    requires CodeAt(code, ip, [TryEnd])
    ensures Reaches(ops, code, Running(ip, t.(handlers := t.handlers + [h])), Running(ip + 2, t), 0)
  {
    hide Reaches, Fetch;
    CodeAtOne(code, ip, TryEnd);
    OneStep(ops, code, Running(ip, t.(handlers := t.handlers + [h])));
    assert Below(t.handlers + [h], 1) == t.handlers;
  }

  /** Leaving the attempt, and over the handler. */
  lemma LeavesOver<V(!new), W(!new)>(
      ops: Ops<V, W>, code: Code, c: Config<V, W>, ip: int, h: Handler, over: int, t: State<V, W>)
    requires Reaches(ops, code, c, Running(ip, t.(handlers := t.handlers + [h])), 0)
    requires CodeAt(code, ip, [TryEnd]) && CodeAt(code, ip + 2, [Jump(over)])
    ensures Reaches(ops, code, c, Running(ip + 2 + JUMP + over, t), 0)
  {
    hide Reaches, CodeAt;
    Leaves(ops, code, ip, h, t);
    Jumps(ops, code, ip + 2, over, t);
    Then(ops, code, c, Running(ip, t.(handlers := t.handlers + [h])), Running(ip + 2, t), 0, 0);
    Then(ops, code, c, Running(ip + 2, t), Running(ip + 2 + JUMP + over, t), 0, 0);
  }

  /** Unwinding: whatever was on the stack goes, the exception takes its place, the handler is used up. */
  lemma Catches<V(!new), W(!new)>(ops: Ops<V, W>, code: Code, x: V, ip: int, extra: seq<V>, t: State<V, W>)
    ensures Reaches(ops, code,
                    Raising(x, t.(stack := t.stack + extra, handlers := t.handlers + [Handler(ip, |t.stack|)])),
                    Running(ip, t.(stack := t.stack + [x])), 0)
  {
    hide Reaches;
    var c := Raising(x, t.(stack := t.stack + extra, handlers := t.handlers + [Handler(ip, |t.stack|)]));
    OneStep(ops, code, c);
    assert Below(t.handlers + [Handler(ip, |t.stack|)], 1) == t.handlers;
    assert (t.stack + extra)[..|t.stack|] == t.stack;
    assert Step(ops, code, c) == Running(ip, t.(stack := t.stack + [x]));
  }

  lemma {:induction false} TryRuns<V(!new), W(!new)>(
      ops: Ops<V, W>, final: Ctx, code: Code, ip: int, c: Ctx, attempt: Stmt, catchVar: string, handler: Stmt,
      env: map<string, V>, t: State<V, W>, fuel: nat)
    requires InPlace(code, final, ip, StmtCode(c, Try(attempt, catchVar, handler))) && Matches(final, env, t.locals)
    requires StmtFits(ops, attempt) && StmtFits(ops, handler)
    ensures Does(ops, final, code, ip, t, ip + Size(StmtCode(c, Try(attempt, catchVar, handler)).0),
                 Exec(ops, c.Scope(), env, Try(attempt, catchVar, handler), t.world, fuel), fuel)
    decreases fuel, Try(attempt, catchVar, handler), 0
  {
    hide InPlace, Matches, Size, Extends, StoreCode, Store, Reaches, RunsOn, StmtCode, Exec, CodeAt;
    var (a, c1) := StmtCode(c, attempt);
    var (st, c2) := StoreCode(c1, catchVar);
    var (h, c3) := StmtCode(c2, handler);
    TryCode(c, attempt, catchVar, handler);
    TryExec(ops, c.Scope(), env, attempt, catchVar, handler, t.world, fuel);
    StmtExtends(c, attempt);
    StoreExtends(c1, catchVar);
    StmtExtends(c2, handler);
    TryPlaces(code, final, ip, a, c1, st, c2, h, c3);
    var (body, leave) := (ip + JUMP, ip + JUMP + Size(a));
    var catch := leave + 2 + JUMP;
    var end := catch + Size(st) + Size(h);
    InPlaceOk(code, final, body, (a, c1));
    var guard := Handler(catch, |t.stack|);
    var u := t.(handlers := t.handlers + [guard]);
    Enters(ops, code, ip, Size(a) + 2 + JUMP, t);
    StmtRuns(ops, final, code, body, c, attempt, env, u, fuel);
    var out := Exec(ops, c.Scope(), env, attempt, t.world, fuel);
    match out
    case OutOfFuel => RunsOnLater(ops, code, Running(ip, t), Running(body, u), 0, fuel);
    case Normal(env1, w1, left) =>
      hide Does;
      var locals := NormalLocals(ops, final, code, body, u, leave, env1, w1, left, fuel);
      var v := StateAfter(t, left, locals, w1);
      assert v.(handlers := v.handlers + [guard]) == StateAfter(u, left, locals, w1);
      Then(ops, code, Running(ip, t), Running(body, u), Running(leave, StateAfter(u, left, locals, w1)), 0, 0);
      LeavesOver(ops, code, Running(ip, t), leave, guard, Size(st) + Size(h), v);
      DoesNormal(ops, final, code, ip, t, end, env1, w1, left, locals, fuel);
    case Raised(x, env1, w1) =>
      hide Does;
      var locals, extra := RaisedLocals(ops, final, code, body, u, leave, x, env1, w1, fuel);
      var v := t.(locals := locals, world := w1);
      var thrown := Raising(x, u.(stack := u.stack + extra, locals := locals, world := w1));
      Catches(ops, code, x, catch, extra, v);
      assert Raising(x, v.(stack := v.stack + extra, handlers := v.handlers + [guard])) == thrown;
      Then(ops, code, Running(ip, t), Running(body, u), thrown, 0, 0);
      Then(ops, code, Running(ip, t), thrown, Running(catch, v.(stack := v.stack + [x])), 0, 0);
      CatchRuns(ops, final, code, ip, t, catch, c1, catchVar, handler, env1, v, x, fuel);
  }

  /** The exception goes into its variable, then the handler runs. */
  lemma {:induction false} CatchRuns<V(!new), W(!new)>(
      ops: Ops<V, W>, final: Ctx, code: Code, ip: int, t: State<V, W>, catch: int, c: Ctx, catchVar: string,
      handler: Stmt, env: map<string, V>, v: State<V, W>, x: V, fuel: nat)
    requires Reaches(ops, code, Running(ip, t), Running(catch, v.(stack := v.stack + [x])), 0)
    requires v.stack == t.stack && v.handlers == t.handlers && Matches(final, env, v.locals)
    requires StmtFits(ops, handler)
    requires var (st, d) := StoreCode(c, catchVar);
             InPlace(code, final, catch, (st, d)) && InPlace(code, final, catch + Size(st), StmtCode(d, handler))
    ensures var (st, d) := StoreCode(c, catchVar);
            var stored := Store(ops, c.Scope(), env, v.world, catchVar, x);
            stored.Normal? &&
            Does(ops, final, code, ip, t, catch + Size(st) + Size(StmtCode(d, handler).0),
                 Exec(ops, c.Scope().AfterStore(catchVar), stored.env, handler, stored.world, fuel), fuel)
    decreases fuel, handler, 2
  {
    hide Does, InPlace, Matches, Size, Extends, StoreCode, Reaches, StmtCode, Exec;
    var (st, d) := StoreCode(c, catchVar);
    StoreRuns(ops, final, code, catch, c, catchVar, env, v, x, fuel);
    var stored := Store(ops, c.Scope(), env, v.world, catchVar, x);
    var mid := catch + Size(st);
    var locals: map<nat, V> :| Matches(final, stored.env, locals) &&
      Reaches(ops, code, Running(catch, v.(stack := v.stack + [x])),
              Running(mid, v.(locals := locals, world := stored.world)), 0);
    var y := v.(locals := locals, world := stored.world);
    Then(ops, code, Running(ip, t), Running(catch, v.(stack := v.stack + [x])), Running(mid, y), 0, 0);
    InPlaceOk(code, final, catch, (st, d));
    StoreScope(c, catchVar);
    StmtRuns(ops, final, code, mid, d, handler, stored.env, y, fuel);
    First(ops, final, code, ip, t, mid, y, mid + Size(StmtCode(d, handler).0),
          Exec(ops, d.Scope(), stored.env, handler, stored.world, fuel), 0, fuel);
  }

  lemma StoreScope(c: Ctx, id: string)
    ensures StoreCode(c, id).1.ok ==> StoreCode(c, id).1.Scope() == c.Scope().AfterStore(id)
  {
    StoreGrows(c, id);
  }

  // ------------------------------------------------------------------------------------------ programs

  /** A program from its first byte: it ends as it should, with nothing more on the stack than what the methods that
      item assignments have called returned; what is not caught is not caught; and a program that does not end is
      executed for ever. */
  lemma ProgramRuns<V(!new), W(!new)>(
      ops: Ops<V, W>, c: Ctx, s: Stmt, env: map<string, V>, t: State<V, W>, fuel: nat)
    requires WellFormed(c) && StmtCode(c, s).1.ok && Matches(StmtCode(c, s).1, env, t.locals) && t.handlers == []
    requires StmtFits(ops, s)
    ensures var (instrs, final) := StmtCode(c, s);
            var code := Code(instrs, final.pool, final.fastLocals);
            match Exec(ops, c.Scope(), env, s, t.world, fuel)
            case Normal(env1, w1, left) =>
              exists locals: map<nat, V> :: Matches(final, env1, locals) &&
                Reaches(ops, code, Running(0, t), Ended(StateAfter(t, left, locals, w1)), 0)
            case Raised(x, _, w1) => Reaches(ops, code, Running(0, t), Uncaught(x, w1), 0)
            case OutOfFuel => RunsOn(ops, code, Running(0, t), fuel)
  {
    hide Matches, Reaches, RunsOn, Exec, StmtCode, Fetch;
    var (instrs, final) := StmtCode(c, s);
    var code := Code(instrs, final.pool, final.fastLocals);
    StmtGrows(c, s);
    ExtendsItself(final);
    assert instrs == [] + instrs + [];
    EmittedIsThere(code, [], instrs, []);
    SizeNothing();
    StmtRuns(ops, final, code, 0, c, s, env, t, fuel);
    match Exec(ops, c.Scope(), env, s, t.world, fuel)
    case Normal(env1, w1, left) =>
      var locals: map<nat, V> :| Matches(final, env1, locals) &&
        Reaches(ops, code, Running(0, t), Running(Size(instrs), StateAfter(t, left, locals, w1)), 0);
      var u := StateAfter(t, left, locals, w1);
      NothingBehind(instrs, Size(instrs));
      OneStep(ops, code, Running(Size(instrs), u));
      Then(ops, code, Running(0, t), Running(Size(instrs), u), Ended(u), 0, 0);
    case Raised(x, env1, w1) =>
      var locals: map<nat, V>, extra: seq<V> :| Matches(final, env1, locals) &&
        Reaches(ops, code, Running(0, t), Raising(x, t.(stack := t.stack + extra, locals := locals, world := w1)), 0);
      var u := Raising(x, t.(stack := t.stack + extra, locals := locals, world := w1));
      OneStep(ops, code, u);
      Then(ops, code, Running(0, t), u, Uncaught(x, w1), 0, 0);
    case OutOfFuel =>
  }

  lemma {:induction false} NothingBehind(instrs: seq<Instr>, ip: int)
    requires ip >= Size(instrs)
    ensures Fetch(instrs, ip) == None
    decreases |instrs|
  {
    if instrs != [] {
      NothingBehind(instrs[1..], ip - Width(instrs[0]));
    }
  }
}
