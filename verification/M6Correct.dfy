/** The generated code does on the machine what the program means. */
module M6Correct {
  import opened Bytes
  import opened M6Machine
  import opened M6Syntax
  import opened M6Codegen
  import opened M6Context

  // ------------------------------------------------------------------------------------------ the setting

  /** `code` is the finished code, `final` the context behind it. */
  predicate IsFinal(code: Code, final: Ctx) {
    code.pool == final.pool && code.fastLocals == final.fastLocals && WellFormed(final) && final.ok
  }

  /** A piece of code that was emitted in `e` stands at `ip`. */
  predicate InPlace(code: Code, final: Ctx, ip: int, e: Emitted) {
    IsFinal(code, final) && Extends(e.1, final) && CodeAt(code, ip, e.0)
  }

  /** The slots hold the variables. */
  ghost predicate Matches<V(!new)>(final: Ctx, env: map<string, V>, locals: map<nat, V>) {
    forall x <- final.locals ::
      (x in env <==> final.locals[x] in locals) && (x in env ==> locals[final.locals[x]] == env[x])
  }

  /** From `ip` to `end` the code puts the results on the stack, or raises with something on it. */
  ghost predicate Brings<V(!new), W(!new)>(
      ops: Ops<V, W>, code: Code, ip: int, s: State<V, W>, end: int, r: Results<V, W>)
  {
    match r
    case AllDone(vs, w) =>
      Reaches(ops, code, Running(ip, s), Running(end, s.(stack := s.stack + vs, world := w)), 0)
    case OneRaised(x, w) =>
      exists extra: seq<V> ::
        Reaches(ops, code, Running(ip, s), Raising(x, s.(stack := s.stack + extra, world := w)), 0)
  }

  function One<V(!new), W(!new)>(r: Result<V, W>): Results<V, W> {
    match r
    case Done(v, w) => AllDone([v], w)
    case Raise(x, w) => OneRaised(x, w)
  }

  /** Results and further ones behind them; those depend on the world the first ones leave. */
  function Append<V(!new), W(!new)>(r: Results<V, W>, more: W -> Results<V, W>): Results<V, W> {
    match r
    case OneRaised(x, w) => r
    case AllDone(vs, w) =>
      match more(w)
      case OneRaised(x, w1) => OneRaised(x, w1)
      case AllDone(vs1, w1) => AllDone(vs + vs1, w1)
  }

  lemma BringsMore<V(!new), W(!new)>(
      ops: Ops<V, W>, code: Code, ip: int, s: State<V, W>, mid: int, r: Results<V, W>, end: int,
      more: W -> Results<V, W>)
    requires Brings(ops, code, ip, s, mid, r)
    requires r.AllDone? ==>
               Brings(ops, code, mid, s.(stack := s.stack + r.values, world := r.world), end, more(r.world))
    ensures Brings(ops, code, ip, s, end, Append(r, more))
  {
    hide Reaches;
    if r.AllDone? {
      var s1 := s.(stack := s.stack + r.values, world := r.world);
      match more(r.world)
      case AllDone(vs, w) =>
        Then(ops, code, Running(ip, s), Running(mid, s1), Running(end, s1.(stack := s1.stack + vs, world := w)), 0, 0);
        assert s1.stack + vs == s.stack + (r.values + vs);
      case OneRaised(x, w) =>
        var extra: seq<V> :|
          Reaches(ops, code, Running(mid, s1), Raising(x, s1.(stack := s1.stack + extra, world := w)), 0);
        Then(ops, code, Running(ip, s), Running(mid, s1), Raising(x, s1.(stack := s1.stack + extra, world := w)), 0, 0);
        assert s1.stack + extra == s.stack + (r.values + extra);
    }
  }

  lemma TopOf<V>(stack: seq<V>, vs: seq<V>)
    ensures Top(stack + vs, |vs|) == vs && Below(stack + vs, |vs|) == stack
  {
  }

  lemma CodeAtOne(code: Code, ip: int, i: Instr)
    requires CodeAt(code, ip, [i])
    ensures Fetch(code.instrs, ip) == Some(i)
  {
  }

  /** The instructions that replace all they look at by a result. */
  predicate IsOperator(pool: seq<Const>, i: Instr) {
    i.BinaryOp? || i.UnaryOp? || i.Call? || i.MakeList? || i.MakeDict? || i.GetItem? ||
    (i.GetField? && NameAt(pool, i.index).Some?)
  }

  function Meaning<V(!new), W(!new)>(ops: Ops<V, W>, pool: seq<Const>, i: Instr, vs: seq<V>, w: W): Result<V, W>
    requires IsOperator(pool, i) && |vs| == Needs(i)
  {
    match i
    case BinaryOp(op) => ops.binary(op, vs[0], vs[1], w)
    case UnaryOp(op) => ops.unary(op, vs[0], w)
    case Call(argcnt, _) => ops.call(vs[0], Front(ops, vs[0], vs[0], w) + vs[1..argcnt + 1], vs[argcnt + 1..], w)
    case MakeList(_) => ops.makeList(vs, w)
    case MakeDict(_) => ops.makeDict(vs, w)
    case GetItem => ops.getItem(vs[0], vs[1], w)
    case GetField(index) => ops.getField(vs[0], NameAt(pool, index).value, w)
  }

  function Operated<V(!new), W(!new)>(ops: Ops<V, W>, pool: seq<Const>, i: Instr, r: Results<V, W>): Result<V, W>
    requires IsOperator(pool, i) && (r.AllDone? ==> |r.values| == Needs(i))
  {
    match r
    case OneRaised(x, w) => Raise(x, w)
    case AllDone(vs, w) => Meaning(ops, pool, i, vs, w)
  }

  /** The counts of the instruction fit, if it is a call. */
  ghost predicate CallFits<V(!new), W(!new)>(ops: Ops<V, W>, i: Instr) {
    i.Call? ==> Fits(ops, i.argcnt, i.kwargcnt)
  }

  /** Nothing is left over when the counts fit. */
  lemma WholeCall<V>(vs: seq<V>, front: seq<V>, args: nat, keys: nat)
    requires |vs| == args + keys + 1 && front != []
    ensures var all := vs[..0] + front + vs[1..];
            |all| == |front| + args + keys && all[..0] == [] &&
            all[0..|front| + args] == front + vs[1..args + 1] && all[|front| + args..] == vs[args + 1..]
  {
  }

  lemma InvokedWhole<V(!new), W(!new)>(
      ops: Ops<V, W>, ip: int, s: State<V, W>, argcnt: nat, kwargcnt: nat, vs: seq<V>)
    requires Fits(ops, argcnt, kwargcnt) && |vs| == argcnt + 2 * kwargcnt + 1
    ensures var s1 := s.(stack := s.stack + vs);
            var args := Front(ops, vs[0], vs[0], s.world) + vs[1..argcnt + 1];
            Invoked(ops, ip, s1, argcnt, kwargcnt) ==
            Replace(ip, s1, |vs|, ops.call(vs[0], args, vs[argcnt + 1..], s.world))
  {
    TopOf(s.stack, vs);
    hide Top, Below, Front, ToByte;
    var front := Front(ops, vs[0], vs[0], s.world);
    assert argcnt + |ops.bound(vs[0], s.world).1| < 0x100;
    WholeCall(vs, front, argcnt, 2 * kwargcnt);
    assert s.stack + [] == s.stack;
  }

  lemma OperatorExecutes<V(!new), W(!new)>(ops: Ops<V, W>, code: Code, i: Instr, ip: int, s: State<V, W>, vs: seq<V>)
    requires IsOperator(code.pool, i) && |vs| == Needs(i) && CallFits(ops, i)
    ensures var s1 := s.(stack := s.stack + vs);
            Execute(ops, code, i, ip, s1) == Replace(ip, s1, |vs|, Meaning(ops, code.pool, i, vs, s.world))
  {
    if i.Call? {
      InvokedWhole(ops, ip, s, i.argcnt, i.kwargcnt, vs);
      hide Invoked;
    } else {
      TopOf(s.stack, vs);
      hide Top, Below, NameAt;
    }
  }

  lemma OperatorSteps<V(!new), W(!new)>(ops: Ops<V, W>, code: Code, ip: int, s: State<V, W>, vs: seq<V>, i: Instr)
    requires CodeAt(code, ip, [i]) && IsOperator(code.pool, i) && |vs| == Needs(i) && CallFits(ops, i)
    ensures match Meaning(ops, code.pool, i, vs, s.world)
            case Done(v, w) =>
              Reaches(ops, code, Running(ip, s.(stack := s.stack + vs)),
                      Running(ip + Width(i), s.(stack := s.stack + [v], world := w)), 0)
            case Raise(x, w) =>
              Reaches(ops, code, Running(ip, s.(stack := s.stack + vs)), Raising(x, s.(world := w)), 0)
  {
    hide Reaches, Fetch, Execute, Meaning, IsOperator, Needs, Width, NameAt, CallFits;
    var s1 := s.(stack := s.stack + vs);
    CodeAtOne(code, ip, i);
    OneStep(ops, code, Running(ip, s1));
    TopOf(s.stack, vs);
    hide CodeAt, Top, Below;
    OperatorExecutes(ops, code, i, ip + Width(i), s, vs);
    assert Step(ops, code, Running(ip, s1)) ==
           Replace(ip + Width(i), s1, |vs|, Meaning(ops, code.pool, i, vs, s.world));
  }

  /** An instruction that takes all results that have been put on the stack. */
  lemma BringsOperated<V(!new), W(!new)>(
      ops: Ops<V, W>, code: Code, ip: int, s: State<V, W>, mid: int, r: Results<V, W>, i: Instr)
    requires Brings(ops, code, ip, s, mid, r) && CodeAt(code, mid, [i])
    requires IsOperator(code.pool, i) && (r.AllDone? ==> |r.values| == Needs(i)) && CallFits(ops, i)
    ensures Brings(ops, code, ip, s, mid + Width(i), One(Operated(ops, code.pool, i, r)))
  {
    hide Reaches, Meaning, IsOperator, Needs, CodeAt, Width, CallFits;
    if r.AllDone? {
      var t := s.(world := r.world);
      var s1 := t.(stack := s.stack + r.values);
      OperatorSteps(ops, code, mid, t, r.values, i);
      match Meaning(ops, code.pool, i, r.values, r.world)
      case Done(v, w) =>
        Then(ops, code, Running(ip, s), Running(mid, s1),
             Running(mid + Width(i), s.(stack := s.stack + [v], world := w)), 0, 0);
      case Raise(x, w) =>
        Then(ops, code, Running(ip, s), Running(mid, s1), Raising(x, s.(world := w)), 0, 0);
        assert s.stack + [] == s.stack;
    }
  }

  // ------------------------------------------------------------------------------------------ loads and constants

  lemma BringsNothing<V(!new), W(!new)>(ops: Ops<V, W>, code: Code, ip: int, s: State<V, W>)
    ensures Brings(ops, code, ip, s, ip, AllDone([], s.world))
  {
    assert s.stack + [] == s.stack;
    NoStep(ops, code, Running(ip, s));
  }

  lemma ConstRuns<V(!new), W(!new)>(ops: Ops<V, W>, final: Ctx, code: Code, ip: int, c: Ctx, k: Const, s: State<V, W>)
    requires InPlace(code, final, ip, ConstCode(c, k))
    ensures Brings(ops, code, ip, s, ip + Size(ConstCode(c, k).0), AllDone([ops.constant(k)], s.world))
  {
    hide Reaches;
    var i := ConstCode(c, k).0[0];
    CodeAtOne(code, ip, i);
    assert ConstCode(c, k).0 == [i] && [i][1..] == [] && Size([i]) == 5;
    assert ConstCode(c, k).1.pool[i.index] == k && code.pool[i.index] == k;
    OneStep(ops, code, Running(ip, s));
  }

  lemma NameInPool(code: Code, final: Ctx, c: Ctx, id: string)
    requires IsFinal(code, final) && Extends(InternName(c, id).1, final)
    ensures NameAt(code.pool, InternName(c, id).0) == Some(id)
  {
    var (i, d) := InternName(c, id);
    assert code.pool[i] == d.pool[i];
  }

  lemma LoadRuns<V(!new), W(!new)>(
      ops: Ops<V, W>, final: Ctx, code: Code, ip: int, c: Ctx, id: string, env: map<string, V>, s: State<V, W>)
    requires InPlace(code, final, ip, LoadCode(c, id)) && Matches(final, env, s.locals)
    ensures Brings(ops, code, ip, s, ip + Size(LoadCode(c, id).0), One(Load(ops, c.Scope(), env, s.world, id)))
  {
    hide Reaches, Fetch;
    var i := LoadCode(c, id).0[0];
    assert LoadCode(c, id).0 == [i] && [i][1..] == [] && Size([i]) == Width(i);
    CodeAtOne(code, ip, i);
    OneStep(ops, code, Running(ip, s));
    assert s.stack + [] == s.stack;
    if i.LoadGlobal? {
      NameInPool(code, final, c, id);
      TopOf(s.stack, []);
    }
  }

  // ------------------------------------------------------------------------------------------ expressions

  /** What is in place falls into its parts. */
  lemma Parts(code: Code, final: Ctx, ip: int, front: seq<Instr>, c: Ctx, back: seq<Instr>, d: Ctx)
    requires InPlace(code, final, ip, (front + back, d)) && Extends(c, d)
    ensures InPlace(code, final, ip, (front, c)) && InPlace(code, final, ip + Size(front), (back, d))
    ensures CodeAt(code, ip + Size(front), back) && Size(front + back) == Size(front) + Size(back)
    ensures |back| == 1 ==> Size(back) == Width(back[0])
  {
    hide CodeAt, Size;
    CodeAtSplit(code, ip, front, back);
    SizeAppend(front, back);
    ExtendsTransitive(c, d, final);
    if |back| == 1 { SizeOne(back); }
  }

  lemma {:induction false} ExprRuns<V(!new), W(!new)>(
      ops: Ops<V, W>, final: Ctx, code: Code, ip: int, c: Ctx, e: Expr, env: map<string, V>, s: State<V, W>)
    requires InPlace(code, final, ip, ExprCode(c, e)) && Matches(final, env, s.locals)
    requires CallsFit(ops, e)
    ensures Brings(ops, code, ip, s, ip + Size(ExprCode(c, e).0), One(Eval(ops, c.Scope(), env, e, s.world)))
    decreases e, 1
  {
    hide Brings, InPlace, Matches, ConstCode, LoadCode, Size, Extends;
    match e
    case Literal(k) => ConstRuns(ops, final, code, ip, c, k, s);
    case Name(id) => LoadRuns(ops, final, code, ip, c, id, env, s);
    case Paren(sub) => ExprRuns(ops, final, code, ip, c, sub, env, s);
    case ListLiteral(_) => LiteralRuns(ops, final, code, ip, c, e, env, s);
    case DictLiteral(_) => LiteralRuns(ops, final, code, ip, c, e, env, s);
    case Unary(_, _) => OneRuns(ops, final, code, ip, c, e, env, s);
    case Member(_, _) => OneRuns(ops, final, code, ip, c, e, env, s);
    case Binary(op, lhs, rhs) => TwoRun(ops, final, code, ip, c, e, lhs, rhs, BinaryOp(op), env, s);
    case Subscript(primary, index) => TwoRun(ops, final, code, ip, c, e, primary, index, GetItem, env, s);
    case Invoke(fn, args, kwargs) => InvokeRuns(ops, final, code, ip, c, fn, args, kwargs, env, s);
  }

  /** As many elements as there are. */
  lemma {:induction false} LiteralRuns<V(!new), W(!new)>(
      ops: Ops<V, W>, final: Ctx, code: Code, ip: int, c: Ctx, e: Expr, env: map<string, V>, s: State<V, W>)
    requires InPlace(code, final, ip, ExprCode(c, e)) && Matches(final, env, s.locals)
    requires CallsFit(ops, e)
    requires e.ListLiteral? || e.DictLiteral?
    ensures Brings(ops, code, ip, s, ip + Size(ExprCode(c, e).0), One(Eval(ops, c.Scope(), env, e, s.world)))
    decreases e, 0
  {
    hide Brings, InPlace, Matches, Size, Extends, ExprsCode, EntriesCode, EvalAll, EvalEntries;
    if e.ListLiteral? {
      var (part, c1) := ExprsCode(c, e.elements);
      ExtendsItself(c1);
      Parts(code, final, ip, part, c1, [MakeList(|e.elements|)], c1);
      ExprsRun(ops, final, code, ip, c, e.elements, env, s);
      BringsOperated(ops, code, ip, s, ip + Size(part), EvalAll(ops, c.Scope(), env, e.elements, s.world),
                     MakeList(|e.elements|));
    } else {
      var (part, c1) := EntriesCode(c, e.entries);
      ExtendsItself(c1);
      Parts(code, final, ip, part, c1, [MakeDict(|e.entries|)], c1);
      EntriesRun(ops, final, code, ip, c, e.entries, env, s);
      BringsOperated(ops, code, ip, s, ip + Size(part), EvalEntries(ops, c.Scope(), env, e.entries, s.world),
                     MakeDict(|e.entries|));
    }
  }

  /** One operand and an instruction. */
  lemma {:induction false} OneRuns<V(!new), W(!new)>(
      ops: Ops<V, W>, final: Ctx, code: Code, ip: int, c: Ctx, e: Expr, env: map<string, V>, s: State<V, W>)
    requires InPlace(code, final, ip, ExprCode(c, e)) && Matches(final, env, s.locals)
    requires CallsFit(ops, e)
    requires e.Unary? || e.Member?
    ensures Brings(ops, code, ip, s, ip + Size(ExprCode(c, e).0), One(Eval(ops, c.Scope(), env, e, s.world)))
    decreases e, 0
  {
    hide Brings, InPlace, Matches, Size, Extends, InternName;
    if e.Unary? {
      var (part, c1) := ExprCode(c, e.sub);
      ExtendsItself(c1);
      Parts(code, final, ip, part, c1, [UnaryOp(e.op)], c1);
      ExprRuns(ops, final, code, ip, c, e.sub, env, s);
      BringsOperated(ops, code, ip, s, ip + Size(part), One(Eval(ops, c.Scope(), env, e.sub, s.world)), UnaryOp(e.op));
    } else {
      var (part, c1) := ExprCode(c, e.primary);
      var (i, c2) := InternName(c1, e.member);
      NameGrows(c1, e.member);
      Parts(code, final, ip, part, c1, [GetField(i)], c2);
      NameInPool(code, final, c1, e.member) by { FinalOf(code, final, ip + Size(part), ([GetField(i)], c2)); }
      ExprRuns(ops, final, code, ip, c, e.primary, env, s);
      BringsOperated(ops, code, ip, s, ip + Size(part), One(Eval(ops, c.Scope(), env, e.primary, s.world)),
                     GetField(i));
    }
  }

  /** Two operands, the second in the world that the first one leaves, and an instruction. */
  lemma {:induction false} TwoRun<V(!new), W(!new)>(
      ops: Ops<V, W>, final: Ctx, code: Code, ip: int, c: Ctx, e: Expr, a: Expr, b: Expr, i: Instr,
      env: map<string, V>, s: State<V, W>)
    requires InPlace(code, final, ip, ExprCode(c, e)) && Matches(final, env, s.locals)
    requires CallsFit(ops, e)
    requires (e.Binary? && (a, b, i) == (e.lhs, e.rhs, BinaryOp(e.op))) ||
             (e.Subscript? && (a, b, i) == (e.primary, e.index, GetItem))
    ensures Brings(ops, code, ip, s, ip + Size(ExprCode(c, e).0), One(Eval(ops, c.Scope(), env, e, s.world)))
    decreases e, 0
  {
    hide Brings, InPlace, Matches, Size, Extends, ExprCode, Eval;
    var (l, c1) := ExprCode(c, a);
    var (r, c2) := ExprCode(c1, b);
    TwoCode(c, e, a, b, i);
    TwoParts(code, final, ip, l, c, a, r, b, [i], c2);
    ExprRuns(ops, final, code, ip, c, a, env, s);
    var first := Eval(ops, c.Scope(), env, a, s.world);
    if first.Done? {
      ExprRuns(ops, final, code, ip + Size(l), c1, b, env, s.(stack := s.stack + [first.value], world := first.world));
    }
    var more := w => One(Eval(ops, c.Scope(), env, b, w));
    BringsMore(ops, code, ip, s, ip + Size(l), One(first), ip + Size(l) + Size(r), more);
    TwoValues(ops, code.pool, c.Scope(), env, e, a, b, i, s.world, more);
    hide Append;
    BringsOperated(ops, code, ip, s, ip + Size(l) + Size(r), Append(One(first), more), i);
  }

  lemma TwoCode(c: Ctx, e: Expr, a: Expr, b: Expr, i: Instr)
    requires (e.Binary? && (a, b, i) == (e.lhs, e.rhs, BinaryOp(e.op))) ||
             (e.Subscript? && (a, b, i) == (e.primary, e.index, GetItem))
    ensures var (l, c1) := ExprCode(c, a);
            var (r, c2) := ExprCode(c1, b);
            ExprCode(c, e) == (l + r + [i], c2)
  {
  }

  lemma TwoValues<V(!new), W(!new)>(
      ops: Ops<V, W>, pool: seq<Const>, n: Names, env: map<string, V>, e: Expr, a: Expr, b: Expr, i: Instr, w: W,
      more: W -> Results<V, W>)
    requires (e.Binary? && (a, b, i) == (e.lhs, e.rhs, BinaryOp(e.op))) ||
             (e.Subscript? && (a, b, i) == (e.primary, e.index, GetItem))
    requires var first := Eval(ops, n, env, a, w);
             first.Done? ==> more(first.world) == One(Eval(ops, n, env, b, first.world))
    ensures var all := Append(One(Eval(ops, n, env, a, w)), more);
            (all.AllDone? ==> |all.values| == Needs(i)) && IsOperator(pool, i) &&
            Operated(ops, pool, i, all) == Eval(ops, n, env, e, w)
  {
  }

  lemma ExtendsItself(c: Ctx)
    ensures Extends(c, c)
  {
  }

  lemma NameGrows(c: Ctx, s: string)
    ensures Extends(c, InternName(c, s).1)
  {
  }

  lemma FinalOf(code: Code, final: Ctx, ip: int, e: Emitted)
    requires InPlace(code, final, ip, e)
    ensures IsFinal(code, final) && Extends(e.1, final)
  {
  }

  /** Two operands and an instruction. */
  lemma TwoParts(
      code: Code, final: Ctx, ip: int, l: seq<Instr>, c: Ctx, a: Expr, r: seq<Instr>, b: Expr, back: seq<Instr>, d: Ctx)
    requires l == ExprCode(c, a).0 && (r, d) == ExprCode(ExprCode(c, a).1, b)
    requires InPlace(code, final, ip, (l + r + back, d))
    ensures InPlace(code, final, ip, ExprCode(c, a)) && InPlace(code, final, ip + Size(l), (r, d))
    ensures CodeAt(code, ip + Size(l) + Size(r), back) && ExprCode(c, a).1.Scope() == c.Scope()
    ensures Size(l + r + back) == Size(l) + Size(r) + Size(back) && (|back| == 1 ==> Size(back) == Width(back[0]))
  {
    hide InPlace, Size, CodeAt, Extends;
    ExprGrows(c, a);
    ExprGrows(ExprCode(c, a).1, b);
    ExtendsItself(d);
    Parts(code, final, ip, l + r, d, back, d);
    Parts(code, final, ip, l, ExprCode(c, a).1, r, d);
  }

  lemma {:induction false} ExprsRun<V(!new), W(!new)>(
      ops: Ops<V, W>, final: Ctx, code: Code, ip: int, c: Ctx, es: seq<Expr>, env: map<string, V>, s: State<V, W>)
    requires InPlace(code, final, ip, ExprsCode(c, es)) && Matches(final, env, s.locals)
    requires forall x <- es :: CallsFit(ops, x)
    ensures Brings(ops, code, ip, s, ip + Size(ExprsCode(c, es).0), EvalAll(ops, c.Scope(), env, es, s.world))
    decreases es, 0
  {
    hide Brings, InPlace, Matches, Size, Extends, Eval, ExprCode, ExprsCode, EvalAll, Append;
    ExprsUnfold(c, es);
    var more := w => if es == [] then AllDone([], w) else EvalAll(ops, c.Scope(), env, es[1..], w);
    EvalAllUnfold(ops, c.Scope(), env, es, s.world, more);
    if es == [] {
      BringsNothing(ops, code, ip, s);
      SizeNothing();
    } else {
      var (l, c1) := ExprCode(c, es[0]);
      var (r, c2) := ExprsCode(c1, es[1..]);
      ExprGrows(c, es[0]);
      ExprsGrow(c1, es[1..]);
      Parts(code, final, ip, l, c1, r, c2);
      ExprRuns(ops, final, code, ip, c, es[0], env, s);
      var first := Eval(ops, c.Scope(), env, es[0], s.world);
      if first.Done? {
        ExprsRun(ops, final, code, ip + Size(l), c1, es[1..], env,
                 s.(stack := s.stack + [first.value], world := first.world));
      }
      BringsMore(ops, code, ip, s, ip + Size(l), One(first), ip + Size(l) + Size(r), more);
    }
  }

  lemma ExprsUnfold(c: Ctx, es: seq<Expr>)
    ensures ExprsCode(c, es) ==
            if es == [] then ([], c)
            else
              var (l, c1) := ExprCode(c, es[0]);
              var (r, c2) := ExprsCode(c1, es[1..]);
              (l + r, c2)
  {
    hide ExprCode;
  }

  lemma EvalAllUnfold<V(!new), W(!new)>(
      ops: Ops<V, W>, n: Names, env: map<string, V>, es: seq<Expr>, w: W, more: W -> Results<V, W>)
    requires es != [] ==> forall w1 :: more(w1) == EvalAll(ops, n, env, es[1..], w1)
    ensures EvalAll(ops, n, env, es, w) ==
            if es == [] then AllDone([], w) else Append(One(Eval(ops, n, env, es[0], w)), more)
  {
    hide Eval;
  }

  lemma SizeNothing()
    ensures Size([]) == 0
  {
  }

  lemma {:induction false} EntryRuns<V(!new), W(!new)>(
      ops: Ops<V, W>, final: Ctx, code: Code, ip: int, c: Ctx, entry: Entry, env: map<string, V>, s: State<V, W>)
    requires InPlace(code, final, ip, EntryCode(c, entry)) && Matches(final, env, s.locals)
    requires EntryFits(ops, entry)
    ensures Brings(ops, code, ip, s, ip + Size(EntryCode(c, entry).0), EvalEntry(ops, c.Scope(), env, entry, s.world))
    decreases entry, 0
  {
    hide Brings, InPlace, Matches, Size, Extends, Eval, ExprCode;
    var (l, c1) := ExprCode(c, entry.key);
    var (r, c2) := ExprCode(c1, entry.value);
    ExprGrows(c, entry.key);
    ExprGrows(c1, entry.value);
    Parts(code, final, ip, l, c1, r, c2);
    ExprRuns(ops, final, code, ip, c, entry.key, env, s);
    var first := Eval(ops, c.Scope(), env, entry.key, s.world);
    if first.Done? {
      ExprRuns(ops, final, code, ip + Size(l), c1, entry.value, env,
               s.(stack := s.stack + [first.value], world := first.world));
    }
    var more := w => One(Eval(ops, c.Scope(), env, entry.value, w));
    BringsMore(ops, code, ip, s, ip + Size(l), One(first), ip + Size(l) + Size(r), more);
    if first.Done? && more(first.world).AllDone? {
      assert [first.value] + more(first.world).values == [first.value, more(first.world).values[0]];
    }
  }

  lemma {:induction false} EntriesRun<V(!new), W(!new)>(
      ops: Ops<V, W>, final: Ctx, code: Code, ip: int, c: Ctx, entries: seq<Entry>, env: map<string, V>, s: State<V, W>)
    requires InPlace(code, final, ip, EntriesCode(c, entries)) && Matches(final, env, s.locals)
    requires forall x <- entries :: EntryFits(ops, x)
    ensures Brings(ops, code, ip, s, ip + Size(EntriesCode(c, entries).0),
                   EvalEntries(ops, c.Scope(), env, entries, s.world))
    decreases entries, 0
  {
    hide Brings, InPlace, Matches, Size, Extends, EvalEntry, EntryCode, EntriesCode, EvalEntries, Append;
    EntriesUnfold(c, entries);
    var more := w => if entries == [] then AllDone([], w) else EvalEntries(ops, c.Scope(), env, entries[1..], w);
    EvalEntriesUnfold(ops, c.Scope(), env, entries, s.world, more);
    if entries == [] {
      BringsNothing(ops, code, ip, s);
      SizeNothing();
    } else {
      var (l, c1) := EntryCode(c, entries[0]);
      var (r, c2) := EntriesCode(c1, entries[1..]);
      EntryGrows(c, entries[0]);
      EntriesGrow(c1, entries[1..]);
      Parts(code, final, ip, l, c1, r, c2);
      EntryRuns(ops, final, code, ip, c, entries[0], env, s);
      var first := EvalEntry(ops, c.Scope(), env, entries[0], s.world);
      if first.AllDone? {
        EntriesRun(ops, final, code, ip + Size(l), c1, entries[1..], env,
                   s.(stack := s.stack + first.values, world := first.world));
      }
      BringsMore(ops, code, ip, s, ip + Size(l), first, ip + Size(l) + Size(r), more);
    }
  }

  lemma EntriesUnfold(c: Ctx, entries: seq<Entry>)
    ensures EntriesCode(c, entries) ==
            if entries == [] then ([], c)
            else
              var (l, c1) := EntryCode(c, entries[0]);
              var (r, c2) := EntriesCode(c1, entries[1..]);
              (l + r, c2)
  {
  }

  lemma EvalEntriesUnfold<V(!new), W(!new)>(
      ops: Ops<V, W>, n: Names, env: map<string, V>, entries: seq<Entry>, w: W, more: W -> Results<V, W>)
    requires entries != [] ==> forall w1 :: more(w1) == EvalEntries(ops, n, env, entries[1..], w1)
    ensures EvalEntries(ops, n, env, entries, w) ==
            if entries == [] then AllDone([], w) else Append(EvalEntry(ops, n, env, entries[0], w), more)
  {
    hide EvalEntry;
  }

  lemma {:induction false} InvokeRuns<V(!new), W(!new)>(
      ops: Ops<V, W>, final: Ctx, code: Code, ip: int, c: Ctx, fn: Expr, args: seq<Expr>, kwargs: seq<Entry>,
      env: map<string, V>, s: State<V, W>)
    requires InPlace(code, final, ip, ExprCode(c, Invoke(fn, args, kwargs))) && Matches(final, env, s.locals)
    requires CallsFit(ops, Invoke(fn, args, kwargs))
    ensures Brings(ops, code, ip, s, ip + Size(ExprCode(c, Invoke(fn, args, kwargs)).0),
                   One(Eval(ops, c.Scope(), env, Invoke(fn, args, kwargs), s.world)))
    decreases Invoke(fn, args, kwargs), 0
  {
    hide Brings, InPlace, Matches, Size, Extends, ExprCode, ExprsCode, EntriesCode, Eval, EvalAll, EvalEntries, Append,
         Operated, IsOperator, Needs, Width;
    var n := c.Scope();
    var (f, c1) := ExprCode(c, fn);
    var (a, c2) := ExprsCode(c1, args);
    var (k, c3) := EntriesCode(c2, kwargs);
    var (mid, end) := (ip + Size(f) + Size(a), ip + Size(f) + Size(a) + Size(k));
    var i := Call(|args|, |kwargs|);
    InvokeCode(c, fn, args, kwargs);
    ExprGrows(c, fn);
    ExprsGrow(c1, args);
    EntriesGrow(c2, kwargs);
    ExtendsItself(c3);
    Parts(code, final, ip, f + a + k, c3, [i], c3);
    Parts(code, final, ip, f + a, c2, k, c3);
    Parts(code, final, ip, f, c1, a, c2);
    ExprRuns(ops, final, code, ip, c, fn, env, s);
    var first := Eval(ops, n, env, fn, s.world);
    var more := w => EvalAll(ops, n, env, args, w);
    if first.Done? {
      ExprsRun(ops, final, code, ip + Size(f), c1, args, env,
               s.(stack := s.stack + [first.value], world := first.world));
    }
    BringsMore(ops, code, ip, s, ip + Size(f), One(first), mid, more);
    var second := Append(One(first), more);
    var last := w => EvalEntries(ops, n, env, kwargs, w);
    if second.AllDone? {
      EntriesRun(ops, final, code, mid, c2, kwargs, env,
                 s.(stack := s.stack + second.values, world := second.world));
    }
    BringsMore(ops, code, ip, s, mid, second, end, last);
    InvokeValues(ops, code.pool, n, env, fn, args, kwargs, s.world, more, last);
    BringsOperated(ops, code, ip, s, end, Append(second, last), i);
  }

  lemma InvokeCode(c: Ctx, fn: Expr, args: seq<Expr>, kwargs: seq<Entry>)
    ensures var (f, c1) := ExprCode(c, fn);
            var (a, c2) := ExprsCode(c1, args);
            var (k, c3) := EntriesCode(c2, kwargs);
            ExprCode(c, Invoke(fn, args, kwargs)) == (f + a + k + [Call(|args|, |kwargs|)], c3)
  {
  }

  lemma InvokeValues<V(!new), W(!new)>(
      ops: Ops<V, W>, pool: seq<Const>, n: Names, env: map<string, V>, fn: Expr, args: seq<Expr>, kwargs: seq<Entry>,
      w: W, more: W -> Results<V, W>, last: W -> Results<V, W>)
    requires forall w1 :: more(w1) == EvalAll(ops, n, env, args, w1)
    requires forall w1 :: last(w1) == EvalEntries(ops, n, env, kwargs, w1)
    ensures var all := Append(Append(One(Eval(ops, n, env, fn, w)), more), last);
            var i := Call(|args|, |kwargs|);
            (all.AllDone? ==> |all.values| == Needs(i)) && IsOperator(pool, i) &&
            Operated(ops, pool, i, all) == Eval(ops, n, env, Invoke(fn, args, kwargs), w)
  {
    hide EvalAll, EvalEntries;
    var first := Eval(ops, n, env, fn, w);
    var all := Append(Append(One(first), more), last);
    if all.AllDone? {
      var vs := EvalAll(ops, n, env, args, first.world);
      Arguments(first.value, vs.values, EvalEntries(ops, n, env, kwargs, vs.world).values);
    }
  }

  lemma Arguments<V>(f: V, vs: seq<V>, ks: seq<V>)
    ensures var all := [f] + vs + ks;
            all[0] == f && all[1..|vs| + 1] == vs && all[|vs| + 1..] == ks
  {
  }
}
