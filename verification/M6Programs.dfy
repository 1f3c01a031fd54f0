/** Statements: jumps, loops and exceptions of the generated code. */
module M6Programs {
  import opened Bytes
  import opened M6Machine
  import opened M6Syntax
  import opened M6Codegen
  import opened M6Context
  import opened M6Correct

  // ------------------------------------------------------------------------------------------ what code does

  /** From `ip` to `end` the code does what the outcome says, and leaves on the stack what the outcome says and no more.
      An exception may leave something on it. What runs out of fuel is still running behind as many steps. */
  ghost predicate Does<V(!new), W(!new)>(
      ops: Ops<V, W>, final: Ctx, code: Code, ip: int, s: State<V, W>, end: int, out: Outcome<V, W>, fuel: nat)
  {
    match out
    case Normal(env, w, left) =>
      exists locals: map<nat, V> :: Matches(final, env, locals) &&
        Reaches(ops, code, Running(ip, s), Running(end, StateAfter(s, left, locals, w)), 0)
    case Raised(x, env, w) =>
      exists locals: map<nat, V>, extra: seq<V> :: Matches(final, env, locals) &&
        Reaches(ops, code, Running(ip, s), Raising(x, s.(stack := s.stack + extra, locals := locals, world := w)), 0)
    case OutOfFuel => RunsOn(ops, code, Running(ip, s), fuel)
  }

  function StateAfter<V, W>(s: State<V, W>, left: seq<V>, locals: map<nat, V>, w: W): State<V, W> {
    s.(stack := s.stack + left, locals := locals, world := w)
  }

  lemma DoesNormal<V(!new), W(!new)>(
      ops: Ops<V, W>, final: Ctx, code: Code, ip: int, s: State<V, W>, end: int, env: map<string, V>, w: W,
      left: seq<V>, locals: map<nat, V>, fuel: nat)
    requires Matches(final, env, locals)
    requires Reaches(ops, code, Running(ip, s), Running(end, StateAfter(s, left, locals, w)), 0)
    ensures Does(ops, final, code, ip, s, end, Normal(env, w, left), fuel)
  {
    hide Reaches, Matches;
  }

  lemma DoesRaise<V(!new), W(!new)>(
      ops: Ops<V, W>, final: Ctx, code: Code, ip: int, s: State<V, W>, end: int, x: V, env: map<string, V>, w: W,
      locals: map<nat, V>, extra: seq<V>, fuel: nat)
    requires Matches(final, env, locals)
    requires Reaches(ops, code, Running(ip, s),
                     Raising(x, s.(stack := s.stack + extra, locals := locals, world := w)), 0)
    ensures Does(ops, final, code, ip, s, end, Raised(x, env, w), fuel)
  {
    hide Reaches, Matches;
  }

  lemma NormalLocals<V(!new), W(!new)>(
      ops: Ops<V, W>, final: Ctx, code: Code, ip: int, s: State<V, W>, end: int, env: map<string, V>, w: W,
      left: seq<V>, fuel: nat)
    returns (locals: map<nat, V>)
    requires Does(ops, final, code, ip, s, end, Normal(env, w, left), fuel)
    ensures Matches(final, env, locals)
    ensures Reaches(ops, code, Running(ip, s), Running(end, StateAfter(s, left, locals, w)), 0)
  {
    hide Reaches, Matches;
    locals :| Matches(final, env, locals) &&
      Reaches(ops, code, Running(ip, s), Running(end, StateAfter(s, left, locals, w)), 0);
  }

  lemma RaisedLocals<V(!new), W(!new)>(
      ops: Ops<V, W>, final: Ctx, code: Code, ip: int, s: State<V, W>, end: int, x: V, env: map<string, V>, w: W,
      fuel: nat)
    returns (locals: map<nat, V>, extra: seq<V>)
    requires Does(ops, final, code, ip, s, end, Raised(x, env, w), fuel)
    ensures Matches(final, env, locals)
    ensures Reaches(ops, code, Running(ip, s),
                    Raising(x, s.(stack := s.stack + extra, locals := locals, world := w)), 0)
  {
    hide Reaches, Matches;
    locals, extra :| Matches(final, env, locals) &&
      Reaches(ops, code, Running(ip, s), Raising(x, s.(stack := s.stack + extra, locals := locals, world := w)), 0);
  }

  lemma BringsRaised<V(!new), W(!new)>(
      ops: Ops<V, W>, code: Code, ip: int, s: State<V, W>, end: int, x: V, w: W) returns (extra: seq<V>)
    requires Brings(ops, code, ip, s, end, OneRaised(x, w))
    ensures Reaches(ops, code, Running(ip, s), Raising(x, s.(stack := s.stack + extra, world := w)), 0)
  {
    hide Reaches;
    extra :| Reaches(ops, code, Running(ip, s), Raising(x, s.(stack := s.stack + extra, world := w)), 0);
  }

  ghost predicate RunsOn<V(!new), W(!new)>(ops: Ops<V, W>, code: Code, c: Config<V, W>, least: nat) {
    exists n: nat :: n >= least && Iterate(ops, code, c, n).Running?
  }

  lemma RunsOnLater<V(!new), W(!new)>(
      ops: Ops<V, W>, code: Code, c: Config<V, W>, d: Config<V, W>, first: nat, least: nat)
    requires Reaches(ops, code, c, d, first) && RunsOn(ops, code, d, least)
    ensures RunsOn(ops, code, c, first + least)
  {
    hide Iterate;
    var n: nat :| n >= first && Iterate(ops, code, c, n) == d;
    var m: nat :| m >= least && Iterate(ops, code, d, m).Running?;
    IterateAdd(ops, code, c, n, m);
  }

  /** What happens first can be put in front, with what it leaves on the stack, if the handlers are as before. Steps
      count as fuel. */
  lemma FirstLeaving<V(!new), W(!new)>(
      ops: Ops<V, W>, final: Ctx, code: Code, ip: int, s: State<V, W>, mid: int, t: State<V, W>, end: int,
      left: seq<V>, out: Outcome<V, W>, steps: nat, fuel: nat)
    requires Reaches(ops, code, Running(ip, s), Running(mid, t), steps)
    requires t.stack == s.stack + left && t.handlers == s.handlers
    requires Does(ops, final, code, mid, t, end, out, fuel)
    ensures Does(ops, final, code, ip, s, end, Behind(left, out), fuel) &&
            (out.OutOfFuel? ==> RunsOn(ops, code, Running(ip, s), steps + fuel))
  {
    hide Reaches, Matches;
    AtLeast(ops, code, Running(ip, s), Running(mid, t), steps);
    match out
    case Normal(env, w, more) =>
      hide Does;
      var locals := NormalLocals(ops, final, code, mid, t, end, env, w, more, fuel);
      Then(ops, code, Running(ip, s), Running(mid, t), Running(end, StateAfter(t, more, locals, w)), 0, 0);
      assert t.stack + more == s.stack + (left + more);
      DoesNormal(ops, final, code, ip, s, end, env, w, left + more, locals, fuel);
    case Raised(x, env, w) =>
      hide Does;
      var locals, extra := RaisedLocals(ops, final, code, mid, t, end, x, env, w, fuel);
      var u := t.(stack := t.stack + extra, locals := locals, world := w);
      Then(ops, code, Running(ip, s), Running(mid, t), Raising(x, u), 0, 0);
      assert t.stack + extra == s.stack + (left + extra);
      DoesRaise(ops, final, code, ip, s, end, x, env, w, locals, left + extra, fuel);
    case OutOfFuel =>
      RunsOnLater(ops, code, Running(ip, s), Running(mid, t), steps, fuel);
      RunsOnLater(ops, code, Running(ip, s), Running(mid, t), 0, fuel);
  }

  lemma First<V(!new), W(!new)>(
      ops: Ops<V, W>, final: Ctx, code: Code, ip: int, s: State<V, W>, mid: int, t: State<V, W>, end: int,
      out: Outcome<V, W>, steps: nat, fuel: nat)
    requires Reaches(ops, code, Running(ip, s), Running(mid, t), steps)
    requires t.stack == s.stack && t.handlers == s.handlers
    requires Does(ops, final, code, mid, t, end, out, fuel)
    ensures Does(ops, final, code, ip, s, end, out, fuel) &&
            (out.OutOfFuel? ==> RunsOn(ops, code, Running(ip, s), steps + fuel))
  {
    hide Reaches, Does, RunsOn;
    assert s.stack + [] == s.stack;
    FirstLeaving(ops, final, code, ip, s, mid, t, end, [], out, steps, fuel);
    if out.Normal? {
      assert [] + out.left == out.left;
    }
  }

  lemma AtLeast<V(!new), W(!new)>(ops: Ops<V, W>, code: Code, c: Config<V, W>, d: Config<V, W>, least: nat)
    requires Reaches(ops, code, c, d, least)
    ensures Reaches(ops, code, c, d, 0)
  {
    var n: nat :| n >= least && Iterate(ops, code, c, n) == d;
  }

  /** A normal outcome, and what follows it. */
  lemma Sequence<V(!new), W(!new)>(
      ops: Ops<V, W>, final: Ctx, code: Code, ip: int, s: State<V, W>, mid: int, out: Outcome<V, W>, end: int,
      next: Outcome<V, W>, fuel: nat)
    requires Does(ops, final, code, ip, s, mid, out, fuel)
    requires out.Normal? ==> forall locals: map<nat, V> :: Matches(final, out.env, locals) ==>
               Does(ops, final, code, mid, StateAfter(s, out.left, locals, out.world), end, next, fuel)
    ensures Does(ops, final, code, ip, s, end, if out.Normal? then Behind(out.left, next) else out, fuel)
  {
    if out.Normal? {
      var locals: map<nat, V> :| Matches(final, out.env, locals) &&
        Reaches(ops, code, Running(ip, s), Running(mid, StateAfter(s, out.left, locals, out.world)), 0);
      hide Does, Reaches, Matches;
      FirstLeaving(ops, final, code, ip, s, mid, StateAfter(s, out.left, locals, out.world), end, out.left, next, 0,
                   fuel);
    }
  }

  /** The same end by another name: a jump from the end of a part to the end of the whole. */
  lemma Last<V(!new), W(!new)>(
      ops: Ops<V, W>, final: Ctx, code: Code, ip: int, s: State<V, W>, mid: int, out: Outcome<V, W>, end: int,
      fuel: nat)
    requires Does(ops, final, code, ip, s, mid, out, fuel)
    requires out.Normal? ==> forall t: State<V, W> :: Reaches(ops, code, Running(mid, t), Running(end, t), 0)
    ensures Does(ops, final, code, ip, s, end, out, fuel)
  {
    if out.Normal? {
      var locals: map<nat, V> :| Matches(final, out.env, locals) &&
        Reaches(ops, code, Running(ip, s), Running(mid, StateAfter(s, out.left, locals, out.world)), 0);
      var t := StateAfter(s, out.left, locals, out.world);
      hide Reaches, Matches;
      Then(ops, code, Running(ip, s), Running(mid, t), Running(end, t), 0, 0);
    }
  }

  lemma Jumps<V(!new), W(!new)>(ops: Ops<V, W>, code: Code, ip: int, offset: int, t: State<V, W>)
    requires CodeAt(code, ip, [Jump(offset)])
    ensures Reaches(ops, code, Running(ip, t), Running(ip + JUMP + offset, t), 1)
    ensures Reaches(ops, code, Running(ip, t), Running(ip + JUMP + offset, t), 0)
  {
    hide Reaches, Fetch;
    CodeAtOne(code, ip, Jump(offset));
    OneStep(ops, code, Running(ip, t));
  }

  // ------------------------------------------------------------------------------------------ effects of instructions

  /** Operands are gone; a result is of no interest, but something may be left. */
  function Leaving<V, W>(ip: int, s: State<V, W>, left: seq<V>, r: Result<V, W>): Config<V, W> {
    match r
    case Done(_, w) => Running(ip, StateAfter(s, left, s.locals, w))
    case Raise(x, w) => Raising(x, s.(world := w))
  }

  /** Values on the stack, then an instruction that takes them: what it does, and what is left. */
  lemma Consumed<V(!new), W(!new)>(
      ops: Ops<V, W>, final: Ctx, code: Code, ip: int, s: State<V, W>, mid: int, r: Results<V, W>, i: Instr,
      env: map<string, V>, result: Result<V, W>, left: seq<V>, fuel: nat)
    requires Brings(ops, code, ip, s, mid, r) && CodeAt(code, mid, [i]) && Matches(final, env, s.locals)
    requires r.OneRaised? ==> result == Raise(r.exc, r.world)
    requires r.AllDone? ==>
               Needs(i) == |r.values| &&
               Execute(ops, code, i, mid + Width(i), s.(stack := s.stack + r.values, world := r.world)) ==
               Leaving(mid + Width(i), s.(world := r.world), left, result)
    ensures Does(ops, final, code, ip, s, mid + Width(i), Finished(env, result, left), fuel)
  {
    hide Reaches, Fetch, Execute, Matches, Does;
    var end := mid + Width(i);
    match r
    case OneRaised(x, w) =>
      var extra := BringsRaised(ops, code, ip, s, mid, x, w);
      assert s.(stack := s.stack + extra, locals := s.locals, world := w) == s.(stack := s.stack + extra, world := w);
      DoesRaise(ops, final, code, ip, s, end, x, env, w, s.locals, extra, fuel);
    case AllDone(vs, w) =>
      var s1 := s.(stack := s.stack + vs, world := w);
      CodeAtOne(code, mid, i);
      OneStep(ops, code, Running(mid, s1));
      var next := Leaving(end, s.(world := w), left, result);
      assert Step(ops, code, Running(mid, s1)) == next;
      Then(ops, code, Running(ip, s), Running(mid, s1), next, 0, 0);
      if result.Raise? {
        assert s.stack + [] == s.stack;
        assert s.(stack := s.stack + [], locals := s.locals, world := result.world) == s.(world := result.world);
        DoesRaise(ops, final, code, ip, s, end, result.exc, env, result.world, s.locals, [], fuel);
      } else {
        assert StateAfter(s.(world := w), left, s.locals, result.world) == StateAfter(s, left, s.locals, result.world);
        DoesNormal(ops, final, code, ip, s, end, env, result.world, left, s.locals, fuel);
      }
  }

  /** Storing what is on the stack. */
  lemma StoreRuns<V(!new), W(!new)>(
      ops: Ops<V, W>, final: Ctx, code: Code, ip: int, c: Ctx, id: string, env: map<string, V>, s: State<V, W>, v: V,
      fuel: nat)
    requires InPlace(code, final, ip, StoreCode(c, id)) && Matches(final, env, s.locals)
    ensures var out := Store(ops, c.Scope(), env, s.world, id, v);
            out.Normal? && out.left == [] &&
            exists locals: map<nat, V> :: Matches(final, out.env, locals) &&
              Reaches(ops, code, Running(ip, s.(stack := s.stack + [v])),
                      Running(ip + Size(StoreCode(c, id).0), s.(locals := locals, world := out.world)), 0)
  {
    hide Reaches, CodeAt, Size, Execute, NameAt, Find;
    var (part, d) := StoreCode(c, id);
    var (s1, i) := (s.(stack := s.stack + [v]), part[0]);
    assert part == [i];
    SizeOne(part);
    if i.StoreGlobal? {
      NameInPool(code, final, c, id);
      StoreGlobalSteps(ops, code, ip, i.index, id, s, v);
      assert Matches(final, env, s.locals);
    } else {
      assert d.locals[id] == i.slot && final.locals[id] == i.slot;
      StoreFastSteps(ops, code, ip, i.slot, s, v);
      StoredMatches(final, env, s.locals, id, v);
    }
  }

  lemma StoreFastSteps<V(!new), W(!new)>(ops: Ops<V, W>, code: Code, ip: int, slot: nat, s: State<V, W>, v: V)
    requires CodeAt(code, ip, [StoreFast(slot)])
    ensures Reaches(ops, code, Running(ip, s.(stack := s.stack + [v])),
                    Running(ip + 3, s.(locals := s.locals[slot := v], world := s.world)), 0)
  {
    hide Reaches, Fetch;
    CodeAtOne(code, ip, StoreFast(slot));
    TopOf(s.stack, [v]);
    OneStep(ops, code, Running(ip, s.(stack := s.stack + [v])));
  }

  lemma StoreGlobalSteps<V(!new), W(!new)>(
      ops: Ops<V, W>, code: Code, ip: int, index: nat, id: string, s: State<V, W>, v: V)
    requires CodeAt(code, ip, [StoreGlobal(index)]) && NameAt(code.pool, index) == Some(id)
    ensures Reaches(ops, code, Running(ip, s.(stack := s.stack + [v])),
                    Running(ip + 5, s.(locals := s.locals, world := ops.storeGlobal(id, v, s.world))), 0)
  {
    hide Reaches, Fetch;
    CodeAtOne(code, ip, StoreGlobal(index));
    TopOf(s.stack, [v]);
    OneStep(ops, code, Running(ip, s.(stack := s.stack + [v])));
  }

  lemma StoredMatches<V(!new)>(final: Ctx, env: map<string, V>, locals: map<nat, V>, id: string, v: V)
    requires WellFormed(final) && Matches(final, env, locals) && id in final.locals
    ensures Matches(final, env[id := v], locals[final.locals[id] := v])
  {
    forall x | x in final.locals && x != id ensures final.locals[x] != final.locals[id] {
      assert final.fastLocals[final.locals[x]] == x;
    }
  }

  // ------------------------------------------------------------------------------------------ assignments

  lemma StoreAfter<V(!new), W(!new)>(
      ops: Ops<V, W>, final: Ctx, code: Code, ip: int, s: State<V, W>, mid: int, r: Result<V, W>, c: Ctx, id: string,
      env: map<string, V>, fuel: nat)
    requires Brings(ops, code, ip, s, mid, One(r)) && InPlace(code, final, mid, StoreCode(c, id))
    requires Matches(final, env, s.locals)
    ensures var out := if r.Raise? then Raised(r.exc, env, r.world)
                       else Store(ops, c.Scope(), env, r.world, id, r.value);
            Does(ops, final, code, ip, s, mid + Size(StoreCode(c, id).0), out, fuel)
  {
    hide Reaches, Matches, InPlace, StoreCode, Size, Does;
    var end := mid + Size(StoreCode(c, id).0);
    match r
    case Raise(x, w) =>
      var extra := BringsRaised(ops, code, ip, s, mid, x, w);
      assert s.(stack := s.stack + extra, locals := s.locals, world := w) == s.(stack := s.stack + extra, world := w);
      DoesRaise(ops, final, code, ip, s, end, x, env, w, s.locals, extra, fuel);
    case Done(v, w) =>
      var t := s.(world := w);
      StoreRuns(ops, final, code, mid, c, id, env, t, v, fuel);
      var out := Store(ops, c.Scope(), env, w, id, v);
      var locals: map<nat, V> :| Matches(final, out.env, locals) &&
        Reaches(ops, code, Running(mid, t.(stack := t.stack + [v])),
                Running(end, t.(locals := locals, world := out.world)), 0);
      assert t.(locals := locals, world := out.world) == s.(locals := locals, world := out.world);
      assert t.(stack := t.stack + [v]) == s.(stack := s.stack + [v], world := w);
      Then(ops, code, Running(ip, s), Running(mid, s.(stack := s.stack + [v], world := w)),
           Running(end, s.(locals := locals, world := out.world)), 0, 0);
      assert s.stack + [] == s.stack;
      DoesNormal(ops, final, code, ip, s, end, out.env, out.world, [], locals, fuel);
  }

  /** Does an instruction consume its operands, and with what effect? */
  predicate IsEffect(pool: seq<Const>, i: Instr) {
    i == Pop(1) || i.SetItem? || (i.SetField? && NameAt(pool, i.index).Some?)
  }

  function Effect<V, W>(ops: Ops<V, W>, pool: seq<Const>, i: Instr, vs: seq<V>, w: W): Result<V, W>
    requires IsEffect(pool, i) && |vs| == Needs(i)
  {
    match i
    case Pop(_) => Done(vs[0], w)
    case SetItem => ops.setItem(vs[0], vs[1], vs[2], w)
    case SetField(index) => ops.setField(vs[0], NameAt(pool, index).value, vs[1], w)
  }

  /** What it leaves. */
  function EffectLeft<V, W>(ops: Ops<V, W>, i: Instr, vs: seq<V>, w: W): seq<V>
    requires |vs| == Needs(i)
  {
    if i.SetItem? then Residue(ops, vs[0], w, ops.setItem(vs[0], vs[1], vs[2], w)) else []
  }

  lemma EffectExecutes<V, W>(ops: Ops<V, W>, code: Code, i: Instr, ip: int, s: State<V, W>, vs: seq<V>)
    requires IsEffect(code.pool, i) && |vs| == Needs(i)
    ensures Execute(ops, code, i, ip, s.(stack := s.stack + vs)) ==
            Leaving(ip, s, EffectLeft(ops, i, vs, s.world), Effect(ops, code.pool, i, vs, s.world))
  {
    TopOf(s.stack, vs);
    assert s.stack + [] == s.stack;
    hide Top, Below, NameAt;
  }

  function Affected<V, W>(ops: Ops<V, W>, pool: seq<Const>, i: Instr, r: Results<V, W>): Result<V, W>
    requires IsEffect(pool, i) && (r.AllDone? ==> |r.values| == Needs(i))
  {
    match r
    case OneRaised(x, w) => Raise(x, w)
    case AllDone(vs, w) => Effect(ops, pool, i, vs, w)
  }

  function AffectedLeft<V, W>(ops: Ops<V, W>, i: Instr, r: Results<V, W>): seq<V>
    requires r.AllDone? ==> |r.values| == Needs(i)
  {
    if r.AllDone? then EffectLeft(ops, i, r.values, r.world) else []
  }

  lemma EffectAfter<V(!new), W(!new)>(
      ops: Ops<V, W>, final: Ctx, code: Code, ip: int, s: State<V, W>, mid: int, r: Results<V, W>, i: Instr,
      env: map<string, V>, fuel: nat)
    requires Brings(ops, code, ip, s, mid, r) && CodeAt(code, mid, [i]) && Matches(final, env, s.locals)
    requires IsEffect(code.pool, i) && (r.AllDone? ==> |r.values| == Needs(i))
    ensures Does(ops, final, code, ip, s, mid + Width(i),
                 Finished(env, Affected(ops, code.pool, i, r), AffectedLeft(ops, i, r)), fuel)
  {
    hide Brings, Matches, CodeAt, Execute, Effect, EffectLeft, IsEffect, Does;
    if r.AllDone? {
      EffectExecutes(ops, code, i, mid + Width(i), s.(world := r.world), r.values);
    }
    Consumed(ops, final, code, ip, s, mid, r, i, env, Affected(ops, code.pool, i, r), AffectedLeft(ops, i, r), fuel);
  }

  lemma TwoCodes(c: Ctx, a: Expr, b: Expr)
    ensures var (l, c1) := ExprCode(c, a);
            var (r, c2) := ExprCode(c1, b);
            ExprsCode(c, [a, b]) == (l + r, c2)
  {
    hide ExprCode;
    var (l, c1) := ExprCode(c, a);
    var (r, c2) := ExprCode(c1, b);
    assert [a, b][1..] == [b] && [b][1..] == [];
    assert ExprsCode(c2, []) == ([], c2);
    assert r + [] == r;
    assert ExprsCode(c1, [b]) == (r, c2);
  }

  lemma ThreeCodes(c: Ctx, a: Expr, b: Expr, d: Expr)
    ensures var (l, c1) := ExprCode(c, a);
            var (m, c2) := ExprCode(c1, b);
            var (r, c3) := ExprCode(c2, d);
            ExprsCode(c, [a, b, d]) == (l + m + r, c3)
  {
    hide ExprCode;
    var (l, c1) := ExprCode(c, a);
    TwoCodes(c1, b, d);
    assert [a, b, d][1..] == [b, d];
    var (m, c2) := ExprCode(c1, b);
    assert l + (m + ExprCode(c2, d).0) == l + m + ExprCode(c2, d).0;
  }

  function EvalTwo<V, W>(ops: Ops<V, W>, n: Names, env: map<string, V>, a: Expr, b: Expr, w: W): Results<V, W> {
    match Eval(ops, n, env, a, w)
    case Raise(x, w1) => OneRaised(x, w1)
    case Done(v, w1) =>
      match Eval(ops, n, env, b, w1)
      case Raise(x, w2) => OneRaised(x, w2)
      case Done(u, w2) => AllDone([v, u], w2)
  }

  function EvalThree<V, W>(
      ops: Ops<V, W>, n: Names, env: map<string, V>, a: Expr, b: Expr, d: Expr, w: W): Results<V, W>
  {
    match Eval(ops, n, env, a, w)
    case Raise(x, w1) => OneRaised(x, w1)
    case Done(v, w1) =>
      match EvalTwo(ops, n, env, b, d, w1)
      case OneRaised(x, w2) => OneRaised(x, w2)
      case AllDone(vs, w2) => AllDone([v] + vs, w2)
  }

  lemma TwoEvals<V, W>(ops: Ops<V, W>, n: Names, env: map<string, V>, a: Expr, b: Expr, w: W)
    ensures EvalAll(ops, n, env, [a, b], w) == EvalTwo(ops, n, env, a, b, w)
  {
    hide Eval;
    assert [a, b][1..] == [b] && [b][1..] == [];
    var first := Eval(ops, n, env, a, w);
    if first.Done? {
      var second := Eval(ops, n, env, b, first.world);
      if second.Done? {
        assert EvalAll(ops, n, env, [], second.world) == AllDone([], second.world);
        assert EvalAll(ops, n, env, [b], first.world) == AllDone([second.value] + [], second.world);
      }
    }
  }

  lemma ThreeEvals<V, W>(ops: Ops<V, W>, n: Names, env: map<string, V>, a: Expr, b: Expr, d: Expr, w: W)
    ensures EvalAll(ops, n, env, [a, b, d], w) == EvalThree(ops, n, env, a, b, d, w)
  {
    hide Eval;
    assert [a, b, d][1..] == [b, d];
    var first := Eval(ops, n, env, a, w);
    if first.Done? {
      TwoEvals(ops, n, env, b, d, first.world);
    }
  }

  lemma AssignRuns<V(!new), W(!new)>(
      ops: Ops<V, W>, final: Ctx, code: Code, ip: int, c: Ctx, t: Target, rhs: Expr, env: map<string, V>,
      s: State<V, W>, fuel: nat)
    requires InPlace(code, final, ip, AssignCode(c, t, rhs)) && Matches(final, env, s.locals)
    requires TargetFits(ops, t) && CallsFit(ops, rhs)
    ensures Does(ops, final, code, ip, s, ip + Size(AssignCode(c, t, rhs).0),
                 ExecAssign(ops, c.Scope(), env, t, rhs, s.world), fuel)
  {
    hide Does, InPlace, Matches, Size, AssignCode, ExecAssign, CallsFit;
    match t
    case Variable(id) => AssignVariableRuns(ops, final, code, ip, c, id, rhs, env, s, fuel);
    case Field(primary, member) => AssignFieldRuns(ops, final, code, ip, c, primary, member, rhs, env, s, fuel);
    case Item(primary, index) => AssignItemRuns(ops, final, code, ip, c, primary, index, rhs, env, s, fuel);
  }

  lemma AssignVariableRuns<V(!new), W(!new)>(
      ops: Ops<V, W>, final: Ctx, code: Code, ip: int, c: Ctx, id: string, rhs: Expr, env: map<string, V>,
      s: State<V, W>, fuel: nat)
    requires InPlace(code, final, ip, AssignCode(c, Variable(id), rhs)) && Matches(final, env, s.locals)
    requires CallsFit(ops, rhs)
    ensures Does(ops, final, code, ip, s, ip + Size(AssignCode(c, Variable(id), rhs).0),
                 ExecAssign(ops, c.Scope(), env, Variable(id), rhs, s.world), fuel)
  {
    hide Does, Brings, InPlace, Matches, Size, Extends, ExprCode, Eval, StoreCode;
    var (v, c1) := ExprCode(c, rhs);
    var (st, c2) := StoreCode(c1, id);
    ExprGrows(c, rhs);
    StoreExtends(c1, id);
    Parts(code, final, ip, v, c1, st, c2);
    ExprRuns(ops, final, code, ip, c, rhs, env, s);
    StoreAfter(ops, final, code, ip, s, ip + Size(v), Eval(ops, c.Scope(), env, rhs, s.world), c1, id, env, fuel);
  }

  lemma AssignFieldStands(code: Code, final: Ctx, ip: int, c: Ctx, primary: Expr, member: string, rhs: Expr)
    requires InPlace(code, final, ip, AssignCode(c, Field(primary, member), rhs))
    ensures var (p, c1) := ExprsCode(c, [primary, rhs]);
            var i := InternName(c1, member).0;
            InPlace(code, final, ip, (p, c1)) && CodeAt(code, ip + Size(p), [SetField(i)]) &&
            NameAt(code.pool, i) == Some(member) &&
            ip + Size(AssignCode(c, Field(primary, member), rhs).0) == ip + Size(p) + 5
  {
    hide InPlace, Size, Extends, ExprCode, ExprsCode, InternName, NameAt;
    TwoCodes(c, primary, rhs);
    var (p, c1) := ExprsCode(c, [primary, rhs]);
    var (i, c2) := InternName(c1, member);
    NameGrows(c1, member);
    Parts(code, final, ip, p, c1, [SetField(i)], c2);
    NameInPool(code, final, c1, member) by { FinalOf(code, final, ip + Size(p), ([SetField(i)], c2)); }
  }

  lemma AssignFieldExec<V(!new), W(!new)>(
      ops: Ops<V, W>, pool: seq<Const>, n: Names, env: map<string, V>, primary: Expr, member: string, rhs: Expr, w: W,
      i: nat)
    requires NameAt(pool, i) == Some(member)
    ensures var all := EvalAll(ops, n, env, [primary, rhs], w);
            IsEffect(pool, SetField(i)) && (all.AllDone? ==> |all.values| == Needs(SetField(i))) &&
            Finished(env, Affected(ops, pool, SetField(i), all), AffectedLeft(ops, SetField(i), all)) ==
            ExecAssign(ops, n, env, Field(primary, member), rhs, w)
  {
    hide NameAt, Eval, EvalAll;
    TwoEvals(ops, n, env, primary, rhs, w);
  }

  lemma AssignFieldRuns<V(!new), W(!new)>(
      ops: Ops<V, W>, final: Ctx, code: Code, ip: int, c: Ctx, primary: Expr, member: string, rhs: Expr,
      env: map<string, V>, s: State<V, W>, fuel: nat)
    requires InPlace(code, final, ip, AssignCode(c, Field(primary, member), rhs)) && Matches(final, env, s.locals)
    requires CallsFit(ops, primary) && CallsFit(ops, rhs)
    ensures Does(ops, final, code, ip, s, ip + Size(AssignCode(c, Field(primary, member), rhs).0),
                 ExecAssign(ops, c.Scope(), env, Field(primary, member), rhs, s.world), fuel)
  {
    hide Does, Brings, InPlace, Matches, Size, CodeAt, ExprsCode, EvalAll, InternName, NameAt, AssignCode, ExecAssign,
         Affected, AffectedLeft, IsEffect, CallsFit, Needs;
    AssignFieldStands(code, final, ip, c, primary, member, rhs);
    var (p, c1) := ExprsCode(c, [primary, rhs]);
    var i := InternName(c1, member).0;
    ExprsRun(ops, final, code, ip, c, [primary, rhs], env, s);
    AssignFieldExec(ops, code.pool, c.Scope(), env, primary, member, rhs, s.world, i);
    EffectAfter(ops, final, code, ip, s, ip + Size(p), EvalAll(ops, c.Scope(), env, [primary, rhs], s.world),
                SetField(i), env, fuel);
  }

  lemma AssignItemStands(code: Code, final: Ctx, ip: int, c: Ctx, primary: Expr, index: Expr, rhs: Expr)
    requires InPlace(code, final, ip, AssignCode(c, Item(primary, index), rhs))
    ensures var (p, c1) := ExprsCode(c, [primary, index, rhs]);
            InPlace(code, final, ip, (p, c1)) && CodeAt(code, ip + Size(p), [SetItem]) &&
            ip + Size(AssignCode(c, Item(primary, index), rhs).0) == ip + Size(p) + 2
  {
    hide InPlace, Size, Extends, ExprCode, ExprsCode;
    ThreeCodes(c, primary, index, rhs);
    var (p, c1) := ExprsCode(c, [primary, index, rhs]);
    ExtendsItself(c1);
    Parts(code, final, ip, p, c1, [SetItem], c1);
  }

  lemma AssignItemExec<V(!new), W(!new)>(
      ops: Ops<V, W>, pool: seq<Const>, n: Names, env: map<string, V>, primary: Expr, index: Expr, rhs: Expr, w: W)
    ensures var all := EvalAll(ops, n, env, [primary, index, rhs], w);
            IsEffect(pool, SetItem) && (all.AllDone? ==> |all.values| == Needs(SetItem)) &&
            Finished(env, Affected(ops, pool, SetItem, all), AffectedLeft(ops, SetItem, all)) ==
            ExecAssign(ops, n, env, Item(primary, index), rhs, w)
  {
    hide Eval, EvalAll;
    ThreeEvals(ops, n, env, primary, index, rhs, w);
  }

  lemma AssignItemRuns<V(!new), W(!new)>(
      ops: Ops<V, W>, final: Ctx, code: Code, ip: int, c: Ctx, primary: Expr, index: Expr, rhs: Expr,
      env: map<string, V>, s: State<V, W>, fuel: nat)
    requires InPlace(code, final, ip, AssignCode(c, Item(primary, index), rhs)) && Matches(final, env, s.locals)
    requires CallsFit(ops, primary) && CallsFit(ops, index) && CallsFit(ops, rhs)
    ensures Does(ops, final, code, ip, s, ip + Size(AssignCode(c, Item(primary, index), rhs).0),
                 ExecAssign(ops, c.Scope(), env, Item(primary, index), rhs, s.world), fuel)
  {
    hide Does, Brings, InPlace, Matches, Size, CodeAt, ExprsCode, EvalAll, AssignCode, ExecAssign, Affected,
         AffectedLeft, IsEffect, CallsFit, Needs;
    AssignItemStands(code, final, ip, c, primary, index, rhs);
    var (p, c1) := ExprsCode(c, [primary, index, rhs]);
    ExprsRun(ops, final, code, ip, c, [primary, index, rhs], env, s);
    AssignItemExec(ops, code.pool, c.Scope(), env, primary, index, rhs, s.world);
    EffectAfter(ops, final, code, ip, s, ip + Size(p), EvalAll(ops, c.Scope(), env, [primary, index, rhs], s.world),
                SetItem, env, fuel);
  }

  lemma StoreExtends(c: Ctx, id: string)
    ensures Extends(c, StoreCode(c, id).1)
  {
    StoreGrows(c, id);
  }

  // ------------------------------------------------------------------------------------------ augmented assignments

  lemma DupBrings<V(!new), W(!new)>(ops: Ops<V, W>, code: Code, ip: int, depth: nat, s: State<V, W>)
    requires CodeAt(code, ip, [Dup(depth)]) && depth < |s.stack|
    ensures Brings(ops, code, ip, s, ip + 2, AllDone([s.stack[|s.stack| - 1 - depth]], s.world))
  {
    hide Reaches, Fetch;
    CodeAtOne(code, ip, Dup(depth));
    OneStep(ops, code, Running(ip, s));
  }

  /** The value of the operation, when the old value is `l`. */
  function AugValue<V(!new), W(!new)>(
      ops: Ops<V, W>, n: Names, env: map<string, V>, l: Result<V, W>, op: int, rhs: Expr): Result<V, W>
  {
    match l
    case Raise(x, w) => Raise(x, w)
    case Done(v, w) =>
      match Eval(ops, n, env, rhs, w)
      case Raise(x, w1) => Raise(x, w1)
      case Done(r, w1) => ops.binary(op, v, r, w1)
  }

  /** Behind the old value: the right side and the operation. */
  lemma AugRuns<V(!new), W(!new)>(
      ops: Ops<V, W>, final: Ctx, code: Code, ip: int, s: State<V, W>, mid: int, l: Result<V, W>, c: Ctx, op: int,
      rhs: Expr, env: map<string, V>)
    requires Brings(ops, code, ip, s, mid, One(l)) && Matches(final, env, s.locals)
    requires CallsFit(ops, rhs)
    requires var (r, d) := ExprCode(c, rhs);
             InPlace(code, final, mid, (r + [BinaryOp(op)], d))
    ensures Brings(ops, code, ip, s, mid + Size(ExprCode(c, rhs).0) + 5, One(AugValue(ops, c.Scope(), env, l, op, rhs)))
  {
    hide Brings, InPlace, Matches, Size, Extends, ExprCode, Eval;
    var (r, d) := ExprCode(c, rhs);
    ExprGrows(c, rhs);
    ExtendsItself(d);
    Parts(code, final, mid, r, d, [BinaryOp(op)], d);
    if l.Done? {
      ExprRuns(ops, final, code, mid, c, rhs, env, s.(stack := s.stack + [l.value], world := l.world));
    }
    var more := w => One(Eval(ops, c.Scope(), env, rhs, w));
    BringsMore(ops, code, ip, s, mid, One(l), mid + Size(r), more);
    BringsOperated(ops, code, ip, s, mid + Size(r), Append(One(l), more), BinaryOp(op));
  }

  /** Target, old value, right side, operation, and back to the target. */
  lemma AugParts(
      code: Code, final: Ctx, ip: int, target: seq<Instr>, c: Ctx, load: seq<Instr>, d: Ctx, rhs: seq<Instr>, e: Ctx,
      op: Instr, store: Instr, f: Ctx)
    requires InPlace(code, final, ip, (target + load + rhs + [op, store], f))
    requires Extends(c, d) && Extends(d, e) && Extends(e, f)
    ensures var (mid, right) := (ip + Size(target), ip + Size(target) + Size(load));
            InPlace(code, final, ip, (target, c)) && CodeAt(code, mid, load) && IsFinal(code, final) &&
            InPlace(code, final, right, (rhs + [op], e)) && Extends(d, final) && Extends(f, final) &&
            CodeAt(code, right + Size(rhs) + Width(op), [store]) &&
            Size(target + load + rhs + [op, store]) == Size(target) + Size(load) + Size(rhs) + Width(op) + Width(store)
  {
    hide Size, CodeAt, Extends, IsFinal;
    ExtendsTransitive(e, f, final);
    ExtendsTransitive(d, e, final);
    ExtendsTransitive(c, d, final);
    assert target + load + rhs + [op, store] == target + load + (rhs + [op]) + [store];
    CodeAtSplit(code, ip, target + load + (rhs + [op]), [store]);
    CodeAtSplit(code, ip, target + load, rhs + [op]);
    CodeAtSplit(code, ip, target, load);
    SizeAppend(target + load + (rhs + [op]), [store]);
    SizeAppend(target + load, rhs + [op]);
    SizeAppend(target, load);
    SizeAppend(rhs, [op]);
    SizeOne([op]);
    SizeOne([store]);
  }

  lemma AugVariableRuns<V(!new), W(!new)>(
      ops: Ops<V, W>, final: Ctx, code: Code, ip: int, c: Ctx, id: string, op: int, rhs: Expr, env: map<string, V>,
      s: State<V, W>, fuel: nat)
    requires InPlace(code, final, ip, AugCode(c, Variable(id), op, rhs)) && Matches(final, env, s.locals)
    requires CallsFit(ops, rhs)
    ensures Does(ops, final, code, ip, s, ip + Size(AugCode(c, Variable(id), op, rhs).0),
                 ExecAug(ops, c.Scope(), env, Variable(id), op, rhs, s.world), fuel)
  {
    hide Does, InPlace, Matches, Size, StoreCode, LoadCode, Load;
    var (n, e) := (c.Scope(), Binary(op, Name(id), rhs));
    assert ExprCode(c, Name(id)) == LoadCode(c, id);
    assert ExprCode(c, e).0 == LoadCode(c, id).0 + ExprCode(LoadCode(c, id).1, rhs).0 + [BinaryOp(op)];
    assert AugCode(c, Variable(id), op, rhs) == AssignCode(c, Variable(id), e);
    assert Eval(ops, n, env, Name(id), s.world) == Load(ops, n, env, s.world, id);
    AugIsAssign(ops, n, env, id, op, rhs, s.world);
    AssignVariableRuns(ops, final, code, ip, c, id, e, env, s, fuel);
  }

  lemma AugIsAssign<V, W>(ops: Ops<V, W>, n: Names, env: map<string, V>, id: string, op: int, rhs: Expr, w: W)
    ensures ExecAug(ops, n, env, Variable(id), op, rhs, w) ==
            ExecAssign(ops, n, env, Variable(id), Binary(op, Name(id), rhs), w)
  {
    hide Load, Store;
    var l := Eval(ops, n, env, Name(id), w);
    assert l == Load(ops, n, env, w, id);
    if l.Done? {
      var r := Eval(ops, n, env, rhs, l.world);
      assert Eval(ops, n, env, Binary(op, Name(id), rhs), w) ==
             if r.Raise? then Raise(r.exc, r.world) else ops.binary(op, l.value, r.value, r.world);
    }
  }

  lemma LoadSizes(i: nat)
    ensures Size([Dup(0), GetField(i)]) == 7 && Size([Dup(1), Dup(1), GetItem]) == 6
  {
    assert [Dup(0), GetField(i)] == [Dup(0)] + [GetField(i)];
    assert [Dup(1), Dup(1), GetItem] == [Dup(1)] + ([Dup(1)] + [GetItem]);
    SizeAppend([Dup(0)], [GetField(i)]);
    SizeAppend([Dup(1)], [Dup(1)] + [GetItem]);
    SizeAppend([Dup(1)], [GetItem]);
    SizeOne([Dup(0)]);
    SizeOne([Dup(1)]);
    SizeOne([GetField(i)]);
    SizeOne([GetItem]);
  }

  /** The old value of a field, with a copy of the object below it. */
  lemma OldFieldRuns<V(!new), W(!new)>(
      ops: Ops<V, W>, code: Code, ip: int, i: nat, member: string, s: State<V, W>)
    requires CodeAt(code, ip, [Dup(0), GetField(i)]) && NameAt(code.pool, i) == Some(member) && s.stack != []
    ensures Brings(ops, code, ip, s, ip + 7, One(ops.getField(s.stack[|s.stack| - 1], member, s.world)))
  {
    hide Brings, Fetch;
    assert [Dup(0), GetField(i)] == [Dup(0)] + [GetField(i)];
    CodeAtSplit(code, ip, [Dup(0)], [GetField(i)]);
    SizeOne([Dup(0)]);
    DupBrings(ops, code, ip, 0, s);
    BringsOperated(ops, code, ip, s, ip + 2, AllDone([s.stack[|s.stack| - 1]], s.world), GetField(i));
  }

  /** Where the parts stand, and what is known about names there. */
  lemma AugFieldStands(
      code: Code, final: Ctx, ip: int, c: Ctx, primary: Expr, member: string, op: int, rhs: Expr)
    requires InPlace(code, final, ip, AugCode(c, Field(primary, member), op, rhs))
    ensures var (p, c1) := ExprCode(c, primary);
            var (i, c2) := InternName(c1, member);
            var (r, c3) := ExprCode(c2, rhs);
            var j := InternName(c3, member).0;
            var mid := ip + Size(p);
            InPlace(code, final, ip, (p, c1)) && CodeAt(code, mid, [Dup(0), GetField(i)]) &&
            InPlace(code, final, mid + 7, (r + [BinaryOp(op)], c3)) &&
            CodeAt(code, mid + 7 + Size(r) + 5, [SetField(j)]) &&
            ip + Size(AugCode(c, Field(primary, member), op, rhs).0) == mid + 7 + Size(r) + 5 + 5 &&
            NameAt(code.pool, i) == Some(member) && NameAt(code.pool, j) == Some(member) && c2.Scope() == c.Scope()
  {
    hide InPlace, Size, CodeAt, Extends, ExprCode, InternName, IsFinal, NameAt;
    var (p, c1) := ExprCode(c, primary);
    var (i, c2) := InternName(c1, member);
    var (r, c3) := ExprCode(c2, rhs);
    var (j, c4) := InternName(c3, member);
    LoadSizes(i);
    ExprGrows(c, primary);
    NameGrows(c1, member);
    NameScope(c1, member);
    ExprGrows(c2, rhs);
    NameGrows(c3, member);
    ExtendsTransitive(c1, c2, c3);
    AugParts(code, final, ip, p, c1, [Dup(0), GetField(i)], c2, r, c3, BinaryOp(op), SetField(j), c4);
    NameInPool(code, final, c1, member);
    NameInPool(code, final, c3, member);
  }

  lemma AugFieldExec<V(!new), W(!new)>(
      ops: Ops<V, W>, pool: seq<Const>, n: Names, env: map<string, V>, primary: Expr, member: string, op: int,
      rhs: Expr, w: W, j: nat, more: W -> Results<V, W>)
    requires NameAt(pool, j) == Some(member)
    requires var first := Eval(ops, n, env, primary, w);
             first.Done? ==>
               more(first.world) ==
               One(AugValue(ops, n, env, ops.getField(first.value, member, first.world), op, rhs))
    ensures var all := Append(One(Eval(ops, n, env, primary, w)), more);
            IsEffect(pool, SetField(j)) && (all.AllDone? ==> |all.values| == 2) &&
            Finished(env, Affected(ops, pool, SetField(j), all), AffectedLeft(ops, SetField(j), all)) ==
            ExecAug(ops, n, env, Field(primary, member), op, rhs, w)
  {
    hide NameAt;
  }

  lemma AugFieldRuns<V(!new), W(!new)>(
      ops: Ops<V, W>, final: Ctx, code: Code, ip: int, c: Ctx, primary: Expr, member: string, op: int, rhs: Expr,
      env: map<string, V>, s: State<V, W>, fuel: nat)
    requires InPlace(code, final, ip, AugCode(c, Field(primary, member), op, rhs)) && Matches(final, env, s.locals)
    requires CallsFit(ops, primary) && CallsFit(ops, rhs)
    ensures Does(ops, final, code, ip, s, ip + Size(AugCode(c, Field(primary, member), op, rhs).0),
                 ExecAug(ops, c.Scope(), env, Field(primary, member), op, rhs, s.world), fuel)
  {
    hide Does, Brings, InPlace, Matches, Size, CodeAt, ExprCode, Eval, InternName, NameAt, AugCode, ExecAug, AugValue,
         Append, Affected, AffectedLeft, IsEffect;
    var n := c.Scope();
    var (p, c1) := ExprCode(c, primary);
    var (i, c2) := InternName(c1, member);
    var r := ExprCode(c2, rhs).0;
    var j := InternName(ExprCode(c2, rhs).1, member).0;
    AugFieldStands(code, final, ip, c, primary, member, op, rhs);
    ExprRuns(ops, final, code, ip, c, primary, env, s);
    var (mid, end) := (ip + Size(p), ip + Size(p) + 7 + Size(r) + 5);
    var first := Eval(ops, n, env, primary, s.world);
    var more := w => if first.Done? then One(AugValue(ops, n, env, ops.getField(first.value, member, w), op, rhs))
                     else OneRaised(first.exc, w);
    if first.Done? {
      var t := s.(stack := s.stack + [first.value], world := first.world);
      OldFieldRuns(ops, code, mid, i, member, t);
      AugRuns(ops, final, code, mid, t, mid + 7, ops.getField(first.value, member, first.world), c2, op, rhs, env);
    }
    BringsMore(ops, code, ip, s, mid, One(first), end, more);
    AugFieldExec(ops, code.pool, n, env, primary, member, op, rhs, s.world, j, more);
    EffectAfter(ops, final, code, ip, s, end, Append(One(first), more), SetField(j), env, fuel);
  }

  lemma NameScope(c: Ctx, s: string)
    ensures InternName(c, s).1.Scope() == c.Scope()
  {
  }

  /** The old value of an item, with copies of container and index below it. */
  lemma OldItemRuns<V(!new), W(!new)>(
      ops: Ops<V, W>, code: Code, ip: int, s: State<V, W>, p: V, i: V)
    requires CodeAt(code, ip, [Dup(1), Dup(1), GetItem]) && |s.stack| >= 2
    requires s.stack[|s.stack| - 2] == p && s.stack[|s.stack| - 1] == i
    ensures Brings(ops, code, ip, s, ip + 6, One(ops.getItem(p, i, s.world)))
  {
    hide Brings, Fetch;
    var dup := [Dup(1)];
    assert [Dup(1), Dup(1), GetItem] == dup + (dup + [GetItem]);
    CodeAtSplit(code, ip, dup, dup + [GetItem]);
    CodeAtSplit(code, ip + 2, dup, [GetItem]) by { SizeOne(dup); }
    SizeOne(dup);
    DupBrings(ops, code, ip, 1, s);
    var t := s.(stack := s.stack + [p]);
    DupBrings(ops, code, ip + 2, 1, t);
    var more := w => AllDone([i], w);
    assert t == s.(stack := s.stack + [p], world := s.world);
    BringsMore(ops, code, ip, s, ip + 2, AllDone([p], s.world), ip + 4, more);
    BringsOperated(ops, code, ip, s, ip + 4, Append(AllDone([p], s.world), more), GetItem);
  }

  /** Where the parts stand. */
  lemma AugItemStands(code: Code, final: Ctx, ip: int, c: Ctx, primary: Expr, index: Expr, op: int, rhs: Expr)
    requires InPlace(code, final, ip, AugCode(c, Item(primary, index), op, rhs))
    ensures var (p, c2) := ExprsCode(c, [primary, index]);
            var (r, c3) := ExprCode(c2, rhs);
            var mid := ip + Size(p);
            InPlace(code, final, ip, (p, c2)) && CodeAt(code, mid, [Dup(1), Dup(1), GetItem]) &&
            InPlace(code, final, mid + 6, (r + [BinaryOp(op)], c3)) &&
            CodeAt(code, mid + 6 + Size(r) + 5, [SetItem]) &&
            ip + Size(AugCode(c, Item(primary, index), op, rhs).0) == mid + 6 + Size(r) + 5 + 2 &&
            c2.Scope() == c.Scope()
  {
    hide InPlace, Size, CodeAt, Extends, ExprCode, ExprsCode, IsFinal;
    TwoCodes(c, primary, index);
    var (p, c2) := ExprsCode(c, [primary, index]);
    var (r, c3) := ExprCode(c2, rhs);
    LoadSizes(0);
    ExprsGrow(c, [primary, index]);
    ExprGrows(c2, rhs);
    ExtendsItself(c2);
    ExtendsItself(c3);
    AugParts(code, final, ip, p, c2, [Dup(1), Dup(1), GetItem], c2, r, c3, BinaryOp(op), SetItem, c3);
  }

  lemma AugItemExec<V(!new), W(!new)>(
      ops: Ops<V, W>, pool: seq<Const>, n: Names, env: map<string, V>, primary: Expr, index: Expr, op: int, rhs: Expr,
      w: W, more: W -> Results<V, W>)
    requires var first := EvalAll(ops, n, env, [primary, index], w);
             first.AllDone? ==>
               more(first.world) ==
               One(AugValue(ops, n, env, ops.getItem(first.values[0], first.values[1], first.world), op, rhs))
    ensures var all := Append(EvalAll(ops, n, env, [primary, index], w), more);
            IsEffect(pool, SetItem) && (all.AllDone? ==> |all.values| == Needs(SetItem)) &&
            Finished(env, Affected(ops, pool, SetItem, all), AffectedLeft(ops, SetItem, all)) ==
            ExecAug(ops, n, env, Item(primary, index), op, rhs, w)
  {
    hide Eval, EvalAll;
    TwoEvals(ops, n, env, primary, index, w);
  }

  lemma AugItemRuns<V(!new), W(!new)>(
      ops: Ops<V, W>, final: Ctx, code: Code, ip: int, c: Ctx, primary: Expr, index: Expr, op: int, rhs: Expr,
      env: map<string, V>, s: State<V, W>, fuel: nat)
    requires InPlace(code, final, ip, AugCode(c, Item(primary, index), op, rhs)) && Matches(final, env, s.locals)
    requires CallsFit(ops, primary) && CallsFit(ops, index) && CallsFit(ops, rhs)
    ensures Does(ops, final, code, ip, s, ip + Size(AugCode(c, Item(primary, index), op, rhs).0),
                 ExecAug(ops, c.Scope(), env, Item(primary, index), op, rhs, s.world), fuel)
  {
    hide Does, Brings, InPlace, Matches, Size, CodeAt, ExprCode, ExprsCode, EvalAll, AugCode, ExecAug, AugValue, Append,
         Affected, AffectedLeft, IsEffect, CallsFit, Needs;
    var n := c.Scope();
    var (p, c2) := ExprsCode(c, [primary, index]);
    var r := ExprCode(c2, rhs).0;
    AugItemStands(code, final, ip, c, primary, index, op, rhs);
    ExprsRun(ops, final, code, ip, c, [primary, index], env, s);
    var (mid, end) := (ip + Size(p), ip + Size(p) + 6 + Size(r) + 5);
    var first := EvalAll(ops, n, env, [primary, index], s.world);
    var more := w => if first.AllDone?
                     then One(AugValue(ops, n, env, ops.getItem(first.values[0], first.values[1], w), op, rhs))
                     else OneRaised(first.exc, w);
    if first.AllDone? {
      var t := s.(stack := s.stack + first.values, world := first.world);
      OldItemRuns(ops, code, mid, t, first.values[0], first.values[1]);
      AugRuns(ops, final, code, mid, t, mid + 6, ops.getItem(first.values[0], first.values[1], first.world), c2, op,
              rhs, env);
    }
    BringsMore(ops, code, ip, s, mid, first, end, more);
    AugItemExec(ops, code.pool, n, env, primary, index, op, rhs, s.world, more);
    EffectAfter(ops, final, code, ip, s, end, Append(first, more), SetItem, env, fuel);
  }

  lemma AugmentRuns<V(!new), W(!new)>(
      ops: Ops<V, W>, final: Ctx, code: Code, ip: int, c: Ctx, t: Target, op: int, rhs: Expr, env: map<string, V>,
      s: State<V, W>, fuel: nat)
    requires InPlace(code, final, ip, AugCode(c, t, op, rhs)) && Matches(final, env, s.locals)
    requires TargetFits(ops, t) && CallsFit(ops, rhs)
    ensures Does(ops, final, code, ip, s, ip + Size(AugCode(c, t, op, rhs).0),
                 ExecAug(ops, c.Scope(), env, t, op, rhs, s.world), fuel)
  {
    hide Does, InPlace, Matches, Size, AugCode, ExecAug, CallsFit;
    match t
    case Variable(id) => AugVariableRuns(ops, final, code, ip, c, id, op, rhs, env, s, fuel);
    case Field(primary, member) => AugFieldRuns(ops, final, code, ip, c, primary, member, op, rhs, env, s, fuel);
    case Item(primary, index) => AugItemRuns(ops, final, code, ip, c, primary, index, op, rhs, env, s, fuel);
  }
}
