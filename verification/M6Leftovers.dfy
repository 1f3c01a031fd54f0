/** Item assignment that calls a method: what the method returns stays on the stack. */
module M6Leftovers {
  import opened Bytes
  import opened M6Machine
  import opened M6Syntax
  import opened M6Codegen
  import opened M6Context
  import opened M6Correct
  import opened M6Programs
  import opened M6Statements

  // ------------------------------------------------------------------------------------------ counting the calls

  function With<V, W>(r: Result<V, W>, k: nat): Result<V, (W, nat)> {
    match r
    case Done(v, w) => Done(v, (w, k))
    case Raise(x, w) => Raise(x, (w, k))
  }

  function WithAll<V, W>(r: Results<V, W>, k: nat): Results<V, (W, nat)> {
    match r
    case AllDone(vs, w) => AllDone(vs, (w, k))
    case OneRaised(x, w) => OneRaised(x, (w, k))
  }

  /** Operations that do what those of `ops` do, and count the item assignments that call a method and return. */
  function Counting<V(!new), W(!new)>(ops: Ops<V, W>): Ops<V, (W, nat)> {
    Ops(
      ops.constant,
      ops.truthy,
      (op: int, v: V, w: (W, nat)) => With(ops.unary(op, v, w.0), w.1),
      (op: int, l: V, r: V, w: (W, nat)) => With(ops.binary(op, l, r, w.0), w.1),
      (f: V, w: (W, nat)) => ops.bound(f, w.0),
      (f: V, vs: seq<V>, ks: seq<V>, w: (W, nat)) => With(ops.call(f, vs, ks, w.0), w.1),
      (vs: seq<V>, w: (W, nat)) => With(ops.makeList(vs, w.0), w.1),
      (vs: seq<V>, w: (W, nat)) => With(ops.makeDict(vs, w.0), w.1),
      (v: V, name: string, w: (W, nat)) => With(ops.getField(v, name, w.0), w.1),
      (v: V, name: string, x: V, w: (W, nat)) => With(ops.setField(v, name, x, w.0), w.1),
      (v: V, i: V, w: (W, nat)) => With(ops.getItem(v, i, w.0), w.1),
      (v: V, w: (W, nat)) => ops.dispatches(v, w.0),
      (v: V, i: V, x: V, w: (W, nat)) =>
        var r := ops.setItem(v, i, x, w.0);
        With(r, if ops.dispatches(v, w.0) && r.Done? then w.1 + 1 else w.1),
      (name: string, w: (W, nat)) => With(ops.loadGlobal(name, w.0), w.1),
      (name: string, v: V, w: (W, nat)) => (ops.storeGlobal(name, v, w.0), w.1),
      ops.unbound)
  }

  /** Expressions assign no items. */
  lemma {:induction false} EvalCounts<V(!new), W(!new)>(
      ops: Ops<V, W>, n: Names, env: map<string, V>, e: Expr, w: W, k: nat)
    ensures Eval(Counting(ops), n, env, e, (w, k)) == With(Eval(ops, n, env, e, w), k)
    decreases e, 1
  {
    match e
    case Literal(_) =>
    case Name(_) =>
    case ListLiteral(elements) => EvalAllCounts(ops, n, env, elements, w, k);
    case DictLiteral(entries) => EvalEntriesCounts(ops, n, env, entries, w, k);
    case Unary(_, sub) => EvalCounts(ops, n, env, sub, w, k);
    case Binary(_, lhs, rhs) =>
      EvalCounts(ops, n, env, lhs, w, k);
      EvalCounts(ops, n, env, rhs, Eval(ops, n, env, lhs, w).world, k);
    case Paren(sub) => EvalCounts(ops, n, env, sub, w, k);
    case Invoke(fn, args, kwargs) => InvokeCounts(ops, n, env, fn, args, kwargs, w, k);
    case Subscript(primary, index) =>
      EvalCounts(ops, n, env, primary, w, k);
      EvalCounts(ops, n, env, index, Eval(ops, n, env, primary, w).world, k);
    case Member(primary, _) => EvalCounts(ops, n, env, primary, w, k);
  }

  lemma {:induction false} InvokeCounts<V(!new), W(!new)>(
      ops: Ops<V, W>, n: Names, env: map<string, V>, fn: Expr, args: seq<Expr>, kwargs: seq<Entry>, w: W, k: nat)
    ensures var e := Invoke(fn, args, kwargs);
            Eval(Counting(ops), n, env, e, (w, k)) == With(Eval(ops, n, env, e, w), k)
    decreases Invoke(fn, args, kwargs), 0
  {
    var f := Eval(ops, n, env, fn, w);
    var vs := EvalAll(ops, n, env, args, f.world);
    EvalCounts(ops, n, env, fn, w, k);
    EvalAllCounts(ops, n, env, args, f.world, k);
    EvalEntriesCounts(ops, n, env, kwargs, vs.world, k);
  }

  lemma {:induction false} EvalAllCounts<V(!new), W(!new)>(
      ops: Ops<V, W>, n: Names, env: map<string, V>, es: seq<Expr>, w: W, k: nat)
    ensures EvalAll(Counting(ops), n, env, es, (w, k)) == WithAll(EvalAll(ops, n, env, es, w), k)
    decreases es, 1
  {
    hide Eval, Counting;
    if es != [] {
      EvalCounts(ops, n, env, es[0], w, k);
      EvalAllCounts(ops, n, env, es[1..], Eval(ops, n, env, es[0], w).world, k);
    }
  }

  lemma {:induction false} EvalEntryCounts<V(!new), W(!new)>(
      ops: Ops<V, W>, n: Names, env: map<string, V>, entry: Entry, w: W, k: nat)
    ensures EvalEntry(Counting(ops), n, env, entry, (w, k)) == WithAll(EvalEntry(ops, n, env, entry, w), k)
    decreases entry, 1
  {
    hide Eval, Counting;
    EvalCounts(ops, n, env, entry.key, w, k);
    EvalCounts(ops, n, env, entry.value, Eval(ops, n, env, entry.key, w).world, k);
  }

  lemma {:induction false} EvalEntriesCounts<V(!new), W(!new)>(
      ops: Ops<V, W>, n: Names, env: map<string, V>, entries: seq<Entry>, w: W, k: nat)
    ensures EvalEntries(Counting(ops), n, env, entries, (w, k)) == WithAll(EvalEntries(ops, n, env, entries, w), k)
    decreases entries, 1
  {
    hide EvalEntry, Counting;
    if entries != [] {
      EvalEntryCounts(ops, n, env, entries[0], w, k);
      EvalEntriesCounts(ops, n, env, entries[1..], EvalEntry(ops, n, env, entries[0], w).world, k);
    }
  }

  // ------------------------------------------------------------------------------------------ statements

  /** The same outcome, with a count from `k` on that is not below what is left, and `exact` if it is just that. */
  ghost predicate Tallies<V, W>(out: Outcome<V, W>, counted: Outcome<V, (W, nat)>, k: nat, exact: bool) {
    match out
    case Normal(env, w, left) =>
      counted.Normal? && counted.env == env && counted.left == left && counted.world.0 == w &&
      counted.world.1 >= k + |left| && (exact ==> counted.world.1 == k + |left|)
    case Raised(x, env, w) =>
      counted.Raised? && counted.exc == x && counted.env == env && counted.world.0 == w && counted.world.1 >= k
    case OutOfFuel => counted.OutOfFuel?
  }

  lemma TalliesNormal<V, W>(out: Outcome<V, W>, counted: Outcome<V, (W, nat)>, k: nat, exact: bool)
    requires Tallies(out, counted, k, exact)
    ensures out.Normal? <==> counted.Normal?
    ensures out.Normal? ==>
              counted.env == out.env && counted.left == out.left && counted.world == (out.world, counted.world.1) &&
              counted.world.1 >= k + |out.left| && (exact ==> counted.world.1 == k + |out.left|)
    ensures !out.Normal? ==> forall m: nat, e: bool | m <= k :: Tallies(out, counted, m, e)
  {
  }

  /** Nothing is caught in it. */
  predicate Untried(s: Stmt)
    decreases s
  {
    match s
    case Block(body) => forall x <- body :: Untried(x)
    case If(_, yes, no) => Untried(yes) && UntriedOption(no)
    case While(_, loop) => Untried(loop)
    case For(init, _, inc, loop) => UntriedOption(init) && UntriedOption(inc) && Untried(loop)
    case Try(_, _, _) => false
    case _ => true
  }

  predicate UntriedOption(s: Option<Stmt>)
    decreases s
  {
    s.Some? ==> Untried(s.value)
  }

  lemma AssignCounts<V(!new), W(!new)>(
      ops: Ops<V, W>, n: Names, env: map<string, V>, t: Target, rhs: Expr, w: W, k: nat)
    ensures Tallies(ExecAssign(ops, n, env, t, rhs, w), ExecAssign(Counting(ops), n, env, t, rhs, (w, k)), k, true)
  {
    hide Eval;
    match t
    case Variable(_) => EvalCounts(ops, n, env, rhs, w, k);
    case Field(primary, _) =>
      EvalCounts(ops, n, env, primary, w, k);
      EvalCounts(ops, n, env, rhs, Eval(ops, n, env, primary, w).world, k);
    case Item(primary, index) =>
      var p := Eval(ops, n, env, primary, w);
      var i := Eval(ops, n, env, index, p.world);
      EvalCounts(ops, n, env, primary, w, k);
      EvalCounts(ops, n, env, index, p.world, k);
      EvalCounts(ops, n, env, rhs, i.world, k);
  }

  lemma AugCounts<V(!new), W(!new)>(
      ops: Ops<V, W>, n: Names, env: map<string, V>, t: Target, op: int, rhs: Expr, w: W, k: nat)
    ensures Tallies(ExecAug(ops, n, env, t, op, rhs, w), ExecAug(Counting(ops), n, env, t, op, rhs, (w, k)), k, true)
  {
    hide Eval;
    match t
    case Variable(id) =>
      assert Load(Counting(ops), n, env, (w, k), id) == With(Load(ops, n, env, w, id), k);
      EvalCounts(ops, n, env, rhs, Load(ops, n, env, w, id).world, k);
    case Field(primary, member) => AugFieldCounts(ops, n, env, primary, member, op, rhs, w, k);
    case Item(primary, index) => AugItemCounts(ops, n, env, primary, index, op, rhs, w, k);
  }

  lemma AugFieldCounts<V(!new), W(!new)>(
      ops: Ops<V, W>, n: Names, env: map<string, V>, primary: Expr, member: string, op: int, rhs: Expr, w: W, k: nat)
    ensures var t := Field(primary, member);
            Tallies(ExecAug(ops, n, env, t, op, rhs, w), ExecAug(Counting(ops), n, env, t, op, rhs, (w, k)), k, true)
  {
    hide Eval;
    var p := Eval(ops, n, env, primary, w);
    EvalCounts(ops, n, env, primary, w, k);
    if p.Done? {
      EvalCounts(ops, n, env, rhs, ops.getField(p.value, member, p.world).world, k);
    }
  }

  lemma AugItemCounts<V(!new), W(!new)>(
      ops: Ops<V, W>, n: Names, env: map<string, V>, primary: Expr, index: Expr, op: int, rhs: Expr, w: W, k: nat)
    ensures var t := Item(primary, index);
            Tallies(ExecAug(ops, n, env, t, op, rhs, w), ExecAug(Counting(ops), n, env, t, op, rhs, (w, k)), k, true)
  {
    hide Eval;
    var p := Eval(ops, n, env, primary, w);
    var i := Eval(ops, n, env, index, p.world);
    EvalCounts(ops, n, env, primary, w, k);
    EvalCounts(ops, n, env, index, p.world, k);
    if p.Done? && i.Done? {
      EvalCounts(ops, n, env, rhs, ops.getItem(p.value, i.value, i.world).world, k);
    }
  }

  lemma BehindTallies<V, W>(
      left: seq<V>, out: Outcome<V, W>, counted: Outcome<V, (W, nat)>, k: nat, m: nat, exact: bool)
    requires Tallies(out, counted, m, exact) && m >= k + |left| && (exact ==> m == k + |left|)
    ensures Tallies(Behind(left, out), Behind(left, counted), k, exact)
  {
  }

  lemma {:induction false} ExecCounts<V(!new), W(!new)>(
      ops: Ops<V, W>, n: Names, env: map<string, V>, s: Stmt, w: W, k: nat, fuel: nat)
    ensures Tallies(Exec(ops, n, env, s, w, fuel), Exec(Counting(ops), n, env, s, (w, k), fuel), k, Untried(s))
    decreases fuel, s, 1
  {
    hide Eval, ExecAssign, ExecAug, Counting;
    match s
    case ExprStmt(e) => EvalCounts(ops, n, env, e, w, k);
    case Assign(lhs, rhs) => AssignCounts(ops, n, env, lhs, rhs, w, k);
    case Aug(lhs, op, rhs) => AugCounts(ops, n, env, lhs, op, rhs, w, k);
    case ScopeStmt(_) =>
    case Block(body) => ExecAllCounts(ops, n, env, body, w, k, fuel);
    case If(cond, yes, no) =>
      var r := Eval(ops, n, env, cond, w);
      EvalCounts(ops, n, env, cond, w, k);
      SameValues(ops);
      if r.Done? {
        ExecCounts(ops, n, env, yes, r.world, k, fuel);
        ExecOptionCounts(ops, After(n, yes), env, no, r.world, k, fuel);
      }
    case While(cond, loop) => ExecLoopCounts(ops, n, env, Some(cond), loop, None, w, k, fuel);
    case For(init, until, inc, loop) => ForCounts(ops, n, env, init, until, inc, loop, w, k, fuel);
    case ThrowStmt(e) => EvalCounts(ops, n, env, e, w, k);
    case Try(attempt, catchVar, handler) => TryCounts(ops, n, env, attempt, catchVar, handler, w, k, fuel);
  }

  lemma SameValues<V(!new), W(!new)>(ops: Ops<V, W>)
    ensures Counting(ops).truthy == ops.truthy
    ensures forall n: Names, env: map<string, V>, w: W, k: nat, id: string, x: V ::
              Tallies(Store(ops, n, env, w, id, x), Store(Counting(ops), n, env, (w, k), id, x), k, true)
  {
  }

  lemma {:induction false} ForCounts<V(!new), W(!new)>(
      ops: Ops<V, W>, n: Names, env: map<string, V>, init: Option<Stmt>, until: Option<Expr>, inc: Option<Stmt>,
      loop: Stmt, w: W, k: nat, fuel: nat)
    ensures var s := For(init, until, inc, loop);
            Tallies(Exec(ops, n, env, s, w, fuel), Exec(Counting(ops), n, env, s, (w, k), fuel), k, Untried(s))
    decreases fuel, For(init, until, inc, loop), 0
  {
    hide Eval, Counting, Exec, ExecOption, ExecLoop, Behind, Tallies, Untried, UntriedOption, AfterOption;
    var exact := UntriedOption(init) && UntriedOption(inc) && Untried(loop);
    UntriedLoops(init, until, inc, loop);
    ForExec(ops, n, env, init, until, inc, loop, w, fuel);
    ForExec(Counting(ops), n, env, init, until, inc, loop, (w, k), fuel);
    ExecOptionCounts(ops, n, env, init, w, k, fuel);
    var (out, counted) := (ExecOption(ops, n, env, init, w, fuel),
                           ExecOption(Counting(ops), n, env, init, (w, k), fuel));
    TalliesNormal(out, counted, k, UntriedOption(init));
    if out.Normal? {
      var (n1, m) := (AfterOption(n, init), counted.world.1);
      ExecLoopCounts(ops, n1, out.env, until, loop, inc, out.world, m, fuel);
      var (next, counted') := (ExecLoop(ops, n1, out.env, until, loop, inc, out.world, fuel),
                               ExecLoop(Counting(ops), n1, out.env, until, loop, inc, (out.world, m), fuel));
      Weaken(next, counted', m, Untried(loop) && UntriedOption(inc), exact);
      BehindTallies(out.left, next, counted', k, m, exact);
      Weaken(Behind(out.left, next), Behind(out.left, counted'), k, exact, Untried(For(init, until, inc, loop)));
    }
  }

  lemma ForExec<V, W>(
      ops: Ops<V, W>, n: Names, env: map<string, V>, init: Option<Stmt>, until: Option<Expr>, inc: Option<Stmt>,
      loop: Stmt, w: W, fuel: nat)
    ensures var out := ExecOption(ops, n, env, init, w, fuel);
            Exec(ops, n, env, For(init, until, inc, loop), w, fuel) ==
            if out.Normal?
            then Behind(out.left, ExecLoop(ops, AfterOption(n, init), out.env, until, loop, inc, out.world, fuel))
            else out
  {
    hide ExecOption, ExecLoop, AfterOption;
  }

  lemma UntriedLoops(init: Option<Stmt>, until: Option<Expr>, inc: Option<Stmt>, loop: Stmt)
    ensures Untried(For(init, until, inc, loop)) ==> UntriedOption(init) && UntriedOption(inc) && Untried(loop)
  {
  }

  lemma {:induction false} TryCounts<V(!new), W(!new)>(
      ops: Ops<V, W>, n: Names, env: map<string, V>, attempt: Stmt, catchVar: string, handler: Stmt, w: W, k: nat,
      fuel: nat)
    ensures var s := Try(attempt, catchVar, handler);
            Tallies(Exec(ops, n, env, s, w, fuel), Exec(Counting(ops), n, env, s, (w, k), fuel), k, false)
    decreases fuel, Try(attempt, catchVar, handler), 0
  {
    TryExec(ops, n, env, attempt, catchVar, handler, w, fuel);
    TryExec(Counting(ops), n, env, attempt, catchVar, handler, (w, k), fuel);
    hide Counting, Exec, After, Store;
    ExecCounts(ops, n, env, attempt, w, k, fuel);
    var out := Exec(ops, n, env, attempt, w, fuel);
    if out.Raised? {
      var m := Exec(Counting(ops), n, env, attempt, (w, k), fuel).world.1;
      SameValues(ops);
      var n1 := After(n, attempt);
      var stored := Store(ops, n1, out.env, out.world, catchVar, out.exc);
      var counted := Store(Counting(ops), n1, out.env, (out.world, m), catchVar, out.exc);
      assert Tallies(stored, counted, m, true);
      TalliesNormal(stored, counted, m, true);
      if stored.Normal? {
        ExecCounts(ops, n1.AfterStore(catchVar), stored.env, handler, stored.world, counted.world.1, fuel);
        Loosen(Exec(ops, n1.AfterStore(catchVar), stored.env, handler, stored.world, fuel),
               Exec(Counting(ops), n1.AfterStore(catchVar), stored.env, handler, counted.world, fuel),
               counted.world.1, k, Untried(handler));
      }
    }
  }

  lemma {:induction false} ExecAllCounts<V(!new), W(!new)>(
      ops: Ops<V, W>, n: Names, env: map<string, V>, body: seq<Stmt>, w: W, k: nat, fuel: nat)
    ensures Tallies(ExecAll(ops, n, env, body, w, fuel), ExecAll(Counting(ops), n, env, body, (w, k), fuel), k,
                    forall x <- body :: Untried(x))
    decreases fuel, body, 1
  {
    hide Exec, Counting, Behind, Untried;
    if body != [] {
      ExecCounts(ops, n, env, body[0], w, k, fuel);
      var out := Exec(ops, n, env, body[0], w, fuel);
      if out.Normal? {
        var m := Exec(Counting(ops), n, env, body[0], (w, k), fuel).world.1;
        ExecAllCounts(ops, After(n, body[0]), out.env, body[1..], out.world, m, fuel);
        var exact := forall x <- body :: Untried(x);
        assert exact ==> forall x <- body[1..] :: Untried(x);
        Weaken(ExecAll(ops, After(n, body[0]), out.env, body[1..], out.world, fuel),
               ExecAll(Counting(ops), After(n, body[0]), out.env, body[1..], (out.world, m), fuel), m,
               forall x <- body[1..] :: Untried(x), exact);
        BehindTallies(out.left, ExecAll(ops, After(n, body[0]), out.env, body[1..], out.world, fuel),
                      ExecAll(Counting(ops), After(n, body[0]), out.env, body[1..], (out.world, m), fuel), k, m, exact);
      }
    }
  }

  lemma Weaken<V, W>(out: Outcome<V, W>, counted: Outcome<V, (W, nat)>, k: nat, exact: bool, less: bool)
    requires Tallies(out, counted, k, exact) && (less ==> exact)
    ensures Tallies(out, counted, k, less)
  {
  }

  lemma Loosen<V, W>(out: Outcome<V, W>, counted: Outcome<V, (W, nat)>, k: nat, less: nat, exact: bool)
    requires Tallies(out, counted, k, exact) && less <= k
    ensures Tallies(out, counted, less, false)
  {
  }

  lemma {:induction false} ExecOptionCounts<V(!new), W(!new)>(
      ops: Ops<V, W>, n: Names, env: map<string, V>, s: Option<Stmt>, w: W, k: nat, fuel: nat)
    ensures Tallies(ExecOption(ops, n, env, s, w, fuel), ExecOption(Counting(ops), n, env, s, (w, k), fuel), k,
                    UntriedOption(s))
    decreases fuel, s, 1
  {
    hide Exec, Counting;
    if s.Some? {
      ExecCounts(ops, n, env, s.value, w, k, fuel);
    }
  }

  lemma {:induction false} ExecLoopCounts<V(!new), W(!new)>(
      ops: Ops<V, W>, n: Names, env: map<string, V>, cond: Option<Expr>, loop: Stmt, inc: Option<Stmt>, w: W, k: nat,
      fuel: nat)
    ensures Tallies(ExecLoop(ops, n, env, cond, loop, inc, w, fuel),
                    ExecLoop(Counting(ops), n, env, cond, loop, inc, (w, k), fuel), k,
                    Untried(loop) && UntriedOption(inc))
    decreases fuel, loop, 2
  {
    hide Eval, Exec, ExecOption, Counting, Behind, Untried;
    if fuel > 0 {
      var r := Eval(ops, n, env, Condition(cond), w);
      EvalCounts(ops, n, env, Condition(cond), w, k);
      SameValues(ops);
      if r.Done? && ops.truthy(r.value) {
        RoundCounts(ops, n, env, cond, loop, inc, r.world, k, fuel);
      }
    }
  }

  lemma {:induction false} RoundCounts<V(!new), W(!new)>(
      ops: Ops<V, W>, n: Names, env: map<string, V>, cond: Option<Expr>, loop: Stmt, inc: Option<Stmt>, w: W, k: nat,
      fuel: nat)
    requires fuel > 0
    ensures Tallies(ExecRound(ops, n, env, cond, loop, inc, w, fuel),
                    ExecRound(Counting(ops), n, env, cond, loop, inc, (w, k), fuel), k,
                    Untried(loop) && UntriedOption(inc))
    decreases fuel, loop, 1
  {
    hide Eval, Exec, ExecOption, ExecLoop, Counting, Behind, Untried, UntriedOption, Tallies, After;
    var exact := Untried(loop) && UntriedOption(inc);
    ExecCounts(ops, n, env, loop, w, k, fuel - 1);
    var (out, counted) := (Exec(ops, n, env, loop, w, fuel - 1), Exec(Counting(ops), n, env, loop, (w, k), fuel - 1));
    TalliesNormal(out, counted, k, Untried(loop));
    if out.Normal? {
      var m := counted.world.1;
      RestCounts(ops, n, out.env, cond, loop, inc, out.world, m, fuel);
      BehindTallies(out.left, ExecRest(ops, n, out.env, cond, loop, inc, out.world, fuel),
                    ExecRest(Counting(ops), n, out.env, cond, loop, inc, (out.world, m), fuel), k, m, exact);
    }
  }

  /** A round behind its body, and what follows. */
  function ExecRest<V, W>(
      ops: Ops<V, W>, n: Names, env: map<string, V>, cond: Option<Expr>, loop: Stmt, inc: Option<Stmt>, w: W, fuel: nat)
    : Outcome<V, W>
    requires fuel > 0
  {
    match ExecOption(ops, After(n, loop), env, inc, w, fuel - 1)
    case Normal(env1, w1, left) => Behind(left, ExecLoop(ops, n, env1, cond, loop, inc, w1, fuel - 1))
    case other => other
  }

  lemma {:induction false} RestCounts<V(!new), W(!new)>(
      ops: Ops<V, W>, n: Names, env: map<string, V>, cond: Option<Expr>, loop: Stmt, inc: Option<Stmt>, w: W, k: nat,
      fuel: nat)
    requires fuel > 0
    ensures Tallies(ExecRest(ops, n, env, cond, loop, inc, w, fuel),
                    ExecRest(Counting(ops), n, env, cond, loop, inc, (w, k), fuel), k,
                    Untried(loop) && UntriedOption(inc))
    decreases fuel, loop, 0
  {
    hide ExecOption, ExecLoop, Counting, Behind, Untried, UntriedOption, Tallies, After;
    var exact := Untried(loop) && UntriedOption(inc);
    var n1 := After(n, loop);
    ExecOptionCounts(ops, n1, env, inc, w, k, fuel - 1);
    var (out, counted) := (ExecOption(ops, n1, env, inc, w, fuel - 1),
                           ExecOption(Counting(ops), n1, env, inc, (w, k), fuel - 1));
    TalliesNormal(out, counted, k, UntriedOption(inc));
    if out.Normal? {
      var m := counted.world.1;
      ExecLoopCounts(ops, n, out.env, cond, loop, inc, out.world, m, fuel - 1);
      BehindTallies(out.left, ExecLoop(ops, n, out.env, cond, loop, inc, out.world, fuel - 1),
                    ExecLoop(Counting(ops), n, out.env, cond, loop, inc, (out.world, m), fuel - 1), k, m, exact);
    }
  }

  // ------------------------------------------------------------------------------------------ whole programs

  /** At its end a program has left on the stack at most one value for each item assignment that called a method, and
      exactly one for each if it catches nothing; then the stack is as it was if and only if there was none. */
  lemma ProgramLeaves<V(!new), W(!new)>(
      ops: Ops<V, W>, c: Ctx, s: Stmt, env: map<string, V>, t: State<V, W>, fuel: nat)
    requires WellFormed(c) && StmtCode(c, s).1.ok && Matches(StmtCode(c, s).1, env, t.locals) && t.handlers == []
    requires StmtFits(ops, s)
    ensures var (instrs, final) := StmtCode(c, s);
            var code := Code(instrs, final.pool, final.fastLocals);
            var counted := Exec(Counting(ops), c.Scope(), env, s, (t.world, 0), fuel);
            counted.Normal? ==>
              exists u: State<V, W> :: Reaches(ops, code, Running(0, t), Ended(u), 0) &&
                t.stack <= u.stack && |u.stack| <= |t.stack| + counted.world.1 &&
                (Untried(s) ==> |u.stack| == |t.stack| + counted.world.1 &&
                                (u.stack == t.stack <==> counted.world.1 == 0))
  {
    hide Matches, Reaches, StmtCode, Exec, Counting, Tallies, Untried, StmtFits;
    ProgramRuns(ops, c, s, env, t, fuel);
    ExecCounts(ops, c.Scope(), env, s, t.world, 0, fuel);
    var (out, counted) := (Exec(ops, c.Scope(), env, s, t.world, fuel),
                           Exec(Counting(ops), c.Scope(), env, s, (t.world, 0), fuel));
    TalliesNormal(out, counted, 0, Untried(s));
    if counted.Normal? {
      var (instrs, final) := StmtCode(c, s);
      var code := Code(instrs, final.pool, final.fastLocals);
      var locals: map<nat, V> :| Matches(final, out.env, locals) &&
        Reaches(ops, code, Running(0, t), Ended(StateAfter(t, out.left, locals, out.world)), 0);
      var u := StateAfter(t, out.left, locals, out.world);
      assert t.stack <= u.stack && |u.stack| == |t.stack| + |out.left|;
      assert |u.stack| == |t.stack| ==> u.stack == t.stack;
    }
  }

  // ------------------------------------------------------------------------------------------ a loop

  /** A counter and an object with a method for item assignment that lowers it. */
  const Countdown: Ops<int, int> :=
    Ops(
      (k: Const) => 0,
      (v: int) => v != 0,
      (op: int, v: int, w: int) => Done(0, w),
      (op: int, l: int, r: int, w: int) => Done(0, w),
      (f: int, w: int) => (f, []),
      (f: int, vs: seq<int>, ks: seq<int>, w: int) => Done(0, w),
      (vs: seq<int>, w: int) => Done(0, w),
      (vs: seq<int>, w: int) => Done(0, w),
      (v: int, name: string, w: int) => Done(0, w),
      (v: int, name: string, x: int, w: int) => Done(0, w),
      (v: int, i: int, w: int) => Done(0, w),
      (v: int, w: int) => true,
      (v: int, i: int, x: int, w: int) => Done(x, w - 1),
      (name: string, w: int) => Done(w, w),
      (name: string, v: int, w: int) => w,
      (name: string) => 0)

  /** while (n) a["x"] = n; */
  const ROUNDS := While(Name("n"), Assign(Item(Name("a"), Literal(Str("x"))), Name("n")))

  /** Every round leaves a value. */
  lemma {:induction false} RoundsLeave(n: Names, env: map<string, int>, rounds: nat) returns (left: seq<int>)
    requires !n.inFunction
    ensures Exec(Countdown, n, env, ROUNDS, rounds, rounds + 1) == Normal(env, 0, left) && |left| == rounds
    decreases rounds
  {
    hide Countdown;
    CountdownDoes();
    var body := Assign(Item(Name("a"), Literal(Str("x"))), Name("n"));
    OneRound(n, env, rounds);
    if rounds == 0 {
      assert ExecLoop(Countdown, n, env, Some(Name("n")), body, None, 0, 1) == Normal(env, 0, []);
      return [];
    }
    var rest := RoundsLeave(n, env, rounds - 1);
    left := [rounds] + rest;
    assert [] + rest == rest;
    var again := ExecLoop(Countdown, n, env, Some(Name("n")), body, None, rounds - 1, rounds);
    assert again == Normal(env, 0, rest) by {
      assert Exec(Countdown, n, env, ROUNDS, rounds - 1, rounds) == again;
    }
    assert Behind([rounds], Behind([], again)) == Normal(env, 0, left);
    assert ExecOption(Countdown, After(n, body), env, None, rounds - 1, rounds) == Normal(env, rounds - 1, []);
    assert Exec(Countdown, n, env, body, rounds, rounds) == Normal(env, rounds - 1, [rounds]);
    assert ExecLoop(Countdown, n, env, Some(Name("n")), body, None, rounds, rounds + 1) ==
           Behind([rounds], Behind([], again));
    assert Exec(Countdown, n, env, ROUNDS, rounds, rounds + 1) == Normal(env, 0, left);
  }

  lemma CountdownDoes()
    ensures Countdown.truthy(0) == false && forall v: int | v != 0 :: Countdown.truthy(v)
  {
  }

  lemma OneRound(n: Names, env: map<string, int>, w: int)
    requires !n.inFunction
    ensures Eval(Countdown, n, env, Name("n"), w) == Done(w, w)
    ensures forall fuel: nat ::
              Exec(Countdown, n, env, Assign(Item(Name("a"), Literal(Str("x"))), Name("n")), w, fuel) ==
              Normal(env, w - 1, [w])
  {
    assert Eval(Countdown, n, env, Name("n"), w) == Done(w, w);
    assert Eval(Countdown, n, env, Name("a"), w) == Done(w, w);
    assert Eval(Countdown, n, env, Literal(Str("x")), w) == Done(0, w);
  }
}
