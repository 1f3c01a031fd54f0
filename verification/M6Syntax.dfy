/** m6 programs, and what they mean, without any machine. */
module M6Syntax {
  import opened Bytes
  import opened M6Machine

  datatype Expr =
    | Literal(value: Const)
    | Name(id: string)
    | ListLiteral(elements: seq<Expr>)
    | DictLiteral(entries: seq<Entry>)
    | Unary(op: int, sub: Expr)
    | Binary(op: int, lhs: Expr, rhs: Expr)
    | Paren(sub: Expr)
    | Invoke(fn: Expr, args: seq<Expr>, kwargs: seq<Entry>)
    | Subscript(primary: Expr, index: Expr)
    | Member(primary: Expr, member: string)

  /** A key and its value; the key of a keyword argument is the string literal of its name. */
  datatype Entry = Entry(key: Expr, value: Expr)

  datatype Target = Variable(id: string) | Field(primary: Expr, member: string) | Item(primary: Expr, index: Expr)

  datatype Stmt =
    | ExprStmt(e: Expr)
    | Assign(lhs: Target, rhs: Expr)
    | Aug(lhs: Target, op: int, rhs: Expr)
    | ScopeStmt(vars: seq<string>)
    | Block(body: seq<Stmt>)
    | If(cond: Expr, yes: Stmt, no: Option<Stmt>)
    | While(cond: Expr, loop: Stmt)
    | For(init: Option<Stmt>, until: Option<Expr>, inc: Option<Stmt>, loop: Stmt)
    | ThrowStmt(e: Expr)
    | Try(attempt: Stmt, catchVar: string, handler: Stmt)

  // ------------------------------------------------------------------------------------------ names

  /** What the text so far says about names. In a function, a name is local from the first assignment on in the text,
      unless it has been declared global. */
  datatype Names = Names(known: set<string>, globals: set<string>, inFunction: bool) {
    predicate StoresLocally(id: string) {
      inFunction && id !in globals
    }

    predicate LoadsLocally(id: string) {
      inFunction && id !in globals && id in known
    }

    function AfterStore(id: string): Names {
      if StoresLocally(id) then this.(known := known + {id}) else this
    }
  }

  function AfterTarget(n: Names, t: Target): Names {
    if t.Variable? then n.AfterStore(t.id) else n
  }

  /** The names behind a statement; it does not matter whether it is executed. */
  function After(n: Names, s: Stmt): Names
    decreases s
  {
    match s
    case ExprStmt(_) => n
    case Assign(lhs, _) => AfterTarget(n, lhs)
    case Aug(lhs, _, _) => AfterTarget(n, lhs)
    case ScopeStmt(vars) => n.(globals := n.globals + set id | id in vars)
    case Block(body) => AfterAll(n, body)
    case If(_, yes, no) => AfterOption(After(n, yes), no)
    case While(_, loop) => After(n, loop)
    case For(init, _, inc, loop) => AfterOption(After(AfterOption(n, init), loop), inc)
    case ThrowStmt(_) => n
    case Try(attempt, catchVar, handler) => After(After(n, attempt).AfterStore(catchVar), handler)
  }

  function AfterAll(n: Names, body: seq<Stmt>): Names
    decreases body
  {
    if body == [] then n else AfterAll(After(n, body[0]), body[1..])
  }

  function AfterOption(n: Names, s: Option<Stmt>): Names
    decreases s
  {
    if s.Some? then After(n, s.value) else n
  }

  // ------------------------------------------------------------------------------------------ expressions

  function Load<V, W>(ops: Ops<V, W>, n: Names, env: map<string, V>, w: W, id: string): Result<V, W> {
    if !n.LoadsLocally(id) then ops.loadGlobal(id, w)
    else if id in env then Done(env[id], w)
    else Raise(ops.unbound(id), w)
  }

  datatype Results<+V, +W> = AllDone(values: seq<V>, world: W) | OneRaised(exc: V, world: W)

  /** From left to right; both operands of every operator are evaluated. */
  function Eval<V, W>(ops: Ops<V, W>, n: Names, env: map<string, V>, e: Expr, w: W): Result<V, W>
    decreases e
  {
    match e
    case Literal(value) => Done(ops.constant(value), w)
    case Name(id) => Load(ops, n, env, w, id)
    case ListLiteral(elements) =>
      (match EvalAll(ops, n, env, elements, w)
       case OneRaised(x, w1) => Raise(x, w1)
       case AllDone(vs, w1) => ops.makeList(vs, w1))
    case DictLiteral(entries) =>
      (match EvalEntries(ops, n, env, entries, w)
       case OneRaised(x, w1) => Raise(x, w1)
       case AllDone(vs, w1) => ops.makeDict(vs, w1))
    case Unary(op, sub) =>
      (match Eval(ops, n, env, sub, w)
       case Raise(x, w1) => Raise(x, w1)
       case Done(v, w1) => ops.unary(op, v, w1))
    case Binary(op, lhs, rhs) =>
      (match Eval(ops, n, env, lhs, w)
       case Raise(x, w1) => Raise(x, w1)
       case Done(l, w1) =>
         match Eval(ops, n, env, rhs, w1)
         case Raise(x, w2) => Raise(x, w2)
         case Done(r, w2) => ops.binary(op, l, r, w2))
    case Paren(sub) => Eval(ops, n, env, sub, w)
    case Invoke(fn, args, kwargs) =>
      (match Eval(ops, n, env, fn, w)
       case Raise(x, w1) => Raise(x, w1)
       case Done(f, w1) =>
         match EvalAll(ops, n, env, args, w1)
         case OneRaised(x, w2) => Raise(x, w2)
         case AllDone(vs, w2) =>
           match EvalEntries(ops, n, env, kwargs, w2)
           case OneRaised(x, w3) => Raise(x, w3)
           case AllDone(ks, w3) => ops.call(f, Front(ops, f, f, w3) + vs, ks, w3))
    case Subscript(primary, index) =>
      (match Eval(ops, n, env, primary, w)
       case Raise(x, w1) => Raise(x, w1)
       case Done(p, w1) =>
         match Eval(ops, n, env, index, w1)
         case Raise(x, w2) => Raise(x, w2)
         case Done(i, w2) => ops.getItem(p, i, w2))
    case Member(primary, member) =>
      (match Eval(ops, n, env, primary, w)
       case Raise(x, w1) => Raise(x, w1)
       case Done(p, w1) => ops.getField(p, member, w1))
  }

  function EvalAll<V, W>(ops: Ops<V, W>, n: Names, env: map<string, V>, es: seq<Expr>, w: W): (r: Results<V, W>)
    ensures r.AllDone? ==> |r.values| == |es|
    decreases es
  {
    if es == [] then AllDone([], w)
    else
      match Eval(ops, n, env, es[0], w)
      case Raise(x, w1) => OneRaised(x, w1)
      case Done(v, w1) =>
        match EvalAll(ops, n, env, es[1..], w1)
        case OneRaised(x, w2) => OneRaised(x, w2)
        case AllDone(vs, w2) => AllDone([v] + vs, w2)
  }

  function EvalEntry<V, W>(ops: Ops<V, W>, n: Names, env: map<string, V>, entry: Entry, w: W): (r: Results<V, W>)
    ensures r.AllDone? ==> |r.values| == 2
    decreases entry
  {
    match Eval(ops, n, env, entry.key, w)
    case Raise(x, w1) => OneRaised(x, w1)
    case Done(k, w1) =>
      match Eval(ops, n, env, entry.value, w1)
      case Raise(x, w2) => OneRaised(x, w2)
      case Done(v, w2) => AllDone([k, v], w2)
  }

  /** Keys and values in turn. */
  function EvalEntries<V, W>(
      ops: Ops<V, W>, n: Names, env: map<string, V>, entries: seq<Entry>, w: W): (r: Results<V, W>)
    ensures r.AllDone? ==> |r.values| == 2 * |entries|
    decreases entries
  {
    if entries == [] then AllDone([], w)
    else
      match EvalEntry(ops, n, env, entries[0], w)
      case OneRaised(x, w1) => OneRaised(x, w1)
      case AllDone(kv, w1) =>
        match EvalEntries(ops, n, env, entries[1..], w1)
        case OneRaised(x, w2) => OneRaised(x, w2)
        case AllDone(vs, w2) => AllDone(kv + vs, w2)
  }

  // ------------------------------------------------------------------------------------------ calls

  /** Do the counts of a call fit in a byte, whatever is called? */
  ghost predicate Fits<V(!new), W(!new)>(ops: Ops<V, W>, argcnt: nat, kwargcnt: nat) {
    kwargcnt < 0x100 && forall f: V, w: W :: argcnt + |ops.bound(f, w).1| < 0x100
  }

  /** Those of all calls in an expression. */
  ghost predicate CallsFit<V(!new), W(!new)>(ops: Ops<V, W>, e: Expr)
    decreases e
  {
    match e
    case Literal(_) => true
    case Name(_) => true
    case ListLiteral(elements) => forall x <- elements :: CallsFit(ops, x)
    case DictLiteral(entries) => forall x <- entries :: EntryFits(ops, x)
    case Unary(_, sub) => CallsFit(ops, sub)
    case Binary(_, lhs, rhs) => CallsFit(ops, lhs) && CallsFit(ops, rhs)
    case Paren(sub) => CallsFit(ops, sub)
    case Invoke(fn, args, kwargs) =>
      Fits(ops, |args|, |kwargs|) && CallsFit(ops, fn) && (forall x <- args :: CallsFit(ops, x)) &&
      forall x <- kwargs :: EntryFits(ops, x)
    case Subscript(primary, index) => CallsFit(ops, primary) && CallsFit(ops, index)
    case Member(primary, _) => CallsFit(ops, primary)
  }

  ghost predicate EntryFits<V(!new), W(!new)>(ops: Ops<V, W>, entry: Entry)
    decreases entry
  {
    CallsFit(ops, entry.key) && CallsFit(ops, entry.value)
  }

  ghost predicate TargetFits<V(!new), W(!new)>(ops: Ops<V, W>, t: Target) {
    match t
    case Variable(_) => true
    case Field(primary, _) => CallsFit(ops, primary)
    case Item(primary, index) => CallsFit(ops, primary) && CallsFit(ops, index)
  }

  /** Those of all calls in a statement. */
  ghost predicate StmtFits<V(!new), W(!new)>(ops: Ops<V, W>, s: Stmt)
    decreases s
  {
    match s
    case ExprStmt(e) => CallsFit(ops, e)
    case Assign(lhs, rhs) => TargetFits(ops, lhs) && CallsFit(ops, rhs)
    case Aug(lhs, _, rhs) => TargetFits(ops, lhs) && CallsFit(ops, rhs)
    case ScopeStmt(_) => true
    case Block(body) => forall x <- body :: StmtFits(ops, x)
    case If(cond, yes, no) => CallsFit(ops, cond) && StmtFits(ops, yes) && OptionFits(ops, no)
    case While(cond, loop) => CallsFit(ops, cond) && StmtFits(ops, loop)
    case For(init, until, inc, loop) =>
      OptionFits(ops, init) && CallsFit(ops, Condition(until)) && OptionFits(ops, inc) && StmtFits(ops, loop)
    case ThrowStmt(e) => CallsFit(ops, e)
    case Try(attempt, _, handler) => StmtFits(ops, attempt) && StmtFits(ops, handler)
  }

  ghost predicate OptionFits<V(!new), W(!new)>(ops: Ops<V, W>, s: Option<Stmt>)
    decreases s
  {
    s.Some? ==> StmtFits(ops, s.value)
  }

  // ------------------------------------------------------------------------------------------ statements

  /** `left` is what the methods that item assignments have called returned, which nobody has asked for. */
  datatype Outcome<V, W> =
    | Normal(env: map<string, V>, world: W, left: seq<V>)
    | Raised(exc: V, env: map<string, V>, world: W)
    | OutOfFuel

  function Store<V, W>(ops: Ops<V, W>, n: Names, env: map<string, V>, w: W, id: string, v: V): Outcome<V, W> {
    if n.StoresLocally(id) then Normal(env[id := v], w, []) else Normal(env, ops.storeGlobal(id, v, w), [])
  }

  function Finished<V, W>(env: map<string, V>, r: Result<V, W>, left: seq<V>): Outcome<V, W> {
    match r
    case Done(_, w) => Normal(env, w, left)
    case Raise(x, w) => Raised(x, env, w)
  }

  /** What item assignment to `p` leaves. */
  function Residue<V, W>(ops: Ops<V, W>, p: V, w: W, r: Result<V, W>): seq<V> {
    if ops.dispatches(p, w) && r.Done? then [r.value] else []
  }

  function SetItemOf<V, W>(ops: Ops<V, W>, env: map<string, V>, p: V, i: V, v: V, w: W): Outcome<V, W> {
    var r := ops.setItem(p, i, v, w);
    Finished(env, r, Residue(ops, p, w, r))
  }

  /** An outcome behind what has been left before. An exception that is caught takes all of that away. */
  function Behind<V, W>(left: seq<V>, out: Outcome<V, W>): Outcome<V, W> {
    if out.Normal? then out.(left := left + out.left) else out
  }

  function ExecAssign<V, W>(ops: Ops<V, W>, n: Names, env: map<string, V>, t: Target, rhs: Expr, w: W): Outcome<V, W> {
    match t
    case Variable(id) =>
      (match Eval(ops, n, env, rhs, w)
       case Raise(x, w1) => Raised(x, env, w1)
       case Done(v, w1) => Store(ops, n, env, w1, id, v))
    case Field(primary, member) =>
      (match Eval(ops, n, env, primary, w)
       case Raise(x, w1) => Raised(x, env, w1)
       case Done(p, w1) =>
         match Eval(ops, n, env, rhs, w1)
         case Raise(x, w2) => Raised(x, env, w2)
         case Done(v, w2) => Finished(env, ops.setField(p, member, v, w2), []))
    case Item(primary, index) =>
      (match Eval(ops, n, env, primary, w)
       case Raise(x, w1) => Raised(x, env, w1)
       case Done(p, w1) =>
         match Eval(ops, n, env, index, w1)
         case Raise(x, w2) => Raised(x, env, w2)
         case Done(i, w2) =>
           match Eval(ops, n, env, rhs, w2)
           case Raise(x, w3) => Raised(x, env, w3)
           case Done(v, w3) => SetItemOf(ops, env, p, i, v, w3))
  }

  /** The target is evaluated once. */
  function ExecAug<V, W>(
      ops: Ops<V, W>, n: Names, env: map<string, V>, t: Target, op: int, rhs: Expr, w: W): Outcome<V, W>
  {
    match t
    case Variable(id) =>
      (match Load(ops, n, env, w, id)
       case Raise(x, w1) => Raised(x, env, w1)
       case Done(l, w1) =>
         match Eval(ops, n, env, rhs, w1)
         case Raise(x, w2) => Raised(x, env, w2)
         case Done(r, w2) =>
           match ops.binary(op, l, r, w2)
           case Raise(x, w3) => Raised(x, env, w3)
           case Done(v, w3) => Store(ops, n, env, w3, id, v))
    case Field(primary, member) =>
      (match Eval(ops, n, env, primary, w)
       case Raise(x, w1) => Raised(x, env, w1)
       case Done(p, w1) =>
         match ops.getField(p, member, w1)
         case Raise(x, w2) => Raised(x, env, w2)
         case Done(l, w2) =>
           match Eval(ops, n, env, rhs, w2)
           case Raise(x, w3) => Raised(x, env, w3)
           case Done(r, w3) =>
             match ops.binary(op, l, r, w3)
             case Raise(x, w4) => Raised(x, env, w4)
             case Done(v, w4) => Finished(env, ops.setField(p, member, v, w4), []))
    case Item(primary, index) =>
      (match Eval(ops, n, env, primary, w)
       case Raise(x, w1) => Raised(x, env, w1)
       case Done(p, w1) =>
         match Eval(ops, n, env, index, w1)
         case Raise(x, w2) => Raised(x, env, w2)
         case Done(i, w2) =>
           match ops.getItem(p, i, w2)
           case Raise(x, w3) => Raised(x, env, w3)
           case Done(l, w3) =>
             match Eval(ops, n, env, rhs, w3)
             case Raise(x, w4) => Raised(x, env, w4)
             case Done(r, w4) =>
               match ops.binary(op, l, r, w4)
               case Raise(x, w5) => Raised(x, env, w5)
               case Done(v, w5) => SetItemOf(ops, env, p, i, v, w5))
  }

  /** `fuel` limits how often loops go round. */
  function Exec<V, W>(ops: Ops<V, W>, n: Names, env: map<string, V>, s: Stmt, w: W, fuel: nat): Outcome<V, W>
    decreases fuel, s
  {
    match s
    case ExprStmt(e) => Finished(env, Eval(ops, n, env, e, w), [])
    case Assign(lhs, rhs) => ExecAssign(ops, n, env, lhs, rhs, w)
    case Aug(lhs, op, rhs) => ExecAug(ops, n, env, lhs, op, rhs, w)
    case ScopeStmt(_) => Normal(env, w, [])
    case Block(body) => ExecAll(ops, n, env, body, w, fuel)
    case If(cond, yes, no) =>
      (match Eval(ops, n, env, cond, w)
       case Raise(x, w1) => Raised(x, env, w1)
       case Done(v, w1) =>
         if ops.truthy(v) then Exec(ops, n, env, yes, w1, fuel)
         else ExecOption(ops, After(n, yes), env, no, w1, fuel))
    case While(cond, loop) => ExecLoop(ops, n, env, Some(cond), loop, None, w, fuel)
    case For(init, until, inc, loop) =>
      (match ExecOption(ops, n, env, init, w, fuel)
       case Normal(env1, w1, left) =>
         Behind(left, ExecLoop(ops, AfterOption(n, init), env1, until, loop, inc, w1, fuel))
       case other => other)
    case ThrowStmt(e) =>
      (match Eval(ops, n, env, e, w)
       case Raise(x, w1) => Raised(x, env, w1)
       case Done(v, w1) => Raised(v, env, w1))
    case Try(attempt, catchVar, handler) =>
      (match Exec(ops, n, env, attempt, w, fuel)
       case Raised(x, env1, w1) =>
         var n1 := After(n, attempt);
         (match Store(ops, n1, env1, w1, catchVar, x)
          case Normal(env2, w2, _) => Exec(ops, n1.AfterStore(catchVar), env2, handler, w2, fuel)
          case other => other)
       case other => other)
  }

  function ExecAll<V, W>(ops: Ops<V, W>, n: Names, env: map<string, V>, body: seq<Stmt>, w: W, fuel: nat): Outcome<V, W>
    decreases fuel, body
  {
    if body == [] then Normal(env, w, [])
    else
      match Exec(ops, n, env, body[0], w, fuel)
      case Normal(env1, w1, left) => Behind(left, ExecAll(ops, After(n, body[0]), env1, body[1..], w1, fuel))
      case other => other
  }

  function ExecOption<V, W>(
      ops: Ops<V, W>, n: Names, env: map<string, V>, s: Option<Stmt>, w: W, fuel: nat): Outcome<V, W>
    decreases fuel, s
  {
    if s.Some? then Exec(ops, n, env, s.value, w, fuel) else Normal(env, w, [])
  }

  /** While the condition holds, the body and what is done behind it. No condition always holds. */
  function ExecLoop<V, W>(
      ops: Ops<V, W>, n: Names, env: map<string, V>, cond: Option<Expr>, loop: Stmt, inc: Option<Stmt>, w: W, fuel: nat)
    : Outcome<V, W>
    decreases fuel, loop
  {
    if fuel == 0 then OutOfFuel
    else
      match Eval(ops, n, env, Condition(cond), w)
      case Raise(x, w1) => Raised(x, env, w1)
      case Done(v, w1) =>
        if !ops.truthy(v) then Normal(env, w1, [])
        else
          match Exec(ops, n, env, loop, w1, fuel - 1)
          case Normal(env2, w2, left) =>
            Behind(left, match ExecOption(ops, After(n, loop), env2, inc, w2, fuel - 1)
             case Normal(env3, w3, left3) => Behind(left3, ExecLoop(ops, n, env3, cond, loop, inc, w3, fuel - 1))
             case other => other)
          case other => other
  }

  function Condition(cond: Option<Expr>): Expr {
    if cond.Some? then cond.value else Literal(True)
  }
}
