/** The code that the generator emits, as a function of what it has emitted before. */
module M6Codegen {
  import opened Bytes
  import opened M6Machine
  import opened M6Syntax

  /** What the generator remembers: constant pool, slots of the local names in the order of `fastLocals`, names declared
      global, and whether there was no error. */
  datatype Ctx = Ctx(
    pool: seq<Const>,
    locals: map<string, nat>,
    fastLocals: seq<string>,
    globals: set<string>,
    inFunction: bool,
    ok: bool)
  {
    function Scope(): Names {
      Names(locals.Keys, globals, inFunction)
    }
  }

  type Emitted = (seq<Instr>, Ctx)

  // ------------------------------------------------------------------------------------------ constants and names

  /** The first place of a string in the pool, or its end. */
  function Find(pool: seq<Const>, s: string): (i: nat)
    ensures i <= |pool| && (i < |pool| ==> pool[i] == Str(s))
  {
    if pool == [] || pool[0] == Str(s) then 0 else 1 + Find(pool[1..], s)
  }

  function InternName(c: Ctx, s: string): (r: (nat, Ctx))
    ensures r.0 < |r.1.pool| && r.1.pool[r.0] == Str(s) && c.pool <= r.1.pool
  {
    var i := Find(c.pool, s);
    (i, if i < |c.pool| then c else c.(pool := c.pool + [Str(s)]))
  }

  function ConstCode(c: Ctx, k: Const): Emitted {
    if k.Str? then
      var (i, c1) := InternName(c, k.text);
      ([Push(i)], c1)
    else ([Push(|c.pool|)], c.(pool := c.pool + [k]))
  }

  const MAX_SLOT := 0xffff

  function LoadCode(c: Ctx, id: string): Emitted {
    if id !in c.globals && c.inFunction && id in c.locals then ([LoadFast(c.locals[id])], c)
    else
      var (i, c1) := InternName(c, id);
      ([LoadGlobal(i)], c1)
  }

  /** The slot of a name, a new one if it has none; too many are an error. */
  function StoreCode(c: Ctx, id: string): Emitted {
    if !c.inFunction || id in c.globals then
      var (i, c1) := InternName(c, id);
      ([StoreGlobal(i)], c1)
    else if id in c.locals then ([StoreFast(c.locals[id])], c)
    else if |c.fastLocals| > MAX_SLOT then ([], c.(ok := false))
    else
      var slot := |c.fastLocals|;
      ([StoreFast(slot)], c.(locals := c.locals[id := slot], fastLocals := c.fastLocals + [id]))
  }

  // ------------------------------------------------------------------------------------------ expressions

  function ExprCode(c: Ctx, e: Expr): Emitted
    decreases e
  {
    match e
    case Literal(value) => ConstCode(c, value)
    case Name(id) => LoadCode(c, id)
    case ListLiteral(elements) =>
      var (code, c1) := ExprsCode(c, elements);
      (code + [MakeList(|elements|)], c1)
    case DictLiteral(entries) =>
      var (code, c1) := EntriesCode(c, entries);
      (code + [MakeDict(|entries|)], c1)
    case Unary(op, sub) =>
      var (code, c1) := ExprCode(c, sub);
      (code + [UnaryOp(op)], c1)
    case Binary(op, lhs, rhs) =>
      var (l, c1) := ExprCode(c, lhs);
      var (r, c2) := ExprCode(c1, rhs);
      (l + r + [BinaryOp(op)], c2)
    case Paren(sub) => ExprCode(c, sub)
    case Invoke(fn, args, kwargs) =>
      var (f, c1) := ExprCode(c, fn);
      var (a, c2) := ExprsCode(c1, args);
      var (k, c3) := EntriesCode(c2, kwargs);
      (f + a + k + [Call(|args|, |kwargs|)], c3)
    case Subscript(primary, index) =>
      var (p, c1) := ExprCode(c, primary);
      var (i, c2) := ExprCode(c1, index);
      (p + i + [GetItem], c2)
    case Member(primary, member) =>
      var (p, c1) := ExprCode(c, primary);
      var (i, c2) := InternName(c1, member);
      (p + [GetField(i)], c2)
  }

  function ExprsCode(c: Ctx, es: seq<Expr>): Emitted
    decreases es
  {
    if es == [] then ([], c)
    else
      var (first, c1) := ExprCode(c, es[0]);
      var (rest, c2) := ExprsCode(c1, es[1..]);
      (first + rest, c2)
  }

  function EntryCode(c: Ctx, entry: Entry): Emitted
    decreases entry
  {
    var (k, c1) := ExprCode(c, entry.key);
    var (v, c2) := ExprCode(c1, entry.value);
    (k + v, c2)
  }

  function EntriesCode(c: Ctx, entries: seq<Entry>): Emitted
    decreases entries
  {
    if entries == [] then ([], c)
    else
      var (first, c1) := EntryCode(c, entries[0]);
      var (rest, c2) := EntriesCode(c1, entries[1..]);
      (first + rest, c2)
  }

  // ------------------------------------------------------------------------------------------ statements

  function AssignCode(c: Ctx, t: Target, rhs: Expr): Emitted {
    match t
    case Variable(id) =>
      var (v, c1) := ExprCode(c, rhs);
      var (st, c2) := StoreCode(c1, id);
      (v + st, c2)
    case Field(primary, member) =>
      var (p, c1) := ExprCode(c, primary);
      var (v, c2) := ExprCode(c1, rhs);
      var (i, c3) := InternName(c2, member);
      (p + v + [SetField(i)], c3)
    case Item(primary, index) =>
      var (p, c1) := ExprCode(c, primary);
      var (i, c2) := ExprCode(c1, index);
      var (v, c3) := ExprCode(c2, rhs);
      (p + i + v + [SetItem], c3)
  }

  function AugCode(c: Ctx, t: Target, op: int, rhs: Expr): Emitted {
    match t
    case Variable(id) =>
      var (l, c1) := LoadCode(c, id);
      var (r, c2) := ExprCode(c1, rhs);
      var (st, c3) := StoreCode(c2, id);
      (l + r + [BinaryOp(op)] + st, c3)
    case Field(primary, member) =>
      var (p, c1) := ExprCode(c, primary);
      var (i, c2) := InternName(c1, member);
      var (r, c3) := ExprCode(c2, rhs);
      var (j, c4) := InternName(c3, member);
      (p + [Dup(0), GetField(i)] + r + [BinaryOp(op), SetField(j)], c4)
    case Item(primary, index) =>
      var (p, c1) := ExprCode(c, primary);
      var (i, c2) := ExprCode(c1, index);
      var (r, c3) := ExprCode(c2, rhs);
      (p + i + [Dup(1), Dup(1), GetItem] + r + [BinaryOp(op), SetItem], c3)
  }

  /** Jumps go by bytes from behind the jump. */
  function StmtCode(c: Ctx, s: Stmt): Emitted
    decreases s
  {
    match s
    case ExprStmt(e) =>
      var (code, c1) := ExprCode(c, e);
      (code + [Pop(1)], c1)
    case Assign(lhs, rhs) => AssignCode(c, lhs, rhs)
    case Aug(lhs, op, rhs) => AugCode(c, lhs, op, rhs)
    case ScopeStmt(vars) => ([], c.(globals := c.globals + set id | id in vars))
    case Block(body) => StmtsCode(c, body)
    case If(cond, yes, no) =>
      var (k, c1) := ExprCode(c, cond);
      var (y, c2) := StmtCode(c1, yes);
      if no.None? then (k + [JumpIfFalse(Size(y))] + y, c2)
      else
        var (e, c3) := OptionCode(c2, no);
        (k + [JumpIfFalse(Size(y) + JUMP)] + y + [Jump(Size(e))] + e, c3)
    case While(cond, loop) =>
      var (k, c1) := ExprCode(c, cond);
      var (b, c2) := StmtCode(c1, loop);
      (LoopParts(k, b, []), c2)
    case For(init, until, inc, loop) =>
      var (i, c1) := OptionCode(c, init);
      var (k, c2) := ExprCode(c1, Condition(until));
      var (b, c3) := StmtCode(c2, loop);
      var (n, c4) := OptionCode(c3, inc);
      (i + LoopParts(k, b, n), c4)
    case ThrowStmt(e) =>
      var (code, c1) := ExprCode(c, e);
      (code + [Throw], c1)
    case Try(attempt, catchVar, handler) =>
      var (a, c1) := StmtCode(c, attempt);
      var (st, c2) := StoreCode(c1, catchVar);
      var (h, c3) := StmtCode(c2, handler);
      ([TryBegin(Size(a) + Width(TryEnd) + JUMP)] + a + [TryEnd, Jump(Size(st) + Size(h))] + st + h, c3)
  }

  const JUMP := 5

  function StmtsCode(c: Ctx, body: seq<Stmt>): Emitted
    decreases body
  {
    if body == [] then ([], c)
    else
      var (first, c1) := StmtCode(c, body[0]);
      var (rest, c2) := StmtsCode(c1, body[1..]);
      (first + rest, c2)
  }

  function OptionCode(c: Ctx, s: Option<Stmt>): Emitted
    decreases s
  {
    if s.Some? then StmtCode(c, s.value) else ([], c)
  }

  /** Condition, body, what is done behind it, and back. */
  function LoopParts(cond: seq<Instr>, body: seq<Instr>, inc: seq<Instr>): seq<Instr> {
    var round := Size(body) + Size(inc) + JUMP;
    cond + [JumpIfFalse(round)] + body + inc + [Jump(-(Size(cond) + JUMP + round))]
  }

  function LoopCode(c: Ctx, cond: Option<Expr>, loop: Stmt, inc: Option<Stmt>): Emitted {
    var (k, c1) := ExprCode(c, Condition(cond));
    var (b, c2) := StmtCode(c1, loop);
    var (n, c3) := OptionCode(c2, inc);
    (LoopParts(k, b, n), c3)
  }

  // ------------------------------------------------------------------------------------------ parts

  lemma IfCode(c: Ctx, cond: Expr, yes: Stmt, no: Option<Stmt>)
    ensures var (k, c1) := ExprCode(c, cond);
            var (y, c2) := StmtCode(c1, yes);
            var (e, c3) := OptionCode(c2, no);
            StmtCode(c, If(cond, yes, no)) ==
            (if no.Some? then k + [JumpIfFalse(Size(y) + JUMP)] + y + [Jump(Size(e))] + e
             else k + [JumpIfFalse(Size(y))] + y, c3) &&
            (no.None? ==> e == [] && c3 == c2)
  {
    hide ExprCode, Size;
  }

  lemma TryCode(c: Ctx, attempt: Stmt, catchVar: string, handler: Stmt)
    ensures var (a, c1) := StmtCode(c, attempt);
            var (st, c2) := StoreCode(c1, catchVar);
            var (h, c3) := StmtCode(c2, handler);
            StmtCode(c, Try(attempt, catchVar, handler)) ==
            ([TryBegin(Size(a) + Width(TryEnd) + JUMP)] + a + [TryEnd, Jump(Size(st) + Size(h))] + st + h, c3)
  {
    hide StoreCode, Size;
  }

  lemma WhileCode(c: Ctx, cond: Expr, loop: Stmt)
    ensures StmtCode(c, While(cond, loop)) == LoopCode(c, Some(cond), loop, None)
    ensures var (k, c1) := ExprCode(c, cond);
            var (b, c2) := StmtCode(c1, loop);
            StmtCode(c, While(cond, loop)) == (LoopParts(k, b, []), c2)
  {
    hide ExprCode, LoopParts;
  }

  lemma ForCode(c: Ctx, init: Option<Stmt>, until: Option<Expr>, inc: Option<Stmt>, loop: Stmt)
    ensures var (i, c1) := OptionCode(c, init);
            var (k, c2) := ExprCode(c1, Condition(until));
            var (b, c3) := StmtCode(c2, loop);
            var (n, c4) := OptionCode(c3, inc);
            StmtCode(c, For(init, until, inc, loop)) == (i + LoopParts(k, b, n), c4)
  {
    hide ExprCode, LoopParts, OptionCode;
  }
}
