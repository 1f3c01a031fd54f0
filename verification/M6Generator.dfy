/** class CodeGenerator: emitting, and patching jumps whose targets were not known when they were emitted. */
module M6Generator {
  import opened Bytes
  import opened Sequences
  import opened M6Machine
  import opened M6Syntax
  import opened M6Codegen

  /** The instruction of the list that starts at byte `site`. */
  function IndexAt(instrs: seq<Instr>, site: int): (i: Option<nat>)
    ensures i.Some? ==> i.value < |instrs|
  {
    if instrs == [] || site < 0 then None
    else if site == 0 then Some(0)
    else
      match IndexAt(instrs[1..], site - Width(instrs[0]))
      case None => None
      case Some(i) => Some(i + 1)
  }

  lemma {:induction false} IndexBehind(front: seq<Instr>, i: Instr, back: seq<Instr>)
    ensures IndexAt(front + [i] + back, Size(front)) == Some(|front|)
    decreases |front|
  {
    if front == [] {
      assert (front + [i] + back)[0] == i;
    } else {
      assert (front + [i] + back)[1..] == front[1..] + [i] + back;
      IndexBehind(front[1..], i, back);
    }
  }

  predicate IsJump(i: Instr) {
    i.Jump? || i.JumpIfFalse? || i.TryBegin?
  }

  function WithOffset(i: Instr, offset: int): Instr
    requires IsJump(i)
  {
    match i
    case Jump(_) => Jump(offset)
    case JumpIfFalse(_) => JumpIfFalse(offset)
    case TryBegin(_) => TryBegin(offset)
  }

  class CodeGenerator {
    var code: seq<Instr>
    var pool: seq<Const>
    var locals: map<string, nat>
    var fastLocals: seq<string>
    var globals: set<string>
    var inFunction: bool
    var ok: bool

    function Context(): Ctx
      reads this
    {
      Ctx(pool, locals, fastLocals, globals, inFunction, ok)
    }

    constructor (inFunction: bool)
      ensures code == [] && Context() == Ctx([], map[], [], {}, inFunction, true)
    {
      code, pool, locals, fastLocals, globals := [], [], map[], [], {};
      this.inFunction := inFunction;
      ok := true;
    }

    method Emit(i: Instr)
      modifies `code
      ensures code == old(code) + [i]
    {
      code := code + [i];
    }

    /** False: there is no jump at the site, and the source throws. The offset counts from behind the jump. */
    method Patch(site: int, target: int) returns (done: bool)
      modifies `code
      ensures var at := IndexAt(old(code), site);
              done == (at.Some? && IsJump(old(code)[at.value])) &&
              code == if done then old(code)[at.value := WithOffset(old(code)[at.value], target - (site + JUMP))]
                      else old(code)
    {
      var at := IndexAt(code, site);
      if at.None? || !IsJump(code[at.value]) {
        return false;
      }
      code := code[at.value := WithOffset(code[at.value], target - (site + JUMP))];
      done := true;
    }

    /** Patching a jump that has been emitted behind `front`. */
    method PatchBehind(ghost front: seq<Instr>, ghost i: Instr, ghost back: seq<Instr>, site: int, target: int)
      requires code == front + [i] + back && IsJump(i) && site == Size(front)
      modifies `code
      ensures code == front + [WithOffset(i, target - (site + JUMP))] + back
    {
      IndexBehind(front, i, back);
      var done := Patch(site, target);
    }

    /** Patching such a jump to the end of the code: it goes over all that stands behind it. */
    method PatchToEnd(ghost front: seq<Instr>, ghost i: Instr, ghost back: seq<Instr>, site: int)
      requires code == front + [i] + back && IsJump(i) && site == Size(front)
      modifies `code
      ensures code == front + [WithOffset(i, Size(back))] + back
    {
      SameSize(front, i, i, back);
      PatchBehind(front, i, back, site, Size(code));
    }

    method InternName(s: string) returns (index: nat)
      modifies `pool
      ensures (index, Context()) == M6Codegen.InternName(old(Context()), s)
    {
      index := 0;
      while index < |pool| && pool[index] != Str(s)
        invariant 0 <= index <= |pool| && Find(pool, s) == index + Find(pool[index..], s) && pool == old(pool)
      {
        FindBehind(pool, s, index);
        index := index + 1;
      }
      FindBehind(pool, s, index);
      if index == |pool| {
        pool := pool + [Str(s)];
      }
    }

    static lemma FindBehind(pool: seq<Const>, s: string, i: nat)
      requires i <= |pool|
      ensures pool[0..] == pool
      ensures Find(pool[i..], s) == if i == |pool| || pool[i] == Str(s) then 0 else 1 + Find(pool[i + 1..], s)
    {
      if i < |pool| { assert pool[i..][1..] == pool[i + 1..]; }
    }

    method EmitConst(k: Const)
      modifies this
      ensures var e := ConstCode(old(Context()), k);
              code == old(code) + e.0 && Context() == e.1
    {
      if k.Str? {
        var index := InternName(k.text);
        Emit(Push(index));
      } else {
        pool := pool + [k];
        Emit(Push(|pool| - 1));
      }
    }

    method EmitLoadVar(id: string)
      modifies this
      ensures var e := LoadCode(old(Context()), id);
              code == old(code) + e.0 && Context() == e.1
    {
      if id !in globals && inFunction && id in locals {
        Emit(LoadFast(locals[id]));
      } else {
        var index := InternName(id);
        Emit(LoadGlobal(index));
      }
    }

    method EmitStoreVar(id: string)
      modifies this
      ensures var e := StoreCode(old(Context()), id);
              code == old(code) + e.0 && Context() == e.1
    {
      if !inFunction || id in globals {
        var index := InternName(id);
        Emit(StoreGlobal(index));
        return;
      }
      if id !in locals {
        if |fastLocals| > MAX_SLOT {
          ok := false;
          return;
        }
        locals := locals[id := |fastLocals|];
        fastLocals := fastLocals + [id];
      }
      Emit(StoreFast(locals[id]));
    }

    // ---------------------------------------------------------------------------------------- expressions

    method EmitExpr(e: Expr)
      modifies this
      ensures var part := ExprCode(old(Context()), e);
              code == old(code) + part.0 && Context() == part.1
      decreases e, 1
    {
      hide ConstCode, LoadCode, M6Codegen.InternName;
      ghost var start := code;
      match e
      case Literal(value) => EmitConst(value);
      case Name(id) => EmitLoadVar(id);
      case ListLiteral(elements) =>
        EmitExprs(elements);
        Emit(MakeList(|elements|));
        Assoc(start, ExprsCode(old(Context()), elements).0, [MakeList(|elements|)]);
      case DictLiteral(entries) =>
        EmitEntries(entries);
        Emit(MakeDict(|entries|));
        Assoc(start, EntriesCode(old(Context()), entries).0, [MakeDict(|entries|)]);
      case Unary(op, sub) =>
        EmitExpr(sub);
        Emit(UnaryOp(op));
        Assoc(start, ExprCode(old(Context()), sub).0, [UnaryOp(op)]);
      case Binary(op, lhs, rhs) =>
        ghost var l := ExprCode(old(Context()), lhs);
        EmitExpr(lhs);
        EmitExpr(rhs);
        Emit(BinaryOp(op));
        Joined(start, l.0, ExprCode(l.1, rhs).0, [BinaryOp(op)]);
      case Paren(sub) => EmitExpr(sub);
      case Invoke(fn, args, kwargs) =>
        ghost var f := ExprCode(old(Context()), fn);
        ghost var a := ExprsCode(f.1, args);
        ghost var k := EntriesCode(a.1, kwargs);
        EmitExpr(fn);
        EmitExprs(args);
        EmitEntries(kwargs);
        Emit(Call(|args|, |kwargs|));
        Joined(start, f.0, a.0, k.0);
        Assoc(start, f.0 + a.0 + k.0, [Call(|args|, |kwargs|)]);
      case Subscript(primary, index) =>
        ghost var p := ExprCode(old(Context()), primary);
        EmitExpr(primary);
        EmitExpr(index);
        Emit(GetItem);
        Joined(start, p.0, ExprCode(p.1, index).0, [GetItem]);
      case Member(primary, member) =>
        EmitExpr(primary);
        var index := InternName(member);
        Emit(GetField(index));
        Assoc(start, ExprCode(old(Context()), primary).0, [GetField(index)]);
    }

    static lemma Joined(start: seq<Instr>, a: seq<Instr>, b: seq<Instr>, c: seq<Instr>)
      ensures start + a + b + c == start + (a + b + c)
    {
    }

    method EmitExprs(es: seq<Expr>)
      modifies this
      ensures var part := ExprsCode(old(Context()), es);
              code == old(code) + part.0 && Context() == part.1
      decreases es, 1
    {
      hide ExprCode;
      if es != [] {
        ghost var first := ExprCode(Context(), es[0]);
        ghost var rest := ExprsCode(first.1, es[1..]);
        EmitExpr(es[0]);
        EmitExprs(es[1..]);
        Assoc(old(code), first.0, rest.0);
      }
    }

    method EmitEntry(entry: Entry)
      modifies this
      ensures var part := EntryCode(old(Context()), entry);
              code == old(code) + part.0 && Context() == part.1
      decreases entry, 1
    {
      hide ExprCode;
      ghost var k := ExprCode(Context(), entry.key);
      ghost var v := ExprCode(k.1, entry.value);
      EmitExpr(entry.key);
      EmitExpr(entry.value);
      Assoc(old(code), k.0, v.0);
    }

    method EmitEntries(entries: seq<Entry>)
      modifies this
      ensures var part := EntriesCode(old(Context()), entries);
              code == old(code) + part.0 && Context() == part.1
      decreases entries, 1
    {
      hide EntryCode;
      if entries != [] {
        ghost var first := EntryCode(Context(), entries[0]);
        ghost var rest := EntriesCode(first.1, entries[1..]);
        EmitEntry(entries[0]);
        EmitEntries(entries[1..]);
        Assoc(old(code), first.0, rest.0);
      }
    }

    // ---------------------------------------------------------------------------------------- statements

    method EmitAssign(t: Target, rhs: Expr)
      modifies this
      ensures var part := AssignCode(old(Context()), t, rhs);
              code == old(code) + part.0 && Context() == part.1
    {
      hide ExprCode, StoreCode, M6Codegen.InternName;
      ghost var start := code;
      ghost var c := Context();
      match t
      case Variable(id) =>
        ghost var v := ExprCode(c, rhs);
        EmitExpr(rhs);
        EmitStoreVar(id);
        Assoc(start, v.0, StoreCode(v.1, id).0);
      case Field(primary, member) =>
        ghost var p := ExprCode(c, primary);
        ghost var v := ExprCode(p.1, rhs);
        EmitExpr(primary);
        EmitExpr(rhs);
        var index := InternName(member);
        Emit(SetField(index));
        Joined(start, p.0, v.0, [SetField(index)]);
      case Item(primary, index) =>
        ghost var p := ExprCode(c, primary);
        ghost var i := ExprCode(p.1, index);
        ghost var v := ExprCode(i.1, rhs);
        EmitExpr(primary);
        EmitExpr(index);
        EmitExpr(rhs);
        Emit(SetItem);
        Joined(start, p.0, i.0, v.0);
        Assoc(start, p.0 + i.0 + v.0, [SetItem]);
    }

    method EmitAug(t: Target, op: int, rhs: Expr)
      modifies this
      ensures var part := AugCode(old(Context()), t, op, rhs);
              code == old(code) + part.0 && Context() == part.1
    {
      hide ExprCode, LoadCode, StoreCode, M6Codegen.InternName;
      match t
      case Variable(id) =>
        ghost var start := code;
        ghost var l := LoadCode(Context(), id);
        ghost var r := ExprCode(l.1, rhs);
        EmitLoadVar(id);
        EmitExpr(rhs);
        Emit(BinaryOp(op));
        EmitStoreVar(id);
        Joined(start, l.0, r.0, [BinaryOp(op)]);
        Assoc(start, l.0 + r.0 + [BinaryOp(op)], StoreCode(r.1, id).0);
      case Field(_, _) => EmitAugField(t, op, rhs);
      case Item(_, _) => EmitAugItem(t, op, rhs);
    }

    method EmitAugField(t: Target, op: int, rhs: Expr)
      requires t.Field?
      modifies this
      ensures var part := AugCode(old(Context()), t, op, rhs);
              code == old(code) + part.0 && Context() == part.1
    {
      hide ExprCode, M6Codegen.InternName;
      ghost var start := code;
      ghost var p := ExprCode(Context(), t.primary);
      EmitExpr(t.primary);
      Emit(Dup(0));
      var i := InternName(t.member);
      ghost var r := ExprCode(Context(), rhs);
      Emit(GetField(i));
      EmitExpr(rhs);
      Emit(BinaryOp(op));
      var j := InternName(t.member);
      Emit(SetField(j));
      FieldJoined(start, p.0, Dup(0), GetField(i), r.0, BinaryOp(op), SetField(j));
    }

    method EmitAugItem(t: Target, op: int, rhs: Expr)
      requires t.Item?
      modifies this
      ensures var part := AugCode(old(Context()), t, op, rhs);
              code == old(code) + part.0 && Context() == part.1
    {
      hide ExprCode;
      ghost var start := code;
      ghost var p := ExprCode(Context(), t.primary);
      ghost var i := ExprCode(p.1, t.index);
      ghost var r := ExprCode(i.1, rhs);
      EmitExpr(t.primary);
      EmitExpr(t.index);
      Emit(Dup(1));
      Emit(Dup(1));
      Emit(GetItem);
      EmitExpr(rhs);
      Emit(BinaryOp(op));
      Emit(SetItem);
      Assoc(start, p.0, i.0);
      ItemJoined(start, p.0 + i.0, Dup(1), GetItem, r.0, BinaryOp(op), SetItem);
    }

    static lemma FieldJoined(start: seq<Instr>, p: seq<Instr>, x: Instr, y: Instr, r: seq<Instr>, z: Instr, w: Instr)
      ensures start + p + [x] + [y] + r + [z] + [w] == start + (p + [x, y] + r + [z, w])
    {
    }

    static lemma ItemJoined(start: seq<Instr>, p: seq<Instr>, x: Instr, y: Instr, r: seq<Instr>, z: Instr, w: Instr)
      ensures start + p + [x] + [x] + [y] + r + [z] + [w] == start + (p + [x, x, y] + r + [z, w])
    {
    }

    method EmitStmt(s: Stmt)
      modifies this
      ensures var part := StmtCode(old(Context()), s);
              code == old(code) + part.0 && Context() == part.1
      decreases s, 1
    {
      hide ExprCode, StoreCode, AssignCode, AugCode;
      match s
      case ExprStmt(e) =>
        EmitExpr(e);
        Emit(Pop(1));
        Assoc(old(code), ExprCode(old(Context()), e).0, [Pop(1)]);
      case Assign(lhs, rhs) => EmitAssign(lhs, rhs);
      case Aug(lhs, op, rhs) => EmitAug(lhs, op, rhs);
      case ScopeStmt(vars) => globals := globals + set id | id in vars;
      case Block(body) => EmitStmts(body);
      case If(_, _, _) => EmitIf(s);
      case While(_, _) => EmitWhile(s);
      case For(_, _, _, _) => EmitFor(s);
      case ThrowStmt(e) =>
        EmitExpr(e);
        Emit(Throw);
        Assoc(old(code), ExprCode(old(Context()), e).0, [Throw]);
      case Try(_, _, _) => EmitTry(s);
    }

    method EmitStmts(body: seq<Stmt>)
      modifies this
      ensures var part := StmtsCode(old(Context()), body);
              code == old(code) + part.0 && Context() == part.1
      decreases body, 1
    {
      hide StmtCode;
      if body != [] {
        ghost var first := StmtCode(Context(), body[0]);
        ghost var rest := StmtsCode(first.1, body[1..]);
        EmitStmt(body[0]);
        EmitStmts(body[1..]);
        Assoc(old(code), first.0, rest.0);
      }
    }

    method EmitOption(s: Option<Stmt>)
      modifies this
      ensures var part := OptionCode(old(Context()), s);
              code == old(code) + part.0 && Context() == part.1
      decreases s, 1
    {
      hide StmtCode;
      if s.Some? {
        EmitStmt(s.value);
      }
    }

    /** The jumps go to 0 until it is known where the branches end. */
    method EmitIf(s: Stmt)
      requires s.If?
      modifies this
      ensures var part := StmtCode(old(Context()), s);
              code == old(code) + part.0 && Context() == part.1
      decreases s, 0
    {
      hide StmtCode, OptionCode, ExprCode, Size, IndexAt;
      ghost var (k, c1) := ExprCode(Context(), s.cond);
      ghost var (y, c2) := StmtCode(c1, s.yes);
      ghost var (e, _) := OptionCode(c2, s.no);
      IfCode(Context(), s.cond, s.yes, s.no);
      ghost var front := code + k;
      EmitExpr(s.cond);
      var jfalse := Size(code);
      Emit(JumpIfFalse(0));
      EmitStmt(s.yes);
      if s.no.Some? {
        var jend := Size(code);
        Emit(Jump(0));
        Assoc(front + [JumpIfFalse(0)], y, [Jump(0)]);
        PatchToEnd(front, JumpIfFalse(0), y + [Jump(0)], jfalse);
        SizeAppend(y, [Jump(0)]);
        SizeOne([Jump(0)]);
        ghost var mid := front + [JumpIfFalse(Size(y) + JUMP)] + y;
        Assoc(front + [JumpIfFalse(Size(y) + JUMP)], y, [Jump(0)]);
        SameSize(front, JumpIfFalse(0), JumpIfFalse(Size(y) + JUMP), y);
        EmitOption(s.no);
        PatchToEnd(mid, Jump(0), e, jend);
        Joined(old(code), k, [JumpIfFalse(Size(y) + JUMP)], y);
        Joined(old(code), k + [JumpIfFalse(Size(y) + JUMP)] + y, [Jump(Size(e))], e);
      } else {
        PatchToEnd(front, JumpIfFalse(0), y, jfalse);
        Joined(old(code), k, [JumpIfFalse(Size(y))], y);
      }
    }

    static lemma SameSize(front: seq<Instr>, i: Instr, j: Instr, back: seq<Instr>)
      requires Width(i) == Width(j)
      ensures Size(front + [i] + back) == Size(front + [j] + back) == Size(front) + Width(i) + Size(back)
    {
      SizeAppend(front, [i]);
      SizeAppend(front, [j]);
      SizeAppend(front + [i], back);
      SizeAppend(front + [j], back);
      SizeOne([i]);
      SizeOne([j]);
    }

    method EmitWhile(s: Stmt)
      requires s.While?
      modifies this
      ensures var part := StmtCode(old(Context()), s);
              code == old(code) + part.0 && Context() == part.1
      decreases s, 0
    {
      hide StmtCode, ExprCode, Size, IndexAt, LoopParts;
      ghost var (k, c1) := ExprCode(Context(), s.cond);
      ghost var b := StmtCode(c1, s.loop).0;
      ghost var front := code + k;
      WhileCode(Context(), s.cond, s.loop);
      var top := Size(code);
      EmitExpr(s.cond);
      var exitj := Size(code);
      Emit(JumpIfFalse(0));
      EmitStmt(s.loop);
      assert b + [] == b;
      EmitBack(old(code), k, b, [], top, exitj);
    }

    /** The two patches at the end of a loop. */
    method EmitBack(
        ghost front: seq<Instr>, ghost k: seq<Instr>, ghost b: seq<Instr>, ghost n: seq<Instr>, top: int, exitj: int)
      requires code == front + k + [JumpIfFalse(0)] + b + n && top == Size(front) && exitj == Size(front + k)
      modifies `code
      ensures code == front + LoopParts(k, b, n)
    {
      hide Size, IndexAt;
      var jmp := Size(code);
      Emit(Jump(0));
      ghost var all := front + k + [JumpIfFalse(0)] + b + n;
      assert all + [Jump(0)] + [] == all + [Jump(0)];
      PatchBehind(all, Jump(0), [], jmp, top);
      ghost var back := Jump(top - (jmp + JUMP));
      assert all + [back] + [] == all + [back];
      Joined(front + k + [JumpIfFalse(0)], b, n, [back]);
      PatchToEnd(front + k, JumpIfFalse(0), b + n + [back], exitj);
      LoopSize(front, k, b, n, back);
      ghost var round := Size(b) + Size(n) + JUMP;
      LoopJoined(front, k, JumpIfFalse(round), b, n, back);
    }

    static lemma LoopSize(front: seq<Instr>, k: seq<Instr>, b: seq<Instr>, n: seq<Instr>, back: Instr)
      requires Width(back) == JUMP
      ensures Size(b + n + [back]) == Size(b) + Size(n) + JUMP
      ensures Size(front + k + [JumpIfFalse(0)] + b + n) == Size(front) + Size(k) + JUMP + Size(b) + Size(n)
    {
      hide Size;
      SizeAppend(b, n);
      SizeAppend(b + n, [back]);
      SizeOne([back]);
      SizeOne([JumpIfFalse(0)]);
      SizeAppend(front, k);
      SizeAppend(front + k, [JumpIfFalse(0)]);
      SizeAppend(front + k + [JumpIfFalse(0)], b);
      SizeAppend(front + k + [JumpIfFalse(0)] + b, n);
    }

    static lemma LoopJoined(start: seq<Instr>, k: seq<Instr>, i: Instr, b: seq<Instr>, n: seq<Instr>, back: Instr)
      ensures start + k + [i] + (b + n + [back]) == start + (k + [i] + b + n + [back])
    {
    }

    method EmitFor(s: Stmt)
      requires s.For?
      modifies this
      ensures var part := StmtCode(old(Context()), s);
              code == old(code) + part.0 && Context() == part.1
      decreases s, 0
    {
      hide StmtCode, OptionCode, ExprCode, Size, IndexAt, LoopParts, M6Codegen.InternName;
      ghost var (i, c1) := OptionCode(Context(), s.init);
      ghost var (k, c2) := ExprCode(c1, Condition(s.until));
      ghost var (b, c3) := StmtCode(c2, s.loop);
      ghost var n := OptionCode(c3, s.inc).0;
      ForCode(Context(), s.init, s.until, s.inc, s.loop);
      EmitOption(s.init);
      ghost var front := code;
      var top := Size(code);
      if s.until.Some? {
        EmitExpr(s.until.value);
      } else {
        EmitConst(True);
        assert ConstCode(c1, True) == ExprCode(c1, Literal(True)) by { TrueCode(c1); }
      }
      var exitj := Size(code);
      Emit(JumpIfFalse(0));
      EmitStmt(s.loop);
      EmitOption(s.inc);
      EmitBack(front, k, b, n, top, exitj);
      Assoc(old(code), i, LoopParts(k, b, n));
    }

    static lemma TrueCode(c: Ctx)
      ensures ExprCode(c, Literal(True)) == ConstCode(c, True)
    {
    }

    method EmitTry(s: Stmt)
      requires s.Try?
      modifies this
      ensures var part := StmtCode(old(Context()), s);
              code == old(code) + part.0 && Context() == part.1
      decreases s, 0
    {
      hide StmtCode, StoreCode, Size, IndexAt;
      ghost var start := code;
      ghost var a := StmtCode(Context(), s.attempt).0;
      ghost var enter := TryBegin(Size(a) + Width(TryEnd) + JUMP);
      TryCode(Context(), s.attempt, s.catchVar, s.handler);
      var jmp := EmitAttempt(s.attempt);
      ghost var st, h := EmitHandler(s.catchVar, s.handler, start + [enter] + a + [TryEnd], jmp);
      TryJoined(start, enter, a, Jump(Size(st) + Size(h)), st, h);
    }

    /** What is tried, and the jump behind it; the handler starts at the end. */
    method EmitAttempt(attempt: Stmt) returns (jmp: int)
      modifies this
      ensures var (a, c1) := StmtCode(old(Context()), attempt);
              var front := old(code) + [TryBegin(Size(a) + Width(TryEnd) + JUMP)] + a + [TryEnd];
              code == front + [Jump(0)] && jmp == Size(front) && Context() == c1
      decreases attempt, 2
    {
      hide StmtCode, Size, IndexAt;
      ghost var start := code;
      ghost var a := StmtCode(Context(), attempt).0;
      var begin := Size(code);
      Emit(TryBegin(0));
      EmitStmt(attempt);
      Emit(TryEnd);
      jmp := Size(code);
      Emit(Jump(0));
      Joined(start + [TryBegin(0)], a, [TryEnd], [Jump(0)]);
      PatchToEnd(start, TryBegin(0), a + [TryEnd] + [Jump(0)], begin);
      TrySize(a);
      ghost var enter := TryBegin(Size(a) + Width(TryEnd) + JUMP);
      Joined(start + [enter], a, [TryEnd], [Jump(0)]);
      TryFront(start, enter, a);
    }

    /** The handler, and the jump over it in front. */
    method EmitHandler(catchVar: string, handler: Stmt, ghost front: seq<Instr>, jmp: int)
      returns (ghost st: seq<Instr>, ghost h: seq<Instr>)
      requires code == front + [Jump(0)] && jmp == Size(front)
      modifies this
      ensures var (st1, c1) := StoreCode(old(Context()), catchVar);
              var (h1, c2) := StmtCode(c1, handler);
              st == st1 && h == h1 && Context() == c2 &&
              code == front + [Jump(Size(st) + Size(h))] + (st + h)
      decreases handler, 2
    {
      hide StmtCode, StoreCode, Size, IndexAt;
      ghost var start := code;
      st := StoreCode(Context(), catchVar).0;
      EmitStoreVar(catchVar);
      h := StmtCode(Context(), handler).0;
      EmitStmt(handler);
      Assoc(start, st, h);
      PatchToEnd(front, Jump(0), st + h, jmp);
      SizeAppend(st, h);
    }

    static lemma TrySize(a: seq<Instr>)
      ensures Size(a + [TryEnd] + [Jump(0)]) == Size(a) + Width(TryEnd) + JUMP
    {
      hide Size;
      SizeAppend(a, [TryEnd]);
      SizeAppend(a + [TryEnd], [Jump(0)]);
      SizeOne([TryEnd]);
      SizeOne([Jump(0)]);
    }

    static lemma TryFront(start: seq<Instr>, enter: Instr, a: seq<Instr>)
      requires enter.TryBegin?
      ensures Size(start + [TryBegin(0)] + a + [TryEnd]) == Size(start + [enter] + a + [TryEnd])
    {
      hide Size;
      SameSize(start, TryBegin(0), enter, a);
      SizeAppend(start + [TryBegin(0)] + a, [TryEnd]);
      SizeAppend(start + [enter] + a, [TryEnd]);
    }

    static lemma TryJoined(start: seq<Instr>, enter: Instr, a: seq<Instr>, over: Instr, st: seq<Instr>, h: seq<Instr>)
      ensures start + [enter] + a + [TryEnd] + [over] + (st + h) == start + ([enter] + a + [TryEnd, over] + st + h)
    {
    }
  }
}
