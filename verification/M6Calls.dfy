/** Calls with more arguments than a byte can count: when they spoil the stack. */
module M6Calls {
  import opened M6Machine
  import opened M6Syntax
  import opened M6Codegen
  import opened M6Context
  import opened M6Correct
  import opened M6Programs
  import opened M6Statements

  // ------------------------------------------------------------------------------------------ what a call leaves

  /** What a call leaves below its result, when the callee puts `added` arguments in front. */
  function Excess(argcnt: nat, kwargcnt: nat, added: nat): nat {
    argcnt + added - ToByte(argcnt + added) + 2 * (kwargcnt - ToByte(kwargcnt))
  }

  lemma NoExcess(argcnt: nat, kwargcnt: nat, added: nat)
    ensures Excess(argcnt, kwargcnt, added) == 0 <==> argcnt + added < 0x100 && kwargcnt < 0x100
  {
  }

  /** What all calls of an expression leave. */
  function Surplus(e: Expr, added: nat): nat
    decreases e
  {
    match e
    case Literal(_) => 0
    case Name(_) => 0
    case ListLiteral(elements) => SurplusAll(elements, added)
    case DictLiteral(entries) => SurplusEntries(entries, added)
    case Unary(_, sub) => Surplus(sub, added)
    case Binary(_, lhs, rhs) => Surplus(lhs, added) + Surplus(rhs, added)
    case Paren(sub) => Surplus(sub, added)
    case Invoke(fn, args, kwargs) =>
      Surplus(fn, added) + SurplusAll(args, added) + SurplusEntries(kwargs, added) +
      Excess(|args|, |kwargs|, added)
    case Subscript(primary, index) => Surplus(primary, added) + Surplus(index, added)
    case Member(primary, _) => Surplus(primary, added)
  }

  function SurplusAll(es: seq<Expr>, added: nat): nat
    decreases es
  {
    if es == [] then 0 else Surplus(es[0], added) + SurplusAll(es[1..], added)
  }

  function SurplusEntries(entries: seq<Entry>, added: nat): nat
    decreases entries
  {
    if entries == [] then 0 else SurplusEntry(entries[0], added) + SurplusEntries(entries[1..], added)
  }

  function SurplusEntry(entry: Entry, added: nat): nat
    decreases entry
  {
    Surplus(entry.key, added) + Surplus(entry.value, added)
  }

  // ------------------------------------------------------------------------------------------ a plain machine

  /** Values and operations that do nothing, and callees that put `added` arguments in front. */
  function Plain(added: nat): Ops<int, int> {
    Ops(
      (k: Const) => 0,
      (v: int) => true,
      (op: int, v: int, w: int) => Done(0, w),
      (op: int, l: int, r: int, w: int) => Done(0, w),
      (f: int, w: int) => (0, seq(added, i => 0)),
      (f: int, vs: seq<int>, ks: seq<int>, w: int) => Done(0, w),
      (vs: seq<int>, w: int) => Done(0, w),
      (vs: seq<int>, w: int) => Done(0, w),
      (v: int, name: string, w: int) => Done(0, w),
      (v: int, name: string, x: int, w: int) => Done(0, w),
      (v: int, i: int, w: int) => Done(0, w),
      (v: int, w: int) => false,
      (v: int, i: int, x: int, w: int) => Done(0, w),
      (name: string, w: int) => Done(0, w),
      (name: string, v: int, w: int) => w,
      (name: string) => 0)
  }

  lemma PlainFits(added: nat, argcnt: nat, kwargcnt: nat)
    ensures Fits(Plain(added), argcnt, kwargcnt) <==> Excess(argcnt, kwargcnt, added) == 0
  {
    NoExcess(argcnt, kwargcnt, added);
    assert |Plain(added).bound(0, 0).1| == added;
  }

  /** Nothing is left over if and only if all calls fit. */
  lemma {:induction false} NoSurplus(e: Expr, added: nat)
    ensures Surplus(e, added) == 0 <==> CallsFit(Plain(added), e)
    decreases e, 0
  {
    hide Fits, Excess, Plain;
    match e
    case Literal(_) =>
    case Name(_) =>
    case ListLiteral(elements) => NoSurplusAll(elements, added);
    case DictLiteral(entries) => NoSurplusEntries(entries, added);
    case Unary(_, sub) => NoSurplus(sub, added);
    case Binary(_, lhs, rhs) =>
      NoSurplus(lhs, added);
      NoSurplus(rhs, added);
    case Paren(sub) => NoSurplus(sub, added);
    case Invoke(fn, args, kwargs) =>
      PlainFits(added, |args|, |kwargs|);
      NoSurplus(fn, added);
      NoSurplusAll(args, added);
      NoSurplusEntries(kwargs, added);
    case Subscript(primary, index) =>
      NoSurplus(primary, added);
      NoSurplus(index, added);
    case Member(primary, _) => NoSurplus(primary, added);
  }

  lemma {:induction false} NoSurplusAll(es: seq<Expr>, added: nat)
    ensures SurplusAll(es, added) == 0 <==> forall x <- es :: CallsFit(Plain(added), x)
    decreases es, 1
  {
    hide Surplus, CallsFit, Plain;
    if es != [] {
      NoSurplus(es[0], added);
      NoSurplusAll(es[1..], added);
      assert es == [es[0]] + es[1..];
    }
  }

  lemma {:induction false} NoSurplusEntries(entries: seq<Entry>, added: nat)
    ensures SurplusEntries(entries, added) == 0 <==> forall x <- entries :: EntryFits(Plain(added), x)
    decreases entries, 1
  {
    hide SurplusEntry, EntryFits, Plain;
    if entries != [] {
      NoSurplusEntry(entries[0], added);
      NoSurplusEntries(entries[1..], added);
      assert entries == [entries[0]] + entries[1..];
    }
  }

  lemma {:induction false} NoSurplusEntry(entry: Entry, added: nat)
    ensures SurplusEntry(entry, added) == 0 <==> EntryFits(Plain(added), entry)
    decreases entry, 1
  {
    hide Surplus, CallsFit, Plain;
    NoSurplus(entry.key, added);
    NoSurplus(entry.value, added);
  }

  // ------------------------------------------------------------------------------------------ heights

  /** From `ip` to `end` a stack of `least` values or more grows by so many, and nothing else of the frame changes. */
  ghost predicate Grows(added: nat, code: Code, ip: int, s: State<int, int>, end: int, least: int, gain: int) {
    forall stack: seq<int> | |stack| >= least :: GrowsTo(added, code, ip, s, end, stack, |stack| + gain)
  }

  ghost predicate GrowsTo(
      added: nat, code: Code, ip: int, s: State<int, int>, end: int, stack: seq<int>, height: int)
  {
    exists last: seq<int> :: |last| == height &&
      Reaches(Plain(added), code, Running(ip, s.(stack := stack)), Running(end, s.(stack := last)), 0)
  }

  lemma GrowsToThen(
      added: nat, code: Code, ip: int, s: State<int, int>, mid: int, stack: seq<int>, height: int, end: int, gain: int)
    requires GrowsTo(added, code, ip, s, mid, stack, height)
    requires forall middle: seq<int> | |middle| == height :: GrowsTo(added, code, mid, s, end, middle, height + gain)
    ensures GrowsTo(added, code, ip, s, end, stack, height + gain)
  {
    hide Reaches, Plain;
    var middle: seq<int> :| |middle| == height &&
      Reaches(Plain(added), code, Running(ip, s.(stack := stack)), Running(mid, s.(stack := middle)), 0);
    assert GrowsTo(added, code, mid, s, end, middle, height + gain);
    var last: seq<int> :| |last| == height + gain &&
      Reaches(Plain(added), code, Running(mid, s.(stack := middle)), Running(end, s.(stack := last)), 0);
    Then(Plain(added), code, Running(ip, s.(stack := stack)), Running(mid, s.(stack := middle)),
         Running(end, s.(stack := last)), 0, 0);
  }

  lemma GrowsMore(
      added: nat, code: Code, ip: int, s: State<int, int>, mid: int, least: int, gain: int, end: int, least': int,
      gain': int)
    requires Grows(added, code, ip, s, mid, least, gain) && Grows(added, code, mid, s, end, least', gain')
    requires least + gain >= least'
    ensures Grows(added, code, ip, s, end, least, gain + gain')
  {
    hide GrowsTo;
    forall stack: seq<int> | |stack| >= least
      ensures GrowsTo(added, code, ip, s, end, stack, |stack| + (gain + gain'))
    {
      var height := |stack| + gain;
      forall middle: seq<int> | |middle| == height ensures GrowsTo(added, code, mid, s, end, middle, height + gain') {
        assert GrowsTo(added, code, mid, s, end, middle, |middle| + gain');
      }
      GrowsToThen(added, code, ip, s, mid, stack, height, end, gain');
      assert height + gain' == |stack| + (gain + gain');
    }
  }

  lemma GrowsNothing(added: nat, code: Code, ip: int, s: State<int, int>)
    ensures Grows(added, code, ip, s, ip, 0, 0)
  {
    hide Reaches, Plain;
    forall stack: seq<int> ensures GrowsTo(added, code, ip, s, ip, stack, |stack|) {
      NoStep(Plain(added), code, Running(ip, s.(stack := stack)));
    }
  }

  /** An operator that takes the last values of a part. */
  function Gain(i: Instr, added: nat): int {
    1 - Needs(i) + if i.Call? then Excess(i.argcnt, i.kwargcnt, added) else 0
  }

  lemma OperatorGrows(added: nat, code: Code, ip: int, s: State<int, int>, i: Instr)
    requires CodeAt(code, ip, [i]) && IsOperator(code.pool, i)
    ensures Grows(added, code, ip, s, ip + Width(i), Needs(i), Gain(i, added))
  {
    hide Reaches, Fetch, Width, Needs, Execute, Gain, IsOperator, Plain;
    CodeAtOne(code, ip, i);
    forall stack: seq<int> | |stack| >= Needs(i)
      ensures GrowsTo(added, code, ip, s, ip + Width(i), stack, |stack| + Gain(i, added))
    {
      var t := s.(stack := stack);
      OneStep(Plain(added), code, Running(ip, t));
      OperatorHeight(added, code, ip + Width(i), t, i);
      var c := Step(Plain(added), code, Running(ip, t));
      assert c == Running(ip + Width(i), s.(stack := c.s.stack));
    }
  }

  lemma OperatorHeight(added: nat, code: Code, ip: int, s: State<int, int>, i: Instr)
    requires IsOperator(code.pool, i) && Needs(i) <= |s.stack|
    ensures var c := Execute(Plain(added), code, i, ip, s);
            c.Running? && c.ip == ip && |c.s.stack| == |s.stack| + Gain(i, added) && c.s == s.(stack := c.s.stack)
  {
    if i.Call? {
      var ops := Plain(added);
      PlainCalls(added);
      hide Plain, Invoked;
      CallHeight(ops, ip, s, i.argcnt, i.kwargcnt, added);
    } else {
      hide NameAt, Invoked;
    }
  }

  lemma PlainCalls(added: nat)
    ensures forall f: int, w: int :: |Plain(added).bound(f, w).1| == added
    ensures forall f: int, vs: seq<int>, ks: seq<int>, w: int :: Plain(added).call(f, vs, ks, w) == Done(0, w)
  {
  }

  /** On any machine, a call that returns leaves its result and the excess. */
  lemma CallHeight<V(!new), W(!new)>(
      ops: Ops<V, W>, ip: int, s: State<V, W>, argcnt: nat, kwargcnt: nat, added: nat)
    requires argcnt + 2 * kwargcnt + 1 <= |s.stack|
    requires forall f: V, w: W :: |ops.bound(f, w).1| == added
    ensures match Invoked(ops, ip, s, argcnt, kwargcnt)
            case Running(next, t) =>
              next == ip && t == s.(stack := t.stack, world := t.world) &&
              |t.stack| == |s.stack| - argcnt - 2 * kwargcnt + Excess(argcnt, kwargcnt, added)
            case Raising(_, _) => true
            case _ => false
    ensures (forall f: V, vs: seq<V>, ks: seq<V>, w: W :: ops.call(f, vs, ks, w).Done? &&
               ops.call(f, vs, ks, w).world == w) ==>
              Invoked(ops, ip, s, argcnt, kwargcnt).Running? && Invoked(ops, ip, s, argcnt, kwargcnt).s.world == s.world
  {
    Remainders(argcnt, added);
    hide ToByte, Front;
  }

  /** A call with 256 arguments of a function that stands for itself: it is run with none, finds the last of them where
      it looks for itself, and all others and the function are left below the result. */
  lemma ArgumentsLost<V(!new), W(!new)>(ops: Ops<V, W>, ip: int, s: State<V, W>)
    requires |s.stack| >= 257 && ops.bound(s.stack[|s.stack| - 257], s.world).1 == []
    ensures var last := |s.stack| - 1;
            Invoked(ops, ip, s, 256, 0) ==
            match ops.call(s.stack[last - 256], [s.stack[last]], [], s.world)
            case Done(v, world) => Running(ip, s.(stack := s.stack[..last] + [v], world := world))
            case Raise(exc, world) => Raising(exc, s.(stack := s.stack[..last - 256], world := world))
  {
    var last := |s.stack| - 1;
    var top := s.stack[last - 256..];
    var all := top[..256] + [top[256]] + top[257..];
    assert top[257..] == [] && all == top;
    assert all[256..257] == [s.stack[last]] && all[257..] == [];
    assert s.stack[..last - 256] + top[..256] == s.stack[..last];
  }

  lemma Remainders(argcnt: nat, added: nat)
    ensures ToByte(ToByte(argcnt) + added) == ToByte(argcnt + added)
  {
  }

  lemma LoadGrows(added: nat, code: Code, ip: int, s: State<int, int>, i: Instr)
    requires CodeAt(code, ip, [i])
    requires (i.Push? && i.index < |code.pool|) || (i.LoadFast? && i.slot in s.locals) ||
             (i.LoadGlobal? && NameAt(code.pool, i.index).Some?)
    ensures Grows(added, code, ip, s, ip + Width(i), 0, 1)
  {
    hide Reaches, Fetch;
    CodeAtOne(code, ip, i);
    forall stack: seq<int> ensures GrowsTo(added, code, ip, s, ip + Width(i), stack, |stack| + 1) {
      var t := s.(stack := stack);
      OneStep(Plain(added), code, Running(ip, t));
      assert stack[..|stack|] == stack;
      var v := if i.LoadFast? then s.locals[i.slot] else 0;
      assert Step(Plain(added), code, Running(ip, t)) == Running(ip + Width(i), s.(stack := stack + [v]));
    }
  }

  // ------------------------------------------------------------------------------------------ expressions

  ghost predicate AllBound(final: Ctx, s: State<int, int>) {
    forall x <- final.locals :: final.locals[x] in s.locals
  }

  /** On the plain machine the code of every expression runs to its end, with one value more on the stack and whatever
      its calls have left. */
  lemma {:induction false} ExprHeight(
      added: nat, final: Ctx, code: Code, ip: int, c: Ctx, e: Expr, s: State<int, int>)
    requires InPlace(code, final, ip, ExprCode(c, e)) && AllBound(final, s)
    ensures Grows(added, code, ip, s, ip + Size(ExprCode(c, e).0), 0, 1 + Surplus(e, added))
    decreases e, 1
  {
    hide Grows, InPlace, Size, Extends, ConstCode, LoadCode, AllBound, InternName, Excess;
    match e
    case Literal(_) => LeafHeight(added, final, code, ip, c, e, s);
    case Name(_) => LeafHeight(added, final, code, ip, c, e, s);
    case ListLiteral(_) => LiteralHeight(added, final, code, ip, c, e, s);
    case DictLiteral(_) => LiteralHeight(added, final, code, ip, c, e, s);
    case Unary(op, sub) =>
      var (part, c1) := ExprCode(c, sub);
      ExprHeight(added, final, code, ip, c, sub, s) by { Before(code, final, ip, part, c1, UnaryOp(op)); }
      ExtendsItself(c1);
      Operates(added, final, code, ip, part, c1, UnaryOp(op), c1, s, 1 + Surplus(sub, added));
    case Binary(op, lhs, rhs) => TwoHeight(added, final, code, ip, c, e, lhs, rhs, BinaryOp(op), s);
    case Paren(sub) => ExprHeight(added, final, code, ip, c, sub, s);
    case Invoke(fn, args, kwargs) => InvokeHeight(added, final, code, ip, c, fn, args, kwargs, s);
    case Subscript(primary, index) => TwoHeight(added, final, code, ip, c, e, primary, index, GetItem, s);
    case Member(primary, member) =>
      var (part, c1) := ExprCode(c, primary);
      var (i, c2) := InternName(c1, member);
      NameGrows(c1, member);
      Parts(code, final, ip, part, c1, [GetField(i)], c2);
      NameInPool(code, final, c1, member) by { FinalOf(code, final, ip + Size(part), ([GetField(i)], c2)); }
      ExprHeight(added, final, code, ip, c, primary, s);
      Operates(added, final, code, ip, part, c1, GetField(i), c2, s, 1 + Surplus(primary, added));
  }

  lemma {:induction false} LiteralHeight(
      added: nat, final: Ctx, code: Code, ip: int, c: Ctx, e: Expr, s: State<int, int>)
    requires InPlace(code, final, ip, ExprCode(c, e)) && AllBound(final, s) && (e.ListLiteral? || e.DictLiteral?)
    ensures Grows(added, code, ip, s, ip + Size(ExprCode(c, e).0), 0, 1 + Surplus(e, added))
    decreases e, 0
  {
    hide Grows, InPlace, Size, Extends, ExprsCode, EntriesCode, AllBound, SurplusAll, SurplusEntries;
    match e
    case ListLiteral(elements) =>
      var (part, c1) := ExprsCode(c, elements);
      Before(code, final, ip, part, c1, MakeList(|elements|));
      ExprsHeight(added, final, code, ip, c, elements, s);
      ExtendsItself(c1);
      Operates(added, final, code, ip, part, c1, MakeList(|elements|), c1, s, |elements| + SurplusAll(elements, added));
    case DictLiteral(entries) =>
      var (part, c1) := EntriesCode(c, entries);
      Before(code, final, ip, part, c1, MakeDict(|entries|));
      EntriesHeight(added, final, code, ip, c, entries, s);
      ExtendsItself(c1);
      Operates(added, final, code, ip, part, c1, MakeDict(|entries|), c1, s,
               2 * |entries| + SurplusEntries(entries, added));
  }

  /** A part, and the operator behind it that takes at most what the part has put on the stack. */
  lemma Operates(
      added: nat, final: Ctx, code: Code, ip: int, part: seq<Instr>, c: Ctx, i: Instr, d: Ctx, s: State<int, int>,
      gain: nat)
    requires InPlace(code, final, ip, (part + [i], d)) && Extends(c, d) && IsOperator(code.pool, i)
    requires Grows(added, code, ip, s, ip + Size(part), 0, gain) && Needs(i) <= gain
    ensures Grows(added, code, ip, s, ip + Size(part + [i]), 0, gain + Gain(i, added))
  {
    hide Grows, InPlace, Size, Extends, IsOperator, Needs, Gain, CodeAt;
    Parts(code, final, ip, part, c, [i], d);
    OperatorGrows(added, code, ip + Size(part), s, i);
    GrowsMore(added, code, ip, s, ip + Size(part), 0, gain, ip + Size(part + [i]), Needs(i), Gain(i, added));
  }

  lemma Before(code: Code, final: Ctx, ip: int, part: seq<Instr>, c: Ctx, i: Instr)
    requires InPlace(code, final, ip, (part + [i], c))
    ensures InPlace(code, final, ip, (part, c))
  {
    ExtendsItself(c);
    Parts(code, final, ip, part, c, [i], c);
  }

  lemma LeafHeight(added: nat, final: Ctx, code: Code, ip: int, c: Ctx, e: Expr, s: State<int, int>)
    requires InPlace(code, final, ip, ExprCode(c, e)) && AllBound(final, s) && (e.Literal? || e.Name?)
    ensures Grows(added, code, ip, s, ip + Size(ExprCode(c, e).0), 0, 1)
  {
    hide Grows, Size, Fetch;
    var (part, d) := ExprCode(c, e);
    SizeOne(part);
    var i := part[0];
    assert part == [i];
    if i.LoadGlobal? {
      NameInPool(code, final, c, e.id);
    }
    LoadGrows(added, code, ip, s, i);
  }

  lemma {:induction false} TwoHeight(
      added: nat, final: Ctx, code: Code, ip: int, c: Ctx, e: Expr, a: Expr, b: Expr, i: Instr, s: State<int, int>)
    requires InPlace(code, final, ip, ExprCode(c, e)) && AllBound(final, s)
    requires (e.Binary? && (a, b, i) == (e.lhs, e.rhs, BinaryOp(e.op))) ||
             (e.Subscript? && (a, b, i) == (e.primary, e.index, GetItem))
    ensures Grows(added, code, ip, s, ip + Size(ExprCode(c, e).0), 0, 1 + Surplus(e, added))
    decreases e, 0
  {
    hide Grows, InPlace, Size, Extends, ExprCode, AllBound;
    var (l, c1) := ExprCode(c, a);
    var (r, c2) := ExprCode(c1, b);
    TwoCode(c, e, a, b, i);
    TwoParts(code, final, ip, l, c, a, r, b, [i], c2);
    ExprHeight(added, final, code, ip, c, a, s);
    ExprHeight(added, final, code, ip + Size(l), c1, b, s);
    var (left, right) := (1 + Surplus(a, added), 1 + Surplus(b, added));
    GrowsMore(added, code, ip, s, ip + Size(l), 0, left, ip + Size(l) + Size(r), 0, right);
    ExtendsItself(c2);
    SizeAppend(l, r);
    Operates(added, final, code, ip, l + r, c2, i, c2, s, left + right);
  }

  lemma {:induction false} ExprsHeight(
      added: nat, final: Ctx, code: Code, ip: int, c: Ctx, es: seq<Expr>, s: State<int, int>)
    requires InPlace(code, final, ip, ExprsCode(c, es)) && AllBound(final, s)
    ensures Grows(added, code, ip, s, ip + Size(ExprsCode(c, es).0), 0, |es| + SurplusAll(es, added))
    decreases es, 0
  {
    hide Grows, InPlace, Size, Extends, ExprCode, ExprsCode, AllBound, Surplus;
    ExprsUnfold(c, es);
    if es == [] {
      GrowsNothing(added, code, ip, s);
      SizeNothing();
    } else {
      var (l, c1) := ExprCode(c, es[0]);
      var (r, c2) := ExprsCode(c1, es[1..]);
      ExprGrows(c, es[0]);
      ExprsGrow(c1, es[1..]);
      Parts(code, final, ip, l, c1, r, c2);
      ExprHeight(added, final, code, ip, c, es[0], s);
      ExprsHeight(added, final, code, ip + Size(l), c1, es[1..], s);
      GrowsMore(added, code, ip, s, ip + Size(l), 0, 1 + Surplus(es[0], added), ip + Size(l) + Size(r), 0,
                |es| - 1 + SurplusAll(es[1..], added));
    }
  }

  lemma {:induction false} EntriesHeight(
      added: nat, final: Ctx, code: Code, ip: int, c: Ctx, entries: seq<Entry>, s: State<int, int>)
    requires InPlace(code, final, ip, EntriesCode(c, entries)) && AllBound(final, s)
    ensures Grows(added, code, ip, s, ip + Size(EntriesCode(c, entries).0), 0,
                  2 * |entries| + SurplusEntries(entries, added))
    decreases entries, 0
  {
    hide Grows, InPlace, Size, Extends, EntryCode, EntriesCode, AllBound, SurplusEntry;
    EntriesUnfold(c, entries);
    if entries == [] {
      GrowsNothing(added, code, ip, s);
      SizeNothing();
    } else {
      var (l, c1) := EntryCode(c, entries[0]);
      var (r, c2) := EntriesCode(c1, entries[1..]);
      EntryGrows(c, entries[0]);
      EntriesGrow(c1, entries[1..]);
      Parts(code, final, ip, l, c1, r, c2);
      EntryHeight(added, final, code, ip, c, entries[0], s);
      EntriesHeight(added, final, code, ip + Size(l), c1, entries[1..], s);
      GrowsMore(added, code, ip, s, ip + Size(l), 0, 2 + SurplusEntry(entries[0], added), ip + Size(l) + Size(r), 0,
                2 * (|entries| - 1) + SurplusEntries(entries[1..], added));
    }
  }

  lemma {:induction false} EntryHeight(
      added: nat, final: Ctx, code: Code, ip: int, c: Ctx, entry: Entry, s: State<int, int>)
    requires InPlace(code, final, ip, EntryCode(c, entry)) && AllBound(final, s)
    ensures Grows(added, code, ip, s, ip + Size(EntryCode(c, entry).0), 0, 2 + SurplusEntry(entry, added))
    decreases entry, 0
  {
    hide Grows, InPlace, Size, Extends, ExprCode, AllBound, Surplus;
    var (l, c1) := ExprCode(c, entry.key);
    var (r, c2) := ExprCode(c1, entry.value);
    ExprGrows(c, entry.key);
    ExprGrows(c1, entry.value);
    Parts(code, final, ip, l, c1, r, c2);
    ExprHeight(added, final, code, ip, c, entry.key, s);
    ExprHeight(added, final, code, ip + Size(l), c1, entry.value, s);
    GrowsMore(added, code, ip, s, ip + Size(l), 0, 1 + Surplus(entry.key, added), ip + Size(l) + Size(r), 0,
              1 + Surplus(entry.value, added));
  }

  lemma {:induction false} InvokeHeight(
      added: nat, final: Ctx, code: Code, ip: int, c: Ctx, fn: Expr, args: seq<Expr>, kwargs: seq<Entry>,
      s: State<int, int>)
    requires InPlace(code, final, ip, ExprCode(c, Invoke(fn, args, kwargs))) && AllBound(final, s)
    ensures Grows(added, code, ip, s, ip + Size(ExprCode(c, Invoke(fn, args, kwargs)).0), 0,
                  1 + Surplus(Invoke(fn, args, kwargs), added))
    decreases Invoke(fn, args, kwargs), 0
  {
    hide Grows, InPlace, Size, Extends, ExprCode, ExprsCode, EntriesCode, AllBound, Excess, SurplusAll, SurplusEntries;
    var (f, c1) := ExprCode(c, fn);
    var (a, c2) := ExprsCode(c1, args);
    var (k, c3) := EntriesCode(c2, kwargs);
    var i := Call(|args|, |kwargs|);
    InvokeCode(c, fn, args, kwargs);
    ExprGrows(c, fn);
    ExprsGrow(c1, args);
    EntriesGrow(c2, kwargs);
    ExtendsItself(c3);
    Parts(code, final, ip, f + a + k, c3, [i], c3);
    Parts(code, final, ip, f + a, c2, k, c3);
    Parts(code, final, ip, f, c1, a, c2);
    ExprHeight(added, final, code, ip, c, fn, s);
    ExprsHeight(added, final, code, ip + Size(f), c1, args, s);
    EntriesHeight(added, final, code, ip + Size(f + a), c2, kwargs, s);
    var first := 1 + Surplus(fn, added);
    var second := |args| + SurplusAll(args, added);
    var third := 2 * |kwargs| + SurplusEntries(kwargs, added);
    GrowsMore(added, code, ip, s, ip + Size(f), 0, first, ip + Size(f + a), 0, second);
    GrowsMore(added, code, ip, s, ip + Size(f + a), 0, first + second, ip + Size(f + a + k), 0, third);
    Operates(added, final, code, ip, f + a + k, c3, i, c3, s, first + second + third);
  }

  // ------------------------------------------------------------------------------------------ whole expressions

  lemma Settles<V(!new), W(!new)>(
      ops: Ops<V, W>, code: Code, c: Config<V, W>, d: Config<V, W>, e: Config<V, W>)
    requires Reaches(ops, code, c, d, 0) && Reaches(ops, code, c, e, 0)
    requires Step(ops, code, d) == d && Step(ops, code, e) == e
    ensures d == e
  {
    hide Step, Iterate;
    var n: nat :| Iterate(ops, code, c, n) == d;
    var m: nat :| Iterate(ops, code, c, m) == e;
    IterateAdd(ops, code, c, n, m);
    IterateAdd(ops, code, c, m, n);
    Stays(ops, code, d, m);
    Stays(ops, code, e, n);
  }

  lemma {:induction false} Stays<V(!new), W(!new)>(ops: Ops<V, W>, code: Code, c: Config<V, W>, n: nat)
    requires Step(ops, code, c) == c
    ensures Iterate(ops, code, c, n) == c
    decreases n
  {
    hide Step;
    if n > 0 {
      Stays(ops, code, c, n - 1);
    }
  }

  /** Where the machine stops when the code of an expression is all there is. */
  lemma EndsThere<V(!new), W(!new)>(ops: Ops<V, W>, code: Code, t: State<V, W>, u: State<V, W>)
    requires Reaches(ops, code, Running(0, t), Running(Size(code.instrs), u), 0)
    ensures Reaches(ops, code, Running(0, t), Ended(u), 0)
  {
    hide Reaches, Fetch;
    NothingBehind(code.instrs, Size(code.instrs));
    OneStep(ops, code, Running(Size(code.instrs), u));
    Then(ops, code, Running(0, t), Running(Size(code.instrs), u), Ended(u), 0, 0);
  }

  /** With all names bound, the code of an expression brings its value on the plain machine if and only if all calls in
      it fit. */
  lemma ValueIfCallsFit(added: nat, c: Ctx, e: Expr, env: map<string, int>, t: State<int, int>)
    requires WellFormed(c) && ExprCode(c, e).1.ok && t.handlers == []
    requires Matches(ExprCode(c, e).1, env, t.locals) && AllBound(ExprCode(c, e).1, t)
    ensures var (instrs, final) := ExprCode(c, e);
            var code := Code(instrs, final.pool, final.fastLocals);
            Brings(Plain(added), code, 0, t, Size(instrs), One(Eval(Plain(added), c.Scope(), env, e, t.world))) <==>
            CallsFit(Plain(added), e)
  {
    hide Matches, Reaches, ExprCode, AllBound, Fetch, Plain, Eval, CallsFit, Surplus, Size, Brings, GrowsTo;
    var (instrs, final) := ExprCode(c, e);
    var code := Code(instrs, final.pool, final.fastLocals);
    var ops := Plain(added);
    ExprGrows(c, e);
    ExtendsItself(final);
    assert instrs == [] + instrs + [];
    EmittedIsThere(code, [], instrs, []);
    SizeNothing();
    NoSurplus(e, added);
    if CallsFit(ops, e) {
      ExprRuns(ops, final, code, 0, c, e, env, t);
    } else {
      ExprHeight(added, final, code, 0, c, e, t);
      assert GrowsTo(added, code, 0, t, Size(instrs), t.stack, |t.stack| + (1 + Surplus(e, added)));
      TooHigh(added, code, t, One(Eval(ops, c.Scope(), env, e, t.world)), |t.stack| + (1 + Surplus(e, added)));
    }
  }

  /** The machine stops in one way only. */
  lemma TooHigh(added: nat, code: Code, t: State<int, int>, r: Results<int, int>, height: int)
    requires t.handlers == [] && GrowsTo(added, code, 0, t, Size(code.instrs), t.stack, height)
    requires r.AllDone? ==> height != |t.stack| + |r.values|
    ensures !Brings(Plain(added), code, 0, t, Size(code.instrs), r)
  {
    hide Reaches, Plain, Fetch, Size, Execute;
    var ops := Plain(added);
    var end := Size(code.instrs);
    var last: seq<int> :| |last| == height &&
      Reaches(ops, code, Running(0, t.(stack := t.stack)), Running(end, t.(stack := last)), 0);
    assert t.(stack := t.stack) == t;
    var u := t.(stack := last);
    EndsThere(ops, code, t, u);
    if Brings(ops, code, 0, t, end, r) {
      if r.AllDone? {
        var v := t.(stack := t.stack + r.values, world := r.world);
        EndsThere(ops, code, t, v);
        Settles(ops, code, Running(0, t), Ended(u), Ended(v));
      } else {
        hide Brings;
        var extra := BringsRaised(ops, code, 0, t, end, r.exc, r.world);
        var x := Raising(r.exc, t.(stack := t.stack + extra, world := r.world));
        OneStep(ops, code, x);
        Then(ops, code, Running(0, t), x, Uncaught(r.exc, r.world), 0, 0);
        Settles(ops, code, Running(0, t), Ended(u), Uncaught(r.exc, r.world));
      }
    }
  }
}
