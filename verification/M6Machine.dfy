/** The stack machine that runs m6 bytecode: one frame of the virtual machine, with its exception handlers. */
module M6Machine {
  import opened Bytes
  import opened Bytecode

  datatype Const = Nil | True | False | Int(value: int32) | Str(text: string)

  datatype Instr =
    | Push(index: nat)
    | Dup(depth: nat)
    | Pop(count: nat)
    | BinaryOp(op: int)
    | UnaryOp(op: int)
    | LoadFast(slot: nat)
    | StoreFast(slot: nat)
    | LoadGlobal(index: nat)
    | StoreGlobal(index: nat)
    | Jump(offset: int)
    | JumpIfFalse(offset: int)
    | Call(argcnt: nat, kwargcnt: nat)
    | MakeList(count: nat)
    | MakeDict(count: nat)
    | GetField(index: nat)
    | SetField(index: nat)
    | GetItem
    | SetItem
    | Throw
    | TryBegin(offset: int)
    | TryEnd

  /** The opcode and the operands; an instruction without operands has one byte of them. */
  function Width(i: Instr): (n: nat)
    ensures n > 0
  {
    match i
    case Dup(_) => 2
    case Pop(_) => 2
    case LoadFast(_) => 3
    case StoreFast(_) => 3
    case Call(_, _) => 9
    case GetItem => 2
    case SetItem => 2
    case Throw => 2
    case TryEnd => 2
    case _ => 5
  }

  function Size(instrs: seq<Instr>): nat {
    if instrs == [] then 0 else Width(instrs[0]) + Size(instrs[1..])
  }

  lemma {:induction false} SizeAppend(a: seq<Instr>, b: seq<Instr>)
    ensures Size(a + b) == Size(a) + Size(b)
    decreases |a|
  {
    if a == [] {
      assert a + b == b;
    } else {
      assert (a + b)[1..] == a[1..] + b;
      SizeAppend(a[1..], b);
    }
  }

  lemma SizeOne(part: seq<Instr>)
    requires |part| == 1
    ensures Size(part) == Width(part[0])
  {
    assert part[1..] == [];
  }

  // ------------------------------------------------------------------------------------------ values

  datatype Result<+V, +W> = Done(value: V, world: W) | Raise(exc: V, world: W)

  /** Values and everything outside of the frame, of which the machine knows no more than these operations. Most may
      raise an exception; those that call script code have run it when they return. `bound` is the function that a call
      of a value ends in, and the arguments that stand in front of those of the call: the object of a class, the
      receivers of a bound method. `call` is given the callee, what the function finds itself as, followed by its
      arguments, and the keywords. `dispatches` says whether item assignment to a value calls a method of it. */
  datatype Ops<!V, !W> = Ops(
    constant: Const -> V,
    truthy: V -> bool,
    unary: (int, V, W) -> Result<V, W>,
    binary: (int, V, V, W) -> Result<V, W>,
    bound: (V, W) -> (V, seq<V>),
    call: (V, seq<V>, seq<V>, W) -> Result<V, W>,
    makeList: (seq<V>, W) -> Result<V, W>,
    makeDict: (seq<V>, W) -> Result<V, W>,
    getField: (V, string, W) -> Result<V, W>,
    setField: (V, string, V, W) -> Result<V, W>,
    getItem: (V, V, W) -> Result<V, W>,
    dispatches: (V, W) -> bool,
    setItem: (V, V, V, W) -> Result<V, W>,
    loadGlobal: (string, W) -> Result<V, W>,
    storeGlobal: (string, V, W) -> W,
    unbound: string -> V)

  // ------------------------------------------------------------------------------------------ machine

  datatype Code = Code(instrs: seq<Instr>, pool: seq<Const>, fastLocals: seq<string>)

  datatype Handler = Handler(ip: int, top: nat)

  datatype State<V, W> = State(stack: seq<V>, locals: map<nat, V>, handlers: seq<Handler>, world: W)

  datatype Config<V, W> =
    | Running(ip: int, s: State<V, W>)
    | Raising(exc: V, s: State<V, W>)
    | Ended(s: State<V, W>)
    | Uncaught(exc: V, world: W)
    | Stuck

  /** The instruction that starts at byte `ip`. */
  function Fetch(instrs: seq<Instr>, ip: int): Option<Instr> {
    if instrs == [] || ip < 0 then None
    else if ip == 0 then Some(instrs[0])
    else Fetch(instrs[1..], ip - Width(instrs[0]))
  }

  function Top<V>(stack: seq<V>, n: nat): seq<V>
    requires n <= |stack|
  {
    stack[|stack| - n..]
  }

  function Below<V>(stack: seq<V>, n: nat): seq<V>
    requires n <= |stack|
  {
    stack[..|stack| - n]
  }

  /** The top `n` values make room for the result. */
  function Replace<V, W>(ip: int, s: State<V, W>, n: nat, r: Result<V, W>): Config<V, W>
    requires n <= |s.stack|
  {
    match r
    case Done(v, world) => Running(ip, s.(stack := Below(s.stack, n) + [v], world := world))
    case Raise(exc, world) => Raising(exc, s.(stack := Below(s.stack, n), world := world))
  }

  /** They go, and what the operation returns is of no interest. */
  function Consume<V, W>(ip: int, s: State<V, W>, n: nat, r: Result<V, W>): Config<V, W>
    requires n <= |s.stack|
  {
    match r
    case Done(_, world) => Running(ip, s.(stack := Below(s.stack, n), world := world))
    case Raise(exc, world) => Raising(exc, s.(stack := Below(s.stack, n), world := world))
  }

  function NameAt(pool: seq<Const>, index: nat): Option<string> {
    if index < |pool| && pool[index].Str? then Some(pool[index].text) else None
  }

  /** How many values an instruction looks at. */
  function Needs(i: Instr): nat {
    match i
    case Dup(depth) => depth + 1
    case Pop(count) => count
    case BinaryOp(_) => 2
    case UnaryOp(_) => 1
    case StoreFast(_) => 1
    case StoreGlobal(_) => 1
    case JumpIfFalse(_) => 1
    case Call(argcnt, kwargcnt) => argcnt + 2 * kwargcnt + 1
    case MakeList(count) => count
    case MakeDict(count) => 2 * count
    case GetField(_) => 1
    case SetField(_) => 2
    case GetItem => 2
    case SetItem => 3
    case Throw => 1
    case _ => 0
  }

  /** The slot of the callee: a class or a bound method puts the function there, and its own arguments behind it. */
  function Front<V, W>(ops: Ops<V, W>, f: V, slot: V, w: W): (r: seq<V>)
    ensures |r| == 1 + |ops.bound(f, w).1|
  {
    var (method_, front) := ops.bound(f, w);
    if front == [] then [slot] else [method_] + front
  }

  /** A count as the callee gets it. */
  function ToByte(n: nat): (b: nat)
    ensures b <= n && b < 0x100 && (n < 0x100 ==> b == n)
  {
    n % 0x100
  }

  /** A call. The counts of the instruction are cut to a byte for the callee, and once more when that has put arguments
      in front. What the function does not take for its own stays below the result. */
  function Invoked<V, W>(ops: Ops<V, W>, ip: int, s: State<V, W>, argcnt: nat, kwargcnt: nat): Config<V, W>
    requires argcnt + 2 * kwargcnt + 1 <= |s.stack|
  {
    var top := Top(s.stack, argcnt + 2 * kwargcnt + 1);
    var (nargs, nkwargs) := (ToByte(argcnt), ToByte(kwargcnt));
    var base := |top| - nargs - 2 * nkwargs - 1;
    var front := Front(ops, top[0], top[base], s.world);
    var all := top[..base] + front + top[base + 1..];
    var keys := |all| - 2 * nkwargs;
    var self := keys - ToByte(nargs + |front| - 1) - 1;
    match ops.call(top[0], all[self..keys], all[keys..], s.world)
    case Done(v, world) => Running(ip, s.(stack := Below(s.stack, |top|) + all[..self] + [v], world := world))
    case Raise(exc, world) => Raising(exc, s.(stack := Below(s.stack, |top|), world := world))
  }

  /** One instruction; `ip` is behind it already. */
  function Execute<V, W>(ops: Ops<V, W>, code: Code, i: Instr, ip: int, s: State<V, W>): Config<V, W>
    requires Needs(i) <= |s.stack|
  {
    var top := Top(s.stack, Needs(i));
    match i
    case Push(index) =>
      if index < |code.pool| then Running(ip, s.(stack := s.stack + [ops.constant(code.pool[index])])) else Stuck
    case Dup(_) => Running(ip, s.(stack := s.stack + [top[0]]))
    case Pop(count) => Running(ip, s.(stack := Below(s.stack, count)))
    case BinaryOp(op) => Replace(ip, s, 2, ops.binary(op, top[0], top[1], s.world))
    case UnaryOp(op) => Replace(ip, s, 1, ops.unary(op, top[0], s.world))
    case LoadFast(slot) =>
      if slot in s.locals then Running(ip, s.(stack := s.stack + [s.locals[slot]]))
      else if slot < |code.fastLocals| then Raising(ops.unbound(code.fastLocals[slot]), s)
      else Stuck
    case StoreFast(slot) => Running(ip, s.(stack := Below(s.stack, 1), locals := s.locals[slot := top[0]]))
    case LoadGlobal(index) =>
      (match NameAt(code.pool, index)
       case Some(name) => Replace(ip, s, 0, ops.loadGlobal(name, s.world))
       case None => Stuck)
    case StoreGlobal(index) =>
      (match NameAt(code.pool, index)
       case Some(name) =>
         Running(ip, s.(stack := Below(s.stack, 1), world := ops.storeGlobal(name, top[0], s.world)))
       case None => Stuck)
    case Jump(offset) => Running(ip + offset, s)
    case JumpIfFalse(offset) =>
      Running(if ops.truthy(top[0]) then ip else ip + offset, s.(stack := Below(s.stack, 1)))
    case Call(argcnt, kwargcnt) => Invoked(ops, ip, s, argcnt, kwargcnt)
    case MakeList(count) => Replace(ip, s, count, ops.makeList(top, s.world))
    case MakeDict(count) => Replace(ip, s, 2 * count, ops.makeDict(top, s.world))
    case GetField(index) =>
      (match NameAt(code.pool, index)
       case Some(name) => Replace(ip, s, 1, ops.getField(top[0], name, s.world))
       case None => Stuck)
    case SetField(index) =>
      (match NameAt(code.pool, index)
       case Some(name) => Consume(ip, s, 2, ops.setField(top[0], name, top[1], s.world))
       case None => Stuck)
    case GetItem => Replace(ip, s, 2, ops.getItem(top[0], top[1], s.world))
    case SetItem =>
      var r := ops.setItem(top[0], top[1], top[2], s.world);
      if ops.dispatches(top[0], s.world) then Replace(ip, s, 3, r) else Consume(ip, s, 3, r)
    case Throw => Raising(top[0], s.(stack := Below(s.stack, 1)))
    case TryBegin(offset) => Running(ip, s.(handlers := s.handlers + [Handler(ip + offset, |s.stack|)]))
    case TryEnd => Running(ip, s.(handlers := if s.handlers == [] then [] else Below(s.handlers, 1)))
  }

  function Step<V, W>(ops: Ops<V, W>, code: Code, c: Config<V, W>): Config<V, W> {
    match c
    case Running(ip, s) =>
      (match Fetch(code.instrs, ip)
       case None => if ip == Size(code.instrs) then Ended(s) else Stuck
       case Some(i) => if Needs(i) <= |s.stack| then Execute(ops, code, i, ip + Width(i), s) else Stuck)
    case Raising(exc, s) =>
      if s.handlers == [] then Uncaught(exc, s.world)
      else
        var h := s.handlers[|s.handlers| - 1];
        if h.top <= |s.stack| then
          Running(h.ip, s.(stack := s.stack[..h.top] + [exc], handlers := Below(s.handlers, 1)))
        else Stuck
    case _ => c
  }

  function Iterate<V, W>(ops: Ops<V, W>, code: Code, c: Config<V, W>, n: nat): Config<V, W>
    decreases n
  {
    if n == 0 then c else Iterate(ops, code, Step(ops, code, c), n - 1)
  }

  /** In `least` steps or more. */
  ghost predicate Reaches<V, W>(ops: Ops<V, W>, code: Code, c: Config<V, W>, d: Config<V, W>, least: nat) {
    exists n: nat :: n >= least && Iterate(ops, code, c, n) == d
  }

  lemma {:induction false} IterateAdd<V, W>(ops: Ops<V, W>, code: Code, c: Config<V, W>, n: nat, m: nat)
    ensures Iterate(ops, code, c, n + m) == Iterate(ops, code, Iterate(ops, code, c, n), m)
    decreases n
  {
    hide Step;
    if n > 0 {
      IterateAdd(ops, code, Step(ops, code, c), n - 1, m);
    }
  }

  lemma Then<V, W>(
      ops: Ops<V, W>, code: Code, c: Config<V, W>, d: Config<V, W>, e: Config<V, W>, first: nat, second: nat)
    requires Reaches(ops, code, c, d, first) && Reaches(ops, code, d, e, second)
    ensures Reaches(ops, code, c, e, first + second)
  {
    hide Iterate;
    var n: nat :| n >= first && Iterate(ops, code, c, n) == d;
    var m: nat :| m >= second && Iterate(ops, code, d, m) == e;
    IterateAdd(ops, code, c, n, m);
  }

  lemma OneStep<V, W>(ops: Ops<V, W>, code: Code, c: Config<V, W>)
    ensures Reaches(ops, code, c, Step(ops, code, c), 1) && Reaches(ops, code, c, Step(ops, code, c), 0)
  {
    hide Step;
    assert Iterate(ops, code, c, 1) == Iterate(ops, code, Step(ops, code, c), 0);
  }

  lemma NoStep<V, W>(ops: Ops<V, W>, code: Code, c: Config<V, W>)
    ensures Reaches(ops, code, c, c, 0)
  {
    assert Iterate(ops, code, c, 0) == c;
  }

  // ------------------------------------------------------------------------------------------ code in place

  /** Do these instructions stand at byte `ip`? */
  predicate CodeAt(code: Code, ip: int, part: seq<Instr>)
    decreases |part|
  {
    part == [] || (Fetch(code.instrs, ip) == Some(part[0]) && CodeAt(code, ip + Width(part[0]), part[1..]))
  }

  lemma {:induction false} CodeAtSplit(code: Code, ip: int, a: seq<Instr>, b: seq<Instr>)
    ensures CodeAt(code, ip, a + b) <==> CodeAt(code, ip, a) && CodeAt(code, ip + Size(a), b)
    decreases |a|
  {
    hide Fetch;
    if a == [] {
      assert a + b == b;
    } else {
      assert (a + b)[1..] == a[1..] + b;
      CodeAtSplit(code, ip + Width(a[0]), a[1..], b);
    }
  }

  lemma {:induction false} FetchBehind(front: seq<Instr>, instrs: seq<Instr>)
    ensures instrs != [] ==> Fetch(front + instrs, Size(front)) == Some(instrs[0])
    decreases |front|
  {
    if front == [] {
      assert front + instrs == instrs;
    } else {
      assert (front + instrs)[1..] == front[1..] + instrs;
      FetchBehind(front[1..], instrs);
    }
  }

  /** What was emitted is found behind what had been emitted before. */
  lemma {:induction false} EmittedIsThere(code: Code, front: seq<Instr>, part: seq<Instr>, back: seq<Instr>)
    requires code.instrs == front + part + back
    ensures CodeAt(code, Size(front), part)
    decreases |part|
  {
    hide Fetch;
    if part != [] {
      assert code.instrs == front + (part + back);
      FetchBehind(front, part + back);
      assert code.instrs == (front + [part[0]]) + part[1..] + back;
      EmittedIsThere(code, front + [part[0]], part[1..], back);
      SizeAppend(front, [part[0]]);
      assert [part[0]][1..] == [];
      assert Size([part[0]]) == Width(part[0]);
    }
  }

  // ------------------------------------------------------------------------------------------ operands

  /** The sizes of the operands in bytes, one by one. */
  function OperandSizes(i: Instr): seq<nat> {
    match i
    case Push(_) => [4]
    case Dup(_) => [1]
    case Pop(_) => [1]
    case BinaryOp(_) => [4]
    case UnaryOp(_) => [4]
    case LoadFast(_) => [2]
    case StoreFast(_) => [2]
    case LoadGlobal(_) => [4]
    case StoreGlobal(_) => [4]
    case Jump(_) => [4]
    case JumpIfFalse(_) => [4]
    case Call(_, _) => [4, 4]
    case MakeList(_) => [4]
    case MakeDict(_) => [4]
    case GetField(_) => [4]
    case SetField(_) => [4]
    case TryBegin(_) => [4]
    case GetItem => []
    case SetItem => []
    case Throw => []
    case TryEnd => []
  }

  function Sum(sizes: seq<nat>): nat {
    if sizes == [] then 0 else sizes[0] + Sum(sizes[1..])
  }

  /** One byte of opcode and the operands; C++ gives a structure without any one byte. */
  lemma WidthIsOperands(i: Instr)
    ensures Width(i) == 1 + if OperandSizes(i) == [] then 1 else Sum(OperandSizes(i))
  {
    assert [4, 4][1..] == [4] && forall n: nat :: [n][1..] == [];
  }
}
