/**
 An interpreter for the opcodes the transaction builders emit, after the Ethereum
 Yellow Paper (section 7 contract creation, section 8 message call, section 9 the
 machine, appendix H.2 the instruction set), with EIP-3541 (no code starting 0xEF),
 EIP-3855 (PUSH0) and EIP-6780 (SELFDESTRUCT removes only accounts created in the
 same transaction). Gas is taken to suffice; ether balances are not kept.
 None of the modelled opcodes jumps, so the program counter only moves forward.
 */
module Evm {
  import opened Bytes

  type Code = seq<Byte>

  /** Zero is not a value but an absence: only non-zero slots are present. */
  type Storage = m: map<nat, nat> | forall k :: k in m ==> m[k] != 0

  datatype Account = Account(code: Code, storage: Storage, nonce: nat)

  const EMPTY := Account([], map[], 0)

  /** What a revert rolls back. */
  datatype State = State(accounts: map<Address, Account>, created: set<Address>, doomed: map<Address, Address>) {
    function At(a: Address): Account {
      if a in accounts then accounts[a] else EMPTY
    }
    function With(a: Address, acc: Account): State {
      this.(accounts := accounts[a := acc])
    }
  }

  /** The executing account, its input, what GAS reads, and the address CREATE derives from creator and nonce. */
  datatype Env = Env(self: Address, calldata: seq<Byte>, gas: nat, derive: (Address, nat) -> Address)

  datatype Event = Event(pc: nat, op: Byte)

  datatype Machine = Machine(pc: nat, stack: seq<nat>, mem: seq<Byte>, trace: seq<Event>, st: State)

  datatype Halt = Stop | Return(data: seq<Byte>) | Revert(data: seq<Byte>) | SelfDestruct(beneficiary: Address) | Fault

  datatype Result = Next(m: Machine) | Done(how: Halt, m: Machine)

  const STACK_LIMIT := 1024

  const CODECOPY: Byte := 0x39
  const CREATE: Byte := 0xf0
  const CALL: Byte := 0xf1

  function Load(s: Storage, k: nat): nat {
    if k in s then s[k] else 0
  }

  function Store(s: Storage, k: nat, v: nat): Storage {
    if v == 0 then s - {k} else s[k := v]
  }

  /** bs[at..at+n], reading zeros past its end. */
  function Slice(bs: seq<Byte>, at: nat, n: nat): (r: seq<Byte>)
    ensures |r| == n
  {
    seq(n, i requires 0 <= i < n => if at + i < |bs| then bs[at + i] else 0)
  }

  /** bs with data written at `at`, zero-filled up to there; writing nothing does not grow it. */
  function Write(bs: seq<Byte>, at: nat, data: seq<Byte>): (r: seq<Byte>)
    ensures data != [] ==> |r| >= at + |data|
  {
    if data == [] then bs
    else
      var wide := if |bs| < at + |data| then bs + Zeros(at + |data| - |bs|) else bs;
      wide[..at] + data + wide[at + |data|..]
  }

  /** The opcodes other than CREATE and CALL. */
  function Simple(code: Code, env: Env, m: Machine): (r: Result)
    requires m.pc < |code|
    ensures r.Next? ==> r.m.pc > m.pc
  {
    var op := code[m.pc];
    var t := m.(trace := m.trace + [Event(m.pc, op)]);
    var s := m.stack;
    var n := |s|;
    if op == 0x00 then Done(Stop, t)
    else if 0x5f <= op <= 0x7f then
      if n >= STACK_LIMIT then Done(Fault, t)
      else Next(t.(pc := m.pc + 1 + (op - 0x5f), stack := s + [Word(Slice(code, m.pc + 1, op - 0x5f))]))
    else if 0x80 <= op <= 0x8f then
      var d := op - 0x7f;
      if n < d || n >= STACK_LIMIT then Done(Fault, t)
      else Next(t.(pc := m.pc + 1, stack := s + [s[n - d]]))
    else if op == 0x5a then
      if n >= STACK_LIMIT then Done(Fault, t)
      else Next(t.(pc := m.pc + 1, stack := s + [env.gas]))
    else if op == 0x35 then
      if n < 1 then Done(Fault, t)
      else Next(t.(pc := m.pc + 1, stack := s[..n - 1] + [Word(Slice(env.calldata, s[n - 1], 32))]))
    else if op == 0x3b then
      if n < 1 then Done(Fault, t)
      else Next(t.(pc := m.pc + 1, stack := s[..n - 1] + [|m.st.At(s[n - 1] % TWO_160).code|]))
    else if op == 0x50 then
      if n < 1 then Done(Fault, t)
      else Next(t.(pc := m.pc + 1, stack := s[..n - 1]))
    else if op == 0x54 then
      if n < 1 then Done(Fault, t)
      else Next(t.(pc := m.pc + 1, stack := s[..n - 1] + [Load(m.st.At(env.self).storage, s[n - 1])]))
    else if op == 0x52 then
      if n < 2 then Done(Fault, t)
      else Next(t.(pc := m.pc + 1, stack := s[..n - 2], mem := Write(m.mem, s[n - 1], ToBytes(s[n - 2], 32))))
    else if op == 0x55 then
      if n < 2 then Done(Fault, t)
      else
        var a := m.st.At(env.self);
        Next(t.(pc := m.pc + 1, stack := s[..n - 2],
                st := m.st.With(env.self, a.(storage := Store(a.storage, s[n - 1], s[n - 2])))))
    else if op == CODECOPY then
      if n < 3 then Done(Fault, t)
      else Next(t.(pc := m.pc + 1, stack := s[..n - 3], mem := Write(m.mem, s[n - 1], Slice(code, s[n - 2], s[n - 3]))))
    else if op == 0x3c then
      if n < 4 then Done(Fault, t)
      else
        var target := m.st.At(s[n - 1] % TWO_160).code;
        Next(t.(pc := m.pc + 1, stack := s[..n - 4], mem := Write(m.mem, s[n - 2], Slice(target, s[n - 3], s[n - 4]))))
    else if op == 0xf3 then
      if n < 2 then Done(Fault, t) else Done(Return(Slice(m.mem, s[n - 1], s[n - 2])), t)
    else if op == 0xfd then
      if n < 2 then Done(Fault, t) else Done(Revert(Slice(m.mem, s[n - 1], s[n - 2])), t)
    else if op == 0xff then
      if n < 1 then Done(Fault, t)
      else
        var to := s[n - 1] % TWO_160;
        Done(SelfDestruct(to), t.(st := m.st.(doomed := m.st.doomed[env.self := to])))
    else Done(Fault, t) // 0xfe INVALID, and every opcode the builders never emit
  }

  /** One instruction; `depth` is how many call levels are left below this frame. */
  function Step(code: Code, env: Env, m: Machine, depth: nat): (r: Result)
    requires m.pc < |code|
    ensures r.Next? ==> r.m.pc > m.pc
    decreases depth, |code| - m.pc, 0
  {
    var op := code[m.pc];
    var t := m.(trace := m.trace + [Event(m.pc, op)]);
    var s := m.stack;
    var n := |s|;
    if op == CREATE then
      if n < 3 then Done(Fault, t)
      else if depth == 0 then Next(t.(pc := m.pc + 1, stack := s[..n - 3] + [0]))
      else
        var (addr, st) := Create(env, m.st, Slice(m.mem, s[n - 2], s[n - 3]), depth - 1);
        Next(t.(pc := m.pc + 1, stack := s[..n - 3] + [addr], st := st))
    else if op == CALL then
      if n < 7 then Done(Fault, t)
      else if depth == 0 then Next(t.(pc := m.pc + 1, stack := s[..n - 7] + [0]))
      else
        var (ok, out, st) := Call(env, m.st, s[n - 2] % TWO_160, Slice(m.mem, s[n - 4], s[n - 5]), depth - 1);
        var copied := Slice(out, 0, if |out| < s[n - 7] then |out| else s[n - 7]);
        Next(t.(pc := m.pc + 1, stack := s[..n - 7] + [if ok then 1 else 0],
                mem := Write(m.mem, s[n - 6], copied), st := st))
    else Simple(code, env, m)
  }

  /** Runs to a halt; walking off the end of the code is a STOP. */
  function Run(code: Code, env: Env, m: Machine, depth: nat): (r: (Halt, Machine))
    decreases depth, |code| - m.pc, 1
  {
    if m.pc >= |code| then (Stop, m)
    else
      match Step(code, env, m, depth)
      case Next(m') => Run(code, env, m', depth)
      case Done(how, m') => (how, m')
  }

  function Fresh(st: State): Machine {
    Machine(0, [], [], [], st)
  }

  /** A new account at the derived address runs `init`; what it returns becomes its code. 0 on failure. */
  function Create(env: Env, st: State, init: Code, depth: nat): (r: (nat, State))
    decreases depth, |init| + 1, 2
  {
    var creator := st.At(env.self);
    var addr := env.derive(env.self, creator.nonce);
    var bumped := st.With(env.self, creator.(nonce := creator.nonce + 1));
    if bumped.At(addr) != EMPTY then (0, bumped)
    else
      var born := bumped.With(addr, Account([], map[], 1)).(created := bumped.created + {addr});
      var (how, m) := Run(init, env.(self := addr, calldata := []), Fresh(born), depth);
      match how
      case Return(code) =>
        if code != [] && code[0] == 0xef then (0, bumped)
        else (addr, m.st.With(addr, m.st.At(addr).(code := code)))
      case Stop => (addr, m.st)
      case SelfDestruct(_) => (addr, m.st)
      case Revert(_) => (0, bumped)
      case Fault => (0, bumped)
  }

  /** Runs the code of `to` on `input`; a failed call leaves the state as it was. */
  function Call(env: Env, st: State, to: Address, input: seq<Byte>, depth: nat): (r: (bool, seq<Byte>, State))
    decreases depth, |st.At(to).code| + 1, 2
  {
    var (how, m) := Run(st.At(to).code, env.(self := to, calldata := input), Fresh(st), depth);
    match how
    case Stop => (true, [], m.st)
    case SelfDestruct(_) => (true, [], m.st)
    case Return(data) => (true, data, m.st)
    case Revert(data) => (false, data, st)
    case Fault => (false, [], st)
  }

  /** End of transaction (EIP-6780): an account that destroyed itself goes only if this transaction created it. */
  function Commit(st: State): (accounts: map<Address, Account>)
    ensures forall a :: a in accounts <==> a in st.accounts && !(a in st.doomed && a in st.created)
  {
    map a | a in st.accounts && !(a in st.doomed && a in st.created) :: st.accounts[a]
  }

  // ---- Composition of straight-line code ----

  /** n instructions take m to m', none of them halting. */
  ghost predicate Reaches(code: Code, env: Env, depth: nat, m: Machine, n: nat, m': Machine)
    decreases n
  {
    if n == 0 then m == m'
    else m.pc < |code| && Step(code, env, m, depth).Next?
         && Reaches(code, env, depth, Step(code, env, m, depth).m, n - 1, m')
  }

  lemma OneStep(code: Code, env: Env, depth: nat, m: Machine, m1: Machine, n: nat, m2: Machine)
    requires m.pc < |code| && Step(code, env, m, depth) == Next(m1) && Reaches(code, env, depth, m1, n, m2)
    ensures Reaches(code, env, depth, m, n + 1, m2)
  {
    hide Step;
  }

  lemma StoppedHere(code: Code, env: Env, depth: nat, m: Machine)
    ensures Reaches(code, env, depth, m, 0, m)
  {
  }

  lemma {:induction false} ReachesThen(code: Code, env: Env, depth: nat, m: Machine, i: nat, m1: Machine, j: nat,
                                       m2: Machine)
    requires Reaches(code, env, depth, m, i, m1) && Reaches(code, env, depth, m1, j, m2)
    ensures Reaches(code, env, depth, m, i + j, m2)
    decreases i
  {
    hide Step;
    if i > 0 {
      ReachesThen(code, env, depth, Step(code, env, m, depth).m, i - 1, m1, j, m2);
    }
  }

  /** A run may be resumed from any machine it reaches. */
  lemma {:induction false} RunFrom(code: Code, env: Env, depth: nat, m: Machine, n: nat, m': Machine)
    requires Reaches(code, env, depth, m, n, m')
    ensures Run(code, env, m, depth) == Run(code, env, m', depth)
    decreases n
  {
    hide Step;
    if n > 0 {
      RunFrom(code, env, depth, Step(code, env, m, depth).m, n - 1, m');
    }
  }

  ghost predicate NoCodeCopy(trace: seq<Event>) {
    forall e :: e in trace ==> e.op != CODECOPY
  }

  /** An instruction adds itself to the trace, and one that halts stays where it is. */
  lemma StepTraces(code: Code, env: Env, m: Machine, depth: nat)
    requires m.pc < |code|
    ensures Step(code, env, m, depth).m.trace == m.trace + [Event(m.pc, code[m.pc])]
    ensures Step(code, env, m, depth).Done? ==> Step(code, env, m, depth).m.pc == m.pc
  {
  }

  /** A run only appends to its trace. */
  lemma {:induction false} TraceGrows(code: Code, env: Env, m: Machine, depth: nat)
    ensures m.trace <= Run(code, env, m, depth).1.trace
    decreases |code| - m.pc
  {
    hide Step;
    if m.pc < |code| {
      StepTraces(code, env, m, depth);
      match Step(code, env, m, depth)
      case Next(m') => TraceGrows(code, env, m', depth);
      case Done(_, _) =>
    }
  }

  /**
   Sequential composition: code that runs off its own end, without having copied from
   itself, does the same as a prefix of any longer code and hands over at the seam.
   */
  lemma {:induction false} PrefixRuns(prefix: Code, rest: Code, env: Env, m: Machine, depth: nat) returns (n: nat)
    requires m.pc <= |prefix|
    requires Run(prefix, env, m, depth).0 == Stop && Run(prefix, env, m, depth).1.pc == |prefix|
    requires NoCodeCopy(Run(prefix, env, m, depth).1.trace)
    ensures Reaches(prefix + rest, env, depth, m, n, Run(prefix, env, m, depth).1)
    decreases |prefix| - m.pc
  {
    hide Step;
    if m.pc == |prefix| {
      n := 0;
    } else {
      StepTraces(prefix, env, m, depth);
      match Step(prefix, env, m, depth)
      case Done(how, m') =>
        assert false;
      case Next(m') =>
        PcOnlyGrows(prefix, env, m', depth);
        TraceGrows(prefix, env, m', depth);
        assert m'.trace[|m.trace|] == Event(m.pc, prefix[m.pc]);
        assert prefix[m.pc] != CODECOPY;
        SameStep(prefix, rest, env, m, depth);
        var k := PrefixRuns(prefix, rest, env, m', depth);
        n := k + 1;
    }
  }

  lemma {:induction false} PcOnlyGrows(code: Code, env: Env, m: Machine, depth: nat)
    ensures Run(code, env, m, depth).1.pc >= m.pc
    decreases |code| - m.pc
  {
    hide Step;
    if m.pc < |code| {
      StepTraces(code, env, m, depth);
      match Step(code, env, m, depth)
      case Next(m') => PcOnlyGrows(code, env, m', depth);
      case Done(_, m') =>
    }
  }

  /** An instruction whose operand lies inside the prefix reads nothing of what follows, CODECOPY apart. */
  lemma SameStep(prefix: Code, rest: Code, env: Env, m: Machine, depth: nat)
    requires m.pc < |prefix| && prefix[m.pc] != CODECOPY
    requires Step(prefix, env, m, depth).Next? && Step(prefix, env, m, depth).m.pc <= |prefix|
    ensures Step(prefix + rest, env, m, depth) == Step(prefix, env, m, depth)
  {
    var op := prefix[m.pc];
    if 0x5f <= op <= 0x7f {
      assert Slice(prefix + rest, m.pc + 1, op - 0x5f) == Slice(prefix, m.pc + 1, op - 0x5f);
    }
  }
}
