/** The create-then-destroy factory and the inert blob of internal/txkit/txkit.go:176-245. */
module Factory {
  import opened Options
  import opened Bytes
  import opened Evm
  import opened TxKit
  import opened Deploy

  const DESTROY_LEN := 22

  /** PUSH20 beneficiary, SELFDESTRUCT, then INVALID filler up to codeSize. */
  function ChildRuntime(beneficiary: Address, codeSize: int): (rt: Code)
    ensures |rt| == if codeSize > DESTROY_LEN then codeSize else DESTROY_LEN
  {
    [0x73] + ToBytes(beneficiary, 20) + [0xff] + (if codeSize > DESTROY_LEN then Filler(codeSize - DESTROY_LEN) else [])
  }

  function Filler(n: nat): (f: Code)
    ensures |f| == n
  {
    seq(n, _ => 0xfe)
  }

  const PREFIX_LEN := 31

  function Prefix(n: nat): (c: Code)
    ensures |c| == PREFIX_LEN
  {
    Push2(n) + [0x61, 0x00, PREFIX_LEN] + [0x60, 0x00] + [CODECOPY] + Push2(n) + [0x60, 0x00] + [0x60, 0x00] + [CREATE]
    + [0x60, 0x00] + [0x60, 0x00] + [0x60, 0x00] + [0x60, 0x00] + [0x60, 0x00] + [0x85, 0x5a, CALL, 0x00]
  }

  /** None is the panic of the inner DeployCodeAfter on a runtime over 0xffff bytes. */
  method FactoryDestructInitCode(beneficiary: Address, codeSize: int) returns (out: Option<Code>)
    ensures out == FactoryCode(beneficiary, codeSize)
  {
    var childRuntime: Code := [0x73] + ToBytes(beneficiary, 20) + [0xff];
    while |childRuntime| < codeSize
      invariant DESTROY_LEN <= |childRuntime| <= (if codeSize > DESTROY_LEN then codeSize else DESTROY_LEN)
      invariant childRuntime == ChildRuntime(beneficiary, |childRuntime|)
    {
      assert Filler(|childRuntime| - DESTROY_LEN) + [0xfe] == Filler(|childRuntime| + 1 - DESTROY_LEN);
      childRuntime := childRuntime + [0xfe];
    }
    assert childRuntime == ChildRuntime(beneficiary, codeSize);
    var childInit := DeployCodeAfter([], childRuntime);
    if childInit.None? {
      return None;
    }
    return Some(Prefix(|childInit.value|) + childInit.value);
  }

  function FactoryCode(beneficiary: Address, codeSize: int): (out: Option<Code>)
    ensures out.Some? <==> codeSize <= 0xffff
  {
    var init := DeployCodeAfter([], ChildRuntime(beneficiary, codeSize));
    if init.None? then None else Some(Prefix(|init.value|) + init.value)
  }

  /** A length too long for a PUSH2 is pushed without its high bits. */
  lemma TruncatedPush(n: nat)
    ensures Push2(n) == Push2(n % 0x1_0000)
  {
    TwoBytes(n);
    TwoBytes(n % 0x1_0000);
  }

  lemma PrefixPushes(code: Code, n: nat)
    requires Holds(code, 0, Prefix(n))
    ensures Holds(code, 0, Push2(n)) && Holds(code, 3, Push2(PREFIX_LEN)) && Holds(code, 9, Push2(n))
  {
    var w := Prefix(n);
    TwoBytes(PREFIX_LEN);
    hide Push2;
    assert w[0..3] == Push2(n) && w[3..6] == Push2(PREFIX_LEN) && w[9..12] == Push2(n);
    Inside(code, 0, w, 0, Push2(n));
    Inside(code, 0, w, 3, Push2(PREFIX_LEN));
    Inside(code, 0, w, 9, Push2(n));
  }

  lemma PrefixZeros(code: Code, n: nat)
    requires Holds(code, 0, Prefix(n))
    ensures forall i | i in {6, 12, 14, 17, 19, 21, 23, 25} :: Holds(code, i, [0x60, 0x00])
  {
    forall i | i in {6, 12, 14, 17, 19, 21, 23, 25}
      ensures Holds(code, i, [0x60, 0x00])
    {
      PrefixZeroAt(n, i);
      hide Prefix, Holds;
      Inside(code, 0, Prefix(n), i, [0x60, 0x00]);
    }
  }

  lemma PrefixZeroAt(n: nat, i: nat)
    requires i in {6, 12, 14, 17, 19, 21, 23, 25}
    ensures Prefix(n)[i..i + 2] == [0x60, 0x00]
  {
    hide Push2;
    assert Prefix(n)[i] == 0x60 && Prefix(n)[i + 1] == 0x00;
  }

  lemma PrefixOpcodes(code: Code, n: nat)
    requires Holds(code, 0, Prefix(n))
    ensures code[8] == CODECOPY && code[16] == CREATE
    ensures code[27] == 0x85 && code[28] == 0x5a && code[29] == CALL && code[30] == 0x00
  {
    var w := Prefix(n);
    hide Push2;
    forall i | 0 <= i < PREFIX_LEN
      ensures code[i] == w[i]
    {
      assert code[i] == code[0..PREFIX_LEN][i];
    }
  }

  lemma CreateStep(code: Code, env: Env, depth: nat, m: Machine, n: nat)
    requires depth > 0 && m.pc < |code| && code[m.pc] == CREATE && m.stack == [n, 0, 0]
    ensures
      var (addr, st) := Create(env, m.st, Slice(m.mem, 0, n), depth - 1);
      Step(code, env, m, depth)
      == Next(m.(pc := m.pc + 1, stack := [addr], st := st, trace := m.trace + [Event(m.pc, CREATE)]))
  {
    hide Create;
  }

  /** The first half of the factory: CREATE is handed exactly the low 16 bits' worth of the embedded child initcode. */
  lemma FactoryCreates(code: Code, env: Env, st: State, depth: nat, init: Code) returns (m: Machine)
    requires depth > 0 && code == Prefix(|init|) + init
    ensures
      var (addr, st') := Create(env, st, Slice(init, 0, |init| % 0x1_0000), depth - 1);
      m.pc == 17 && m.stack == [addr] && m.st == st'
    ensures Run(code, env, Fresh(st), depth) == Run(code, env, m, depth)
  {
    hide Step, Simple, Create, Call, Run, Prefix, Write;
    var n := |init| % 0x1_0000;
    assert code[0..PREFIX_LEN] == Prefix(|init|);
    PrefixPushes(code, |init|);
    PrefixZeros(code, |init|);
    PrefixOpcodes(code, |init|);
    TruncatedPush(|init|);
    var m0 := Fresh(st);
    PushTwo(code, env, depth, m0, n);
    var m1 := Pushed(m0, 2, n);
    PushTwo(code, env, depth, m1, PREFIX_LEN);
    var m2 := Pushed(m1, 2, PREFIX_LEN);
    PushOne(code, env, depth, m2);
    var m3 := Pushed(m2, 1, 0);
    CopyStep(code, env, depth, m3, 0, PREFIX_LEN, n);
    var m4 := Copied(code, m3, 0, PREFIX_LEN, n);
    PushTwo(code, env, depth, m4, n);
    var m5 := Pushed(m4, 2, n);
    PushOne(code, env, depth, m5);
    var m6 := Pushed(m5, 1, 0);
    PushOne(code, env, depth, m6);
    var m7 := Pushed(m6, 1, 0);
    assert m7.stack == [n, 0, 0];
    CreateStep(code, env, depth, m7, n);
    m := Step(code, env, m7, depth).m;
    StepRuns(code, env, depth, m0, m1);
    StepRuns(code, env, depth, m1, m2);
    StepRuns(code, env, depth, m2, m3);
    StepRuns(code, env, depth, m3, m4);
    StepRuns(code, env, depth, m4, m5);
    StepRuns(code, env, depth, m5, m6);
    StepRuns(code, env, depth, m6, m7);
    StepRuns(code, env, depth, m7, m);
    assert Slice(code, PREFIX_LEN, n) == Slice(init, 0, n);
    WrittenReadsBack(m3.mem, Slice(init, 0, n));
  }

  lemma DupSix(code: Code, env: Env, depth: nat, m: Machine, addr: nat)
    requires m.pc < |code| && code[m.pc] == 0x85 && m.stack == [addr, 0, 0, 0, 0, 0]
    ensures Step(code, env, m, depth) ==
            Next(m.(pc := m.pc + 1, stack := [addr, 0, 0, 0, 0, 0, addr], trace := m.trace + [Event(m.pc, 0x85)]))
  {
  }

  lemma GasStep(code: Code, env: Env, depth: nat, m: Machine)
    requires m.pc < |code| && code[m.pc] == 0x5a && |m.stack| < STACK_LIMIT
    ensures Step(code, env, m, depth) ==
            Next(m.(pc := m.pc + 1, stack := m.stack + [env.gas], trace := m.trace + [Event(m.pc, 0x5a)]))
  {
  }

  lemma CallStep(code: Code, env: Env, depth: nat, m: Machine, addr: Address, gas: nat)
    requires depth > 0 && m.pc < |code| && code[m.pc] == CALL && m.stack == [addr, 0, 0, 0, 0, 0, addr, gas]
    ensures
      var (ok, out, st) := Call(env, m.st, addr, [], depth - 1);
      Step(code, env, m, depth) ==
      Next(m.(pc := m.pc + 1, stack := [addr, if ok then 1 else 0], st := st, trace := m.trace + [Event(m.pc, CALL)]))
  {
    hide Call;
    assert Slice(m.mem, 0, 0) == [];
    var (ok, out, st) := Call(env, m.st, addr, [], depth - 1);
    assert Slice(out, 0, 0) == [];
  }

  /** The second half: DUP6 finds the created address under the five zeros, and it is called with no input. */
  lemma FactoryCalls(code: Code, env: Env, depth: nat, m: Machine, n: nat, addr: Address)
    requires depth > 0 && Holds(code, 0, Prefix(n)) && m.pc == 17 && m.stack == [addr]
    ensures
      var (ok, _, st) := Call(env, m.st, addr, [], depth - 1);
      var (how, end) := Run(code, env, m, depth);
      how == Stop && end.st == st && end.stack == [addr, if ok then 1 else 0] && end.pc == 30
  {
    hide Step, Simple, Create, Call, Run, Prefix;
    PrefixPushes(code, n);
    PrefixZeros(code, n);
    PrefixOpcodes(code, n);
    PushOne(code, env, depth, m);
    var m1 := Pushed(m, 1, 0);
    PushOne(code, env, depth, m1);
    var m2 := Pushed(m1, 1, 0);
    PushOne(code, env, depth, m2);
    var m3 := Pushed(m2, 1, 0);
    PushOne(code, env, depth, m3);
    var m4 := Pushed(m3, 1, 0);
    PushOne(code, env, depth, m4);
    var m5 := Pushed(m4, 1, 0);
    DupSix(code, env, depth, m5, addr);
    var m6 := Step(code, env, m5, depth).m;
    GasStep(code, env, depth, m6);
    var m7 := Step(code, env, m6, depth).m;
    CallStep(code, env, depth, m7, addr, env.gas);
    var m8 := Step(code, env, m7, depth).m;
    StopStep(code, env, depth, m8);
    StepRuns(code, env, depth, m, m1);
    StepRuns(code, env, depth, m1, m2);
    StepRuns(code, env, depth, m2, m3);
    StepRuns(code, env, depth, m3, m4);
    StepRuns(code, env, depth, m4, m5);
    StepRuns(code, env, depth, m5, m6);
    StepRuns(code, env, depth, m6, m7);
    StepRuns(code, env, depth, m7, m8);
  }

  /** Calling the child's code destroys it in favour of the beneficiary. */
  lemma ChildDestroysItself(beneficiary: Address, codeSize: int, env: Env, st: State, child: Address, depth: nat)
    requires st.At(child).code == ChildRuntime(beneficiary, codeSize)
    ensures Call(env, st, child, [], depth) == (true, [], st.(doomed := st.doomed[child := beneficiary]))
  {
    hide Step, Simple, Create, Call, Run;
    var code := ChildRuntime(beneficiary, codeSize);
    var env' := env.(self := child, calldata := []);
    var m := Fresh(st);
    var push: Code := [0x73] + ToBytes(beneficiary, 20);
    assert code[0..21] == push;
    AddressIsWord();
    PushStep(code, env', depth, m, 20, beneficiary);
    var m1 := Pushed(m, 20, beneficiary);
    StepRuns(code, env', depth, m, m1);
    DestructStep(code, env', depth, m1, beneficiary);
    CallRuns(env, st, child, [], depth);
  }

  lemma AddressIsWord()
    ensures Pow256(20) == TWO_160
  {
    assert Pow256(4) == 0x1_0000_0000;
    assert Pow256(8) == TWO_64;
    assert Pow256(12) == 0x1_0000_0000 * TWO_64;
    assert Pow256(16) == TWO_64 * TWO_64;
  }

  lemma DestructStep(code: Code, env: Env, depth: nat, m: Machine, to: Address)
    requires m.pc < |code| && code[m.pc] == 0xff && m.stack == [to]
    ensures
      var (how, end) := Run(code, env, m, depth);
      how == SelfDestruct(to) && end.st == m.st.(doomed := m.st.doomed[env.self := to])
  {
    assert Step(code, env, m, depth) ==
           Done(SelfDestruct(to),
                m.(trace := m.trace + [Event(m.pc, 0xff)], st := m.st.(doomed := m.st.doomed[env.self := to])));
  }

  function PreambleDepth(pc: nat): nat {
    if pc == 3 || pc == 12 then 1 else if pc == 6 || pc == 14 then 2 else if pc == 8 then 3 else 0
  }

  /** A preamble cut short of its RETURN runs off its end and changes nothing. */
  lemma {:induction false} CutPreambleStops(code: Code, env: Env, depth: nat, m: Machine, n: nat)
    requires |code| < PREAMBLE_LEN && code == Preamble(n, PREAMBLE_LEN)[..|code|]
    requires m.pc in {0, 3, 6, 8, 9, 12, 14} && |m.stack| == PreambleDepth(m.pc)
    ensures Run(code, env, m, depth).0 == Stop && Run(code, env, m, depth).1.st == m.st
    decreases |code| - m.pc
  {
    if m.pc < |code| {
      var w := Preamble(n, PREAMBLE_LEN);
      assert code[m.pc] == w[m.pc];
      assert w[0] == 0x61 && w[3] == 0x61 && w[6] == 0x60 && w[8] == CODECOPY && w[9] == 0x61 && w[12] == 0x60;
      var m' := Step(code, env, m, depth).m;
      assert Step(code, env, m, depth) == Next(m') && m'.st == m.st;
      CutPreambleStops(code, env, depth, m', n);
    }
  }

  /** What the factory leaves behind: a child whose code is `code`, doomed or not. */
  function Aftermath(env: Env, st: State, code: Code): State {
    var addr := env.derive(env.self, st.At(env.self).nonce);
    Born(env, st).With(addr, Account(code, map[], 1))
  }

  lemma FactoryChild(env: Env, st: State, depth: nat, beneficiary: Address, codeSize: int)
    requires codeSize <= 0xffff
    requires st.At(env.derive(env.self, st.At(env.self).nonce)) == EMPTY
    requires env.derive(env.self, st.At(env.self).nonce) != env.self
    ensures
      var init := DeployCodeAfter([], ChildRuntime(beneficiary, codeSize)).value;
      Create(env, st, Slice(init, 0, |init| % 0x1_0000), depth) ==
      (env.derive(env.self, st.At(env.self).nonce),
       Aftermath(env, st, if |init| <= 0xffff then ChildRuntime(beneficiary, codeSize) else []))
  {
    hide Step, Create, Preamble, Run;
    var rt := ChildRuntime(beneficiary, codeSize);
    var init := DeployCodeAfter([], rt).value;
    var addr := env.derive(env.self, st.At(env.self).nonce);
    var env' := env.(self := addr, calldata := []);
    var born := Born(env, st);
    var cut := Slice(init, 0, |init| % 0x1_0000);
    CreateRuns(env, st, cut, depth);
    if |init| <= 0xffff {
      assert cut == init;
      EmptyFallsThrough(env', born, depth);
      DeployReturnsRuntime([], rt, env', born, depth);
    } else {
      assert cut == Preamble(|rt|, PREAMBLE_LEN)[..|cut|];
      CutPreambleStops(cut, env', depth, Fresh(born), |rt|);
      assert Aftermath(env, st, []) == born;
    }
  }

  lemma EmptyFallsThrough(env: Env, st: State, depth: nat)
    ensures FallsThrough([], env, st, depth) && Run([], env, Fresh(st), depth).1.st == st
  {
  }

  /**
   The factory creates the child at the derived address and calls it. The child holds exactly
   its runtime and is doomed in the beneficiary's favour if the runtime is at most 65520 bytes;
   a longer one overflows the PUSH2 of its initcode's length, and the child is created empty
   and survives.
   */
  lemma FactoryDestroysItsChild(env: Env, st: State, depth: nat, beneficiary: Address, codeSize: int)
    requires depth > 0 && FactoryCode(beneficiary, codeSize).Some?
    requires st.At(env.derive(env.self, st.At(env.self).nonce)) == EMPTY
    requires env.derive(env.self, st.At(env.self).nonce) != env.self
    ensures
      var child := env.derive(env.self, st.At(env.self).nonce);
      var (how, m) := Run(FactoryCode(beneficiary, codeSize).value, env, Fresh(st), depth);
      && how == Stop && m.stack == [child, 1]
      && m.st == (if codeSize <= 0xffff - PREAMBLE_LEN
                  then
                    Aftermath(env, st, ChildRuntime(beneficiary, codeSize))
                      .(doomed := st.doomed[child := beneficiary])
                  else Aftermath(env, st, []))
  {
    hide Step, Create, Call, Run, Prefix, Preamble;
    var rt := ChildRuntime(beneficiary, codeSize);
    var init := DeployCodeAfter([], rt).value;
    var code := FactoryCode(beneficiary, codeSize).value;
    var child := env.derive(env.self, st.At(env.self).nonce);
    FactoryChild(env, st, depth - 1, beneficiary, codeSize);
    var m := FactoryCreates(code, env, st, depth, init);
    assert code[0..PREFIX_LEN] == Prefix(|init|);
    FactoryCalls(code, env, depth, m, |init|, child);
    if |init| <= 0xffff {
      ChildDestroysItself(beneficiary, codeSize, env, m.st, child, depth - 1);
    } else {
      EmptyFallsThrough(env.(self := child, calldata := []), m.st, depth - 1);
      CallRuns(env, m.st, child, [], depth - 1);
    }
  }

  /** After the transaction the child is gone exactly when its runtime was short enough; everyone else stays. */
  lemma FactoryChildGone(env: Env, st: State, depth: nat, beneficiary: Address, codeSize: int)
    requires depth > 0 && FactoryCode(beneficiary, codeSize).Some?
    requires st.At(env.derive(env.self, st.At(env.self).nonce)) == EMPTY
    requires env.derive(env.self, st.At(env.self).nonce) != env.self
    requires st.doomed == map[]
    ensures
      var child := env.derive(env.self, st.At(env.self).nonce);
      var after := Commit(Run(FactoryCode(beneficiary, codeSize).value, env, Fresh(st), depth).1.st);
      && (child !in after <==> codeSize <= 65520)
      && forall a :: a in st.accounts && a != child ==> a in after && after[a].code == st.accounts[a].code
  {
    hide Run;
    FactoryDestroysItsChild(env, st, depth, beneficiary, codeSize);
  }

  // ---- PatternCode ----

  method PatternCode(n: nat, fill: Byte) returns (out: Code)
    ensures |out| == n
    ensures n > 0 ==> out[0] == 0x00
    ensures forall i :: 0 < i < n ==> out[i] == fill
  {
    var a := new Byte[n](_ => 0);
    for i := 0 to n
      invariant forall k :: 0 <= k < i ==> a[k] == fill
    {
      a[i] := fill;
    }
    if n > 0 {
      a[0] := 0x00;
    }
    out := a[..];
  }

  /** Whatever the filler, such a blob is safe to call: it halts at once and changes nothing. */
  lemma PatternIsInert(env: Env, st: State, to: Address, input: seq<Byte>, depth: nat)
    requires st.At(to).code != [] ==> st.At(to).code[0] == 0x00
    ensures Call(env, st, to, input, depth) == (true, [], st)
  {
    var env' := env.(self := to, calldata := input);
    if st.At(to).code == [] {
      EmptyFallsThrough(env', st, depth);
    } else {
      StopStep(st.At(to).code, env', depth, Fresh(st));
    }
    CallRuns(env, st, to, input, depth);
  }
}
