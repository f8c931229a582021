/** What deployments built by internal/txkit/txkit.go do: seeding, deploying, zeroizing, reading and writing. */
module Deploy {
  import opened Bytes
  import opened Evm
  import opened TxKit

  // ---- SeedCode ----

  function Wrapped(s: nat): nat {
    (s + 1) % TWO_64
  }

  /** Storage after seeding: every listed slot s holds s + 1, every other slot what it held. */
  lemma {:induction false} SeedsApplied(slots: seq<nat>, s: Storage, k: nat)
    ensures Load(Apply(Seeds(slots), s), k) == if k in slots then Wrapped(k) else Load(s, k)
    decreases slots
  {
    if slots != [] {
      var s1 := Store(s, slots[0], Wrapped(slots[0]));
      assert Seeds(slots)[1..] == Seeds(slots[1..]);
      SeedsApplied(slots[1..], s1, k);
      assert k in slots <==> k == slots[0] || k in slots[1..];
    }
  }

  lemma {:induction false} WipesApplied(slots: seq<nat>, s: Storage, k: nat)
    ensures Load(Apply(Wipes(slots), s), k) == if k in slots then 0 else Load(s, k)
    decreases slots
  {
    if slots != [] {
      var s1 := Store(s, slots[0], 0);
      assert Wipes(slots)[1..] == Wipes(slots[1..]);
      WipesApplied(slots[1..], s1, k);
      assert k in slots <==> k == slots[0] || k in slots[1..];
    }
  }

  /** The word a seeded slot gets is non-zero for every 64-bit slot but the last, where s + 1 wraps. */
  lemma SeedWrapsAtTheLastSlot(s: nat)
    requires s < TWO_64
    ensures Wrapped(s) != 0 <==> s != TWO_64 - 1
    ensures s != TWO_64 - 1 ==> Wrapped(s) == s + 1
  {
  }

  ghost predicate Uint64s(slots: seq<nat>) {
    forall s :: s in slots ==> s < TWO_64
  }

  lemma SeedWordsFit(slots: seq<nat>)
    requires Uint64s(slots)
    ensures WordsFit(Seeds(slots)) && WordsFit(Wipes(slots))
  {
    forall p | p in Seeds(slots)
      ensures p.slot < TWO_64 && p.val < TWO_64
    {
      var i :| 0 <= i < |slots| && Seeds(slots)[i] == p;
      assert slots[i] in slots;
    }
    forall p | p in Wipes(slots)
      ensures p.slot < TWO_64 && p.val < TWO_64
    {
      var i :| 0 <= i < |slots| && Wipes(slots)[i] == p;
      assert slots[i] in slots;
    }
  }

  lemma {:induction false} StoreTraceHasNoCopy(p: nat, n: nat)
    ensures NoCodeCopy(StoreTrace(p, n))
    decreases n
  {
    if n > 0 {
      StoreTraceHasNoCopy(p + 67, n - 1);
    }
  }

  // ---- DeployCodeAfter ----

  /** A prefix that runs off its end having not copied from itself, with room for the preamble's three words. */
  ghost predicate FallsThrough(prefix: Code, env: Env, st: State, depth: nat) {
    var (how, m) := Run(prefix, env, Fresh(st), depth);
    how == Stop && m.pc == |prefix| && |m.stack| + 3 <= STACK_LIMIT && NoCodeCopy(m.trace)
  }

  function PreambleTrace(p: nat): seq<Event> {
    [Event(p, 0x61), Event(p + 3, 0x61), Event(p + 6, 0x60), Event(p + 8, 0x39), Event(p + 9, 0x61),
     Event(p + 12, 0x60), Event(p + 14, 0xf3)]
  }

  lemma PreambleLayout(code: Code, p: nat, n: nat, off: nat)
    requires Holds(code, p, Preamble(n, off))
    ensures Holds(code, p, Push2(n)) && Holds(code, p + 3, Push2(off)) && Holds(code, p + 6, [0x60, 0x00])
    ensures Holds(code, p + 9, Push2(n)) && Holds(code, p + 12, [0x60, 0x00])
    ensures p + 14 < |code| && code[p + 8] == CODECOPY && code[p + 14] == 0xf3
  {
    var w := Preamble(n, off);
    assert w[0..3] == Push2(n) && w[3..6] == Push2(off) && w[6..8] == [0x60, 0x00];
    assert w[9..12] == Push2(n) && w[12..14] == [0x60, 0x00];
    Inside(code, p, w, 0, Push2(n));
    Inside(code, p, w, 3, Push2(off));
    Inside(code, p, w, 6, [0x60, 0x00]);
    Inside(code, p, w, 9, Push2(n));
    Inside(code, p, w, 12, [0x60, 0x00]);
    assert code[p + 8] == code[p..p + |w|][8];
    assert code[p + 14] == code[p..p + |w|][14];
  }

  lemma PushByte(code: Code, env: Env, depth: nat, m: Machine, b: Byte)
    requires Holds(code, m.pc, [0x60, b]) && |m.stack| < STACK_LIMIT
    ensures Step(code, env, m, depth) == Next(Pushed(m, 1, b))
  {
    assert ToBytes(b, 1) == ToBytes(b / 256, 0) + [b];
    PushStep(code, env, depth, m, 1, b);
  }

  lemma PushOne(code: Code, env: Env, depth: nat, m: Machine)
    requires Holds(code, m.pc, [0x60, 0x00]) && |m.stack| < STACK_LIMIT
    ensures Step(code, env, m, depth) == Next(Pushed(m, 1, 0))
  {
    PushByte(code, env, depth, m, 0);
  }

  lemma PushTwo(code: Code, env: Env, depth: nat, m: Machine, n: nat)
    requires Holds(code, m.pc, Push2(n)) && n <= 0xffff && |m.stack| < STACK_LIMIT
    ensures Step(code, env, m, depth) == Next(Pushed(m, 2, n))
  {
    assert Pow256(2) == 0x1_0000;
    PushStep(code, env, depth, m, 2, n);
  }

  function Copied(code: Code, m: Machine, at: nat, off: nat, n: nat): Machine
    requires |m.stack| >= 3
  {
    m.(pc := m.pc + 1, stack := m.stack[..|m.stack| - 3], mem := Write(m.mem, at, Slice(code, off, n)),
       trace := m.trace + [Event(m.pc, CODECOPY)])
  }

  lemma CopyStep(code: Code, env: Env, depth: nat, m: Machine, at: nat, off: nat, n: nat)
    requires m.pc < |code| && code[m.pc] == CODECOPY
    requires |m.stack| >= 3 && m.stack[|m.stack| - 3..] == [n, off, at]
    ensures Step(code, env, m, depth) == Next(Copied(code, m, at, off, n))
  {
    var s := m.stack;
    assert s[|s| - 1] == s[|s| - 3..][2] && s[|s| - 2] == s[|s| - 3..][1] && s[|s| - 3] == s[|s| - 3..][0];
  }

  lemma ReturnStep(code: Code, env: Env, depth: nat, m: Machine, at: nat, n: nat)
    requires m.pc < |code| && code[m.pc] == 0xf3
    requires |m.stack| >= 2 && m.stack[|m.stack| - 2..] == [n, at]
    ensures Run(code, env, m, depth) == (Return(Slice(m.mem, at, n)), m.(trace := m.trace + [Event(m.pc, 0xf3)]))
  {
    var s := m.stack;
    assert s[|s| - 1] == s[|s| - 2..][1] && s[|s| - 2] == s[|s| - 2..][0];
    assert Step(code, env, m, depth) == Done(Return(Slice(m.mem, at, n)), m.(trace := m.trace + [Event(m.pc, 0xf3)]));
  }

  lemma WrittenReadsBack(mem: seq<Byte>, data: seq<Byte>)
    ensures Slice(Write(mem, 0, data), 0, |data|) == data
  {
  }

  /** The 15-byte preamble returns the `n` bytes at `off`, whatever the machine holds when it is reached. */
  lemma PreambleReturns(code: Code, env: Env, depth: nat, m: Machine, n: nat, off: nat, blob: seq<Byte>)
    requires Holds(code, m.pc, Preamble(n, off)) && n <= 0xffff && off <= 0xffff
    requires Holds(code, off, blob) && |blob| == n && |m.stack| + 3 <= STACK_LIMIT
    ensures Run(code, env, m, depth).0 == Return(blob)
    ensures Run(code, env, m, depth).1.st == m.st
    ensures Run(code, env, m, depth).1.trace == m.trace + PreambleTrace(m.pc)
  {
    hide Step, Simple, Create, Call, Run, Preamble, Write;
    PreambleLayout(code, m.pc, n, off);
    PushTwo(code, env, depth, m, n);
    var m1 := Pushed(m, 2, n);
    PushTwo(code, env, depth, m1, off);
    var m2 := Pushed(m1, 2, off);
    PushOne(code, env, depth, m2);
    var m3 := Pushed(m2, 1, 0);
    assert m3.stack == m.stack + [n, off, 0];
    CopyStep(code, env, depth, m3, 0, off, n);
    var m4 := Copied(code, m3, 0, off, n);
    assert m4.stack == m.stack;
    PushTwo(code, env, depth, m4, n);
    var m5 := Pushed(m4, 2, n);
    PushOne(code, env, depth, m5);
    var m6 := Pushed(m5, 1, 0);
    assert m6.stack == m.stack + [n, 0];
    ReturnStep(code, env, depth, m6, 0, n);
    StepRuns(code, env, depth, m, m1);
    StepRuns(code, env, depth, m1, m2);
    StepRuns(code, env, depth, m2, m3);
    StepRuns(code, env, depth, m3, m4);
    StepRuns(code, env, depth, m4, m5);
    StepRuns(code, env, depth, m5, m6);
    assert Slice(code, off, n) == blob;
    WrittenReadsBack(m3.mem, blob);
    assert m6.trace + [Event(m6.pc, 0xf3)] == m.trace + PreambleTrace(m.pc);
  }

  lemma StepRuns(code: Code, env: Env, depth: nat, m: Machine, m1: Machine)
    requires m.pc < |code| && Step(code, env, m, depth) == Next(m1)
    ensures Run(code, env, m, depth) == Run(code, env, m1, depth)
  {
    hide Step;
  }

  /**
   Compiler correctness of DeployCodeAfter, for every prefix that falls through and every
   runtime it accepts: the prefix's effects stand, exactly the runtime is returned, and
   execution stops at the preamble's last byte, so no byte of the blob runs as code.
   */
  lemma DeployReturnsRuntime(prefix: Code, runtime: Code, env: Env, st: State, depth: nat)
    requires DeployCodeAfter(prefix, runtime).Some?
    requires FallsThrough(prefix, env, st, depth)
    ensures
      var before := Run(prefix, env, Fresh(st), depth).1;
      var (how, m) := Run(DeployCodeAfter(prefix, runtime).value, env, Fresh(st), depth);
      && how == Return(runtime)
      && m.st == before.st
      && m.trace == before.trace + PreambleTrace(|prefix|)
  {
    var rest := Preamble(|runtime|, |prefix| + PREAMBLE_LEN) + runtime;
    var code := DeployCodeAfter(prefix, runtime).value;
    assert code == prefix + rest;
    var m := Run(prefix, env, Fresh(st), depth).1;
    var k := PrefixRuns(prefix, rest, env, Fresh(st), depth);
    RunFrom(code, env, depth, Fresh(st), k, m);
    PreambleReturns(code, env, depth, m, |runtime|, |prefix| + PREAMBLE_LEN, runtime);
  }

  /** SeedCode is such a prefix: run alone it performs its puts and falls through. */
  lemma SeedFallsThrough(slots: seq<nat>, env: Env, st: State, depth: nat)
    requires Uint64s(slots)
    ensures FallsThrough(Stores(Seeds(slots)), env, st, depth)
    ensures Run(Stores(Seeds(slots)), env, Fresh(st), depth) == (Stop, AfterStores(Fresh(st), env.self, Seeds(slots)))
  {
    hide Step;
    var code := Stores(Seeds(slots));
    SeedWordsFit(slots);
    assert code[0..|code|] == code;
    StoresRun(code, env, depth, Fresh(st), Seeds(slots));
    var m := AfterStores(Fresh(st), env.self, Seeds(slots));
    RunFrom(code, env, depth, Fresh(st), 3 * |slots|, m);
    assert Run(code, env, m, depth) == (Stop, m);
    StoreTraceHasNoCopy(0, |slots|);
    assert m.trace == StoreTrace(0, |slots|);
  }

  ghost predicate OnlyStorageOf(self: Address, st: State, st': State) {
    && (forall a: Address :: a != self ==> st'.At(a) == st.At(a))
    && st'.At(self).code == st.At(self).code && st'.At(self).nonce == st.At(self).nonce
    && st'.created == st.created && st'.doomed == st.doomed
  }

  /**
   DeployCodeAfter(SeedCode(slots), runtime) as initcode returns exactly the runtime, leaves
   every listed slot s holding s + 1 in 64-bit arithmetic and every other slot as it was,
   touches no other account, and executes nothing past the preamble.
   */
  lemma SeededDeployment(slots: seq<nat>, runtime: Code, env: Env, st: State, depth: nat)
    requires Uint64s(slots) && DeployCodeAfter(Stores(Seeds(slots)), runtime).Some?
    ensures
      var (how, m) := Run(DeployCodeAfter(Stores(Seeds(slots)), runtime).value, env, Fresh(st), depth);
      && how == Return(runtime)
      && (forall k :: Load(m.st.At(env.self).storage, k) ==
                          if k in slots then Wrapped(k) else Load(st.At(env.self).storage, k))
      && OnlyStorageOf(env.self, st, m.st)
      && m.trace == StoreTrace(0, |slots|) + PreambleTrace(67 * |slots|)
  {
    hide Step;
    var prefix := Stores(Seeds(slots));
    SeedFallsThrough(slots, env, st, depth);
    DeployReturnsRuntime(prefix, runtime, env, st, depth);
    var m := Run(DeployCodeAfter(prefix, runtime).value, env, Fresh(st), depth).1;
    assert m.st == Stored(st, env.self, Seeds(slots));
    StoredAt(st, env.self, Seeds(slots));
    forall k
      ensures Load(m.st.At(env.self).storage, k) == if k in slots then Wrapped(k) else Load(st.At(env.self).storage, k)
    {
      SeedsApplied(slots, st.At(env.self).storage, k);
    }
  }

  /** The state a new account's initcode starts from. */
  function Born(env: Env, st: State): State {
    var creator := st.At(env.self);
    var child := env.derive(env.self, creator.nonce);
    st.With(env.self, creator.(nonce := creator.nonce + 1))
      .With(child, Account([], map[], 1)).(created := st.created + {child})
  }

  lemma CreateRuns(env: Env, st: State, init: Code, depth: nat)
    requires st.At(env.derive(env.self, st.At(env.self).nonce)) == EMPTY
    requires env.derive(env.self, st.At(env.self).nonce) != env.self
    ensures
      var addr := env.derive(env.self, st.At(env.self).nonce);
      var (how, m) := Run(init, env.(self := addr, calldata := []), Fresh(Born(env, st)), depth);
      && (how.Stop? ==> Create(env, st, init, depth) == (addr, m.st))
      && (how.Return? && how.data != [] && how.data[0] == 0xef ==>
            Create(env, st, init, depth).0 == 0 && Create(env, st, init, depth).1.At(addr) == EMPTY)
      && (how.Return? && !(how.data != [] && how.data[0] == 0xef) ==>
            Create(env, st, init, depth) == (addr, m.st.With(addr, m.st.At(addr).(code := how.data))))
  {
    hide Run;
  }

  /** As the initcode of a creation, it installs the runtime unless EIP-3541 refuses its first byte. */
  lemma SeededCreation(slots: seq<nat>, runtime: Code, env: Env, st: State, depth: nat)
    requires Uint64s(slots) && DeployCodeAfter(Stores(Seeds(slots)), runtime).Some?
    requires st.At(env.derive(env.self, st.At(env.self).nonce)) == EMPTY
    requires env.derive(env.self, st.At(env.self).nonce) != env.self
    ensures
      var child := env.derive(env.self, st.At(env.self).nonce);
      var (addr, st') := Create(env, st, DeployCodeAfter(Stores(Seeds(slots)), runtime).value, depth);
      if runtime != [] && runtime[0] == 0xef then addr == 0 && st'.At(child) == EMPTY
      else
        && addr == child && st'.At(child).code == runtime
        && (forall k :: Load(st'.At(child).storage, k) == if k in slots then Wrapped(k) else 0)
  {
    hide Step, Run, Stores, Create, DeployCodeAfter;
    var child := env.derive(env.self, st.At(env.self).nonce);
    var init := DeployCodeAfter(Stores(Seeds(slots)), runtime).value;
    SeededDeployment(slots, runtime, env.(self := child, calldata := []), Born(env, st), depth);
    CreateRuns(env, st, init, depth);
    assert Born(env, st).At(child).storage == map[];
  }

  // ---- ZeroizeInitCode and the reverting program with its pricing twin ----

  lemma ZeroizeLayout(slots: seq<nat>)
    ensures
      var code := Stores(Seeds(slots)) + Stores(Wipes(slots)) + RETURN_EMPTY;
      && Holds(code, 0, Stores(Seeds(slots)))
      && Holds(code, 67 * |slots|, Stores(Wipes(slots)))
      && Holds(code, 134 * |slots|, RETURN_EMPTY)
  {
  }

  /** A five-byte ending halts with nothing to report: RETURN keeps the state, REVERT asks for it back. */
  lemma EndingRuns(code: Code, env: Env, depth: nat, m: Machine, last: Byte)
    requires last == 0xf3 || last == 0xfd
    requires Holds(code, m.pc, [0x60, 0x00, 0x60, 0x00, last]) && |m.stack| + 2 <= STACK_LIMIT
    ensures
      var (how, m') := Run(code, env, m, depth);
      && how == (if last == 0xf3 then Return([]) else Revert([]))
      && m'.st == m.st
      && m'.trace == m.trace + [Event(m.pc, 0x60), Event(m.pc + 2, 0x60), Event(m.pc + 4, last)]
  {
    hide Step, Simple, Create, Call, Run, Slice;
    var part: Code := [0x60, 0x00, 0x60, 0x00, last];
    assert part[0..2] == [0x60, 0x00] && part[2..4] == [0x60, 0x00];
    Inside(code, m.pc, part, 0, [0x60, 0x00]);
    Inside(code, m.pc, part, 2, [0x60, 0x00]);
    PushOne(code, env, depth, m);
    var m1 := Pushed(m, 1, 0);
    PushOne(code, env, depth, m1);
    var m2 := Pushed(m1, 1, 0);
    assert code[m2.pc] == code[m.pc..m.pc + 5][4];
    assert Slice(m2.mem, 0, 0) == [];
    if last == 0xf3 {
      ReturnStep(code, env, depth, m2, 0, 0);
    } else {
      RevertStep(code, env, depth, m2, 0, 0);
    }
    StepRuns(code, env, depth, m, m1);
    StepRuns(code, env, depth, m1, m2);
  }

  lemma RevertStep(code: Code, env: Env, depth: nat, m: Machine, at: nat, n: nat)
    requires m.pc < |code| && code[m.pc] == 0xfd
    requires |m.stack| >= 2 && m.stack[|m.stack| - 2..] == [n, at]
    ensures Run(code, env, m, depth) == (Revert(Slice(m.mem, at, n)), m.(trace := m.trace + [Event(m.pc, 0xfd)]))
  {
    var s := m.stack;
    assert s[|s| - 1] == s[|s| - 2..][1] && s[|s| - 2] == s[|s| - 2..][0];
    assert Step(code, env, m, depth) == Done(Revert(Slice(m.mem, at, n)), m.(trace := m.trace + [Event(m.pc, 0xfd)]));
  }

  /** ZeroizeInitCode passes through a machine in which every listed slot holds its seed at once. */
  lemma ZeroizePopulatesFirst(slots: seq<nat>, env: Env, st: State, depth: nat) returns (full: Machine)
    requires Uint64s(slots)
    ensures Reaches(Stores(Seeds(slots)) + Stores(Wipes(slots)) + RETURN_EMPTY,
                    env, depth, Fresh(st), 3 * |slots|, full)
    ensures full == AfterStores(Fresh(st), env.self, Seeds(slots))
    ensures forall s :: s in slots ==> Load(full.st.At(env.self).storage, s) == Wrapped(s)
    ensures (forall s :: s in slots ==> s in full.st.At(env.self).storage) <==> TWO_64 - 1 !in slots
  {
    hide Step, Stores, StoreTrace;
    full := AfterStores(Fresh(st), env.self, Seeds(slots));
    ZeroizeLayout(slots);
    SeedWordsFit(slots);
    StoresRun(Stores(Seeds(slots)) + Stores(Wipes(slots)) + RETURN_EMPTY, env, depth, Fresh(st), Seeds(slots));
    StoredAt(st, env.self, Seeds(slots));
    forall s | s in slots
      ensures Load(full.st.At(env.self).storage, s) == Wrapped(s)
    {
      SeedsApplied(slots, st.At(env.self).storage, s);
      SeedWrapsAtTheLastSlot(s);
    }
  }

  /** It ends with every listed slot absent, every other slot as it was, and empty code returned. */
  lemma ZeroizeEndsEmpty(slots: seq<nat>, env: Env, st: State, depth: nat)
    requires Uint64s(slots)
    ensures
      var (how, m) := Run(Stores(Seeds(slots)) + Stores(Wipes(slots)) + RETURN_EMPTY, env, Fresh(st), depth);
      && how == Return([])
      && OnlyStorageOf(env.self, st, m.st)
      && m.st.At(env.self).storage == st.At(env.self).storage - (set s | s in slots)
  {
    hide Step, Stores, StoreTrace, Run, Simple, Reaches, Load, Apply, Seeds, Wipes;
    var code := Stores(Seeds(slots)) + Stores(Wipes(slots)) + RETURN_EMPTY;
    ZeroizeLayout(slots);
    SeedWordsFit(slots);
    var full := ZeroizePopulatesFirst(slots, env, st, depth);
    StoresRun(code, env, depth, full, Wipes(slots));
    var gone := AfterStores(full, env.self, Wipes(slots));
    RunFrom(code, env, depth, Fresh(st), 3 * |slots|, full);
    RunFrom(code, env, depth, full, 3 * |slots|, gone);
    EndingRuns(code, env, depth, gone, 0xf3);
    StoredAt(st, env.self, Seeds(slots));
    StoredAt(full.st, env.self, Wipes(slots));
    SeededThenWiped(slots, st.At(env.self).storage);
  }

  lemma SeededThenWiped(slots: seq<nat>, before: Storage)
    ensures Apply(Wipes(slots), Apply(Seeds(slots), before)) == before - (set s | s in slots)
  {
    hide Apply, Seeds, Wipes;
    var after := Apply(Wipes(slots), Apply(Seeds(slots), before));
    forall k
      ensures Load(after, k) == Load(before - (set s | s in slots), k)
    {
      SeedsApplied(slots, before, k);
      WipesApplied(slots, Apply(Seeds(slots), before), k);
    }
    SameLoads(after, before - (set s | s in slots));
  }

  /** Absence being the only zero, storages that read alike are equal. */
  lemma SameLoads(a: Storage, b: Storage)
    requires forall k :: Load(a, k) == Load(b, k)
    ensures a == b
  {
    forall k
      ensures k in a <==> k in b
      ensures k in a ==> a[k] == b[k]
    {
      assert Load(a, k) == Load(b, k);
    }
  }

  /**
   The hammer's REVERT program and the RETURN twin that prices it: the same instructions up
   to the last one, the same state reached; the twin's creation keeps the seeds, the
   reverting one leaves the world as it was but for the sender's nonce.
   */
  lemma RevertTwin(slots: seq<nat>, env: Env, st: State, depth: nat)
    requires Uint64s(slots)
    ensures
      var (howR, r) := Run(Stores(Seeds(slots)) + REVERT_EMPTY, env, Fresh(st), depth);
      var (howP, p) := Run(Stores(Seeds(slots)) + RETURN_EMPTY, env, Fresh(st), depth);
      && howR == Revert([]) && howP == Return([])
      && r.st == p.st
      && |r.trace| == |p.trace| == 3 * |slots| + 3
      && r.trace[..|r.trace| - 1] == p.trace[..|p.trace| - 1]
  {
    hide Step, Stores, StoreTrace, Run;
    var seeds := Stores(Seeds(slots));
    SeedWordsFit(slots);
    var m := AfterStores(Fresh(st), env.self, Seeds(slots));
    StoreTraceLength(0, |slots|);
    forall last: Byte | last == 0xf3 || last == 0xfd
      ensures
        var (how, e) := Run(seeds + [0x60, 0x00, 0x60, 0x00, last], env, Fresh(st), depth);
        && how == (if last == 0xf3 then Return([]) else Revert([]))
        && e.st == m.st
        && e.trace == m.trace + [Event(m.pc, 0x60), Event(m.pc + 2, 0x60), Event(m.pc + 4, last)]
    {
      var code := seeds + [0x60, 0x00, 0x60, 0x00, last];
      StoresRun(code, env, depth, Fresh(st), Seeds(slots));
      RunFrom(code, env, depth, Fresh(st), 3 * |slots|, m);
      EndingRuns(code, env, depth, m, last);
    }
  }

  lemma {:induction false} StoreTraceLength(p: nat, n: nat)
    ensures |StoreTrace(p, n)| == 3 * n
    decreases n
  {
    if n > 0 {
      StoreTraceLength(p + 67, n - 1);
    }
  }

  lemma RevertRestores(slots: seq<nat>, env: Env, st: State, depth: nat)
    requires Uint64s(slots)
    ensures
      var (addr, st') := Create(env, st, Stores(Seeds(slots)) + REVERT_EMPTY, depth);
      && addr == 0
      && st' == st.With(env.self, st.At(env.self).(nonce := st.At(env.self).nonce + 1))
  {
    hide Step, Run, Stores;
    var creator := st.At(env.self);
    var addr := env.derive(env.self, creator.nonce);
    var bumped := st.With(env.self, creator.(nonce := creator.nonce + 1));
    if bumped.At(addr) == EMPTY {
      var born := bumped.With(addr, Account([], map[], 1)).(created := bumped.created + {addr});
      RevertTwin(slots, env.(self := addr, calldata := []), born, depth);
    }
  }

  // ---- ReaderRuntime, WriterRuntime, PatternCode ----

  lemma CallDataStep(code: Code, env: Env, depth: nat, m: Machine, at: nat)
    requires m.pc < |code| && code[m.pc] == 0x35 && |m.stack| >= 1 && m.stack[|m.stack| - 1] == at
    ensures Step(code, env, m, depth) ==
            Next(m.(pc := m.pc + 1, stack := m.stack[..|m.stack| - 1] + [Word(Slice(env.calldata, at, 32))],
                    trace := m.trace + [Event(m.pc, 0x35)]))
  {
  }

  /** Calling the writer stores calldata word 1 at calldata word 0, and nothing else. */
  lemma WriterWrites(env: Env, st: State, to: Address, input: seq<Byte>, depth: nat)
    requires st.At(to).code == WriterRuntime()
    ensures Call(env, st, to, input, depth) ==
            (true, [], PutOne(st, to, Put(Word(Slice(input, 0, 32)), Word(Slice(input, 32, 32)))))
  {
    hide Step, Simple, Create, Call, Run, Slice, Word, PutOne;
    var code := WriterRuntime();
    var env' := env.(self := to, calldata := input);
    var key, val := Word(Slice(input, 0, 32)), Word(Slice(input, 32, 32));
    var m4 := WriterFinds(env', st, depth);
    SStoreStep(code, env', depth, m4, key, val);
    var m5 := m4.(pc := 7, stack := [], st := PutOne(st, to, Put(key, val)), trace := m4.trace + [Event(6, 0x55)]);
    StepRuns(code, env', depth, m4, m5);
    StopStep(code, env', depth, m5);
    CallRuns(env, st, to, input, depth);
  }

  lemma WriterFinds(env: Env, st: State, depth: nat) returns (m4: Machine)
    ensures Run(WriterRuntime(), env, Fresh(st), depth) == Run(WriterRuntime(), env, m4, depth)
    ensures m4.pc == 6 && m4.st == st
    ensures m4.stack == [Word(Slice(env.calldata, 32, 32)), Word(Slice(env.calldata, 0, 32))]
  {
    hide Step, Simple, Create, Call, Run, Slice, Word;
    var code := WriterRuntime();
    var key, val := Word(Slice(env.calldata, 0, 32)), Word(Slice(env.calldata, 32, 32));
    var m := Fresh(st);
    assert code[0..2] == [0x60, 0x20] && code[3..5] == [0x60, 0x00];
    PushByte(code, env, depth, m, 0x20);
    var m1 := Pushed(m, 1, 0x20);
    CallDataStep(code, env, depth, m1, 0x20);
    var m2 := m1.(pc := 3, stack := [val], trace := m1.trace + [Event(2, 0x35)]);
    PushByte(code, env, depth, m2, 0x00);
    var m3 := Pushed(m2, 1, 0);
    CallDataStep(code, env, depth, m3, 0);
    m4 := m3.(pc := 6, stack := [val, key], trace := m3.trace + [Event(5, 0x35)]);
    StepRuns(code, env, depth, m, m1);
    StepRuns(code, env, depth, m1, m2);
    StepRuns(code, env, depth, m2, m3);
    StepRuns(code, env, depth, m3, m4);
  }

  lemma StopStep(code: Code, env: Env, depth: nat, m: Machine)
    requires m.pc < |code| && code[m.pc] == 0x00
    ensures Run(code, env, m, depth) == (Stop, m.(trace := m.trace + [Event(m.pc, 0x00)]))
  {
    assert Step(code, env, m, depth) == Done(Stop, m.(trace := m.trace + [Event(m.pc, 0x00)]));
  }

  lemma CallRuns(env: Env, st: State, to: Address, input: seq<Byte>, depth: nat)
    ensures
      var (how, m) := Run(st.At(to).code, env.(self := to, calldata := input), Fresh(st), depth);
      && (how == Stop ==> Call(env, st, to, input, depth) == (true, [], m.st))
      && (how.SelfDestruct? ==> Call(env, st, to, input, depth) == (true, [], m.st))
      && (how.Return? ==> Call(env, st, to, input, depth) == (true, how.data, m.st))
  {
  }

  /** The reader's first half: the slot named by calldata is loaded and stored to memory. */
  lemma ReaderFinds(env: Env, st: State, depth: nat) returns (m3: Machine)
    ensures Run(ReaderRuntime(), env, Fresh(st), depth) == Run(ReaderRuntime(), env, m3, depth)
    ensures m3.pc == 4 && m3.st == st && m3.mem == []
    ensures m3.stack == [Load(st.At(env.self).storage, Word(Slice(env.calldata, 0, 32)))]
  {
    hide Step, Simple, Create, Call, Run, Slice, Write, Word, ToBytes;
    var code := ReaderRuntime();
    var key := Word(Slice(env.calldata, 0, 32));
    var m := Fresh(st);
    assert code[0..2] == [0x60, 0x00];
    PushByte(code, env, depth, m, 0);
    var m1 := Pushed(m, 1, 0);
    CallDataStep(code, env, depth, m1, 0);
    var m2 := m1.(pc := 3, stack := [key], trace := m1.trace + [Event(2, 0x35)]);
    SLoadStep(code, env, depth, m2, key);
    m3 := m2.(pc := 4, stack := [Load(st.At(env.self).storage, key)], trace := m2.trace + [Event(3, 0x54)]);
    StepRuns(code, env, depth, m, m1);
    StepRuns(code, env, depth, m1, m2);
    StepRuns(code, env, depth, m2, m3);
  }

  lemma ReaderLoads(env: Env, st: State, depth: nat) returns (m5: Machine)
    ensures Run(ReaderRuntime(), env, Fresh(st), depth) == Run(ReaderRuntime(), env, m5, depth)
    ensures m5.pc == 7 && m5.stack == [] && m5.st == st
    ensures m5.mem == Write([], 0, ToBytes(Load(st.At(env.self).storage, Word(Slice(env.calldata, 0, 32))), 32))
  {
    hide Step, Simple, Create, Call, Run, Slice, Write, Word, ToBytes, Load;
    var code := ReaderRuntime();
    var m3 := ReaderFinds(env, st, depth);
    var val := m3.stack[0];
    assert code[4..6] == [0x60, 0x00];
    PushByte(code, env, depth, m3, 0);
    var m4 := Pushed(m3, 1, 0);
    MStoreStep(code, env, depth, m4, 0, val);
    m5 := m4.(pc := 7, stack := [], mem := Write([], 0, ToBytes(val, 32)), trace := m4.trace + [Event(6, 0x52)]);
    StepRuns(code, env, depth, m3, m4);
    StepRuns(code, env, depth, m4, m5);
  }

  /** Calling the reader returns the word at the slot calldata names and changes nothing. */
  lemma ReaderReads(env: Env, st: State, to: Address, input: seq<Byte>, depth: nat)
    requires st.At(to).code == ReaderRuntime()
    ensures Call(env, st, to, input, depth) ==
            (true, ToBytes(Load(st.At(to).storage, Word(Slice(input, 0, 32))), 32), st)
  {
    hide Step, Run, Slice, Write, Word;
    var env' := env.(self := to, calldata := input);
    var m5 := ReaderLoads(env', st, depth);
    assert ReaderRuntime()[7..12] == [0x60, 0x20, 0x60, 0x00, 0xf3];
    ReturnsWord(ReaderRuntime(), env', depth, m5);
    WrittenReadsBack([], ToBytes(Load(st.At(to).storage, Word(Slice(input, 0, 32))), 32));
    CallRuns(env, st, to, input, depth);
  }

  lemma ReturnsWord(code: Code, env: Env, depth: nat, m: Machine)
    requires Holds(code, m.pc, [0x60, 0x20, 0x60, 0x00, 0xf3]) && |m.stack| + 2 <= STACK_LIMIT
    ensures Run(code, env, m, depth).0 == Return(Slice(m.mem, 0, 32)) && Run(code, env, m, depth).1.st == m.st
  {
    hide Step, Simple, Create, Call, Run, Slice;
    var part: Code := [0x60, 0x20, 0x60, 0x00, 0xf3];
    assert part[0..2] == [0x60, 0x20] && part[2..4] == [0x60, 0x00];
    Inside(code, m.pc, part, 0, [0x60, 0x20]);
    Inside(code, m.pc, part, 2, [0x60, 0x00]);
    PushByte(code, env, depth, m, 0x20);
    var m1 := Pushed(m, 1, 0x20);
    PushByte(code, env, depth, m1, 0);
    var m2 := Pushed(m1, 1, 0);
    assert code[m2.pc] == code[m.pc..m.pc + 5][4];
    ReturnStep(code, env, depth, m2, 0, 0x20);
    StepRuns(code, env, depth, m, m1);
    StepRuns(code, env, depth, m1, m2);
  }

  lemma SLoadStep(code: Code, env: Env, depth: nat, m: Machine, key: nat)
    requires m.pc < |code| && code[m.pc] == 0x54 && |m.stack| >= 1 && m.stack[|m.stack| - 1] == key
    ensures Step(code, env, m, depth) ==
            Next(m.(pc := m.pc + 1, stack := m.stack[..|m.stack| - 1] + [Load(m.st.At(env.self).storage, key)],
                    trace := m.trace + [Event(m.pc, 0x54)]))
  {
  }

  lemma MStoreStep(code: Code, env: Env, depth: nat, m: Machine, at: nat, val: nat)
    requires m.pc < |code| && code[m.pc] == 0x52
    requires |m.stack| >= 2 && m.stack[|m.stack| - 1] == at && m.stack[|m.stack| - 2] == val
    ensures Step(code, env, m, depth) ==
            Next(m.(pc := m.pc + 1, stack := m.stack[..|m.stack| - 2], mem := Write(m.mem, at, ToBytes(val, 32)),
                    trace := m.trace + [Event(m.pc, 0x52)]))
  {
  }
}
