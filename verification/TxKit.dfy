/** The bytecode builders of internal/txkit/txkit.go, and what their output does when it runs. */
module TxKit {
  import opened Options
  import opened Bytes
  import opened Evm

  type Key = bs: seq<Byte> | |bs| == 32 witness Zeros(32)

  /** One SSTORE: the slot and the word it gets. */
  datatype Put = Put(slot: nat, val: nat)

  function SlotKey(n: nat): Key {
    ToBytes(n, 32)
  }

  function Push32(h: Key): Code {
    [0x7f] + h
  }

  function SStore(key: Key, val: Key): Code {
    Push32(val) + Push32(key) + [0x55]
  }

  /** Every builder ends an empty deployment this way: PUSH1 0, PUSH1 0, RETURN. */
  const RETURN_EMPTY: Code := [0x60, 0x00, 0x60, 0x00, 0xf3]

  const REVERT_EMPTY: Code := [0x60, 0x00, 0x60, 0x00, 0xfd]

  function Stores(ps: seq<Put>): (code: Code)
    ensures |code| == 67 * |ps|
  {
    if ps == [] then [] else SStore(SlotKey(ps[0].slot), SlotKey(ps[0].val)) + Stores(ps[1..])
  }

  /** Slot s is seeded with s + 1, in 64-bit arithmetic. */
  function Seeds(slots: seq<nat>): (ps: seq<Put>)
    ensures |ps| == |slots|
  {
    seq(|slots|, i requires 0 <= i < |slots| => Put(slots[i], (slots[i] + 1) % TWO_64))
  }

  function Wipes(slots: seq<nat>): (ps: seq<Put>)
    ensures |ps| == |slots|
  {
    seq(|slots|, i requires 0 <= i < |slots| => Put(slots[i], 0))
  }

  lemma {:induction false} StoresAppend(ps: seq<Put>, qs: seq<Put>)
    ensures Stores(ps + qs) == Stores(ps) + Stores(qs)
  {
    if ps == [] {
      assert ps + qs == qs;
    } else {
      assert (ps + qs)[1..] == ps[1..] + qs;
      StoresAppend(ps[1..], qs);
    }
  }

  lemma StoresSnoc(ps: seq<Put>, p: Put)
    ensures Stores(ps + [p]) == Stores(ps) + SStore(SlotKey(p.slot), SlotKey(p.val))
  {
    StoresAppend(ps, [p]);
    assert Stores([p]) == SStore(SlotKey(p.slot), SlotKey(p.val)) + Stores([]);
  }

  lemma StoresNone()
    ensures Stores([]) == [] && Seeds([]) == []
  {
  }

  method SeedCode(slots: seq<nat>) returns (out: Code)
    ensures out == Stores(Seeds(slots))
  {
    hide Stores, SStore, SlotKey;
    StoresNone();
    out := [];
    for i := 0 to |slots|
      invariant out == Stores(Seeds(slots[..i]))
    {
      var s := slots[i];
      out := out + SStore(SlotKey(s), SlotKey((s + 1) % TWO_64));
      StoresSnoc(Seeds(slots[..i]), Put(s, (s + 1) % TWO_64));
      assert Seeds(slots[..i + 1]) == Seeds(slots[..i]) + [Put(s, (s + 1) % TWO_64)];
    }
    assert slots[..|slots|] == slots;
  }

  method ZeroizeInitCode(slots: seq<nat>) returns (out: Code)
    ensures out == Stores(Seeds(slots)) + Stores(Wipes(slots)) + RETURN_EMPTY
  {
    out := SeedCode(slots);
    for i := 0 to |slots|
      invariant out == Stores(Seeds(slots)) + Stores(Wipes(slots[..i]))
    {
      out := out + SStore(SlotKey(slots[i]), Zeros(32));
      ZeroKey();
      StoresSnoc(Wipes(slots[..i]), Put(slots[i], 0));
      assert Wipes(slots[..i + 1]) == Wipes(slots[..i]) + [Put(slots[i], 0)];
    }
    assert slots[..|slots|] == slots;
    out := out + RETURN_EMPTY;
  }

  lemma {:induction false} ZeroBytes(n: nat)
    ensures ToBytes(0, n) == Zeros(n)
  {
    if n > 0 {
      ZeroBytes(n - 1);
    }
  }

  lemma ZeroKey()
    ensures SlotKey(0) == Zeros(32)
  {
    ZeroBytes(32);
  }

  function ReaderRuntime(): Code {
    [0x60, 0x00, 0x35, 0x54, 0x60, 0x00, 0x52, 0x60, 0x20, 0x60, 0x00, 0xf3]
  }

  function WriterRuntime(): Code {
    [0x60, 0x20, 0x35, 0x60, 0x00, 0x35, 0x55, 0x00]
  }

  /** PUSH2 n: an n of 2^16 or more loses its high bits. */
  function Push2(n: nat): (c: Code)
    ensures |c| == 3
  {
    [0x61] + ToBytes(n, 2)
  }

  const PREAMBLE_LEN := 15

  function Preamble(n: nat, off: nat): (c: Code)
    ensures |c| == PREAMBLE_LEN
  {
    Push2(n) + Push2(off) + [0x60, 0x00, 0x39] + Push2(n) + [0x60, 0x00, 0xf3]
  }

  /** None is the source's panic: a length that does not fit its PUSH2. */
  function DeployCodeAfter(prefix: Code, runtime: Code): (code: Option<Code>)
    ensures code.Some? <==> |runtime| <= 0xffff && |prefix| + PREAMBLE_LEN <= 0xffff
  {
    if |runtime| > 0xffff || |prefix| + PREAMBLE_LEN > 0xffff then None
    else Some(prefix + Preamble(|runtime|, |prefix| + PREAMBLE_LEN) + runtime)
  }

  // ---- SSTORE runs ----

  function Apply(ps: seq<Put>, s: Storage): Storage {
    if ps == [] then s else Apply(ps[1..], Store(s, ps[0].slot, ps[0].val))
  }

  function PutOne(st: State, self: Address, p: Put): State {
    st.With(self, st.At(self).(storage := Store(st.At(self).storage, p.slot, p.val)))
  }

  function Stored(st: State, self: Address, ps: seq<Put>): State
    decreases ps
  {
    if ps == [] then st else Stored(PutOne(st, self, ps[0]), self, ps[1..])
  }

  /** Only the storage of the executing account changes. */
  lemma {:induction false} StoredAt(st: State, self: Address, ps: seq<Put>)
    ensures Stored(st, self, ps).At(self) == st.At(self).(storage := Apply(ps, st.At(self).storage))
    ensures forall a: Address :: a != self ==> Stored(st, self, ps).At(a) == st.At(a)
    ensures Stored(st, self, ps).created == st.created && Stored(st, self, ps).doomed == st.doomed
    decreases ps
  {
    if ps != [] {
      StoredAt(PutOne(st, self, ps[0]), self, ps[1..]);
    }
  }

  /** The instructions of n consecutive stores starting at p: it does not depend on the keys or values. */
  function StoreTrace(p: nat, n: nat): seq<Event>
    decreases n
  {
    if n == 0 then [] else [Event(p, 0x7f), Event(p + 33, 0x7f), Event(p + 66, 0x55)] + StoreTrace(p + 67, n - 1)
  }

  ghost predicate Holds(code: Code, p: nat, part: Code) {
    p + |part| <= |code| && code[p..p + |part|] == part
  }

  function Pushed(m: Machine, k: nat, v: nat): Machine
    requires k <= 32
  {
    m.(pc := m.pc + 1 + k, stack := m.stack + [v], trace := m.trace + [Event(m.pc, 0x5f + k)])
  }

  lemma PushStep(code: Code, env: Env, depth: nat, m: Machine, k: nat, v: nat)
    requires k <= 32 && Holds(code, m.pc, [0x5f + k] + ToBytes(v, k)) && v < Pow256(k)
    requires |m.stack| < STACK_LIMIT
    ensures Step(code, env, m, depth) == Next(Pushed(m, k, v))
  {
    Operand(code, m.pc, k, v);
    hide ToBytes, Holds, Slice, Word;
    WordToBytes(v, k);
  }

  lemma Operand(code: Code, p: nat, k: nat, v: nat)
    requires k <= 32 && Holds(code, p, [0x5f + k] + ToBytes(v, k))
    ensures p < |code| && code[p] == 0x5f + k && Slice(code, p + 1, k) == ToBytes(v, k)
  {
    hide ToBytes;
    var part := [0x5f + k] + ToBytes(v, k);
    assert code[p] == code[p..p + |part|][0];
    forall i | 0 <= i < k
      ensures code[p + 1 + i] == ToBytes(v, k)[i]
    {
      assert code[p + 1 + i] == code[p..p + |part|][i + 1];
    }
  }

  function AfterStore(m: Machine, self: Address, p: Put): Machine {
    m.(pc := m.pc + 67, st := PutOne(m.st, self, p), trace := m.trace + StoreTrace(m.pc, 1))
  }

  function AfterStores(m: Machine, self: Address, ps: seq<Put>): Machine {
    m.(pc := m.pc + 67 * |ps|, st := Stored(m.st, self, ps), trace := m.trace + StoreTrace(m.pc, |ps|))
  }

  ghost predicate WordsFit(ps: seq<Put>) {
    forall p :: p in ps ==> p.slot < TWO_64 && p.val < TWO_64
  }

  lemma Inside(code: Code, p: nat, whole: Code, i: nat, part: Code)
    requires Holds(code, p, whole) && i + |part| <= |whole| && whole[i..i + |part|] == part
    ensures Holds(code, p + i, part)
  {
    forall j | 0 <= j < |part|
      ensures code[p + i + j] == part[j]
    {
      assert part[j] == whole[i + j] == code[p..p + |whole|][i + j];
    }
  }

  lemma SStoreStep(code: Code, env: Env, depth: nat, m: Machine, key: nat, val: nat)
    requires m.pc < |code| && code[m.pc] == 0x55
    requires |m.stack| >= 2 && m.stack[|m.stack| - 1] == key && m.stack[|m.stack| - 2] == val
    ensures Step(code, env, m, depth) ==
            Next(m.(pc := m.pc + 1, stack := m.stack[..|m.stack| - 2], st := PutOne(m.st, env.self, Put(key, val)),
                    trace := m.trace + [Event(m.pc, 0x55)]))
  {
  }

  lemma StoreLayout(code: Code, pc: nat, p: Put)
    requires Holds(code, pc, SStore(SlotKey(p.slot), SlotKey(p.val)))
    ensures Holds(code, pc, Push32(SlotKey(p.val)))
    ensures Holds(code, pc + 33, Push32(SlotKey(p.slot)))
    ensures pc + 66 < |code| && code[pc + 66] == 0x55
  {
    var part := SStore(SlotKey(p.slot), SlotKey(p.val));
    assert part[0..33] == Push32(SlotKey(p.val));
    Inside(code, pc, part, 0, Push32(SlotKey(p.val)));
    assert part[33..66] == Push32(SlotKey(p.slot));
    Inside(code, pc, part, 33, Push32(SlotKey(p.slot)));
    assert code[pc + 66] == code[pc..pc + |part|][66] == 0x55;
  }

  lemma WordFits()
    ensures TWO_64 <= Pow256(32)
  {
    assert Pow256(8) == TWO_64;
    Pow256Grows(8, 32);
  }

  lemma StoreRuns(code: Code, env: Env, depth: nat, m: Machine, p: Put)
    requires p.slot < TWO_64 && p.val < TWO_64 && |m.stack| + 2 <= STACK_LIMIT
    requires Holds(code, m.pc, SStore(SlotKey(p.slot), SlotKey(p.val)))
    ensures Reaches(code, env, depth, m, 3, AfterStore(m, env.self, p))
  {
    WordFits();
    StoreLayout(code, m.pc, p);
    hide Step, Simple, Create, Call, Reaches, SStore, Holds, PutOne, Pow256;
    PushStep(code, env, depth, m, 32, p.val);
    var m1 := Pushed(m, 32, p.val);
    PushStep(code, env, depth, m1, 32, p.slot);
    var m2 := Pushed(m1, 32, p.slot);
    SStoreStep(code, env, depth, m2, p.slot, p.val);
    var m3 := AfterStore(m, env.self, p);
    assert m2.stack[..|m2.stack| - 2] == m.stack;
    assert m2.trace + [Event(m2.pc, 0x55)] == m3.trace;
    StoppedHere(code, env, depth, m3);
    OneStep(code, env, depth, m2, m3, 0, m3);
    OneStep(code, env, depth, m1, m2, 1, m3);
    OneStep(code, env, depth, m, m1, 2, m3);
  }

  lemma AfterStoresSplit(m: Machine, self: Address, ps: seq<Put>)
    requires ps != []
    ensures AfterStores(AfterStore(m, self, ps[0]), self, ps[1..]) == AfterStores(m, self, ps)
  {
    assert StoreTrace(m.pc, 1)
           == [Event(m.pc, 0x7f), Event(m.pc + 33, 0x7f), Event(m.pc + 66, 0x55)] + StoreTrace(m.pc + 67, 0);
    assert StoreTrace(m.pc, |ps|) == StoreTrace(m.pc, 1) + StoreTrace(m.pc + 67, |ps| - 1);
    assert m.trace + StoreTrace(m.pc, 1) + StoreTrace(m.pc + 67, |ps| - 1) == m.trace + StoreTrace(m.pc, |ps|);
  }

  lemma AfterNoStores(m: Machine, self: Address)
    ensures AfterStores(m, self, []) == m
  {
  }

  lemma StoresHold(code: Code, p: nat, ps: seq<Put>)
    requires ps != [] && Holds(code, p, Stores(ps))
    ensures Holds(code, p, SStore(SlotKey(ps[0].slot), SlotKey(ps[0].val)))
    ensures Holds(code, p + 67, Stores(ps[1..]))
  {
    var one := SStore(SlotKey(ps[0].slot), SlotKey(ps[0].val));
    assert Stores(ps)[0..67] == one;
    assert Stores(ps)[67..67 + |Stores(ps[1..])|] == Stores(ps[1..]);
    Inside(code, p, Stores(ps), 0, one);
    Inside(code, p, Stores(ps), 67, Stores(ps[1..]));
  }

  /** A block of stores, wherever it stands in the code, performs exactly its puts and falls through. */
  lemma {:induction false} StoresRun(code: Code, env: Env, depth: nat, m: Machine, ps: seq<Put>)
    requires WordsFit(ps) && |m.stack| + 2 <= STACK_LIMIT
    requires Holds(code, m.pc, Stores(ps))
    ensures Reaches(code, env, depth, m, 3 * |ps|, AfterStores(m, env.self, ps))
    decreases ps
  {
    hide Step, Simple, Create, Call, Stores, StoreTrace, SStore;
    if ps == [] {
      AfterNoStores(m, env.self);
    } else {
      StoresHold(code, m.pc, ps);
      StoreRuns(code, env, depth, m, ps[0]);
      var m1 := AfterStore(m, env.self, ps[0]);
      StoresRun(code, env, depth, m1, ps[1..]);
      AfterStoresSplit(m, env.self, ps);
      ReachesThen(code, env, depth, m, 3, m1, 3 * |ps[1..]|, AfterStores(m, env.self, ps));
    }
  }
}
