/** The storage-deleting traffic of cmd/pbthammer/main.go: the zeroize rotation and the revert program. */
module Hammer {
  import opened Bytes
  import opened Evm
  import opened TxKit
  import opened Deploy

  datatype Shape = Creation(init: Code) | ToWriter(input: seq<Byte>)

  const MAX_INT: nat := 0x7fff_ffff_ffff_ffff

  const MARK: Key := Zeros(31) + [0xff]

  method ZeroizeSlots() returns (out: seq<nat>)
    ensures out == BatchSlots() == [1, 2, 3, 64, 65, 66, 67, 68, 69, 70, 71]
  {
    out := [1, 2, 3];
    for i := 64 to 72
      invariant out == [1, 2, 3] + seq(i - 64, k => 64 + k)
    {
      out := out + [i];
    }
  }

  /** Three slots of the header stem and one full group above it. */
  function BatchSlots(): seq<nat> {
    [1, 2, 3] + seq(8, k => 64 + k)
  }

  /** The slot a writing turn uses: every third one lands in the header stem. */
  function SlotOf(turn: nat): nat {
    if turn % 3 == 0 then turn % 64 else turn
  }

  /** The writing turn before a later one: they come every fourth turn, after the first. */
  function Before(turn: nat): nat
    requires turn >= 3
  {
    if turn < 7 then 1 else turn - 4
  }

  /** The slots written and not yet zeroed after a number of turns, oldest first: never more than two. */
  function Live(turn: nat): (slots: seq<nat>)
    ensures |slots| <= 2
    ensures |slots| == 2 ==> slots[0] != slots[1]
  {
    if turn == 0 then []
    else if turn < 3 then [SlotOf(1)]
    else
      match turn % 4
      case 3 => [SlotOf(Before(turn)), SlotOf(turn)]
      case 0 => [SlotOf(Before(turn - 1)), SlotOf(turn - 1)]
      case 1 => [SlotOf(turn - 2)]
      case _ => [SlotOf(turn - 3)]
  }

  /** The writer contract's storage after its inputs, in order. */
  function Written(inputs: seq<seq<Byte>>): Storage {
    if inputs == [] then map[]
    else
      var last := inputs[|inputs| - 1];
      Store(Written(inputs[..|inputs| - 1]), Word(Slice(last, 0, 32)), Word(Slice(last, 32, 32)))
  }

  /** The writer's transactions, each one a call, leave its storage as Written says. */
  lemma {:induction false} WriterReplays(env: Env, st: State, to: Address, inputs: seq<seq<Byte>>, depth: nat)
    requires st.At(to) == Account(WriterRuntime(), map[], st.At(to).nonce)
    ensures Replay(env, st, to, inputs, depth).At(to) == st.At(to).(storage := Written(inputs))
  {
    hide Call;
    if inputs != [] {
      var before := inputs[..|inputs| - 1];
      WriterReplays(env, st, to, before, depth);
      WriterWrites(env, Replay(env, st, to, before, depth), to, inputs[|inputs| - 1], depth);
    }
  }

  ghost function Replay(env: Env, st: State, to: Address, inputs: seq<seq<Byte>>, depth: nat): State {
    if inputs == [] then st
    else Call(env, Replay(env, st, to, inputs[..|inputs| - 1], depth), to, inputs[|inputs| - 1], depth).2
  }

  /** Exactly the live slots are non-zero, and each holds the mark. */
  ghost predicate HoldsExactly(s: Storage, slots: seq<nat>) {
    s == map k | k in slots :: 0xff
  }

  lemma MarkIs255()
    ensures Word(MARK) == 0xff
  {
    ZeroBytes(31);
    assert Pow256(1) == 256;
    WordToBytes(0, 31) by { Pow256Grows(0, 31); }
    assert MARK[..31] == Zeros(31);
    assert MARK[31] == 0xff;
  }

  lemma ZeroIsZero()
    ensures Word(Zeros(32)) == 0
  {
    ZeroKey();
    Uint64FitsWord(0);
  }

  lemma InputWords(slot: nat, val: Key)
    requires slot < TWO_64
    ensures Word(Slice(SlotKey(slot) + val, 0, 32)) == slot
    ensures Word(Slice(SlotKey(slot) + val, 32, 32)) == Word(val)
  {
    assert Slice(SlotKey(slot) + val, 0, 32) == SlotKey(slot);
    assert Slice(SlotKey(slot) + val, 32, 32) == val;
    Uint64FitsWord(slot);
  }

  lemma LiveFits(turn: nat)
    requires turn <= MAX_INT
    ensures forall s :: s in Live(turn) ==> s < TWO_64
    ensures |Live(turn)| == 2 ==> Live(turn)[0] != Live(turn)[1]
  {
  }

  function Keys(slots: seq<nat>): (keys: seq<Key>)
    ensures |keys| == |slots| && forall i :: 0 <= i < |slots| ==> keys[i] == SlotKey(slots[i])
  {
    seq(|slots|, i requires 0 <= i < |slots| => SlotKey(slots[i]))
  }

  /** How one turn moves the live slots: an even one keeps them, 1 mod 4 drops the oldest, the rest add one. */
  lemma LiveMoves(turn: nat)
    ensures turn == 0 ==> Live(turn) == []
    ensures (turn + 1) % 2 == 0 ==> Live(turn + 1) == Live(turn)
    ensures (turn + 1) % 4 == 1 && turn > 0 ==> |Live(turn)| == 2 && Live(turn + 1) == Live(turn)[1..]
    ensures (turn + 1) % 4 == 3 || turn == 0 ==> |Live(turn)| <= 1 && Live(turn + 1) == Live(turn) + [SlotOf(turn + 1)]
  {
    hide SlotOf;
  }

  lemma LiveSize(turn: nat)
    ensures turn == 0 ==> Live(turn) == []
    ensures (turn + 1) % 4 == 1 && turn > 0 ==> |Live(turn)| == 2
    ensures (turn + 1) % 2 == 0 ==> Live(turn + 1) == Live(turn)
  {
    LiveMoves(turn);
  }

  lemma OldestZeroed(s: Storage, slots: seq<nat>)
    requires |slots| == 2 && slots[0] != slots[1] && HoldsExactly(s, slots)
    ensures HoldsExactly(Store(s, slots[0], 0), slots[1..])
  {
    assert forall k :: k in slots <==> k == slots[0] || k == slots[1];
  }

  lemma FreshMarked(s: Storage, slots: seq<nat>, slot: nat)
    requires HoldsExactly(s, slots)
    ensures HoldsExactly(Store(s, slot, 0xff), slots + [slot])
  {
    assert forall k :: k in slots + [slot] <==> k in slots || k == slot;
  }

  lemma WrittenSnoc(inputs: seq<seq<Byte>>, slot: nat, val: Key)
    requires slot < TWO_64
    ensures Written(inputs + [SlotKey(slot) + val]) == Store(Written(inputs), slot, Word(val))
  {
    var all := inputs + [SlotKey(slot) + val];
    assert all[..|all| - 1] == inputs;
    InputWords(slot, val);
  }

  /** Zeroing the oldest live slot keeps the storage in step with the next turn's live slots. */
  lemma PopKeepsStep(inputs: seq<seq<Byte>>, turn: nat)
    requires 0 < turn < MAX_INT && (turn + 1) % 4 == 1 && HoldsExactly(Written(inputs), Live(turn))
    ensures |Live(turn)| == 2 && Keys(Live(turn + 1)) == Keys(Live(turn))[1..]
    ensures HoldsExactly(Written(inputs + [Keys(Live(turn))[0] + Zeros(32)]), Live(turn + 1))
  {
    hide Live, Written, ToBytes, Zeros;
    LiveMoves(turn);
    LiveFits(turn);
    assert Live(turn)[0] in Live(turn);
    WrittenSnoc(inputs, Live(turn)[0], Zeros(32));
    ZeroIsZero();
    OldestZeroed(Written(inputs), Live(turn));
  }

  lemma PushKeepsStep(inputs: seq<seq<Byte>>, turn: nat)
    requires turn < MAX_INT && ((turn + 1) % 4 == 3 || turn == 0) && HoldsExactly(Written(inputs), Live(turn))
    ensures |Live(turn)| <= 1 && Keys(Live(turn + 1)) == Keys(Live(turn)) + [SlotKey(SlotOf(turn + 1))]
    ensures HoldsExactly(Written(inputs + [SlotKey(SlotOf(turn + 1)) + MARK]), Live(turn + 1))
  {
    hide Live, Written, ToBytes, Zeros;
    LiveMoves(turn);
    WrittenSnoc(inputs, SlotOf(turn + 1), MARK);
    MarkIs255();
    FreshMarked(Written(inputs), Live(turn), SlotOf(turn + 1));
  }

  /** What a turn does with the live slots: keep them, zero the oldest, or mark a fresh one. */
  ghost predicate Rotated(turn: nat, before: seq<Key>, sh: Shape, after: seq<Key>) {
    match sh
    case Creation(_) => after == before
    case ToWriter(input) =>
      if turn % 4 == 1 && turn > 1 then |before| == 2 && after == before[1..] && input == before[0] + Zeros(32)
      else
        var slot := if turn % 3 == 0 then turn % 64 else turn;
        after == before + [SlotKey(slot)] && input == SlotKey(slot) + MARK
  }

  function BatchZeroized(): Code {
    Stores(Seeds(BatchSlots())) + Stores(Wipes(BatchSlots())) + RETURN_EMPTY
  }

  lemma OwnSlot(turn: nat)
    ensures SlotOf(turn) == if turn % 3 == 0 then turn % 64 else turn
  {
  }

  /** The slot a turn writes: every third turn one of the first 64, otherwise its own. */
  method FreshKey(turn: nat) returns (key: Key)
    requires turn <= MAX_INT
    ensures key == SlotKey(SlotOf(turn))
  {
    key := SlotKey(turn);
    if turn % 3 == 0 {
      key := SlotKey(turn % 64);
    }
  }

  /** An odd turn finds a slot to zero exactly when it is every other one, the first apart. */
  lemma OddTurn(turn: nat)
    requires 0 < turn <= MAX_INT && turn % 2 == 1
    ensures var n := |Live(turn - 1)|; n > 0 && (n > 64 || turn % 4 == 1) <==> turn % 4 == 1 && turn > 1
    ensures turn % 4 == 1 || turn % 4 == 3
  {
    LiveSize(turn - 1);
  }

  class World {
    var zeroizeTurn: nat
    var liveSlots: seq<Key>
    /** What was sent to the writer contract so far, in order. */
    ghost var inputs: seq<seq<Byte>>

    ghost predicate Valid()
      reads this
    {
      zeroizeTurn <= MAX_INT && InStep(zeroizeTurn)
    }

    constructor ()
      ensures Valid() && zeroizeTurn == 0 && inputs == []
    {
      zeroizeTurn := 0;
      liveSlots := [];
      inputs := [];
    }

    ghost predicate InStep(turn: nat)
      reads this
    {
      liveSlots == Keys(Live(turn)) && HoldsExactly(Written(inputs), Live(turn))
    }

    /**
     One zeroize turn. Even turns zeroize a whole batch in one creation; odd ones write a
     fresh slot of the writer or zero its oldest live one.
     */
    method ZeroizeShape() returns (sh: Shape)
      requires Valid() && zeroizeTurn < MAX_INT
      modifies this
      ensures Valid() && zeroizeTurn == old(zeroizeTurn) + 1
      ensures zeroizeTurn % 2 == 0 <==> sh.Creation?
      ensures sh.Creation? ==> sh.init == BatchZeroized()
      ensures inputs == old(inputs) + (if sh.ToWriter? then [sh.input] else [])
      ensures Rotated(zeroizeTurn, old(liveSlots), sh, liveSlots)
    {
      hide Live, Stores, Seeds, Wipes, Written, HoldsExactly, Keys;
      LiveSize(zeroizeTurn);
      zeroizeTurn := zeroizeTurn + 1;
      if zeroizeTurn % 2 == 0 {
        var slots := ZeroizeSlots();
        var init := ZeroizeInitCode(slots);
        return Creation(init);
      }
      sh := WriterShape();
    }

    /** The odd turns: the turn counter has already moved on. */
    method WriterShape() returns (sh: Shape)
      requires 0 < zeroizeTurn <= MAX_INT && zeroizeTurn % 2 == 1 && InStep(zeroizeTurn - 1)
      modifies this`liveSlots, this`inputs
      ensures InStep(zeroizeTurn) && sh.ToWriter?
      ensures inputs == old(inputs) + [sh.input]
      ensures Rotated(zeroizeTurn, old(liveSlots), sh, liveSlots)
    {
      hide Live, Written, HoldsExactly, ToBytes, Zeros, SlotOf, Keys;
      OddTurn(zeroizeTurn);
      OwnSlot(zeroizeTurn);
      if |liveSlots| > 0 && (|liveSlots| > 64 || zeroizeTurn % 4 == 1) {
        PopKeepsStep(inputs, zeroizeTurn - 1);
        var key := liveSlots[0];
        liveSlots := liveSlots[1..];
        sh := ToWriter(key + Zeros(32));
      } else {
        PushKeepsStep(inputs, zeroizeTurn - 1);
        var key := FreshKey(zeroizeTurn);
        liveSlots := liveSlots + [key];
        sh := ToWriter(key + MARK);
      }
      inputs := inputs + [sh.input];
    }
  }

  /**
   After any number of turns, replaying the writer's calls leaves it holding exactly the live slots: at most two,
   distinct.
   */
  lemma WriterHoldsTheLiveSlots(w: World, env: Env, st: State, to: Address, depth: nat)
    requires w.Valid()
    requires st.At(to) == Account(WriterRuntime(), map[], st.At(to).nonce)
    ensures
      var storage := Replay(env, st, to, w.inputs, depth).At(to).storage;
      && (forall k: nat :: k in storage <==> k < TWO_64 && SlotKey(k) in w.liveSlots)
      && (forall k :: k in storage ==> storage[k] == 0xff)
    ensures |w.liveSlots| <= 2 && (|w.liveSlots| == 2 ==> w.liveSlots[0] != w.liveSlots[1])
  {
    hide Live, Written, Replay, ToBytes, Word;
    WriterReplays(env, st, to, w.inputs, depth);
    var live := Live(w.zeroizeTurn);
    LiveFits(w.zeroizeTurn);
    forall i | 0 <= i < |live|
      ensures Word(w.liveSlots[i]) == live[i]
    {
      assert live[i] in live;
      Uint64FitsWord(live[i]);
    }
    forall k: nat | k < TWO_64
      ensures k in live <==> SlotKey(k) in w.liveSlots
    {
      Uint64FitsWord(k);
      if k in live {
        var i :| 0 <= i < |live| && live[i] == k;
        assert w.liveSlots[i] == SlotKey(k);
      }
    }
  }

  /** The reverting workload and the twin that prices it. */
  method RevertShape() returns (data: Code, priceData: Code)
    ensures data == Stores(Seeds(BatchSlots())) + REVERT_EMPTY
    ensures priceData == Stores(Seeds(BatchSlots())) + RETURN_EMPTY
  {
    var writes := ZeroizeSlots();
    var code := SeedCode(writes);
    data := code + REVERT_EMPTY;
    code := SeedCode(writes);
    priceData := code + RETURN_EMPTY;
  }
}
