/**
 Segments and reorg records of cmd/migration-monitor/lineage.go as values, and how placing a
 node, abandoning a suffix or retiring a segment changes them. A segment id is a number, 0
 for "s0"; a node is its 1-based number.
 */
module Segments {
  import opened Options
  import opened Chain

  type Node = nat

  type SegId = nat

  const SPINE: SegId := 0

  datatype Segment = Segment(
    lane: int, ancestor: Hash, firstSlot: nat, lastSlot: nat, blocks: nat,
    tip: Hash, live: bool, holders: seq<Node>, lostBy: seq<Node>)

  datatype Reorg = Reorg(
    slot: nat, node: Node, depth: nat, added: nat, ancestor: Hash, ancestorNumber: nat,
    oldHead: Hash, newHead: Hash, lost: Option<SegId>, won: Option<SegId>, crosses: bool)

  /** A hash for each node: its head, or the head it had. */
  type Heads = map<Node, Hash>

  type Counts = map<Node, nat>

  /** A segment for each block: its colour, or the branch it is the first of. */
  type Ids = map<Hash, SegId>

  type Recs = map<SegId, Segment>

  /** The first block of each branch. */
  type Firsts = map<SegId, Hash>

  /** What a client answers for a block hash. */
  datatype Fetched = Failed | Unknown | Found(block: Block)

  predicate Ascending(s: seq<Node>) {
    forall i, j :: 0 <= i < j < |s| ==> s[i] < s[j]
  }

  lemma NextInOrder(order: seq<Node>, i: nat)
    requires Ascending(order) && i < |order|
    ensures order[..i + 1] == order[..i] + [order[i]] && order[i] in order[i..]
    ensures forall k :: k in order[..i] ==> k < order[i]
    ensures forall k :: k in order[i + 1..] ==> k in order[i..] && k != order[i]
  {
  }

  lemma {:induction false} Least(s: set<Node>) returns (m: Node)
    requires s != {}
    ensures m in s && forall k :: k in s ==> m <= k
  {
    m :| m in s;
    if s != {m} {
      var m' := Least(s - {m});
      assert forall k :: k in s ==> k == m || k in s - {m};
      m := if m < m' then m else m';
    }
  }

  method Sorted(s: set<Node>) returns (r: seq<Node>)
    ensures Ascending(r) && forall n :: n in r <==> n in s
  {
    r := [];
    var rest := s;
    while rest != {}
      invariant rest <= s && Ascending(r)
      invariant forall n :: n in s <==> n in r || n in rest
      invariant forall n, k :: n in r && k in rest ==> n < k
    {
      ghost var least := Least(rest);
      var m :| m in rest && forall k :: k in rest ==> m <= k;
      assert forall i :: 0 <= i < |r| ==> r[i] in r;
      r := r + [m];
      rest := rest - {m};
    }
  }

  lemma PutLinked(s: Store, universe: Store, b: Block)
    requires Linked(universe) && Part(s, universe) && b.hash in universe && universe[b.hash] == b
    ensures Linked(s[b.hash := b]) && Part(s, s[b.hash := b]) && Part(s[b.hash := b], universe)
  {
    PartLinked(s[b.hash := b], universe);
  }

  ghost function Hashes(bs: seq<Block>): set<Hash> {
    set i | 0 <= i < |bs| :: bs[i].hash
  }

  lemma HashesSnoc(bs: seq<Block>, b: Block)
    ensures Hashes(bs + [b]) == Hashes(bs) + {b.hash}
  {
    assert forall i :: 0 <= i < |bs| ==> (bs + [b])[i] == bs[i];
    assert (bs + [b])[|bs|] == b;
  }

  lemma OneHash(b: Block)
    ensures Hashes([b]) == {b.hash} && Hashes([b][1..]) == {}
  {
    assert [b][0] == b;
  }

  /** Each block is the parent of the one before it. */
  ghost predicate Descends(bs: seq<Block>) {
    forall i :: 0 < i < |bs| ==> bs[i].hash == bs[i - 1].parent
  }

  /** Every branch record has one first block, and no two share it. */
  ghost predicate NamedBy(nextID: nat, byFirst: Ids, firstBlock: Firsts, ids: set<SegId>) {
    && nextID >= 1
    && (forall f :: f in byFirst ==>
          1 <= byFirst[f] < nextID && byFirst[f] in firstBlock && firstBlock[byFirst[f]] == f)
    && (forall id :: id in firstBlock ==> firstBlock[id] in byFirst && byFirst[firstBlock[id]] == id)
    && firstBlock.Keys == ids - {SPINE}
  }

  /** The canonical blocks are coloured s0; while nothing was pruned, no others are. */
  ghost predicate PaintedBy(segOf: Ids, pruned: bool, c: set<Hash>) {
    && (forall h :: h in c ==> h in segOf && segOf[h] == SPINE)
    && (!pruned ==> forall h :: h in segOf && segOf[h] == SPINE ==> h in c)
  }

  /** Painting a branch in its own colour changes neither that nor what is stored. */
  lemma BranchPainted(s: Store, segOf: Ids, pruned: bool, c: set<Hash>, h: Hash, colour: SegId)
    requires Linked(s) && PaintedBy(segOf, pruned, c) && colour != SPINE && segOf.Keys <= s.Keys
    ensures
      var segOf' := segOf + map b | b in Branch(s, h, c) :: colour;
      PaintedBy(segOf', pruned, c) && segOf'.Keys <= s.Keys
  {
    BranchOfPath(s, h, c);
  }

  /** A node's head is on the branch with this first block. */
  ghost predicate Home(s: Store, heads: Heads, n: Node, first: Hash, c: set<Hash>)
    requires Linked(s)
  {
    n in heads &&
    var branch := Branch(s, heads[n], c);
    branch != [] && branch[|branch| - 1] == first
  }

  ghost predicate HeldBy(s: Store, heads: Heads, segOf: Ids, rec: Segment, id: SegId, first: Hash, c: set<Hash>)
    requires Linked(s)
  {
    && rec.live && rec.holders != [] && Ascending(rec.holders)
    && first in s && first !in c && rec.tip in s
    && (forall n :: n in rec.holders ==>
          && Home(s, heads, n, first, c) && heads[n] in segOf && segOf[heads[n]] == id
          && heads[n] in s && s[heads[n]].number <= s[rec.tip].number)
    && (exists n :: n in rec.holders && n in heads && heads[n] == rec.tip)
    && rec.ancestor == s[first].parent
    && rec.blocks == s[rec.tip].number - s[first].number + 1
  }

  /** Outside the branch nothing is painted; on it, what is painted anew has the branch's own colour. */
  ghost predicate Repainted(branch: seq<Hash>, segOf0: Ids, segOf: Ids, byFirst: Ids) {
    && (forall h :: h in segOf0 ==> h in segOf)
    && (forall h :: h in segOf && (h !in segOf0 || segOf[h] != segOf0[h]) ==>
          h in branch && branch[|branch| - 1] in byFirst && segOf[h] == byFirst[branch[|branch| - 1]])
  }

  function OffIn(off: Counts, n: Node): nat {
    if n in off then off[n] else 0
  }

  /** Blocks enough, and for long enough, to be a branch: two blocks for two ticks, or one for three. */
  predicate Ripe(ticks: nat, blocks: nat) {
    ticks >= 2 && (blocks >= 2 || ticks >= 3)
  }

  /**
   Node n's count off the canonical chain moved on unless its branch had a name; the branch has one now iff it
   had or is ripe.
   */
  ghost predicate Counted(n: Node, branch: seq<Hash>, off0: Counts, off: Counts, byFirst0: Ids, byFirst: Ids)
  {
    branch != [] &&
    var first := branch[|branch| - 1];
    && off == (if first in byFirst0 then off0 else off0[n := OffIn(off0, n) + 1])
    && (first in byFirst <==> first in byFirst0 || Ripe(OffIn(off, n), |branch|))
    && byFirst.Keys <= byFirst0.Keys + {first}
    && (forall f :: f in byFirst0 ==> f in byFirst && byFirst[f] == byFirst0[f])
  }

  /** Node n's count: nothing while canonical, else one more than before unless its branch has a name. */
  ghost predicate Tallied(s: Store, heads: Heads, c: set<Hash>, n: Node, off0: Counts, off: Counts, byFirst: Ids)
    requires Linked(s)
  {
    n in heads &&
    if heads[n] in c then OffIn(off, n) == 0
    else
      var branch := Branch(s, heads[n], c);
      && branch != []
      && (OffIn(off, n) == OffIn(off0, n) + 1 || (OffIn(off, n) == OffIn(off0, n) && branch[|branch| - 1] in byFirst))
  }

  /** Node n's head has been on the branch of first block f long enough to name it. */
  ghost predicate Earned(s: Store, heads: Heads, c: set<Hash>, n: Node, off: Counts, f: Hash)
    requires Linked(s)
  {
    n in heads && heads[n] !in c &&
    var branch := Branch(s, heads[n], c);
    branch != [] && branch[|branch| - 1] == f && Ripe(OffIn(off, n), |branch|)
  }

  /** The nodes done are tallied, and a branch named since was earned by one of them. */
  ghost predicate Progress(s: Store, heads: Heads, c: set<Hash>, done: seq<Node>, off0: Counts, off: Counts,
                           byFirst0: Ids, byFirst: Ids)
    requires Linked(s)
  {
    && (forall n :: n in done ==> Tallied(s, heads, c, n, off0, off, byFirst))
    && (forall f :: f in byFirst0 ==> f in byFirst && byFirst[f] == byFirst0[f])
    && (forall f :: f in byFirst && f !in byFirst0 ==> exists n :: n in done && Earned(s, heads, c, n, off, f))
  }

  lemma ProgressStarts(s: Store, heads: Heads, c: set<Hash>, off: Counts, byFirst: Ids, segOf: Ids)
    requires Linked(s)
    ensures Progress(s, heads, c, [], off, off, byFirst, byFirst) && InkChange(s, c, segOf, segOf, byFirst)
  {
  }

  lemma ProgressStep(s: Store, heads: Heads, c: set<Hash>, done: seq<Node>, n: Node, off0: Counts, off1: Counts,
                     off: Counts, byFirst0: Ids, byFirst1: Ids, byFirst: Ids)
    requires Linked(s) && Progress(s, heads, c, done, off0, off1, byFirst0, byFirst1) && n in heads && n !in done
    requires OffIn(off1, n) == OffIn(off0, n)
    requires if heads[n] in c then off == off1[n := 0] && byFirst == byFirst1
             else Counted(n, Branch(s, heads[n], c), off1, off, byFirst1, byFirst)
    ensures Progress(s, heads, c, done + [n], off0, off, byFirst0, byFirst)
  {
    hide Branch;
    EarnedStep(s, heads, c, done, n, off0, off1, off, byFirst0, byFirst1, byFirst);
    TalliedStep(s, heads, c, done, n, off0, off1, off, byFirst0, byFirst1, byFirst);
  }

  lemma EarnedStep(s: Store, heads: Heads, c: set<Hash>, done: seq<Node>, n: Node, off0: Counts, off1: Counts,
                   off: Counts, byFirst0: Ids, byFirst1: Ids, byFirst: Ids)
    requires Linked(s) && Progress(s, heads, c, done, off0, off1, byFirst0, byFirst1) && n in heads && n !in done
    requires if heads[n] in c then off == off1[n := 0] && byFirst == byFirst1
             else Counted(n, Branch(s, heads[n], c), off1, off, byFirst1, byFirst)
    ensures forall f :: f in byFirst && f !in byFirst0 ==> exists k :: k in done + [n] && Earned(s, heads, c, k, off, f)
  {
    hide Branch, Tallied;
    forall f | f in byFirst && f !in byFirst0
      ensures exists k :: k in done + [n] && Earned(s, heads, c, k, off, f)
    {
      if f in byFirst1 {
        var k :| k in done && Earned(s, heads, c, k, off1, f);
        assert k in done + [n] && Earned(s, heads, c, k, off, f);
      } else {
        assert n in done + [n] && Earned(s, heads, c, n, off, f);
      }
    }
  }

  lemma TalliedStep(s: Store, heads: Heads, c: set<Hash>, done: seq<Node>, n: Node, off0: Counts, off1: Counts,
                    off: Counts, byFirst0: Ids, byFirst1: Ids, byFirst: Ids)
    requires Linked(s) && Progress(s, heads, c, done, off0, off1, byFirst0, byFirst1) && n in heads && n !in done
    requires OffIn(off1, n) == OffIn(off0, n)
    requires if heads[n] in c then off == off1[n := 0] && byFirst == byFirst1
             else Counted(n, Branch(s, heads[n], c), off1, off, byFirst1, byFirst)
    ensures forall k :: k in done + [n] ==> Tallied(s, heads, c, k, off0, off, byFirst)
  {
    hide Branch, Earned;
    forall k | k in done + [n]
      ensures Tallied(s, heads, c, k, off0, off, byFirst)
    {
      assert k in done ==> Tallied(s, heads, c, k, off0, off1, byFirst1);
    }
  }

  /** A block wears the colour its branch's first block names. */
  ghost predicate OwnColour(s: Store, c: set<Hash>, segOf: Ids, byFirst: Ids, h: Hash)
    requires Linked(s)
  {
    var branch := Branch(s, h, c);
    branch != [] && branch[|branch| - 1] in byFirst && h in segOf && segOf[h] == byFirst[branch[|branch| - 1]]
  }

  /** Every colour is an earlier one or the block's own. */
  ghost predicate InkChange(s: Store, c: set<Hash>, segOf0: Ids, segOf: Ids, byFirst: Ids)
    requires Linked(s)
  {
    && (forall h :: h in segOf0 ==> h in segOf)
    && (forall h :: h in segOf ==> (h in segOf0 && segOf[h] == segOf0[h]) || OwnColour(s, c, segOf, byFirst, h))
  }

  lemma InkStep(s: Store, head: Hash, c: set<Hash>, segOf0: Ids, segOf1: Ids, segOf: Ids, byFirst1: Ids, byFirst: Ids)
    requires Linked(s) && InkChange(s, c, segOf0, segOf1, byFirst1)
    requires forall f :: f in byFirst1 ==> f in byFirst && byFirst[f] == byFirst1[f]
    requires segOf == segOf1 || Repainted(Branch(s, head, c), segOf1, segOf, byFirst)
    ensures InkChange(s, c, segOf0, segOf, byFirst)
  {
    hide Branch;
    forall h | h in segOf
      ensures (h in segOf0 && segOf[h] == segOf0[h]) || OwnColour(s, c, segOf, byFirst, h)
    {
      if h in segOf1 && segOf[h] == segOf1[h] {
        assert OwnColour(s, c, segOf1, byFirst1, h) ==> OwnColour(s, c, segOf, byFirst, h);
      } else {
        BranchesShareTheirFirst(s, head, c, h);
      }
    }
  }

  /** The records keep everything but the segments they name. */
  ghost predicate SameRewinds(log0: seq<Reorg>, log: seq<Reorg>) {
    |log| == |log0| && forall i :: 0 <= i < |log| ==> log[i] == log0[i].(lost := log[i].lost, won := log[i].won)
  }

  /** Every branch seen is live and held, up to its tip's slot. */
  ghost predicate AllHeld(s: Store, heads: Heads, segOf: Ids, recs: Recs, firstBlock: Firsts, slotOf: nat -> nat,
                          seen: set<SegId>, c: set<Hash>)
    requires Linked(s)
  {
    forall id :: id in seen && id != SPINE ==>
      && id in recs && id in firstBlock
      && HeldBy(s, heads, segOf, recs[id], id, firstBlock[id], c)
      && recs[id].lastSlot == slotOf(s[recs[id].tip].time)
  }

  ghost predicate Within(recs: Recs, seen: set<SegId>, done: seq<Node>) {
    seen <= recs.Keys && forall id, n :: id in seen && id != SPINE && n in recs[id].holders ==> n in done
  }

  lemma JustTheSpine(s: Store, heads: Heads, segOf: Ids, recs: Recs, firstBlock: Firsts, slotOf: nat -> nat,
                     c: set<Hash>)
    requires Linked(s) && SPINE in recs
    ensures AllHeld(s, heads, segOf, recs, firstBlock, slotOf, {SPINE}, c) && Within(recs, {SPINE}, [])
  {
  }

  /** The records not seen keep a stored tip, and the lost ones hold nobody. */
  ghost predicate Idle(s: Store, recs: Recs, seen: set<SegId>) {
    forall id :: id in recs && id !in seen ==> recs[id].tip in s && (!recs[id].live ==> recs[id].holders == [])
  }

  /** Painting a branch in its own colour leaves the holders of a segment with another first block in theirs. */
  lemma OthersKeepColour(s: Store, heads: Heads, segOf: Ids, rec: Segment, id: SegId, first: Hash, c: set<Hash>,
                         h: Hash, colour: SegId)
    requires Linked(s) && HeldBy(s, heads, segOf, rec, id, first, c)
    requires Branch(s, h, c) != [] && Branch(s, h, c)[|Branch(s, h, c)| - 1] != first
    ensures HeldBy(s, heads, segOf + map b | b in Branch(s, h, c) :: colour, rec, id, first, c)
  {
    forall m | m in rec.holders
      ensures heads[m] !in Branch(s, h, c)
    {
      assert Home(s, heads, m, first, c);
      if heads[m] in Branch(s, h, c) {
        BranchesShareTheirFirst(s, h, c, heads[m]);
      }
    }
  }

  function Number(s: Store, h: Hash): nat {
    if h in s then s[h].number else 0
  }

  /** The record of a branch with one more holder: the tip moves only to a higher head. */
  function Joined(s: Store, rec: Segment, n: Node, h: Hash, first: Hash, slot: nat): Segment
    requires h in s && first in s && s[first].number <= s[h].number
  {
    var higher := rec.tip == NONE || s[h].number > Number(s, rec.tip);
    var moved := if !higher then rec else
                   rec.(tip := h, lastSlot := slot, ancestor := s[first].parent,
                        blocks := s[h].number - s[first].number + 1);
    moved.(holders := rec.holders + [n])
  }

  /** Such a record is still held, by its old holders and the new one. */
  lemma NewcomerHeld(s: Store, heads: Heads, segOf: Ids, rec: Segment, id: SegId, first: Hash, c: set<Hash>, n: Node,
                     slot: nat, joining: bool)
    requires Linked(s) && Home(s, heads, n, first, c) && rec.live
    requires if joining then HeldBy(s, heads, segOf, rec, id, first, c) else rec.holders == [] && rec.tip == NONE
    requires forall k :: k in rec.holders ==> k < n
    requires heads[n] in s && first in s && s[first].number <= s[heads[n]].number && first !in c
    ensures HeldBy(s, heads, segOf + map b | b in Branch(s, heads[n], c) :: id,
                   Joined(s, rec, n, heads[n], first, slot), id, first, c)
  {
    var rec' := Joined(s, rec, n, heads[n], first, slot);
    var segOf' := segOf + map b | b in Branch(s, heads[n], c) :: id;
    assert heads[n] == Branch(s, heads[n], c)[0];
    assert forall i :: 0 <= i < |rec.holders| ==> rec.holders[i] in rec.holders;
    assert n in rec'.holders;
    forall k | k in rec'.holders
      ensures Home(s, heads, k, first, c) && heads[k] in segOf' && segOf'[heads[k]] == id
      ensures heads[k] in s && s[heads[k]].number <= s[rec'.tip].number
    {
      assert k in rec.holders || k == n;
    }
    if rec.tip != NONE && rec'.tip == rec.tip {
      var k :| k in rec.holders && k in heads && heads[k] == rec.tip;
      assert k in rec'.holders;
    } else {
      assert n in rec'.holders && heads[n] == rec'.tip;
    }
  }

  lemma JoinedFields(s: Store, rec: Segment, n: Node, h: Hash, first: Hash, slot: nat)
    requires h in s && first in s && s[first].number <= s[h].number
    ensures
      var rec' := Joined(s, rec, n, h, first, slot);
      && rec'.holders == rec.holders + [n] && rec'.live == rec.live && rec'.lane == rec.lane
      && rec'.lostBy == rec.lostBy && rec'.firstSlot == rec.firstSlot
      && ((rec'.tip == h && rec'.lastSlot == slot) || (rec'.tip == rec.tip != NONE && rec'.lastSlot == rec.lastSlot))
  {
  }

  /** The first block of a branch is a stored, non-canonical ancestor of the head. */
  lemma BranchFirst(s: Store, heads: Heads, n: Node, c: set<Hash>)
    requires Linked(s) && n in heads && Branch(s, heads[n], c) != []
    ensures
      var branch := Branch(s, heads[n], c);
      var first := branch[|branch| - 1];
      && heads[n] in s && first in s && first !in c && s[first].number <= s[heads[n]].number
      && s[heads[n]].number - s[first].number + 1 == |branch|
      && Home(s, heads, n, first, c)
  {
    var branch := Branch(s, heads[n], c);
    BranchOfPath(s, heads[n], c);
    PathNumbers(s, heads[n]);
    assert branch[|branch| - 1] in branch;
    assert Path(s, heads[n])[|branch| - 1] == branch[|branch| - 1];
  }

  lemma DistinctFirsts(nextID: nat, byFirst: Ids, firstBlock: Firsts, ids: set<SegId>, id: SegId)
    requires NamedBy(nextID, byFirst, firstBlock, ids) && id in ids && id != SPINE
    ensures id in firstBlock
    ensures forall other :: other in ids && other != SPINE && other != id ==>
              other in firstBlock && firstBlock[other] != firstBlock[id]
  {
  }

  /** A node entering a branch leaves every branch seen, and now this one, held. */
  lemma EnterKeepsHeld(s: Store, heads: Heads, segOf: Ids, recs: Recs, firstBlock: Firsts, slotOf: nat -> nat,
                       seen: set<SegId>, c: set<Hash>, done: seq<Node>, n: Node, id: SegId, rec: Segment)
    requires Linked(s) && AllHeld(s, heads, segOf, recs, firstBlock, slotOf, seen, c) && Within(recs, seen, done)
    requires n in heads && Branch(s, heads[n], c) != [] && id in firstBlock && id != SPINE
    requires firstBlock[id] == Branch(s, heads[n], c)[|Branch(s, heads[n], c)| - 1]
    requires forall other :: other in recs && other != SPINE && other != id ==>
               other in firstBlock && firstBlock[other] != firstBlock[id]
    requires forall k :: k in done ==> k < n
    requires rec.live && (if id in seen then rec == recs[id] else rec.holders == [] && rec.tip == NONE)
    ensures
      (BranchFirst(s, heads, n, c);
       var rec' := Joined(s, rec, n, heads[n], firstBlock[id], slotOf(s[heads[n]].time));
       AllHeld(s, heads, segOf + map b | b in Branch(s, heads[n], c) :: id, recs[id := rec'], firstBlock, slotOf,
               seen + {id}, c))
  {
    hide Linked, Path, Branch, HeldBy, Home;
    BranchFirst(s, heads, n, c);
    var slot := slotOf(s[heads[n]].time);
    forall k | k in rec.holders
      ensures k < n
    {
      assert id in seen && k in recs[id].holders;
      assert k in done;
    }
    NewcomerHeld(s, heads, segOf, rec, id, firstBlock[id], c, n, slot, id in seen);
    forall other | other in seen && other != SPINE && other != id
      ensures HeldBy(s, heads, segOf + (map b | b in Branch(s, heads[n], c) :: id),
                     recs[other], other, firstBlock[other], c)
    {
      OthersKeepColour(s, heads, segOf, recs[other], other, firstBlock[other], c, heads[n], id);
    }
  }

  lemma EnterStaysWithin(recs: Recs, recs': Recs, seen: set<SegId>, done: seq<Node>, n: Node, id: SegId,
                         blank: set<SegId>)
    requires Within(recs, seen, done) && id in recs && id in recs' && recs' == recs[id := recs'[id]]
    requires if id in seen then recs'[id].holders == recs[id].holders + [n] else recs'[id].holders == [n]
    requires blank <= {id}
    ensures Within(recs', seen + {id}, done + [n])
    ensures forall s: Store :: Idle(s, recs, seen + blank) ==> Idle(s, recs', seen + {id} + {})
  {
  }

  lemma AscendingSnoc(s: seq<Node>, n: Node, done: seq<Node>)
    requires Ascending(s) && (forall k :: k in s ==> k in done) && (forall k :: k in done ==> k < n)
    ensures Ascending(s + [n])
  {
    assert forall i :: 0 <= i < |s| ==> s[i] in s;
  }

  lemma NonEmptyBranch(s: Store, h: Hash, c: set<Hash>)
    requires Linked(s) && h in s && h !in c
    ensures Branch(s, h, c) != []
  {
  }

  lemma SuffixShape(s: Store, h: Hash, c: set<Hash>)
    requires Linked(s) && h in s && h !in c
    ensures
      var suffix := Branch(s, h, c);
      suffix != [] && suffix[0] == h && suffix[|suffix| - 1] in s && forall b :: b in suffix ==> b in s
  {
    BranchOfPath(s, h, c);
    assert Branch(s, h, c)[|Branch(s, h, c)| - 1] in Branch(s, h, c);
  }

  /**
   While what was s0 lay on the old tip's chain, painting the abandoned suffix and then the
   new chain leaves s0 exactly the new chain.
   */
  lemma SpineRepainted(s: Store, segOf: Ids, segOf': Ids, pruned: bool, tip0: Hash, tip: Hash, id: SegId)
    requires Linked(s) && id != SPINE
    requires !pruned ==> forall h :: h in segOf && segOf[h] == SPINE ==> h in Path(s, tip0)
    requires segOf' == segOf + map h | h in Branch(s, tip0, Elems(Path(s, tip))) :: id
    ensures PaintedBy(segOf' + map h | h in Elems(Path(s, tip)) :: SPINE, pruned, Elems(Path(s, tip)))
  {
    PathSplits(s, tip, tip0);
  }

  lemma NoBranch(s: Store, h: Hash, c: set<Hash>)
    requires Linked(s)
    ensures h == NONE || h in c ==> Branch(s, h, c) == []
  {
  }

  lemma LeftIsOff(s: Store, suffix: seq<Hash>, c: set<Hash>, tip0: Hash)
    requires Linked(s) && (suffix == [] || suffix == Branch(s, tip0, c))
    ensures forall h :: h in suffix ==> h !in c
  {
    BranchOfPath(s, tip0, c);
  }

  /** A holder of s0 more touches no branch. */
  lemma SpinePlaced(s: Store, heads: Heads, segOf: Ids, recs: Recs, recs': Recs, firstBlock: Firsts, slotOf: nat -> nat,
                    c: set<Hash>, seen: set<SegId>, done: seq<Node>, n: Node)
    requires Linked(s) && AllHeld(s, heads, segOf, recs, firstBlock, slotOf, seen, c)
    requires Within(recs, seen, done) && Idle(s, recs, seen + {})
    requires SPINE in seen && SPINE in recs' && recs' == recs[SPINE := recs'[SPINE]]
    ensures Within(recs', seen, done + [n]) && recs'.Keys == recs.Keys && Idle(s, recs', seen + {})
    ensures AllHeld(s, heads, segOf, recs', firstBlock, slotOf, seen, c)
  {
    hide HeldBy;
  }

  /** A record just allocated is not among those seen, and leaves the others alone. */
  lemma Allocated(s: Store, heads: Heads, segOf: Ids, recs: Recs, recs': Recs, firstBlock: Firsts, firstBlock': Firsts,
                  slotOf: nat -> nat, c: set<Hash>, seen: set<SegId>, done: seq<Node>, id: SegId, known: bool)
    requires Linked(s) && AllHeld(s, heads, segOf, recs, firstBlock, slotOf, seen, c)
    requires Within(recs, seen, done) && Idle(s, recs, seen + {}) && id in recs'
    requires if known then recs' == recs else id !in recs && recs' == recs[id := recs'[id]]
    requires forall k :: k in firstBlock && k in recs ==> k in firstBlock' && firstBlock'[k] == firstBlock[k]
    ensures Within(recs', seen, done) && Idle(s, recs', seen + (if known then {} else {id}))
    ensures AllHeld(s, heads, segOf, recs', firstBlock', slotOf, seen, c)
    ensures !known ==> id !in seen
  {
    hide HeldBy;
  }

  function ColourOf(segOf: Ids, h: Hash): Option<SegId> {
    if h in segOf then Some(segOf[h]) else None
  }

  /** The nodes whose head, or the one they had before this tick, has the colour. */
  ghost predicate LostBy(lostBy: seq<Node>, heads: Heads, was: Heads, segOf: Ids, id: SegId) {
    && Ascending(lostBy)
    && forall n :: n in lostBy <==> n in heads && ColourOf(segOf, if n in was then was[n] else heads[n]) == Some(id)
  }

  lemma RepaintedOnce(branch: seq<Hash>, segOf0: Ids, segOf: Ids, byFirst: Ids, id: SegId)
    requires branch != [] && branch[|branch| - 1] in byFirst && byFirst[branch[|branch| - 1]] == id
    requires segOf == segOf0 || segOf == segOf0 + map h | h in branch :: id
    ensures Repainted(branch, segOf0, segOf, byFirst)
  {
  }

  /** Names are kept, and the only new one, if any, is the first block of this branch. */
  ghost predicate Named1(branch: seq<Hash>, byFirst0: Ids, byFirst: Ids) {
    && (forall f :: f in byFirst0 ==> f in byFirst && byFirst[f] == byFirst0[f])
    && (forall f :: f in byFirst && f !in byFirst0 ==> branch != [] && f == branch[|branch| - 1])
  }

  lemma NamedNothing(byFirst: Ids)
    ensures Named1([], byFirst, byFirst)
  {
  }

  /** The record of an abandoned suffix, newest block first. */
  ghost predicate Lost(s: Store, slotOf: nat -> nat, rec: Segment, suffix: seq<Hash>) {
    && suffix != [] && suffix[0] in s && suffix[|suffix| - 1] in s
    && rec.tip == suffix[0] && rec.blocks == |suffix| && rec.ancestor == s[suffix[|suffix| - 1]].parent
    && rec.lastSlot == slotOf(s[suffix[0]].time) && !rec.live && rec.holders == []
  }

  /**
   An abandoned suffix is one lost segment, lost by whoever was on it; the records that left it in its s0 days
   name it.
   */
  ghost predicate AbandonedBy(s: Store, heads: Heads, recs: Recs, segOf: Ids, byFirst: Ids, log: seq<Reorg>,
                              slotOf: nat -> nat, suffix: seq<Hash>, was: Heads, segOf0: Ids, log0: seq<Reorg>)
  {
    && suffix != [] && suffix[|suffix| - 1] in byFirst
    && var id := byFirst[suffix[|suffix| - 1]];
    && id != SPINE && id in recs && Lost(s, slotOf, recs[id], suffix)
    && (forall h :: h in suffix ==> h in segOf && segOf[h] == id)
    && LostBy(recs[id].lostBy, heads, was, segOf0 + (map h | h in suffix :: id), id)
    && log == Redirected(log0, segOf0 + (map h | h in suffix :: id), id)
  }

  /** Painting the new spine leaves the abandoned suffix as it is. */
  lemma PaintKeepsAbandoned(s: Store, heads: Heads, recs: Recs, recs': Recs, segOf: Ids, byFirst: Ids, log: seq<Reorg>,
                            slotOf: nat -> nat, suffix: seq<Hash>, was: Heads, segOf0: Ids, log0: seq<Reorg>,
                            c: set<Hash>)
    requires AbandonedBy(s, heads, recs, segOf, byFirst, log, slotOf, suffix, was, segOf0, log0)
    requires SPINE in recs' && recs' == recs[SPINE := recs'[SPINE]] && forall h :: h in suffix ==> h !in c
    ensures AbandonedBy(s, heads, recs', segOf + map h | h in c :: SPINE,
                        byFirst, log, slotOf, suffix, was, segOf0, log0)
  {
    hide Lost, LostBy, Redirected;
  }

  /** Records that left h in its s0 days point at the segment h is in now. */
  function Redirected(log: seq<Reorg>, segOf: Ids, id: SegId): (r: seq<Reorg>)
    ensures |r| == |log|
    ensures forall i :: 0 <= i < |log| ==>
              r[i] == if log[i].lost == Some(SPINE) && log[i].oldHead in segOf && segOf[log[i].oldHead] == id
                      then log[i].(lost := Some(id)) else log[i]
  {
    seq(|log|, i requires 0 <= i < |log| =>
      if log[i].lost == Some(SPINE) && log[i].oldHead in segOf && segOf[log[i].oldHead] == id
      then log[i].(lost := Some(id)) else log[i])
  }

  /** Records naming an absorbed segment name s0 instead. */
  function Absorbed(log: seq<Reorg>, gone: set<SegId>): (r: seq<Reorg>)
    ensures |r| == |log|
    ensures forall i :: 0 <= i < |log| ==>
              r[i] == log[i].(lost := SpineIf(log[i].lost, gone), won := SpineIf(log[i].won, gone))
  {
    seq(|log|,
        i requires 0 <= i < |log| => log[i].(lost := SpineIf(log[i].lost, gone), won := SpineIf(log[i].won, gone)))
  }

  function SpineIf(id: Option<SegId>, gone: set<SegId>): Option<SegId> {
    if id.Some? && id.value in gone then Some(SPINE) else id
  }

  function Retired(rec: Segment): Segment {
    if rec.live then rec.(live := false, lostBy := rec.holders, holders := []) else rec
  }

  lemma NameRemoved(nextID: nat, byFirst: Ids, firstBlock: Firsts, ids: set<SegId>, id: SegId)
    requires NamedBy(nextID, byFirst, firstBlock, ids) && id in firstBlock
    ensures NamedBy(nextID, byFirst - {firstBlock[id]}, firstBlock - {id}, ids - {id})
  {
    assert (firstBlock - {id}).Keys == firstBlock.Keys - {id};
  }

  /** Of the segments neither seen nor still to do, the absorbed are gone and the rest are retired. */
  ghost predicate Retirement(recs0: Recs, recs: Recs, firsts0: Firsts, firsts: Firsts, c: set<Hash>, seen: set<SegId>,
                             todo: set<SegId>)
  {
    && recs.Keys <= recs0.Keys
    && (forall id :: id in recs0 && (id in seen || id in todo) ==> id in recs && recs[id] == recs0[id])
    && (forall id :: id in recs0 && id !in seen && id !in todo ==>
          id in firsts0 && if firsts0[id] in c then id !in recs else id in recs && recs[id] == Retired(recs0[id]))
    && (forall id :: id in firsts <==> id in firsts0 && (id in recs0 ==> id in recs))
    && (forall id :: id in firsts ==> firsts[id] == firsts0[id])
  }

  lemma RetirementStarts(recs: Recs, firsts: Firsts, c: set<Hash>, seen: set<SegId>)
    ensures Retirement(recs, recs, firsts, firsts, c, seen, recs.Keys - seen)
  {
  }

  lemma RetirementStep(recs0: Recs, recs1: Recs, recs: Recs, firsts0: Firsts, firsts1: Firsts, firsts: Firsts,
                       c: set<Hash>, seen: set<SegId>, todo: set<SegId>, id: SegId)
    requires Retirement(recs0, recs1, firsts0, firsts1, c, seen, todo + {id}) && id in recs1 && id !in seen
             && id !in todo && id in firsts1
    requires recs == if firsts1[id] in c then recs1 - {id} else recs1[id := Retired(recs1[id])]
    requires firsts == firsts1 - (if firsts1[id] in c then {id} else {})
    ensures Retirement(recs0, recs, firsts0, firsts, c, seen, todo)
  {
  }

  /** Only names of canonical blocks were dropped. */
  ghost predicate NamesKept(byFirst0: Ids, byFirst: Ids, c: set<Hash>) {
    && (forall f :: f in byFirst ==> f in byFirst0 && byFirst[f] == byFirst0[f])
    && (forall f :: f in byFirst0 && f !in c ==> f in byFirst)
  }

  lemma NamesKeptStarts(byFirst: Ids, c: set<Hash>)
    ensures NamesKept(byFirst, byFirst, c)
  {
  }

  lemma NamesKeptStep(byFirst0: Ids, byFirst1: Ids, byFirst: Ids, c: set<Hash>, f: Hash)
    requires NamesKept(byFirst0, byFirst1, c) && byFirst == byFirst1 - (if f in c then {f} else {})
    ensures NamesKept(byFirst0, byFirst, c)
  {
  }

  lemma NamesCover(nextID: nat, byFirst: Ids, firstBlock: Firsts, ids: set<SegId>)
    requires NamedBy(nextID, byFirst, firstBlock, ids)
    ensures firstBlock.Keys == ids - {SPINE}
  {
  }

  lemma RetirementKeeps(recs0: Recs, recs: Recs, firsts0: Firsts, firsts: Firsts, c: set<Hash>, seen: set<SegId>,
                        id: SegId)
    requires Retirement(recs0, recs, firsts0, firsts, c, seen, {}) && id in seen && id in recs0
    ensures id in recs && recs[id] == recs0[id]
  {
  }

  lemma AbsorbedNothing(log: seq<Reorg>)
    ensures Absorbed(log, {}) == log
  {
  }

  lemma AbsorbedOneMore(log: seq<Reorg>, gone: set<SegId>, id: SegId)
    ensures Absorbed(Absorbed(log, gone), {id}) == Absorbed(log, gone + {id})
  {
  }

  ghost function LiveIds(recs: Recs): set<SegId> {
    set id | id in recs && recs[id].live
  }

  /**
   How a recomputation accounts for itself: each node's count of ticks off the canonical chain;
   a branch gets a name only by being abandoned or by outlasting the hysteresis; and a colour
   is the canonical one, the block's own branch's, or the one the block had.
   */
  ghost predicate Explained(s: Store, heads: Heads, c: set<Hash>, left: seq<Hash>, off0: Counts, off: Counts,
                            names0: Ids, names: Ids, segOf0: Ids, segOf: Ids)
    requires Linked(s)
  {
    && (forall n :: n in heads ==> Tallied(s, heads, c, n, off0, off, names))
    && (forall f :: f in names && f !in names0 ==>
          f in left || exists n :: n in heads && Earned(s, heads, c, n, off, f))
    && (forall h :: h in segOf ==>
          || h in c
          || OwnColour(s, c, segOf, names, h)
          || (h !in left && h in segOf0 && segOf[h] == segOf0[h]))
  }

  lemma BranchEndsOff(s: Store, h: Hash, c: set<Hash>)
    requires Linked(s) && Branch(s, h, c) != []
    ensures Branch(s, h, c)[|Branch(s, h, c)| - 1] !in c
  {
    BranchOfPath(s, h, c);
    assert Branch(s, h, c)[|Branch(s, h, c)| - 1] in Branch(s, h, c);
  }

  lemma TalliesLast(s: Store, heads: Heads, c: set<Hash>, n: Node, off0: Counts, off: Counts, names1: Ids, names: Ids)
    requires Linked(s) && Tallied(s, heads, c, n, off0, off, names1) && NamesKept(names1, names, c)
    ensures Tallied(s, heads, c, n, off0, off, names)
  {
    hide Branch;
    if heads[n] !in c {
      BranchEndsOff(s, heads[n], c);
    }
  }

  lemma ColoursLast(s: Store, c: set<Hash>, tip0: Hash, left: seq<Hash>, names1: Ids, names2: Ids, names: Ids,
                    segOf0: Ids, segOf1: Ids, segOf: Ids, h: Hash)
    requires Linked(s) && (left == [] || left == Branch(s, tip0, c)) && h in segOf && h !in c
    requires NamesKept(names2, names, c) && InkChange(s, c, segOf1, segOf, names2)
    requires forall f :: f in names1 ==> f in names2 && names2[f] == names1[f]
    requires h in segOf1 ==> h in left || (h in segOf0 && segOf1[h] == segOf0[h])
    requires h in left ==> left[|left| - 1] in names1 && h in segOf1 && segOf1[h] == names1[left[|left| - 1]]
    ensures OwnColour(s, c, segOf, names, h) || (h !in left && h in segOf0 && segOf[h] == segOf0[h])
  {
    hide Branch;
    if h in left {
      BranchesShareTheirFirst(s, tip0, c, h);
    }
    if Branch(s, h, c) != [] {
      BranchEndsOff(s, h, c);
    }
  }

  lemma ExplainedAtLast(s: Store, heads: Heads, c: set<Hash>, tip0: Hash, left: seq<Hash>, nodes: seq<Node>,
                        off0: Counts, off: Counts, names0: Ids, names1: Ids, names2: Ids, names: Ids, segOf0: Ids,
                        segOf1: Ids, segOf: Ids)
    requires Linked(s) && (forall n :: n in nodes <==> n in heads) && (left == [] || left == Branch(s, tip0, c))
    requires Named1(left, names0, names1) && Progress(s, heads, c, nodes, off0, off, names1, names2)
             && NamesKept(names2, names, c)
    requires InkChange(s, c, segOf1, segOf, names2)
    requires forall h :: h in segOf1 ==> h in c || h in left || (h in segOf0 && segOf1[h] == segOf0[h])
    requires left != [] ==>
               var id := left[|left| - 1];
               id in names1 && forall h :: h in left ==> h in segOf1 && segOf1[h] == names1[id]
    ensures Explained(s, heads, c, left, off0, off, names0, names, segOf0, segOf)
  {
    hide Branch, Tallied, Earned, OwnColour, InkChange;
    forall n | n in heads
      ensures Tallied(s, heads, c, n, off0, off, names)
    {
      TalliesLast(s, heads, c, n, off0, off, names2, names);
    }
    forall f | f in names && f !in names0
      ensures f in left || exists n :: n in heads && Earned(s, heads, c, n, off, f)
    {
      if f !in names1 {
        var n :| n in nodes && Earned(s, heads, c, n, off, f);
        assert n in heads && Earned(s, heads, c, n, off, f);
      }
    }
    forall h | h in segOf && h !in c
      ensures OwnColour(s, c, segOf, names, h) || (h !in left && h in segOf0 && segOf[h] == segOf0[h])
    {
      ColoursLast(s, c, tip0, left, names1, names2, names, segOf0, segOf1, segOf, h);
    }
  }

  lemma SettledAtLast(s: Store, heads: Heads, segOf: Ids, recs0: Recs, recs: Recs, firsts0: Firsts, firsts: Firsts,
                      slotOf: nat -> nat, c: set<Hash>, seen: set<SegId>, nodes: seq<Node>)
    requires Linked(s) && AllHeld(s, heads, segOf, recs0, firsts0, slotOf, seen, c) && Within(recs0, seen, nodes)
             && Idle(s, recs0, seen)
    requires SPINE in seen && SPINE in recs0 && recs0[SPINE].live && recs0[SPINE].tip in s
    requires Retirement(recs0, recs, firsts0, firsts, c, seen, {}) && firsts.Keys == recs.Keys - {SPINE}
    ensures LiveIds(recs) == seen && AllHeld(s, heads, segOf, recs, firsts, slotOf, LiveIds(recs), c)
            && Idle(s, recs, LiveIds(recs))
    ensures SPINE in recs && recs[SPINE] == recs0[SPINE]
    ensures forall id :: id in recs ==> recs[id].tip in s && (!recs[id].live ==> recs[id].holders == [])
    ensures forall id :: id in firsts ==> firsts[id] !in c
  {
    StandAtLast(s, heads, segOf, recs0, recs, firsts0, firsts, slotOf, c, seen, nodes);
    assert seen <= recs0.Keys;
    hide HeldBy, Within;
    LiveAre(recs, seen);
    hide LiveIds;
  }

  lemma LiveAre(recs: Recs, seen: set<SegId>)
    requires seen <= recs.Keys && forall id :: id in recs ==> (recs[id].live <==> id in seen)
    ensures LiveIds(recs) == seen
  {
  }

  /** After retirement each record is as it was and live, or orphaned with nobody on it. */
  lemma StandAtLast(s: Store, heads: Heads, segOf: Ids, recs0: Recs, recs: Recs, firsts0: Firsts, firsts: Firsts,
                    slotOf: nat -> nat, c: set<Hash>, seen: set<SegId>, nodes: seq<Node>)
    requires Linked(s) && AllHeld(s, heads, segOf, recs0, firsts0, slotOf, seen, c) && Within(recs0, seen, nodes)
             && Idle(s, recs0, seen)
    requires SPINE in seen && SPINE in recs0 && recs0[SPINE].live && recs0[SPINE].tip in s
    requires Retirement(recs0, recs, firsts0, firsts, c, seen, {}) && firsts.Keys == recs.Keys - {SPINE}
    ensures forall id :: id in seen ==> id in recs && recs[id] == recs0[id] && recs[id].live && recs[id].tip in s
    ensures forall id :: id in recs && id !in seen ==> !recs[id].live && recs[id].holders == [] && recs[id].tip in s
    ensures forall id :: id in firsts ==> id in firsts0 && firsts[id] == firsts0[id] && firsts[id] !in c
  {
    HeldFacts(s, heads, segOf, recs0, firsts0, slotOf, seen, c);
    hide HeldBy, AllHeld;
  }

  lemma HeldFacts(s: Store, heads: Heads, segOf: Ids, recs: Recs, firsts: Firsts, slotOf: nat -> nat, seen: set<SegId>,
                  c: set<Hash>)
    requires Linked(s) && AllHeld(s, heads, segOf, recs, firsts, slotOf, seen, c)
    ensures forall id :: id in seen && id != SPINE ==>
              id in recs && recs[id].live && recs[id].tip in s && id in firsts && firsts[id] !in c
  {
  }

  lemma SeenKnown(recs: Recs, seen: set<SegId>, done: seq<Node>)
    requires Within(recs, seen, done)
    ensures seen <= recs.Keys
  {
  }

  lemma SameAlready(log: seq<Reorg>)
    ensures SameRewinds(log, log)
  {
  }

  /** Redirecting and absorbing change nothing but the segments that records name. */
  lemma RewindsLast(s: Store, heads: Heads, recs1: Recs, segOf1: Ids, names1: Ids, log1: seq<Reorg>, slotOf: nat -> nat,
                    left: seq<Hash>, was: Heads, segOf0: Ids, log0: seq<Reorg>, log: seq<Reorg>, gone: set<SegId>)
    requires if left == [] then log1 == log0
             else AbandonedBy(s, heads, recs1, segOf1, names1, log1, slotOf, left, was, segOf0, log0)
    requires log == Absorbed(log1, gone) && SPINE !in gone
    ensures SameRewinds(log0, log)
    ensures forall r, k :: r in log && k in gone ==> r.lost != Some(k) && r.won != Some(k)
    ensures left != [] ==>
              var id := left[|left| - 1];
               id in names1 && forall h :: h in left ==> h in segOf1 && segOf1[h] == names1[id]
  {
    hide Lost, LostBy;
  }

  lemma LengthKept(log0: seq<Reorg>, log: seq<Reorg>)
    requires SameRewinds(log0, log)
    ensures |log| == |log0|
  {
  }

  /** A meeting point and both heads are stored, and it is above neither. */
  lemma MeetKnown(s: Store, x: Hash, y: Hash)
    requires Linked(s)
    ensures Meet(s, x, y).Some? ==>
              var a := Meet(s, x, y).value;
              a in s && x in s && y in s && s[a].number <= s[x].number && s[a].number <= s[y].number
  {
    MeetIsHighest(s, x, y);
    if Meet(s, x, y).Some? {
      PathTailOf(s, x, Meet(s, x, y).value);
      PathTailOf(s, y, Meet(s, x, y).value);
    }
  }

  /** Exactly the blocks of recent slots and the pinned ones stay, unchanged. */
  ghost predicate KeptFrom(s: Store, s': Store, slotOf: nat -> nat, cutoff: nat, keep: set<Hash>) {
    && (forall h :: h in s' <==> h in s && (slotOf(s[h].time) >= cutoff || h in keep))
    && (forall h :: h in s' ==> s'[h] == s[h])
  }

  function KeepRecent(s: Store, slotOf: nat -> nat, cutoff: nat, keep: set<Hash>): (s': Store)
    ensures KeptFrom(s, s', slotOf, cutoff, keep)
  {
    map h | h in s && (slotOf(s[h].time) >= cutoff || h in keep) :: s[h]
  }

  function Restricted(segOf: Ids, hashes: set<Hash>): (r: Ids)
    ensures forall h :: h in r <==> h in segOf && h in hashes
    ensures forall h :: h in r ==> r[h] == segOf[h]
    ensures r.Keys <= hashes
  {
    map h | h in segOf && h in hashes :: segOf[h]
  }

  lemma KeptIsPart(s: Store, s': Store, ever: Store, slotOf: nat -> nat, cutoff: nat, keep: set<Hash>)
    requires Linked(s) && Part(s, ever) && KeptFrom(s, s', slotOf, cutoff, keep)
    ensures Linked(s') && Part(s', ever)
    ensures forall h :: h in s && h in keep ==> h in s'
  {
    PartLinked(s', s);
  }

  /** The records not older than the cutoff, in order. */
  function Since(log: seq<Reorg>, cutoff: nat): seq<Reorg> {
    if log == [] then [] else (if log[0].slot >= cutoff then [log[0]] else []) + Since(log[1..], cutoff)
  }

  lemma {:induction false} SinceSnoc(log: seq<Reorg>, r: Reorg, cutoff: nat)
    ensures Since(log + [r], cutoff) == Since(log, cutoff) + (if r.slot >= cutoff then [r] else [])
  {
    if log != [] {
      assert (log + [r])[1..] == log[1..] + [r];
      SinceSnoc(log[1..], r, cutoff);
    }
  }

  /** No record from the cutoff on is lost or doubled, no older one stays, and the order is kept. */
  lemma {:induction false} SinceMeans(log: seq<Reorg>, more: seq<Reorg>, r: Reorg, cutoff: nat)
    ensures multiset(Since(log, cutoff))[r] == if r.slot >= cutoff then multiset(log)[r] else 0
    ensures Since(log + more, cutoff) == Since(log, cutoff) + Since(more, cutoff)
  {
    if log == [] {
      assert log + more == more;
    } else {
      assert log == [log[0]] + log[1..] && (log + more)[1..] == log[1..] + more;
      SinceMeans(log[1..], more, r, cutoff);
    }
  }
}
