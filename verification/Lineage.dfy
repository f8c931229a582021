/**
 The block lineage of cmd/migration-monitor/lineage.go: the store of headers, each node's
 head, the anchor's chain (s0), the branches off it, and the reorg records.
 */
module Lineage {
  import opened Options
  import opened Chain
  import opened Segments
  import opened Seats
  import opened Fates

  const LANES: seq<int> := [1, -1, 2, -2, 3, -3]

  /** No live occupant, and every orphan in the lane ended more than three slots before. */
  predicate Vacant(recs: Recs, lane: int, firstSlot: nat) {
    forall id :: id in recs && recs[id].lane == lane ==> !recs[id].live && recs[id].lastSlot + 3 < firstSlot
  }

  lemma BlockedIsNotVacant(recs: Recs, lane: int, firstSlot: nat)
    ensures Blocked(recs, lane, firstSlot) <==> !Vacant(recs, lane, firstSlot)
  {
  }

  /** Of the lanes before the i-th none is left out: when i is past the last, of all. */
  lemma FirstOfLanes(recs: Recs, firstSlot: nat, i: nat, lane: int)
    requires if i < |LANES| then lane == LANES[i] && Vacant(recs, lane, firstSlot) else i == |LANES| && lane == 4
    requires forall k :: 0 <= k < i ==> !Vacant(recs, LANES[k], firstSlot)
    ensures FirstVacant(recs, firstSlot, lane)
  {
    forall k | k in {1, -1, 2, -2, 3, -3} && Earlier(k, lane)
      ensures Blocked(recs, k, firstSlot)
    {
      var j := LaneIndex(k);
      BlockedIsNotVacant(recs, k, firstSlot);
    }
  }

  lemma LaneIndex(lane: int) returns (j: nat)
    requires lane in {1, -1, 2, -2, 3, -3}
    ensures j < |LANES| && LANES[j] == lane
    ensures forall i :: 0 <= i < |LANES| && Earlier(lane, LANES[i]) ==> j < i
  {
    j := if lane == 1 then 0 else if lane == -1 then 1 else if lane == 2 then 2 else if lane == -2 then 3
         else if lane == 3 then 4 else 5;
  }

  class Lineage {
    const forkTime: nat
    const slotOf: nat -> nat
    const retainSlots: nat
    const anchor: Node
    /** Every header any node could serve; hashes determine headers. */
    ghost const universe: Store

    var byHash: Store
    var heads: Heads
    var moved: Heads
    var off: Counts
    var segOf: Ids
    var recs: Recs
    var byFirst: Ids
    var nextID: nat
    var log: seq<Reorg>
    var truncated: nat

    /** Every header this run ever put, and whether prune has dropped one since. */
    ghost var ever: Store
    ghost var pruned: bool
    /** The inverse of byFirst. */
    ghost var firstBlock: Firsts

    ghost predicate Stored()
      reads `byHash, `ever, `heads, `moved, `pruned
    {
      && Linked(universe) && Linked(ever) && Linked(byHash)
      && Part(byHash, ever) && Part(ever, universe)
      && (forall n :: n in heads ==> heads[n] in byHash)
      && moved.Keys <= heads.Keys
      && (!pruned ==> byHash == ever)
    }

    /** Only stored blocks have a colour. */
    ghost predicate Inked()
      reads `segOf, `byHash
    {
      segOf.Keys <= byHash.Keys
    }

    ghost predicate Named()
      reads `nextID, `byFirst, `firstBlock, `recs
    {
      NamedBy(nextID, byFirst, firstBlock, recs.Keys)
    }

    ghost predicate Shaped()
      reads `recs, `byHash
    {
      && (forall id :: id in recs ==> recs[id].tip in byHash)
      && (forall id :: id in recs && !recs[id].live ==> recs[id].holders == [])
      && (SPINE in recs ==> recs[SPINE].live)
    }

    /** While nothing was pruned, whatever is coloured s0 is an ancestor of its tip. */
    ghost predicate Coloured()
      reads `pruned, `segOf, `recs, `byHash
      requires Linked(byHash)
    {
      !pruned ==> forall h :: h in segOf && segOf[h] == SPINE ==> SPINE in recs && h in Path(byHash, recs[SPINE].tip)
    }

    ghost predicate Valid()
      reads this
    {
      Stored() && Inked() && Named() && Shaped() && Coloured()
    }

    constructor (forkTime: nat, slotOf: nat -> nat, retainSlots: nat, anchor: Node, ghost universe: Store)
      requires Linked(universe)
      ensures Valid() && byHash == map[] && heads == map[] && moved == map[] && log == [] && truncated == 0
      ensures this.forkTime == forkTime && this.slotOf == slotOf && this.retainSlots == retainSlots
              && this.anchor == anchor
      ensures this.universe == universe && ever == map[] && !pruned
    {
      this.forkTime, this.slotOf, this.retainSlots, this.anchor := forkTime, slotOf, retainSlots, anchor;
      this.universe := universe;
      byHash, heads, moved, off := map[], map[], map[], map[];
      segOf, recs, byFirst, nextID := map[], map[], map[], 1;
      log, truncated := [], 0;
      ever, pruned, firstBlock := map[], false, map[];
    }

    ghost predicate Served(b: Block) {
      b.hash in universe && universe[b.hash] == b
    }

    /** Records a header; a hash already known is left untouched. */
    method Put(b: Block)
      requires Valid() && Served(b)
      modifies this`byHash, this`ever
      ensures Valid()
      ensures byHash == if b.hash in old(byHash) then old(byHash) else old(byHash)[b.hash := b]
      ensures byHash[b.hash] == b
      ensures ever == old(ever)[b.hash := b]
    {
      hide Linked, Path, NamedBy;
      ghost var was := byHash;
      PutLinked(byHash, universe, b);
      PutLinked(ever, universe, b);
      if b.hash !in byHash {
        byHash := byHash[b.hash := b];
      }
      ever := ever[b.hash := b];
      if SPINE in recs {
        PathPart(was, byHash, recs[SPINE].tip);
      }
    }

    /**
     Records head and its unknown ancestors, at most maxDepth of them, newest first. It stops
     early only at a known parent or at genesis, unless the client fails it.
     */
    method Extend(fetch: Hash -> Fetched, head: Block, maxDepth: int) returns (got: seq<Block>, ok: bool)
      requires Valid() && Served(head)
      requires forall h :: fetch(h).Found? ==> fetch(h).block.hash == h && Served(fetch(h).block)
      modifies this`byHash, this`ever
      ensures Valid()
      ensures |got| >= 1 && got[0] == head && Descends(got)
      ensures byHash.Keys == old(byHash.Keys) + Hashes(got)
      ensures Hashes(got[1..]) !! old(byHash.Keys)
      ensures |got| - 1 <= (if maxDepth < 0 then 0 else maxDepth)
      ensures ok ==> |got| - 1 >= maxDepth || got[|got| - 1].number == 0 || got[|got| - 1].parent in byHash
      ensures !ok ==> |got| - 1 < maxDepth && !fetch(got[|got| - 1].parent).Found?
    {
      hide Linked, Path, NamedBy, Shaped, Coloured, Stored, Hashes;
      Put(head);
      got := [head];
      OneHash(head);
      var cur := byHash[head.hash];
      while |got| - 1 < maxDepth && cur.number > 0 && cur.parent !in byHash
        invariant Valid() && |got| >= 1 && got[0] == head && got[|got| - 1] == cur && Served(cur) && Descends(got)
        invariant byHash.Keys == old(byHash.Keys) + Hashes(got)
        invariant Hashes(got[1..]) !! old(byHash.Keys)
        invariant |got| - 1 <= (if maxDepth < 0 then 0 else maxDepth)
        decreases maxDepth - |got|
      {
        var answer := fetch(cur.parent);
        if !answer.Found? {
          return got, false;
        }
        Put(answer.block);
        HashesSnoc(got, answer.block);
        HashesSnoc(got[1..], answer.block);
        assert (got + [answer.block])[1..] == got[1..] + [answer.block];
        got := got + [answer.block];
        cur := byHash[answer.block.hash];
      }
      ok := true;
    }

    /** Records a node's head; Settle folds it in. The head it had at the last Settle is remembered once. */
    method Observe(node: Node, head: Hash)
      requires Valid() && head in byHash
      modifies this`heads, this`moved
      ensures Valid()
      ensures heads == old(heads)[node := head]
      ensures moved ==
              if (node in old(heads) && old(heads)[node] == head) || node in old(moved) then old(moved)
              else old(moved)[node := if node in old(heads) then old(heads)[node] else NONE]
    {
      var prev := if node in heads then heads[node] else NONE;
      if node in heads && prev == head {
        assert heads == heads[node := head];
        return;
      }
      if node !in moved {
        moved := moved[node := prev];
      }
      heads := heads[node := head];
    }

    /** Reports whether a is b or one of b's known ancestors. */
    method IsAncestor(a: Hash, b: Hash) returns (r: bool)
      requires Linked(byHash)
      ensures r <==> a in Path(byHash, b)
    {
      if a !in byHash {
        PathNumbers(byHash, b);
        return false;
      }
      var cur := b;
      while cur in byHash && byHash[cur].number > byHash[a].number
        invariant a in Path(byHash, b) <==> a in Path(byHash, cur)
        decreases |Path(byHash, cur)|
      {
        cur := byHash[cur].parent;
      }
      PathNumbers(byHash, cur);
      return cur in byHash && cur == a;
    }

    /** The highest common ancestor, or none exactly when the two chains do not meet inside the store. */
    method CommonAncestor(x: Hash, y: Hash) returns (r: Option<Block>)
      requires Linked(byHash)
      ensures r.Some? <==> Meet(byHash, x, y).Some?
      ensures r.Some? ==>
                r.value.hash in byHash && byHash[r.value.hash] == r.value && Meet(byHash, x, y) == Some(r.value.hash)
    {
      if x !in byHash || y !in byHash {
        MeetIsHighest(byHash, x, y);
        return None;
      }
      MeetIsHighest(byHash, x, y);
      PathNumbers(byHash, x);
      var hx, hy := x, y;
      while byHash[hx].number > byHash[hy].number
        invariant hx in byHash && hy in byHash
        invariant Meet(byHash, x, y) == Meet(byHash, hx, hy)
        decreases |Path(byHash, hx)|
      {
        StepLeft(byHash, hx, hy);
        if byHash[hx].parent !in byHash {
          return None;
        }
        hx := byHash[hx].parent;
      }
      while byHash[hy].number > byHash[hx].number
        invariant hx in byHash && hy in byHash
        invariant Meet(byHash, x, y) == Meet(byHash, hx, hy)
        invariant byHash[hx].number <= byHash[hy].number
        decreases |Path(byHash, hy)|
      {
        StepRight(byHash, hx, hy);
        if byHash[hy].parent !in byHash {
          MeetIsHighest(byHash, hx, byHash[hy].parent);
          return None;
        }
        hy := byHash[hy].parent;
      }
      while byHash[hx].hash != byHash[hy].hash
        invariant hx in byHash && hy in byHash && byHash[hx].number == byHash[hy].number
        invariant Meet(byHash, x, y) == Meet(byHash, hx, hy)
        decreases |Path(byHash, hx)|
      {
        StepLeft(byHash, hx, hy);
        StepBoth(byHash, hx, hy);
        if byHash[hx].parent !in byHash || byHash[hy].parent !in byHash {
          MeetIsHighest(byHash, byHash[hx].parent, byHash[hy].parent);
          return None;
        }
        hx, hy := byHash[hx].parent, byHash[hy].parent;
      }
      return Some(byHash[hx]);
    }

    /** The blocks from hash down to, not including, the first canonical or unknown one, newest first. */
    method WalkTo(hash: Hash, canonical: set<Hash>) returns (out: seq<Hash>)
      requires Linked(byHash)
      ensures out == Branch(byHash, hash, canonical)
    {
      out := [];
      var cur := hash;
      while cur in byHash && cur !in canonical
        invariant out + Branch(byHash, cur, canonical) == Branch(byHash, hash, canonical)
        decreases |Branch(byHash, cur, canonical)|
      {
        out := out + [cur];
        cur := byHash[cur].parent;
      }
    }

    /** The anchor's chain as a set, and its lowest known block. */
    method CanonicalWalk(tip: Hash) returns (canonical: set<Hash>, first: Hash)
      requires Linked(byHash) && tip in byHash
      ensures canonical == Elems(Path(byHash, tip))
      ensures first == Path(byHash, tip)[|Path(byHash, tip)| - 1] && first in byHash
    {
      canonical := {};
      first := tip;
      var cur := tip;
      while true
        invariant cur in byHash && first in byHash
        invariant canonical + Elems(Path(byHash, cur)) == Elems(Path(byHash, tip))
        invariant Path(byHash, cur)[|Path(byHash, cur)| - 1] == Path(byHash, tip)[|Path(byHash, tip)| - 1]
        decreases |Path(byHash, cur)|
      {
        ghost var rest := Path(byHash, byHash[cur].parent);
        assert Elems(Path(byHash, cur)) == {cur} + Elems(rest);
        canonical := canonical + {cur};
        first := cur;
        if byHash[cur].parent !in byHash {
          assert rest == [];
          break;
        }
        cur := byHash[cur].parent;
      }
    }

    /** The first vacant lane of 1, -1, 2, -2, 3, -3; lane 4 exactly when there is none. */
    method FreeLane(firstSlot: nat) returns (lane: int)
      ensures FirstVacant(recs, firstSlot, lane)
    {
      for i := 0 to |LANES|
        invariant forall k :: 0 <= k < i ==> !Vacant(recs, LANES[k], firstSlot)
      {
        if Vacant(recs, LANES[i], firstSlot) {
          FirstOfLanes(recs, firstSlot, i, LANES[i]);
          return LANES[i];
        }
      }
      lane := 4;
      FirstOfLanes(recs, firstSlot, |LANES|, lane);
    }

    /** The segment a branch's first block names, allocated with a lane on first sighting. */
    method SegmentID(first: Hash) returns (id: SegId)
      requires Named() && first in byHash
      modifies `byFirst, `recs, `nextID, `firstBlock
      ensures Named() && first in byFirst && id == byFirst[first] && id != SPINE && id in recs
              && firstBlock[id] == first
      ensures first in old(byFirst) ==>
                recs == old(recs) && byFirst == old(byFirst) && firstBlock == old(firstBlock) && nextID == old(nextID)
      ensures first !in old(byFirst) ==>
                && id == old(nextID) && id !in old(recs) && nextID == id + 1
                && byFirst == old(byFirst)[first := id] && firstBlock == old(firstBlock)[id := first]
                && recs == old(recs)[id := recs[id]] && recs[id].tip == NONE && recs[id].live && recs[id].holders == []
                && recs[id].firstSlot == slotOf(byHash[first].time)
                && FirstVacant(old(recs), recs[id].firstSlot, recs[id].lane)
    {
      if first in byFirst {
        return byFirst[first];
      }
      id := nextID;
      assert id !in firstBlock && id !in recs;
      nextID := nextID + 1;
      byFirst := byFirst[first := id];
      firstBlock := firstBlock[id := first];
      var firstSlot := slotOf(byHash[first].time);
      var lane := FreeLane(firstSlot);
      recs := recs[id := Segment(lane, NONE, firstSlot, 0, 0, NONE, true, [], [])];
      assert firstBlock.Keys == recs.Keys - {SPINE};
    }

    // ---- What one recomputation establishes ----

    /** s0 is held by exactly those of the nodes done whose head is canonical. */
    ghost predicate SpineHeld(c: set<Hash>, done: seq<Node>)
      reads `recs, `heads
    {
      && SPINE in recs && recs[SPINE].live && Ascending(recs[SPINE].holders)
      && (forall n :: n in recs[SPINE].holders <==> n in done && n in heads && heads[n] in c)
    }

    ghost predicate Painted(c: set<Hash>)
      reads `segOf, `pruned
    {
      PaintedBy(segOf, pruned, c)
    }

    /**
     Halfway through: the nodes done are placed, on s0 or on one of the branches seen; a record just allocated is
     still blank.
     */
    ghost predicate Spread(c: set<Hash>, seen: set<SegId>, done: seq<Node>, blank: set<SegId>)
      reads this
    {
      && Stored() && Inked() && Named() && Painted(c) && SpineHeld(c, done)
      && SPINE in seen && recs[SPINE].tip in byHash
      && AllHeld(byHash, heads, segOf, recs, firstBlock, slotOf, seen, c)
      && Within(recs, seen, done)
      && Idle(byHash, recs, seen + blank)
    }

    /** What the turns of a recomputation change, and what they do not. */
    ghost function At(seen: set<SegId>): Table
      reads `recs, `byFirst, `off
    {
      Table(recs, byFirst, seen, off)
    }

    ghost function View(c: set<Hash>): Scene
      reads `byHash, `heads
    {
      Scene(byHash, heads, c, slotOf)
    }

    /** How often node n was found off the canonical chain without a segment. */
    function Off(n: Node): nat
      reads `off
    {
      OffIn(off, n)
    }

    /** Paints node n's branch and adds n to the holders of its record. */
    method Enter(n: Node, id: SegId, rec: Segment, branch: seq<Hash>, c: set<Hash>, ghost seen: set<SegId>,
                 ghost done: seq<Node>, ghost blank: set<SegId>)
      requires Spread(c, seen, done, blank) && n in heads && heads[n] !in c
      requires forall k :: k in done ==> k < n
      requires branch == Branch(byHash, heads[n], c) && branch != []
      requires id in recs && id != SPINE && id in firstBlock && firstBlock[id] == branch[|branch| - 1]
      requires blank <= {id}
      requires rec.live && (if id in seen then rec == recs[id] else rec.holders == [] && rec.tip == NONE)
      modifies `segOf, `recs
      ensures Spread(c, seen + {id}, done + [n], {})
      ensures recs.Keys == old(recs.Keys) && forall k :: k in recs && k != id ==> recs[k] == old(recs[k])
      ensures recs[id].holders == rec.holders + [n] && recs[id].lostBy == rec.lostBy && recs[id].lane == rec.lane
              && recs[id].firstSlot == rec.firstSlot && recs[id].live
      ensures segOf == old(segOf) + map h | h in branch :: id
    {
      hide Linked, Path, Branch, HeldBy, NamedBy, Home, Joined, Part, Stored, PaintedBy, Ascending, AllHeld, Within,
           Idle;
      HeadKnown(n);
      var first := branch[|branch| - 1];
      var slot := slotOf(byHash[heads[n]].time);
      BranchPainted(byHash, segOf, pruned, c, heads[n], id);
      BranchFirst(byHash, heads, n, c);
      JoinedFields(byHash, rec, n, heads[n], first, slot);
      DistinctFirsts(nextID, byFirst, firstBlock, recs.Keys, id);
      EnterKeepsHeld(byHash, heads, segOf, recs, firstBlock, slotOf, seen, c, done, n, id, rec);
      segOf := segOf + map h | h in branch :: id;
      recs := recs[id := Joined(byHash, rec, n, heads[n], first, slot)];
      assert recs.Keys == old(recs.Keys);
      EnterStaysWithin(old(recs), recs, seen, done, n, id, blank);
    }

    /**
     Node n joins the branch its head is on. A lost branch is revived only by a head above its
     tip; parked at or below it, the node waits.
     */
    method Join(n: Node, id: SegId, branch: seq<Hash>, c: set<Hash>, seen: set<SegId>, ghost done: seq<Node>,
                ghost blank: set<SegId>)
      returns (seen': set<SegId>, ghost parked: bool)
      requires Spread(c, seen, done, blank) && n in heads && heads[n] !in c
      requires forall k :: k in done ==> k < n
      requires branch == Branch(byHash, heads[n], c) && branch != []
      requires id in recs && id != SPINE && firstBlock[id] == branch[|branch| - 1]
      requires blank <= {id} && blank !! seen
      requires id in blank ==> recs[id].tip == NONE && recs[id].live && recs[id].holders == []
      modifies `segOf, `recs
      ensures Spread(c, seen', done + [n], {})
      ensures recs.Keys == old(recs.Keys) && forall k :: k in recs && k != id ==> recs[k] == old(recs[k])
      ensures parked <==>
              !old(recs[id]).live && Number(byHash, heads[n]) <= Number(byHash, old(recs[id]).tip)
      ensures if parked then seen' == seen && id !in seen && recs == old(recs) && segOf == old(segOf)
              else
                && seen' == seen + {id}
                && recs[id].holders == (if id in seen then old(recs[id].holders) else []) + [n]
                && recs[id].live && Kin(old(recs[id]), recs[id])
                && segOf == old(segOf) + map h | h in branch :: id
    {
      hide Linked, Path, Branch, NamedBy, Part, PaintedBy, Ascending, Home;
      HeadKnown(n);
      DistinctFirsts(nextID, byFirst, firstBlock, recs.Keys, id);
      seen' := seen;
      parked := Parked(n, id);
      if !Parked(n, id) {
        var rec := recs[id];
        if !rec.live {
          rec := rec.(live := true, lostBy := []);
        }
        if id !in seen {
          rec := rec.(holders := [], tip := NONE, blocks := 0);
        }
        Enter(n, id, rec, branch, c, seen, done, blank);
        seen' := seen + {id};
      }
    }

    lemma HeadKnown(n: Node)
      requires Stored() && n in heads
      ensures Linked(byHash) && heads[n] in byHash
    {
    }

    /** Node n sits on a lost branch at or below the tip it was lost with. */
    predicate Parked(n: Node, id: SegId)
      reads `recs, `heads, `byHash
      requires id in recs && n in heads && heads[n] in byHash && (!recs[id].live ==> recs[id].tip in byHash)
    {
      !recs[id].live && byHash[heads[n]].number <= byHash[recs[id].tip].number
    }

    /**
     Places one node: on s0, on its branch, or nowhere yet. A branch is named only once a head
     has been off the canonical chain long enough, and a canonical head starts the count afresh.
     */
    method Place(n: Node, c: set<Hash>, seen: set<SegId>, ghost done: seq<Node>) returns (seen': set<SegId>)
      requires Spread(c, seen, done, {}) && n in heads
      requires forall k :: k in done ==> k < n
      modifies `off, `segOf, `recs, `byFirst, `nextID, `firstBlock
      ensures Spread(c, seen', done + [n], {}) && seen <= seen'
      ensures SPINE in recs && recs[SPINE] == old(recs[SPINE]).(holders := recs[SPINE].holders)
              && old(recs).Keys <= recs.Keys
      ensures heads[n] in c ==> off == old(off)[n := 0] && byFirst == old(byFirst) && segOf == old(segOf)
      ensures forall f :: f in old(byFirst) ==> f in byFirst && byFirst[f] == old(byFirst[f])
      ensures heads[n] !in c ==> Counted(n, Branch(byHash, heads[n], c), old(off), off, old(byFirst), byFirst)
      ensures heads[n] !in c ==> Repainted(Branch(byHash, heads[n], c), old(segOf), segOf, byFirst)
      ensures heads[n] in c ==>
                seen' == seen && recs == old(recs)[SPINE := recs[SPINE]]
                && recs[SPINE].holders == old(recs[SPINE].holders) + [n]
      ensures forall f :: heads[n] !in c && OnBranch(View(c), n, f) ==>
                && NextTurn(View(c), Nodes(done), n, f, old(At(seen)), At(seen'))
                && Painting(View(c), n, f, At(seen'), old(segOf), segOf)
    {
      hide Linked, Path, Branch, HeldBy, NamedBy, Part, PaintedBy, Home, AllHeld, Within, Idle, Stored, NextTurn,
           Painting, OnBranch;
      HeadKnown(n);
      if heads[n] in c {
        seen' := seen;
        PlaceOnSpine(n, c, seen, done);
      } else {
        seen' := PlaceOffSpine(n, c, seen, done);
      }
    }

    method PlaceOnSpine(n: Node, c: set<Hash>, ghost seen: set<SegId>, ghost done: seq<Node>)
      requires Spread(c, seen, done, {}) && n in heads && heads[n] in c
      requires forall k :: k in done ==> k < n
      modifies `off, `recs
      ensures Spread(c, seen, done + [n], {})
      ensures SPINE in recs && recs[SPINE] == old(recs[SPINE]).(holders := recs[SPINE].holders)
              && recs == old(recs)[SPINE := recs[SPINE]]
      ensures recs[SPINE].holders == old(recs[SPINE].holders) + [n]
      ensures off == old(off)[n := 0]
    {
      hide Linked, Path, Branch, HeldBy, NamedBy, Part, PaintedBy, Ascending, Home, AllHeld, Within, Idle, Stored;
      HeadKnown(n);
      AscendingSnoc(recs[SPINE].holders, n, done);
      recs := recs[SPINE := recs[SPINE].(holders := recs[SPINE].holders + [n])];
      off := off[n := 0];
      SpinePlaced(byHash, heads, segOf, old(recs), recs, firstBlock, slotOf, c, seen, done, n);
    }

    method PlaceOffSpine(n: Node, c: set<Hash>, seen: set<SegId>, ghost done: seq<Node>) returns (seen': set<SegId>)
      requires Spread(c, seen, done, {}) && n in heads && heads[n] !in c
      requires forall k :: k in done ==> k < n
      modifies `off, `segOf, `recs, `byFirst, `nextID, `firstBlock
      ensures Spread(c, seen', done + [n], {}) && seen <= seen'
      ensures recs[SPINE] == old(recs[SPINE]) && old(recs).Keys <= recs.Keys
      ensures Counted(n, Branch(byHash, heads[n], c), old(off), off, old(byFirst), byFirst)
      ensures Repainted(Branch(byHash, heads[n], c), old(segOf), segOf, byFirst)
      ensures forall f :: OnBranch(View(c), n, f) ==>
                && NextTurn(View(c), Nodes(done), n, f, old(At(seen)), At(seen'))
                && Painting(View(c), n, f, At(seen'), old(segOf), segOf)
    {
      hide Linked, Path, Branch, HeldBy, NamedBy, Part, PaintedBy, Ascending, Home, AllHeld, Within, Idle, Stored, Turn,
           Painting, NextTurn;
      HeadKnown(n);
      var branch := WalkTo(heads[n], c);
      NonEmptyBranch(byHash, heads[n], c);
      BranchFirst(byHash, heads, n, c);
      var first := branch[|branch| - 1];
      ghost var before := At(seen);
      if first !in byFirst {
        off := off[n := Off(n) + 1];
        if Off(n) < 2 || (|branch| < 2 && Off(n) < 3) {
          SpreadWider(c, seen, done, n);
          TurnUnnamed(View(c), n, first, before, At(seen), segOf);
          seen' := seen;
          TurnTaken(View(c), done, n, first, before, At(seen'), nextID, firstBlock, recs.Keys);
          OnlyBranch(View(c), n, first);
          return;
        }
      }
      ghost var counted := At(seen);
      seen' := JoinNamed(n, branch, c, seen, done);
      TurnAnyCount(View(c), n, first, counted, before, At(seen'));
      TurnTaken(View(c), done, n, first, before, At(seen'), nextID, firstBlock, recs.Keys);
      OnlyBranch(View(c), n, first);
    }

    /** Node n joins its branch, which gets a name if it has none. */
    method JoinNamed(n: Node, branch: seq<Hash>, c: set<Hash>, seen: set<SegId>, ghost done: seq<Node>)
      returns (seen': set<SegId>)
      requires Spread(c, seen, done, {}) && n in heads && heads[n] !in c
      requires forall k :: k in done ==> k < n
      requires branch == Branch(byHash, heads[n], c) && branch != [] && branch[|branch| - 1] in byHash
      modifies `segOf, `recs, `byFirst, `nextID, `firstBlock
      ensures Spread(c, seen', done + [n], {}) && seen <= seen'
      ensures recs[SPINE] == old(recs[SPINE]) && old(recs).Keys <= recs.Keys
      ensures branch[|branch| - 1] in byFirst
              && byFirst == old(byFirst)[branch[|branch| - 1] := byFirst[branch[|branch| - 1]]]
      ensures branch[|branch| - 1] in old(byFirst) ==> byFirst == old(byFirst)
      ensures branch[|branch| - 1] !in old(byFirst) ==>
                byFirst[branch[|branch| - 1]] !in old(recs) && byFirst[branch[|branch| - 1]] !in seen
      ensures Turn(View(c), n, branch[|branch| - 1], old(At(seen)), At(seen'))
      ensures Painting(View(c), n, branch[|branch| - 1], At(seen'), old(segOf), segOf)
      ensures Repainted(branch, old(segOf), segOf, byFirst)
    {
      hide Linked, Path, Branch, HeldBy, NamedBy, Part, PaintedBy, Ascending, Home, AllHeld, Within, Idle, Stored,
           Repainted, Turn, Painting, Kin, OnBranch, FirstVacant;
      var first := branch[|branch| - 1];
      HeadKnown(n);
      BranchFirst(byHash, heads, n, c);
      ghost var known, before := first in byFirst, At(seen);
      IsOnBranch(n, c);
      var id := SegmentID(first);
      ghost var named := At(seen);
      Allocated(byHash, heads, segOf, old(recs), recs, old(firstBlock), firstBlock, slotOf, c, seen, done, id, known);
      ghost var parked;
      seen', parked := Join(n, id, branch, c, seen, done, if known then {} else {id});
      TurnOfJoin(View(c), n, first, before, named, At(seen'), parked);
      PaintingOfJoin(View(c), n, first, At(seen'), parked, old(segOf), segOf);
      RepaintedOnce(branch, old(segOf), segOf, byFirst, id);
    }

    lemma IsOnBranch(n: Node, c: set<Hash>)
      requires Linked(byHash) && n in heads && Branch(byHash, heads[n], c) != []
      ensures OnBranch(View(c), n, Branch(byHash, heads[n], c)[|Branch(byHash, heads[n], c)| - 1])
    {
    }

    lemma SpreadWider(c: set<Hash>, seen: set<SegId>, done: seq<Node>, n: Node)
      requires Spread(c, seen, done, {}) && n in heads && heads[n] !in c
      ensures Spread(c, seen, done + [n], {})
    {
    }

    /**
     The anchor left its old chain: the suffix it abandoned becomes a lost segment, lost by
     whoever was on it, and the records that left it in its s0 days point at it.
     */
    method AbandonSuffix(tip0: Hash, c: set<Hash>, was: Heads) returns (id: SegId)
      requires Linked(byHash) && Inked() && Named() && SPINE in recs && tip0 in byHash && tip0 !in c
      modifies `segOf, `recs, `byFirst, `nextID, `firstBlock, `log
      ensures Inked() && Named() && id != SPINE && id in recs && recs == old(recs)[id := recs[id]]
      ensures Lost(byHash, slotOf, recs[id], Branch(byHash, tip0, c)) && LostBy(recs[id].lostBy, heads, was, segOf, id)
      ensures Branch(byHash, tip0, c)[|Branch(byHash, tip0, c)| - 1] in byFirst
      ensures id == byFirst[Branch(byHash, tip0, c)[|Branch(byHash, tip0, c)| - 1]]
      ensures Named1(Branch(byHash, tip0, c), old(byFirst), byFirst)
      ensures segOf == old(segOf) + (map h | h in Branch(byHash, tip0, c) :: id)
      ensures id in old(recs) <==> Branch(byHash, tip0, c)[|Branch(byHash, tip0, c)| - 1] in old(byFirst)
      ensures id in old(recs) ==> SamePlace(old(recs)[id], recs[id])
      ensures log == Redirected(old(log), segOf, id)
    {
      hide Path, Branch, NamedBy, Redirected, Linked, Lost, LostBy;
      var suffix := WalkTo(tip0, c); // not empty: the old tip is stored and off the new chain
      SuffixShape(byHash, tip0, c);
      var first := suffix[|suffix| - 1];
      id := SegmentID(first);
      Orphan(id, suffix, was);
    }

    /** Paints a suffix, redirects the records that left it, and closes its segment. */
    method Orphan(id: SegId, suffix: seq<Hash>, was: Heads)
      requires id in recs && suffix != [] && forall b :: b in suffix ==> b in byHash
      modifies `segOf, `recs, `log
      ensures recs.Keys == old(recs.Keys) && recs == old(recs)[id := recs[id]] && SamePlace(old(recs[id]), recs[id])
      ensures Lost(byHash, slotOf, recs[id], suffix) && LostBy(recs[id].lostBy, heads, was, segOf, id)
      ensures segOf == old(segOf) + (map h | h in suffix :: id)
      ensures log == Redirected(old(log), segOf, id)
    {
      hide Redirected;
      var last := suffix[|suffix| - 1];
      assert suffix[0] in suffix && last in suffix;
      segOf := segOf + map h | h in suffix :: id;
      var lostBy := Sorted(set n | n in heads && ColourOf(segOf, if n in was then was[n] else heads[n]) == Some(id));
      log := Redirected(log, segOf, id);
      recs := recs[id := recs[id].(ancestor := byHash[last].parent, tip := suffix[0], blocks := |suffix|,
                                   lastSlot := slotOf(byHash[suffix[0]].time), live := false, holders := [],
                                   lostBy := lostBy)];
    }

    /** The anchor's known chain. */
    ghost function Canonical(): set<Hash>
      reads `byHash, `heads
      requires Linked(byHash) && anchor in heads
    {
      Elems(Path(byHash, heads[anchor]))
    }

    /** The blocks the anchor abandons, newest first: none if its old tip is still canonical. */
    ghost function Left(): seq<Hash>
      reads `byHash, `heads, `recs
      requires Linked(byHash) && anchor in heads
    {
      if SPINE in recs then Branch(byHash, recs[SPINE].tip, Canonical()) else []
    }

    ghost function Before(was: Heads): Past
      reads `byHash, `heads, `recs, `byFirst, `segOf
      requires Linked(byHash) && anchor in heads
    {
      Past(Left(), recs, byFirst, segOf, was)
    }

    ghost predicate Abandoned(suffix: seq<Hash>, was: Heads, segOf0: Ids, log0: seq<Reorg>)
      reads `byHash, `heads, `recs, `segOf, `byFirst, `log
    {
      AbandonedBy(byHash, heads, recs, segOf, byFirst, log, slotOf, suffix, was, segOf0, log0)
    }

    ghost predicate SpineDrawn()
      reads `byHash, `heads, `recs
    {
      && anchor in heads && heads[anchor] in byHash && SPINE in recs
      && var tip := byHash[heads[anchor]];
      && recs[SPINE].live && recs[SPINE].tip == heads[anchor] && recs[SPINE].blocks == tip.number
      && recs[SPINE].lastSlot == slotOf(tip.time)
    }

    /** Colours the canonical chain and redraws the record of s0, which nobody holds yet. */
    method PaintSpine(c: set<Hash>, first: Hash)
      requires anchor in heads && heads[anchor] in byHash && first in byHash && SPINE in recs && recs[SPINE].live
      requires c <= byHash.Keys && Inked() && Named() && Idle(byHash, recs, {SPINE})
      modifies `segOf, `recs
      ensures Inked() && Named() && Idle(byHash, recs, {SPINE})
      ensures segOf == old(segOf) + map h | h in c :: SPINE
      ensures SpineDrawn() && recs == old(recs)[SPINE := recs[SPINE]] && recs[SPINE].holders == []
              && recs.Keys == old(recs.Keys)
    {
      segOf := segOf + map h | h in c :: SPINE;
      var t := byHash[heads[anchor]];
      recs := recs[SPINE := recs[SPINE].(tip := heads[anchor], blocks := t.number,
                                         firstSlot := slotOf(byHash[first].time),
                                         lastSlot := slotOf(t.time), holders := [])];
      assert recs.Keys == old(recs.Keys);
    }

    /** Makes the record of s0 on first use; it has no tip yet. */
    method EnsureSpine()
      requires Named()
      modifies `recs
      ensures Named() && SPINE in recs
      ensures recs == if SPINE in old(recs) then old(recs)
              else old(recs)[SPINE := Segment(0, NONE, 0, 0, 0, NONE, true, [], [])]
    {
      if SPINE !in recs {
        recs := recs[SPINE := Segment(0, NONE, 0, 0, 0, NONE, true, [], [])];
        assert recs.Keys == old(recs.Keys) + {SPINE};
      }
    }

    /** Sets the abandoned suffix aside, if there is one. */
    method LeaveOldTip(c: set<Hash>, was: Heads) returns (ghost id: SegId)
      requires Linked(byHash) && Inked() && Named() && anchor in heads && c == Canonical()
      requires SPINE in recs && (recs[SPINE].tip == NONE || recs[SPINE].tip in byHash) && Idle(byHash, recs, {SPINE})
      modifies `segOf, `recs, `byFirst, `nextID, `firstBlock, `log
      ensures Inked() && Named() && SPINE in recs && recs[SPINE] == old(recs[SPINE]) && id != SPINE
              && old(recs).Keys <= recs.Keys
      ensures Idle(byHash, recs, {SPINE})
      ensures segOf == old(segOf) + map h | h in old(Left()) :: id
      ensures Named1(old(Left()), old(byFirst), byFirst)
      ensures Respined(old(Before(was)), At({SPINE}))
      ensures if old(Left()) == [] then byFirst == old(byFirst) && log == old(log)
              else Abandoned(old(Left()), was, old(segOf), old(log)) && id == byFirst[old(Left())[|old(Left())| - 1]]
    {
      hide Path, Branch, NamedBy, Redirected, Lost, LostBy, Linked, Named1, Ascending, Respined;
      NamesInRecs(nextID, byFirst, firstBlock, recs.Keys);
      ghost var past := Before(was);
      if past.left == [] {
        RespinedNothing(past, At({SPINE}));
      }
      id := 1;
      var tip0 := recs[SPINE].tip;
      NoBranch(byHash, tip0, c);
      NamedNothing(byFirst);
      if tip0 != NONE && tip0 !in c {
        NonEmptyBranch(byHash, tip0, c);
        id := AbandonSuffix(tip0, c, was);
        NamesInRecs(nextID, byFirst, firstBlock, recs.Keys);
        assert old(Left()) == Branch(byHash, tip0, c);
        RespinedOnce(View(c), past, At({SPINE}));
      }
    }

    method SetAside(c: set<Hash>, was: Heads)
      requires Valid() && anchor in heads && c == Canonical()
      modifies `segOf, `recs, `byFirst, `nextID, `firstBlock, `log
      ensures Inked() && Named() && SPINE in recs && recs[SPINE].live && Idle(byHash, recs, {SPINE})
              && old(recs).Keys <= recs.Keys
      ensures PaintedBy(segOf + map h | h in c :: SPINE, pruned, c)
      ensures forall h :: h in segOf ==> h in old(Left()) || (h in old(segOf) && segOf[h] == old(segOf[h]))
      ensures Named1(old(Left()), old(byFirst), byFirst)
      ensures Respined(old(Before(was)), At({SPINE}))
      ensures if old(Left()) == [] then byFirst == old(byFirst) && log == old(log)
              else Abandoned(old(Left()), was, old(segOf), old(log))
    {
      hide Path, Branch, NamedBy, Redirected, Linked, Lost, LostBy, PaintedBy, Part, Ascending, AbandonedBy, Named1,
           Respined;
      NoBranch(byHash, NONE, c);
      HeadKnown(anchor);
      NamesInRecs(nextID, byFirst, firstBlock, recs.Keys);
      EnsureSpine();
      assert Idle(byHash, recs, {SPINE});
      assert Left() == old(Left());
      ghost var tip0 := recs[SPINE].tip;
      ghost var past := Before(was);
      ghost var id := LeaveOldTip(c, was);
      RespinedWithSpine(past, old(Before(was)), At({SPINE}));
      SpineRepainted(byHash, old(segOf), segOf, pruned, tip0, heads[anchor], id);
    }

    /** Rebuilds s0 from the anchor's head, setting aside the suffix an anchor that jumped has abandoned. */
    method Respine(was: Heads) returns (c: set<Hash>)
      requires Valid() && anchor in heads
      modifies `segOf, `recs, `byFirst, `nextID, `firstBlock, `log
      ensures c == Canonical() && Spread(c, {SPINE}, [], {}) && SpineDrawn() && old(recs).Keys <= recs.Keys
      ensures forall h :: h in segOf ==> h in c || h in old(Left()) || (h in old(segOf) && segOf[h] == old(segOf[h]))
      ensures Named1(old(Left()), old(byFirst), byFirst)
      ensures Respined(old(Before(was)), At({SPINE}))
      ensures if old(Left()) == [] then byFirst == old(byFirst) && log == old(log)
              else Abandoned(old(Left()), was, old(segOf), old(log))
    {
      hide Path, Branch, NamedBy, Redirected, Linked, LostBy, PaintedBy, Part, Stored, Idle, HeldBy, AbandonedBy,
           Named1, AllHeld, Within, Respined, Spread;
      HeadKnown(anchor);
      var first;
      c, first := CanonicalWalk(heads[anchor]);
      ghost var suffix := Left();
      SetAside(c, was);
      LeftIsOff(byHash, suffix, c, if SPINE in old(recs) then old(recs[SPINE].tip) else NONE);
      assert c <= byHash.Keys by { PathNumbers(byHash, heads[anchor]); }
      ghost var recs1, segOf1, aside := recs, segOf, At({SPINE});
      PaintSpine(c, first);
      SpreadAnew(c);
      RespinedPainted(old(Before(was)), aside, At({SPINE}), nextID, firstBlock);
      if suffix != [] {
        PaintKeepsAbandoned(byHash, heads, recs1, recs, segOf1, byFirst, log, slotOf, suffix, was, old(segOf), old(log),
                            c);
      }
    }

    lemma SpreadAnew(c: set<Hash>)
      requires Stored() && Inked() && Named() && Painted(c) && SpineDrawn() && Idle(byHash, recs, {SPINE})
      requires SPINE in recs && recs[SPINE].holders == []
      ensures Spread(c, {SPINE}, [], {})
    {
      JustTheSpine(byHash, heads, segOf, recs, firstBlock, slotOf, c);
      assert {SPINE} + {} == {SPINE};
    }

    lemma SpreadFacts(c: set<Hash>, seen: set<SegId>, done: seq<Node>)
      requires Spread(c, seen, done, {})
      ensures Linked(byHash) && seen <= recs.Keys && SPINE in seen && OneToOne(byFirst)
      ensures forall f :: f in byFirst ==> byFirst[f] in recs
      ensures forall n :: n in heads ==> heads[n] in byHash
    {
    }

    /** Places one more node and keeps the account of all of them. */
    method PlaceNext(n: Node, c: set<Hash>, seen: set<SegId>, ghost done: seq<Node>, ghost off0: Counts,
                     ghost byFirst0: Ids, ghost segOf0: Ids, ghost a: Table) returns (seen': set<SegId>)
      requires Spread(c, seen, done, {}) && SpineDrawn() && n in heads
      requires forall k :: k in done ==> k < n
      requires Off(n) == OffIn(off0, n)
      requires Progress(byHash, heads, c, done, off0, off, byFirst0, byFirst)
               && InkChange(byHash, c, segOf0, segOf, byFirst)
      requires Boarded(View(c), Nodes(done), a, At(seen)) && Liveried(View(c), Nodes(done), At(seen), segOf)
      modifies `off, `segOf, `recs, `byFirst, `nextID, `firstBlock
      ensures Spread(c, seen', done + [n], {}) && SpineDrawn() && old(recs).Keys <= recs.Keys
      ensures Progress(byHash, heads, c, done + [n], off0, off, byFirst0, byFirst)
              && InkChange(byHash, c, segOf0, segOf, byFirst)
      ensures Boarded(View(c), Nodes(done + [n]), a, At(seen'))
              && Liveried(View(c), Nodes(done + [n]), At(seen'), segOf)
      ensures forall k :: k != n ==> Off(k) == old(Off(k))
    {
      hide Path, Branch, NamedBy, Linked, PaintedBy, Part, Idle, HeldBy, AllHeld, Within, SpineHeld, Progress,
           Repainted, InkChange, Boarded, Liveried, NextTurn, Painting, OnBranch;
      ghost var before := At(seen);
      SpreadFacts(c, seen, done);
      seen' := Place(n, c, seen, done);
      NodesNext(done, n);
      if heads[n] in c {
        BoardedOnSpine(View(c), Nodes(done), n, a, before, At(seen'));
        LiveriedOnSpine(View(c), Nodes(done), n, before, At(seen'), segOf);
      } else {
        var f := BranchName(View(c), n);
        BoardedNext(View(c), Nodes(done), n, f, a, before, At(seen'));
        LiveriedNext(View(c), Nodes(done), n, f, before, At(seen'), old(segOf), segOf);
      }
      ProgressStep(byHash, heads, c, done, n, off0, old(off), off, byFirst0, old(byFirst), byFirst);
      InkStep(byHash, heads[n], c, segOf0, old(segOf), segOf, old(byFirst), byFirst);
    }

    /** Places every node in ascending order. */
    method PlaceAll(c: set<Hash>) returns (seen: set<SegId>, ghost nodes: seq<Node>)
      requires Spread(c, {SPINE}, [], {}) && SpineDrawn()
      modifies `off, `segOf, `recs, `byFirst, `nextID, `firstBlock
      ensures Spread(c, seen, nodes, {}) && SpineDrawn() && (forall n :: n in nodes <==> n in heads)
      ensures SPINE in seen && seen <= recs.Keys && Idle(byHash, recs, seen) && old(recs).Keys <= recs.Keys
      ensures Progress(byHash, heads, c, nodes, old(off), off, old(byFirst), byFirst)
      ensures InkChange(byHash, c, old(segOf), segOf, byFirst)
      ensures Boarded(View(c), heads.Keys, old(At({SPINE})), At(seen)) && Liveried(View(c), heads.Keys, At(seen), segOf)
    {
      hide Path, Branch, NamedBy, Linked, PaintedBy, Part, Idle, HeldBy, AllHeld, Within, SpineHeld, Progress,
           Repainted, InkChange, Counted, Boarded, Liveried;
      hide SpineDrawn, Inked, Named, Painted;
      seen := {SPINE};
      var order := Sorted(heads.Keys);
      ProgressStarts(byHash, heads, c, off, byFirst, segOf);
      SpreadFacts(c, {SPINE}, []);
      NobodyYet(View(c), At({SPINE}), segOf);
      assert Nodes(order[..0]) == {};
      for i := 0 to |order|
        invariant Spread(c, seen, order[..i], {}) && SpineDrawn() && old(recs).Keys <= recs.Keys
        invariant forall n :: n in order[i..] ==> Off(n) == OffIn(old(off), n)
        invariant Progress(byHash, heads, c, order[..i], old(off), off, old(byFirst), byFirst)
        invariant InkChange(byHash, c, old(segOf), segOf, byFirst)
        invariant Boarded(View(c), Nodes(order[..i]), old(At({SPINE})), At(seen))
                  && Liveried(View(c), Nodes(order[..i]), At(seen), segOf)
      {
        var n := order[i];
        NextInOrder(order, i);
        seen := PlaceNext(n, c, seen, order[..i], old(off), old(byFirst), old(segOf), old(At({SPINE})));
      }
      nodes := order;
      SeenKnown(recs, seen, order[..|order|]);
      assert seen + {} == seen;
      assert order[..|order|] == order;
      assert Nodes(order) == heads.Keys;
    }

    /** The first block a segment id names. */
    method FirstOf(id: SegId) returns (first: Hash)
      requires Named() && id in recs && id != SPINE
      ensures first in byFirst && byFirst[first] == id && id in firstBlock && first == firstBlock[id]
    {
      assert firstBlock[id] in byFirst && byFirst[firstBlock[id]] == id;
      first :| first in byFirst && byFirst[first] == id;
    }

    /** A segment nobody is on: absorbed if the anchor adopted it, else lost by its last holders. */
    method RetireOne(id: SegId, c: set<Hash>)
      requires Named() && id in recs && id != SPINE
      modifies `recs, `byFirst, `firstBlock, `log
      ensures Named() && id in old(firstBlock)
      ensures firstBlock == old(firstBlock) - (if old(firstBlock[id]) in c then {id} else {})
      ensures recs == (if old(firstBlock[id]) in c then old(recs) - {id} else old(recs)[id := Retired(old(recs[id]))])
      ensures byFirst == old(byFirst) - (if old(firstBlock[id]) in c then {old(firstBlock[id])} else {})
      ensures log == (if old(firstBlock[id]) in c then Absorbed(old(log), {id}) else old(log))
    {
      hide Absorbed;
      var first := FirstOf(id);
      NameRemoved(nextID, byFirst, firstBlock, recs.Keys, id);
      if first in c {
        log := Absorbed(log, {id});
        assert (recs - {id}).Keys == recs.Keys - {id};
        recs := recs - {id};
        byFirst := byFirst - {first};
        firstBlock := firstBlock - {id};
      } else {
        assert recs[id := Retired(recs[id])].Keys == recs.Keys;
        assert firstBlock - {} == firstBlock && byFirst - {} == byFirst;
        recs := recs[id := Retired(recs[id])];
      }
    }

    /** Retires every segment this recomputation placed nobody on. */
    method RetireAll(c: set<Hash>, seen: set<SegId>)
      requires Named() && SPINE in seen && seen <= recs.Keys
      modifies `recs, `byFirst, `firstBlock, `log
      ensures Named() && firstBlock.Keys == recs.Keys - {SPINE} && SPINE in recs
      ensures Retirement(old(recs), recs, old(firstBlock), firstBlock, c, seen, {})
      ensures NamesKept(old(byFirst), byFirst, c)
      ensures log == Absorbed(old(log), old(recs).Keys - recs.Keys)
    {
      hide Absorbed, NamedBy, Retirement, NamesKept;
      NamesKeptStarts(byFirst, c);
      ghost var recs0, firsts0, log0 := recs, firstBlock, log;
      var todo := recs.Keys - seen;
      RetirementStarts(recs, firstBlock, c, seen);
      AbsorbedNothing(log);
      while todo != {}
        invariant Named() && todo <= recs.Keys - seen
        invariant Retirement(recs0, recs, firsts0, firstBlock, c, seen, todo)
        invariant NamesKept(old(byFirst), byFirst, c)
        invariant log == Absorbed(log0, recs0.Keys - recs.Keys)
      {
        var id :| id in todo;
        ghost var recs1, firsts1, names1 := recs, firstBlock, byFirst;
        RetireOne(id, c);
        ghost var todo1 := todo;
        todo := todo - {id};
        assert todo + {id} == todo1;
        NamesKeptStep(old(byFirst), names1, byFirst, c, firsts1[id]);
        RetirementStep(recs0, recs1, recs, firsts0, firsts1, firstBlock, c, seen, todo, id);
        AbsorbedOneMore(log0, recs0.Keys - recs1.Keys, id);
      }
      NamesCover(nextID, byFirst, firstBlock, recs.Keys);
      RetirementKeeps(recs0, recs, firsts0, firstBlock, c, seen, SPINE);
    }

    /**
     What holds right after a recomputation: s0 is the anchor's known chain, held by exactly the
     nodes whose head is on it; every other live segment is a branch held by nodes whose heads
     are on it, in its colour; nobody holds a lost segment.
     */
    ghost predicate Settled()
      reads `byHash, `ever, `heads, `moved, `pruned, `segOf, `nextID, `byFirst, `firstBlock, `recs
    {
      && Stored() && Inked() && Named() && SpineDrawn()
      && Painted(Canonical())
      && Ascending(recs[SPINE].holders)
      && (forall n :: n in recs[SPINE].holders <==> n in heads && heads[n] in Canonical())
      && AllHeld(byHash, heads, segOf, recs, firstBlock, slotOf, LiveIds(recs), Canonical())
      && Idle(byHash, recs, LiveIds(recs))
      && (forall id :: id in firstBlock ==> firstBlock[id] !in Canonical())
    }

    /**
     Rebuilds s0 from the anchor's head and every branch from the other heads; `was` gives the
     nodes that moved their previous heads.
     */
    method Recompute(was: Heads)
      requires Valid()
      modifies `segOf, `recs, `byFirst, `nextID, `firstBlock, `off, `log
      ensures Valid() && SameRewinds(old(log), log)
      ensures anchor !in heads ==>
                segOf == old(segOf) && recs == old(recs) && byFirst == old(byFirst) && off == old(off)
                && log == old(log)
      ensures anchor in heads ==>
                Settled() && Explained(byHash, heads, Canonical(), old(Left()), old(off), off, old(byFirst), byFirst,
                                                         old(segOf), segOf)
      ensures anchor in heads ==>
                Reckoned(View(Canonical()), old(Before(was)), off, recs, byFirst, segOf, old(log), log)
      // no record names a segment absorbed just now
      ensures anchor in heads ==>
                forall r, id :: r in log && id in old(recs) && (r.lost == Some(id) || r.won == Some(id)) ==> id in recs
    {
      hide Stored, Inked, Named, Shaped, Coloured, Settled, Explained, Reckoned;
      if anchor !in heads || heads[anchor] !in byHash {
        AnchorKnown();
        SameAlready(log);
        return;
      }
      Rebuild(was);
    }

    lemma AnchorKnown()
      requires Stored()
      ensures anchor in heads ==> heads[anchor] in byHash
    {
    }

    method Rebuild(was: Heads)
      requires Valid() && anchor in heads
      modifies `segOf, `recs, `byFirst, `nextID, `firstBlock, `off, `log
      ensures Valid() && SameRewinds(old(log), log) && Settled()
      ensures Reckoned(View(Canonical()), old(Before(was)), off, recs, byFirst, segOf, old(log), log)
      ensures Explained(byHash, heads, Canonical(), old(Left()), old(off), off, old(byFirst), byFirst, old(segOf),
                        segOf)
      ensures forall r, id :: r in log && id in old(recs) && (r.lost == Some(id) || r.won == Some(id)) ==> id in recs
    {
      hide Path, Branch, NamedBy, Redirected, Absorbed, LostBy, PaintedBy, Part, HeldBy, AllHeld, Idle, Within, Shaped,
           Settled;
      hide Named1, Progress, InkChange, NamesKept, Explained, SameRewinds, SpineDrawn, AbandonedBy,
           Respined, Ran, Reckoned, Linked;
      ghost var left, log0 := Left(), log;
      ghost var tip0 := if SPINE in recs then recs[SPINE].tip else NONE;
      var c := Respine(was);
      ghost var log1, segOf1, names1, recs1 := log, segOf, byFirst, recs;
      ghost var start := At({SPINE});
      ghost var nodes, t, firsts := PlaceAndRetire(c);
      RewindsLast(byHash, heads, recs1, segOf1, names1, log1, slotOf, left, was, old(segOf), log0, log,
                  t.recs.Keys - recs.Keys);
      ExplainedAtLast(byHash, heads, c, tip0, left, nodes, old(off), off, old(byFirst), names1, t.names, byFirst,
                      old(segOf), segOf1, segOf);
      LeftIsOff(byHash, left, c, tip0);
      ReckonedAtLast(View(c), old(Before(was)), start, t, firsts, firstBlock, recs, byFirst, segOf1, segOf, log0, log1,
                     log);
    }

    /** Places every node and retires what nobody is on. */
    method PlaceAndRetire(c: set<Hash>)
      returns (ghost nodes: seq<Node>, ghost t: Table, ghost firsts: Firsts)
      requires Spread(c, {SPINE}, [], {}) && SpineDrawn() && c == Canonical()
      modifies `off, `segOf, `recs, `byFirst, `nextID, `firstBlock, `log
      ensures Valid() && Settled() && (forall n :: n in nodes <==> n in heads)
      ensures Progress(byHash, heads, c, nodes, old(off), off, old(byFirst), t.names) && NamesKept(t.names, byFirst, c)
      ensures InkChange(byHash, c, old(segOf), segOf, t.names)
      ensures Ran(View(c), old(At({SPINE})), t, firsts, firstBlock, recs, byFirst, segOf) && t.off == off
      ensures SPINE !in t.recs.Keys - recs.Keys && old(recs).Keys <= t.recs.Keys
      ensures log == Absorbed(old(log), t.recs.Keys - recs.Keys)
    {
      hide Path, Branch, NamedBy, Absorbed, PaintedBy, Part, HeldBy, AllHeld, Idle, Within, Retirement, Ascending;
      hide Progress, InkChange, NamesKept, Ran, Boarded, Liveried;
      var seen;
      seen, nodes := PlaceAll(c);
      t, firsts := At(seen), firstBlock;
      IdleFacts(c, seen, nodes);
      RetireAll(c, seen);
      SettledAtLast(byHash, heads, segOf, t.recs, recs, firsts, firstBlock, slotOf, c, seen, nodes);
      SettledNow(c);
      NamesInRecs(nextID, byFirst, firstBlock, recs.Keys);
      RanSo(View(c), old(At({SPINE})), t, firsts, firstBlock, recs, byFirst, segOf);
    }

    lemma IdleFacts(c: set<Hash>, seen: set<SegId>, done: seq<Node>)
      requires Spread(c, seen, done, {})
      ensures SPINE in seen && OneToOne(byFirst) && Inverse(byFirst, firstBlock)
      ensures forall id :: id in recs && !recs[id].live && id != SPINE ==> recs[id].holders == []
    {
    }

    /** The facts a rebuild ends with, put together. */
    lemma SettledNow(c: set<Hash>)
      requires Stored() && Inked() && Named() && anchor in heads && c == Canonical() && SpineDrawn() && Painted(c)
      requires Ascending(recs[SPINE].holders) && forall n :: n in recs[SPINE].holders <==> n in heads && heads[n] in c
      requires AllHeld(byHash, heads, segOf, recs, firstBlock, slotOf, LiveIds(recs), c)
      requires Idle(byHash, recs, LiveIds(recs))
      requires forall id :: id in recs ==> recs[id].tip in byHash && (!recs[id].live ==> recs[id].holders == [])
      requires forall id :: id in firstBlock ==> firstBlock[id] !in c
      ensures Valid() && Settled()
    {
    }

    /** A reorg record says of node's move from prev to head exactly what the store's chains say. */
    ghost predicate Recorded(r: Reorg, now: nat, prev: Hash)
      reads `byHash, `heads, `segOf
      requires Linked(byHash)
    {
      && r.node in heads && r.slot == now && r.oldHead == prev && r.newHead == heads[r.node]
      && Judge(byHash, forkTime, prev, r.newHead) == Rewind(r.ancestor, r.depth, r.added, r.crosses)
      && r.ancestor in byHash && r.ancestorNumber == byHash[r.ancestor].number
      && r.lost == ColourOf(segOf, prev) && r.won == ColourOf(segOf, r.newHead)
    }

    /** Node n moved and the store cannot say how: its two chains do not meet in it. */
    ghost predicate Unjudged(n: Node, was: Heads)
      reads `byHash, `heads
      requires Linked(byHash)
    {
      n in was && was[n] != NONE && n in heads && Judge(byHash, forkTime, was[n], heads[n]) == Truncated
    }

    /** Judges one move: nothing for a first head or an advance. */
    method JudgeMove(now: nat, node: Node, prev: Hash) returns (r: Option<Reorg>)
      requires Linked(byHash) && node in heads
      modifies `truncated
      ensures r.Some? ==> prev != NONE && r.value.node == node && Recorded(r.value, now, prev)
      ensures prev != NONE && Judge(byHash, forkTime, prev, heads[node]).Rewind? ==> r.Some?
      ensures truncated == old(truncated) +
              if prev != NONE && Judge(byHash, forkTime, prev, heads[node]) == Truncated then 1 else 0
    {
      hide Path, Meet;
      var head := heads[node];
      var ahead := IsAncestor(prev, head);
      AdvanceIsReachability(byHash, forkTime, prev, head);
      if prev == NONE || ahead {
        return None;
      }
      var a := CommonAncestor(prev, head);
      MeetKnown(byHash, prev, head);
      if a.None? || a.value.number > Number(byHash, prev) || a.value.number > Number(byHash, head) {
        truncated := truncated + 1;
        return None;
      }
      var p, n := byHash[prev], byHash[head];
      return Some(Reorg(now, node, p.number - a.value.number, n.number - a.value.number, a.value.hash, a.value.number,
                        prev, head, ColourOf(segOf, prev), ColourOf(segOf, head),
                        a.value.time < forkTime && p.time >= forkTime));
    }

    /** The nodes done whose move the store could not judge. */
    ghost function Unknowns(was: Heads, done: set<Node>): set<Node>
      reads `byHash, `heads
      requires Linked(byHash)
    {
      set n | n in done && Unjudged(n, was)
    }

    lemma OneMoreUnknown(was: Heads, done: set<Node>, node: Node)
      requires Linked(byHash) && node !in done && node in was && node in heads
      ensures |Unknowns(was, done + {node})| == |Unknowns(was, done)| +
              if was[node] != NONE && Judge(byHash, forkTime, was[node], heads[node]) == Truncated then 1 else 0
    {
      hide Judge;
      if Unjudged(node, was) {
        assert Unknowns(was, done + {node}) == Unknowns(was, done) + {node};
      } else {
        assert Unknowns(was, done + {node}) == Unknowns(was, done);
      }
    }

    /** Judges the moves in ascending order of node. */
    method JudgeMoves(now: nat, was: Heads) returns (out: seq<Reorg>)
      requires Linked(byHash) && was.Keys <= heads.Keys
      modifies `log, `truncated
      ensures log == old(log) + out && Verdicts(out, now, was, was.Keys)
      ensures truncated == old(truncated) + |Unknowns(was, was.Keys)|
    {
      hide Path, Meet, Judge, Linked, Verdicts, Unknowns, Recorded;
      out := [];
      var order := Sorted(was.Keys);
      ghost var done: set<Node> := {};
      NoVerdicts(now, was);
      for i := 0 to |order|
        invariant forall k :: k in done ==> k in order[..i]
        invariant forall k :: k in order[..i] ==> k in done
        invariant log == old(log) + out && Verdicts(out, now, was, done)
        invariant truncated == old(truncated) + |Unknowns(was, done)|
      {
        var node := order[i];
        assert order[..i + 1] == order[..i] + [node];
        var r := JudgeMove(now, node, was[node]);
        OneVerdict(out, r, now, was, done, node);
        OneMoreUnknown(was, done, node);
        if r.Some? {
          log := log + [r.value];
          out := out + [r.value];
        }
        done := done + {node};
      }
      assert order[..|order|] == order;
      assert done == was.Keys;
    }

    /** The records for the nodes done: in ascending order, each one true, and none missing. */
    ghost predicate Verdicts(out: seq<Reorg>, now: nat, was: Heads, done: set<Node>)
      reads `byHash, `heads, `segOf
      requires Linked(byHash)
    {
      && (forall i, j :: 0 <= i < j < |out| ==> out[i].node < out[j].node)
      && (forall r :: r in out ==>
            r.node in done && r.node in was && was[r.node] != NONE && Recorded(r, now, was[r.node]))
      && (forall n :: && n in done && n in was && n in heads && was[n] != NONE
                      && Judge(byHash, forkTime, was[n], heads[n]).Rewind?
                      ==> exists r :: r in out && r.node == n)
    }

    lemma NoVerdicts(now: nat, was: Heads)
      requires Linked(byHash)
      ensures Verdicts([], now, was, {}) && Unknowns(was, {}) == {}
    {
    }

    lemma OneVerdict(out: seq<Reorg>, r: Option<Reorg>, now: nat, was: Heads, done: set<Node>, node: Node)
      requires Linked(byHash) && Verdicts(out, now, was, done) && node in was && node in heads
      requires forall k :: k in done ==> k < node
      requires r.Some? ==> was[node] != NONE && r.value.node == node && Recorded(r.value, now, was[node])
      requires was[node] != NONE && Judge(byHash, forkTime, was[node], heads[node]).Rewind? ==> r.Some?
      ensures Verdicts(if r.Some? then out + [r.value] else out, now, was, done + {node})
    {
      hide Judge;
      var out' := if r.Some? then out + [r.value] else out;
      assert forall i :: 0 <= i < |out| ==> out[i] in out;
      forall n | n in done + {node} && n in was && n in heads && was[n] != NONE
               && Judge(byHash, forkTime, was[n], heads[n]).Rewind?
        ensures exists q :: q in out' && q.node == n
      {
        if n == node {
          assert r.value in out';
        } else {
          var q :| q in out && q.node == n;
          assert q in out';
        }
      }
    }

    /**
     Folds the moves since the last Settle: recomputes the segments, then judges each moved
     node in ascending order.
     */
    method Settle(now: nat) returns (out: seq<Reorg>)
      requires Valid()
      modifies `moved, `segOf, `recs, `byFirst, `nextID, `firstBlock, `off, `log, `truncated
      ensures Valid() && moved == map[] && (anchor in heads ==> Settled())
      ensures |log| == |old(log)| + |out| && log[|old(log)|..] == out && SameRewinds(old(log), log[..|old(log)|])
      ensures anchor in heads ==>
                Reckoned(View(Canonical()), old(Before(moved)), off, recs, byFirst, segOf, old(log), log[..|old(log)|])
      ensures Verdicts(out, now, old(moved), old(moved).Keys)
      ensures truncated == old(truncated) + |Unknowns(old(moved), old(moved).Keys)|
    {
      hide Path, Meet, Judge, Linked, Part, Unknowns, Inked, Named, Shaped, Coloured, Settled, SameRewinds, Explained,
           Verdicts, Reckoned;
      var was := moved;
      moved := map[];
      Recompute(was);
      ghost var log0 := log;
      LengthKept(old(log), log0);
      out := JudgeMoves(now, was);
      assert log[..|old(log)|] == log0;
    }

    /** The blocks pruning must keep: what a segment record or a head points at. */
    function Pinned(): set<Hash>
      reads `recs, `heads
    {
      (set id | id in recs :: recs[id].tip) + (set id | id in recs :: recs[id].ancestor)
      + (set n | n in heads :: heads[n])
    }

    /** Drops blocks and reorg records from before the retention window, but no pinned block. */
    method Prune(nowSlot: nat)
      requires Valid()
      modifies `byHash, `segOf, `log, `pruned
      ensures Valid()
      ensures nowSlot < retainSlots ==> byHash == old(byHash) && segOf == old(segOf) && log == old(log)
      ensures nowSlot >= retainSlots ==>
                && (forall h :: h in byHash ==> h in old(byHash) && byHash[h] == old(byHash)[h])
                && (forall h :: h in old(byHash) && h !in byHash ==>
                      && slotOf(old(byHash)[h].time) + retainSlots < nowSlot
                      && (forall n :: n in heads ==> heads[n] != h)
                      && (forall id :: id in recs ==> recs[id].tip != h && recs[id].ancestor != h))
                && (forall h :: h in byHash && slotOf(byHash[h].time) + retainSlots < nowSlot ==>
                      || (exists n :: n in heads && heads[n] == h)
                      || (exists id :: id in recs && (recs[id].tip == h || recs[id].ancestor == h)))
                && (forall h :: h in segOf <==> h in old(segOf) && h in byHash)
                && (forall h :: h in segOf ==> segOf[h] == old(segOf)[h])
                && log == Since(old(log), nowSlot - retainSlots)
      ensures pruned <==> old(pruned) || byHash != old(byHash)
    {
      hide Stored, Inked, Named, Shaped, Coloured, KeptFrom, Since, Pinned;
      if nowSlot >= retainSlots {
        DropBefore(nowSlot - retainSlots);
        log := KeepSince(log, nowSlot - retainSlots);
        OnlyUnpinnedGo(old(byHash), nowSlot - retainSlots);
      }
    }

    method DropBefore(cutoff: nat)
      requires Valid()
      modifies `byHash, `segOf, `pruned
      ensures Valid()
      ensures KeptFrom(old(byHash), byHash, slotOf, cutoff, Pinned())
      ensures forall h :: h in segOf <==> h in old(segOf) && h in byHash
      ensures forall h :: h in segOf ==> segOf[h] == old(segOf)[h]
      ensures pruned <==> old(pruned) || byHash != old(byHash)
    {
      hide NamedBy, Path, KeptFrom, Linked, Part, Pinned, KeepRecent, Restricted;
      PinnedHolds();
      var kept := KeepRecent(byHash, slotOf, cutoff, Pinned());
      KeptIsPart(byHash, kept, ever, slotOf, cutoff, Pinned());
      pruned := pruned || kept != byHash;
      segOf := Restricted(segOf, kept.Keys);
      byHash := kept;
    }

    /** What pruning keeps, without naming it: a block goes exactly if it is old and nothing points at it. */
    lemma OnlyUnpinnedGo(was: Store, cutoff: nat)
      requires KeptFrom(was, byHash, slotOf, cutoff, Pinned())
      ensures forall h :: h in byHash ==> h in was && byHash[h] == was[h]
      ensures forall h :: h in was && h !in byHash ==>
                && slotOf(was[h].time) < cutoff
                && (forall n :: n in heads ==> heads[n] != h)
                && (forall id :: id in recs ==> recs[id].tip != h && recs[id].ancestor != h)
      ensures forall h :: h in byHash && slotOf(byHash[h].time) < cutoff ==>
                || (exists n :: n in heads && heads[n] == h)
                || (exists id :: id in recs && (recs[id].tip == h || recs[id].ancestor == h))
    {
    }

    lemma PinnedHolds()
      ensures forall n :: n in heads ==> heads[n] in Pinned()
      ensures forall id :: id in recs ==> recs[id].tip in Pinned()
    {
    }
  }

  method KeepSince(log: seq<Reorg>, cutoff: nat) returns (kept: seq<Reorg>)
    ensures kept == Since(log, cutoff)
  {
    kept := [];
    for i := 0 to |log|
      invariant kept == Since(log[..i], cutoff)
    {
      assert log[..i + 1] == log[..i] + [log[i]];
      SinceSnoc(log[..i], log[i], cutoff);
      if log[i].slot >= cutoff {
        kept := kept + [log[i]];
      }
    }
    assert log[..|log|] == log;
  }

  /**
   Whatever a lineage that has pruned still records of a move is what the store with every
   header ever put would say of it; what it does not record is an advance there too, unless
   the move is left unjudged.
   */
  lemma PrunedRecordsStand(l: Lineage, out: seq<Reorg>, now: nat, was: Heads)
    requires l.Valid() && was.Keys <= l.heads.Keys && l.Verdicts(out, now, was, was.Keys)
    ensures forall r :: r in out ==>
              Judge(l.ever, l.forkTime, r.oldHead, r.newHead) == Rewind(r.ancestor, r.depth, r.added, r.crosses)
              && r.depth >= 1
    ensures forall n :: n in was && was[n] != NONE && (forall r :: r in out ==> r.node != n) ==>
              l.Unjudged(n, was) || Judge(l.ever, l.forkTime, was[n], l.heads[n]) == Advance
  {
    hide Judge;
    forall r | r in out
      ensures Judge(l.ever, l.forkTime, r.oldHead, r.newHead) == Rewind(r.ancestor, r.depth, r.added, r.crosses)
              && r.depth >= 1
    {
      PruningOnlyWithholds(l.byHash, l.ever, l.forkTime, r.oldHead, r.newHead);
      RewindCountsBlocks(l.byHash, l.forkTime, r.oldHead, r.newHead);
    }
    forall n | n in was && was[n] != NONE && forall r :: r in out ==> r.node != n
      ensures l.Unjudged(n, was) || Judge(l.ever, l.forkTime, was[n], l.heads[n]) == Advance
    {
      PruningOnlyWithholds(l.byHash, l.ever, l.forkTime, was[n], l.heads[n]);
    }
  }

  /**
   Right after a recomputation no node holds two segments, and every holder's head wears the colour of what it
   holds.
   */
  lemma HoldersAreDisjoint(l: Lineage, a: SegId, b: SegId, n: Node)
    requires l.Settled() && a in l.recs && b in l.recs
    requires n in l.recs[a].holders && n in l.recs[b].holders
    ensures a == b && l.recs[a].live && n in l.heads && ColourOf(l.segOf, l.heads[n]) == Some(a)
  {
  }

  /**
   Right after a recomputation, nothing having been pruned, the blocks coloured s0 are exactly the anchor's known
   chain.
   */
  lemma SpineIsTheAnchorsChain(l: Lineage)
    requires l.Settled() && !l.pruned
    ensures forall h :: ColourOf(l.segOf, h) == Some(SPINE) <==> h in Path(l.byHash, l.heads[l.anchor])
  {
  }
}
