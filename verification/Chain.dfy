/**
 Chains of blocks in a content-addressed store: ancestry, the highest common ancestor,
 and the verdict on a head that moved (cmd/migration-monitor/lineage.go). A hash is a
 number; 0 stands for the empty string.
 */
module Chain {
  import opened Options

  type Hash = nat

  const NONE: Hash := 0

  datatype Block = Block(hash: Hash, parent: Hash, root: nat, number: nat, time: nat)

  type Store = map<Hash, Block>

  /** A header is determined by its hash, and a stored parent is one number below. */
  ghost predicate Linked(s: Store) {
    forall h :: h in s ==>
      && h != NONE && s[h].hash == h
      && (s[h].parent in s ==> s[h].number == s[s[h].parent].number + 1)
  }

  ghost predicate Part(s: Store, t: Store) {
    forall h :: h in s ==> h in t && s[h] == t[h]
  }

  /** The known chain behind a block, newest first, down to the last block whose parent is unknown. */
  ghost function Path(s: Store, h: Hash): seq<Hash>
    requires Linked(s)
    decreases if h in s then s[h].number + 1 else 0
  {
    if h in s then [h] + Path(s, s[h].parent) else []
  }

  lemma {:induction false} PathNumbers(s: Store, h: Hash)
    requires Linked(s)
    ensures forall i :: 0 <= i < |Path(s, h)| ==>
              Path(s, h)[i] in s && h in s && s[Path(s, h)[i]].number + i == s[h].number
    decreases if h in s then s[h].number + 1 else 0
  {
    if h in s {
      PathNumbers(s, s[h].parent);
      forall i | 0 <= i < |Path(s, h)|
        ensures Path(s, h)[i] in s && s[Path(s, h)[i]].number + i == s[h].number
      {
        if i > 0 {
          assert Path(s, h)[i] == Path(s, s[h].parent)[i - 1];
        }
      }
    }
  }

  /** What lies behind a block of a path is the rest of that path. */
  lemma {:induction false} PathTail(s: Store, h: Hash, i: nat)
    requires Linked(s) && i < |Path(s, h)|
    ensures Path(s, Path(s, h)[i]) == Path(s, h)[i..]
    decreases i
  {
    if i > 0 {
      PathTail(s, s[h].parent, i - 1);
      assert Path(s, h)[i..] == Path(s, s[h].parent)[i - 1..];
    }
  }

  /** The chain of any block of a chain is the rest of that chain. */
  lemma PathTailOf(s: Store, h: Hash, a: Hash)
    requires Linked(s) && a in Path(s, h)
    ensures a in s && h in s && s[a].number <= s[h].number
    ensures s[h].number - s[a].number < |Path(s, h)| && Path(s, h)[s[h].number - s[a].number] == a
    ensures Path(s, a) == Path(s, h)[s[h].number - s[a].number..]
    ensures forall z :: z in Path(s, a) ==> z in Path(s, h)
  {
    var i :| 0 <= i < |Path(s, h)| && Path(s, h)[i] == a;
    PathNumbers(s, h);
    PathTail(s, h, i);
  }

  /** A smaller store knows an initial part of each path. */
  lemma {:induction false} PathPart(s: Store, t: Store, h: Hash)
    requires Linked(s) && Linked(t) && Part(s, t)
    ensures Path(s, h) <= Path(t, h)
    decreases if h in s then s[h].number + 1 else 0
  {
    if h in s {
      PathPart(s, t, s[h].parent);
    }
  }

  lemma PartLinked(s: Store, t: Store)
    requires Part(s, t) && Linked(t)
    ensures Linked(s)
  {
  }

  /** The newest block on x's chain that is also on y's. */
  ghost function Meet(s: Store, x: Hash, y: Hash): Option<Hash>
    requires Linked(s)
    decreases if x in s then s[x].number + 1 else 0
  {
    if x !in s then None
    else if x in Path(s, y) then Some(x)
    else Meet(s, s[x].parent, y)
  }

  /** It is on both chains and above every other block that is; there is none exactly when the chains are disjoint. */
  lemma {:induction false} MeetIsHighest(s: Store, x: Hash, y: Hash)
    requires Linked(s)
    ensures Meet(s, x, y).Some? ==> Meet(s, x, y).value in Path(s, x) && Meet(s, x, y).value in Path(s, y)
    ensures Meet(s, x, y).Some? ==>
              forall z :: z in Path(s, x) && z in Path(s, y) ==> z in Path(s, Meet(s, x, y).value)
    ensures Meet(s, x, y).None? <==> forall z :: z in Path(s, x) ==> z !in Path(s, y)
    decreases if x in s then s[x].number + 1 else 0
  {
    if x in s && x !in Path(s, y) {
      MeetIsHighest(s, s[x].parent, y);
    } else if x in s {
      assert x == Path(s, x)[0];
    }
  }

  /** A block that is on both chains, and whose predecessors on x's chain are not on y's, is the meeting point. */
  lemma {:induction false} MeetAt(s: Store, x: Hash, y: Hash, i: nat)
    requires Linked(s) && i < |Path(s, x)| && Path(s, x)[i] in Path(s, y)
    requires forall k :: 0 <= k < i ==> Path(s, x)[k] !in Path(s, y)
    ensures Meet(s, x, y) == Some(Path(s, x)[i])
    decreases i
  {
    if i > 0 {
      assert Path(s, x)[0] == x;
      forall k | 0 <= k < i - 1
        ensures Path(s, s[x].parent)[k] !in Path(s, y)
      {
        assert Path(s, s[x].parent)[k] == Path(s, x)[k + 1];
      }
      MeetAt(s, s[x].parent, y, i - 1);
    }
  }

  lemma MeetIsBelow(s: Store, x: Hash, y: Hash, a: Hash)
    requires Linked(s) && Meet(s, x, y) == Some(a)
    ensures a in s && x in s && y in s && s[a].number <= s[x].number && s[a].number <= s[y].number
  {
    MeetIsHighest(s, x, y);
    PathTailOf(s, x, a);
    PathTailOf(s, y, a);
  }

  datatype Verdict =
    | Advance
    | Truncated
    | Rewind(ancestor: Hash, depth: nat, added: nat, crosses: bool)

  /** What a store says of a head that moved from prev to head. */
  ghost function Judge(s: Store, forkTime: nat, prev: Hash, head: Hash): Verdict
    requires Linked(s)
  {
    match Meet(s, prev, head)
    case None => Truncated
    case Some(a) =>
      MeetIsBelow(s, prev, head, a);
      if a == prev then Advance
      else Rewind(a, s[prev].number - s[a].number, s[head].number - s[a].number, s[a].time < forkTime <= s[prev].time)
  }

  /** An advance is reachability: the old head is on the new head's known chain. */
  lemma AdvanceIsReachability(s: Store, forkTime: nat, prev: Hash, head: Hash)
    requires Linked(s)
    ensures Judge(s, forkTime, prev, head) == Advance <==> prev in Path(s, head)
  {
    MeetIsHighest(s, prev, head);
    if prev in Path(s, head) {
      PathTailOf(s, head, prev);
    }
  }

  /**
   A recorded rewind drops at least one block; its depth and added count are the numbers of
   blocks above the ancestor on the dropped and on the adopted chain, and those share none.
   */
  lemma RewindCountsBlocks(s: Store, forkTime: nat, prev: Hash, head: Hash)
    requires Linked(s) && Judge(s, forkTime, prev, head).Rewind?
    ensures
      var r := Judge(s, forkTime, prev, head);
      && r.depth >= 1
      && r.depth < |Path(s, prev)| && Path(s, prev)[r.depth] == r.ancestor
      && r.added < |Path(s, head)| && Path(s, head)[r.added] == r.ancestor
      && (forall i, j :: 0 <= i < r.depth && 0 <= j < r.added ==> Path(s, prev)[i] != Path(s, head)[j])
  {
    var r := Judge(s, forkTime, prev, head);
    MeetIsHighest(s, prev, head);
    PathTailOf(s, prev, r.ancestor);
    PathTailOf(s, head, r.ancestor);
    PathNumbers(s, prev);
    assert Path(s, prev)[0] == prev;
    PathNumbers(s, r.ancestor);
    forall i, j | 0 <= i < r.depth && 0 <= j < r.added
      ensures Path(s, prev)[i] != Path(s, head)[j]
    {
      var z := Path(s, prev)[i];
      if z == Path(s, head)[j] {
        assert z in Path(s, prev) && z in Path(s, head);
        PathTailOf(s, r.ancestor, z);
        assert false;
      }
    }
  }

  /** Where the meeting point of two chains in a larger store is known to a smaller one, they agree. */
  lemma MeetPart(s: Store, t: Store, x: Hash, y: Hash)
    requires Linked(s) && Linked(t) && Part(s, t)
    ensures Meet(s, x, y).Some? ==> Meet(t, x, y) == Meet(s, x, y)
    ensures Meet(s, x, y) == Meet(t, x, y) <==>
            (Meet(t, x, y).Some? ==> Meet(t, x, y).value in Path(s, x) && Meet(t, x, y).value in Path(s, y))
  {
    PathPart(s, t, x);
    PathPart(s, t, y);
    MeetIsHighest(s, x, y);
    MeetIsHighest(t, x, y);
    PathNumbers(t, x);
    if Meet(s, x, y).Some? {
      var a := Meet(s, x, y).value;
      var i :| 0 <= i < |Path(s, x)| && Path(s, x)[i] == a;
      forall k | 0 <= k < i
        ensures Path(t, x)[k] !in Path(t, y)
      {
        NotAboveMeet(s, t, x, y, k, i);
      }
      MeetAt(t, x, y, i);
    }
  }

  /** No block above a known meeting point can be shared in the larger store either. */
  lemma NotAboveMeet(s: Store, t: Store, x: Hash, y: Hash, k: nat, i: nat)
    requires Linked(s) && Linked(t) && Part(s, t)
    requires k < i < |Path(s, x)| && Meet(s, x, y) == Some(Path(s, x)[i])
    requires Path(s, x) <= Path(t, x) && Path(s, y) <= Path(t, y)
    ensures Path(t, x)[k] !in Path(t, y)
  {
    var a, z := Path(s, x)[i], Path(t, x)[k];
    MeetIsHighest(s, x, y);
    PathNumbers(t, x);
    PathNumbers(t, y);
    PathNumbers(s, x);
    PathNumbers(s, y);
    var ja :| 0 <= ja < |Path(s, y)| && Path(s, y)[ja] == a;
    assert Path(t, y)[ja] == a && Path(t, x)[i] == a;
    if z in Path(t, y) {
      var j :| 0 <= j < |Path(t, y)| && Path(t, y)[j] == z;
      assert j < ja;
      assert z == Path(s, y)[j] && z == Path(s, x)[k];
      PathTailOf(s, a, z);
      assert false;
    }
  }

  /**
   Pruning only withholds judgement: whatever a store says of a move, every larger store says
   the same, unless the smaller one has to call it truncated. In particular an advance is
   never turned into a rewind.
   */
  lemma PruningOnlyWithholds(s: Store, t: Store, forkTime: nat, prev: Hash, head: Hash)
    requires Linked(t) && Part(s, t)
    ensures Linked(s)
    ensures Judge(s, forkTime, prev, head) == Truncated
            || Judge(s, forkTime, prev, head) == Judge(t, forkTime, prev, head)
  {
    PartLinked(s, t);
    MeetPart(s, t, prev, head);
    hide Path, Meet, Judge;
    match Meet(s, prev, head)
    case None =>
      NotJudged(s, forkTime, prev, head);
    case Some(a) =>
      JudgedAt(s, forkTime, prev, head, a);
      JudgedAt(t, forkTime, prev, head, a);
  }

  lemma NotJudged(s: Store, forkTime: nat, prev: Hash, head: Hash)
    requires Linked(s) && Meet(s, prev, head) == None
    ensures Judge(s, forkTime, prev, head) == Truncated
  {
  }

  /** The verdict, from where the two chains meet. */
  lemma JudgedAt(s: Store, forkTime: nat, prev: Hash, head: Hash, a: Hash)
    requires Linked(s) && Meet(s, prev, head) == Some(a)
    ensures a in s && prev in s && head in s && s[a].number <= s[prev].number && s[a].number <= s[head].number
    ensures Judge(s, forkTime, prev, head)
            == if a == prev then Advance
               else Rewind(a, s[prev].number - s[a].number, s[head].number - s[a].number,
                           s[a].time < forkTime <= s[prev].time)
  {
    MeetIsBelow(s, prev, head, a);
    hide Path, Meet;
  }

  /** And exactly when: the verdict survives iff the larger store's meeting point is still reached from both heads. */
  lemma PruningWithholdsWhen(s: Store, t: Store, forkTime: nat, prev: Hash, head: Hash)
    requires Linked(t) && Part(s, t)
    ensures Linked(s)
    ensures Judge(s, forkTime, prev, head) == Judge(t, forkTime, prev, head) <==>
            match Meet(t, prev, head)
            case None => true
            case Some(a) => a in Path(s, prev) && a in Path(s, head)
  {
    PartLinked(s, t);
    MeetPart(s, t, prev, head);
    PruningOnlyWithholds(s, t, forkTime, prev, head);
    MeetIsHighest(t, prev, head);
    if Meet(t, prev, head).Some? {
      PathTailOf(t, prev, Meet(t, prev, head).value);
      PathTailOf(t, head, Meet(t, prev, head).value);
    }
  }

  /** The blocks from h down to, not including, the first canonical or unknown one, newest first. */
  ghost function Branch(s: Store, h: Hash, canonical: set<Hash>): seq<Hash>
    requires Linked(s)
    decreases if h in s then s[h].number + 1 else 0
  {
    if h in s && h !in canonical then [h] + Branch(s, s[h].parent, canonical) else []
  }

  lemma {:induction false} BranchOfPath(s: Store, h: Hash, canonical: set<Hash>)
    requires Linked(s)
    ensures Branch(s, h, canonical) <= Path(s, h)
    ensures forall b :: b in Branch(s, h, canonical) ==> b in s && b !in canonical
    ensures |Branch(s, h, canonical)| < |Path(s, h)| ==> Path(s, h)[|Branch(s, h, canonical)|] in canonical
    decreases if h in s then s[h].number + 1 else 0
  {
    if h in s && h !in canonical {
      BranchOfPath(s, s[h].parent, canonical);
    }
  }

  /** Branches that share a block have the same first block. */
  lemma {:induction false} BranchesShareTheirFirst(s: Store, h: Hash, canonical: set<Hash>, b: Hash)
    requires Linked(s) && b in Branch(s, h, canonical)
    ensures Branch(s, b, canonical) != []
    ensures Branch(s, b, canonical)[|Branch(s, b, canonical)| - 1]
            == Branch(s, h, canonical)[|Branch(s, h, canonical)| - 1]
    decreases if h in s then s[h].number + 1 else 0
  {
    if b != h {
      BranchesShareTheirFirst(s, s[h].parent, canonical, b);
    }
  }

  ghost function Elems(p: seq<Hash>): set<Hash> {
    set h | h in p
  }

  /** Every known ancestor is on the branch or canonical. */
  lemma PathSplits(s: Store, tip: Hash, h: Hash)
    requires Linked(s)
    ensures forall b :: b in Path(s, h) ==> b in Branch(s, h, Elems(Path(s, tip))) || b in Path(s, tip)
  {
    var canonical := Elems(Path(s, tip));
    var k := |Branch(s, h, canonical)|;
    BranchOfPath(s, h, canonical);
    if k < |Path(s, h)| {
      var c := Path(s, h)[k];
      PathTail(s, h, k);
      PathTailOf(s, tip, c);
      hide Path, Branch, Linked;
      forall b | b in Path(s, h)
        ensures b in Branch(s, h, canonical) || b in Path(s, tip)
      {
        var i :| 0 <= i < |Path(s, h)| && Path(s, h)[i] == b;
        if i >= k {
          assert b == Path(s, h)[k..][i - k];
        } else {
          assert b == Branch(s, h, canonical)[i];
        }
      }
    }
  }

  /** A block above y, or level with it and different, is not on y's chain. */
  lemma StepLeft(s: Store, x: Hash, y: Hash)
    requires Linked(s) && x in s && y in s && s[x].number >= s[y].number && x != y
    ensures Meet(s, x, y) == Meet(s, s[x].parent, y)
  {
    PathNumbers(s, y);
  }

  /** A block above x cannot be where the chains meet. */
  lemma {:induction false} StepRight(s: Store, x: Hash, y: Hash)
    requires Linked(s) && y in s && (x in s ==> s[x].number < s[y].number)
    ensures Meet(s, x, y) == Meet(s, x, s[y].parent)
    decreases if x in s then s[x].number + 1 else 0
  {
    if x in s {
      StepRight(s, s[x].parent, y);
    }
  }

  lemma StepBoth(s: Store, x: Hash, y: Hash)
    requires Linked(s) && x in s && y in s && s[x].number == s[y].number && x != y
    ensures Meet(s, x, y) == Meet(s, s[x].parent, s[y].parent)
  {
    StepLeft(s, x, y);
    StepRight(s, s[x].parent, y);
  }
}
