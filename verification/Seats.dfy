/**
 Who ends up on which segment in a recomputation (cmd/migration-monitor/lineage.go:197-264), said of
 heads, numbers and what was known before. Nodes are placed in ascending order, so a node's turn
 sees what the nodes up to it have done: whether its branch has a name, and whether it lives.
 */
module Seats {
  import opened Options
  import opened Chain
  import opened Segments

  /** What does not change during the turns: the headers, the heads, the canonical chain and the slot of a time. */
  datatype Scene = Scene(s: Store, heads: Heads, c: set<Hash>, slotOf: nat -> nat)

  /** What does: records, names, the segments joined so far and the counts of ticks off the canonical chain. */
  datatype Table = Table(recs: Recs, names: Ids, seen: set<SegId>, off: Counts)

  ghost predicate OnBranch(w: Scene, n: Node, f: Hash) {
    Linked(w.s) && Home(w.s, w.heads, n, f, w.c)
  }

  ghost predicate Earns(w: Scene, off: Counts, n: Node, f: Hash) {
    Linked(w.s) && Earned(w.s, w.heads, w.c, n, off, f)
  }

  ghost function HeadNumber(w: Scene, n: Node): nat {
    if n in w.heads then Number(w.s, w.heads[n]) else 0
  }

  // ---- A new segment's lane ----

  /**
   The first lane of 1, -1, 2, -2, 3, -3 with neither a live segment nor one that ended within the three
   slots before; lane 4 exactly when there is none.
   */
  ghost predicate FirstVacant(recs: Recs, firstSlot: nat, lane: int) {
    && (lane in {1, -1, 2, -2, 3, -3, 4})
    && (lane != 4 ==> forall id :: id in recs && recs[id].lane == lane ==>
          !recs[id].live && recs[id].lastSlot + 3 < firstSlot)
    && forall k :: k in {1, -1, 2, -2, 3, -3} && Earlier(k, lane) ==> Blocked(recs, k, firstSlot)
  }

  ghost predicate Blocked(recs: Recs, lane: int, firstSlot: nat) {
    exists id :: id in recs && recs[id].lane == lane && (recs[id].live || recs[id].lastSlot + 3 >= firstSlot)
  }

  /** Lane k is tried before the other: nearer to 0, or as near and above it. */
  predicate Earlier(k: int, lane: int) {
    var a, b := if k < 0 then -k else k, if lane < 0 then -lane else lane;
    a < b || (a == b && k > lane)
  }

  /** The record of a branch named just now begins at its first block's slot, in the first lane vacant then. */
  ghost predicate Newborn(w: Scene, f: Hash, recs0: Recs, rec: Segment) {
    f in w.s && rec.firstSlot == w.slotOf(w.s[f].time) && FirstVacant(recs0, rec.firstSlot, rec.lane)
  }

  // ---- One node's turn ----

  /**
   Node n's turn off the canonical chain, f being the first block of its branch: nothing changes while f
   has no name, or if f names a lost segment whose tip the head is not above. Otherwise the segment lives
   and n is its last holder, after those of this recomputation.
   */
  ghost predicate Turn(w: Scene, n: Node, f: Hash, b: Table, t: Table) {
    if f !in t.names then t.seen == b.seen && t.recs == b.recs
    else
      var id := t.names[f];
      && id in t.recs && t.recs.Keys == b.recs.Keys + {id}
      && (forall k :: k in b.recs && k != id ==> t.recs[k] == b.recs[k])
      && if id in b.recs && !b.recs[id].live && HeadNumber(w, n) <= Number(w.s, b.recs[id].tip)
         then t.seen == b.seen && t.recs[id] == b.recs[id]
         else
           && t.seen == b.seen + {id} && t.recs[id].live
           && t.recs[id].holders == (if id in b.seen && id in b.recs then b.recs[id].holders else []) + [n]
           && if id in b.recs then Kin(b.recs[id], t.recs[id]) else Newborn(w, f, b.recs, t.recs[id])
  }

  /** A record and what it becomes when it is joined: its losers are forgotten if it was lost. */
  ghost predicate Kin(rec0: Segment, rec: Segment) {
    && rec.lane == rec0.lane && rec.firstSlot == rec0.firstSlot
    && rec.lostBy == if rec0.live then rec0.lostBy else []
  }

  /** That turn as a step: it comes after those of the nodes done, and names at most n's own branch. */
  ghost predicate NextTurn(w: Scene, done: set<Node>, n: Node, f: Hash, b: Table, t: Table) {
    && OnBranch(w, n, f) && (forall k :: k in done ==> k < n && OffIn(t.off, k) == OffIn(b.off, k))
    && OneToOne(t.names) && (forall g :: g in b.names ==> g in t.names && t.names[g] == b.names[g])
    && t.names.Keys <= b.names.Keys + {f}
    && (f in t.names <==> f in b.names || Earns(w, t.off, n, f))
    && (f in t.names && f !in b.names ==> t.names[f] !in b.recs && t.names[f] !in b.seen)
    && Turn(w, n, f, b, t)
  }

  ghost function Nodes(done: seq<Node>): set<Node> {
    set n | n in done
  }

  lemma NodesNext(done: seq<Node>, n: Node)
    ensures Nodes(done + [n]) == Nodes(done) + {n}
  {
  }

  /** n, whose branch has the name f by now (m), is left out or let in. */
  lemma TurnOfJoin(w: Scene, n: Node, f: Hash, b: Table, m: Table, t: Table, parked: bool)
    requires f in m.names && t.names == m.names && m.seen == b.seen && m.names[f] in m.recs
    requires if f in b.names then m.recs == b.recs
             else m.names[f] !in b.recs && m.names[f] !in b.seen && m.recs == b.recs[m.names[f] := m.recs[m.names[f]]]
                  && m.recs[m.names[f]].live && Newborn(w, f, b.recs, m.recs[m.names[f]])
    requires t.recs.Keys == m.recs.Keys && forall k :: k in m.recs && k != m.names[f] ==> t.recs[k] == m.recs[k]
    requires var rec := m.recs[m.names[f]]; parked <==> !rec.live && HeadNumber(w, n) <= Number(w.s, rec.tip)
    requires
      var id := m.names[f];
      if parked then t.seen == m.seen && t.recs == m.recs
      else
        && t.seen == m.seen + {id} && t.recs[id].live && Kin(m.recs[id], t.recs[id])
        && t.recs[id].holders == (if id in m.seen then m.recs[id].holders else []) + [n]
    ensures Turn(w, n, f, b, t)
  {
    hide HeadNumber, FirstVacant;
    assert t.recs.Keys == b.recs.Keys + {m.names[f]};
  }

  lemma PaintingOfJoin(w: Scene, n: Node, f: Hash, t: Table, parked: bool, segOf0: Ids, segOf: Ids)
    requires OnBranch(w, n, f) && f in t.names && t.names[f] in t.recs
    requires if parked then t.names[f] !in t.seen && segOf == segOf0
             else t.names[f] in t.seen && n in t.recs[t.names[f]].holders
                  && segOf == WithBranch(w, n, t.names[f], segOf0)
    ensures Painting(w, n, f, t, segOf0, segOf)
  {
    hide WithBranch;
  }

  lemma TurnAnyCount(w: Scene, n: Node, f: Hash, b: Table, b': Table, t: Table)
    requires Turn(w, n, f, b, t) && b == b'.(off := b.off)
    ensures Turn(w, n, f, b', t)
  {
  }

  lemma TurnUnnamed(w: Scene, n: Node, f: Hash, b: Table, t: Table, segOf: Ids)
    requires f !in t.names && t.seen == b.seen && t.recs == b.recs && Linked(w.s) && n in w.heads
    ensures Turn(w, n, f, b, t) && Painting(w, n, f, t, segOf, segOf)
  {
  }

  /** The parts of a turn put together. */
  lemma TurnTaken(w: Scene, done: seq<Node>, n: Node, f: Hash, b: Table, t: Table, nextID: nat, firstBlock: Firsts,
                  ids: set<SegId>)
    requires OnBranch(w, n, f) && forall k :: k in done ==> k < n
    requires Counted(n, Branch(w.s, w.heads[n], w.c), b.off, t.off, b.names, t.names)
    requires NamedBy(nextID, t.names, firstBlock, ids)
    requires f in t.names && f !in b.names ==> t.names[f] !in b.recs && t.names[f] !in b.seen
    requires Turn(w, n, f, b, t)
    ensures NextTurn(w, Nodes(done), n, f, b, t)
  {
    hide Turn;
    assert f in t.names <==> f in b.names || Earns(w, t.off, n, f);
  }

  /** No two blocks have one name, and no branch is named s0. */
  ghost predicate OneToOne(names: Ids) {
    && (forall f, g :: f in names && g in names && names[f] == names[g] ==> f == g)
    && forall f :: f in names ==> names[f] != SPINE
  }

  // ---- All the turns ----

  /** By n's turn the branch of f had a name: it had one before, or some node up to n earned it. */
  ghost predicate NamedFor(w: Scene, off: Counts, known: set<Hash>, done: set<Node>, n: Node, f: Hash) {
    f in known || exists m :: m in done && m <= n && Earns(w, off, m, f)
  }

  /** By n's turn the branch of f was alive: it was not lost, or some node up to n has a head above the lost tip. */
  ghost predicate AliveFor(w: Scene, lost: Option<Hash>, done: set<Node>, n: Node, f: Hash) {
    lost.Some? ==> exists m :: m in done && m <= n && OnBranch(w, m, f) && HeadNumber(w, m) > Number(w.s, lost.value)
  }

  /** The tip of the lost segment f names, if it does. */
  ghost function LostTip(recs: Recs, names: Ids, f: Hash): Option<Hash> {
    if f in names && names[f] in recs && !recs[names[f]].live then Some(recs[names[f]].tip) else None
  }

  /** Node n is a holder, since these turns began, of the segment f names. */
  ghost predicate Seated(t: Table, n: Node, f: Hash) {
    f in t.names && t.names[f] in t.seen && t.names[f] in t.recs && n in t.recs[t.names[f]].holders
  }

  ghost predicate Entitled(w: Scene, a: Table, off: Counts, done: set<Node>, n: Node, f: Hash) {
    NamedFor(w, off, a.names.Keys, done, n, f) && AliveFor(w, LostTip(a.recs, a.names, f), done, n, f)
  }

  /** The names new since a are exactly those earned. */
  ghost predicate NamesEarned(w: Scene, done: set<Node>, a: Table, t: Table) {
    && (forall n, f :: n in done && Earns(w, t.off, n, f) ==> f in t.names)
    && (forall f :: f in t.names && f !in a.names ==> exists n :: n in done && Earns(w, t.off, n, f))
  }

  /** From table a, once the nodes done have had their turns: who is seated is who is entitled to it. */
  ghost predicate Boarded(w: Scene, done: set<Node>, a: Table, t: Table) {
    && (forall n, f :: n in done && OnBranch(w, n, f) ==> (Seated(t, n, f) <==> Entitled(w, a, t.off, done, n, f)))
    && (forall f :: f in a.names ==> f in t.names && t.names[f] == a.names[f] && a.names[f] in a.recs)
    && NamesEarned(w, done, a, t)
    && (forall f :: f in t.names && f !in a.names ==> t.names[f] in t.seen && t.names[f] !in a.recs)
    && Descended(a.recs, t.recs, t.seen) && Manned(w, done, t)
  }

  /** Segments nobody has joined yet are as they were, the others are kin to what they were. */
  ghost predicate Descended(recs1: Recs, recs: Recs, seen: set<SegId>) {
    && recs1.Keys <= recs.Keys && seen <= recs.Keys
    && (forall id :: id in recs && id !in seen ==> id in recs1 && recs[id] == recs1[id])
    && (forall id :: id in seen && id in recs1 && id != SPINE ==> Kin(recs1[id], recs[id]))
  }

  /** Each segment joined in these turns lives and is held by a node that had its turn. */
  ghost predicate Manned(w: Scene, done: set<Node>, t: Table) {
    forall f :: f in t.names && t.names[f] in t.seen ==>
      t.names[f] in t.recs && t.recs[t.names[f]].live && exists k :: k in done && OnBranch(w, k, f) && Seated(t, k, f)
  }

  lemma NobodyYet(w: Scene, a: Table, segOf: Ids)
    requires a.seen == {SPINE} && SPINE in a.recs && OneToOne(a.names)
    requires forall f :: f in a.names ==> a.names[f] in a.recs
    ensures Boarded(w, {}, a, a) && Liveried(w, {}, a, segOf)
  {
  }

  lemma EarlierTurn(w: Scene, done: set<Node>, n: Node, off0: Counts, off: Counts, known: set<Hash>,
                    lost: Option<Hash>, k: Node, f: Hash)
    requires k in done && forall k :: k in done ==> k < n && OffIn(off, k) == OffIn(off0, k)
    ensures NamedFor(w, off, known, done + {n}, k, f) <==> NamedFor(w, off0, known, done, k, f)
    ensures AliveFor(w, lost, done + {n}, k, f) <==> AliveFor(w, lost, done, k, f)
  {
    hide OnBranch, HeadNumber;
    SameEarned(w, done, off0, off, f);
    hide Earns;
  }

  lemma SameEarned(w: Scene, done: set<Node>, off0: Counts, off: Counts, f: Hash)
    requires forall k :: k in done ==> OffIn(off, k) == OffIn(off0, k)
    ensures forall k :: k in done ==> (Earns(w, off, k, f) <==> Earns(w, off0, k, f))
  {
    hide Branch, OffIn, Linked;
  }

  /** Who was seated stays so, and nobody else who had a turn is. */
  lemma OthersStay(w: Scene, done: set<Node>, n: Node, f: Hash, b: Table, t: Table, k: Node, g: Hash)
    requires NextTurn(w, done, n, f, b, t) && k in done && b.seen <= b.recs.Keys
    ensures Seated(t, k, g) <==> Seated(b, k, g)
  {
    hide OnBranch, Earns, Kin;
  }

  /** A name the branch of f has by n's turn came from before or from the nodes up to n. */
  lemma NamedByNow(w: Scene, done: set<Node>, n: Node, f: Hash, a: Table, b: Table, t: Table)
    requires NextTurn(w, done, n, f, b, t) && Boarded(w, done, a, b)
    ensures f in t.names <==> NamedFor(w, t.off, a.names.Keys, done + {n}, n, f)
  {
    SameEarned(w, done, b.off, t.off, f);
    hide Earns, OnBranch, Turn, Descended, Manned, Entitled;
    if f in t.names && f !in a.names {
      if f in b.names {
        var m :| m in done && Earns(w, b.off, m, f);
        assert m in done + {n} && m <= n && Earns(w, t.off, m, f);
      } else {
        assert n in done + {n} && Earns(w, t.off, n, f);
      }
    }
    if m :| m in done + {n} && m <= n && Earns(w, t.off, m, f) {
      assert m != n ==> m in done && Earns(w, b.off, m, f);
    }
  }

  /** A segment joined earlier lives for n as well. */
  lemma JoinedIsAlive(w: Scene, done: set<Node>, n: Node, f: Hash, a: Table, b: Table)
    requires Boarded(w, done, a, b) && f in b.names && b.names[f] in b.seen && forall k :: k in done ==> k < n
    ensures b.recs[b.names[f]].live && AliveFor(w, LostTip(a.recs, a.names, f), done + {n}, n, f)
  {
    hide OnBranch, HeadNumber, Descended, NamedFor;
    var k :| k in done && OnBranch(w, k, f) && Seated(b, k, f);
    assert Entitled(w, a, b.off, done, k, f);
    var lost := LostTip(a.recs, a.names, f);
    if lost.Some? {
      var m :| m in done && m <= k && OnBranch(w, m, f) && HeadNumber(w, m) > Number(w.s, lost.value);
      assert m in done + {n} && m <= n;
    }
  }

  /** While a lost segment lies unjoined no head of the nodes done is above its tip. */
  lemma NobodyAbove(w: Scene, done: set<Node>, f: Hash, a: Table, b: Table)
    requires Boarded(w, done, a, b) && f in a.names && b.names[f] !in b.seen && LostTip(a.recs, a.names, f).Some?
    ensures forall m :: m in done && OnBranch(w, m, f) ==>
              HeadNumber(w, m) <= Number(w.s, LostTip(a.recs, a.names, f).value)
  {
    hide OnBranch, HeadNumber, Descended, Manned;
    forall m | m in done && OnBranch(w, m, f)
      ensures HeadNumber(w, m) <= Number(w.s, LostTip(a.recs, a.names, f).value)
    {
      assert !Seated(b, m, f);
      assert !Entitled(w, a, b.off, done, m, f);
      assert NamedFor(w, b.off, a.names.Keys, done, m, f);
    }
  }

  /** The newcomer is seated exactly when it is entitled to it. */
  lemma NewcomerSeated(w: Scene, done: set<Node>, n: Node, f: Hash, a: Table, b: Table, t: Table)
    requires NextTurn(w, done, n, f, b, t) && Boarded(w, done, a, b) && n !in done
    ensures Seated(t, n, f) <==> Entitled(w, a, t.off, done + {n}, n, f)
  {
    NamedByNow(w, done, n, f, a, b, t);
    hide NamedFor;
    if f in t.names {
      if f !in b.names {
        NewName(w, done, n, f, a, b, t);
      } else if b.names[f] in b.seen {
        JoinedIsAlive(w, done, n, f, a, b);
        hide AliveFor, Earns, OnBranch, Kin, Boarded;
      } else {
        FirstToJoin(w, done, n, f, a, b, t);
      }
    }
  }

  lemma FirstToJoin(w: Scene, done: set<Node>, n: Node, f: Hash, a: Table, b: Table, t: Table)
    requires NextTurn(w, done, n, f, b, t) && Boarded(w, done, a, b) && f in b.names && b.names[f] !in b.seen
    ensures Seated(t, n, f) <==> AliveFor(w, LostTip(a.recs, a.names, f), done + {n}, n, f)
  {
    assert f in a.names && b.names[f] in b.recs && b.recs[b.names[f]] == a.recs[a.names[f]];
    if LostTip(a.recs, a.names, f).Some? {
      NobodyAbove(w, done, f, a, b);
    }
    hide Earns, Kin, Boarded;
    assert n in done + {n};
  }

  lemma NewName(w: Scene, done: set<Node>, n: Node, f: Hash, a: Table, b: Table, t: Table)
    requires NextTurn(w, done, n, f, b, t) && Boarded(w, done, a, b) && f in t.names && f !in b.names
    ensures Seated(t, n, f) && LostTip(a.recs, a.names, f).None?
  {
    hide Earns, OnBranch, Kin, Entitled, Manned, Descended;
  }

  /** A turn off the canonical chain. */
  lemma BoardedNext(w: Scene, done: set<Node>, n: Node, f: Hash, a: Table, b: Table, t: Table)
    requires NextTurn(w, done, n, f, b, t) && Boarded(w, done, a, b) && n !in done
    ensures Boarded(w, done + {n}, a, t)
  {
    SeatsNext(w, done, n, f, a, b, t);
    NamesNext(w, done, n, f, a, b, t);
    EarnedNext(w, done, n, f, a, b, t);
    DescendedNext(w, done, n, f, a, b, t);
    MannedNext(w, done, n, f, a, b, t);
    hide NextTurn, OnBranch, NamesEarned, Entitled, Seated, Manned, Descended;
  }

  lemma SeatsNext(w: Scene, done: set<Node>, n: Node, f: Hash, a: Table, b: Table, t: Table)
    requires NextTurn(w, done, n, f, b, t) && Boarded(w, done, a, b) && n !in done
    ensures forall k, g :: k in done + {n} && OnBranch(w, k, g) ==>
              (Seated(t, k, g) <==> Entitled(w, a, t.off, done + {n}, k, g))
  {
    NewcomerSeated(w, done, n, f, a, b, t);
    forall k, g | k in done + {n} && OnBranch(w, k, g)
      ensures Seated(t, k, g) <==> Entitled(w, a, t.off, done + {n}, k, g)
    {
      if k in done {
        OthersStay(w, done, n, f, b, t, k, g);
        EarlierTurn(w, done, n, b.off, t.off, a.names.Keys, LostTip(a.recs, a.names, g), k, g);
      } else {
        OneBranch(w, n, f, g);
      }
      hide NextTurn, OnBranch, NamedFor, AliveFor, Seated, LostTip, Manned, Descended, Earns;
    }
  }

  lemma OneBranch(w: Scene, n: Node, f: Hash, g: Hash)
    requires OnBranch(w, n, f) && OnBranch(w, n, g)
    ensures f == g
  {
  }

  lemma OnlyBranch(w: Scene, n: Node, f: Hash)
    requires OnBranch(w, n, f)
    ensures forall g :: OnBranch(w, n, g) ==> g == f
  {
  }

  lemma NamesNext(w: Scene, done: set<Node>, n: Node, f: Hash, a: Table, b: Table, t: Table)
    requires NextTurn(w, done, n, f, b, t) && Boarded(w, done, a, b)
    ensures forall g :: g in a.names ==> g in t.names && t.names[g] == a.names[g] && a.names[g] in a.recs
    ensures forall g :: g in t.names && g !in a.names ==> t.names[g] in t.seen && t.names[g] !in a.recs
  {
    hide Earns, OnBranch, Entitled, Seated, Manned, Kin, HeadNumber;
  }

  lemma EarnedNext(w: Scene, done: set<Node>, n: Node, f: Hash, a: Table, b: Table, t: Table)
    requires NextTurn(w, done, n, f, b, t) && NamesEarned(w, done, a, b)
    ensures NamesEarned(w, done + {n}, a, t)
  {
    hide Turn, OneToOne;
    forall k, g | k in done + {n} && Earns(w, t.off, k, g)
      ensures g in t.names
    {
      SameEarned(w, done, b.off, t.off, g);
      if k == n {
        EarnsOwn(w, t.off, n, f, g);
      }
      hide Earns, OnBranch;
    }
    hide Earns, OnBranch;
    forall g | g in t.names && g !in a.names
      ensures exists k :: k in done + {n} && Earns(w, t.off, k, g)
    {
      SameEarned(w, done, b.off, t.off, g);
      if g in b.names {
        var k :| k in done && Earns(w, b.off, k, g);
        assert k in done + {n} && Earns(w, t.off, k, g);
      } else {
        assert n in done + {n} && Earns(w, t.off, n, g);
      }
    }
  }

  lemma EarnsOwn(w: Scene, off: Counts, n: Node, f: Hash, g: Hash)
    requires OnBranch(w, n, f) && Earns(w, off, n, g)
    ensures f == g
  {
  }

  lemma DescendedNext(w: Scene, done: set<Node>, n: Node, f: Hash, a: Table, b: Table, t: Table)
    requires NextTurn(w, done, n, f, b, t) && Boarded(w, done, a, b)
    ensures Descended(a.recs, t.recs, t.seen)
  {
    hide Earns, OnBranch, Entitled, Seated, HeadNumber;
  }

  lemma MannedNext(w: Scene, done: set<Node>, n: Node, f: Hash, a: Table, b: Table, t: Table)
    requires NextTurn(w, done, n, f, b, t) && Boarded(w, done, a, b) && n !in done
    ensures Manned(w, done + {n}, t)
  {
    hide Earns, OnBranch, Entitled, Descended, Kin, HeadNumber;
    forall g | g in t.names && t.names[g] in t.seen
      ensures t.names[g] in t.recs && t.recs[t.names[g]].live
      ensures exists k :: k in done + {n} && OnBranch(w, k, g) && Seated(t, k, g)
    {
      if t.names[g] in b.seen && g in b.names {
        var k :| k in done && OnBranch(w, k, g) && Seated(b, k, g);
        assert k in done + {n} && Seated(t, k, g);
      } else {
        assert g == f;
        assert n in done + {n} && Seated(t, n, f);
      }
    }
  }

  /** A turn on the canonical chain touches the record of s0 alone. */
  lemma BoardedOnSpine(w: Scene, done: set<Node>, n: Node, a: Table, b: Table, t: Table)
    requires Boarded(w, done, a, b) && n !in done && SPINE in b.seen && SPINE in b.recs && OneToOne(b.names)
    requires n in w.heads && w.heads[n] in w.c && OffIn(t.off, n) == 0
    requires forall k :: k in done ==> k < n && OffIn(t.off, k) == OffIn(b.off, k)
    requires t.names == b.names && t.seen == b.seen && SPINE in t.recs && t.recs == b.recs[SPINE := t.recs[SPINE]]
    ensures Boarded(w, done + {n}, a, t)
  {
    OffBranch(w, t.off, n);
    SpineSeats(w, done, n, a, b, t);
    SpineNames(w, done, n, a, b, t);
    SpineManned(w, done, n, b, t);
    hide NamesEarned, OnBranch, Entitled, Kin, Manned;
  }

  lemma SpineManned(w: Scene, done: set<Node>, n: Node, b: Table, t: Table)
    requires Manned(w, done, b) && OneToOne(b.names)
    requires t.names == b.names && t.seen == b.seen && SPINE in t.recs && t.recs == b.recs[SPINE := t.recs[SPINE]]
    ensures Manned(w, done + {n}, t)
  {
    hide OnBranch;
    forall g | g in t.names && t.names[g] in t.seen
      ensures exists k :: k in done + {n} && OnBranch(w, k, g) && Seated(t, k, g)
    {
      var k :| k in done && OnBranch(w, k, g) && Seated(b, k, g);
      assert k in done + {n} && Seated(t, k, g);
    }
  }

  lemma SpineSeats(w: Scene, done: set<Node>, n: Node, a: Table, b: Table, t: Table)
    requires Boarded(w, done, a, b) && OneToOne(b.names) && forall f :: !OnBranch(w, n, f)
    requires forall k :: k in done ==> k < n && OffIn(t.off, k) == OffIn(b.off, k)
    requires t.names == b.names && t.seen == b.seen && SPINE in t.recs && t.recs == b.recs[SPINE := t.recs[SPINE]]
    ensures forall k, g :: k in done + {n} && OnBranch(w, k, g) ==>
              (Seated(t, k, g) <==> Entitled(w, a, t.off, done + {n}, k, g))
  {
    hide OnBranch, Earns, NamedFor, AliveFor, LostTip, Manned, Descended, NamesEarned;
    forall k, g | k in done + {n} && OnBranch(w, k, g)
      ensures Seated(t, k, g) <==> Entitled(w, a, t.off, done + {n}, k, g)
    {
      assert Seated(t, k, g) <==> Seated(b, k, g);
      EarlierTurn(w, done, n, b.off, t.off, a.names.Keys, LostTip(a.recs, a.names, g), k, g);
    }
  }

  lemma SpineNames(w: Scene, done: set<Node>, n: Node, a: Table, b: Table, t: Table)
    requires NamesEarned(w, done, a, b) && t.names == b.names && forall f :: !Earns(w, t.off, n, f)
    requires forall k :: k in done ==> OffIn(t.off, k) == OffIn(b.off, k)
    ensures NamesEarned(w, done + {n}, a, t)
  {
    forall k, g | k in done + {n} && Earns(w, t.off, k, g)
      ensures g in t.names
    {
      SameEarned(w, done, b.off, t.off, g);
      hide Earns;
    }
    hide Earns;
    forall g | g in t.names && g !in a.names
      ensures exists k :: k in done + {n} && Earns(w, t.off, k, g)
    {
      SameEarned(w, done, b.off, t.off, g);
      var k :| k in done && Earns(w, b.off, k, g);
      assert k in done + {n} && Earns(w, t.off, k, g);
    }
  }

  lemma OffBranch(w: Scene, off: Counts, n: Node)
    requires n in w.heads && w.heads[n] in w.c
    ensures forall f :: !OnBranch(w, n, f) && !Earns(w, off, n, f)
  {
  }

  // ---- Colours ----

  /** The whole branch of a head wears one colour. */
  ghost predicate Wears(w: Scene, segOf: Ids, h: Hash, id: SegId) {
    Linked(w.s) && forall b :: b in Branch(w.s, h, w.c) ==> b in segOf && segOf[b] == id
  }

  ghost predicate Liveried(w: Scene, done: set<Node>, t: Table, segOf: Ids) {
    forall n, f :: n in done && OnBranch(w, n, f) && Seated(t, n, f) ==> Wears(w, segOf, w.heads[n], t.names[f])
  }

  /** What a turn paints: the branch of a node it seats. */
  ghost predicate Painting(w: Scene, n: Node, f: Hash, t: Table, segOf0: Ids, segOf: Ids) {
    && Linked(w.s) && n in w.heads
    && segOf == if Seated(t, n, f) then WithBranch(w, n, t.names[f], segOf0) else segOf0
  }

  ghost function WithBranch(w: Scene, n: Node, id: SegId, segOf: Ids): Ids
    requires Linked(w.s) && n in w.heads
  {
    segOf + map b | b in Branch(w.s, w.heads[n], w.c) :: id
  }

  lemma LiveriedNext(w: Scene, done: set<Node>, n: Node, f: Hash, b: Table, t: Table, segOf0: Ids, segOf: Ids)
    requires NextTurn(w, done, n, f, b, t) && b.seen <= b.recs.Keys && Liveried(w, done, b, segOf0)
    requires Painting(w, n, f, t, segOf0, segOf)
    ensures Liveried(w, done + {n}, t, segOf)
  {
    forall k, g | k in done + {n} && OnBranch(w, k, g) && Seated(t, k, g)
      ensures Wears(w, segOf, w.heads[k], t.names[g])
    {
      if k in done {
        OthersStay(w, done, n, f, b, t, k, g);
        StillWears(w, done, n, f, b, t, segOf0, segOf, k, g);
      } else {
        OneBranch(w, n, f, g);
        OwnWears(w, n, f, t, segOf0, segOf);
      }
      hide NextTurn, OnBranch, Liveried, Wears, Painting;
    }
  }

  lemma OwnWears(w: Scene, n: Node, f: Hash, t: Table, segOf0: Ids, segOf: Ids)
    requires Painting(w, n, f, t, segOf0, segOf) && Seated(t, n, f)
    ensures Wears(w, segOf, w.heads[n], t.names[f])
  {
  }

  lemma StillWears(w: Scene, done: set<Node>, n: Node, f: Hash, b: Table, t: Table, segOf0: Ids, segOf: Ids, k: Node,
                   g: Hash)
    requires NextTurn(w, done, n, f, b, t) && Liveried(w, done, b, segOf0) && Painting(w, n, f, t, segOf0, segOf)
    requires k in done && OnBranch(w, k, g) && Seated(b, k, g)
    ensures Wears(w, segOf, w.heads[k], t.names[g])
  {
    hide Turn, OneToOne, Wears, OnBranch;
    if Seated(t, n, f) {
      BranchWears(w, n, f, k, g, segOf0, t.names);
    }
  }

  lemma LiveriedOnSpine(w: Scene, done: set<Node>, n: Node, b: Table, t: Table, segOf: Ids)
    requires Liveried(w, done, b, segOf) && n in w.heads && w.heads[n] in w.c && OneToOne(b.names)
    requires t.names == b.names && t.seen == b.seen && SPINE in b.recs && SPINE in t.recs
    requires t.recs == b.recs[SPINE := t.recs[SPINE]]
    ensures Liveried(w, done + {n}, t, segOf)
  {
    OffBranch(w, t.off, n);
    hide OnBranch, Wears;
  }

  /** The first block of the branch a head is on. */
  lemma BranchName(w: Scene, n: Node) returns (f: Hash)
    requires Linked(w.s) && n in w.heads && w.heads[n] in w.s && w.heads[n] !in w.c
    ensures OnBranch(w, n, f)
  {
    NonEmptyBranch(w.s, w.heads[n], w.c);
    f := Branch(w.s, w.heads[n], w.c)[|Branch(w.s, w.heads[n], w.c)| - 1];
  }

  /** Painting one branch leaves another in its colour. */
  lemma BranchWears(w: Scene, n: Node, f: Hash, k: Node, g: Hash, segOf: Ids, names: Ids)
    requires OnBranch(w, n, f) && OnBranch(w, k, g) && f in names && g in names
    requires Wears(w, segOf, w.heads[k], names[g])
    ensures Wears(w, WithBranch(w, n, names[f], segOf), w.heads[k], names[g])
  {
    forall b | b in Branch(w.s, w.heads[k], w.c) && b in Branch(w.s, w.heads[n], w.c)
      ensures f == g
    {
      BranchesShareTheirFirst(w.s, w.heads[k], w.c, b);
      BranchesShareTheirFirst(w.s, w.heads[n], w.c, b);
    }
  }

  lemma NamesInRecs(nextID: nat, names: Ids, firstBlock: Firsts, ids: set<SegId>)
    requires NamedBy(nextID, names, firstBlock, ids)
    ensures forall f :: f in names ==> names[f] in ids && names[f] != SPINE
    ensures OneToOne(names)
  {
  }
}
