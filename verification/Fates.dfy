/**
 What a whole recomputation makes of the segments, their records and the reorg log
 (cmd/migration-monitor/lineage.go:129-265), said of the state before it.
 */
module Fates {
  import opened Options
  import opened Chain
  import opened Segments
  import opened Seats

  /** The state before, with the suffix the anchor abandons and the heads before this tick. */
  datatype Past = Past(left: seq<Hash>, recs: Recs, names: Ids, segOf: Ids, was: Heads) {
    /** The first block of the abandoned suffix. */
    function Last(): Hash
      requires left != []
    {
      left[|left| - 1]
    }

    predicate Left(f: Hash) {
      left != [] && f == left[|left| - 1]
    }
  }

  // ---- Who holds what ----

  /** How s0 being redrawn leaves the other records: only the segment of the suffix it abandons changes, and is lost. */
  ghost predicate Respined(p: Past, a: Table) {
    && Named1(p.left, p.names, a.names)
    && (forall f :: f in p.names ==> p.names[f] in p.recs && p.names[f] in a.recs)
    && (forall f :: f in p.names && !p.Left(f) ==> a.recs[p.names[f]] == p.recs[p.names[f]])
    && (p.left != [] ==>
          var f := p.Last();
          && f in a.names && a.names[f] in a.recs
          && !a.recs[a.names[f]].live && a.recs[a.names[f]].holders == [] && a.recs[a.names[f]].tip == p.left[0]
          && (f in p.names ==> SamePlace(p.recs[p.names[f]], a.recs[p.names[f]])))
  }

  ghost predicate SamePlace(rec0: Segment, rec: Segment) {
    rec.lane == rec0.lane && rec.firstSlot == rec0.firstSlot
  }

  lemma RespinedNothing(p: Past, a: Table)
    requires p.left == [] && a.recs == p.recs && a.names == p.names && forall f :: f in a.names ==> a.names[f] in a.recs
    ensures Respined(p, a)
  {
  }

  lemma RespinedOnce(w: Scene, p: Past, a: Table)
    requires Named1(p.left, p.names, a.names) && OneToOne(a.names) && p.left != [] && p.Last() in a.names
    requires forall f :: f in p.names ==> p.names[f] in p.recs
    requires
      var id := a.names[p.Last()];
      && id in a.recs && a.recs == p.recs[id := a.recs[id]] && Lost(w.s, w.slotOf, a.recs[id], p.left)
      && (id in p.recs ==> SamePlace(p.recs[id], a.recs[id]))
    ensures Respined(p, a)
  {
  }

  lemma RespinedWithSpine(p: Past, q: Past, a: Table)
    requires Respined(p, a) && q == p.(recs := q.recs)
    requires p.recs == q.recs || (SPINE in p.recs && p.recs == q.recs[SPINE := p.recs[SPINE]])
    requires forall f :: f in q.names ==> q.names[f] in q.recs && q.names[f] != SPINE
    ensures Respined(q, a)
  {
  }

  lemma RespinedPainted(p: Past, a: Table, b: Table, nextID: nat, firstBlock: Firsts)
    requires Respined(p, a) && b.names == a.names && SPINE in b.recs
    requires b.recs == a.recs[SPINE := b.recs[SPINE]] && NamedBy(nextID, b.names, firstBlock, b.recs.Keys)
    ensures Respined(p, b)
  {
  }

  /** The tip with which the branch of f was lost before anyone was placed: abandoned just now, or earlier. */
  ghost function LostWith(p: Past, f: Hash): Option<Hash> {
    if p.Left(f) then Some(p.left[0]) else LostTip(p.recs, p.names, f)
  }

  ghost function NamedBefore(p: Past): set<Hash> {
    p.names.Keys + if p.left == [] then {} else {p.Last()}
  }

  /** Node n holds the live segment f names. */
  ghost predicate Holds(recs: Recs, names: Ids, n: Node, f: Hash) {
    f in names && names[f] in recs && recs[names[f]].live && n in recs[names[f]].holders
  }

  /**
   A node whose head is off the canonical chain holds its branch's segment exactly when by its turn the
   branch had a name and lived; and a branch held wears its colour all the way down.
   */
  ghost predicate SeatedRight(w: Scene, p: Past, off: Counts, recs: Recs, names: Ids, segOf: Ids) {
    forall n, f :: n in w.heads && OnBranch(w, n, f) ==>
      && (Holds(recs, names, n, f)
          <==> NamedFor(w, off, NamedBefore(p), w.heads.Keys, n, f)
               && AliveFor(w, LostWith(p, f), w.heads.Keys, n, f))
      && (Holds(recs, names, n, f) ==> Wears(w, segOf, w.heads[n], names[f]))
  }

  lemma SameLost(p: Past, a: Table, f: Hash)
    requires Respined(p, a)
    ensures LostTip(a.recs, a.names, f) == LostWith(p, f)
  {
  }

  lemma SameNamed(p: Past, a: Table)
    requires Respined(p, a)
    ensures a.names.Keys == NamedBefore(p)
  {
  }

  lemma SeatedAtLast(w: Scene, p: Past, a: Table, t: Table, segOf: Ids, firsts0: Firsts, firsts: Firsts, recs: Recs,
                     names: Ids)
    requires Ran(w, a, t, firsts0, firsts, recs, names, segOf) && Respined(p, a)
    ensures SeatedRight(w, p, t.off, recs, names, segOf)
  {
    hide Respined, OnBranch, Entitled, Retirement, NamesKept, Holds, Wears;
    forall n, f | n in w.heads && OnBranch(w, n, f)
      ensures Holds(recs, names, n, f)
              <==> NamedFor(w, t.off, NamedBefore(p), w.heads.Keys, n, f)
                   && AliveFor(w, LostWith(p, f), w.heads.Keys, n, f)
      ensures Holds(recs, names, n, f) ==> f in names && Wears(w, segOf, w.heads[n], names[f])
    {
      OffCanonical(w, n, f);
      StaysSeated(w, t, firsts0, firsts, recs, names, n, f);
      SameEntitled(w, p, a, t.off, n, f);
    }
  }

  lemma SameEntitled(w: Scene, p: Past, a: Table, off: Counts, n: Node, f: Hash)
    requires Respined(p, a)
    ensures Entitled(w, a, off, w.heads.Keys, n, f)
            <==> NamedFor(w, off, NamedBefore(p), w.heads.Keys, n, f)
                 && AliveFor(w, LostWith(p, f), w.heads.Keys, n, f)
  {
    SameNamed(p, a);
    SameLost(p, a, f);
    hide Respined, NamedFor, AliveFor, LostTip, LostWith, NamedBefore;
  }

  lemma OffCanonical(w: Scene, n: Node, f: Hash)
    requires OnBranch(w, n, f)
    ensures f !in w.c
  {
    BranchEndsOff(w.s, w.heads[n], w.c);
  }

  lemma StaysSeated(w: Scene, t: Table, firsts0: Firsts, firsts: Firsts, recs: Recs, names: Ids, n: Node, f: Hash)
    requires Retirement(t.recs, recs, firsts0, firsts, w.c, t.seen, {}) && NamesKept(t.names, names, w.c) && f !in w.c
    requires Manned(w, w.heads.Keys, t) && forall g :: g in t.names ==> t.names[g] in t.recs
    ensures Holds(recs, names, n, f) <==> Seated(t, n, f)
    ensures Seated(t, n, f) ==> f in names && names[f] == t.names[f]
  {
    hide OnBranch;
  }

  // ---- What becomes of the records ----

  /** A segment that nobody holds any more is lost by its last holders; one lost before stays as it is. */
  ghost predicate Deserted(rec0: Segment, rec: Segment) {
    && !rec.live && rec.holders == []
    && (rec0.live ==> rec == rec0.(live := false, holders := [], lostBy := rec0.holders))
    && (!rec0.live ==> rec == rec0)
  }

  /** The segment of the suffix abandoned just now: how it was lost, and by whom. */
  ghost predicate SetAside(w: Scene, p: Past, id: SegId, rec: Segment) {
    && Lost(w.s, w.slotOf, rec, p.left)
    && LostBy(rec.lostBy, w.heads, p.was, p.segOf + (map h | h in p.left :: id), id)
  }

  ghost predicate AsideIs(w: Scene, p: Past, a: Table) {
    p.left != [] ==>
      p.Last() in a.names && a.names[p.Last()] in a.recs
      && SetAside(w, p, a.names[p.Last()], a.recs[a.names[p.Last()]])
  }

  /**
   What becomes of the segment of an old name f: absorbed if f is canonical now; held, forgetting its losers
   if it was lost; or deserted. The segment of an abandoned suffix, if nobody holds it, is what that made it.
   */
  ghost predicate Fate(w: Scene, p: Past, recs: Recs, names: Ids, f: Hash) {
    f in p.names && p.names[f] in p.recs &&
    var id := p.names[f];
    if f in w.c then f !in names && id !in recs
    else
      && f in names && names[f] == id && id in recs
      && SamePlace(p.recs[id], recs[id])
      && if recs[id].live then
           && (exists n :: n in w.heads && Holds(recs, names, n, f))
           && recs[id].lostBy == if LostWith(p, f).Some? then [] else p.recs[id].lostBy
         else if p.Left(f) then SetAside(w, p, id, recs[id])
         else Deserted(p.recs[id], recs[id])
  }

  lemma FateAtLast(w: Scene, p: Past, a: Table, t: Table, firsts0: Firsts, firsts: Firsts, recs: Recs, names: Ids,
                   segOf: Ids, f: Hash)
    requires Ran(w, a, t, firsts0, firsts, recs, names, segOf) && Respined(p, a) && AsideIs(w, p, a) && f in p.names
    ensures Fate(w, p, recs, names, f)
  {
    if p.names[f] in t.seen {
      FateHeld(w, p, a, t, firsts0, firsts, recs, names, f);
    } else {
      FateUnheld(w, p, a, t, firsts0, firsts, recs, names, f);
    }
  }

  lemma FateHeld(w: Scene, p: Past, a: Table, t: Table, firsts0: Firsts, firsts: Firsts, recs: Recs, names: Ids,
                 f: Hash)
    requires Boarded(w, w.heads.Keys, a, t) && Respined(p, a) && f in p.names && OneToOne(t.names)
    requires Retirement(t.recs, recs, firsts0, firsts, w.c, t.seen, {}) && NamesKept(t.names, names, w.c)
    requires p.names[f] in t.seen
    ensures Fate(w, p, recs, names, f)
  {
    hide Fate, Respined, Boarded, LostTip, LostWith, Kin, Retirement, NamesKept, OnBranch, Seated, Holds, Descended,
         Manned;
    var id := p.names[f];
    SameName(w, p, a, t, f);
    SameLost(p, a, f);
    var k := WhoHolds(w, a, t, firsts0, firsts, recs, names, f);
    HeldFate(w, p, a, t, recs, names, f, k);
  }

  lemma WhoHolds(w: Scene, a: Table, t: Table, firsts0: Firsts, firsts: Firsts, recs: Recs, names: Ids, f: Hash)
    returns (k: Node)
    requires Boarded(w, w.heads.Keys, a, t) && f in t.names && t.names[f] in t.seen && t.names[f] in a.recs
    requires OneToOne(t.names)
    requires Retirement(t.recs, recs, firsts0, firsts, w.c, t.seen, {}) && NamesKept(t.names, names, w.c)
    ensures k in w.heads && Holds(recs, names, k, f) && f !in w.c && f in names && names[f] == t.names[f]
    ensures t.names[f] in t.recs && t.names[f] in recs && recs[t.names[f]] == t.recs[t.names[f]]
    ensures Kin(a.recs[t.names[f]], t.recs[t.names[f]])
  {
    SeenIsHeld(w, t, f);
    StillKin(a, t, t.names[f]);
    k :| k in w.heads && OnBranch(w, k, f) && Seated(t, k, f);
    OffCanonical(w, k, f);
    StaysSeated(w, t, firsts0, firsts, recs, names, k, f);
    RetirementKeeps(t.recs, recs, firsts0, firsts, w.c, t.seen, t.names[f]);
    hide Kin, OnBranch, Entitled, NamesEarned, Descended, Manned;
  }

  lemma HeldFate(w: Scene, p: Past, a: Table, t: Table, recs: Recs, names: Ids,
                 f: Hash, k: Node)
    requires f in p.names && f in t.names && t.names[f] == p.names[f] && f in a.names && a.names[f] == p.names[f]
    requires p.names[f] in p.recs && p.names[f] in a.recs && p.names[f] in t.recs
    requires SamePlace(p.recs[p.names[f]], a.recs[p.names[f]])
    requires a.recs[p.names[f]].live ==> a.recs[p.names[f]] == p.recs[p.names[f]]
    requires LostTip(a.recs, a.names, f) == LostWith(p, f)
    requires k in w.heads && Holds(recs, names, k, f) && f !in w.c && f in names && names[f] == t.names[f]
    requires p.names[f] in recs && recs[p.names[f]] == t.recs[p.names[f]] && Kin(a.recs[p.names[f]], t.recs[p.names[f]])
    ensures Fate(w, p, recs, names, f)
  {
    hide LostWith;
  }

  /** A segment keeps its id, and its lane and first slot when the spine is redrawn. */
  lemma SameName(w: Scene, p: Past, a: Table, t: Table, f: Hash)
    requires Boarded(w, w.heads.Keys, a, t) && Respined(p, a) && f in p.names
    ensures f in a.names && a.names[f] == p.names[f] && f in t.names && t.names[f] == p.names[f]
    ensures p.names[f] in p.recs && p.names[f] in a.recs && p.names[f] in t.recs
    ensures SamePlace(p.recs[p.names[f]], a.recs[p.names[f]])
    ensures a.recs[p.names[f]].live ==> a.recs[p.names[f]] == p.recs[p.names[f]]
    ensures !p.Left(f) ==> a.recs[p.names[f]] == p.recs[p.names[f]]
    ensures f in t.names && t.names[f] in t.seen ==> t.recs[p.names[f]].live
  {
    hide OnBranch, Entitled, NamesEarned, Kin;
  }

  lemma StillKin(a: Table, t: Table, id: SegId)
    requires Descended(a.recs, t.recs, t.seen) && id in a.recs && id in t.seen && id != SPINE
    ensures id in t.recs && Kin(a.recs[id], t.recs[id])
  {
    hide Kin;
  }

  lemma FateUnheld(w: Scene, p: Past, a: Table, t: Table, firsts0: Firsts, firsts: Firsts, recs: Recs, names: Ids,
                   f: Hash)
    requires Boarded(w, w.heads.Keys, a, t) && Respined(p, a) && AsideIs(w, p, a) && f in p.names
    requires Retirement(t.recs, recs, firsts0, firsts, w.c, t.seen, {}) && NamesKept(t.names, names, w.c)
    requires p.names[f] !in t.seen && OneToOne(t.names)
    requires forall g :: g in t.names ==> t.names[g] in firsts0 && firsts0[t.names[g]] == g
    requires forall g :: g in names ==> names[g] in recs
    requires forall id :: id in t.recs && !t.recs[id].live && id != SPINE ==> t.recs[id].holders == []
    ensures Fate(w, p, recs, names, f)
  {
    var id := p.names[f];
    SameName(w, p, a, t, f);
    Unjoined(a, t, id);
    hide Boarded, Respined, OnBranch;
    assert firsts0[id] == f;
    assert f in w.c ==> id !in recs && f !in names;
    assert f !in w.c ==> id in recs && recs[id] == Retired(t.recs[id]) && f in names && names[f] == id;
    hide Retirement, NamesKept;
  }

  lemma Unjoined(a: Table, t: Table, id: SegId)
    requires Descended(a.recs, t.recs, t.seen) && id in t.recs && id !in t.seen
    ensures id in a.recs && t.recs[id] == a.recs[id]
  {
  }

  lemma SeenIsHeld(w: Scene, t: Table, f: Hash)
    requires Manned(w, w.heads.Keys, t) && f in t.names && t.names[f] in t.seen
    ensures exists k :: k in w.heads && OnBranch(w, k, f) && Seated(t, k, f)
  {
    hide OnBranch, Seated;
    var k :| k in w.heads.Keys && OnBranch(w, k, f) && Seated(t, k, f);
  }

  // ---- What becomes of the log ----

  /** The segment had the name of a block that is canonical now. */
  ghost predicate Adopted(c: set<Hash>, names0: Ids, id: SegId) {
    exists f :: f in names0 && f in c && names0[f] == id
  }

  /**
   A reorg record afterwards: a move that left s0 from what is now the abandoned suffix, or from blocks
   of that segment's colour, left that segment; and where it names an adopted segment it names s0.
   */
  ghost predicate Relabelled(c: set<Hash>, p: Past, names: Ids, r0: Reorg, r: Reorg) {
    && r == r0.(lost := r.lost, won := r.won)
    && r.won == (if r0.won.Some? && Adopted(c, p.names, r0.won.value) then Some(SPINE) else r0.won)
    && (p.left != [] ==> p.Last() in names)
    && r.lost ==
       if p.left != [] && r0.lost == Some(SPINE)
          && (r0.oldHead in p.left || ColourOf(p.segOf, r0.oldHead) == Some(names[p.Last()]))
       then Some(names[p.Last()])
       else if r0.lost.Some? && Adopted(c, p.names, r0.lost.value) then Some(SPINE)
       else r0.lost
  }

  lemma GoneAreAdopted(w: Scene, p: Past, a: Table, t: Table, firsts0: Firsts, firsts: Firsts, recs: Recs, names: Ids,
                       segOf: Ids, id: SegId)
    requires Ran(w, a, t, firsts0, firsts, recs, names, segOf) && Respined(p, a)
    requires p.left != [] ==> p.Last() !in w.c
    ensures id in t.recs.Keys - recs.Keys <==> Adopted(w.c, p.names, id)
  {
    if id in t.recs.Keys - recs.Keys {
      var f := firsts0[id];
      assert f in w.c && t.names[f] == id;
      CanonicalIsOld(w, p, a, t, f);
    }
    if Adopted(w.c, p.names, id) {
      var f :| f in p.names && f in w.c && p.names[f] == id;
      SameName(w, p, a, t, f);
      if id in t.seen {
        SeenIsOff(w, t, f);
      }
    }
  }

  lemma SeenIsOff(w: Scene, t: Table, f: Hash)
    requires Manned(w, w.heads.Keys, t) && f in t.names && t.names[f] in t.seen
    ensures f !in w.c
  {
    SeenIsHeld(w, t, f);
    var k :| k in w.heads && OnBranch(w, k, f) && Seated(t, k, f);
    OffCanonical(w, k, f);
  }

  lemma CanonicalIsOld(w: Scene, p: Past, a: Table, t: Table, f: Hash)
    requires Boarded(w, w.heads.Keys, a, t) && Respined(p, a) && f in t.names && f in w.c
    requires p.left != [] ==> p.Last() !in w.c
    ensures f in p.names && p.names[f] == t.names[f]
  {
    if f !in a.names {
      var n :| n in w.heads.Keys && Earns(w, t.off, n, f);
      EarnsOnBranch(w, t.off, n, f);
      OffCanonical(w, n, f);
    }
    hide OnBranch, Earns, Entitled, Manned, Descended;
  }

  lemma EarnsOnBranch(w: Scene, off: Counts, n: Node, f: Hash)
    requires Earns(w, off, n, f)
    ensures OnBranch(w, n, f)
  {
  }

  /** Redirecting and then absorbing relabels each record so. */
  lemma RelabelledAtLast(c: set<Hash>, p: Past, names: Ids, id: SegId, gone: set<SegId>,
                         log0: seq<Reorg>, log1: seq<Reorg>, log: seq<Reorg>)
    requires p.left != [] ==> p.Last() in names && names[p.Last()] == id && id !in gone
    requires log1 == if p.left == [] then log0 else Redirected(log0, p.segOf + map h | h in p.left :: id, id)
    requires log == Absorbed(log1, gone) && SPINE !in gone && forall k :: k in gone <==> Adopted(c, p.names, k)
    ensures |log| == |log0| && forall i :: 0 <= i < |log| ==> Relabelled(c, p, names, log0[i], log[i])
  {
    hide Adopted;
  }

  // ---- All of it ----

  /** How a recomputation went: from table a the nodes had their turns, up to t, and what nobody joined was retired. */
  ghost predicate Ran(w: Scene, a: Table, t: Table, firsts0: Firsts, firsts: Firsts, recs: Recs, names: Ids,
                      segOf: Ids) {
    && Boarded(w, w.heads.Keys, a, t) && Liveried(w, w.heads.Keys, t, segOf)
    && Retirement(t.recs, recs, firsts0, firsts, w.c, t.seen, {}) && NamesKept(t.names, names, w.c)
    && SPINE in t.seen && OneToOne(t.names) && Inverse(t.names, firsts0)
    && (forall g :: g in names ==> names[g] in recs)
    && (forall id :: id in t.recs && !t.recs[id].live && id != SPINE ==> t.recs[id].holders == [])
  }

  lemma RanSo(w: Scene, a: Table, t: Table, firsts0: Firsts, firsts: Firsts, recs: Recs, names: Ids, segOf: Ids)
    requires Boarded(w, w.heads.Keys, a, t) && Liveried(w, w.heads.Keys, t, segOf)
    requires Retirement(t.recs, recs, firsts0, firsts, w.c, t.seen, {}) && NamesKept(t.names, names, w.c)
    requires SPINE in t.seen && OneToOne(t.names) && Inverse(t.names, firsts0)
    requires forall g :: g in names ==> names[g] in recs
    requires forall id :: id in t.recs && !t.recs[id].live && id != SPINE ==> t.recs[id].holders == []
    ensures Ran(w, a, t, firsts0, firsts, recs, names, segOf)
  {
    hide Boarded, Liveried, Retirement, NamesKept, OneToOne, Inverse;
  }

  ghost predicate Inverse(names: Ids, firsts: Firsts) {
    && (forall g :: g in names ==> names[g] in firsts && firsts[names[g]] == g)
    && (forall k :: k in firsts ==> firsts[k] in names && names[firsts[k]] == k)
  }

  /** What a recomputation does to the segments, the colours and the log. */
  ghost predicate Reckoned(w: Scene, p: Past, off: Counts, recs: Recs, names: Ids, segOf: Ids, log0: seq<Reorg>,
                           log: seq<Reorg>)
  {
    && SeatedRight(w, p, off, recs, names, segOf)
    && (forall f :: f in p.names ==> Fate(w, p, recs, names, f))
    && |log| == |log0| && forall i :: 0 <= i < |log| ==> Relabelled(w.c, p, names, log0[i], log[i])
  }

  lemma ReckonedAtLast(w: Scene, p: Past, a: Table, t: Table, firsts0: Firsts, firsts: Firsts, recs: Recs, names: Ids,
                       segOf1: Ids, segOf: Ids, log0: seq<Reorg>, log1: seq<Reorg>, log: seq<Reorg>)
    requires Ran(w, a, t, firsts0, firsts, recs, names, segOf) && Respined(p, a)
    requires p.left != [] ==> p.Last() !in w.c
    requires if p.left == [] then log1 == log0
             else AbandonedBy(w.s, w.heads, a.recs, segOf1, a.names, log1, w.slotOf, p.left, p.was, p.segOf, log0)
    requires log == Absorbed(log1, t.recs.Keys - recs.Keys)
    ensures Reckoned(w, p, t.off, recs, names, segOf, log0, log)
  {
    hide Ran, Respined, AsideIs, SeatedRight, Fate, Relabelled, AbandonedBy, Redirected, Absorbed;
    AbandonedAside(w, p, a, segOf1, log0, log1);
    SeatedAtLast(w, p, a, t, segOf, firsts0, firsts, recs, names);
    forall f | f in p.names
      ensures Fate(w, p, recs, names, f)
    {
      FateAtLast(w, p, a, t, firsts0, firsts, recs, names, segOf, f);
    }
    LogAtLast(w, p, a, t, firsts0, firsts, recs, names, segOf1, segOf, log0, log1, log);
  }

  lemma AbandonedAside(w: Scene, p: Past, a: Table, segOf1: Ids, log0: seq<Reorg>, log1: seq<Reorg>)
    requires p.left != [] ==>
               AbandonedBy(w.s, w.heads, a.recs, segOf1, a.names, log1, w.slotOf, p.left, p.was, p.segOf, log0)
    ensures AsideIs(w, p, a)
    ensures p.left != [] ==>
              p.Last() in a.names
              && log1 == Redirected(log0, p.segOf + (map h | h in p.left :: a.names[p.Last()]), a.names[p.Last()])
  {
    hide Lost, LostBy, Redirected;
  }

  lemma LogAtLast(w: Scene, p: Past, a: Table, t: Table, firsts0: Firsts, firsts: Firsts, recs: Recs, names: Ids,
                  segOf1: Ids, segOf: Ids, log0: seq<Reorg>, log1: seq<Reorg>, log: seq<Reorg>)
    requires Ran(w, a, t, firsts0, firsts, recs, names, segOf) && Respined(p, a)
    requires p.left != [] ==> p.Last() !in w.c
    requires if p.left == [] then log1 == log0
             else AbandonedBy(w.s, w.heads, a.recs, segOf1, a.names, log1, w.slotOf, p.left, p.was, p.segOf, log0)
    requires log == Absorbed(log1, t.recs.Keys - recs.Keys)
    ensures |log| == |log0| && forall i :: 0 <= i < |log| ==> Relabelled(w.c, p, names, log0[i], log[i])
  {
    var gone := t.recs.Keys - recs.Keys;
    forall k
      ensures k in gone <==> Adopted(w.c, p.names, k)
    {
      GoneAreAdopted(w, p, a, t, firsts0, firsts, recs, names, segOf, k);
    }
    AbandonedAside(w, p, a, segOf1, log0, log1);
    SuffixStays(w, p, a, t, firsts0, firsts, recs, names, segOf);
    var id := if p.left == [] then SPINE else a.names[p.Last()];
    hide Ran, Respined, AsideIs, AbandonedBy, Adopted, Redirected, Absorbed;
    RelabelledAtLast(w.c, p, names, id, gone, log0, log1, log);
  }

  /** The segment of the abandoned suffix is not adopted, nor is s0. */
  lemma SuffixStays(w: Scene, p: Past, a: Table, t: Table, firsts0: Firsts, firsts: Firsts, recs: Recs, names: Ids,
                    segOf: Ids)
    requires Ran(w, a, t, firsts0, firsts, recs, names, segOf) && AsideIs(w, p, a)
    requires p.left != [] ==> p.Last() !in w.c
    ensures SPINE !in t.recs.Keys - recs.Keys
    ensures p.left != [] ==>
              p.Last() in a.names && p.Last() in names && names[p.Last()] == a.names[p.Last()]
              && a.names[p.Last()] !in t.recs.Keys - recs.Keys
  {
    hide OnBranch, Entitled, NamesEarned, Manned, Descended, SetAside, Liveried, Inverse;
  }

  // ---- What that means for a node ----

  /** While a branch that had a name and a live segment lasts, every node on it holds that segment, in its colour. */
  lemma NamedBranchIsHeld(w: Scene, p: Past, off: Counts, recs: Recs, names: Ids, segOf: Ids, n: Node, f: Hash)
    requires SeatedRight(w, p, off, recs, names, segOf) && n in w.heads && OnBranch(w, n, f)
    requires f in p.names && p.names[f] in p.recs && p.recs[p.names[f]].live && !p.Left(f)
    ensures Holds(recs, names, n, f) && Wears(w, segOf, w.heads[n], names[f])
  {
    hide OnBranch, Wears;
  }

  /** A node on a named branch is left out only if that was lost and no head up to its own is above the lost tip. */
  lemma OnlyParkedAreLeftOut(w: Scene, p: Past, off: Counts, recs: Recs, names: Ids, segOf: Ids, n: Node, f: Hash)
    requires SeatedRight(w, p, off, recs, names, segOf) && n in w.heads && OnBranch(w, n, f)
    requires f in NamedBefore(p) && !Holds(recs, names, n, f)
    ensures LostWith(p, f).Some?
    ensures forall m :: m in w.heads && m <= n && OnBranch(w, m, f) ==>
              HeadNumber(w, m) <= Number(w.s, LostWith(p, f).value)
  {
    hide OnBranch, Wears, HeadNumber, LostWith;
  }

  /**
   A name earned in this very tick comes too late for the nodes before the one that earned it: here nodes 2
   and 3 are two blocks off the canonical chain, 2 for the first tick and 3 for the second.
   */
  lemma EarlierNodesWait()
    ensures
      var s := map[1 := Block(1, NONE, 0, 5, 0), 2 := Block(2, 1, 0, 6, 0), 3 := Block(3, 2, 0, 7, 0)];
      var w := Scene(s, map[2 := 3, 3 := 3], {1}, (t: nat) => t);
      var off: Counts := map[2 := 1, 3 := 2];
      && OnBranch(w, 2, 2) && OnBranch(w, 3, 2)
      && NamedFor(w, off, {}, w.heads.Keys, 3, 2) && !NamedFor(w, off, {}, w.heads.Keys, 2, 2)
  {
    var s := map[1 := Block(1, NONE, 0, 5, 0), 2 := Block(2, 1, 0, 6, 0), 3 := Block(3, 2, 0, 7, 0)];
    assert Linked(s);
    assert Branch(s, 1, {1}) == [];
    assert Branch(s, 2, {1}) == [2];
    assert Branch(s, 3, {1}) == [3, 2];
  }
}
