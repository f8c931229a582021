/** One node's migration state machine across polls (internal/migmon/timeline.go:17-153). */
module Timeline {
  import opened Options
  import opened Stall
  import opened IStar

  const BOUNDARY_POLLS := 2
  const BOUNDARY_BLOCKS := 3

  datatype Stage = Inactive | Active | Done

  datatype Progress = Progress(stage: Stage, binary: Option<Direction>, merkle: Option<Direction>)

  /** The events about the fork block. */
  datatype ForkEv = Marked(number: nat, hash: nat) | Reorged(number: nat, now: nat) | Final(number: nat, hash: nat)

  datatype PollEv =
    | NotArmed
    | OfBinary(finding: Finding)
    | OfMerkle(finding: Finding)
    | BoundaryExpired(number: nat, polls: nat, blocks: int)
    | DoneEarly

  // ---- The fork-block events ----

  /** A record is marked, then reorged away, then marked again; a final one comes last. */
  ghost predicate Alternates(log: seq<ForkEv>) {
    && (forall k :: 0 <= k < |log| ==> (log[k].Marked? <==> k % 2 == 0))
    && (forall k :: 0 <= k < |log| && !log[k].Marked? ==> k > 0 && log[k].number == log[k - 1].number)
    && (forall k :: 0 <= k < |log| && log[k].Final? ==> k == |log| - 1 && log[k].hash == log[k - 1].hash)
  }

  /** The record held is the last one marked, unless a reorg dropped it. */
  ghost predicate Held(log: seq<ForkEv>, istar: Option<Record>, final: bool) {
    && Alternates(log)
    && (final <==> log != [] && log[|log| - 1].Final?)
    && (istar.Some? <==> log != [] && !log[|log| - 1].Reorged?)
    && (istar.Some? ==> log[|log| - 1].number == istar.value.number && log[|log| - 1].hash == istar.value.hash)
  }

  /** Between two records there is a reorg, and after a final one nothing. */
  lemma RecordsAreSeparated(log: seq<ForkEv>, i: nat, j: nat)
    requires Alternates(log) && i < j < |log| && log[i].Marked? && log[j].Marked?
    ensures log[i + 1].Reorged? && log[i + 1].number == log[i].number && forall k :: 0 <= k < j ==> !log[k].Final?
  {
    assert !log[i + 1].Marked?;
  }

  // ---- The boundary window ----

  /** A poll since the record: whether the binary direction had parked, and the head. */
  datatype Since = Since(parked: bool, head: nat)

  datatype Verdict = Open | ParkedInTime | Expired

  predicate Late(number: nat, since: seq<Since>, k: nat)
    requires k < |since|
  {
    k + 1 > BOUNDARY_POLLS && since[k].head > number + BOUNDARY_BLOCKS
  }

  function Judged(number: nat, since: seq<Since>): Verdict {
    if since == [] then Open
    else
      var before := Judged(number, since[..|since| - 1]);
      if before != Open then before
      else if since[|since| - 1].parked then ParkedInTime
      else if Late(number, since, |since| - 1) then Expired
      else Open
  }

  /** Nothing up to poll k decided it. */
  ghost predicate Undecided(number: nat, since: seq<Since>, k: nat)
    requires k <= |since|
  {
    forall j :: 0 <= j < k ==> !since[j].parked && !Late(number, since, j)
  }

  /**
   The window expires exactly when the first deciding poll is late, in polls and in blocks, and finds it not
   parked.
   */
  lemma {:induction false} JudgedMeans(number: nat, since: seq<Since>)
    ensures Judged(number, since) == Expired
            <==> exists k: nat ::
                   k < |since| && Undecided(number, since, k) && !since[k].parked
                   && k >= 2 && since[k].head > number + 3
    ensures Judged(number, since) == ParkedInTime
            <==> exists k: nat :: k < |since| && Undecided(number, since, k) && since[k].parked
    ensures Judged(number, since) == Open <==> Undecided(number, since, |since|)
  {
    if since != [] {
      var rest, n := since[..|since| - 1], |since| - 1;
      JudgedMeans(number, rest);
      assert forall k: nat :: k < n ==> (Late(number, rest, k) <==> Late(number, since, k));
      assert forall k: nat :: k <= n ==> (Undecided(number, rest, k) <==> Undecided(number, since, k));
      if k: nat :| k < |rest| && Undecided(number, rest, k) && !rest[k].parked && Late(number, rest, k) {
        assert Undecided(number, since, k) && !since[k].parked && Late(number, since, k);
      }
      if k: nat :| k < |rest| && Undecided(number, rest, k) && rest[k].parked {
        assert Undecided(number, since, k) && since[k].parked;
      }
    }
  }

  class Timeline {
    var polls: nat
    var istar: Option<Record>
    var istarFinal: bool
    var istarPolls: nat
    var boundaryOk: bool
    var boundaryHit: bool
    var doneEarly: bool
    const binary: DirState
    const merkle: DirState
    ghost var log: seq<ForkEv>
    ghost var since: seq<Since>

    ghost predicate Valid()
      reads this, binary, merkle
    {
      && binary != merkle && binary.Valid() && merkle.Valid()
      && Held(log, istar, istarFinal)
      && Window()
    }

    /** The boundary fields sum up the polls since the record. */
    ghost predicate Window()
      reads this
    {
      && (istar.None? ==> since == [] && !boundaryOk && !boundaryHit)
      && (istar.Some? ==>
            && (boundaryOk <==> Judged(istar.value.number, since) == ParkedInTime)
            && (boundaryHit <==> Judged(istar.value.number, since) == Expired)
            && (!boundaryOk && !boundaryHit ==> istarPolls == |since|))
    }

    constructor ()
      ensures Valid() && fresh(binary) && fresh(merkle)
      ensures log == [] && istar.None? && !istarFinal && !doneEarly && polls == 0
    {
      polls, istar, istarFinal, istarPolls := 0, None, false, 0;
      boundaryOk, boundaryHit, doneEarly := false, false, false;
      binary := new DirState();
      merkle := new DirState();
      log, since := [], [];
    }

    /** An offline import rewinds cursors: only the stall bookkeeping starts over. */
    method ResetStall()
      requires Valid()
      modifies binary, merkle
      ensures Valid() && binary.history == [] && merkle.history == []
    {
      hide Held, Judged, Summary;
      binary.Reset();
      merkle.Reset();
    }

    /** A record already held is kept. */
    method ObserveIStar(b: Record) returns (evs: seq<ForkEv>)
      requires Valid()
      modifies this
      ensures Valid() && log == old(log) + evs
      ensures if old(istar).Some? then evs == [] && istar == old(istar)
              else evs == [Marked(b.number, b.hash)] && istar == Some(b)
      ensures istarFinal == old(istarFinal)
    {
      hide Summary;
      if istar.Some? {
        return [];
      }
      istar := Some(b);
      istarPolls := 0;
      evs := [Marked(b.number, b.hash)];
      HeldNext(log, None, false, evs[0]);
      log := log + evs;
    }

    /** Drops a record a reorg orphaned; a final one stays. */
    method IStarReorged(nowCanonical: nat) returns (evs: seq<ForkEv>)
      requires Valid()
      modifies this
      ensures Valid() && log == old(log) + evs && istarFinal == old(istarFinal)
      ensures if old(istar).None? || old(istarFinal) then evs == [] && istar == old(istar)
              else evs == [Reorged(old(istar).value.number, nowCanonical)] && istar == None
    {
      hide Summary;
      if istar.None? || istarFinal {
        return [];
      }
      evs := [Reorged(istar.value.number, nowCanonical)];
      HeldNext(log, istar, false, evs[0]);
      istar := None;
      istarPolls := 0;
      boundaryOk, boundaryHit := false, false;
      since := [];
      log := log + evs;
    }

    method IStarFinalized() returns (evs: seq<ForkEv>)
      requires Valid()
      modifies this
      ensures Valid() && log == old(log) + evs && istar == old(istar)
      ensures if old(istar).None? || old(istarFinal) then evs == [] && istarFinal == old(istarFinal)
              else evs == [Final(istar.value.number, istar.value.hash)] && istarFinal
    {
      hide Summary;
      if istar.None? || istarFinal {
        return [];
      }
      evs := [Final(istar.value.number, istar.value.hash)];
      HeldNext(log, istar, false, evs[0]);
      istarFinal := true;
      log := log + evs;
    }

    /** One poll's progress and head. */
    method ObservePoll(p: Progress, head: nat) returns (evs: seq<PollEv>)
      requires Valid()
      modifies this, binary, merkle
      ensures Valid() && log == old(log) && istar == old(istar) && istarFinal == old(istarFinal)
      ensures polls == old(polls) + 1 && doneEarly == (old(doneEarly) || DoneTooSoon(p, head, istar))
      ensures !old(doneEarly) ==>
                (doneEarly <==> p.stage == Done && (istar.None? || head <= istar.value.number))
      ensures binary.history == old(binary.history) + [Poll(p.binary, head)]
      ensures merkle.history == old(merkle.history) + [Poll(p.merkle, head)]
      ensures since == if istar.Some? then old(since) + [Since(Parks(p), head)] else []
      ensures evs == (if old(polls) == 0 && p.stage == Inactive then [NotArmed] else [])
                     + Of(FindingsAt(binary.history), true) + Of(FindingsAt(merkle.history), false)
                     + ExpiredNow(istar, old(since), since)
                     + (if DoneTooSoon(p, head, istar) && !old(doneEarly) then [DoneEarly] else [])
    {
      hide Summary, Held, FindingsAt, ImmediateFires, Due, DueInRun, Judged;
      evs := if polls == 0 && p.stage == Inactive then [NotArmed] else [];
      polls := polls + 1;
      var b := binary.Observe(p.binary, head);
      var m := merkle.Observe(p.merkle, head);
      evs := evs + Of(b, true) + Of(m, false);
      var late := AfterRecord(p, head);
      evs := evs + late;
      var early := CheckDone(p, head);
      evs := evs + early;
    }

    /** After the record the binary direction must park in time. */
    method AfterRecord(p: Progress, head: nat) returns (evs: seq<PollEv>)
      requires Window()
      modifies `istarPolls, `boundaryOk, `boundaryHit, `since
      ensures Window()
      ensures since == if istar.Some? then old(since) + [Since(Parks(p), head)] else []
      ensures evs == ExpiredNow(istar, old(since), since)
    {
      evs := [];
      if istar.Some? {
        JudgedNext(istar.value.number, since, Since(Parks(p), head));
        since := since + [Since(Parks(p), head)];
        hide Judged;
        if !boundaryOk && !boundaryHit {
          istarPolls := istarPolls + 1;
          if p.binary.Some? && p.binary.value.phase == Parked {
            boundaryOk := true;
          } else if istarPolls > BOUNDARY_POLLS && head > istar.value.number + BOUNDARY_BLOCKS {
            boundaryHit := true;
            evs := [BoundaryExpired(istar.value.number, istarPolls, head - istar.value.number)];
          }
        }
      }
    }

    /** Done is only legal strictly after the fork block; found once. */
    method CheckDone(p: Progress, head: nat) returns (evs: seq<PollEv>)
      modifies `doneEarly
      ensures doneEarly == (old(doneEarly) || DoneTooSoon(p, head, istar))
      ensures evs == if DoneTooSoon(p, head, istar) && !old(doneEarly) then [DoneEarly] else []
    {
      evs := [];
      if p.stage == Done && !doneEarly && (istar.None? || head <= istar.value.number) {
        doneEarly := true;
        evs := [DoneEarly];
      }
    }
  }

  predicate Parks(p: Progress) {
    p.binary.Some? && p.binary.value.phase == Parked
  }

  predicate DoneTooSoon(p: Progress, head: nat, istar: Option<Record>) {
    p.stage == Done && (istar.None? || head <= istar.value.number)
  }

  function Of(findings: seq<Finding>, ofBinary: bool): (r: seq<PollEv>)
    ensures |r| == |findings|
    ensures forall i :: 0 <= i < |r| ==>
              (if ofBinary then r[i].OfBinary? else r[i].OfMerkle?) && r[i].finding == findings[i]
  {
    seq(|findings|, i requires 0 <= i < |findings| => if ofBinary then OfBinary(findings[i]) else OfMerkle(findings[i]))
  }

  /** The finding of the poll that makes the window expire. */
  function ExpiredNow(istar: Option<Record>, before: seq<Since>, since: seq<Since>): seq<PollEv> {
    if
      && istar.Some? && since != [] && Judged(istar.value.number, before) == Open
      && Judged(istar.value.number, since) == Expired
    then [BoundaryExpired(istar.value.number, |since|, since[|since| - 1].head - istar.value.number)]
    else []
  }

  lemma JudgedNext(number: nat, since: seq<Since>, s: Since)
    ensures Judged(number, since + [s])
            == if Judged(number, since) != Open then Judged(number, since)
               else if s.parked then ParkedInTime
               else if |since| + 1 > BOUNDARY_POLLS && s.head > number + BOUNDARY_BLOCKS then Expired
               else Open
  {
    assert (since + [s])[..|since|] == since;
  }

  /** The next fork-block event, as the state allows it. */
  lemma HeldNext(log: seq<ForkEv>, istar: Option<Record>, final: bool, e: ForkEv)
    requires Held(log, istar, final) && !final
    requires match e
             case Marked(_, _) => istar.None?
             case Reorged(n, _) => istar.Some? && n == istar.value.number
             case Final(n, h) => istar.Some? && n == istar.value.number && h == istar.value.hash
    ensures Alternates(log + [e])
    ensures forall b: Record :: e == Marked(b.number, b.hash) ==> Held(log + [e], Some(b), false)
    ensures e.Reorged? ==> Held(log + [e], None, false)
    ensures e.Final? ==> Held(log + [e], istar, true)
  {
    if log != [] {
      assert log[|log| - 1].Marked? <==> (|log| - 1) % 2 == 0;
    }
  }
}
