/**
 One direction's stall bookkeeping (internal/migmon/timeline.go:37-46, 162-203), against the whole history of
 polls.
 */
module Stall {
  import opened Options

  const STALL_POLLS := 20
  const STALL_HEAD_DELTA := 10

  datatype Phase = Idle | Parked | Stalled | Moving

  /** One direction as a client reports it; failed is a non-empty error text. */
  datatype Direction = Direction(phase: Phase, cursor: nat, failed: bool)

  /** What one poll saw: the direction, if reported, and the head. */
  datatype Poll = Poll(dir: Option<Direction>, head: nat) {
    predicate Bad() {
      dir.Some? && (dir.value.phase == Stalled || dir.value.failed)
    }
    /** Neither idle, parked nor absent: its cursor is expected to move. */
    predicate Live() {
      dir.Some? && dir.value.phase != Idle && dir.value.phase != Parked
    }
  }

  datatype Finding = Immediate | Slow(cursor: nat, polls: nat, gained: int)

  /** Poll i is live with the same cursor as the poll before it. */
  predicate Holds(h: seq<Poll>, i: nat)
    requires i < |h|
  {
    i > 0 && h[i].Live() && h[i - 1].Live() && h[i - 1].dir.value.cursor == h[i].dir.value.cursor
  }

  /** How many polls up to poll i were live with one cursor. */
  function Run(h: seq<Poll>, i: nat): (n: nat)
    requires i < |h|
    ensures n <= i + 1 && (n > 0 <==> h[i].Live())
  {
    if !h[i].Live() then 0 else if Holds(h, i) then Run(h, i - 1) + 1 else 1
  }

  /** The run is what it says: live polls with one cursor, and not one more. */
  lemma {:induction false} RunMeans(h: seq<Poll>, i: nat)
    requires i < |h| && h[i].Live()
    ensures forall k :: i - Run(h, i) < k <= i ==> h[k].Live() && h[k].dir.value.cursor == h[i].dir.value.cursor
    ensures Run(h, i) <= i ==> !Holds(h, i + 1 - Run(h, i))
  {
    if Holds(h, i) {
      RunMeans(h, i - 1);
    }
  }

  /** The head at the first poll of the run that poll i is in. */
  function RunHead(h: seq<Poll>, i: nat): nat
    requires i < |h| && h[i].Live()
  {
    h[i + 1 - Run(h, i)].head
  }

  /** Poll i finds the cursor held long enough while the head moved. */
  predicate Due(h: seq<Poll>, i: nat) {
    i < |h| && h[i].Live() && Run(h, i) >= STALL_POLLS && h[i].head >= RunHead(h, i) + STALL_HEAD_DELTA
  }

  /** Some poll of the run up to poll i was due. */
  ghost predicate DueInRun(h: seq<Poll>, i: nat)
    requires i < |h|
  {
    exists k: nat :: i - Run(h, i) < k <= i && Due(h, k)
  }

  /** Poll i is the first due one of its run. */
  ghost predicate SlowFires(h: seq<Poll>, i: nat)
    requires i < |h|
  {
    Due(h, i) && forall k: nat :: i - Run(h, i) < k < i ==> !Due(h, k)
  }

  /** Poll i is bad and the one before it was not. */
  predicate ImmediateFires(h: seq<Poll>, i: nat)
    requires i < |h|
  {
    h[i].Bad() && !(i > 0 && h[i - 1].Bad())
  }

  /** Within a run each poll's run is the part up to it. */
  lemma {:induction false} RunWithin(h: seq<Poll>, i: nat, k: nat)
    requires k <= i < |h| && i - Run(h, i) < k
    ensures h[k].Live() && Run(h, k) == Run(h, i) - (i - k) && RunHead(h, k) == RunHead(h, i)
  {
    if k < i {
      RunWithin(h, i - 1, k);
    }
  }

  /** The direction is at work, at this cursor. */
  ghost predicate WorksAt(p: Poll, cursor: nat) {
    p.dir.Some? && p.dir.value.phase in {Stalled, Moving} && p.dir.value.cursor == cursor
  }

  /** The direction worked at one cursor from poll k to poll i, and not at the poll before. */
  ghost predicate HeldFrom(h: seq<Poll>, k: nat, i: nat) {
    && k <= i < |h| && h[i].dir.Some?
    && (forall j :: k <= j <= i ==> WorksAt(h[j], h[i].dir.value.cursor))
    && (k > 0 ==> !WorksAt(h[k - 1], h[i].dir.value.cursor))
  }

  lemma HeldFromStart(h: seq<Poll>, i: nat)
    requires i < |h| && h[i].Live()
    ensures HeldFrom(h, i + 1 - Run(h, i), i)
  {
    RunMeans(h, i);
    hide Run;
  }

  /** A poll is due exactly when the cursor has held for twenty polls or more and the head gained ten in them. */
  lemma DueMeans(h: seq<Poll>, i: nat)
    ensures Due(h, i)
            <==> exists k: nat :: HeldFrom(h, k, i) && i + 1 >= k + 20 && h[i].head >= h[k].head + 10
  {
    if i < |h| && h[i].Live() {
      HeldFromStart(h, i);
      var k := i + 1 - Run(h, i);
      assert forall j: nat :: HeldFrom(h, j, i) ==> !(j < k) && !(j > k);
    }
    hide Run;
  }

  /** A run's slow stall is found at most once: between two of them a new run began. */
  lemma OncePerRun(h: seq<Poll>, i: nat, j: nat)
    requires i < j < |h| && SlowFires(h, i) && SlowFires(h, j)
    ensures Run(h, j) <= j - i
  {
  }

  /** And it is found once if any poll of the run is due, at the first that is. */
  lemma {:induction false} FoundIfDue(h: seq<Poll>, i: nat, k: nat) returns (j: nat)
    requires i < |h| && i - Run(h, i) < k <= i && Due(h, k)
    ensures i - Run(h, i) < j <= k && SlowFires(h, j)
    decreases k
  {
    RunWithin(h, i, k);
    if m: nat :| k - Run(h, k) < m < k && Due(h, m) {
      j := FoundIfDue(h, i, m);
    } else {
      j := k;
    }
  }

  /** A later poll changes nothing about the earlier ones. */
  lemma {:induction false} RunStays(h: seq<Poll>, p: Poll, i: nat)
    requires i < |h|
    ensures Run(h + [p], i) == Run(h, i) && (Due(h + [p], i) <==> Due(h, i))
  {
    assert forall k :: 0 <= k < |h| ==> (h + [p])[k] == h[k];
    if Holds(h, i) {
      RunStays(h, p, i - 1);
    }
  }

  /** What one more poll does to the run and to what was due in it. */
  lemma RunNext(h: seq<Poll>, p: Poll)
    ensures
      var g, n := h + [p], |h|;
      && (p.Live() && n > 0 && h[n - 1].Live() && h[n - 1].dir.value.cursor == p.dir.value.cursor ==>
            && Run(g, n) == Run(h, n - 1) + 1 && RunHead(g, n) == RunHead(h, n - 1)
            && (DueInRun(g, n) <==> Due(g, n) || DueInRun(h, n - 1))
            && (SlowFires(g, n) <==> Due(g, n) && !DueInRun(h, n - 1)))
      && (p.Live() && !(n > 0 && h[n - 1].Live() && h[n - 1].dir.value.cursor == p.dir.value.cursor) ==>
            Run(g, n) == 1 && RunHead(g, n) == p.head && !DueInRun(g, n) && !SlowFires(g, n))
      && (!p.Live() ==> Run(g, n) == 0 && !SlowFires(g, n))
  {
    var g, n := h + [p], |h|;
    assert forall k :: 0 <= k < |h| ==> g[k] == h[k];
    if Holds(g, n) {
      RunStays(h, p, n - 1);
      DueNext(h, p);
    }
  }

  lemma DueNext(h: seq<Poll>, p: Poll)
    requires h != [] && Holds(h + [p], |h|)
    ensures
      var g, n := h + [p], |h|;
      && (DueInRun(g, n) <==> Due(g, n) || DueInRun(h, n - 1))
      && (SlowFires(g, n) <==> Due(g, n) && !DueInRun(h, n - 1))
  {
    var g, n := h + [p], |h|;
    RunStays(h, p, n - 1);
    forall k: nat | k < n
      ensures Due(g, k) <==> Due(h, k)
    {
      RunStays(h, p, k);
    }
    assert Run(g, n) == Run(h, n - 1) + 1;
    hide Due, Run;
    if DueInRun(h, n - 1) {
      var k: nat :| n - 1 - Run(h, n - 1) < k <= n - 1 && Due(h, k);
      assert Due(g, k);
    }
  }

  ghost predicate Summary(h: seq<Poll>, cursor: nat, frozen: nat, spanHead: nat, slowFired: bool) {
    && h != [] && h[|h| - 1].Live()
    && cursor == h[|h| - 1].dir.value.cursor
    && frozen == Run(h, |h| - 1) && spanHead == RunHead(h, |h| - 1)
    && (slowFired <==> DueInRun(h, |h| - 1))
  }

  class DirState {
    var immediateFired: bool
    var spanning: bool
    var cursor: nat
    var frozen: nat
    var spanHead: nat
    var slowFired: bool
    ghost var history: seq<Poll>

    /** The fields are an exact summary of the polls since the last reset. */
    ghost predicate Valid()
      reads this
    {
      && (immediateFired <==> history != [] && history[|history| - 1].Bad())
      && (spanning <==> history != [] && history[|history| - 1].Live())
      && (spanning ==> Summary(history, cursor, frozen, spanHead, slowFired))
    }

    constructor ()
      ensures Valid() && history == []
    {
      immediateFired, spanning, cursor, frozen, spanHead, slowFired := false, false, 0, 0, 0, false;
      history := [];
    }

    method Reset()
      modifies this
      ensures Valid() && history == []
    {
      immediateFired, spanning, cursor, frozen, spanHead, slowFired := false, false, 0, 0, 0, false;
      history := [];
    }

    /** Latched until the condition clears, so that a persisting stall is one finding. */
    method LatchBad(d: Option<Direction>) returns (evs: seq<Finding>)
      modifies `immediateFired
      ensures immediateFired == Poll(d, 0).Bad()
      ensures evs == if Poll(d, 0).Bad() && !old(immediateFired) then [Immediate] else []
    {
      evs := [];
      if d.Some? && (d.value.phase == Stalled || d.value.failed) {
        if !immediateFired {
          immediateFired := true;
          evs := evs + [Immediate];
        }
      } else {
        immediateFired := false;
      }
    }

    method Observe(d: Option<Direction>, head: nat) returns (evs: seq<Finding>)
      requires Valid()
      modifies this
      ensures Valid() && history == old(history) + [Poll(d, head)]
      ensures evs == FindingsAt(history)
    {
      hide Run, RunHead, Due, DueInRun, SlowFires, Holds;
      var p := Poll(d, head);
      RunNext(history, p);
      history := history + [p];
      evs := LatchBad(d);
      if d.None? || d.value.phase == Idle || d.value.phase == Parked {
        spanning := false;
        return;
      }
      var cur := d.value.cursor;
      if !spanning || cur != cursor {
        spanning, cursor, frozen, spanHead, slowFired := true, cur, 1, head, false;
        return;
      }
      frozen := frozen + 1;
      DueHere(history, |history| - 1);
      if !slowFired && frozen >= STALL_POLLS && head >= spanHead + STALL_HEAD_DELTA {
        slowFired := true;
        evs := evs + [Slow(cur, frozen, head - spanHead)];
      }
    }
  }

  lemma DueHere(h: seq<Poll>, i: nat)
    requires i < |h| && h[i].Live()
    ensures Due(h, i) <==> Run(h, i) >= STALL_POLLS && h[i].head >= RunHead(h, i) + STALL_HEAD_DELTA
  {
  }

  /** The findings of the last poll of a history. */
  ghost function FindingsAt(h: seq<Poll>): seq<Finding>
    requires h != []
  {
    var i := |h| - 1;
    (if ImmediateFires(h, i) then [Immediate] else [])
    + (if SlowFires(h, i) then [Slow(h[i].dir.value.cursor, Run(h, i), h[i].head - RunHead(h, i))] else [])
  }
}
