/**
 The driver and the judge agree: whatever the driver cut, the judge reads back from its log, one
 window per victim per accepted Partition, each attributed to the op that made it.
 */
module RoundTrip {
  import opened Options
  import opened Schedule
  import opened Actions
  import opened Records
  import opened Readings
  import opened OwnHeals
  import opened Shipped
  import opened Dump
  import opened Driver
  import opened Judge

  /** Admitted ops are further apart than attribution's slop. */
  ghost predicate Spaced(s: Schedule) {
    forall i, j :: 0 <= i < j < |s.ops| && s.ops[i].Admitted() && s.ops[j].Admitted() ==>
      s.ops[i].end + SLOP < s.ops[j].start
  }

  // ---- From a serial, spaced schedule ----

  /** The ops accepted, read off the events. */
  lemma {:induction false} CutAmong(trace: seq<Ev>, i: nat)
    requires i < |trace| && Accepted(trace[i])
    ensures trace[i].op in Mon(trace).cuts
  {
    var rest, e := trace[..|trace| - 1], trace[|trace| - 1];
    MonLast(trace);
    CutsGrow(Mon(rest), e);
    hide Mon, WatchStep;
    if i < |rest| {
      CutAmong(rest, i);
    }
  }

  lemma CutsGrow(m: Watch, e: Ev)
    ensures WatchStep(m, e).cuts == if Accepted(e) then m.cuts + [e.op] else m.cuts
  {
  }

  lemma {:induction false} CutsInOrder(trace: seq<Ev>, i: nat, j: nat)
    requires i < j < |trace| && Accepted(trace[i]) && Accepted(trace[j])
    requires forall c, d :: 0 <= c < d < |Mon(trace).cuts| ==> Mon(trace).cuts[c].name != Mon(trace).cuts[d].name
    ensures trace[i].op.name != trace[j].op.name
  {
    var rest, e := trace[..|trace| - 1], trace[|trace| - 1];
    var cuts := Mon(rest).cuts;
    MonLast(trace);
    CutsGrow(Mon(rest), e);
    hide Mon, WatchStep;
    assert forall c :: 0 <= c < |cuts| ==> Mon(trace).cuts[c] == cuts[c];
    if j < |rest| {
      CutsInOrder(rest, i, j);
    } else {
      CutAmong(rest, i);
      var c :| 0 <= c < |cuts| && cuts[c] == rest[i].op;
      assert Mon(trace).cuts[c].name != Mon(trace).cuts[|cuts|].name;
    }
  }

  /** An accepted Partition was answered inside its op's window, give or take the slop. */
  lemma AnsweredInWindow(s: Schedule, trace: seq<Ev>, i: nat) returns (k: nat)
    requires Safe(trace) && OnceEach(s, Mon(trace).cuts) && i < |trace| && Accepted(trace[i])
    ensures k < |s.ops| && s.ops[k] == trace[i].op && s.ops[k].Admitted()
    ensures s.ops[k].start <= trace[i].at < s.ops[k].end + SLOP
  {
    hide Safe, Mon;
    CutAmong(trace, i);
    RequestsOweNothing(trace, i);
    k :| 0 <= k < |s.ops| && s.ops[k] == trace[i].op;
  }

  lemma SpacedFromsDiffer(s: Schedule, trace: seq<Ev>)
    requires Safe(trace) && OnceEach(s, Mon(trace).cuts) && Spaced(s)
    ensures FromsDiffer(trace)
  {
    hide Safe, Mon;
    forall i, j | 0 <= i < j < |trace| && Accepted(trace[i]) && Accepted(trace[j])
      ensures trace[i].at != trace[j].at
    {
      var a := AnsweredInWindow(s, trace, i);
      var b := AnsweredInWindow(s, trace, j);
      CutsInOrder(trace, i, j);
      assert a != b;
      if a < b {
        assert s.ops[a].end + SLOP < s.ops[b].start;
      } else {
        assert s.ops[b].end + SLOP < s.ops[a].start;
      }
    }
  }

  // ---- Attribution finds the op that cut ----

  lemma {:induction false} OwnerIs(ops: seq<DumpOp>, k: nat, w: Isolation)
    requires k < |ops| && !ops[k].refused && OpOwns(ops[k], w)
    requires forall j :: 0 <= j < k && !ops[j].refused ==> !OpOwns(ops[j], w)
    ensures Owner(Admitted(ops), w) == Some(ops[k])
  {
    hide Owner, OpOwns;
    var rest, last := ops[..|ops| - 1], ops[|ops| - 1];
    OwnerOfMore(Admitted(rest), last, w);
    if k < |rest| {
      OwnerIs(rest, k, w);
      assert last.refused ==> Admitted(ops) == Admitted(rest);
    } else {
      NoOwnerYet(rest, w);
    }
  }

  lemma NoOwnerYet(ops: seq<DumpOp>, w: Isolation)
    requires forall j :: 0 <= j < |ops| && !ops[j].refused ==> !OpOwns(ops[j], w)
    ensures Owner(Admitted(ops), w) == None
  {
    hide OpOwns, Admitted;
    assert forall o :: o in Admitted(ops) ==> !OpOwns(o, w);
  }

  lemma OwnerOfMore(ops: seq<DumpOp>, last: DumpOp, w: Isolation)
    ensures Owner(ops + [last], w) ==
            if Owner(ops, w).Some? then Owner(ops, w) else if OpOwns(last, w) then Some(last) else None
  {
    assert (ops + [last])[..|ops + [last]| - 1] == ops;
  }

  lemma CutsOwner(s: Schedule, fork: int, trace: seq<Ev>, i: nat, w: Isolation)
    requires Safe(trace) && OnceEach(s, Mon(trace).cuts) && Spaced(s)
    requires i < |trace| && Accepted(trace[i]) && w.node in trace[i].op.victims && w.from == trace[i].at
    ensures Owner(Admitted(NewDump(s, fork).ops), w) == Some(Publish(trace[i].op))
  {
    hide Safe, Mon, Owner, Admitted;
    var k := AnsweredInWindow(s, trace, i);
    var ops := NewDump(s, fork).ops;
    forall j | 0 <= j < k && !ops[j].refused
      ensures !OpOwns(ops[j], w)
    {
      assert s.ops[j].end + SLOP < s.ops[k].start;
    }
    OwnerIs(ops, k, w);
  }

  // ---- The round trip ----

  /** w is the window of victim w.node for the Partition accepted at i. */
  ghost predicate WindowOf(trace: seq<Ev>, i: nat, w: Isolation) {
    CutsNode(trace, i, w.node) && w.from == trace[i].at && w.to.Some?
  }

  /** A run of the schedule whose log tells every isolation right and sees the end of each. */
  ghost predicate CleanRun(s: Schedule, trace: seq<Ev>) {
    Safe(trace) && Mon(trace).owed == [] && OnceEach(s, Mon(trace).cuts) && AllToldRight(trace) && AllEnded(trace)
  }

  /** w is read as the window of a victim of the Partition accepted at i, and attributed to its op. */
  ghost predicate MadeAt(trace: seq<Ev>, ops: seq<DumpOp>, i: nat, w: Isolation) {
    WindowOf(trace, i, w) && Owner(Admitted(ops), w) == Some(Publish(trace[i].op))
  }

  /** A window of a clean run was made by one of its Partitions. */
  lemma WindowWasCut(s: Schedule, fork: int, trace: seq<Ev>, w: Isolation) returns (i: nat)
    requires CleanRun(s, trace) && Spaced(s) && w in Drove(trace).closed
    ensures Drove(trace).closed[w] == 1 && MadeAt(trace, NewDump(s, fork).ops, i, w)
    ensures exists c: nat :: WindowAt(trace, i, c, w)
  {
    hide Safe, Mon, Drove, Owner, Admitted, Spaced, OnceEach, AllToldRight, AllEnded;
    SpacedFromsDiffer(s, trace);
    DroveOnce(trace, w);
    DroveClosed(trace, w);
    var j: nat, c: nat :| WindowAt(trace, j, c, w);
    i := j;
    CutsOwner(s, fork, trace, i, w);
  }

  /** An isolation by a clean run is one of its windows. */
  lemma CutIsAWindow(s: Schedule, fork: int, trace: seq<Ev>, i: nat, v: int) returns (w: Isolation)
    requires CleanRun(s, trace) && Spaced(s) && CutsNode(trace, i, v)
    ensures w in Drove(trace).closed && w.node == v && MadeAt(trace, NewDump(s, fork).ops, i, w)
  {
    hide Safe, Mon, Drove, Owner, Admitted, Spaced, OnceEach, AllToldRight, EndAt;
    var c: nat :| EndAt(trace, i, c);
    w := Window(trace, i, c, v);
    CutsOwner(s, fork, trace, i, w);
  }

  lemma Window(trace: seq<Ev>, i: nat, c: nat, v: int) returns (w: Isolation)
    requires CutsNode(trace, i, v) && EndAt(trace, i, c)
    ensures w == Isolation(v, trace[i].at, Some(trace[c].at)) && w in Drove(trace).closed
  {
    hide Drove;
    w := Isolation(v, trace[i].at, Some(trace[c].at));
    DroveClosed(trace, w);
    assert WindowAt(trace, i, c, w);
  }

  /**
   Reading the lines of a clean run of a spaced schedule gives healed windows only, each counted once and
   attributed to the op that made it, and one for every victim of every accepted Partition.
   */
  lemma LogTellsTheCuts(s: Schedule, fork: int, trace: seq<Ev>)
    requires CleanRun(s, trace) && Spaced(s)
    ensures Pair(Told(trace)).open == map[]
    ensures forall w :: w in Pair(Told(trace)).closed ==>
              Pair(Told(trace)).closed[w] == 1 && exists i: nat :: MadeAt(trace, NewDump(s, fork).ops, i, w)
    ensures forall i: nat, v :: CutsNode(trace, i, v) ==>
              exists w :: w in Pair(Told(trace)).closed && w.node == v && MadeAt(trace, NewDump(s, fork).ops, i, w)
  {
    hide Safe, Mon, Pair, Drove, OnceEach, Spaced, MadeAt, CutsNode;
    ReadsTheSame(s, trace);
    forall w | w in Drove(trace).closed
      ensures Drove(trace).closed[w] == 1 && exists i: nat :: MadeAt(trace, NewDump(s, fork).ops, i, w)
    {
      var i := WindowWasCut(s, fork, trace, w);
    }
    forall i: nat, v | CutsNode(trace, i, v)
      ensures exists w :: w in Drove(trace).closed && w.node == v && MadeAt(trace, NewDump(s, fork).ops, i, w)
    {
      var w := CutIsAWindow(s, fork, trace, i, v);
    }
  }

  lemma ReadsTheSame(s: Schedule, trace: seq<Ev>)
    requires CleanRun(s, trace) && Spaced(s)
    ensures Pair(Told(trace)) == Drove(trace) && Pair(Told(trace)).open == map[]
  {
    hide Safe, Mon, Pair, Drove, OnceEach, AllToldRight, Spaced;
    ToldReadsTheSame(trace);
    SpacedFromsDiffer(s, trace);
    ReadsRightExactlyWhen(trace);
    NoneLeftOut(trace);
  }

  lemma NoneLeftOut(trace: seq<Ev>)
    requires AllEnded(trace)
    ensures Drove(trace).open == map[]
  {
    hide Drove;
    forall v: int
      ensures v !in Drove(trace).open
    {
      DroveOpen(trace, v);
    }
    assert Drove(trace).open == map[];
  }

  /** v was cut at time t: between an accepted Partition's answer and what ended it. */
  ghost predicate CutAt(trace: seq<Ev>, v: int, t: int) {
    exists i: nat, c: nat :: CutsNode(trace, i, v) && EndAt(trace, i, c) && trace[i].at <= t <= trace[c].at
  }

  /** The windows read from a clean run cover a node's instant exactly when it was cut then. */
  lemma CoveredExactlyWhileCut(s: Schedule, trace: seq<Ev>, v: int, t: int)
    requires CleanRun(s, trace) && Spaced(s)
    ensures (exists w :: w in Pair(Told(trace)).closed && Covers(w, Some(v), t, 0)) <==> CutAt(trace, v, t)
  {
    hide Safe, Mon, Pair, Drove, OnceEach, Spaced, AllToldRight, AllEnded;
    ReadsTheSame(s, trace);
    if w :| w in Drove(trace).closed && Covers(w, Some(v), t, 0) {
      DroveClosed(trace, w);
      var i: nat, c: nat :| WindowAt(trace, i, c, w);
    }
    if CutAt(trace, v, t) {
      var i: nat, c: nat :| CutsNode(trace, i, v) && EndAt(trace, i, c) && trace[i].at <= t <= trace[c].at;
      var w := Window(trace, i, c, v);
      assert Covers(w, Some(v), t, 0);
    }
  }

  /** m pairs a window with the op whose Partition, accepted at i, made it. */
  ghost predicate MatchAt(trace: seq<Ev>, i: nat, m: (DumpOp, Isolation)) {
    WindowOf(trace, i, m.1) && m.0 == Publish(trace[i].op)
  }

  ghost predicate ReadBack(trace: seq<Ev>, matched: seq<(DumpOp, Isolation)>, i: nat, v: int) {
    exists k :: 0 <= k < |matched| && matched[k].1.node == v && MatchAt(trace, i, matched[k])
  }

  predicate NoRepeats(matched: seq<(DumpOp, Isolation)>) {
    forall k, m :: 0 <= k < m < |matched| ==>
      matched[k].1.node != matched[m].1.node || matched[k].0.name != matched[m].0.name
  }

  /** The attributed windows are one per victim per accepted Partition, under the op that made it. */
  ghost predicate Exactly(trace: seq<Ev>, matched: seq<(DumpOp, Isolation)>) {
    && (forall m :: m in matched ==> exists i: nat :: MatchAt(trace, i, m))
    && (forall i: nat, v :: CutsNode(trace, i, v) ==> ReadBack(trace, matched, i, v))
    && NoRepeats(matched)
  }

  lemma TwiceIn(ws: seq<Isolation>, k: nat, m: nat)
    requires k < m < |ws| && ws[k] == ws[m]
    ensures multiset(ws)[ws[k]] >= 2
  {
    assert ws == ws[..k] + [ws[k]] + ws[k + 1..m] + [ws[m]] + ws[m + 1..];
  }

  /** One window for one op and one node. */
  lemma SameWindow(s: Schedule, fork: int, trace: seq<Ev>, w: Isolation, x: Isolation)
    requires CleanRun(s, trace) && Spaced(s) && w in Drove(trace).closed && x in Drove(trace).closed
    requires Owner(Admitted(NewDump(s, fork).ops), w).Some? && Owner(Admitted(NewDump(s, fork).ops), x).Some?
    requires Owner(Admitted(NewDump(s, fork).ops), w).value.name == Owner(Admitted(NewDump(s, fork).ops), x).value.name
    requires w.node == x.node
    ensures w == x
  {
    hide Safe, Drove, Spaced, Owner, Admitted, OnceEach, Mon;
    var i := WindowWasCut(s, fork, trace, w);
    var j := WindowWasCut(s, fork, trace, x);
    CutsByName(s, trace, i, j);
    var c: nat :| WindowAt(trace, i, c, w);
    var d: nat :| WindowAt(trace, j, d, x);
    assert c == d;
  }

  lemma CutsByName(s: Schedule, trace: seq<Ev>, i: nat, j: nat)
    requires OnceEach(s, Mon(trace).cuts) && i < |trace| && j < |trace| && Accepted(trace[i]) && Accepted(trace[j])
    requires trace[i].op.name == trace[j].op.name
    ensures i == j
  {
    hide Mon;
    if i < j {
      CutsInOrder(trace, i, j);
    } else if j < i {
      CutsInOrder(trace, j, i);
    }
  }

  lemma ReadExactly(s: Schedule, fork: int, trace: seq<Ev>, matched: seq<(DumpOp, Isolation)>, stray: seq<Isolation>)
    requires CleanRun(s, trace) && Spaced(s)
    requires forall m :: m in matched ==> Owner(Admitted(NewDump(s, fork).ops), m.1) == Some(m.0)
    requires forall w :: w in stray ==> Owner(Admitted(NewDump(s, fork).ops), w) == None
    requires multiset(Windows(matched)) + multiset(stray) == Pair(Told(trace)).closed + Unhealed(Pair(Told(trace)).open)
    ensures stray == [] && Exactly(trace, matched)
  {
    hide Pair, Drove, Owner, Admitted, Spaced, CleanRun, MatchAt, CutsNode, ReadBack, NoRepeats, Windows, Unhealed;
    ReadsTheSame(s, trace);
    UnhealedNone(Pair(Told(trace)).open);
    NoneStray(s, fork, trace, matched, stray);
    forall m | m in matched
      ensures exists i: nat :: MatchAt(trace, i, m)
    {
      var i := MatchWasCut(s, fork, trace, matched, m);
    }
    forall i: nat, v | CutsNode(trace, i, v)
      ensures ReadBack(trace, matched, i, v)
    {
      EachIsRead(s, fork, trace, matched, i, v);
    }
    NoneIsReadTwice(s, fork, trace, matched);
  }

  lemma NoneStray(s: Schedule, fork: int, trace: seq<Ev>, matched: seq<(DumpOp, Isolation)>, stray: seq<Isolation>)
    requires CleanRun(s, trace) && Spaced(s)
    requires forall w :: w in stray ==> Owner(Admitted(NewDump(s, fork).ops), w) == None
    requires multiset(Windows(matched)) + multiset(stray) == Drove(trace).closed
    ensures stray == [] && multiset(Windows(matched)) == Drove(trace).closed
  {
    hide Drove, Owner, Admitted, Spaced, CleanRun, Windows;
    if stray != [] {
      assert stray[0] in multiset(stray);
      assert stray[0] in multiset(Windows(matched)) + multiset(stray);
      var i := WindowWasCut(s, fork, trace, stray[0]);
    }
  }

  lemma MatchWasCut(s: Schedule, fork: int, trace: seq<Ev>, matched: seq<(DumpOp, Isolation)>, m: (DumpOp, Isolation))
    returns (i: nat)
    requires CleanRun(s, trace) && Spaced(s) && m in matched && Owner(Admitted(NewDump(s, fork).ops), m.1) == Some(m.0)
    requires multiset(Windows(matched)) == Drove(trace).closed
    ensures MatchAt(trace, i, m)
  {
    hide Drove, Owner, Admitted, Spaced, CleanRun, WindowOf;
    var k :| 0 <= k < |matched| && matched[k] == m;
    assert Windows(matched)[k] == m.1;
    assert m.1 in multiset(Windows(matched));
    i := WindowWasCut(s, fork, trace, m.1);
  }

  lemma EachIsRead(s: Schedule, fork: int, trace: seq<Ev>, matched: seq<(DumpOp, Isolation)>, i: nat, v: int)
    requires CleanRun(s, trace) && Spaced(s) && CutsNode(trace, i, v)
    requires forall m :: m in matched ==> Owner(Admitted(NewDump(s, fork).ops), m.1) == Some(m.0)
    requires multiset(Windows(matched)) == Drove(trace).closed
    ensures ReadBack(trace, matched, i, v)
  {
    hide Drove, Owner, Admitted, Spaced, CleanRun, CutsNode, WindowOf;
    var w := CutIsAWindow(s, fork, trace, i, v);
    assert w in multiset(Windows(matched));
    var k :| 0 <= k < |matched| && Windows(matched)[k] == w;
    assert matched[k] in matched;
  }

  lemma NoneIsReadTwice(s: Schedule, fork: int, trace: seq<Ev>, matched: seq<(DumpOp, Isolation)>)
    requires CleanRun(s, trace) && Spaced(s)
    requires forall m :: m in matched ==> Owner(Admitted(NewDump(s, fork).ops), m.1) == Some(m.0)
    requires multiset(Windows(matched)) == Drove(trace).closed
    ensures NoRepeats(matched)
  {
    hide Drove, Owner, Admitted, Spaced, CleanRun;
    forall k, m | 0 <= k < m < |matched|
      ensures matched[k].1.node != matched[m].1.node || matched[k].0.name != matched[m].0.name
    {
      var w, x := matched[k].1, matched[m].1;
      assert matched[k] in matched && matched[m] in matched;
      assert Windows(matched)[k] == w && Windows(matched)[m] == x;
      assert w in multiset(Windows(matched)) && x in multiset(Windows(matched));
      var i := WindowWasCut(s, fork, trace, w);
      if w == x {
        TwiceIn(Windows(matched), k, m);
      } else if w.node == x.node && matched[k].0.name == matched[m].0.name {
        SameWindow(s, fork, trace, w, x);
      }
    }
  }

  /**
   From a schedule to the judge's reading of its run: what is read is what was cut exactly when every
   isolation is told right; and then, if each has ended, attribution finds one window per victim per
   accepted Partition. In a run no shutdown met it is enough that the first Clear after each works.
   */
  method RunAndRead(s: Schedule, fork: int, clients: nat, injector: bool, start: int)
    returns (run: Driver, ok: bool, matched: seq<(DumpOp, Isolation)>, stray: seq<Isolation>)
    requires Serial(s) && Spaced(s) && s.slotSeconds > 0
    ensures Safe(run.trace) && OnceEach(s, Mon(run.trace).cuts) && Mon(run.trace).attempted
    ensures Pair(Told(run.trace)) == Drove(run.trace) <==> AllToldRight(run.trace)
    ensures ok && FirstClearsWork(run.trace) ==> AllToldRight(run.trace) && AllEnded(run.trace)
    ensures AllToldRight(run.trace) && AllEnded(run.trace) ==> stray == [] && Exactly(run.trace, matched)
  {
    hide Safe, Mon, Pair, Drove, Owner, Admitted, OnceEach, Spaced, Serial, AllToldRight, AllEnded, Exactly, Windows;
    run := new Driver(clients, injector, s.slotSeconds, start);
    ok := run.Execute(s);
    var windows := ChaosWindows(Told(run.trace));
    matched, stray := AttributeWindows(NewDump(s, fork), windows);
    ghost var trace := run.trace;
    ToldReadsTheSame(trace);
    SpacedFromsDiffer(s, trace);
    ReadsRightExactlyWhen(trace);
    if ok && FirstClearsWork(trace) {
      FirstClearsTellRight(trace);
      OwnHealsTellRight(trace);
    }
    if AllToldRight(trace) && AllEnded(trace) {
      assert CleanRun(s, trace);
      ReadExactly(s, fork, trace, matched, stray);
    }
  }

  /** The schedules of both shipped profiles can be run and read so. */
  lemma ShippedRunsAreRead(p: Profile, genesis: int, fork: int, t: Topology, s: Schedule)
    requires p == COMPOSITE || p == COMPOSITE_SMOKE
    requires t.lights != [] && Resolved(p, genesis, fork, t, s)
    ensures Serial(s) && Spaced(s)
  {
    hide Resolved;
    var acts := SortActions(Flat(s));
    SortedActions(Flat(s));
    ShippedSchedulesAreSafe(p, genesis, fork, t, s, acts);
  }
}
