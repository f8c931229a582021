/** Why every resolution of the shipped profiles is safe to run serially, for every genesis, fork and topology. */
module Shipped {
  import opened Options
  import opened Schedule
  import opened Actions

  /** How far from its op's times a recorded window may start and still be that op's. */
  const SLOP := 30

  function SpanLatest(w: Span): int {
    if w.kind == Straddle then w.end + STRADDLE_MAX_HOLD else w.end
  }

  predicate PreFork(w: Span) {
    w.kind == Deep || w.kind == Short
  }

  /**
   Windows in order and well apart: the pre-fork ones counted from genesis, then the others
   counted from the fork, each clear of the sweeps of the one before and of the heal deadline.
   */
  predicate Roomy(p: Profile) {
    && (forall i :: 0 <= i < |p.windows| ==> WellPlaced(p.windows[i], p.preForkMargin))
    && (forall i, j :: 0 <= i < j < |p.windows| ==> Apart(p.windows[i], p.windows[j]))
  }

  predicate WellPlaced(w: Span, margin: int) {
    w.start < w.end && (w.anchor == FromGenesis <==> PreFork(w)) && (!PreFork(w) ==> -margin + SLOP < w.start)
  }

  predicate Apart(v: Span, w: Span) {
    if PreFork(v) && PreFork(w) then v.end + SLOP < w.start
    else if PreFork(v) then true
    else !PreFork(w) && SpanLatest(v) + FAILSAFE_REPEAT < w.start && v.end + SLOP < w.start
  }

  lemma ShippedAreRoomy()
    ensures Roomy(COMPOSITE) && Roomy(COMPOSITE_SMOKE)
  {
    forall i, j | 0 <= i < j < |COMPOSITE.windows|
      ensures Apart(COMPOSITE.windows[i], COMPOSITE.windows[j])
    {
      assert j == 1 || j == 2 || j == 3 || j == 4;
    }
  }

  /** An op's times, kind and refusal, read off its window. */
  lemma OpFacts(p: Profile, genesis: int, fork: int, t: Topology, s: Schedule, i: nat)
    requires t.lights != [] && Resolved(p, genesis, fork, t, s) && i < |s.ops|
    ensures
      var w, o := p.windows[i], s.ops[i];
      var base := if w.anchor == FromFork then fork else genesis;
      && o.name == i + 1 && o.kind == w.kind && o.start == base + w.start && o.end == base + w.end
      && o.Latest() == base + SpanLatest(w)
      && (o.Admitted() <==> !(PreFork(w) && o.end > fork - p.preForkMargin))
  {
    hide VictimsAt;
  }

  /** Admitted ops run one after the other, with room for attribution between them. */
  lemma OpsInOrder(p: Profile, genesis: int, fork: int, t: Topology, s: Schedule, i: nat, j: nat)
    requires Roomy(p) && t.lights != [] && Resolved(p, genesis, fork, t, s)
    requires i < j < |s.ops| && s.ops[i].Admitted() && s.ops[j].Admitted()
    ensures s.ops[i].Latest() <= s.ops[j].start && s.ops[i].end + SLOP < s.ops[j].start
  {
    hide OpAt, Sweeps, QuietFrom, Ascending;
    OpFacts(p, genesis, fork, t, s, i);
    OpFacts(p, genesis, fork, t, s, j);
    assert WellPlaced(p.windows[i], p.preForkMargin) && WellPlaced(p.windows[j], p.preForkMargin);
    assert Apart(p.windows[i], p.windows[j]);
  }

  lemma OpRunsForward(p: Profile, genesis: int, fork: int, t: Topology, s: Schedule, i: nat)
    requires Roomy(p) && t.lights != [] && Resolved(p, genesis, fork, t, s) && i < |s.ops|
    ensures s.ops[i].start < s.ops[i].end <= s.ops[i].Latest()
    ensures s.ops[i].name == i + 1
  {
    hide OpAt, Sweeps, QuietFrom, Ascending;
    OpFacts(p, genesis, fork, t, s, i);
    assert WellPlaced(p.windows[i], p.preForkMargin);
  }

  lemma {:induction false} OwnSweepOf(ops: seq<Op>, f: int) returns (i: nat)
    requires f in AllOwnSweeps(ops)
    ensures i < |ops| && f in OwnSweeps(ops[i])
  {
    var rest, o := ops[..|ops| - 1], ops[|ops| - 1];
    if f in AllOwnSweeps(rest) {
      i := OwnSweepOf(rest, f);
    } else {
      i := |ops| - 1;
    }
  }

  /** The last pre-fork heal is the latest end of an admitted pre-fork op. */
  lemma {:induction false} LastPreIsLatest(ops: seq<Op>)
    ensures LastPre(ops).Some? ==> exists i :: 0 <= i < |ops| && PreOp(ops[i]) && ops[i].end == LastPre(ops).value
    ensures forall i :: 0 <= i < |ops| && PreOp(ops[i]) ==> LastPre(ops).Some? && ops[i].end <= LastPre(ops).value
  {
    if ops != [] {
      var rest := ops[..|ops| - 1];
      LastPreIsLatest(rest);
      if LastPre(rest).Some? {
        var i :| 0 <= i < |rest| && PreOp(rest[i]) && rest[i].end == LastPre(rest).value;
        assert ops[i] == rest[i];
      }
      forall i | 0 <= i < |ops| && PreOp(ops[i])
        ensures LastPre(ops).Some? && ops[i].end <= LastPre(ops).value
      {
        if i < |rest| {
          assert PreOp(rest[i]);
        }
      }
      assert PreOp(ops[|ops| - 1]) || LastPre(ops) == LastPre(rest);
    }
  }

  predicate PreOp(o: Op) {
    (o.kind == Deep || o.kind == Short) && o.Admitted()
  }

  /** A sweep is an op's own, the last pre-fork heal, or the deadline. */
  lemma SweepIs(s: Schedule, deadline: int, f: int) returns (i: nat)
    requires multiset(s.failsafes) == multiset(Sweeps(s.ops, deadline)) && f in s.failsafes
    ensures f == deadline
            || (i < |s.ops| && f in OwnSweeps(s.ops[i]))
            || (LastPre(s.ops) == Some(f) && f < deadline)
  {
    i := 0;
    assert f in multiset(s.failsafes);
    assert f in Sweeps(s.ops, deadline);
    if f in AllOwnSweeps(s.ops) {
      i := OwnSweepOf(s.ops, f);
    }
  }

  lemma OwnSweepMissesOp(p: Profile, genesis: int, fork: int, t: Topology, s: Schedule, i: nat, k: nat)
    requires Roomy(p) && t.lights != [] && Resolved(p, genesis, fork, t, s) && i < |s.ops| && k < |s.ops|
    ensures forall f :: f in OwnSweeps(s.ops[i]) ==> SweepClear(f, s.ops[k]) && f >= fork - p.preForkMargin
  {
    hide OpAt, Sweeps, QuietFrom, Ascending;
    OpFacts(p, genesis, fork, t, s, i);
    OpFacts(p, genesis, fork, t, s, k);
    assert WellPlaced(p.windows[i], p.preForkMargin) && WellPlaced(p.windows[k], p.preForkMargin);
    if i < k {
      assert Apart(p.windows[i], p.windows[k]);
    } else if k < i {
      assert Apart(p.windows[k], p.windows[i]);
    }
  }

  lemma EarlySweepMissesOp(p: Profile, genesis: int, fork: int, t: Topology, s: Schedule, f: int, k: nat)
    requires Roomy(p) && t.lights != [] && Resolved(p, genesis, fork, t, s) && k < |s.ops|
    requires f == fork - p.preForkMargin || (LastPre(s.ops) == Some(f) && f < fork - p.preForkMargin)
    ensures SweepClear(f, s.ops[k])
  {
    hide OpAt, Sweeps, QuietFrom, Ascending, LastPre;
    LastPreIsLatest(s.ops);
    OpFacts(p, genesis, fork, t, s, k);
    assert WellPlaced(p.windows[k], p.preForkMargin);
    assert PreFork(p.windows[k]) && s.ops[k].Admitted() ==> PreOp(s.ops[k]);
  }

  lemma SweepMissesOp(p: Profile, genesis: int, fork: int, t: Topology, s: Schedule, f: int, k: nat)
    requires Roomy(p) && t.lights != [] && Resolved(p, genesis, fork, t, s) && f in s.failsafes && k < |s.ops|
    ensures SweepClear(f, s.ops[k])
  {
    hide OpAt, Sweeps, QuietFrom, Ascending, LastPre, SweepClear, OwnSweeps, Roomy;
    var i := SweepIs(s, fork - p.preForkMargin, f);
    if i < |s.ops| && f in OwnSweeps(s.ops[i]) {
      OwnSweepMissesOp(p, genesis, fork, t, s, i, k);
    } else {
      EarlySweepMissesOp(p, genesis, fork, t, s, f, k);
    }
  }

  lemma {:induction false} QuietCovers(ops: seq<Op>, deadline: int)
    ensures QuietFrom(ops, deadline) >= deadline
    ensures forall i :: 0 <= i < |ops| && !(ops[i].kind == Deep || ops[i].kind == Short) ==>
              ops[i].Latest() + QUIET_TAIL <= QuietFrom(ops, deadline)
  {
    if ops != [] {
      var rest := ops[..|ops| - 1];
      QuietCovers(rest, deadline);
      forall i | 0 <= i < |ops| && !(ops[i].kind == Deep || ops[i].kind == Short)
        ensures ops[i].Latest() + QUIET_TAIL <= QuietFrom(ops, deadline)
      {
        if i < |rest| {
          assert rest[i] == ops[i];
        }
      }
    }
  }

  /**
   Every resolution of a roomy profile runs serially: admitted ops are disjoint up to their
   latest heal and no sweep falls inside one, so Resolve never fails on its own sweeps.
   */
  lemma ResolvedIsSerial(p: Profile, genesis: int, fork: int, t: Topology, s: Schedule)
    requires Roomy(p) && t.lights != [] && Resolved(p, genesis, fork, t, s)
    ensures Serial(s)
  {
    hide OpAt, Sweeps, QuietFrom, Ascending, SweepClear, Roomy;
    forall i, j | 0 <= i < j < |s.ops|
      ensures s.ops[i].name != s.ops[j].name
    {
      OpRunsForward(p, genesis, fork, t, s, i);
      OpRunsForward(p, genesis, fork, t, s, j);
    }
    forall i | 0 <= i < |s.ops|
      ensures s.ops[i].start < s.ops[i].end <= s.ops[i].Latest()
    {
      OpRunsForward(p, genesis, fork, t, s, i);
    }
    forall i, j | 0 <= i < j < |s.ops| && s.ops[i].Admitted() && s.ops[j].Admitted()
      ensures s.ops[i].Latest() <= s.ops[j].start
    {
      OpsInOrder(p, genesis, fork, t, s, i, j);
    }
    forall f, k | 0 <= f < |s.failsafes| && 0 <= k < |s.ops|
      ensures SweepClear(s.failsafes[f], s.ops[k])
    {
      SweepMissesOp(p, genesis, fork, t, s, s.failsafes[f], k);
    }
  }

  /** And nothing the driver does lies past the quiet instant. */
  lemma AllBeforeQuiet(p: Profile, genesis: int, fork: int, t: Topology, s: Schedule, acts: seq<Action>)
    requires Roomy(p) && t.lights != [] && Resolved(p, genesis, fork, t, s) && multiset(acts) == multiset(Flat(s))
    ensures forall k :: 0 <= k < |acts| ==> acts[k].at <= s.quiet
  {
    hide OpAt, Sweeps, QuietFrom, Ascending, LastPre, Roomy, OpActions;
    var deadline := fork - p.preForkMargin;
    QuietCovers(s.ops, deadline);
    LastPreIsLatest(s.ops);
    forall k | 0 <= k < |acts|
      ensures acts[k].at <= s.quiet
    {
      var a := acts[k];
      FlatIs(s, acts, a);
      OpActionsAre(s.ops, a);
      if a in OpActions(s.ops) {
        var i :| 0 <= i < |s.ops| && ActionOf(a, s.ops[i]);
        OpRunsForward(p, genesis, fork, t, s, i);
        OpFacts(p, genesis, fork, t, s, i);
      } else {
        var i := SweepIs(s, deadline, a.at);
        if i < |s.ops| && a.at in OwnSweeps(s.ops[i]) {
          OpFacts(p, genesis, fork, t, s, i);
          assert a.at <= s.ops[i].Latest() + QUIET_TAIL;
        }
      }
    }
  }

  /** Both shipped profiles, every genesis, fork and accepted topology. */
  lemma ShippedSchedulesAreSafe(p: Profile, genesis: int, fork: int, t: Topology, s: Schedule, acts: seq<Action>)
    requires p == COMPOSITE || p == COMPOSITE_SMOKE
    requires t.lights != [] && Resolved(p, genesis, fork, t, s)
    requires Ordered(acts) && multiset(acts) == multiset(Flat(s))
    ensures Serial(s)
    ensures forall k :: 0 <= k < |acts| ==> acts[k].at <= s.quiet
    ensures forall k :: 0 <= k < |acts| && acts[k].OpStart? ==>
              k + 1 < |acts| && acts[k + 1] == OpEnd(acts[k].op.end, acts[k].op)
    ensures forall i, j :: 0 <= i < j < |s.ops| && s.ops[i].Admitted() && s.ops[j].Admitted() ==>
              s.ops[i].end + SLOP < s.ops[j].start
  {
    ShippedAreRoomy();
    ResolvedIsSerial(p, genesis, fork, t, s);
    AllBeforeQuiet(p, genesis, fork, t, s, acts);
    EndFollowsStart(s, acts);
    forall i, j | 0 <= i < j < |s.ops| && s.ops[i].Admitted() && s.ops[j].Admitted()
      ensures s.ops[i].end + SLOP < s.ops[j].start
    {
      OpsInOrder(p, genesis, fork, t, s, i, j);
    }
  }

  lemma SomeResolution(p: Profile, genesis: int, fork: int, t: Topology) returns (s: Schedule)
    requires t.lights != []
    ensures Resolved(p, genesis, fork, t, s)
  {
    hide OpAt, Sweeps, QuietFrom, Ascending, SortInts;
    var ops := seq(|p.windows|, i requires 0 <= i < |p.windows| => OpAt(p, genesis, fork, t.lights, i));
    var deadline := fork - p.preForkMargin;
    SortedInts(Sweeps(ops, deadline));
    s := Schedule(ops, SortInts(Sweeps(ops, deadline)), QuietFrom(ops, deadline), t.secondsPerSlot);
  }

  /** Every genesis, fork and topology has such a resolution, and the last check of Resolve never refuses it. */
  lemma ShippedResolve(p: Profile, genesis: int, fork: int, t: Topology) returns (s: Schedule)
    requires p == COMPOSITE || p == COMPOSITE_SMOKE
    requires t.lights != []
    ensures Resolved(p, genesis, fork, t, s) && FailsafesOk(s.ops, s.failsafes)
  {
    hide Resolved, Roomy, FailsafesOk;
    s := SomeResolution(p, genesis, fork, t);
    ShippedAreRoomy();
    ResolvedIsSerial(p, genesis, fork, t, s);
  }

  /** Four participants and a 0.4 anchor on six-second slots are accepted by the full profile, whenever the fork is. */
  lemma DefaultTopologyAccepted(genesis: int, fork: int)
    ensures Acceptable(COMPOSITE, genesis, fork, Topology(1, [2, 3, 4], 4, 0.4, 6))
  {
    var t := Topology(1, [2, 3, 4], 4, 0.4, 6);
    forall v | v in t.lights
      ensures Share(t, v) == 0.2
    {
    }
    forall i | 0 <= i < |COMPOSITE.windows|
      ensures Admits(OpAt(COMPOSITE, genesis, fork, t.lights, i), fork, t)
    {
      var o := OpAt(COMPOSITE, genesis, fork, t.lights, i);
      LightsHold(t, o.victims);
    }
    OneStraddle();
  }

  lemma {:induction false} LightsHold(t: Topology, victims: seq<int>)
    requires t.participants > 1 && forall v :: v in victims ==> Share(t, v) == 0.2
    ensures ShareOf(t, victims) == 0.2 * |victims| as real
    ensures Heaviest(t, victims) == if victims == [] then 0.0 else 0.2
  {
    if victims != [] {
      LightsHold(t, victims[..|victims| - 1]);
    }
  }

  lemma OneStraddle()
    ensures CountKind(COMPOSITE.windows, {Straddle}) == 1
  {
    var w := COMPOSITE.windows;
    assert CountKind(w[..0], {Straddle}) == 0;
    assert w[..1][..0] == w[..0] && CountKind(w[..1], {Straddle}) == 0;
    assert w[..2][..1] == w[..1] && CountKind(w[..2], {Straddle}) == 0;
    assert w[..3][..2] == w[..2] && CountKind(w[..3], {Straddle}) == 0;
    assert w[..4][..3] == w[..3] && CountKind(w[..4], {Straddle}) == 1;
  }

  /** Whatever the profile, after every admitted op's latest heal a sweep comes, before quiet. */
  lemma EveryOpIsSwept(p: Profile, genesis: int, fork: int, t: Topology, s: Schedule, i: nat)
    requires t.lights != [] && Resolved(p, genesis, fork, t, s) && i < |s.ops| && s.ops[i].Admitted()
    ensures exists f :: f in s.failsafes && s.ops[i].Latest() <= f <= s.quiet
  {
    hide VictimsAt, Sweeps, QuietFrom, Ascending;
    var deadline, o := fork - p.preForkMargin, s.ops[i];
    SweepsMean(s.ops, deadline, s.failsafes, s.quiet);
    if o.kind in {Straddle, Window} {
      assert o.kind == Window ==> o.Latest() == o.end;
      assert o.Latest() + 60 in s.failsafes;
    } else {
      assert deadline in s.failsafes;
    }
  }

  /** For instance: the full profile with its fork 2000 seconds after genesis. */
  lemma CompositeAt2000(t: Topology, s: Schedule)
    requires t.lights == [2, 3, 4] && Resolved(COMPOSITE, 0, 2000, t, s)
    ensures s.failsafes == [940, 1610, 2180, 2240, 2510] && s.quiet == 2570
    ensures |s.ops| == 5 && s.ops[0].victims == [2, 3] && s.ops[1].victims == [3, 4] && s.ops[2].victims == [2]
            && s.ops[3].victims == [2, 3, 4] && s.ops[4].victims == [3]
  {
    CompositeVictims(t.lights);
    CompositeTimes(t, s);
    hide OpAt, Sweeps, QuietFrom, VictimsAt, Ascending;
    CompositeSweeps(s.ops);
    CompositeInOrder(s.failsafes);
  }

  lemma CompositeInOrder(s: seq<int>)
    requires Ascending(s) && multiset(s) == multiset([2180, 2240, 2510, 940, 1610])
    ensures s == [940, 1610, 2180, 2240, 2510]
  {
    var sweeps := [940, 1610, 2180, 2240, 2510];
    assert multiset(sweeps) == multiset{2180, 2240, 2510, 940, 1610} == multiset(s);
    assert Ascending(sweeps);
    hide Ascending;
    SameSorted(s, sweeps);
  }

  lemma CompositeTimes(t: Topology, s: Schedule)
    requires t.lights != [] && Resolved(COMPOSITE, 0, 2000, t, s)
    ensures |s.ops| == 5 && forall i :: 0 <= i < 5 ==> s.ops[i].victims == VictimsAt(COMPOSITE, t.lights, i)
    ensures forall i :: 0 <= i < 5 ==> s.ops[i].Admitted()
    ensures s.ops[0].kind == s.ops[1].kind == Deep && s.ops[2].kind == Short
    ensures s.ops[3].kind == Straddle && s.ops[4].kind == Window
    ensures s.ops[0].end == 430 && s.ops[1].end == 730 && s.ops[2].end == 940
    ensures s.ops[3].Latest() == 2180 && s.ops[4].end == s.ops[4].Latest() == 2450
  {
    hide VictimsAt, Sweeps, QuietFrom, Ascending;
    assert forall i :: 0 <= i < 5 ==> s.ops[i] == OpAt(COMPOSITE, 0, 2000, t.lights, i);
  }

  lemma CompositeVictims(lights: seq<int>)
    requires lights == [2, 3, 4]
    ensures VictimsAt(COMPOSITE, lights, 0) == [2, 3] && VictimsAt(COMPOSITE, lights, 1) == [3, 4]
    ensures VictimsAt(COMPOSITE, lights, 2) == [2] && VictimsAt(COMPOSITE, lights, 3) == [2, 3, 4]
    ensures VictimsAt(COMPOSITE, lights, 4) == [3]
  {
    PairsRotate(COMPOSITE, lights, 0, 0);
    PairsRotate(COMPOSITE, lights, 0, 1);
    SinglesRotate(COMPOSITE, lights, 2, 2);
    SinglesRotate(COMPOSITE, lights, 2, 4);
  }

  lemma CompositeSweeps(ops: seq<Op>)
    requires |ops| == 5 && ops[0].kind == ops[1].kind == Deep && ops[2].kind == Short
    requires ops[3].kind == Straddle && ops[4].kind == Window
    requires ops[0].end == 430 && ops[1].end == 730 && ops[2].end == 940 && forall i :: 0 <= i < 5 ==> ops[i].Admitted()
    requires ops[3].Latest() == 2180 && ops[4].end == ops[4].Latest() == 2450
    ensures Sweeps(ops, 1610) == [2180, 2240, 2510, 940, 1610] && QuietFrom(ops, 1610) == 2570
  {
    hide QuietFrom, AllOwnSweeps, LastPre;
    assert ops[..0] == [] && ops[..5] == ops;
    SweepsNone(1610);
    SweepsNext(ops, 0, 1610);
    SweepsNext(ops, 1, 1610);
    SweepsNext(ops, 2, 1610);
    assert AllOwnSweeps(ops[..3]) == [] && LastPre(ops[..3]) == Some(940) && QuietFrom(ops[..3], 1610) == 1610;
    SweepsNext(ops, 3, 1610);
    assert AllOwnSweeps(ops[..4]) == [2180, 2240] && LastPre(ops[..4]) == Some(940)
           && QuietFrom(ops[..4], 1610) == 2300;
    SweepsNext(ops, 4, 1610);
    assert AllOwnSweeps(ops[..5]) == [2180, 2240, 2510] && LastPre(ops[..5]) == Some(940);
  }

  lemma {:induction false} SameSorted(a: seq<int>, b: seq<int>)
    requires Ascending(a) && Ascending(b) && multiset(a) == multiset(b)
    ensures a == b
  {
    hide Ascending;
    SameLength(a, b);
    if a != [] {
      SameFirst(a, b);
      SameSorted(a[1..], b[1..]);
      assert a == [a[0]] + a[1..] && b == [b[0]] + b[1..];
    }
  }

  lemma SameLength(a: seq<int>, b: seq<int>)
    requires multiset(a) == multiset(b)
    ensures |a| == |b|
  {
    assert |multiset(a)| == |a| && |multiset(b)| == |b|;
  }

  lemma SameFirst(a: seq<int>, b: seq<int>)
    requires Ascending(a) && Ascending(b) && multiset(a) == multiset(b) && a != [] && b != []
    ensures a[0] == b[0] && multiset(a[1..]) == multiset(b[1..]) && Ascending(a[1..]) && Ascending(b[1..])
  {
    LeastFirst(a, b[0]);
    LeastFirst(b, a[0]);
    WithoutFirst(a);
    WithoutFirst(b);
  }

  lemma LeastFirst(a: seq<int>, x: int)
    requires Ascending(a) && a != []
    ensures x in multiset(a) ==> a[0] <= x
    ensures a[0] in multiset(a)
  {
  }

  lemma WithoutFirst(a: seq<int>)
    requires Ascending(a) && a != []
    ensures Ascending(a[1..]) && multiset(a[1..]) == multiset(a) - multiset{a[0]}
  {
    assert a == [a[0]] + a[1..];
  }
}
