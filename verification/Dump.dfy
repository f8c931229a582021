/**
 The published schedule of internal/migsched/dump.go: heal deadlines and the gaps no admitted
 partition occupies; and the swap gate of cmd/migration-swap/gate.go that relies on them.
 */
module Dump {
  import opened Options
  import opened Schedule
  import opened Shipped
  import opened Sorting

  /** An op as published; a hold of 0 stands for none. */
  datatype DumpOp = DumpOp(name: nat, kind: Class, start: int, end: int, holdUntil: int, victims: seq<int>,
                           mutual: bool, refused: bool) {
    function Latest(): int {
      if holdUntil != 0 then holdUntil else end
    }
  }

  datatype Dump = Dump(fork: int, ops: seq<DumpOp>, failsafes: seq<int>, quiet: int)

  function Publish(o: Op): DumpOp {
    DumpOp(o.name, o.kind, o.start, o.end, if o.holdUntil.Some? then o.holdUntil.value else 0,
           o.victims, o.mutual, o.refused)
  }

  function NewDump(s: Schedule, fork: int): (d: Dump)
    ensures |d.ops| == |s.ops|
  {
    Dump(fork, seq(|s.ops|, i requires 0 <= i < |s.ops| => Publish(s.ops[i])), s.failsafes, s.quiet)
  }

  /** Publication keeps an op's latest heal, except for a hold that ends at the unix epoch itself. */
  lemma PublishedLatest(o: Op)
    ensures Publish(o).Latest() == o.Latest() <==> o.holdUntil != Some(0) || o.end == 0
  {
  }

  function Admitted(ops: seq<DumpOp>): (r: seq<DumpOp>)
    ensures forall o :: o in r <==> o in ops && !o.refused
  {
    if ops == [] then [] else Admitted(ops[..|ops| - 1]) + (if ops[|ops| - 1].refused then [] else [ops[|ops| - 1]])
  }

  // ---- Heal deadlines ----

  function DeadlineFold(fork: int, sweeps: seq<int>): int {
    if sweeps == [] then fork
    else
      var d, f := DeadlineFold(fork, sweeps[..|sweeps| - 1]), sweeps[|sweeps| - 1];
      if (f <= fork && f > d) || (d == fork && f <= fork) then f else d
  }

  method HealDeadline(d: Dump, o: DumpOp) returns (deadline: int)
    ensures deadline == HealBy(d, o)
    ensures o.kind in {Straddle, Window} ==> deadline == o.Latest() + 120
    ensures o.kind in {Deep, Short} ==> (IsDeadline(d.fork, d.failsafes, deadline) <==> !Forgotten(d.fork, d.failsafes))
  {
    DeadlineRightExactlyWhen(d.fork, d.failsafes);
    if o.kind == Straddle || o.kind == Window {
      return o.Latest() + HEAL_CONVERGE_ALLOWANCE;
    }
    deadline := d.fork;
    for i := 0 to |d.failsafes|
      invariant deadline == DeadlineFold(d.fork, d.failsafes[..i])
    {
      assert d.failsafes[..i + 1][..i] == d.failsafes[..i];
      var t := d.failsafes[i];
      if (!(t > d.fork) && t > deadline) || (deadline == d.fork && !(t > d.fork)) {
        deadline := t;
      }
    }
    assert d.failsafes[..|d.failsafes|] == d.failsafes;
  }

  function HealBy(d: Dump, o: DumpOp): int {
    if o.kind == Straddle || o.kind == Window then o.Latest() + HEAL_CONVERGE_ALLOWANCE
    else DeadlineFold(d.fork, d.failsafes)
  }

  /** What the deadline should be: the last sweep at or before the fork, or the fork if there is none. */
  ghost predicate IsDeadline(fork: int, sweeps: seq<int>, d: int) {
    if forall i :: 0 <= i < |sweeps| ==> sweeps[i] > fork then d == fork
    else d <= fork && d in sweeps && forall i :: 0 <= i < |sweeps| && sweeps[i] <= fork ==> sweeps[i] <= d
  }

  /** No sweep at the fork from i on. */
  ghost predicate PastFork(fork: int, sweeps: seq<int>, i: nat) {
    forall k :: i <= k < |sweeps| ==> sweeps[k] != fork
  }

  /** A sweep before the fork follows the last one at the fork. */
  ghost predicate Forgotten(fork: int, sweeps: seq<int>) {
    exists i: nat, j: nat :: i < j < |sweeps| && sweeps[i] == fork && sweeps[j] < fork && PastFork(fork, sweeps, j)
  }

  /** The fold starts over at every sweep at the fork: it is the highest sweep after the last of them, or the fork. */
  lemma {:induction false} FoldMeans(fork: int, sweeps: seq<int>)
    ensures var d := DeadlineFold(fork, sweeps);
            && d <= fork
            && (d < fork ==> d in sweeps)
            && (d == fork <==> forall j: nat :: j < |sweeps| && sweeps[j] < fork ==> !PastFork(fork, sweeps, j))
            && (d < fork ==> forall j: nat :: j < |sweeps| && sweeps[j] < fork && PastFork(fork, sweeps, j) ==>
                  sweeps[j] <= d)
  {
    if sweeps != [] {
      var rest, f := sweeps[..|sweeps| - 1], sweeps[|sweeps| - 1];
      FoldMeans(fork, rest);
      assert sweeps == rest + [f];
      forall j: nat | j < |rest|
        ensures PastFork(fork, sweeps, j) <==> PastFork(fork, rest, j) && f != fork
      {
        assert forall k :: 0 <= k < |rest| ==> sweeps[k] == rest[k];
        assert sweeps[|rest|] == f;
      }
      assert PastFork(fork, sweeps, |rest|) <==> f != fork;
      hide PastFork;
    }
  }

  /** The published deadline is the right one exactly when no sweep before the fork follows the last one at the fork. */
  lemma DeadlineRightExactlyWhen(fork: int, sweeps: seq<int>)
    ensures IsDeadline(fork, sweeps, DeadlineFold(fork, sweeps)) <==> !Forgotten(fork, sweeps)
  {
    FoldMeans(fork, sweeps);
    hide DeadlineFold;
    var d := DeadlineFold(fork, sweeps);
    if fork in sweeps {
      var i := LastAtFork(fork, sweeps, |sweeps|);
      if j: nat :| i < j < |sweeps| && sweeps[j] < fork {
        assert PastFork(fork, sweeps, j);
      }
    } else {
      assert forall j: nat :: PastFork(fork, sweeps, j);
    }
  }

  lemma {:induction false} LastAtFork(fork: int, sweeps: seq<int>, n: nat) returns (i: nat)
    requires n <= |sweeps| && PastFork(fork, sweeps, n) && fork in sweeps
    ensures i < |sweeps| && sweeps[i] == fork && PastFork(fork, sweeps, i + 1)
  {
    assert n > 0;
    if sweeps[n - 1] == fork {
      i := n - 1;
    } else {
      i := LastAtFork(fork, sweeps, n - 1);
    }
  }

  /**
   For instance: a sweep at the fork is forgotten when an earlier one follows it, though not when both are before
   it.
   */
  lemma SomeOrdersForget()
    ensures DeadlineFold(100, [100, 5]) == 5 && !IsDeadline(100, [100, 5], 5)
    ensures DeadlineFold(100, [5, 3]) == 5 && IsDeadline(100, [5, 3], 5)
  {
    assert [100, 5][..1] == [100] && [100][..0] == [];
    assert [5, 3][..1] == [5] && [5][..0] == [];
    assert [100, 5][0] == 100 && [5, 3][0] == 5;
  }

  /** Over sweeps in order it always is. */
  lemma DeadlineIsLastSweep(fork: int, sweeps: seq<int>)
    requires Ascending(sweeps)
    ensures !Forgotten(fork, sweeps) && IsDeadline(fork, sweeps, DeadlineFold(fork, sweeps))
  {
    DeadlineRightExactlyWhen(fork, sweeps);
  }

  /** The heal deadline before the fork is itself a sweep. */
  lemma DeadlineIsASweep(p: Profile, genesis: int, fork: int, t: Topology, s: Schedule) returns (k: nat)
    requires t.lights != [] && Resolved(p, genesis, fork, t, s)
    ensures k < |s.failsafes| && s.failsafes[k] == fork - p.preForkMargin && Ascending(s.failsafes)
  {
    hide OpAt, AllOwnSweeps, LastPre, QuietFrom, Ascending;
    var sweeps := Sweeps(s.ops, fork - p.preForkMargin);
    assert sweeps[|sweeps| - 1] == fork - p.preForkMargin;
    assert fork - p.preForkMargin in multiset(sweeps);
    assert fork - p.preForkMargin in multiset(s.failsafes);
    k :| 0 <= k < |s.failsafes| && s.failsafes[k] == fork - p.preForkMargin;
  }

  /** Every admitted op of a shipped schedule is certainly healed at or before its published deadline. */
  lemma ShippedHealInTime(p: Profile, genesis: int, fork: int, t: Topology, s: Schedule, i: nat)
    requires p == COMPOSITE || p == COMPOSITE_SMOKE
    requires t.lights != [] && Resolved(p, genesis, fork, t, s) && i < |s.ops| && s.ops[i].Admitted()
    ensures s.ops[i].Latest() <= HealBy(NewDump(s, fork), NewDump(s, fork).ops[i])
  {
    hide OpAt, Sweeps, QuietFrom, Ascending, DeadlineFold, Roomy, Resolved;
    OpFacts(p, genesis, fork, t, s, i);
    var k := DeadlineIsASweep(p, genesis, fork, t, s);
    DeadlineIsLastSweep(fork, s.failsafes);
  }

  // ---- Gaps ----

  type Interval = (int, int)

  /** No admitted op occupies the instant t. */
  ghost predicate Free(ops: seq<DumpOp>, t: int) {
    forall o :: o in ops && !o.refused ==> !(o.start <= t < o.Latest())
  }

  ghost predicate InSome(gaps: seq<Interval>, t: int) {
    exists i :: 0 <= i < |gaps| && gaps[i].0 <= t < gaps[i].1
  }

  predicate ByStart(busy: seq<Interval>) {
    forall i, j :: 0 <= i < j < |busy| ==> busy[i].0 <= busy[j].0
  }

  predicate StartsBy(x: Interval, y: Interval) {
    x.0 <= y.0
  }

  function SortSpans(s: seq<Interval>): seq<Interval> {
    Sort(StartsBy, s)
  }

  lemma SortedSpans(s: seq<Interval>)
    ensures ByStart(SortSpans(s))
    ensures forall y: Interval :: y in SortSpans(s) <==> y in s
  {
    Sorts(StartsBy, s);
    var out := SortSpans(s);
    forall y: Interval
      ensures y in out <==> y in s
    {
      assert y in out <==> y in multiset(out);
      assert y in s <==> y in multiset(s);
    }
    forall i, j | 0 <= i < j < |out|
      ensures out[i].0 <= out[j].0
    {
      assert StartsBy(out[i], out[j]);
    }
  }

  /** What the admitted ops occupy, by start. */
  function Spans(ops: seq<DumpOp>): seq<Interval> {
    if ops == [] then []
    else
      var o := ops[|ops| - 1];
      Spans(ops[..|ops| - 1]) + if o.refused then [] else [(o.start, o.Latest())]
  }

  function Busy(ops: seq<DumpOp>): seq<Interval> {
    SortSpans(Spans(ops))
  }

  lemma {:induction false} SpansMean(ops: seq<DumpOp>, b: Interval)
    ensures b in Spans(ops) <==> exists o :: o in ops && !o.refused && b == (o.start, o.Latest())
  {
    if ops != [] {
      var rest, last := ops[..|ops| - 1], ops[|ops| - 1];
      SpansMean(rest, b);
      assert forall o :: o in ops <==> o in rest || o == last;
    }
  }

  lemma BusyMeans(ops: seq<DumpOp>)
    ensures ByStart(Busy(ops))
    ensures forall b: Interval :: b in Busy(ops) <==> exists o :: o in ops && !o.refused && b == (o.start, o.Latest())
  {
    SortedSpans(Spans(ops));
    forall b: Interval
      ensures b in Busy(ops) <==> exists o :: o in ops && !o.refused && b == (o.start, o.Latest())
    {
      SpansMean(ops, b);
    }
  }

  method BusySpans(ops: seq<DumpOp>) returns (busy: seq<Interval>)
    ensures busy == Busy(ops)
  {
    busy := [];
    for i := 0 to |ops|
      invariant busy == Spans(ops[..i])
    {
      assert ops[..i + 1][..i] == ops[..i];
      if !ops[i].refused {
        busy := busy + [(ops[i].start, ops[i].Latest())];
      }
    }
    assert ops[..|ops|] == ops;
    busy := SortSpans(busy);
  }

  ghost predicate Idle(busy: seq<Interval>, t: int) {
    forall b :: b in busy ==> !(b.0 <= t < b.1)
  }

  /** Gaps are not empty, inside [from, to), and start in order. */
  ghost predicate Laid(gaps: seq<Interval>, from: int, to: int) {
    && (forall i :: 0 <= i < |gaps| ==> from <= gaps[i].0 < gaps[i].1 <= to)
    && (forall i, j :: 0 <= i < j < |gaps| ==> gaps[i].0 <= gaps[j].0)
  }

  ghost predicate Disjoint(gaps: seq<Interval>) {
    forall i, j :: 0 <= i < j < |gaps| ==> gaps[i].1 <= gaps[j].0
  }

  /** An op published to end before it starts, and later than all that start before it. */
  ghost predicate BackwardAt(busy: seq<Interval>, j: nat, from: int, to: int) {
    && j < |busy| && busy[j].1 < busy[j].0 && from < busy[j].1 < to
    && forall k :: 0 <= k < j ==> busy[k].1 < busy[j].1
  }

  ghost predicate Backward(busy: seq<Interval>, from: int, to: int) {
    exists j: nat :: BackwardAt(busy, j, from, to)
  }

  /** Ops that run forwards never leave overlapping gaps. */
  lemma ForwardIsNotBackward(ops: seq<DumpOp>, from: int, to: int)
    requires forall o :: o in ops && !o.refused ==> o.start <= o.Latest()
    ensures !Backward(Busy(ops), from, to)
  {
    BusyMeans(ops);
    hide Busy;
    forall j: nat
      ensures !BackwardAt(Busy(ops), j, from, to)
    {
      assert j < |Busy(ops)| ==> Busy(ops)[j] in Busy(ops);
    }
  }

  /**
   The instants of [from, to) that no admitted partition occupies, as intervals in order of start. They
   are disjoint exactly when no op the sweep comes to ends before it starts yet after what it has passed.
   */
  method Gaps(d: Dump, from: int, to: int) returns (out: seq<Interval>)
    ensures forall t :: InSome(out, t) <==> from <= t < to && Free(d.ops, t)
    ensures Laid(out, from, to) && (Disjoint(out) <==> !Backward(Busy(d.ops), from, to))
    ensures forall i :: 0 <= i < |out| ==> out[i].1 == to || exists o :: o in d.ops && !o.refused && o.start == out[i].1
  {
    hide Busy;
    var busy := BusySpans(d.ops);
    BusyMeans(d.ops);
    out := GapsBetween(busy, from, to);
    forall t
      ensures Idle(busy, t) <==> Free(d.ops, t)
    {
      if Idle(busy, t) {
        forall o | o in d.ops && !o.refused
          ensures !(o.start <= t < o.Latest())
        {
          assert (o.start, o.Latest()) in busy;
        }
      }
    }
  }

  /**
   After busy intervals up to i: the gaps found are the idle instants from `from` up to where the last
   one ends, which is past the cursor only after an interval that ends before it starts.
   */
  ghost predicate Swept(busy: seq<Interval>, i: nat, from: int, to: int, cursor: int, reach: int, out: seq<Interval>)
    requires i <= |busy|
  {
    && Laid(out, from, to) && CursorAt(busy, i, from, cursor)
    && cursor <= reach && (reach > cursor ==> forall j :: i <= j < |busy| ==> busy[j].0 >= reach)
    && (out != [] ==> out[|out| - 1].0 < cursor && out[|out| - 1].1 <= reach)
    && (forall t :: InSome(out, t) <==> from <= t < reach && t < to && Idle(busy, t))
    && ClosedByOps(busy, to, out) && Overlapping(busy, i, from, to, cursor, out)
  }

  /** The cursor is where the latest of the intervals passed ends. */
  ghost predicate CursorAt(busy: seq<Interval>, i: nat, from: int, cursor: int)
    requires i <= |busy|
  {
    && from <= cursor && (forall j :: 0 <= j < i ==> busy[j].1 <= cursor)
    && (cursor == from || exists j :: 0 <= j < i && busy[j].1 == cursor)
  }

  /** Gaps overlap, or the last one will with the next, exactly when a backward interval was passed. */
  ghost predicate Overlapping(busy: seq<Interval>, i: nat, from: int, to: int, cursor: int, out: seq<Interval>) {
    !Disjoint(out) || (cursor < to && out != [] && out[|out| - 1].1 > cursor)
    <==> Passed(busy, i, from, to)
  }

  ghost predicate Passed(busy: seq<Interval>, i: nat, from: int, to: int) {
    exists j: nat :: j < i && BackwardAt(busy, j, from, to)
  }

  lemma PassedSnoc(busy: seq<Interval>, i: nat, from: int, to: int)
    ensures Passed(busy, i + 1, from, to) <==> Passed(busy, i, from, to) || BackwardAt(busy, i, from, to)
  {
    hide BackwardAt;
  }

  ghost predicate ClosedByOps(busy: seq<Interval>, to: int, out: seq<Interval>) {
    forall k :: 0 <= k < |out| ==> out[k].1 == to || exists b :: b in busy && b.0 == out[k].1
  }

  method GapsBetween(busy: seq<Interval>, from: int, to: int) returns (out: seq<Interval>)
    requires ByStart(busy)
    ensures forall t :: InSome(out, t) <==> from <= t < to && Idle(busy, t)
    ensures Laid(out, from, to) && (Disjoint(out) <==> !Backward(busy, from, to)) && ClosedByOps(busy, to, out)
  {
    hide Swept, Laid, InSome, Idle, ByStart, ClosedByOps, Disjoint, Backward;
    out := [];
    var cursor := from;
    ghost var reach := from;
    SweepBegins(busy, from, to);
    for i := 0 to |busy|
      invariant Swept(busy, i, from, to, cursor, reach, out)
      invariant cursor < to || cursor == from
    {
      var b := busy[i];
      ghost var was, before := out, cursor;
      if b.1 > cursor {
        if b.0 > cursor {
          var end := b.0;
          if end > to {
            end := to;
          }
          if end > cursor {
            out := out + [(cursor, end)];
          }
        }
        SweepOn(busy, i, from, to, before, reach, was, out);
        cursor := b.1;
        reach := if b.0 > b.1 then b.0 else b.1;
        if cursor >= to {
          SweepEnds(busy, i + 1, from, to, cursor, reach, out, out);
          return;
        }
      } else {
        SweepPast(busy, i, from, to, cursor, reach, out);
      }
    }
    ghost var swept := out;
    if cursor < to {
      out := out + [(cursor, to)];
    }
    SweepEnds(busy, |busy|, from, to, cursor, reach, swept, out);
  }

  lemma SweepBegins(busy: seq<Interval>, from: int, to: int)
    ensures Swept(busy, 0, from, to, from, from, [])
  {
  }

  lemma SweepPast(busy: seq<Interval>, i: nat, from: int, to: int, cursor: int, reach: int, out: seq<Interval>)
    requires i < |busy| && Swept(busy, i, from, to, cursor, reach, out) && busy[i].1 <= cursor
    ensures Swept(busy, i + 1, from, to, cursor, reach, out)
  {
    hide Laid, InSome, Idle, ClosedByOps, Disjoint;
    assert !BackwardAt(busy, i, from, to);
    hide BackwardAt;
  }

  /** The sweep passes interval i, which ends past the cursor. */
  lemma SweepOn(busy: seq<Interval>, i: nat, from: int, to: int, cursor: int, reach: int, was: seq<Interval>,
                out: seq<Interval>)
    requires ByStart(busy) && i < |busy| && Swept(busy, i, from, to, cursor, reach, was) && cursor < busy[i].1
    requires cursor < to || cursor == from
    requires var end := if busy[i].0 > to then to else busy[i].0;
             out == if busy[i].0 > cursor && end > cursor then was + [(cursor, end)] else was
    ensures Swept(busy, i + 1, from, to, busy[i].1, if busy[i].0 > busy[i].1 then busy[i].0 else busy[i].1, out)
  {
    hide Laid, InSome, Idle, ClosedByOps, ByStart, Disjoint, BackwardAt, Overlapping;
    var b := busy[i];
    StartsFrom(busy, i);
    GapStep(busy, i, from, to, cursor, reach, was, out);
    OverlapStep(busy, i, from, to, cursor, reach, was, out);
    if out != was {
      var end := if b.0 > to then to else b.0;
      LaidSnoc(was, from, to, cursor, end);
      assert b in busy;
      ClosedSnoc(busy, to, was, cursor, end);
    }
  }

  lemma StartsFrom(busy: seq<Interval>, i: nat)
    requires ByStart(busy) && i < |busy|
    ensures forall j :: i <= j < |busy| ==> busy[j].0 >= busy[i].0
  {
  }

  /** Whether the gaps overlap so far. */
  lemma OverlapStep(busy: seq<Interval>, i: nat, from: int, to: int, cursor: int, reach: int, was: seq<Interval>,
                    out: seq<Interval>)
    requires i < |busy| && CursorAt(busy, i, from, cursor) && Overlapping(busy, i, from, to, cursor, was)
    requires cursor < busy[i].1 && cursor <= reach && (reach > cursor ==> busy[i].0 >= reach)
             && (cursor < to || cursor == from)
    requires Laid(was, from, to) && (was != [] ==> was[|was| - 1].0 < cursor && was[|was| - 1].1 <= reach)
    requires var end := if busy[i].0 > to then to else busy[i].0;
             out == if busy[i].0 > cursor && end > cursor then was + [(cursor, end)] else was
    ensures Overlapping(busy, i + 1, from, to, busy[i].1, out)
  {
    var b := busy[i];
    PassedSnoc(busy, i, from, to);
    BackwardHere(busy, i, from, to, cursor);
    hide Passed, BackwardAt, CursorAt;
    if out != was {
      var end := if b.0 > to then to else b.0;
      DisjointSnoc(was, (cursor, end));
    }
    hide Laid, Disjoint;
  }

  lemma BackwardHere(busy: seq<Interval>, i: nat, from: int, to: int, cursor: int)
    requires i < |busy| && CursorAt(busy, i, from, cursor) && cursor < busy[i].1
    ensures BackwardAt(busy, i, from, to) <==> busy[i].1 < busy[i].0 && busy[i].1 < to
  {
  }

  lemma DisjointSnoc(gaps: seq<Interval>, g: Interval)
    requires forall i, j :: 0 <= i < j < |gaps| ==> gaps[i].0 <= gaps[j].0
    requires forall i :: 0 <= i < |gaps| ==> gaps[i].0 < gaps[i].1
    ensures Disjoint(gaps + [g]) <==> Disjoint(gaps) && (gaps == [] || gaps[|gaps| - 1].1 <= g.0)
  {
    var all := gaps + [g];
    assert forall i :: 0 <= i < |gaps| ==> all[i] == gaps[i];
    assert all[|gaps|] == g;
    if Disjoint(gaps) && gaps != [] && gaps[|gaps| - 1].1 <= g.0 {
      forall i | 0 <= i < |gaps|
        ensures gaps[i].1 <= g.0
      {
        assert i < |gaps| - 1 ==> gaps[i].1 <= gaps[|gaps| - 1].0;
      }
    }
  }

  lemma LaidSnoc(gaps: seq<Interval>, from: int, to: int, cursor: int, end: int)
    requires Laid(gaps, from, to) && from <= cursor < end <= to && (gaps != [] ==> gaps[|gaps| - 1].0 <= cursor)
    ensures Laid(gaps + [(cursor, end)], from, to)
  {
    var all := gaps + [(cursor, end)];
    forall i, j | 0 <= i < j < |all|
      ensures all[i].0 <= all[j].0
    {
      if j == |gaps| && i < |gaps| - 1 {
        assert gaps[i].0 <= gaps[|gaps| - 1].0;
      }
    }
  }

  lemma ClosedSnoc(busy: seq<Interval>, to: int, was: seq<Interval>, cursor: int, end: int)
    requires ClosedByOps(busy, to, was) && (end == to || exists b :: b in busy && b.0 == end)
    ensures ClosedByOps(busy, to, was + [(cursor, end)])
  {
    var out := was + [(cursor, end)];
    forall k | 0 <= k < |out|
      ensures out[k].1 == to || exists b :: b in busy && b.0 == out[k].1
    {
      if k < |was| {
        assert out[k] == was[k];
      }
    }
  }

  /** What is left from the cursor on is one gap. */
  lemma SweepEnds(busy: seq<Interval>, i: nat, from: int, to: int, cursor: int, reach: int, out: seq<Interval>,
                  all: seq<Interval>)
    requires i <= |busy| && Swept(busy, i, from, to, cursor, reach, out) && (i == |busy| || cursor >= to)
    requires all == if cursor < to then out + [(cursor, to)] else out
    ensures forall t :: InSome(all, t) <==> from <= t < to && Idle(busy, t)
    ensures Laid(all, from, to) && ClosedByOps(busy, to, all) && (Disjoint(all) <==> !Backward(busy, from, to))
  {
    NoMoreBackward(busy, i, from, to, cursor);
    hide InSome, ClosedByOps, Idle, BackwardAt;
    if cursor < to {
      LaidSnoc(out, from, to, cursor, to);
      DisjointSnoc(out, (cursor, to));
      ClosedSnoc(busy, to, out, cursor, to);
      LastGap(busy, from, to, cursor, reach, out);
    }
    hide Laid, Disjoint;
  }

  /** Once the range is passed no interval can still end inside it and last. */
  lemma NoMoreBackward(busy: seq<Interval>, i: nat, from: int, to: int, cursor: int)
    requires i <= |busy| && CursorAt(busy, i, from, cursor) && (i == |busy| || cursor >= to)
    ensures Backward(busy, from, to) <==> Passed(busy, i, from, to)
  {
    forall j: nat
      ensures BackwardAt(busy, j, from, to) ==> j < i
    {
      assert forall k :: 0 <= k < i && busy[k].1 >= to && j >= i ==> !BackwardAt(busy, j, from, to);
    }
  }

  lemma SnocIn(gaps: seq<Interval>, g: Interval, t: int)
    ensures InSome(gaps + [g], t) <==> InSome(gaps, t) || g.0 <= t < g.1
  {
    if InSome(gaps, t) {
      var i :| 0 <= i < |gaps| && gaps[i].0 <= t < gaps[i].1;
      assert (gaps + [g])[i] == gaps[i];
    }
    if g.0 <= t < g.1 {
      assert (gaps + [g])[|gaps|] == g;
    }
    if InSome(gaps + [g], t) {
      var i :| 0 <= i < |gaps + [g]| && (gaps + [g])[i].0 <= t < (gaps + [g])[i].1;
      assert i < |gaps| ==> gaps[i] == (gaps + [g])[i];
    }
  }

  /** Passing busy interval i settles the instants up to where it ends, or starts if that is later. */
  lemma GapStep(busy: seq<Interval>, i: nat, from: int, to: int, cursor: int, reach: int, was: seq<Interval>,
                out: seq<Interval>)
    requires i < |busy| && from <= cursor < busy[i].1 && (forall j :: i <= j < |busy| ==> busy[j].0 >= busy[i].0)
    requires cursor <= reach && (reach > cursor ==> busy[i].0 >= reach)
    requires forall j :: 0 <= j < i ==> busy[j].1 <= cursor
    requires forall t :: InSome(was, t) <==> from <= t < reach && t < to && Idle(busy, t)
    requires var end := if busy[i].0 > to then to else busy[i].0;
             out == if busy[i].0 > cursor && end > cursor then was + [(cursor, end)] else was
    ensures
      var past := if busy[i].0 > busy[i].1 then busy[i].0 else busy[i].1;
      forall t :: InSome(out, t) <==> from <= t < past && t < to && Idle(busy, t)
  {
    var b := busy[i];
    var past := if b.0 > b.1 then b.0 else b.1;
    forall t
      ensures InSome(out, t) <==> from <= t < past && t < to && Idle(busy, t)
    {
      SnocIn(was, (cursor, if b.0 > to then to else b.0), t);
      if cursor <= t < b.0 {
        forall c | c in busy
          ensures !(c.0 <= t < c.1)
        {
          var k :| 0 <= k < |busy| && busy[k] == c;
          assert k < i ==> busy[k].1 <= cursor;
          assert k >= i ==> busy[i].0 <= busy[k].0;
        }
      }
      if b.0 <= t < b.1 {
        assert b in busy;
      }
    }
  }

  lemma LastGap(busy: seq<Interval>, from: int, to: int, cursor: int, reach: int, out: seq<Interval>)
    requires from <= cursor < to && cursor <= reach && forall j :: 0 <= j < |busy| ==> busy[j].1 <= cursor
    requires forall t :: InSome(out, t) <==> from <= t < reach && t < to && Idle(busy, t)
    ensures forall t :: InSome(out + [(cursor, to)], t) <==> from <= t < to && Idle(busy, t)
  {
    forall t
      ensures InSome(out + [(cursor, to)], t) <==> from <= t < to && Idle(busy, t)
    {
      SnocIn(out, (cursor, to), t);
    }
  }

  /** Whether [start, end] fits inside one gap: then no admitted partition touches it. */
  method Contains(d: Dump, from: int, to: int, gaps: seq<Interval>, start: int, end: int) returns (fits: bool)
    requires forall t :: InSome(gaps, t) <==> from <= t < to && Free(d.ops, t)
    ensures fits <==> exists i :: 0 <= i < |gaps| && gaps[i].0 <= start && end <= gaps[i].1
    ensures fits ==> forall t :: start <= t < end ==> Free(d.ops, t)
  {
    for i := 0 to |gaps|
      invariant forall k :: 0 <= k < i ==> !(gaps[k].0 <= start && end <= gaps[k].1)
    {
      if start >= gaps[i].0 && end <= gaps[i].1 {
        forall t | start <= t < end
          ensures Free(d.ops, t)
        {
          assert InSome(gaps, t);
        }
        return true;
      }
    }
    fits := false;
  }

  // ---- The swap gate ----

  const GAP_HORIZON := 3600
  const SWAP_SLACK := 120

  lemma NoneYet(gaps: seq<Interval>, now: int, to: int)
    requires Laid(gaps, now, to) && (|gaps| == 0 || gaps[0].0 > now)
    ensures !InSome(gaps, now)
  {
    forall i | 0 <= i < |gaps|
      ensures gaps[i].0 > now
    {
      if i > 0 {
        assert gaps[0].0 <= gaps[i].0;
      }
    }
  }

  /** How long from now no admitted partition occupies, capped at the horizon; it is as long as it can be. */
  method ChaosFree(d: Dump, now: int, horizon: int) returns (free: int)
    requires horizon >= 0
    ensures 0 <= free <= horizon
    ensures forall t :: now <= t < now + free ==> Free(d.ops, t)
    ensures free < horizon && (forall o :: o in d.ops && !o.refused ==> o.start < o.Latest()) ==>
              !Free(d.ops, now + free)
  {
    var gaps := Gaps(d, now, now + horizon);
    if |gaps| == 0 || gaps[0].0 > now {
      NoneYet(gaps, now, now + horizon);
      return 0;
    }
    free := gaps[0].1 - now;
    forall t | now <= t < now + free
      ensures Free(d.ops, t)
    {
      assert InSome(gaps, t);
    }
  }

  datatype Verdict = Wait | Proceed | Skip | Reorged

  datatype Finalized = Unknown | At(number: nat, time: int)

  /** What one swap waits on; a hash of 0 is unknown, negative partitions an unreachable disruptoor. */
  datatype SwapState = SwapState(
    now: int, fork: int, expected: int, margin: int, anchor: nat, anchorHash: nat, finalized: Finalized, canonical: nat,
    epochSeconds: int, down: nat, partitions: int, gap: int, prevBehind: bool, prevFailed: bool)

  predicate TooLate(s: SwapState) {
    s.now + s.expected + s.margin > s.fork
  }

  predicate Stale(s: SwapState) {
    s.finalized.At? && s.now - s.finalized.time > 4 * s.epochSeconds
  }

  function DecideSwap(s: SwapState): Verdict {
    if TooLate(s) then Skip
    else if s.finalized.At? && s.finalized.number >= s.anchor && s.canonical != 0 && s.canonical != s.anchorHash
    then Reorged
    else if Stale(s) && s.prevFailed then Skip
    else if s.finalized.Unknown? || s.finalized.number < s.anchor || s.canonical == 0 then Wait
    else if Stale(s) || s.down > 0 || s.partitions != 0 then Wait
    else if s.gap < s.expected + SWAP_SLACK || s.prevBehind then Wait
    else Proceed
  }

  /**
   The gate fed by the published schedule: a proceed leaves the whole swap and its slack free of
   admitted partitions, on an anchor node 1 has finalized, finishing the margin before the fork.
   */
  method SwapGate(d: Dump, s: SwapState) returns (v: Verdict)
    ensures v == Proceed ==>
              && (forall t :: s.now <= t < s.now + s.expected + SWAP_SLACK ==> Free(d.ops, t))
              && s.now + s.expected + s.margin <= s.fork
              && s.finalized.At? && s.finalized.number >= s.anchor && s.canonical == s.anchorHash
              && s.partitions == 0 && !Stale(s)
    ensures v == Proceed ==> s.expected + 120 <= 3600
    ensures v == Skip <==>
              || s.now + s.expected + s.margin > s.fork
              || (OldFinality(s) && s.prevFailed && !(KnowsAnchor(s) && s.canonical != s.anchorHash))
    ensures v == Reorged <==> s.now + s.expected + s.margin <= s.fork && KnowsAnchor(s) && s.canonical != s.anchorHash
    ensures (forall o :: o in d.ops && !o.refused ==> o.start < o.Latest()) ==>
              (v == Proceed <==>
                && s.now + s.expected + s.margin <= s.fork && KnowsAnchor(s) && s.canonical == s.anchorHash
                && !OldFinality(s) && s.down == 0 && s.partitions == 0 && !s.prevBehind
                && s.expected + 120 <= 3600 && forall t :: s.now <= t < s.now + s.expected + 120 ==> Free(d.ops, t))
  {
    var free := ChaosFree(d, s.now, GAP_HORIZON);
    v := DecideSwap(s.(gap := free));
  }

  /** Node 1 has finalized up to the anchor and knows its hash. */
  predicate KnowsAnchor(s: SwapState) {
    s.finalized.At? && s.finalized.number >= s.anchor && s.canonical != 0
  }

  /** Node 1's finalized block is more than four epochs old. */
  predicate OldFinality(s: SwapState) {
    s.finalized.At? && s.finalized.time + 4 * s.epochSeconds < s.now
  }
}
