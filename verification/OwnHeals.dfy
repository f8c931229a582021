/**
 What decides whether a run's log is right: an op's own heal. When it works the log tells the op's
 isolations right; when it fails only a heal-all line, logged by a sweep or by re-peering, can.
 */
module OwnHeals {
  import opened Options
  import opened Schedule
  import Actions
  import opened Records
  import opened Readings

  /** The first Clear after i is at c. */
  ghost predicate FirstClear(trace: seq<Ev>, i: nat, c: nat) {
    i < c < |trace| && trace[c].Cleared? && forall k :: i < k < c ==> !trace[k].Cleared?
  }

  /** The Partition accepted at i was healed by its op's own Clear, at c. */
  ghost predicate OwnHealed(trace: seq<Ev>, i: nat, c: nat) {
    FirstClear(trace, i, c) && trace[c].cause.AtEnd? && trace[c].ok
  }

  lemma {:induction false} SomeFirstClear(trace: seq<Ev>, i: nat, n: nat) returns (c: nat)
    requires i < n < |trace| && trace[n].Cleared?
    ensures FirstClear(trace, i, c) && c <= n
    decreases n
  {
    if k :| i < k < n && trace[k].Cleared? {
      c := SomeFirstClear(trace, i, k);
    } else {
      c := n;
    }
  }

  /** Nothing else is cut before the first Clear. */
  lemma NotCutAgain(trace: seq<Ev>, i: nat, c: nat)
    requires Safe(trace) && i < |trace| && Accepted(trace[i]) && c <= |trace|
    requires forall k :: i < k < c ==> !trace[k].Cleared?
    ensures forall k :: i < k < c ==> !Accepted(trace[k])
    ensures i < c ==> LastCutAt(trace[..c], i)
  {
    hide Safe;
    forall k | i < k < c
      ensures !Accepted(trace[k])
    {
      if Accepted(trace[k]) {
        PartitionsAreSeparated(trace, i, k);
      }
    }
    assert forall k :: 0 <= k < c ==> trace[..c][k] == trace[k];
  }

  /** Nor does any heal line come. */
  lemma NoHealYet(trace: seq<Ev>, i: nat, k: nat)
    requires Safe(trace) && i < k < |trace| && Accepted(trace[i]) && forall j :: i < j < k ==> !trace[j].Cleared?
    ensures !(trace[k].Logged? && trace[k].line.Heal?)
  {
    hide Safe, Mon, Pair, Heard;
    NotCutAgain(trace, i, k);
    assert forall j :: 0 <= j < k ==> trace[..k][j] == trace[j];
    TriedMeans(trace[..k], i);
    PrefixSafe(trace, k);
    Echo(trace[..k]);
    var m := Mon(trace[..k]);
    assert m.owed != [] ==> m.owed[0] in m.owed;
  }

  /** An own Clear that works is of the op that was cut, and owes its victims' heal lines. */
  lemma HealLinesOwed(trace: seq<Ev>, i: nat, c: nat)
    requires Safe(trace) && i < |trace| && Accepted(trace[i]) && OwnHealed(trace, i, c)
    ensures
      var m := Mon(trace[..c + 1]);
      m.owed == HealLines(Mon(trace[..c]), trace[i].op) && m.owedAt == trace[c].at
  {
    hide Safe, Mon, HealLines;
    NotCutAgain(trace, i, c);
    WatchMeans(trace[..c], i);
    RequestsOweNothing(trace, c);
    PrefixSafe(trace, c);
    EndClearStep(Mon(trace[..c]), trace[i].op, true, trace[c].sent, trace[c].at);
    hide WatchStep;
  }

  /** The victims' heal lines come right after the Clear, with its time. */
  lemma HealLinesFollow(trace: seq<Ev>, i: nat, c: nat, v: int) returns (l: nat)
    requires Safe(trace) && Mon(trace).owed == [] && CutsNode(trace, i, v) && OwnHealed(trace, i, c)
    ensures c < l < |trace| && Closes(trace[l], v)
    ensures forall k :: c < k <= l ==> trace[k].Logged? && trace[k].at == trace[c].at
  {
    hide Safe, Mon, HealLines;
    HealLinesOwed(trace, i, c);
    var op := trace[i].op;
    var j :| 0 <= j < |op.victims| && op.victims[j] == v;
    OwedComeNext(trace, c + 1, |op.victims|);
    l := c + 1 + j;
  }

  /** When the op's own heal works, the log tells its isolations right. */
  lemma OwnHealToldRight(trace: seq<Ev>, i: nat, c: nat, v: int)
    requires Safe(trace) && Mon(trace).owed == [] && CutsNode(trace, i, v) && OwnHealed(trace, i, c)
    ensures EndAt(trace, i, c) && ToldRight(trace, i, v)
  {
    hide Safe, Mon;
    NotCutAgain(trace, i, c);
    var n := HealLinesFollow(trace, i, c, v);
    var l := SomeFirstClose(trace, i, v, n);
    forall k | i < k <= c
      ensures !Closes(trace[k], v)
    {
      NoHealYet(trace, i, k);
    }
    assert l > c;
    assert SaidAt(trace, i, v, l);
    OnlyOne(trace, i, v);
  }

  /** The first heal line for v after i is a heal-all, before v is cut again. */
  ghost predicate HealAllAt(trace: seq<Ev>, i: nat, v: int, l: nat) {
    SaidAt(trace, i, v, l) && trace[l].line.who == None
  }

  lemma {:induction false} LatestCut(trace: seq<Ev>) returns (j: nat)
    requires Mon(trace).Last().Some?
    ensures LastCutAt(trace, j)
  {
    CutsSomething(trace);
    hide Mon, WatchStep;
    var rest, e := trace[..|trace| - 1], trace[|trace| - 1];
    assert trace == rest + [e];
    if Accepted(e) {
      j := |rest|;
    } else {
      MonLast(trace);
      StepKeepsCut(Mon(rest), e);
      j := LatestCut(rest);
    }
  }

  lemma CutsSomething(trace: seq<Ev>)
    requires Mon(trace).Last().Some?
    ensures trace != []
  {
  }

  /** After an op's own heal failed, no line of its victims' own tells that they were healed. */
  lemma OnlyHealAll(trace: seq<Ev>, i: nat, c: nat, v: int, l: nat)
    requires Safe(trace) && CutsNode(trace, i, v) && FirstClear(trace, i, c) && !trace[c].ok && SaidAt(trace, i, v, l)
    ensures HealAllAt(trace, i, v, l)
  {
    hide Safe, Mon;
    if trace[l].line.who.Some? {
      var b, j := OwnHealSource(trace, l, v);
      OwnHealElsewhere(trace, i, j, b, c, l, v);
    }
  }

  /** A heal line of v's own at l comes of an own Clear at b that worked, the first one tried since the cut at j. */
  lemma OwnHealSource(trace: seq<Ev>, l: nat, v: int) returns (b: nat, j: nat)
    requires Safe(trace) && l < |trace| && trace[l].Logged? && trace[l].line.Heal? && trace[l].line.who == Some(v)
    ensures j < b < l && (forall k :: b < k < l ==> trace[k].Logged?) && trace[b].Cleared? && trace[b].ok
    ensures CutsNode(trace, j, v) && forall k :: j < k < b ==> !trace[k].Cleared? && !Accepted(trace[k])
  {
    hide Safe, Mon;
    b := LineSource(trace, l);
    HealSource(Mon(trace[..b]), trace[b], l - 1 - b, v);
    RequestsOweNothing(trace, b);
    j := LatestCut(trace[..b]);
    WatchMeans(trace[..b], j);
    assert forall k :: 0 <= k < b ==> trace[..b][k] == trace[k];
  }

  lemma HealSource(m: Watch, e: Ev, n: nat, v: int)
    requires !e.Logged? && n < |OwedBy(m, e)| && OwedBy(m, e)[n].Heal? && OwedBy(m, e)[n].who == Some(v)
    ensures e.Cleared? && e.cause.AtEnd? && e.ok && v in e.cause.op.victims
  {
  }

  /** An own heal at b of the cut at j cannot be the source of a line told of the cut at i. */
  lemma OwnHealElsewhere(trace: seq<Ev>, i: nat, j: nat, b: nat, c: nat, l: nat, v: int)
    requires b < l < |trace| && (forall k :: b < k < l ==> trace[k].Logged?) && trace[b].Cleared? && trace[b].ok
    requires j < b && CutsNode(trace, j, v) && (forall k :: j < k < b ==> !trace[k].Cleared? && !Accepted(trace[k]))
    requires CutsNode(trace, i, v) && FirstClear(trace, i, c) && !trace[c].ok
    ensures !SaidAt(trace, i, v, l)
  {
    hide Closes;
  }

  /**
   When the op's own heal fails, the log tells the isolation right exactly when the first heal-all line
   comes, before the node is cut again, at the time the isolation ended; or when neither ever happens.
   */
  lemma LateHealToldRight(trace: seq<Ev>, i: nat, c: nat, v: int)
    requires Safe(trace) && CutsNode(trace, i, v) && FirstClear(trace, i, c) && !trace[c].ok
    ensures ToldRight(trace, i, v)
            <==> || (exists e: nat, l: nat ::
                       EndAt(trace, i, e) && HealAllAt(trace, i, v, l) && trace[e].at == trace[l].at)
                 || (NoEnd(trace, i) && forall l: nat :: !HealAllAt(trace, i, v, l))
  {
    hide Safe, Mon, Closes, Ends;
    forall l: nat | SaidAt(trace, i, v, l)
      ensures HealAllAt(trace, i, v, l)
    {
      OnlyHealAll(trace, i, c, v, l);
    }
    OnlyOne(trace, i, v);
    if k :| i < k < |trace| && Ends(trace[k]) {
      var e := FirstEnd(trace, i, k);
    }
  }

  // ---- Whole runs ----

  /** Each accepted Partition was healed by its op's own Clear. */
  ghost predicate OwnHealsWork(trace: seq<Ev>) {
    forall i: nat :: i < |trace| && Accepted(trace[i]) ==> exists c: nat :: OwnHealed(trace, i, c)
  }

  /** The first Clear tried after each accepted Partition works. */
  ghost predicate FirstClearsWork(trace: seq<Ev>) {
    forall i: nat, c: nat :: i < |trace| && Accepted(trace[i]) && FirstClear(trace, i, c) ==> trace[c].ok
  }

  /** Each isolation came to an end. */
  ghost predicate AllEnded(trace: seq<Ev>) {
    forall i: nat :: i < |trace| && Accepted(trace[i]) ==> exists c: nat :: EndAt(trace, i, c)
  }

  /** Sweeps that fail, even all of them, do no harm when the ops' own heals work. */
  lemma OwnHealsTellRight(trace: seq<Ev>)
    requires Safe(trace) && Mon(trace).owed == [] && OwnHealsWork(trace)
    ensures AllToldRight(trace) && AllEnded(trace)
  {
    hide Safe, Mon, OwnHealed, ToldRight;
    forall i: nat, v | CutsNode(trace, i, v)
      ensures ToldRight(trace, i, v)
    {
      var c: nat :| OwnHealed(trace, i, c);
      OwnHealToldRight(trace, i, c, v);
    }
    forall i: nat | i < |trace| && Accepted(trace[i])
      ensures exists c: nat :: EndAt(trace, i, c)
    {
      var c: nat :| OwnHealed(trace, i, c);
      OwnHealEnds(trace, i, c);
    }
  }

  lemma OwnHealEnds(trace: seq<Ev>, i: nat, c: nat)
    requires Safe(trace) && i < |trace| && Accepted(trace[i]) && OwnHealed(trace, i, c)
    ensures EndAt(trace, i, c)
  {
    hide Safe;
    NotCutAgain(trace, i, c);
  }

  lemma {:induction false} StopIsKnown(trace: seq<Ev>, k: nat)
    requires k < |trace| && trace[k].Cleared? && trace[k].cause.AtStop?
    ensures Mon(trace).stopped
  {
    var rest, e := trace[..|trace| - 1], trace[|trace| - 1];
    MonLast(trace);
    StopStays(Mon(rest), e);
    hide Mon, WatchStep;
    if k < |rest| {
      StopIsKnown(rest, k);
    }
  }

  lemma StopStays(m: Watch, e: Ev)
    ensures m.stopped || (e.Cleared? && e.cause.AtStop?) ==> WatchStep(m, e).stopped
  {
  }

  /** In a run no shutdown met, the first Clear after an accepted Partition is its op's own. */
  lemma FirstClearIsOwn(trace: seq<Ev>, i: nat, c: nat)
    requires Safe(trace) && !Mon(trace).stopped && i < |trace| && Accepted(trace[i]) && FirstClear(trace, i, c)
    ensures trace[c].cause.AtEnd?
  {
    hide Safe, Mon;
    NotCutAgain(trace, i, c);
    TriedMeans(trace[..c], i);
    RequestsOweNothing(trace, c);
    assert forall k :: 0 <= k < c ==> trace[..c][k] == trace[k];
    if trace[c].cause.AtStop? {
      StopIsKnown(trace, c);
    }
  }

  /** Every accepted Partition was tried to be cleared: if not before the next one, then before the end. */
  lemma SomeClear(trace: seq<Ev>, i: nat) returns (c: nat)
    requires Safe(trace) && Mon(trace).attempted && i < |trace| && Accepted(trace[i])
    ensures FirstClear(trace, i, c)
  {
    hide Safe, Mon;
    if k :| i < k < |trace| && trace[k].Cleared? {
      c := SomeFirstClear(trace, i, k);
    } else {
      NotCutAgain(trace, i, |trace|);
      assert trace[..|trace|] == trace;
      TriedMeans(trace, i);
      assert false;
    }
  }

  lemma FirstClearsTellRight(trace: seq<Ev>)
    requires Safe(trace) && Mon(trace).attempted && !Mon(trace).stopped && FirstClearsWork(trace)
    ensures OwnHealsWork(trace)
  {
    hide Safe, Mon;
    forall i: nat | i < |trace| && Accepted(trace[i])
      ensures exists c: nat :: OwnHealed(trace, i, c)
    {
      var c := SomeClear(trace, i);
      FirstClearIsOwn(trace, i, c);
      assert OwnHealed(trace, i, c);
    }
  }

  // ---- A run that is misread ----

  /**
   A one-victim op whose own heal fails, and the sweep after it too: re-peering then logs a heal-all
   line, and a reader takes the victim for healed while the requests say it still is isolated.
   */
  function MisreadRun(op: Op, groups: seq<seq<int>>, v: int, sweep: int): seq<Ev> {
    [ Cut(op, groups, true, op.start, op.start), Logged(Isolate(v), op.start),
      Cleared(AtEnd(op), false, op.end, op.end), Logged(Warn, op.end),
      Cleared(AtSweep(sweep), false, sweep, sweep), Logged(Warn, sweep),
      Repeered(true, sweep), Logged(Heal(None, Plain), sweep) ]
  }

  lemma SafeNext(trace: seq<Ev>, e: Ev, m: Watch, next: Watch)
    requires Safe(trace) && Mon(trace) == m && StepOk(m, e) && WatchStep(m, e) == next
    ensures Safe(trace + [e]) && Mon(trace + [e]) == next
  {
    SafeSnoc(trace, e);
  }

  lemma SuchRunIsMisread(op: Op, groups: seq<seq<int>>, v: int, sweep: int)
    requires op.victims == [v] && op.start < op.end <= sweep && op.holdUntil.None?
    ensures var trace := MisreadRun(op, groups, v, sweep);
            && Safe(trace) && Mon(trace).owed == [] && !ToldRight(trace, 0, v)
            && Drove(trace) == Reading(map[v := op.start], multiset{})
            && Pair(trace) == Reading(map[], multiset{Isolation(v, op.start, Some(sweep))})
  {
    var t := MisreadRun(op, groups, v, sweep);
    MisreadIsSafe(op, groups, v, sweep);
    MisreadIsRead(op, groups, v, sweep);
    assert Closes(t[7], v) && CutsNode(t, 0, v);
    assert SaidAt(t, 0, v, 7);
    assert forall c: nat :: !EndAt(t, 0, c);
  }

  /** The one owed line is logged. */
  lemma SafePaid(trace: seq<Ev>, line: Line, m: Watch)
    requires Safe(trace) && Mon(trace) == m && m.owed == [line] && !line.Skip? && !line.Pause?
    ensures Safe(trace + [Logged(line, m.owedAt)]) && Mon(trace + [Logged(line, m.owedAt)]) == m.(owed := [])
  {
    SafeSnoc(trace, Logged(line, m.owedAt));
  }

  /** A Clear that fails owes one warning; with that logged, only that it was tried is new. */
  lemma SafeFailure(trace: seq<Ev>, e: Ev, m: Watch) returns (next: Watch)
    requires Safe(trace) && Mon(trace) == m && m.owed == [] && StepOk(m, e) && e.Cleared? && !e.ok && !e.cause.AtStop?
    ensures Safe(trace + [e] + [Logged(Warn, e.at)]) && Mon(trace + [e] + [Logged(Warn, e.at)]) == next
    ensures next.owed == [] && next.attempted && next.stopped == m.stopped && next.kit.over == m.kit.over
    ensures next.kit.heals == (if e.cause.AtSweep? then m.kit.heals + 1 else m.kit.heals)
    ensures next.kit.repeers == m.kit.repeers
  {
    next := WatchStep(m, e).(owed := []);
    SafeNext(trace, e, m, WatchStep(m, e));
    hide Safe, Mon;
    SafePaid(trace + [e], Warn, WatchStep(m, e));
  }

  lemma SafeRepeer(trace: seq<Ev>, at: int, m: Watch)
    requires Safe(trace) && Mon(trace) == m && m.owed == [] && m.attempted && !m.stopped && !m.kit.over
    requires m.kit.heals == m.kit.repeers + 1
    ensures
      var t := trace + [Repeered(true, at)] + [Logged(Heal(None, Plain), at)];
      Safe(t) && Mon(t).owed == []
  {
    var e := Repeered(true, at);
    SafeNext(trace, e, m, WatchStep(m, e));
    hide Safe, Mon;
    SafePaid(trace + [e], Heal(None, Plain), WatchStep(m, e));
  }

  /** The cut of op and its line. */
  lemma CutIsSafe(op: Op, groups: seq<seq<int>>, v: int) returns (m: Watch)
    requires op.victims == [v] && op.start < op.end
    ensures
      var t := [] + [Cut(op, groups, true, op.start, op.start)] + [Logged(Isolate(v), op.start)];
      Safe(t) && Mon(t) == m
    ensures m.owed == [] && m.Last() == Some(op) && !m.attempted && !m.stopped && !m.kit.over
    ensures m.kit.writing.None? && m.kit.heals == m.kit.repeers == 0
  {
    var e := Cut(op, groups, true, op.start, op.start);
    assert IsolateLines([v]) == [Isolate(v)];
    m := WatchStep(UNSTARTED, e).(owed := []);
    assert Safe([]) && Mon([]) == UNSTARTED;
    hide Safe, Mon;
    SafeNext([], e, UNSTARTED, WatchStep(UNSTARTED, e));
    SafePaid([] + [e], Isolate(v), WatchStep(UNSTARTED, e));
  }

  lemma MisreadIsSafe(op: Op, groups: seq<seq<int>>, v: int, sweep: int)
    requires op.victims == [v] && op.start < op.end <= sweep && op.holdUntil.None?
    ensures Safe(MisreadRun(op, groups, v, sweep)) && Mon(MisreadRun(op, groups, v, sweep)).owed == []
  {
    hide Safe, Mon, WatchStep;
    var t := MisreadRun(op, groups, v, sweep);
    var m1 := CutIsSafe(op, groups, v);
    var t2 := [] + [t[0]] + [t[1]];
    var m2 := SafeFailure(t2, t[2], m1);
    var t4 := t2 + [t[2]] + [t[3]];
    var m3 := SafeFailure(t4, t[4], m2);
    SafeRepeer(t4 + [t[4]] + [t[5]], sweep, m3);
    assert t == t4 + [t[4]] + [t[5]] + [t[6]] + [t[7]];
  }

  lemma MisreadIsRead(op: Op, groups: seq<seq<int>>, v: int, sweep: int)
    requires op.victims == [v]
    ensures Drove(MisreadRun(op, groups, v, sweep)) == Reading(map[v := op.start], multiset{})
    ensures Pair(MisreadRun(op, groups, v, sweep)) == Reading(map[], multiset{Isolation(v, op.start, Some(sweep))})
  {
    var t := MisreadRun(op, groups, v, sweep);
    var open := Reading(map[v := op.start], multiset{});
    assert Pair([]) == NOTHING && Drove([]) == NOTHING;
    FirstSteps(op, groups, v);
    LastSteps(op, groups, v, sweep);
    hide Pair, Drove, PairStep, DroveStep;
    var t1 := [] + [t[0]];
    var t2, t3 := t1 + [t[1]], t1 + [t[1]] + [t[2]];
    ReadNext([], t[0]);
    ReadNext(t1, t[1]);
    ReadNext(t2, t[2]);
    var t4, t5 := t3 + [t[3]], t3 + [t[3]] + [t[4]];
    ReadNext(t3, t[3]);
    ReadNext(t4, t[4]);
    var t6 := t5 + [t[5]];
    ReadNext(t5, t[5]);
    ReadNext(t6, t[6]);
    ReadNext(t6 + [t[6]], t[7]);
    assert t == t6 + [t[6]] + [t[7]];
  }

  lemma ReadNext(trace: seq<Ev>, e: Ev)
    ensures Pair(trace + [e]) == PairStep(Pair(trace), e) && Drove(trace + [e]) == DroveStep(Drove(trace), e)
  {
    Snoc(trace, e);
  }

  lemma FirstSteps(op: Op, groups: seq<seq<int>>, v: int)
    requires op.victims == [v]
    ensures
      var open := Reading(map[v := op.start], multiset{});
      var cut, line := Cut(op, groups, true, op.start, op.start), Logged(Isolate(v), op.start);
      && DroveStep(NOTHING, cut) == open && PairStep(NOTHING, cut) == NOTHING
      && DroveStep(open, line) == open && PairStep(NOTHING, line) == open
  {
    assert Isolated([v], op.start) == map[v := op.start];
    assert Closing(map[], op.start) == multiset{};
  }

  lemma LastSteps(op: Op, groups: seq<seq<int>>, v: int, sweep: int)
    ensures
      var t := MisreadRun(op, groups, v, sweep);
      var open := Reading(map[v := op.start], multiset{});
      && DroveStep(open, t[2]) == open && DroveStep(open, t[3]) == open && DroveStep(open, t[4]) == open
      && DroveStep(open, t[5]) == open && DroveStep(open, t[6]) == open && DroveStep(open, t[7]) == open
      && PairStep(open, t[2]) == open && PairStep(open, t[3]) == open && PairStep(open, t[4]) == open
      && PairStep(open, t[5]) == open && PairStep(open, t[6]) == open
      && PairStep(open, t[7]) == Reading(map[], multiset{Isolation(v, op.start, Some(sweep))})
  {
    ClosingOne(v, op.start, sweep);
    hide Closing;
  }

  lemma ClosingOne(v: int, from: int, to: int)
    ensures Closing(map[v := from], to) == multiset{Isolation(v, from, Some(to))}
  {
    var open := map[v := from];
    var ends := set u | u in open :: Isolation(u, open[u], Some(to));
    assert Isolation(v, open[v], Some(to)) in ends;
    assert ends == {Isolation(v, from, Some(to))};
  }
}
