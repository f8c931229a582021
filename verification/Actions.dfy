/**
 The driver's action list, and why a resolved schedule is safe to run serially
 (internal/migsched/schedule.go:328-451).
 */
module Actions {
  import opened Schedule
  import opened Sorting

  /** At one instant a heal comes first, then a sweep, then an isolation. */
  datatype Action = OpEnd(at: int, op: Op) | Sweep(at: int) | OpStart(at: int, op: Op) {
    function Rank(): int {
      match this
      case OpEnd(_, _) => 0
      case Sweep(_) => 1
      case OpStart(_, _) => 2
    }
    predicate Leq(b: Action) {
      at < b.at || (at == b.at && Rank() <= b.Rank())
    }
    /** An op start whose window already closed is skipped, never run zero-length. */
    predicate StaleAt(now: int) {
      OpStart? && op.end <= now
    }
  }

  /** An op's own pair of actions. */
  function OwnActions(o: Op): seq<Action> {
    if o.Admitted() then [OpStart(o.start, o), OpEnd(o.end, o)] else []
  }

  /** The actions of the admitted ops, in op order; refused ops do not appear. */
  function OpActions(ops: seq<Op>): seq<Action> {
    if ops == [] then []
    else
      var o := ops[|ops| - 1];
      OpActions(ops[..|ops| - 1]) + OwnActions(o)
  }

  function SweepActions(sweeps: seq<int>): (r: seq<Action>)
    ensures |r| == |sweeps| && forall i :: 0 <= i < |r| ==> r[i] == Action.Sweep(sweeps[i])
  {
    seq(|sweeps|, i requires 0 <= i < |sweeps| => Action.Sweep(sweeps[i]))
  }

  ghost predicate Ordered(acts: seq<Action>) {
    forall i, j :: 0 <= i < j < |acts| ==> acts[i].Leq(acts[j])
  }

  predicate Earlier(a: Action, b: Action) {
    a.Leq(b)
  }

  function SortActions(acts: seq<Action>): seq<Action> {
    Sort(Earlier, acts)
  }

  lemma SortedActions(acts: seq<Action>)
    ensures Ordered(SortActions(acts)) && multiset(SortActions(acts)) == multiset(acts)
  {
    Sorts(Earlier, acts);
    var out := SortActions(acts);
    forall i, j | 0 <= i < j < |out|
      ensures out[i].Leq(out[j])
    {
      assert Earlier(out[i], out[j]);
    }
  }

  /** The whole schedule as one list. */
  function Flat(s: Schedule): seq<Action> {
    OpActions(s.ops) + SweepActions(s.failsafes)
  }

  method ActionsOf(s: Schedule) returns (out: seq<Action>)
    ensures out == SortActions(Flat(s))
    ensures Ordered(out) && multiset(out) == multiset(Flat(s))
  {
    out := [];
    for i := 0 to |s.ops|
      invariant out == OpActions(s.ops[..i])
    {
      assert s.ops[..i + 1][..i] == s.ops[..i];
      var o := s.ops[i];
      if o.Admitted() {
        out := out + [OpStart(o.start, o), OpEnd(o.end, o)];
      }
    }
    assert s.ops[..|s.ops|] == s.ops;
    for i := 0 to |s.failsafes|
      invariant out == OpActions(s.ops) + SweepActions(s.failsafes[..i])
    {
      assert SweepActions(s.failsafes[..i + 1]) == SweepActions(s.failsafes[..i]) + [Action.Sweep(s.failsafes[i])];
      out := out + [Action.Sweep(s.failsafes[i])];
    }
    assert s.failsafes[..|s.failsafes|] == s.failsafes;
    SortedActions(out);
    out := SortActions(out);
  }

  // ---- Schedules that are safe to run serially ----

  /** Ops are told apart by name, run forwards, do not overlap, and no sweep falls inside one. */
  ghost predicate Serial(s: Schedule) {
    && (forall i, j :: 0 <= i < j < |s.ops| ==> s.ops[i].name != s.ops[j].name)
    && (forall i :: 0 <= i < |s.ops| && s.ops[i].Admitted() ==> s.ops[i].start < s.ops[i].end <= s.ops[i].Latest())
    && (forall i, j :: 0 <= i < j < |s.ops| && s.ops[i].Admitted() && s.ops[j].Admitted() ==>
          s.ops[i].Latest() <= s.ops[j].start)
    && FailsafesOk(s.ops, s.failsafes)
  }

  predicate ActionOf(a: Action, o: Op) {
    o.Admitted() && (a == OpStart(o.start, o) || a == OpEnd(o.end, o))
  }

  lemma {:induction false} OpActionsAre(ops: seq<Op>, a: Action)
    ensures a in OpActions(ops) <==> exists i :: 0 <= i < |ops| && ActionOf(a, ops[i])
  {
    if ops != [] {
      var rest, o := ops[..|ops| - 1], ops[|ops| - 1];
      OpActionsAre(rest, a);
      if a in OpActions(rest) {
        var i :| 0 <= i < |rest| && ActionOf(a, rest[i]);
        assert ops[i] == rest[i];
      }
      if i :| 0 <= i < |ops| && ActionOf(a, ops[i]) {
        if i < |rest| {
          assert rest[i] == ops[i];
        }
      }
    }
  }

  /** With distinct names no op's start or end appears twice. */
  lemma {:induction false} OpActionsOnce(ops: seq<Op>, a: Action)
    requires forall i, j :: 0 <= i < j < |ops| ==> ops[i].name != ops[j].name
    ensures multiset(OpActions(ops))[a] <= 1
  {
    hide OpActions, OwnActions, ActionOf;
    if ops != [] {
      var rest, o := ops[..|ops| - 1], ops[|ops| - 1];
      assert forall i, j :: 0 <= i < j < |rest| ==> rest[i] == ops[i] && rest[j] == ops[j];
      OpActionsOnce(rest, a);
      TailOnce(o, a);
      OpActionsSplit(ops, a);
      if a in OpActions(rest) {
        EarlierActions(ops, a);
      } else {
        assert a !in multiset(OpActions(rest));
      }
    } else {
      NoActions(a);
    }
  }

  lemma NoActions(a: Action)
    ensures multiset(OpActions([]))[a] == 0
  {
  }

  lemma EarlierActions(ops: seq<Op>, a: Action)
    requires forall i, j :: 0 <= i < j < |ops| ==> ops[i].name != ops[j].name
    requires ops != [] && a in OpActions(ops[..|ops| - 1])
    ensures !ActionOf(a, ops[|ops| - 1])
  {
    var rest := ops[..|ops| - 1];
    OpActionsAre(rest, a);
    hide OpActions;
    var i :| 0 <= i < |rest| && ActionOf(a, rest[i]);
    assert ops[i] == rest[i];
  }

  lemma OpActionsSplit(ops: seq<Op>, a: Action)
    requires ops != []
    ensures multiset(OpActions(ops))[a]
            == multiset(OpActions(ops[..|ops| - 1]))[a] + multiset(OwnActions(ops[|ops| - 1]))[a]
  {
    assert OpActions(ops) == OpActions(ops[..|ops| - 1]) + OwnActions(ops[|ops| - 1]);
  }

  lemma TailOnce(o: Op, a: Action)
    ensures multiset(OwnActions(o))[a] <= 1 && (!ActionOf(a, o) ==> multiset(OwnActions(o))[a] == 0)
  {
  }

  lemma FlatIs(s: Schedule, acts: seq<Action>, a: Action)
    requires multiset(acts) == multiset(Flat(s))
    ensures a in acts <==> a in OpActions(s.ops) || (a.Sweep? && a.at in s.failsafes)
  {
    assert a in acts <==> a in multiset(acts);
    assert a in Flat(s) <==> a in multiset(Flat(s));
    if a.Sweep? && a.at in s.failsafes {
      var i :| 0 <= i < |s.failsafes| && s.failsafes[i] == a.at;
      assert SweepActions(s.failsafes)[i] == a;
    }
  }

  /**
   The list holds a start and an end for each op that is not refused, and every sweep, by time; at one
   instant the ends come first, then the sweeps, then the starts.
   */
  lemma ListMeans(s: Schedule, acts: seq<Action>)
    requires Ordered(acts) && multiset(acts) == multiset(Flat(s))
    ensures forall a :: a in acts <==>
              || (exists i :: 0 <= i < |s.ops| && !s.ops[i].refused
                              && (a == OpStart(s.ops[i].start, s.ops[i]) || a == OpEnd(s.ops[i].end, s.ops[i])))
              || (a.Sweep? && a.at in s.failsafes)
    ensures forall i, j :: 0 <= i < j < |acts| ==> acts[i].at <= acts[j].at
    ensures forall i, j :: 0 <= i < j < |acts| && acts[i].at == acts[j].at ==>
              (acts[j].OpEnd? ==> acts[i].OpEnd?) && (acts[i].OpStart? ==> acts[j].OpStart?)
  {
    forall a: Action
      ensures a in acts <==>
              || (exists i :: 0 <= i < |s.ops| && ActionOf(a, s.ops[i]))
              || (a.Sweep? && a.at in s.failsafes)
    {
      FlatIs(s, acts, a);
      OpActionsAre(s.ops, a);
    }
    hide OpActions, Flat;
  }

  lemma AtMostOnce(s: Schedule, acts: seq<Action>, a: Action)
    requires Serial(s) && multiset(acts) == multiset(Flat(s)) && !a.Sweep?
    ensures multiset(acts)[a] <= 1
  {
    OpActionsOnce(s.ops, a);
    assert a !in SweepActions(s.failsafes);
    assert multiset(Flat(s)) == multiset(OpActions(s.ops)) + multiset(SweepActions(s.failsafes));
  }

  lemma Twice(acts: seq<Action>, i: nat, j: nat)
    requires i < j < |acts| && acts[i] == acts[j]
    ensures multiset(acts)[acts[i]] >= 2
  {
    assert acts == acts[..i] + [acts[i]] + acts[i + 1..j] + [acts[j]] + acts[j + 1..];
  }

  lemma OnlyOnce(s: Schedule, acts: seq<Action>, i: nat, j: nat)
    requires Serial(s) && multiset(acts) == multiset(Flat(s)) && i < j < |acts| && acts[i] == acts[j]
    ensures acts[i].Sweep?
  {
    Twice(acts, i, j);
    if !acts[i].Sweep? {
      AtMostOnce(s, acts, acts[i]);
    }
  }

  lemma OpOf(s: Schedule, acts: seq<Action>, k: nat) returns (i: nat)
    requires Serial(s) && multiset(acts) == multiset(Flat(s)) && k < |acts| && !acts[k].Sweep?
    ensures i < |s.ops| && s.ops[i].Admitted() && acts[k].op == s.ops[i]
    ensures acts[k].at == if acts[k].OpStart? then s.ops[i].start else s.ops[i].end
  {
    FlatIs(s, acts, acts[k]);
    OpActionsAre(s.ops, acts[k]);
    i :| 0 <= i < |s.ops| && ActionOf(acts[k], s.ops[i]);
  }

  lemma SweepOutside(s: Schedule, acts: seq<Action>, x: Action, i: nat)
    requires Serial(s) && multiset(acts) == multiset(Flat(s)) && x in acts && x.Sweep? && i < |s.ops|
             && s.ops[i].Admitted()
    ensures !(s.ops[i].start <= x.at < s.ops[i].Latest())
  {
    FlatIs(s, acts, x);
    OpActionsAre(s.ops, x);
    var f :| 0 <= f < |s.failsafes| && s.failsafes[f] == x.at;
    assert SweepClear(s.failsafes[f], s.ops[i]);
  }

  lemma OpsApart(s: Schedule, i: nat, j: nat)
    requires Serial(s) && i < |s.ops| && j < |s.ops| && i != j && s.ops[i].Admitted() && s.ops[j].Admitted()
    ensures s.ops[i].Latest() <= s.ops[j].start || s.ops[j].Latest() <= s.ops[i].start
    ensures s.ops[i].start < s.ops[i].end <= s.ops[i].Latest() && s.ops[j].start < s.ops[j].end <= s.ops[j].Latest()
  {
    if i < j {
      assert s.ops[i].Latest() <= s.ops[j].start;
    } else {
      assert s.ops[j].Latest() <= s.ops[i].start;
    }
  }

  /** Nothing but its end can come right after an op's start. */
  lemma NothingBetween(s: Schedule, acts: seq<Action>, k: nat, m: nat)
    requires Serial(s) && Ordered(acts) && multiset(acts) == multiset(Flat(s))
    requires k + 1 < |acts| && k < m < |acts| && acts[k].OpStart? && acts[m] == OpEnd(acts[k].op.end, acts[k].op)
    ensures acts[k + 1] == OpEnd(acts[k].op.end, acts[k].op)
  {
    var i := OpOf(s, acts, k);
    var x := acts[k + 1];
    if x.Sweep? {
      SweepOutside(s, acts, x, i);
    } else {
      var j := OpOf(s, acts, k + 1);
      if j != i {
        OpsApart(s, i, j);
      } else if x.OpStart? {
        OnlyOnce(s, acts, k, k + 1);
      }
    }
    assert acts[k].Leq(x) && (k + 1 == m || x.Leq(acts[m]));
  }

  /** In the action list of such a schedule every op's end comes immediately after its start, and every end has one. */
  lemma EndFollowsStart(s: Schedule, acts: seq<Action>)
    requires Serial(s) && Ordered(acts) && multiset(acts) == multiset(Flat(s))
    ensures forall k :: 0 <= k < |acts| && acts[k].OpStart? ==>
              k + 1 < |acts| && acts[k + 1] == OpEnd(acts[k].op.end, acts[k].op)
    ensures forall k :: 0 <= k < |acts| && acts[k].OpEnd? ==>
              k > 0 && acts[k - 1] == OpStart(acts[k].op.start, acts[k].op)
  {
    forall k | 0 <= k < |acts| && acts[k].OpStart?
      ensures k + 1 < |acts| && acts[k + 1] == OpEnd(acts[k].op.end, acts[k].op)
    {
      var m := Partner(s, acts, k);
      NothingBetween(s, acts, k, m);
    }
    forall k | 0 <= k < |acts| && acts[k].OpEnd?
      ensures k > 0 && acts[k - 1] == OpStart(acts[k].op.start, acts[k].op)
    {
      var m := Partner(s, acts, k);
      NothingBetween(s, acts, m, k);
      if m + 1 < k {
        OnlyOnce(s, acts, m + 1, k);
      }
    }
  }

  /** Where the other half of an op's pair of actions stands. */
  lemma Partner(s: Schedule, acts: seq<Action>, k: nat) returns (m: nat)
    requires Serial(s) && Ordered(acts) && multiset(acts) == multiset(Flat(s)) && k < |acts| && !acts[k].Sweep?
    ensures m < |acts| && acts[k].at == (if acts[k].OpStart? then acts[k].op.start else acts[k].op.end)
    ensures acts[k].OpStart? ==> k < m && acts[m] == OpEnd(acts[k].op.end, acts[k].op)
    ensures acts[k].OpEnd? ==> m < k && acts[m] == OpStart(acts[k].op.start, acts[k].op)
  {
    var i := OpOf(s, acts, k);
    var o := s.ops[i];
    var other := if acts[k].OpStart? then OpEnd(o.end, o) else OpStart(o.start, o);
    OpActionsAre(s.ops, other);
    FlatIs(s, acts, other);
    m :| 0 <= m < |acts| && acts[m] == other;
  }
}
