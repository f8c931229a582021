/**
 The partition schedule of internal/migsched/schedule.go: resolving a profile against a genesis
 and a fork, the failsafe sweeps, and the driver's action list. Times are whole unix seconds;
 an op's name is its position in the profile, its refusal a flag.
 */
module Schedule {
  import opened Options
  import opened Sorting

  datatype Class = Deep | Short | Straddle | Window

  datatype Anchor = FromGenesis | FromFork

  datatype Span = Span(start: int, end: int, anchor: Anchor, kind: Class)

  datatype Profile = Profile(windows: seq<Span>, preForkMargin: int)

  const COMPOSITE := Profile([
    Span(240, 430, FromGenesis, Deep),
    Span(540, 730, FromGenesis, Deep),
    Span(790, 940, FromGenesis, Short),
    Span(-120, 60, FromFork, Straddle),
    Span(300, 450, FromFork, Window)], 390)

  const COMPOSITE_SMOKE := Profile([
    Span(220, 370, FromGenesis, Short),
    Span(-120, 60, FromFork, Straddle)], 390)

  const STRADDLE_MIN_SIDE := 60
  const STRADDLE_MAX_HOLD := 120
  const STRADDLE_MAX_AFTER := 180
  const STRADDLE_MARGIN := 0.05
  const STRADDLE_MAX_DROP := 24.0
  const HEAL_CONVERGE_ALLOWANCE := 120
  const QUIET_TAIL := 120
  const FAILSAFE_REPEAT := 60
  const WINDOW_OPEN_AFTER := 300
  const WINDOW_CLOSE_BY := 480
  const WINDOW_MIN_LEN := 60
  const WINDOW_MAX_LEN := 180

  datatype Op = Op(name: nat, kind: Class, start: int, end: int, victims: seq<int>, mutual: bool, refused: bool,
                   holdUntil: Option<int>) {
    /** The instant the op is certainly healed. */
    function Latest(): int {
      if holdUntil.Some? then holdUntil.value else end
    }
    predicate Admitted() {
      !refused
    }
  }

  datatype Schedule = Schedule(ops: seq<Op>, failsafes: seq<int>, quiet: int, slotSeconds: int)

  datatype Topology = Topology(anchor: int, lights: seq<int>, participants: int, anchorShare: real, secondsPerSlot: int)

  datatype Error =
    | NoAnchor | NoLights | AnchorIsALight | TooFewParticipants | BadSlot
    | SecondStraddle | NotAdmitted(op: nat) | SweepInside

  datatype Result = Ok(schedule: Schedule) | Err(error: Error)

  /** A participant's stake; the non-anchor remainder splits evenly. */
  function Share(t: Topology, participant: int): real
    requires t.participants > 1
  {
    if participant == t.anchor then t.anchorShare else (1.0 - t.anchorShare) / (t.participants - 1) as real
  }

  /** Everyone but the anchor and the protected, in order. */
  method Lights(participants: int, anchor: int, protect: set<int>) returns (out: seq<int>)
    ensures forall p :: p in out <==> 1 <= p <= participants && p != anchor && p !in protect
    ensures forall i, j :: 0 <= i < j < |out| ==> out[i] < out[j]
  {
    out := [];
    var i := 1;
    while i <= participants
      invariant 1 <= i
      invariant if participants < 1 then i == 1 else i <= participants + 1
      invariant forall p :: p in out <==> 1 <= p < i && p != anchor && p !in protect
      invariant forall j, k :: 0 <= j < k < |out| ==> out[j] < out[k]
    {
      if i != anchor && i !in protect {
        assert forall j :: 0 <= j < |out| ==> out[j] in out;
        out := out + [i];
      }
      i := i + 1;
    }
  }

  // ---- Admission ----

  function ShareOf(t: Topology, victims: seq<int>): real
    requires t.participants > 1
  {
    if victims == [] then 0.0 else ShareOf(t, victims[..|victims| - 1]) + Share(t, victims[|victims| - 1])
  }

  /** The island stalls finality without being able to win the heal: its stake is strictly between 1/3 and 1/2. */
  method AdmitDeep(o: Op, t: Topology) returns (ok: bool)
    requires t.participants > 1
    ensures ok <==> 1.0 / 3.0 < ShareOf(t, o.victims) < 0.5
  {
    var share := 0.0;
    for i := 0 to |o.victims|
      invariant share == ShareOf(t, o.victims[..i])
    {
      assert o.victims[..i + 1][..i] == o.victims[..i];
      share := share + Share(t, o.victims[i]);
    }
    assert o.victims[..|o.victims|] == o.victims;
    ok := !(share <= 1.0 / 3.0 || share >= 0.5);
  }

  /** The heaviest single stake among the victims. */
  function Heaviest(t: Topology, victims: seq<int>): (worst: real)
    requires t.participants > 1
    ensures forall v :: v in victims ==> Share(t, v) <= worst
    ensures worst == 0.0 || exists v :: v in victims && Share(t, v) == worst
  {
    if victims == [] then 0.0
    else
      var rest, last := Heaviest(t, victims[..|victims| - 1]), victims[|victims| - 1];
      assert forall v :: v in victims ==> v in victims[..|victims| - 1] || v == last;
      assert last in victims;
      if Share(t, last) > rest then Share(t, last) else rest
  }

  /**
   What a straddle must meet: every island loses to the anchor, no side finalizes alone, and the drop stays
   bounded.
   */
  predicate StraddleFits(o: Op, fork: int, t: Topology)
    requires t.participants > 1 && t.secondsPerSlot > 0
  {
    && o.mutual && o.victims != []
    && Share(t, t.anchor) < 2.0 / 3.0
    && Share(t, t.anchor) >= Heaviest(t, o.victims) + STRADDLE_MARGIN
    && fork - o.start >= STRADDLE_MIN_SIDE && o.end - fork >= STRADDLE_MIN_SIDE
    && o.Latest() - fork <= STRADDLE_MAX_AFTER
    && ((o.Latest() - o.start) / t.secondsPerSlot) as real * Heaviest(t, o.victims) <= STRADDLE_MAX_DROP
  }

  method HeaviestOf(t: Topology, victims: seq<int>) returns (worst: real)
    requires t.participants > 1
    ensures worst == Heaviest(t, victims)
  {
    worst := 0.0;
    for i := 0 to |victims|
      invariant worst == Heaviest(t, victims[..i])
    {
      assert victims[..i + 1][..i] == victims[..i];
      var s := Share(t, victims[i]);
      if s > worst {
        worst := s;
      }
    }
    assert victims[..|victims|] == victims;
  }

  method AdmitStraddle(o: Op, fork: int, t: Topology) returns (ok: bool)
    requires t.participants > 1 && t.secondsPerSlot > 0
    ensures ok <==> StraddleFits(o, fork, t)
  {
    hide Heaviest, Share;
    if !o.mutual || |o.victims| == 0 {
      return false;
    }
    var anchor := Share(t, t.anchor);
    if anchor >= 2.0 / 3.0 {
      return false;
    }
    var worst := HeaviestOf(t, o.victims);
    if anchor < worst + STRADDLE_MARGIN {
      return false;
    }
    if fork - o.start < STRADDLE_MIN_SIDE || o.end - fork < STRADDLE_MIN_SIDE {
      return false;
    }
    if o.Latest() - fork > STRADDLE_MAX_AFTER {
      return false;
    }
    var slots := (o.Latest() - o.start) / t.secondsPerSlot;
    var drop := slots as real * worst;
    return !(drop > STRADDLE_MAX_DROP);
  }

  predicate AdmitWindow(o: Op, fork: int, t: Topology) {
    && |o.victims| == 1 && o.victims[0] != t.anchor
    && WINDOW_MIN_LEN <= o.end - o.start <= WINDOW_MAX_LEN
    && o.start >= fork + WINDOW_OPEN_AFTER
    && o.end <= fork + WINDOW_CLOSE_BY
  }

  /** All the stakes add up, the anchor's is its own, and the others' are alike. */
  lemma SharesAddUp(t: Topology, all: seq<int>)
    requires 1 <= t.anchor <= t.participants && t.participants > 1
    requires |all| == t.participants && forall i :: 0 <= i < |all| ==> all[i] == i + 1
    ensures ShareOf(t, all) == 1.0 && Share(t, t.anchor) == t.anchorShare
    ensures forall p, q :: p != t.anchor && q != t.anchor ==> Share(t, p) == Share(t, q)
  {
    var each := (1.0 - t.anchorShare) / (t.participants - 1) as real;
    SharesSoFar(t, all, |all|, each);
    assert all[..|all|] == all;
    assert each * (t.participants - 1) as real == 1.0 - t.anchorShare;
  }

  lemma {:induction false} SharesSoFar(t: Topology, all: seq<int>, n: nat, each: real)
    requires t.participants > 1 && each == (1.0 - t.anchorShare) / (t.participants - 1) as real && t.anchor >= 1
    requires n <= |all| && forall i :: 0 <= i < |all| ==> all[i] == i + 1
    ensures ShareOf(t, all[..n])
            == if t.anchor <= n then t.anchorShare + (n - 1) as real * each else n as real * each
  {
    if n > 0 {
      SharesSoFar(t, all, n - 1, each);
      assert all[..n][..n - 1] == all[..n - 1];
    } else {
      assert all[..n] == [] && ShareOf(t, []) == 0.0;
      assert 0 as real * each == 0.0;
    }
  }

  /**
   A window op is admitted on one victim other than the anchor, for one to three minutes, in the calm after the
   fork.
   */
  lemma WindowsFit(o: Op, fork: int, t: Topology)
    ensures AdmitWindow(o, fork, t) <==>
              && (exists v :: v != t.anchor && o.victims == [v])
              && o.start + 60 <= o.end <= o.start + 180 && fork + 300 <= o.start && o.end <= fork + 480
  {
    if AdmitWindow(o, fork, t) {
      assert o.victims == [o.victims[0]];
    }
  }

  /**
   A straddle's islands all weigh the same: none is the anchor, each loses to it by the margin, the anchor has
   less than two thirds, every side has a minute on either side of the fork, the split ends within three minutes
   of it, and the slots it lasts cost an island at most 24 blocks of its own.
   */
  lemma StraddlesFit(o: Op, fork: int, t: Topology)
    requires t.participants > 1 && t.secondsPerSlot > 0
    ensures
      var each := (1.0 - t.anchorShare) / (t.participants - 1) as real;
      StraddleFits(o, fork, t) <==>
        && o.mutual && o.victims != [] && t.anchor !in o.victims
        && t.anchorShare < 2.0 / 3.0 && each + 0.05 <= t.anchorShare
        && o.start + 60 <= fork <= o.end - 60 && o.Latest() <= fork + 180
        && ((o.Latest() - o.start) / t.secondsPerSlot) as real * each <= 24.0
  {
    var each := (1.0 - t.anchorShare) / (t.participants - 1) as real;
    if t.anchorShare < 2.0 / 3.0 && o.victims != [] && t.anchor !in o.victims {
      assert each > 0.0;
      assert o.victims[0] in o.victims && Share(t, o.victims[0]) == each;
      assert Heaviest(t, o.victims) == each;
    }
    hide Heaviest;
  }

  // ---- Resolution ----

  function CountKind(ws: seq<Span>, kinds: set<Class>): nat {
    if ws == [] then 0
    else CountKind(ws[..|ws| - 1], kinds) + (if ws[|ws| - 1].kind in kinds then 1 else 0)
  }

  /** The victims of window i: deep pairs cycle through the lights, single ops rotate, a straddle takes them all. */
  function VictimsAt(p: Profile, lights: seq<int>, i: nat): seq<int>
    requires i < |p.windows| && lights != []
  {
    var n := |lights|;
    match p.windows[i].kind
    case Deep =>
      var pairs := CountKind(p.windows[..i], {Deep});
      [lights[pairs % n], lights[(pairs + 1) % n]]
    case Straddle => lights
    case _ => [lights[CountKind(p.windows[..i], {Short, Window}) % n]]
  }

  /** Window i of a profile as an op: a pre-fork op that ends past the heal deadline is refused, never compressed. */
  function OpAt(p: Profile, genesis: int, fork: int, lights: seq<int>, i: nat): Op
    requires i < |p.windows| && lights != []
  {
    var w := p.windows[i];
    var base := if w.anchor == FromFork then fork else genesis;
    Op(i + 1, w.kind, base + w.start, base + w.end, VictimsAt(p, lights, i), w.kind == Straddle,
       (w.kind == Deep || w.kind == Short) && base + w.end > fork - p.preForkMargin,
       if w.kind == Straddle then Some(base + w.end + STRADDLE_MAX_HOLD) else None)
  }

  /**
   Its times count from genesis or from the fork; it is refused exactly if it is a pre-fork op ending less than the
   margin before the fork; a straddle, and only that, is mutual and may be held two minutes longer.
   */
  lemma OpMeans(p: Profile, genesis: int, fork: int, lights: seq<int>, i: nat)
    requires i < |p.windows| && lights != []
    ensures
      var w, o := p.windows[i], OpAt(p, genesis, fork, lights, i);
      && o.kind == w.kind
      && (w.anchor == FromGenesis ==> o.start - w.start == genesis && o.end - w.end == genesis)
      && (w.anchor == FromFork ==> o.start - w.start == fork && o.end - w.end == fork)
      && (!o.Admitted() <==> w.kind in {Deep, Short} && fork - o.end < p.preForkMargin)
      && (w.kind == Straddle ==> o.mutual && o.Latest() == o.end + 120 && o.victims == lights)
      && (w.kind != Straddle ==> !o.mutual && o.Latest() == o.end && o.holdUntil.None?)
  {
    hide CountKind;
  }

  predicate TopologyOk(t: Topology) {
    && t.anchor > 0 && t.lights != [] && t.anchor !in t.lights
    && t.participants >= |t.lights| + 1 && t.secondsPerSlot > 0
  }

  predicate Admits(o: Op, fork: int, t: Topology)
    requires TopologyOk(t)
  {
    match o.kind
    case Deep => |t.lights| >= 2 && 1.0 / 3.0 < ShareOf(t, o.victims) < 0.5
    case Straddle => StraddleFits(o, fork, t)
    case Window => AdmitWindow(o, fork, t)
    case Short => true
  }

  /** A sweep inside an admitted op would heal it early; one at its end is legal. */
  predicate SweepClear(f: int, o: Op) {
    o.Admitted() ==> !(o.start <= f < o.Latest())
  }

  predicate FailsafesOk(ops: seq<Op>, sweeps: seq<int>) {
    forall f, i :: 0 <= f < |sweeps| && 0 <= i < |ops| ==> SweepClear(sweeps[f], ops[i])
  }

  /** The sweeps an op asks for on its own account. */
  function OwnSweeps(o: Op): seq<int> {
    match o.kind
    case Straddle => [o.Latest(), o.Latest() + FAILSAFE_REPEAT]
    case Window => [o.end + FAILSAFE_REPEAT]
    case _ => []
  }

  function AllOwnSweeps(ops: seq<Op>): seq<int> {
    if ops == [] then [] else AllOwnSweeps(ops[..|ops| - 1]) + OwnSweeps(ops[|ops| - 1])
  }

  /** The end of the last admitted pre-fork op. */
  function LastPre(ops: seq<Op>): Option<int> {
    if ops == [] then None
    else
      var before, o := LastPre(ops[..|ops| - 1]), ops[|ops| - 1];
      if (o.kind == Deep || o.kind == Short) && o.Admitted() && (before.None? || o.end > before.value) then Some(o.end)
      else before
  }

  function QuietFrom(ops: seq<Op>, deadline: int): int {
    if ops == [] then deadline
    else
      var before, o := QuietFrom(ops[..|ops| - 1], deadline), ops[|ops| - 1];
      if (o.kind == Straddle || o.kind == Window) && o.Latest() + QUIET_TAIL > before then o.Latest() + QUIET_TAIL
      else before
  }

  /** Every sweep: the ops' own, the last pre-fork heal if before the deadline, and the deadline. */
  function Sweeps(ops: seq<Op>, deadline: int): seq<int> {
    AllOwnSweeps(ops)
    + (match LastPre(ops) case Some(e) => if e < deadline then [e] else [] case None => [])
    + [deadline]
  }

  /**
   When a sweep comes, and when quiet begins: at the deadline; at a straddle's latest heal and a minute
   later; a minute after a window op's end; and at the last end of an admitted pre-fork op, if that is
   before the deadline. Quiet is from the deadline on, or from two minutes after a later heal.
   */
  ghost predicate SweptAt(ops: seq<Op>, deadline: int, sweeps: seq<int>, quiet: int) {
    && (forall f :: f in sweeps <==>
          || f == deadline
          || (exists i ::
                0 <= i < |ops| && ops[i].kind == Straddle && (f == ops[i].Latest() || f == ops[i].Latest() + 60))
          || (exists i :: 0 <= i < |ops| && ops[i].kind == Window && f == ops[i].end + 60)
          || (f < deadline && LastEnd(ops, f)))
    && quiet >= deadline
    && (forall i :: 0 <= i < |ops| && ops[i].kind in {Straddle, Window} ==> quiet >= ops[i].Latest() + 120)
    && (quiet == deadline
        || exists i :: 0 <= i < |ops| && ops[i].kind in {Straddle, Window} && quiet == ops[i].Latest() + 120)
  }

  /** f is the greatest end of an admitted pre-fork op. */
  ghost predicate LastEnd(ops: seq<Op>, f: int) {
    && (exists i :: 0 <= i < |ops| && ops[i].kind in {Deep, Short} && !ops[i].refused && ops[i].end == f)
    && forall i :: 0 <= i < |ops| && ops[i].kind in {Deep, Short} && !ops[i].refused ==> ops[i].end <= f
  }

  lemma {:induction false} LastPreMeans(ops: seq<Op>, f: int)
    ensures LastPre(ops) == Some(f) <==> LastEnd(ops, f)
  {
    if ops != [] {
      var rest, o := ops[..|ops| - 1], ops[|ops| - 1];
      LastPreMeans(rest, f);
      LastPreMeans(rest, o.end);
      assert forall i :: 0 <= i < |rest| ==> ops[i] == rest[i];
      if LastPre(rest).Some? {
        LastPreMeans(rest, LastPre(rest).value);
      } else {
        NoLastPre(rest);
      }
      LastEndNext(rest, o, f);
      assert ops == rest + [o];
    }
  }

  lemma {:induction false} NoLastPre(ops: seq<Op>)
    requires LastPre(ops).None?
    ensures forall i :: 0 <= i < |ops| ==> !(ops[i].kind in {Deep, Short} && !ops[i].refused)
  {
    if ops != [] {
      NoLastPre(ops[..|ops| - 1]);
      assert forall i :: 0 <= i < |ops| - 1 ==> ops[i] == ops[..|ops| - 1][i];
    }
  }

  lemma LastEndNext(rest: seq<Op>, o: Op, f: int)
    ensures
      var pre := o.kind in {Deep, Short} && !o.refused;
      LastEnd(rest + [o], f)
      <==> if !pre then LastEnd(rest, f)
           else (f == o.end && forall i :: 0 <= i < |rest| && rest[i].kind in {Deep, Short} && !rest[i].refused ==>
                                 rest[i].end <= f)
                || (o.end <= f && LastEnd(rest, f))
  {
    var ops := rest + [o];
    assert ops[|rest|] == o && forall i :: 0 <= i < |rest| ==> ops[i] == rest[i];
  }

  lemma {:induction false} OwnSweepsMean(ops: seq<Op>, f: int)
    ensures f in AllOwnSweeps(ops) <==>
            || (exists i ::
                  0 <= i < |ops| && ops[i].kind == Straddle && (f == ops[i].Latest() || f == ops[i].Latest() + 60))
            || (exists i :: 0 <= i < |ops| && ops[i].kind == Window && f == ops[i].end + 60)
  {
    if ops != [] {
      var rest, o := ops[..|ops| - 1], ops[|ops| - 1];
      OwnSweepsMean(rest, f);
      assert forall i :: 0 <= i < |rest| ==> ops[i] == rest[i];
      assert f in AllOwnSweeps(ops) <==> f in AllOwnSweeps(rest) || f in OwnSweeps(o);
      assert f in OwnSweeps(o) ==> ops[|rest|] == o;
    }
  }

  lemma {:induction false} QuietMeans(ops: seq<Op>, deadline: int)
    ensures
      var quiet := QuietFrom(ops, deadline);
      && quiet >= deadline
      && (forall i :: 0 <= i < |ops| && ops[i].kind in {Straddle, Window} ==> quiet >= ops[i].Latest() + 120)
      && (quiet == deadline
          || exists i :: 0 <= i < |ops| && ops[i].kind in {Straddle, Window} && quiet == ops[i].Latest() + 120)
  {
    if ops != [] {
      var rest, o := ops[..|ops| - 1], ops[|ops| - 1];
      QuietMeans(rest, deadline);
      assert forall i :: 0 <= i < |rest| ==> ops[i] == rest[i];
      assert ops[|rest|] == o;
    }
  }

  lemma SweepsMean(ops: seq<Op>, deadline: int, sweeps: seq<int>, quiet: int)
    requires multiset(sweeps) == multiset(Sweeps(ops, deadline)) && quiet == QuietFrom(ops, deadline)
    ensures SweptAt(ops, deadline, sweeps, quiet)
  {
    QuietMeans(ops, deadline);
    forall f
      ensures f in sweeps <==>
              || f == deadline
              || (exists i :: 0 <= i < |ops| && ops[i].kind == Straddle
                              && (f == ops[i].Latest() || f == ops[i].Latest() + 60))
              || (exists i :: 0 <= i < |ops| && ops[i].kind == Window && f == ops[i].end + 60)
              || (f < deadline && LastEnd(ops, f))
    {
      SweepsAre(ops, deadline, sweeps, f);
      LastPreMeans(ops, f);
      OwnSweepsMean(ops, f);
      hide AllOwnSweeps, LastPre, LastEnd, Sweeps, QuietFrom;
    }
    hide AllOwnSweeps, LastPre, LastEnd, Sweeps, QuietFrom;
  }

  lemma SweepsAre(ops: seq<Op>, deadline: int, sweeps: seq<int>, f: int)
    requires multiset(sweeps) == multiset(Sweeps(ops, deadline))
    ensures f in sweeps <==> f == deadline || f in AllOwnSweeps(ops) || (f < deadline && LastPre(ops) == Some(f))
  {
    hide AllOwnSweeps, LastPre;
    assert f in sweeps <==> f in multiset(sweeps);
    assert f in Sweeps(ops, deadline) <==> f in multiset(Sweeps(ops, deadline));
  }

  predicate Ascending(s: seq<int>) {
    forall i, j :: 0 <= i < j < |s| ==> s[i] <= s[j]
  }

  predicate AtMost(x: int, y: int) {
    x <= y
  }

  function SortInts(s: seq<int>): seq<int> {
    Sort(AtMost, s)
  }

  lemma SortedInts(s: seq<int>)
    ensures Ascending(SortInts(s)) && multiset(SortInts(s)) == multiset(s)
  {
    Sorts(AtMost, s);
    var out := SortInts(s);
    forall i, j | 0 <= i < j < |out|
      ensures out[i] <= out[j]
    {
      assert AtMost(out[i], out[j]);
    }
  }

  lemma SweepsNone(deadline: int)
    ensures AllOwnSweeps([]) == [] && QuietFrom([], deadline) == deadline && LastPre([]) == None
  {
  }

  lemma SweepsNext(ops: seq<Op>, i: nat, deadline: int)
    requires i < |ops|
    ensures
      var o, q, l := ops[i], QuietFrom(ops[..i], deadline), LastPre(ops[..i]);
      && AllOwnSweeps(ops[..i + 1]) == (match o.kind
                                        case Straddle => AllOwnSweeps(ops[..i])
                                                         + [o.Latest(), o.Latest() + FAILSAFE_REPEAT]
                                        case Window => AllOwnSweeps(ops[..i]) + [o.end + FAILSAFE_REPEAT]
                                        case _ => AllOwnSweeps(ops[..i]))
      && QuietFrom(ops[..i + 1], deadline)
         == (if (o.kind == Straddle || o.kind == Window) && o.Latest() + QUIET_TAIL > q then o.Latest() + QUIET_TAIL
             else q)
      && LastPre(ops[..i + 1])
         == (if (o.kind == Deep || o.kind == Short) && o.Admitted() && (l.None? || o.end > l.value) then Some(o.end)
             else l)
  {
    assert ops[..i + 1][..i] == ops[..i];
  }

  method Failsafes(ops: seq<Op>, deadline: int) returns (out: seq<int>, quiet: int)
    ensures Ascending(out) && multiset(out) == multiset(Sweeps(ops, deadline))
    ensures quiet == QuietFrom(ops, deadline)
    ensures SweptAt(ops, deadline, out, quiet)
  {
    hide SweptAt, SortInts, Ascending, AllOwnSweeps, QuietFrom, LastPre;
    out := [];
    quiet := deadline;
    var lastPre: Option<int> := None;
    assert ops[..0] == [];
    SweepsNone(deadline);
    for i := 0 to |ops|
      invariant out == AllOwnSweeps(ops[..i]) && quiet == QuietFrom(ops[..i], deadline) && lastPre == LastPre(ops[..i])
    {
      var o := ops[i];
      SweepsNext(ops, i, deadline);
      if o.kind == Straddle {
        out := out + [o.Latest(), o.Latest() + FAILSAFE_REPEAT];
      } else if o.kind == Window {
        out := out + [o.end + FAILSAFE_REPEAT];
      } else if o.Admitted() && (lastPre.None? || o.end > lastPre.value) {
        lastPre := Some(o.end);
      }
      if (o.kind == Straddle || o.kind == Window) && o.Latest() + QUIET_TAIL > quiet {
        quiet := o.Latest() + QUIET_TAIL;
      }
    }
    assert ops[..|ops|] == ops;
    if lastPre.Some? && lastPre.value < deadline {
      out := out + [lastPre.value];
    }
    out := out + [deadline];
    SortedInts(out);
    out := SortInts(out);
    SweepsMean(ops, deadline, out, quiet);
  }

  method CheckFailsafes(ops: seq<Op>, sweeps: seq<int>) returns (ok: bool)
    ensures ok <==> FailsafesOk(ops, sweeps)
  {
    for i := 0 to |sweeps|
      invariant forall f, k :: 0 <= f < i && 0 <= k < |ops| ==> SweepClear(sweeps[f], ops[k])
    {
      for j := 0 to |ops|
        invariant forall k :: 0 <= k < j ==> SweepClear(sweeps[i], ops[k])
      {
        if ops[j].Admitted() && sweeps[i] >= ops[j].start && sweeps[i] < ops[j].Latest() {
          assert !SweepClear(sweeps[i], ops[j]);
          return false;
        }
      }
    }
    ok := true;
  }

  ghost predicate Resolved(p: Profile, genesis: int, fork: int, t: Topology, s: Schedule)
    requires t.lights != []
  {
    && |s.ops| == |p.windows| && (forall i :: 0 <= i < |s.ops| ==> s.ops[i] == OpAt(p, genesis, fork, t.lights, i))
    && Ascending(s.failsafes) && multiset(s.failsafes) == multiset(Sweeps(s.ops, fork - p.preForkMargin))
    && s.quiet == QuietFrom(s.ops, fork - p.preForkMargin)
    && s.slotSeconds == t.secondsPerSlot
  }

  ghost predicate Acceptable(p: Profile, genesis: int, fork: int, t: Topology) {
    && TopologyOk(t)
    && (forall i :: 0 <= i < |p.windows| ==> Admits(OpAt(p, genesis, fork, t.lights, i), fork, t))
    && CountKind(p.windows, {Straddle}) <= 1
  }

  /** Window i as an op, with what its kind demands of it; the counters are of the windows before. */
  method ResolveWindow(p: Profile, genesis: int, fork: int, t: Topology, i: nat, rotation: nat, pairs: nat)
    returns (o: Op, admitted: bool)
    requires TopologyOk(t) && i < |p.windows|
    requires rotation == CountKind(p.windows[..i], {Short, Window}) && pairs == CountKind(p.windows[..i], {Deep})
    ensures o == OpAt(p, genesis, fork, t.lights, i)
    ensures admitted <==> Admits(OpAt(p, genesis, fork, t.lights, i), fork, t)
  {
    hide StraddleFits, Heaviest, ShareOf;
    var w := p.windows[i];
    var n := |t.lights|;
    var base := if w.anchor == FromFork then fork else genesis;
    o := Op(i + 1, w.kind, base + w.start, base + w.end, [], false, false, None);
    admitted := true;
    match w.kind {
      case Deep =>
        o := o.(victims := [t.lights[pairs % n], t.lights[(pairs + 1) % n]]);
        admitted := AdmitDeep(o, t);
        admitted := admitted && n >= 2;
      case Straddle =>
        o := o.(victims := t.lights, mutual := true, holdUntil := Some(o.end + STRADDLE_MAX_HOLD));
        admitted := AdmitStraddle(o, fork, t);
      case Window =>
        o := o.(victims := [t.lights[rotation % n]]);
        admitted := AdmitWindow(o, fork, t);
      case Short =>
        o := o.(victims := [t.lights[rotation % n]]);
    }
    if (w.kind == Deep || w.kind == Short) && o.end > fork - p.preForkMargin {
      o := o.(refused := true);
    }
  }

  /**
   Resolves a profile; it fails exactly when the topology or an op is not admissible or a sweep falls inside an
   op.
   */
  method Resolve(p: Profile, genesis: int, fork: int, t: Topology) returns (r: Result)
    ensures r.Ok? ==> Acceptable(p, genesis, fork, t) && Resolved(p, genesis, fork, t, r.schedule)
                      && FailsafesOk(r.schedule.ops, r.schedule.failsafes)
                      && SweptAt(r.schedule.ops, fork - p.preForkMargin, r.schedule.failsafes, r.schedule.quiet)
    ensures r.Err? && r.error != SweepInside ==> !Acceptable(p, genesis, fork, t)
    ensures r.Err? && r.error == SweepInside ==>
              TopologyOk(t) && exists s :: Resolved(p, genesis, fork, t, s) && !FailsafesOk(s.ops, s.failsafes)
  {
    hide Admits, CountKind, QuietFrom, Sweeps, OpAt, FailsafesOk, Ascending, SweptAt;
    if t.anchor <= 0 { return Err(NoAnchor); }
    if |t.lights| == 0 { return Err(NoLights); }
    if t.anchor in t.lights { return Err(AnchorIsALight); }
    if t.participants < |t.lights| + 1 { return Err(TooFewParticipants); }
    if t.secondsPerSlot <= 0 { return Err(BadSlot); }
    var ops: seq<Op> := [];
    var rotation, pairs, straddles := 0, 0, 0;
    CountNothing(p.windows);
    for i := 0 to |p.windows|
      invariant |ops| == i && forall k :: 0 <= k < i ==> ops[k] == OpAt(p, genesis, fork, t.lights, k)
      invariant forall k :: 0 <= k < i ==> Admits(OpAt(p, genesis, fork, t.lights, k), fork, t)
      invariant rotation == CountKind(p.windows[..i], {Short, Window}) && pairs == CountKind(p.windows[..i], {Deep})
      invariant straddles == CountKind(p.windows[..i], {Straddle}) <= 1
    {
      var w := p.windows[i];
      CountSnoc(p.windows, i, {Straddle});
      CountSnoc(p.windows, i, {Deep});
      CountSnoc(p.windows, i, {Short, Window});
      if w.kind == Straddle {
        straddles := straddles + 1;
        if straddles > 1 {
          CountGrows(p.windows, i + 1, {Straddle});
          return Err(SecondStraddle);
        }
      }
      var o, admitted := ResolveWindow(p, genesis, fork, t, i, rotation, pairs);
      if !admitted {
        return Err(NotAdmitted(i + 1));
      }
      if w.kind == Deep {
        pairs := pairs + 1;
      } else if w.kind != Straddle {
        rotation := rotation + 1;
      }
      ops := ops + [o];
    }
    assert p.windows[..|p.windows|] == p.windows;
    var failsafes, quiet := Failsafes(ops, fork - p.preForkMargin);
    var s := Schedule(ops, failsafes, quiet, t.secondsPerSlot);
    assert Resolved(p, genesis, fork, t, s);
    var ok := CheckFailsafes(ops, failsafes);
    if !ok {
      return Err(SweepInside);
    }
    return Ok(s);
  }

  // ---- Who is isolated ----

  predicate IsLight(lights: seq<int>, m: nat, victims: seq<int>) {
    m < |lights| && victims == [lights[m]]
  }

  predicate IsPair(lights: seq<int>, m: nat, victims: seq<int>) {
    m < |lights| && victims == [lights[m], lights[Next(m, |lights|)]]
  }

  /** The first single op takes the first light, and each later one the light after that of the one before. */
  lemma SinglesRotate(p: Profile, lights: seq<int>, i: nat, j: nat)
    requires i <= j < |p.windows| && lights != [] && p.windows[j].kind in {Short, Window}
    requires forall k :: i < k < j ==> p.windows[k].kind !in {Short, Window}
    ensures (forall k :: 0 <= k < j ==> p.windows[k].kind !in {Short, Window}) ==>
              VictimsAt(p, lights, j) == [lights[0]]
    ensures i < j && p.windows[i].kind in {Short, Window} ==>
              exists m: nat :: IsLight(lights, m, VictimsAt(p, lights, i))
                               && IsLight(lights, Next(m, |lights|), VictimsAt(p, lights, j))
  {
    var singles, c := {Short, Window}, CountKind(p.windows[..i], {Short, Window});
    if forall k :: 0 <= k < j ==> p.windows[k].kind !in singles {
      CountNone(p.windows, 0, j, singles);
      CountNothing(p.windows);
      ZeroModulo(|lights|);
    }
    if i < j && p.windows[i].kind in singles {
      CountSnoc(p.windows, i, singles);
      CountNone(p.windows, i + 1, j, singles);
      NextModulo(c, |lights|);
      hide CountKind;
      assert IsLight(lights, c % |lights|, VictimsAt(p, lights, i));
    }
  }

  /** The first deep pair is the first two lights, and each later one begins where the one before ended. */
  lemma PairsRotate(p: Profile, lights: seq<int>, i: nat, j: nat)
    requires i <= j < |p.windows| && |lights| >= 2 && p.windows[j].kind == Deep
    requires forall k :: i < k < j ==> p.windows[k].kind != Deep
    ensures (forall k :: 0 <= k < j ==> p.windows[k].kind != Deep) ==> VictimsAt(p, lights, j) == lights[..2]
    ensures i < j && p.windows[i].kind == Deep ==>
              exists m: nat :: IsPair(lights, m, VictimsAt(p, lights, i))
                               && IsPair(lights, Next(m, |lights|), VictimsAt(p, lights, j))
  {
    var c := CountKind(p.windows[..i], {Deep});
    PairIs(p, lights, j);
    if forall k :: 0 <= k < j ==> p.windows[k].kind != Deep {
      CountNone(p.windows, 0, j, {Deep});
      CountNothing(p.windows);
      ZeroModulo(|lights|);
    }
    if i < j && p.windows[i].kind == Deep {
      PairIs(p, lights, i);
      CountSnoc(p.windows, i, {Deep});
      CountNone(p.windows, i + 1, j, {Deep});
      NextModulo(c, |lights|);
      hide CountKind, VictimsAt;
      assert IsPair(lights, c % |lights|, VictimsAt(p, lights, i));
    }
  }

  lemma PairIs(p: Profile, lights: seq<int>, i: nat)
    requires i < |p.windows| && lights != [] && p.windows[i].kind == Deep
    ensures IsPair(lights, CountKind(p.windows[..i], {Deep}) % |lights|, VictimsAt(p, lights, i))
  {
    NextModulo(CountKind(p.windows[..i], {Deep}), |lights|);
    hide CountKind;
  }

  /** The light after light k, starting over after the last. */
  function Next(k: nat, n: nat): nat {
    if k + 1 < n then k + 1 else 0
  }

  lemma ZeroModulo(n: nat)
    requires n > 0
    ensures 0 % n == 0
  {
  }

  lemma NextModulo(c: nat, n: nat)
    requires n > 0
    ensures c % n < n && (c + 1) % n == Next(c % n, n)
  {
    var q, r, x, y := c / n, c % n, (c + 1) / n, (c + 1) % n;
    assert c == n * q + r && c + 1 == n * x + y;
    if x > q {
      MultipleGrows(n, x - q);
      if x - q > 1 {
        MultipleGrows(n, x - q - 1);
      }
    } else if x < q {
      MultipleGrows(n, q - x);
    }
  }

  lemma {:induction false} MultipleGrows(n: nat, d: nat)
    requires d > 0
    ensures n * d >= n && n * d == n + n * (d - 1)
  {
    if d > 1 {
      MultipleGrows(n, d - 1);
    }
  }

  /** Windows of other kinds do not count. */
  lemma {:induction false} CountNone(ws: seq<Span>, i: nat, j: nat, kinds: set<Class>)
    requires i <= j <= |ws| && forall k :: i <= k < j ==> ws[k].kind !in kinds
    ensures CountKind(ws[..j], kinds) == CountKind(ws[..i], kinds)
  {
    if i < j {
      CountSnoc(ws, j - 1, kinds);
      CountNone(ws, i, j - 1, kinds);
    }
  }

  lemma CountNothing(ws: seq<Span>)
    ensures forall kinds :: CountKind(ws[..0], kinds) == 0
  {
  }

  lemma CountSnoc(ws: seq<Span>, i: nat, kinds: set<Class>)
    requires i < |ws|
    ensures CountKind(ws[..i + 1], kinds) == CountKind(ws[..i], kinds) + (if ws[i].kind in kinds then 1 else 0)
  {
    assert ws[..i + 1][..i] == ws[..i];
  }

  lemma {:induction false} CountGrows(ws: seq<Span>, i: nat, kinds: set<Class>)
    requires i <= |ws|
    ensures CountKind(ws[..i], kinds) <= CountKind(ws, kinds)
    decreases |ws| - i
  {
    if i < |ws| {
      CountSnoc(ws, i, kinds);
      CountGrows(ws, i + 1, kinds);
    } else {
      assert ws[..i] == ws;
    }
  }
}
