/**
 What a run of the driver leaves behind: the requests it sent with their answers, and the lines it
 logged. A monitor over the requests says which lines are owed and what may come next; a trace is
 safe if every owed line is logged, in order and at once, and nothing comes that may not.
 */
module Records {
  import opened Options
  import opened Schedule
  import opened Actions

  /** What a heal line says about its victim. */
  datatype Note = Plain | Unreachable | NeverCrossed

  /** Which side of a straddle a write goes to. */
  datatype Side = Majority | Island

  /** A log line; a heal with no node closes every open window, a pause says the schedule is over or a hold is on. */
  datatype Line =
    | Isolate(node: int) | Heal(who: Option<int>, note: Note) | Skip(why: Why) | Warn | Critical | Pause(over: bool)
    | Inject(side: Side, slot: nat)

  datatype Why = Refused(op: Op) | Stale(op: Op) | NeverApplied(op: Op)

  datatype Cause = AtEnd(op: Op) | AtSweep(due: int) | AtStop

  datatype Answer = Failed | NotYet | Crossed

  /** A write: not sent, sent without a receipt in time, or included. */
  datatype Outcome = Unsent | Unconfirmed | Confirmed

  /** What a split-write attempt does, one side after the other: a side cannot be reached, or a slot is written. */
  datatype Write = Unreached(side: Side) | Put(side: Side, slot: nat, outcome: Outcome)

  datatype Ev =
    | Cut(op: Op, groups: seq<seq<int>>, ok: bool, sent: int, at: int)
    | Cleared(cause: Cause, ok: bool, sent: int, at: int)
    | Probed(node: int, answer: Answer, at: int)
    | Deployed(op: Op, ok: bool, sent: int, at: int)
    | Injecting(op: Op, at: int)
    | Wrote(write: Write, at: int)
    | Repeered(ok: bool, at: int)
    | Logged(line: Line, at: int)

  /** The disruptoor client gives up on a request after this long. */
  const REQUEST_TIMEOUT := 15

  // ---- The monitor ----

  /**
   The ops accepted so far; since the last of them, was a Clear tried, did one succeed, and which
   victims were asked, answered and crossed; whether a shutdown was met; the starts and sweeps dealt
   with, in order; the ops said to be refused, once per victim; the lines owed, with their time; and
   what was done beside the partitions.
   */
  datatype Watch = Watch(
    cuts: seq<Op>, attempted: bool, cleared: bool, asks: seq<(int, Answer)>, reached: set<int>, crossed: set<int>,
    stopped: bool, done: seq<Action>, refused: seq<Op>, owed: seq<Line>, owedAt: int,
    kit: Kit)
  {
    /** The op of the last accepted Partition. */
    function Last(): Option<Op> {
      if cuts == [] then None else Some(cuts[|cuts| - 1])
    }
  }

  /**
   Beside the partitions: the op a contract was deployed for and whose start is still to come; whether any
   deploy worked; the groups of every Partition sent; for each start dealt with, whether one was tried for
   it; the writes since the last accepted Partition, if they were attempted, and for each Partition whose
   own Clear was tried what had been attempted; how many Clears want the peers rejoined, and how often they
   were; whether this hold's pause was logged, and the last one; and the ops said never to have been
   applied, once per victim.
   */
  datatype Kit = Kit(
    ready: Option<Op>, contract: bool, splits: seq<(Op, seq<seq<int>>)>, starts: seq<(Op, bool)>,
    writing: Option<seq<Write>>,
    writes: seq<(Op, Option<seq<Write>>)>, heals: nat, repeers: nat, paused: bool, over: bool, never: seq<Op>)

  const UNSTARTED := Watch([], true, true, [], {}, {}, false, [], [], [], 0,
                           Kit(None, false, [], [], None, [], 0, 0, false, false, []))

  /**
   All that is written on both sides: two slots by the majority, in either order, and then one of them by an
   island.
   */
  predicate WroteAll(contract: bool, ws: seq<Write>) {
    if !contract then ws == []
    else
      || (|ws| == 2 && ws[0] == Unreached(Majority) && OnIsland(ws[1]))
      || (|ws| == 3 && OnMajority(ws[0], 1) && OnMajority(ws[1], 2) && OnIsland(ws[2]))
      || (|ws| == 3 && OnMajority(ws[0], 2) && OnMajority(ws[1], 1) && OnIsland(ws[2]))
  }

  predicate OnMajority(w: Write, slot: nat) {
    w.Put? && w.side == Majority && w.slot == slot
  }

  predicate OnIsland(w: Write) {
    w == Unreached(Island) || (w.Put? && w.side == Island && w.slot == 1)
  }

  function NoteFor(m: Watch, op: Op, v: int): Note {
    if op.holdUntil.None? then Plain
    else if v !in m.reached then Unreachable
    else if v !in m.crossed then NeverCrossed
    else Plain
  }

  function IsolateLines(victims: seq<int>): (r: seq<Line>)
    ensures |r| == |victims| && forall i :: 0 <= i < |r| ==> r[i] == Isolate(victims[i])
  {
    seq(|victims|, i requires 0 <= i < |victims| => Isolate(victims[i]))
  }

  function Warnings(n: nat): (r: seq<Line>)
    ensures |r| == n && forall i :: 0 <= i < n ==> r[i] == Warn
  {
    seq(n, _ => Warn)
  }

  function HealLines(m: Watch, op: Op): (r: seq<Line>)
    ensures |r| == |op.victims|
    ensures forall i :: 0 <= i < |r| ==> r[i] == Heal(Some(op.victims[i]), NoteFor(m, op, op.victims[i]))
  {
    seq(|op.victims|, i requires 0 <= i < |op.victims| => Heal(Some(op.victims[i]), NoteFor(m, op, op.victims[i])))
  }

  /** The lines an event owes the log. */
  function OwedBy(m: Watch, e: Ev): seq<Line> {
    match e
    case Cut(op, _, ok, _, _) => if ok then IsolateLines(op.victims) else Warnings(|op.victims|)
    case Cleared(AtEnd(op), ok, _, _) => if ok then HealLines(m, op) else [Warn]
    case Cleared(AtSweep(_), ok, _, _) => if !ok then [Warn] else if m.cleared then [Heal(None, Plain)] else [Critical]
    case Cleared(AtStop, _, _, _) => []
    case Probed(v, answer, _) =>
      if answer == Crossed then [Isolate(v)] else if answer == Failed && (v, Failed) !in m.asks then [Warn] else []
    case Deployed(_, ok, _, _) => if ok then [Heal(None, Plain)] else [Warn]
    case Injecting(_, _) => []
    case Wrote(Put(side, slot, Confirmed), _) => [Inject(side, slot)]
    case Wrote(Put(side, slot, Unconfirmed), _) => [Warn, Inject(side, slot)]
    case Wrote(_, _) => [Warn]
    case Repeered(ok, _) => if ok then [Heal(None, Plain)] else [Warn]
    case Logged(_, _) => if m.owed == [] then [] else m.owed[1..]
  }

  /** Op's start was dealt with; was a contract deployed for it? */
  function StartDone(k: Kit, op: Op): Kit {
    k.(ready := None, starts := k.starts + [(op, k.ready == Some(op))])
  }

  function KitStep(m: Watch, e: Ev): Kit {
    var k := m.kit;
    match e
    case Cut(op, groups, ok, _, _) =>
      var l := StartDone(k, op).(splits := k.splits + [(op, groups)]);
      if ok then l.(writing := None, paused := false) else l
    case Cleared(cause, ok, _, _) =>
      k.(writes := if m.attempted || m.cuts == [] || cause.AtStop? then k.writes
                   else k.writes + [(m.cuts[|m.cuts| - 1], k.writing)],
         heals := if cause.AtSweep? || (cause.AtEnd? && ok) then k.heals + 1 else k.heals)
    case Deployed(op, ok, _, _) => k.(ready := Some(op), contract := k.contract || ok)
    case Injecting(_, _) => k.(writing := Some([]))
    case Wrote(w, _) => if k.writing.Some? then k.(writing := Some(k.writing.value + [w])) else k
    case Repeered(_, _) => k.(repeers := k.repeers + 1)
    case Logged(Skip(Stale(op)), _) => StartDone(k, op)
    case Logged(Skip(NeverApplied(op)), _) => k.(never := k.never + [op])
    case Logged(Pause(over), _) => if over then k.(over := true) else k.(paused := true)
    case Logged(_, _) => k
    case Probed(_, _, _) => k
  }

  function WatchStep(m: Watch, e: Ev): Watch {
    var next := m.(owed := OwedBy(m, e), owedAt := if e.Logged? then m.owedAt else e.at, kit := KitStep(m, e));
    match e
    case Cut(op, _, ok, _, _) =>
      var done := m.done + [OpStart(op.start, op)];
      if ok then
        next.(cuts := m.cuts + [op], attempted := false, cleared := false, asks := [], reached := {}, crossed := {},
              done := done)
      else next.(done := done)
    case Cleared(cause, ok, _, _) =>
      next.(attempted := true, cleared := m.cleared || ok, stopped := m.stopped || cause.AtStop?,
            done := if cause.AtSweep? then m.done + [Action.Sweep(cause.due)] else m.done)
    case Probed(v, answer, _) =>
      next.(asks := m.asks + [(v, answer)],
            reached := if answer == Failed then m.reached else m.reached + {v},
            crossed := if answer == Crossed then m.crossed + {v} else m.crossed)
    case Logged(Skip(Stale(op)), _) => next.(done := m.done + [OpStart(op.start, op)])
    case Logged(Skip(Refused(op)), _) => next.(refused := m.refused + [op])
    case _ => next
  }

  function Mon(trace: seq<Ev>): Watch {
    if trace == [] then UNSTARTED else WatchStep(Mon(trace[..|trace| - 1]), trace[|trace| - 1])
  }

  /** An op may be healed: its window is over, and any hold for its victims is over or they all crossed. */
  predicate MayHeal(m: Watch, op: Op, now: int) {
    && now >= op.end
    && (op.holdUntil.Some? ==> now >= op.holdUntil.value || forall v :: v in op.victims ==> v in m.crossed)
  }

  /** The contract a straddle's writes need is deployed in time, once, and while no Partition is left unhealed-for. */
  predicate MayDeploy(m: Watch, op: Op, sent: int, at: int) {
    m.attempted && m.kit.ready.None? && op.kind == Straddle && op.start - 60 <= sent <= at
  }

  /** The writes are attempted once, well after the Partition and before anything else about it. */
  predicate MayInject(m: Watch, op: Op, at: int) {
    && m.Last() == Some(op) && !m.attempted && m.asks == [] && m.kit.writing.None?
    && op.kind == Straddle && at >= op.start + 15
  }

  /** No writes are half done. */
  predicate WritesDone(m: Watch) {
    !m.attempted && m.kit.writing.Some? ==> WroteAll(m.kit.contract, m.kit.writing.value)
  }

  /** What may come next while no line is owed: nothing more after a shutdown or the last pause. */
  predicate MayCome(m: Watch, e: Ev) {
    !m.stopped && !m.kit.over &&
    match e
    case Cut(op, _, _, sent, at) =>
      && m.attempted && op.start <= sent < op.end && sent <= at <= sent + REQUEST_TIMEOUT
      && (m.kit.ready.None? || m.kit.ready == Some(op))
    case Cleared(cause, _, sent, at) =>
      && sent <= at && WritesDone(m)
      && (cause.AtEnd? ==> m.Last() == Some(cause.op) && !m.attempted && MayHeal(m, cause.op, sent))
      && (cause.AtSweep? ==> m.attempted && cause.due <= sent)
    case Probed(v, _, _) =>
      m.Last().Some? && !m.attempted && v in m.Last().value.victims && v !in m.crossed && WritesDone(m)
    case Deployed(op, _, sent, at) => MayDeploy(m, op, sent, at)
    case Injecting(op, at) => MayInject(m, op, at)
    case Wrote(_, _) => m.kit.writing.Some? && !m.attempted && m.asks == [] && m.kit.contract
    case Repeered(_, _) => m.attempted && m.kit.heals == m.kit.repeers + 1
    case Logged(line, at) =>
      match line
      case Skip(Refused(op)) => op.refused
      case Skip(Stale(op)) => op.end <= at && (m.kit.ready.None? || m.kit.ready == Some(op))
      case Skip(NeverApplied(op)) => op !in m.cuts
      case Pause(over) => if over then m.attempted else m.cuts != [] && !m.attempted && m.asks != [] && !m.kit.paused
      case _ => false
  }

  /** An owed line comes first, at once. */
  predicate StepOk(m: Watch, e: Ev) {
    if m.owed != [] then e == Logged(m.owed[0], m.owedAt) else MayCome(m, e)
  }

  predicate Safe(trace: seq<Ev>) {
    trace == [] || (Safe(trace[..|trace| - 1]) && StepOk(Mon(trace[..|trace| - 1]), trace[|trace| - 1]))
  }

  lemma Snoc(trace: seq<Ev>, e: Ev)
    ensures (trace + [e])[..|trace + [e]| - 1] == trace && (trace + [e])[|trace + [e]| - 1] == e
  {
  }

  lemma SafeSnoc(trace: seq<Ev>, e: Ev)
    ensures Safe(trace + [e]) <==> Safe(trace) && StepOk(Mon(trace), e)
    ensures Mon(trace + [e]) == WatchStep(Mon(trace), e)
  {
    Snoc(trace, e);
  }

  lemma {:induction false} PrefixSafe(trace: seq<Ev>, k: nat)
    requires Safe(trace) && k <= |trace|
    ensures Safe(trace[..k])
    ensures k < |trace| ==>
              StepOk(Mon(trace[..k]), trace[k]) && Mon(trace[..k + 1]) == WatchStep(Mon(trace[..k]), trace[k])
  {
    hide StepOk, WatchStep;
    if k < |trace| {
      var rest := trace[..|trace| - 1];
      PrefixSafe(rest, k);
      assert rest[..k] == trace[..k];
      if k < |rest| {
        assert rest[k] == trace[k] && rest[..k + 1] == trace[..k + 1];
      } else {
        assert trace[..k + 1] == trace;
      }
    } else {
      assert trace[..k] == trace;
    }
  }

  // ---- What a safe trace means, read off its events ----

  predicate Accepted(e: Ev) {
    e.Cut? && e.ok
  }

  /** The last accepted Partition of a trace is at i. */
  predicate LastCutAt(trace: seq<Ev>, i: nat) {
    i < |trace| && Accepted(trace[i]) && forall j :: i < j < |trace| ==> !Accepted(trace[j])
  }

  predicate CrossedAt(trace: seq<Ev>, c: nat, v: int) {
    c < |trace| && trace[c].Probed? && trace[c].node == v && trace[c].answer == Crossed
  }

  lemma MonLast(trace: seq<Ev>)
    requires trace != []
    ensures Mon(trace) == WatchStep(Mon(trace[..|trace| - 1]), trace[|trace| - 1])
    ensures Safe(trace) ==> Safe(trace[..|trace| - 1]) && StepOk(Mon(trace[..|trace| - 1]), trace[|trace| - 1])
  {
  }

  /** The monitor's flags say whether a Clear was tried, and one worked, since the last accepted Partition. */
  lemma WatchMeans(trace: seq<Ev>, i: nat)
    requires LastCutAt(trace, i)
    ensures Mon(trace).Last() == Some(trace[i].op)
    ensures Mon(trace).attempted <==> exists c :: i < c < |trace| && trace[c].Cleared?
    ensures Mon(trace).cleared <==> exists c :: i < c < |trace| && trace[c].Cleared? && trace[c].ok
  {
    hide Mon;
    LastMeans(trace, i);
    TriedMeans(trace, i);
    WorkedMeans(trace, i);
  }

  lemma LastCutBefore(rest: seq<Ev>, e: Ev, i: nat)
    requires LastCutAt(rest + [e], i)
    ensures if i < |rest| then LastCutAt(rest, i) && (rest + [e])[i] == rest[i] && !Accepted(e)
            else i == |rest| && Accepted(e)
  {
    var trace := rest + [e];
    assert trace[|rest|] == e && forall j :: 0 <= j < |rest| ==> trace[j] == rest[j];
  }

  lemma {:induction false} LastMeans(trace: seq<Ev>, i: nat)
    requires LastCutAt(trace, i)
    ensures Mon(trace).Last() == Some(trace[i].op)
  {
    hide Mon, WatchStep, Accepted;
    var rest, e := trace[..|trace| - 1], trace[|trace| - 1];
    assert trace == rest + [e];
    MonLast(trace);
    LastCutBefore(rest, e, i);
    hide LastCutAt;
    if i < |rest| {
      LastMeans(rest, i);
      StepKeepsCut(Mon(rest), e);
    } else {
      StepCuts(Mon(rest), e);
    }
  }

  lemma {:induction false} TriedMeans(trace: seq<Ev>, i: nat)
    requires LastCutAt(trace, i)
    ensures Mon(trace).attempted <==> exists c :: i < c < |trace| && trace[c].Cleared?
  {
    var rest, e := trace[..|trace| - 1], trace[|trace| - 1];
    assert trace == rest + [e];
    MonLast(trace);
    LastCutBefore(rest, e, i);
    hide Mon, WatchStep, LastCutAt, Accepted;
    if i < |rest| {
      TriedMeans(rest, i);
      StepKeepsCut(Mon(rest), e);
      ClearsSince(rest, e, i);
    } else {
      StepCuts(Mon(rest), e);
    }
  }

  lemma {:induction false} WorkedMeans(trace: seq<Ev>, i: nat)
    requires LastCutAt(trace, i)
    ensures Mon(trace).cleared <==> exists c :: i < c < |trace| && trace[c].Cleared? && trace[c].ok
  {
    var rest, e := trace[..|trace| - 1], trace[|trace| - 1];
    assert trace == rest + [e];
    MonLast(trace);
    LastCutBefore(rest, e, i);
    hide Mon, WatchStep, LastCutAt, Accepted;
    if i < |rest| {
      WorkedMeans(rest, i);
      StepKeepsCut(Mon(rest), e);
      ClearsSince(rest, e, i);
    } else {
      StepCuts(Mon(rest), e);
    }
  }

  lemma ClearsSince(rest: seq<Ev>, e: Ev, i: nat)
    requires i < |rest|
    ensures
      var trace := rest + [e];
      (exists c :: i < c < |trace| && trace[c].Cleared?)
      <==> (exists c :: i < c < |rest| && rest[c].Cleared?) || e.Cleared?
    ensures
      var trace := rest + [e];
      (exists c :: i < c < |trace| && trace[c].Cleared? && trace[c].ok)
      <==> (exists c :: i < c < |rest| && rest[c].Cleared? && rest[c].ok) || (e.Cleared? && e.ok)
  {
    var trace := rest + [e];
    assert trace[|rest|] == e && forall c :: 0 <= c < |rest| ==> trace[c] == rest[c];
  }

  lemma StepCuts(m: Watch, e: Ev)
    requires Accepted(e)
    ensures WatchStep(m, e).Last() == Some(e.op) && !WatchStep(m, e).attempted && !WatchStep(m, e).cleared
  {
  }

  /** What any event but an accepted Partition does to the flags. */
  lemma StepKeepsCut(m: Watch, e: Ev)
    requires !Accepted(e)
    ensures WatchStep(m, e).cuts == m.cuts
    ensures WatchStep(m, e).attempted == (m.attempted || e.Cleared?)
    ensures WatchStep(m, e).cleared == (m.cleared || (e.Cleared? && e.ok))
  {
  }

  lemma StepCrosses(m: Watch, e: Ev, v: int)
    ensures v in WatchStep(m, e).crossed
            <==> !Accepted(e) && (v in m.crossed || (e.Probed? && e.node == v && e.answer == Crossed))
  {
  }

  lemma {:induction false} CrossedMeans(trace: seq<Ev>, i: nat, v: int)
    requires LastCutAt(trace, i)
    ensures v in Mon(trace).crossed <==> exists c: nat :: i < c && CrossedAt(trace, c, v)
  {
    var rest, e := trace[..|trace| - 1], trace[|trace| - 1];
    assert trace == rest + [e];
    MonLast(trace);
    LastCutBefore(rest, e, i);
    StepCrosses(Mon(rest), e, v);
    hide Mon, WatchStep, LastCutAt, Accepted;
    if i < |rest| {
      CrossedMeans(rest, i, v);
      CrossedSince(rest, e, i, v);
    }
  }

  lemma CrossedSince(rest: seq<Ev>, e: Ev, i: nat, v: int)
    requires i < |rest|
    ensures (exists c: nat :: i < c && CrossedAt(rest + [e], c, v))
            <==> (exists c: nat :: i < c && CrossedAt(rest, c, v)) || (e.Probed? && e.node == v && e.answer == Crossed)
  {
    var trace := rest + [e];
    assert forall c: nat :: c < |rest| ==> (CrossedAt(trace, c, v) <==> CrossedAt(rest, c, v));
    assert CrossedAt(trace, |rest|, v) <==> e.Probed? && e.node == v && e.answer == Crossed;
  }

  /** Only a log line can come while lines are owed. */
  lemma RequestsOweNothing(trace: seq<Ev>, k: nat)
    requires Safe(trace) && k < |trace| && !trace[k].Logged?
    ensures Mon(trace[..k]).owed == [] && MayCome(Mon(trace[..k]), trace[k])
  {
    hide Mon, Safe;
    PrefixSafe(trace, k);
  }

  /** Each Partition is sent inside its op's window, after a Clear was tried for the accepted one before it. */
  lemma {:induction false} PartitionsAreSeparated(trace: seq<Ev>, i: nat, j: nat)
    requires Safe(trace) && i < j < |trace| && Accepted(trace[i]) && trace[j].Cut?
    ensures exists c :: i < c < j && trace[c].Cleared?
    ensures trace[j].op.start <= trace[j].sent < trace[j].op.end
    decreases j - i
  {
    hide Mon, Safe;
    RequestsOweNothing(trace, j);
    if k :| i < k < j && Accepted(trace[k]) {
      PartitionsAreSeparated(trace, k, j);
    } else {
      WatchMeans(trace[..j], i);
      var c :| i < c < j && trace[..j][c].Cleared?;
      assert trace[c].Cleared?;
    }
  }

  /** An op's own heal is the first Clear tried for it, sent when its window and any hold for its victims are over. */
  lemma HealsAreInTime(trace: seq<Ev>, i: nat, k: nat)
    requires Safe(trace) && i < k < |trace| && LastCutAt(trace[..k], i) && trace[k].Cleared? && trace[k].cause.AtEnd?
    ensures trace[k].cause.op == trace[i].op && forall c :: i < c < k ==> !trace[c].Cleared?
    ensures trace[k].sent >= trace[i].op.end
    ensures trace[i].op.holdUntil.Some? && trace[k].sent < trace[i].op.holdUntil.value ==>
              forall v :: v in trace[i].op.victims ==> exists c: nat :: i < c && CrossedAt(trace[..k], c, v)
  {
    hide Mon, Safe;
    RequestsOweNothing(trace, k);
    WatchMeans(trace[..k], i);
    assert forall c :: i < c < k ==> trace[..k][c] == trace[c];
    if trace[i].op.holdUntil.Some? && trace[k].sent < trace[i].op.holdUntil.value {
      forall v | v in trace[i].op.victims
        ensures exists c: nat :: i < c && CrossedAt(trace[..k], c, v)
      {
        CrossedMeans(trace[..k], i, v);
      }
    }
  }

  // ---- Owed lines ----

  lemma StepOwes(m: Watch, e: Ev)
    ensures WatchStep(m, e).owed == OwedBy(m, e)
    ensures WatchStep(m, e).owedAt == if e.Logged? then m.owedAt else e.at
    ensures e.Logged? && m.owed != [] ==> OwedBy(m, e) == m.owed[1..]
  {
  }

  /** The lines owed after k events come next, one after the other. */
  lemma {:induction false} OwedComeNext(trace: seq<Ev>, k: nat, n: nat)
    requires Safe(trace) && k <= |trace| && Mon(trace).owed == [] && n <= |Mon(trace[..k]).owed|
    ensures
      var m := Mon(trace[..k]);
      && k + n <= |trace|
      && (forall j :: k <= j < k + n ==> trace[j] == Logged(m.owed[j - k], m.owedAt))
      && Mon(trace[..k + n]).owed == m.owed[n..] && Mon(trace[..k + n]).owedAt == m.owedAt
    decreases n
  {
    hide Mon, Safe, WatchStep, OwedBy;
    var m := Mon(trace[..k]);
    assert m.owed[0..] == m.owed;
    if n > 0 {
      OwedComeNext(trace, k, n - 1);
      var at := k + n - 1;
      assert m.owed[n - 1..] != [];
      assert trace[..|trace|] == trace;
      PrefixSafe(trace, at);
      StepOwes(Mon(trace[..at]), trace[at]);
      assert m.owed[n - 1..][0] == m.owed[n - 1] && m.owed[n - 1..][1..] == m.owed[n..];
    }
  }

  /** The lines still owed are the rest of those the event at c owed, and only lines came after it. */
  ghost predicate OwedFrom(trace: seq<Ev>, c: nat, lines: seq<Line>, at: int) {
    && c < |trace| && !trace[c].Logged? && (forall k :: c < k < |trace| ==> trace[k].Logged?)
    && var all := OwedBy(Mon(trace[..c]), trace[c]);
    |trace| - 1 - c < |all| && lines == all[|trace| - 1 - c..] && at == trace[c].at
  }

  lemma OwedFromHere(rest: seq<Ev>, e: Ev)
    requires !e.Logged? && OwedBy(Mon(rest), e) != []
    ensures OwedFrom(rest + [e], |rest|, OwedBy(Mon(rest), e), e.at)
  {
    hide Mon, OwedBy;
    assert (rest + [e])[..|rest|] == rest;
  }

  lemma OwedFromBefore(rest: seq<Ev>, e: Ev, c: nat, lines: seq<Line>, at: int)
    requires e.Logged? && OwedFrom(rest, c, lines, at) && |lines| > 1
    ensures OwedFrom(rest + [e], c, lines[1..], at)
  {
    hide Mon, OwedBy;
    assert (rest + [e])[..c] == rest[..c];
    var all := OwedBy(Mon(rest[..c]), rest[c]);
    assert all[|rest| - 1 - c..][1..] == all[|rest| - c..];
  }

  /** Where owed lines come from: the last event that is not a line. */
  lemma {:induction false} OwedSource(trace: seq<Ev>) returns (c: nat)
    requires Safe(trace) && Mon(trace).owed != []
    ensures OwedFrom(trace, c, Mon(trace).owed, Mon(trace).owedAt)
  {
    OwesSomething(trace);
    hide Mon, Safe, WatchStep, OwedBy, StepOk, OwedFrom;
    var rest, e := trace[..|trace| - 1], trace[|trace| - 1];
    assert trace == rest + [e];
    MonLast(trace);
    StepOwes(Mon(rest), e);
    if e.Logged? {
      LinesOweLess(Mon(rest), e);
      c := OwedSource(rest);
      OwedFromBefore(rest, e, c, Mon(rest).owed, Mon(rest).owedAt);
    } else {
      c := |rest|;
      OwedFromHere(rest, e);
    }
  }

  lemma OwesSomething(trace: seq<Ev>)
    requires Mon(trace).owed != []
    ensures trace != []
  {
  }

  lemma LinesOweLess(m: Watch, e: Ev)
    requires e.Logged? && OwedBy(m, e) != []
    ensures m.owed != []
  {
  }

  /** A line of a kind that is never free was owed, by the last event before it that is not a line. */
  lemma LineSource(trace: seq<Ev>, k: nat) returns (c: nat)
    requires Safe(trace) && k < |trace| && trace[k].Logged?
    requires !trace[k].line.Skip? && !trace[k].line.Pause?
    ensures c < k && !trace[c].Logged? && forall j :: c < j < k ==> trace[j].Logged?
    ensures
      var all := OwedBy(Mon(trace[..c]), trace[c]);
      k - 1 - c < |all| && all[k - 1 - c] == trace[k].line && trace[k].at == trace[c].at
  {
    hide Mon, Safe, OwedBy;
    PrefixSafe(trace, k);
    c := OwedSource(trace[..k]);
    assert trace[..k][..c] == trace[..c] && trace[..k][c] == trace[c];
    assert forall j :: c < j < k ==> trace[..k][j] == trace[j];
  }

  /**
   No-convergence is reported exactly right after a sweep succeeds when every Clear since the accepted Partition
   failed.
   */
  lemma NoConvergenceExactly(trace: seq<Ev>, i: nat, k: nat)
    requires Safe(trace) && i < k - 1 && k < |trace| && LastCutAt(trace[..k - 1], i)
    ensures trace[k].Logged? && trace[k].line == Critical
            <==> trace[k - 1].Cleared? && trace[k - 1].cause.AtSweep? && trace[k - 1].ok
                 && forall c :: i < c < k - 1 && trace[c].Cleared? ==> !trace[c].ok
  {
    hide Mon, Safe, WatchStep, OwedBy, MayCome;
    var m, e := Mon(trace[..k - 1]), trace[k - 1];
    WatchMeans(trace[..k - 1], i);
    assert forall c :: i < c < k - 1 ==> trace[..k - 1][c] == trace[c];
    PrefixSafe(trace, k - 1);
    PrefixSafe(trace, k);
    StepOwes(m, e);
    LateSweepOwes(m, e);
    if trace[k].Logged? && trace[k].line == Critical {
      var c := LineSource(trace, k);
      CriticalSource(Mon(trace[..c]), trace[c], k - 1 - c);
    }
  }

  lemma LateSweepOwes(m: Watch, e: Ev)
    ensures e.Cleared? && e.cause.AtSweep? && e.ok && !m.cleared ==> OwedBy(m, e) == [Critical]
  {
  }

  lemma CriticalSource(m: Watch, e: Ev, n: nat)
    requires !e.Logged? && n < |OwedBy(m, e)| && OwedBy(m, e)[n] == Critical
    ensures n == 0 && e.Cleared? && e.cause.AtSweep? && e.ok && !m.cleared
  {
  }

  /** A crossing is logged at once. */
  lemma CrossingsAreLogged(trace: seq<Ev>, c: nat, v: int)
    requires Safe(trace) && Mon(trace).owed == [] && CrossedAt(trace, c, v)
    ensures c + 1 < |trace| && trace[c + 1] == Logged(Isolate(v), trace[c].at)
  {
    hide Mon, Safe, WatchStep, OwedBy, MayCome;
    PrefixSafe(trace, c);
    StepOwes(Mon(trace[..c]), trace[c]);
    CrossingOwes(Mon(trace[..c]), trace[c]);
    OwedComeNext(trace, c + 1, 1);
  }

  lemma CrossingOwes(m: Watch, e: Ev)
    ensures e.Probed? && e.answer == Crossed ==> OwedBy(m, e) == [Isolate(e.node)]
  {
  }

  /** What an op's own Clear does to the monitor. */
  lemma EndClearStep(m: Watch, op: Op, ok: bool, sent: int, at: int)
    ensures WatchStep(m, Cleared(AtEnd(op), ok, sent, at))
            == m.(attempted := true, cleared := m.cleared || ok,
                  owed := if ok then HealLines(m, op) else [Warn], owedAt := at,
                  kit := m.kit.(writes := if m.attempted || m.cuts == [] then m.kit.writes
                                          else m.kit.writes + [(m.cuts[|m.cuts| - 1], m.kit.writing)],
                                heals := if ok then m.kit.heals + 1 else m.kit.heals))
  {
    hide HealLines;
    var e := Cleared(AtEnd(op), ok, sent, at);
    assert OwedBy(m, e) == if ok then HealLines(m, op) else [Warn];
  }

  /** Paying a line owed. */
  lemma PaidStep(m: Watch, line: Line, at: int)
    requires m.owed != [] && !line.Skip? && !line.Pause?
    ensures WatchStep(m, Logged(line, at)) == m.(owed := m.owed[1..])
  {
  }
}
