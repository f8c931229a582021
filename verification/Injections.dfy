/**
 What a run did beside its partitions, read off its events: the deploys, the split writes and the
 rejoining of peers (cmd/migration-chaos/main.go:248-287, 311-343).
 */
module Injections {
  import opened Options
  import opened Schedule
  import Actions
  import opened Records
  import opened Readings
  import opened OwnHeals
  import opened Driver

  /** The event deals with an op's start: its Partition is sent, or it is skipped as stale. */
  predicate Starts(e: Ev) {
    e.Cut? || (e.Logged? && e.line.Skip? && e.line.why.Stale?)
  }

  function StartOf(e: Ev): Op
    requires Starts(e)
  {
    if e.Cut? then e.op else e.line.why.op
  }

  lemma KitNext(trace: seq<Ev>)
    requires trace != []
    ensures Mon(trace).kit == KitStep(Mon(trace[..|trace| - 1]), trace[|trace| - 1])
    ensures Safe(trace) ==> Safe(trace[..|trace| - 1]) && StepOk(Mon(trace[..|trace| - 1]), trace[|trace| - 1])
  {
    MonLast(trace);
    WatchKit(Mon(trace[..|trace| - 1]), trace[|trace| - 1]);
    hide Mon, Safe, WatchStep, KitStep, StepOk;
  }

  lemma WatchKit(m: Watch, e: Ev)
    ensures WatchStep(m, e).kit == KitStep(m, e)
  {
    hide KitStep, OwedBy;
  }

  /** Every Partition is sent with the rest of the network in one group and the victims in the others. */
  lemma {:induction false} CutsSplit(g: Setup, trace: seq<Ev>, i: nat)
    requires Fitted(g, Mon(trace).kit) && i < |trace| && trace[i].Cut?
    ensures Splits(g.clients, trace[i].op, trace[i].groups)
  {
    SplitNoted(trace, i);
    hide Mon, Splits;
    assert (trace[i].op, trace[i].groups) in Mon(trace).kit.splits;
  }

  lemma {:induction false} SplitNoted(trace: seq<Ev>, i: nat)
    requires i < |trace| && trace[i].Cut?
    ensures (trace[i].op, trace[i].groups) in Mon(trace).kit.splits
  {
    var rest, e := trace[..|trace| - 1], trace[|trace| - 1];
    KitNext(trace);
    SplitsGrow(Mon(rest), e);
    hide Mon, KitStep;
    if i < |rest| {
      SplitNoted(rest, i);
    }
  }

  lemma SplitsGrow(m: Watch, e: Ev)
    ensures KitStep(m, e).splits == m.kit.splits + if e.Cut? then [(e.op, e.groups)] else []
  {
  }

  // ---- Deploys ----

  /** A deploy at d, and no start dealt with since. */
  ghost predicate DeployedAt(trace: seq<Ev>, d: nat) {
    d < |trace| && trace[d].Deployed? && forall k :: d < k < |trace| ==> !Starts(trace[k])
  }

  /** What is deployed for is what the one deploy since the last start was for. */
  ghost predicate ReadyFor(trace: seq<Ev>, ready: Option<Op>) {
    && (ready.Some? ==> exists d: nat :: DeployedAt(trace, d) && trace[d].op == ready.value)
    && (forall d: nat :: DeployedAt(trace, d) ==> ready == Some(trace[d].op))
    && (forall d: nat, e: nat :: DeployedAt(trace, d) && DeployedAt(trace, e) ==> d == e)
  }

  lemma {:induction false} ReadyMeans(trace: seq<Ev>)
    requires Safe(trace)
    ensures ReadyFor(trace, Mon(trace).kit.ready)
  {
    if trace != [] {
      var rest, e := trace[..|trace| - 1], trace[|trace| - 1];
      assert trace == rest + [e];
      KitNext(trace);
      ReadyStep(Mon(rest), e);
      hide Mon, Safe, StepOk, KitStep, ReadyFor;
      ReadyMeans(rest);
      ReadyNext(rest, e, Mon(rest).kit.ready);
    }
  }

  lemma ReadyNext(rest: seq<Ev>, e: Ev, ready: Option<Op>)
    requires ReadyFor(rest, ready) && (e.Deployed? ==> ready.None?)
    ensures ReadyFor(rest + [e], if e.Deployed? then Some(e.op) else if Starts(e) then None else ready)
  {
    var trace := rest + [e];
    DeployedNext(rest, e);
    assert trace[|rest|] == e && forall k :: 0 <= k < |rest| ==> trace[k] == rest[k];
    if e.Deployed? {
      assert DeployedAt(trace, |rest|);
    } else if !Starts(e) && ready.Some? {
      var d: nat :| DeployedAt(rest, d) && rest[d].op == ready.value;
      assert DeployedAt(trace, d);
    }
    hide DeployedAt;
  }

  lemma ReadyStep(m: Watch, e: Ev)
    ensures KitStep(m, e).ready == if e.Deployed? then Some(e.op) else if Starts(e) then None else m.kit.ready
    ensures StepOk(m, e) && e.Deployed? ==> m.kit.ready.None?
  {
  }

  lemma DeployedNext(rest: seq<Ev>, e: Ev)
    ensures forall d: nat ::
              DeployedAt(rest + [e], d) <==> (d == |rest| && e.Deployed?) || (!Starts(e) && DeployedAt(rest, d))
  {
    var trace := rest + [e];
    assert trace[|rest|] == e && forall k :: 0 <= k < |rest| ==> trace[k] == rest[k];
  }

  /** Each start dealt with is noted, with whether it was deployed for. */
  lemma {:induction false} StartNoted(trace: seq<Ev>, i: nat)
    requires i < |trace| && Starts(trace[i])
    ensures (StartOf(trace[i]), Mon(trace[..i]).kit.ready == Some(StartOf(trace[i]))) in Mon(trace).kit.starts
  {
    var rest, e := trace[..|trace| - 1], trace[|trace| - 1];
    KitNext(trace);
    StartsGrow(Mon(rest), e);
    hide Mon, KitStep;
    if i < |rest| {
      StartNoted(rest, i);
      assert rest[..i] == trace[..i];
    }
  }

  lemma StartsGrow(m: Watch, e: Ev)
    ensures KitStep(m, e).starts
            == m.kit.starts + if Starts(e) then [(StartOf(e), m.kit.ready == Some(StartOf(e)))] else []
  {
  }

  /**
   The contract is deployed for the op whose start is dealt with at i: in time, after the start before, and
   when a Clear has been tried for every Partition accepted so far.
   */
  ghost predicate DeployFor(trace: seq<Ev>, d: nat, i: nat) {
    && d < i < |trace| && Starts(trace[i]) && trace[d].Deployed? && trace[d].op == StartOf(trace[i])
    && trace[d].sent >= trace[d].op.start - 60
    && (forall k :: d < k < i ==> !Starts(trace[k]))
    && forall j :: 0 <= j < d && Accepted(trace[j]) ==> exists c :: j < c < d && trace[c].Cleared?
  }

  /** A start is deployed for exactly when it is a straddle's and the driver can inject; and never twice. */
  lemma DeploysExactly(g: Setup, trace: seq<Ev>, i: nat)
    requires Safe(trace) && Fitted(g, Mon(trace).kit) && i < |trace| && Starts(trace[i])
    ensures (exists d: nat :: DeployFor(trace, d, i)) <==> Injects(g, StartOf(trace[i]))
    ensures forall d: nat, e: nat :: DeployFor(trace, d, i) && DeployFor(trace, e, i) ==> d == e
  {
    hide Safe, Mon;
    var op, before := StartOf(trace[i]), trace[..i];
    StartNoted(trace, i);
    PrefixSafe(trace, i);
    ReadyMeans(before);
    forall d: nat | DeployFor(trace, d, i)
      ensures DeployedAt(before, d) && before[d] == trace[d]
    {
    }
    if Mon(before).kit.ready == Some(op) {
      var d: nat :| DeployedAt(before, d) && before[d].op == Mon(before).kit.ready.value;
      DeployInTime(trace, i, d);
    }
  }

  lemma DeployInTime(trace: seq<Ev>, i: nat, d: nat)
    requires Safe(trace) && i < |trace| && Starts(trace[i]) && DeployedAt(trace[..i], d)
    requires trace[..i][d].op == StartOf(trace[i])
    ensures DeployFor(trace, d, i)
  {
    hide Safe, Mon;
    assert forall k :: 0 <= k < i ==> trace[..i][k] == trace[k];
    PrefixSafe(trace, d);
    RequestsOweNothing(trace, d);
    forall j | 0 <= j < d && Accepted(trace[j])
      ensures exists c :: j < c < d && trace[c].Cleared?
    {
      assert trace[..d][j] == trace[j];
      var c := SomeClear(trace[..d], j);
      assert trace[c].Cleared?;
    }
  }

  // ---- Split writes ----

  function WritesIn(evs: seq<Ev>): seq<Write> {
    if evs == [] then []
    else WritesIn(evs[..|evs| - 1]) + if evs[|evs| - 1].Wrote? then [evs[|evs| - 1].write] else []
  }

  /** The attempt since the Partition accepted at i: when it began, for which op. */
  ghost predicate InjectsAt(trace: seq<Ev>, i: nat, j: nat) {
    i < j < |trace| && trace[j].Injecting?
  }

  /** The writes were attempted since the Partition accepted at i, once. */
  ghost predicate Attempted(trace: seq<Ev>, i: nat) {
    exists j: nat :: InjectsAt(trace, i, j)
  }

  ghost predicate AttemptedOnce(trace: seq<Ev>, i: nat) {
    forall j: nat, l: nat :: InjectsAt(trace, i, j) && InjectsAt(trace, i, l) ==> j == l
  }

  /** The writes since the last accepted Partition, once they were attempted, and there was one attempt. */
  lemma {:induction false} WritingMeans(trace: seq<Ev>, i: nat)
    requires Safe(trace) && LastCutAt(trace, i)
    ensures Mon(trace).kit.writing.Some? <==> Attempted(trace, i)
    ensures AttemptedOnce(trace, i)
    ensures WritesIn(trace[i..]) == if Mon(trace).kit.writing.Some? then Mon(trace).kit.writing.value else []
  {
    var rest, e := trace[..|trace| - 1], trace[|trace| - 1];
    assert trace == rest + [e];
    KitNext(trace);
    LastCutBefore(rest, e, i);
    WritingStep(Mon(rest), e);
    hide Mon, Safe, StepOk, KitStep, LastCutAt, Attempted, AttemptedOnce, WritesIn;
    if i < |rest| {
      WritingMeans(rest, i);
      AttemptedNext(rest, e, i);
      WritesNext(rest, e, i);
    } else {
      JustCut(rest, e, i);
    }
  }

  lemma AttemptedNext(rest: seq<Ev>, e: Ev, i: nat)
    requires i < |rest|
    ensures Attempted(rest + [e], i) <==> e.Injecting? || Attempted(rest, i)
    ensures AttemptedOnce(rest, i) && (e.Injecting? ==> !Attempted(rest, i)) ==> AttemptedOnce(rest + [e], i)
  {
    InjectsNext(rest, e, i);
    assert e.Injecting? ==> InjectsAt(rest + [e], i, |rest|);
    if Attempted(rest, i) {
      var j: nat :| InjectsAt(rest, i, j);
      assert InjectsAt(rest + [e], i, j);
    }
  }

  lemma WritesNext(rest: seq<Ev>, e: Ev, i: nat)
    requires i <= |rest|
    ensures WritesIn((rest + [e])[i..]) == WritesIn(rest[i..]) + if e.Wrote? then [e.write] else []
  {
    assert (rest + [e])[i..] == rest[i..] + [e];
    assert (rest[i..] + [e])[..|rest[i..]|] == rest[i..];
  }

  lemma JustCut(rest: seq<Ev>, e: Ev, i: nat)
    requires i == |rest| && Accepted(e)
    ensures WritesIn((rest + [e])[i..]) == [] && !Attempted(rest + [e], i) && AttemptedOnce(rest + [e], i)
  {
    WritesNext(rest, e, i);
    assert rest[i..] == [];
  }

  lemma WritingStep(m: Watch, e: Ev)
    ensures KitStep(m, e).writing ==
            if Accepted(e) then None else if e.Injecting? then Some([])
            else if e.Wrote? && m.kit.writing.Some? then Some(m.kit.writing.value + [e.write]) else m.kit.writing
    ensures StepOk(m, e) && e.Injecting? ==> m.kit.writing.None?
    ensures StepOk(m, e) && e.Wrote? ==> m.kit.writing.Some?
  {
  }

  lemma InjectsNext(rest: seq<Ev>, e: Ev, i: nat)
    requires i < |rest|
    ensures forall j: nat :: InjectsAt(rest + [e], i, j) <==> (j == |rest| && e.Injecting?) || InjectsAt(rest, i, j)
  {
    var trace := rest + [e];
    assert trace[|rest|] == e && forall k :: 0 <= k < |rest| ==> trace[k] == rest[k];
  }

  /** Some deploy worked. */
  ghost predicate SomeContract(trace: seq<Ev>) {
    exists d: nat :: d < |trace| && trace[d].Deployed? && trace[d].ok
  }

  lemma {:induction false} ContractMeans(trace: seq<Ev>)
    ensures Mon(trace).kit.contract <==> SomeContract(trace)
  {
    if trace != [] {
      var rest, e := trace[..|trace| - 1], trace[|trace| - 1];
      assert trace == rest + [e];
      KitNext(trace);
      ContractStep(Mon(rest), e);
      hide Mon, KitStep, SomeContract;
      ContractMeans(rest);
      ContractNext(rest, e);
    }
  }

  lemma ContractNext(rest: seq<Ev>, e: Ev)
    ensures SomeContract(rest + [e]) <==> SomeContract(rest) || (e.Deployed? && e.ok)
  {
    var trace := rest + [e];
    assert trace[|rest|] == e && forall k :: 0 <= k < |rest| ==> trace[k] == rest[k];
  }

  lemma ContractStep(m: Watch, e: Ev)
    ensures KitStep(m, e).contract == (m.kit.contract || (e.Deployed? && e.ok))
  {
  }

  /** What had been attempted is noted when an accepted Partition is first tried to be cleared. */
  lemma {:induction false} WritesNoted(trace: seq<Ev>, i: nat, k: nat)
    requires Safe(trace) && i < k < |trace| && LastCutAt(trace[..k], i) && FirstClear(trace, i, k)
    requires !trace[k].cause.AtStop?
    ensures (trace[i].op, Mon(trace[..k]).kit.writing) in Mon(trace).kit.writes
  {
    var rest, e := trace[..|trace| - 1], trace[|trace| - 1];
    assert trace == rest + [e];
    KitNext(trace);
    WritesGrow(Mon(rest), e);
    hide Mon, KitStep, Safe, StepOk, LastCutAt;
    if k < |rest| {
      assert rest[..k] == trace[..k] && rest[k] == trace[k] && rest[i] == trace[i];
      StillFirst(rest, e, i, k);
      WritesNoted(rest, i, k);
    } else {
      assert rest == trace[..k];
      UpToItsClear(trace, i, k);
    }
  }

  lemma StillFirst(rest: seq<Ev>, e: Ev, i: nat, k: nat)
    requires k < |rest| && FirstClear(rest + [e], i, k)
    ensures FirstClear(rest, i, k)
  {
    assert forall j :: 0 <= j < |rest| ==> (rest + [e])[j] == rest[j];
  }

  /** When an accepted Partition is first tried to be cleared no Clear has been tried, and it is the last accepted. */
  lemma UpToItsClear(trace: seq<Ev>, i: nat, k: nat)
    requires k <= |trace| && LastCutAt(trace[..k], i) && forall c :: i < c < k ==> !trace[c].Cleared?
    ensures Mon(trace[..k]).Last() == Some(trace[i].op) && !Mon(trace[..k]).attempted
  {
    hide Mon;
    LastMeans(trace[..k], i);
    TriedMeans(trace[..k], i);
    assert forall c :: i < c < k ==> trace[..k][c] == trace[c];
  }

  lemma WritesGrow(m: Watch, e: Ev)
    ensures m.kit.writes <= KitStep(m, e).writes
    ensures e.Cleared? && !m.attempted && m.Last().Some? && !e.cause.AtStop? ==>
              KitStep(m, e).writes == m.kit.writes + [(m.Last().value, m.kit.writing)]
  {
  }

  /** The split writes of the Partition accepted at i, cleared first at k: attempted late enough, and all there are. */
  ghost predicate WrittenFor(trace: seq<Ev>, i: nat, j: nat, k: nat) {
    && i < j < k < |trace| && Accepted(trace[i]) && trace[j].Injecting? && trace[j].op == trace[i].op
    && trace[j].at >= trace[i].op.start + 15
    && WroteAll(SomeContract(trace[..k]), WritesIn(trace[i..k]))
  }

  /**
   An accepted Partition gets its split writes before its end exactly when it is a straddle's and the driver can
   inject.
   */
  lemma WritesExactly(g: Setup, trace: seq<Ev>, i: nat, k: nat)
    requires Safe(trace) && Fitted(g, Mon(trace).kit) && i < |trace| && Accepted(trace[i])
    requires FirstClear(trace, i, k) && !trace[k].cause.AtStop?
    ensures (exists j: nat :: WrittenFor(trace, i, j, k)) <==> Injects(g, trace[i].op)
    ensures forall j: nat, l: nat :: WrittenFor(trace, i, j, k) && WrittenFor(trace, i, l, k) ==> j == l
    ensures !Injects(g, trace[i].op) ==> WritesIn(trace[i..k]) == [] && forall j :: i < j < k ==> !trace[j].Injecting?
  {
    hide Safe, Mon, Fitted, WritesIn, SomeContract, WroteAll;
    var before := trace[..k];
    NotCutAgain(trace, i, k);
    PrefixSafe(trace, k);
    WritesNoted(trace, i, k);
    NotedFits(g, Mon(trace).kit, trace[i].op, Mon(before).kit.writing);
    WritingMeans(before, i);
    ContractMeans(before);
    assert before[i..] == trace[i..k];
    RequestsOweNothing(trace, k);
    UpToItsClear(trace, i, k);
    NothingWritten(Mon(before), trace[k]);
    hide MayCome;
    InjectsBefore(trace, i, k);
    if Mon(before).kit.writing.Some? {
      var j: nat :| InjectsAt(before, i, j);
      InjectedLate(trace, i, j, k);
      assert WrittenFor(trace, i, j, k);
    }
  }

  lemma NothingWritten(m: Watch, e: Ev)
    requires MayCome(m, e) && e.Cleared? && !m.attempted
    ensures m.kit.writing.Some? ==> WroteAll(m.kit.contract, m.kit.writing.value)
  {
  }

  lemma InjectsBefore(trace: seq<Ev>, i: nat, k: nat)
    requires k <= |trace|
    ensures forall j: nat :: InjectsAt(trace[..k], i, j) <==> i < j < k && trace[j].Injecting?
  {
  }

  lemma NotedFits(g: Setup, k: Kit, op: Op, writing: Option<seq<Write>>)
    requires Fitted(g, k) && (op, writing) in k.writes
    ensures writing.Some? <==> Injects(g, op)
  {
  }

  lemma InjectedLate(trace: seq<Ev>, i: nat, j: nat, k: nat)
    requires Safe(trace) && i < j < k < |trace| && LastCutAt(trace[..k], i) && trace[j].Injecting?
    ensures trace[j].op == trace[i].op && trace[j].at >= trace[i].op.start + 15
  {
    hide Safe, Mon;
    assert forall c :: 0 <= c < k ==> trace[..k][c] == trace[c];
    assert forall c :: 0 <= c < j ==> trace[..j][c] == trace[c];
    RequestsOweNothing(trace, j);
    LastMeans(trace[..j], i);
  }

  // ---- Without an injector ----

  /** A deploy or an attempt to write leaves its mark. */
  ghost predicate Marked(m: Watch) {
    || m.kit.ready.Some? || m.kit.writing.Some?
    || (exists x :: x in m.kit.starts && x.1)
    || (exists x :: x in m.kit.writes && x.1.Some?)
  }

  predicate Injection(e: Ev) {
    e.Deployed? || e.Injecting? || e.Wrote?
  }

  /** Once a Partition is up for a new one, what had been attempted for it was noted, unless a shutdown came. */
  ghost predicate Noted(m: Watch) {
    m.kit.writing.Some? && m.attempted && !m.stopped ==> exists x :: x in m.kit.writes && x.1.Some?
  }

  lemma MarkedStep(m: Watch, e: Ev)
    requires StepOk(m, e) && Noted(m) && forall line :: line in m.owed ==> !line.Skip?
    ensures Marked(m) || Injection(e) ==> Marked(m.(kit := KitStep(m, e)))
  {
    ReadyStep(m, e);
    WritingStep(m, e);
    WritesGrow(m, e);
    StartsGrow(m, e);
    MarksNeed(m, e);
    hide KitStep, StepOk;
    var k, l := m.kit, KitStep(m, e);
    if x :| x in k.starts && x.1 {
      assert x in l.starts;
    }
    if x :| x in k.writes && x.1.Some? {
      assert x in l.writes;
    }
    if Starts(e) && k.ready.Some? {
      assert (StartOf(e), true) in l.starts;
    }
  }

  lemma MarksNeed(m: Watch, e: Ev)
    requires StepOk(m, e) && forall line :: line in m.owed ==> !line.Skip?
    ensures Starts(e) ==> m.kit.ready.None? || m.kit.ready == Some(StartOf(e))
    ensures Accepted(e) ==> m.attempted && !m.stopped
  {
    assert m.owed != [] ==> m.owed[0] in m.owed;
  }

  lemma NotedStep(m: Watch, e: Ev)
    requires StepOk(m, e) && Noted(m)
    ensures Noted(WatchStep(m, e))
  {
    WatchKit(m, e);
    WritingStep(m, e);
    WritesGrow(m, e);
    StopStays(m, e);
    StepNeeds(m, e);
    if Accepted(e) {
      StepCuts(m, e);
    } else {
      StepKeepsCut(m, e);
    }
    hide WatchStep, KitStep, StepOk;
    var n := WatchStep(m, e);
    if x :| x in m.kit.writes && x.1.Some? {
      assert x in n.kit.writes;
    }
    if e.Cleared? && !m.attempted && m.Last().Some? && !e.cause.AtStop? && m.kit.writing.Some? {
      assert (m.Last().value, m.kit.writing) in n.kit.writes;
    }
  }

  lemma StepNeeds(m: Watch, e: Ev)
    requires StepOk(m, e)
    ensures e.Cleared? && e.cause.AtSweep? ==> m.attempted
    ensures e.Cleared? && e.cause.AtEnd? ==> m.Last().Some?
    ensures e.Injecting? ==> !m.attempted
  {
  }

  ghost predicate SomeInjection(trace: seq<Ev>) {
    exists k :: 0 <= k < |trace| && Injection(trace[k])
  }

  lemma SomeNext(rest: seq<Ev>, e: Ev)
    ensures SomeInjection(rest + [e]) <==> SomeInjection(rest) || Injection(e)
  {
    hide Injection;
    var trace := rest + [e];
    assert trace[|rest|] == e && forall k :: 0 <= k < |rest| ==> trace[k] == rest[k];
  }

  lemma {:induction false} AllMarked(trace: seq<Ev>)
    requires Safe(trace)
    ensures Noted(Mon(trace)) && (SomeInjection(trace) ==> Marked(Mon(trace)))
  {
    if trace != [] {
      var rest, e := trace[..|trace| - 1], trace[|trace| - 1];
      assert trace == rest + [e];
      Echo(rest);
      MonLast(trace);
      WatchKit(Mon(rest), e);
      hide Mon, Safe, WatchStep, KitStep, StepOk, Noted, Marked, Injection, SomeInjection, Echoes;
      AllMarked(rest);
      NotedStep(Mon(rest), e);
      MarkedStep(Mon(rest), e);
      SomeNext(rest, e);
      if SomeInjection(trace) {
        SameMarks(Mon(rest).(kit := KitStep(Mon(rest), e)), Mon(trace));
      }
    }
  }

  lemma SameMarks(m: Watch, n: Watch)
    requires m.kit == n.kit && Marked(m)
    ensures Marked(n)
  {
  }

  /** A driver that cannot inject never deploys and never writes. */
  lemma NothingInjected(g: Setup, trace: seq<Ev>)
    requires Safe(trace) && Fitted(g, Mon(trace).kit) && !g.injector
    ensures forall k :: 0 <= k < |trace| ==> !trace[k].Deployed? && !trace[k].Injecting? && !trace[k].Wrote?
  {
    hide Safe, Mon;
    AllMarked(trace);
    forall k | 0 <= k < |trace|
      ensures !Injection(trace[k])
    {
    }
  }

  // ---- Peers ----

  /** A heal that worked, and any sweep, wants the peers rejoined. */
  predicate WantsPeers(e: Ev) {
    e.Cleared? && (e.cause.AtSweep? || (e.cause.AtEnd? && e.ok))
  }

  lemma PeersStep(m: Watch, e: Ev)
    ensures KitStep(m, e).heals == m.kit.heals + if WantsPeers(e) then 1 else 0
    ensures KitStep(m, e).repeers == m.kit.repeers + if e.Repeered? then 1 else 0
    ensures StepOk(m, e) && e.Repeered? ==> m.kit.heals == m.kit.repeers + 1
  {
  }

  /** From k on: what the event at k does to the counts. */
  lemma PeersAt(trace: seq<Ev>, k: nat)
    requires Safe(trace) && k < |trace|
    ensures
      var m, n := Mon(trace[..k]).kit, Mon(trace[..k + 1]).kit;
      && n.heals == m.heals + (if WantsPeers(trace[k]) then 1 else 0)
      && n.repeers == m.repeers + (if trace[k].Repeered? then 1 else 0)
      && (trace[k].Repeered? ==> m.heals == m.repeers + 1)
  {
    PrefixSafe(trace, k);
    WatchKit(Mon(trace[..k]), trace[k]);
    PeersStep(Mon(trace[..k]), trace[k]);
    hide Mon, Safe, WatchStep, KitStep, StepOk;
  }

  /** Peers left alone twice in a row are never all rejoined again. */
  lemma {:induction false} LeftAlone(trace: seq<Ev>, k: nat)
    requires Safe(trace) && k <= |trace| && Mon(trace[..k]).kit.heals >= Mon(trace[..k]).kit.repeers + 2
    ensures Mon(trace).kit.heals >= Mon(trace).kit.repeers + 2
    decreases |trace| - k
  {
    hide Mon, Safe;
    if k < |trace| {
      PeersAt(trace, k);
      LeftAlone(trace, k + 1);
    } else {
      assert trace[..k] == trace;
    }
  }

  lemma {:induction false} NeverAhead(trace: seq<Ev>, k: nat)
    requires Safe(trace) && k <= |trace|
    ensures Mon(trace[..k]).kit.repeers <= Mon(trace[..k]).kit.heals
    ensures Mon(trace[..k]).kit.repeers <= Mon(trace).kit.repeers
  {
    assert Mon(trace[..0]) == UNSTARTED;
    hide Mon, Safe;
    BehindSoFar(trace, k);
    OnlyGrows(trace, k);
  }

  lemma {:induction false} BehindSoFar(trace: seq<Ev>, k: nat)
    requires Safe(trace) && k <= |trace| && Mon(trace[..0]) == UNSTARTED
    ensures Mon(trace[..k]).kit.repeers <= Mon(trace[..k]).kit.heals
  {
    hide Mon, Safe;
    if k > 0 {
      BehindSoFar(trace, k - 1);
      PeersAt(trace, k - 1);
    }
  }

  lemma {:induction false} OnlyGrows(trace: seq<Ev>, k: nat)
    requires Safe(trace) && k <= |trace|
    ensures Mon(trace[..k]).kit.repeers <= Mon(trace).kit.repeers
    decreases |trace| - k
  {
    hide Mon, Safe;
    if k < |trace| {
      PeersAt(trace, k);
      OnlyGrows(trace, k + 1);
    } else {
      assert trace[..k] == trace;
    }
  }

  /** With other clients to rejoin, each Clear that wants it is followed by it before the next one that does. */
  lemma PeersRejoined(g: Setup, trace: seq<Ev>, k: nat) returns (r: nat)
    requires Safe(trace) && Fitted(g, Mon(trace).kit) && g.clients >= 2 && k < |trace| && WantsPeers(trace[k])
    ensures k < r < |trace| && trace[r].Repeered? && forall j :: k < j < r ==> !WantsPeers(trace[j])
  {
    hide Mon, Safe, WantsPeers;
    PeersAt(trace, k);
    NeverAhead(trace, k);
    if Mon(trace[..k + 1]).kit.heals >= Mon(trace[..k + 1]).kit.repeers + 2 {
      LeftAlone(trace, k + 1);
    }
    r := RejoinFrom(trace, k + 1);
  }

  lemma {:induction false} RejoinFrom(trace: seq<Ev>, a: nat) returns (r: nat)
    requires Safe(trace) && a <= |trace| && Mon(trace[..a]).kit.heals == Mon(trace[..a]).kit.repeers + 1
    requires Mon(trace).kit.heals == Mon(trace).kit.repeers
    ensures a <= r < |trace| && trace[r].Repeered? && forall j :: a <= j < r ==> !WantsPeers(trace[j])
    decreases |trace| - a
  {
    hide Mon, Safe;
    assert trace[..|trace|] == trace;
    if a < |trace| {
      PeersAt(trace, a);
      if trace[a].Repeered? {
        r := a;
      } else {
        if WantsPeers(trace[a]) {
          LeftAlone(trace, a + 1);
        }
        r := RejoinFrom(trace, a + 1);
      }
    }
  }

  /** With nobody else there is nothing to rejoin. */
  lemma NobodyRejoined(g: Setup, trace: seq<Ev>)
    requires Safe(trace) && Fitted(g, Mon(trace).kit) && g.clients < 2
    ensures forall k :: 0 <= k < |trace| ==> !trace[k].Repeered?
  {
    hide Mon, Safe;
    forall k | 0 <= k < |trace|
      ensures !trace[k].Repeered?
    {
      PeersAt(trace, k);
      NeverAhead(trace, k + 1);
    }
  }
}
