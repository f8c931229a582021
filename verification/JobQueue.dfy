/**
 The job queue of cmd/pbtchaos/main.go:349-408 as interleaved steps: any number of submitters, one
 worker, a mutex around running, queued and history, and a channel the worker reads without it.
 A job is its name; names are not empty, and 0 stands for the empty one.
 */
module JobQueue {
  import opened Options

  const CHANNEL_CAP := 16
  const HISTORY_CAP := 50

  type Name = n: nat | n > 0 witness 1

  /** Where one call of submit stands; from holding to sent it has the mutex. */
  datatype Submitter = Away | Checked(name: Name) | Holding(name: Name) | Sent(name: Name)

  /** Where the worker stands; clearing is after a job, before the next. */
  datatype Worker = Waiting | InHand(name: Name) | Running(name: Name) | Clearing | Stopped

  datatype Ev = Accepted(name: Name) | Began(name: Name) | Ended(name: Name) | ClearTried(ok: bool)

  datatype State = State(
    subs: seq<Submitter>, holder: Option<nat>, chan: seq<Name>, quiesced: bool,
    running: nat, queued: seq<Name>, history: seq<Name>, worker: Worker, log: seq<Ev>)
  {
    /** What busy answers to whoever gets the mutex. */
    predicate Busy() {
      running != 0 || queued != []
    }
  }

  datatype Step =
    | Check(i: nat, name: Name) | Acquire(i: nat) | Send(i: nat) | Full(i: nat) | Append(i: nat)
    | Quiesce | Receive | Begin | End | Clear(ok: bool) | Stop

  predicate Enabled(s: State, step: Step) {
    match step
    case Check(i, _) => i < |s.subs| && s.subs[i].Away? && !s.quiesced
    case Acquire(i) => i < |s.subs| && s.subs[i].Checked? && s.holder.None?
    case Send(i) => i < |s.subs| && s.subs[i].Holding? && |s.chan| < CHANNEL_CAP
    case Full(i) => i < |s.subs| && s.subs[i].Holding? && |s.chan| >= CHANNEL_CAP
    case Append(i) => i < |s.subs| && s.subs[i].Sent?
    case Quiesce => true
    case Receive => s.worker.Waiting? && s.chan != []
    case Begin => s.worker.InHand? && s.holder.None?
    case End => s.worker.Running? && s.holder.None?
    case Clear(_) => s.worker.Clearing?
    case Stop => s.worker.Waiting?
  }

  function Last(h: seq<Name>, n: nat): seq<Name> {
    if |h| > n then h[|h| - n..] else h
  }

  function After(s: State, step: Step): State
    requires Enabled(s, step)
  {
    match step
    case Check(i, name) => s.(subs := s.subs[i := Checked(name)])
    case Acquire(i) => s.(subs := s.subs[i := Holding(s.subs[i].name)], holder := Some(i))
    case Send(i) =>
      var name := s.subs[i].name;
      s.(subs := s.subs[i := Sent(name)], chan := s.chan + [name], log := s.log + [Accepted(name)])
    case Full(i) => s.(subs := s.subs[i := Away], holder := None)
    case Append(i) => s.(subs := s.subs[i := Away], holder := None, queued := s.queued + [s.subs[i].name])
    case Quiesce => s.(quiesced := true)
    case Receive => s.(worker := InHand(s.chan[0]), chan := s.chan[1..])
    case Begin =>
      var name := s.worker.name;
      s.(worker := Running(name), running := name, log := s.log + [Began(name)],
         queued := if s.queued != [] && s.queued[0] == name then s.queued[1..] else s.queued)
    case End =>
      s.(worker := Clearing, running := 0, log := s.log + [Ended(s.worker.name)],
         history := Last(s.history + [s.worker.name], HISTORY_CAP))
    case Clear(ok) => s.(worker := Waiting, log := s.log + [ClearTried(ok)])
    case Stop => s.(worker := Stopped)
  }

  /** The driver clears the network before it starts. */
  predicate Init(s: State) {
    && (forall i :: 0 <= i < |s.subs| ==> s.subs[i].Away?)
    && s.holder.None? && s.chan == [] && !s.quiesced && s.running == 0 && s.queued == [] && s.history == []
    && s.worker.Waiting? && s.log == []
  }

  predicate Enables(s: State, steps: seq<Step>)
    decreases steps
  {
    steps == [] || (Enabled(s, steps[0]) && Enables(After(s, steps[0]), steps[1..]))
  }

  function Run(s: State, steps: seq<Step>): State
    requires Enables(s, steps)
    decreases steps
  {
    if steps == [] then s else Run(After(s, steps[0]), steps[1..])
  }

  // ---- Reading the log ----

  function AcceptedNames(log: seq<Ev>): seq<Name> {
    if log == [] then []
    else AcceptedNames(log[..|log| - 1]) + if log[|log| - 1].Accepted? then [log[|log| - 1].name] else []
  }

  function BegunNames(log: seq<Ev>): seq<Name> {
    if log == [] then []
    else BegunNames(log[..|log| - 1]) + if log[|log| - 1].Began? then [log[|log| - 1].name] else []
  }

  function EndedNames(log: seq<Ev>): seq<Name> {
    if log == [] then []
    else EndedNames(log[..|log| - 1]) + if log[|log| - 1].Ended? then [log[|log| - 1].name] else []
  }

  /** Where a run of jobs stands: none, one running, or one over but not cleared. */
  datatype Stage = Cleared | Busy(name: Name) | Uncleared | Broken

  /** Jobs go one at a time: begin, end, clear. */
  function StageOf(log: seq<Ev>): Stage {
    if log == [] then Cleared else NextStage(StageOf(log[..|log| - 1]), log[|log| - 1])
  }

  function NextStage(before: Stage, e: Ev): Stage {
    match e
    case Accepted(_) => before
    case Began(n) => if before == Cleared then Stage.Busy(n) else Broken
    case Ended(n) => if before == Stage.Busy(n) then Uncleared else Broken
    case ClearTried(_) => if before == Uncleared then Cleared else Broken
  }

  lemma StageSnoc(log: seq<Ev>, e: Ev)
    ensures StageOf(log + [e]) == NextStage(StageOf(log), e)
  {
    LogSnoc(log, e);
  }

  lemma LogSnoc(log: seq<Ev>, e: Ev)
    ensures (log + [e])[..|log + [e]| - 1] == log
  {
  }

  // ---- The invariant ----

  function Hand(s: State): seq<Name> {
    if s.worker.InHand? then [s.worker.name] else []
  }

  /** What a submitter has sent but not yet listed. */
  function Unlisted(s: State): seq<Name> {
    if s.holder.Some? && s.holder.value < |s.subs| && s.subs[s.holder.value].Sent? then [s.subs[s.holder.value].name]
    else []
  }

  /** The mutex is held by the one submitter past it. */
  predicate Exclusive(s: State) {
    && (forall i :: 0 <= i < |s.subs| && (s.subs[i].Holding? || s.subs[i].Sent?) ==> s.holder == Some(i))
    && (s.holder.Some?
        ==> s.holder.value < |s.subs| && !s.subs[s.holder.value].Away? && !s.subs[s.holder.value].Checked?)
  }

  /**
   Listed names are the job in hand, then the channel; only one in the middle of being submitted is not listed
   yet.
   */
  predicate Listed(s: State) {
    s.queued + Unlisted(s) == Hand(s) + s.chan
  }

  /** The worker is where the log says. */
  predicate Staged(s: State) {
    && (s.running != 0 <==> s.worker.Running?) && (s.worker.Running? ==> s.running == s.worker.name)
    && StageOf(s.log) == (match s.worker
                          case Running(n) => Stage.Busy(n)
                          case Clearing => Uncleared
                          case _ => Cleared)
  }

  /** Every accepted job is begun once, in order; the last ones ended are remembered. */
  predicate InOrder(s: State) {
    && AcceptedNames(s.log) == BegunNames(s.log) + Hand(s) + s.chan
    && s.history == Last(EndedNames(s.log), HISTORY_CAP)
    && |s.chan| <= CHANNEL_CAP
  }

  predicate Inv(s: State) {
    Exclusive(s) && Listed(s) && Staged(s) && InOrder(s)
  }

  lemma InitInv(s: State)
    requires Init(s)
    ensures Inv(s)
  {
  }

  lemma ExclusiveKept(s: State, step: Step)
    requires Exclusive(s) && Enabled(s, step)
    ensures Exclusive(After(s, step))
  {
  }

  lemma ListedKept(s: State, step: Step)
    requires Exclusive(s) && Listed(s) && Enabled(s, step)
    ensures Listed(After(s, step))
  {
    var t := After(s, step);
    match step {
      case Send(i) =>
        assert Unlisted(s) == [] && Unlisted(t) == [s.subs[i].name];
        assert Hand(s) + (s.chan + [s.subs[i].name]) == Hand(s) + s.chan + [s.subs[i].name];
      case Append(i) =>
        assert Unlisted(s) == [s.subs[i].name] && Unlisted(t) == [];
      case Receive =>
        assert Hand(s) + s.chan == Hand(t) + t.chan;
      case Begin =>
        assert s.queued == s.queued + Unlisted(s) == [s.worker.name] + s.chan;
        assert s.queued[0] == s.worker.name && s.queued[1..] == s.chan;
      case Check(i, name) =>
        assert Unlisted(t) == Unlisted(s);
      case Acquire(i) =>
        assert Unlisted(s) == [] && Unlisted(t) == [];
      case Full(i) =>
        assert Unlisted(s) == [] && Unlisted(t) == [];
      case _ =>
        assert Unlisted(t) == Unlisted(s);
    }
  }

  lemma StagedKept(s: State, step: Step)
    requires Staged(s) && Enabled(s, step)
    ensures Staged(After(s, step))
  {
    hide StageOf;
    match step {
      case Send(i) => StageSnoc(s.log, Accepted(s.subs[i].name));
      case Begin => StageSnoc(s.log, Began(s.worker.name));
      case End => StageSnoc(s.log, Ended(s.worker.name));
      case Clear(ok) => StageSnoc(s.log, ClearTried(ok));
      case _ =>
    }
  }

  lemma LastOfMore(h: seq<Name>, x: Name, n: nat)
    requires n > 0
    ensures Last(Last(h, n) + [x], n) == Last(h + [x], n)
  {
  }

  lemma InOrderKept(s: State, step: Step)
    requires InOrder(s) && Enabled(s, step)
    ensures InOrder(After(s, step))
  {
    hide AcceptedNames, BegunNames, EndedNames, Last;
    var t := After(s, step);
    match step {
      case Send(i) =>
        NamesSnoc(s.log, Accepted(s.subs[i].name));
        assert BegunNames(s.log) + Hand(s) + (s.chan + [s.subs[i].name])
               == BegunNames(s.log) + Hand(s) + s.chan + [s.subs[i].name];
      case Receive =>
        assert Hand(s) + s.chan == Hand(t) + t.chan;
      case Begin =>
        NamesSnoc(s.log, Began(s.worker.name));
      case End =>
        NamesSnoc(s.log, Ended(s.worker.name));
        LastOfMore(EndedNames(s.log), s.worker.name, HISTORY_CAP);
      case Clear(ok) =>
        NamesSnoc(s.log, ClearTried(ok));
      case _ =>
    }
  }

  lemma NamesSnoc(log: seq<Ev>, e: Ev)
    ensures AcceptedNames(log + [e]) == if e.Accepted? then AcceptedNames(log) + [e.name] else AcceptedNames(log)
    ensures BegunNames(log + [e]) == if e.Began? then BegunNames(log) + [e.name] else BegunNames(log)
    ensures EndedNames(log + [e]) == if e.Ended? then EndedNames(log) + [e.name] else EndedNames(log)
  {
    LogSnoc(log, e);
  }

  /** Every step of every thread keeps the invariant. */
  lemma StepKeeps(s: State, step: Step)
    requires Inv(s) && Enabled(s, step)
    ensures Inv(After(s, step))
  {
    hide Exclusive, Listed, Staged, InOrder, Enabled, After;
    ExclusiveKept(s, step);
    ListedKept(s, step);
    StagedKept(s, step);
    InOrderKept(s, step);
  }

  lemma {:induction false} RunKeeps(s: State, steps: seq<Step>)
    requires Inv(s) && Enables(s, steps)
    ensures Inv(Run(s, steps))
    decreases steps
  {
    hide Inv;
    if steps != [] {
      StepKeeps(s, steps[0]);
      RunKeeps(After(s, steps[0]), steps[1..]);
    }
  }

  // ---- What the invariant says ----

  /** Whoever has the mutex free sees the queue as it is: the job in hand, then the channel in order. */
  lemma QueuedIsTheQueue(s: State)
    requires Inv(s) && s.holder.None?
    ensures s.queued == Hand(s) + s.chan
    ensures s.Busy() <==> s.chan != [] || s.worker.InHand? || s.worker.Running?
  {
    assert s.queued + Unlisted(s) == s.queued;
  }

  /** Jobs are begun in the order they were accepted, each once, and none is lost. */
  lemma JobsRunInOrder(s: State)
    requires Inv(s)
    ensures BegunNames(s.log) <= AcceptedNames(s.log)
    ensures |AcceptedNames(s.log)| - |BegunNames(s.log)| == |Hand(s)| + |s.chan| <= CHANNEL_CAP + 1
    ensures |s.history| <= HISTORY_CAP
  {
    assert BegunNames(s.log) + Hand(s) + s.chan == BegunNames(s.log) + (Hand(s) + s.chan);
  }

  /** What is remembered is the newest jobs that ended, in order, up to fifty of them. */
  lemma HistoryIsNewest(s: State)
    requires Inv(s)
    ensures
      var ended := EndedNames(s.log);
      && |s.history| == (if |ended| < 50 then |ended| else 50)
      && forall i :: 0 <= i < |s.history| ==> s.history[i] == ended[|ended| - |s.history| + i]
  {
  }

  lemma {:induction false} StagePrefix(log: seq<Ev>, k: nat)
    requires k <= |log| && StageOf(log) != Broken
    ensures StageOf(log[..k]) != Broken
  {
    if k == |log| {
      assert log[..k] == log;
    } else {
      StagePrefix(log[..|log| - 1], k);
      assert log[..|log| - 1][..k] == log[..k];
    }
  }

  lemma {:induction false} NotClearedSince(log: seq<Ev>, i: nat)
    requires i < |log| && log[i].Began? && StageOf(log) != Broken && forall k :: i < k < |log| ==> !log[k].ClearTried?
    ensures StageOf(log) != Cleared
  {
    if i < |log| - 1 {
      NotClearedSince(log[..|log| - 1], i);
    }
  }

  /** At most one job runs, and between any two a Clear was tried. */
  lemma ClearSeparatesJobs(s: State, i: nat, j: nat)
    requires Inv(s) && i < j < |s.log| && s.log[i].Began? && s.log[j].Began?
    ensures exists k :: i < k < j && s.log[k].ClearTried?
    ensures exists k :: i < k < j && s.log[k] == Ended(s.log[i].name)
  {
    StagePrefix(s.log, j + 1);
    assert s.log[..j + 1][..j] == s.log[..j];
    if forall k :: i < k < j ==> !s.log[k].ClearTried? {
      NotClearedSince(s.log[..j], i);
    }
    if forall k :: i < k < j ==> s.log[k] != Ended(s.log[i].name) {
      NotEndedSince(s.log[..j], i);
    }
  }

  lemma {:induction false} NotEndedSince(log: seq<Ev>, i: nat)
    requires i < |log| && log[i].Began? && StageOf(log) != Broken
    requires forall k :: i < k < |log| ==> log[k] != Ended(log[i].name)
    ensures StageOf(log) == Stage.Busy(log[i].name)
  {
    if i < |log| - 1 {
      NotEndedSince(log[..|log| - 1], i);
    }
  }

  // ---- Quiescing ----

  /** No submit call is past its test of the flag. */
  predicate NonePast(s: State) {
    forall i :: 0 <= i < |s.subs| ==> s.subs[i].Away?
  }

  /** Quiesced, idle, and no submit call past the flag: nothing is accepted or run any more. */
  predicate Drained(s: State) {
    s.quiesced && NonePast(s) && s.chan == [] && s.queued == [] && s.running == 0 && !s.worker.InHand?
    && !s.worker.Running?
  }

  lemma {:induction false} DrainedStays(s: State, steps: seq<Step>)
    requires Drained(s) && Enables(s, steps)
    ensures Drained(Run(s, steps)) && AcceptedNames(Run(s, steps).log) == AcceptedNames(s.log)
    ensures BegunNames(Run(s, steps).log) == BegunNames(s.log)
    decreases steps
  {
    if steps != [] {
      var t := After(s, steps[0]);
      if t.log != s.log {
        LogSnoc(s.log, t.log[|s.log|]);
      }
      assert Drained(t) && AcceptedNames(t.log) == AcceptedNames(s.log) && BegunNames(t.log) == BegunNames(s.log);
      DrainedStays(t, steps[1..]);
    }
  }

  /** Some run of steps goes from s to t. */
  ghost predicate Leads(s: State, t: State) {
    exists steps: seq<Step> :: Enables(s, steps) && Run(s, steps) == t
  }

  lemma LeadsSelf(s: State)
    ensures Leads(s, s)
  {
    assert Enables(s, []) && Run(s, []) == s;
  }

  lemma LeadsBack(s: State, step: Step, t: State)
    requires Enabled(s, step) && Leads(After(s, step), t)
    ensures Leads(s, t)
  {
    var rest: seq<Step> :| Enables(After(s, step), rest) && Run(After(s, step), rest) == t;
    hide Enabled, After;
    var steps := [step] + rest;
    assert steps[1..] == rest;
    assert Enables(s, steps) && Run(s, steps) == t;
  }

  lemma LeadsKeeps(s: State, t: State)
    requires Inv(s) && Leads(s, t)
    ensures Inv(t)
  {
    hide Inv;
    var steps: seq<Step> :| Enables(s, steps) && Run(s, steps) == t;
    RunKeeps(s, steps);
  }

  /** After a whole call of submit that finds room. */
  function Submitted(s: State, i: nat): State
    requires i < |s.subs| && s.subs[i].Checked?
  {
    var name := s.subs[i].name;
    s.(subs := s.subs[i := Away], chan := s.chan + [name], queued := s.queued + [name], log := s.log + [Accepted(name)])
  }

  lemma SubmitLeads(s: State, i: nat, t: State)
    requires i < |s.subs| && s.subs[i].Checked? && s.holder.None? && |s.chan| < CHANNEL_CAP
    requires Leads(Submitted(s, i), t)
    ensures Leads(s, t)
  {
    hide Leads;
    var s1 := After(s, Acquire(i));
    var s2 := After(s1, Send(i));
    assert After(s2, Append(i)) == Submitted(s, i);
    LeadsBack(s2, Append(i), t);
    LeadsBack(s1, Send(i), t);
    LeadsBack(s, Acquire(i), t);
  }

  /** Some further steps lead to a state that is busy with the mutex free. */
  ghost predicate MayGetBusy(s: State) {
    exists t: State :: Leads(s, t) && t.holder.None? && t.Busy()
  }

  /**
   submit tests the flag before it takes the mutex. So a driver that answers quiesced and idle stays
   idle exactly when no submit call was between the two at that moment.
   */
  lemma IdleStaysExactlyWhen(s: State)
    requires Inv(s) && s.quiesced && s.holder.None? && !s.Busy()
    ensures MayGetBusy(s) <==> !NonePast(s)
  {
    QuietState(s);
    if NonePast(s) {
      forall t: State | Leads(s, t)
        ensures !t.Busy()
      {
        var steps: seq<Step> :| Enables(s, steps) && Run(s, steps) == t;
        DrainedStays(s, steps);
      }
    } else {
      var i :| 0 <= i < |s.subs| && !s.subs[i].Away?;
      LateSubmit(s, i);
    }
  }

  lemma QuietState(s: State)
    requires Inv(s) && s.holder.None? && !s.Busy()
    ensures s.chan == [] && s.queued == [] && s.running == 0 && !s.worker.InHand? && !s.worker.Running?
    ensures forall i :: 0 <= i < |s.subs| ==> s.subs[i].Away? || s.subs[i].Checked?
  {
    QueuedIsTheQueue(s);
  }

  lemma LateSubmit(s: State, i: nat)
    requires i < |s.subs| && s.subs[i].Checked? && s.holder.None? && s.chan == []
    ensures MayGetBusy(s)
  {
    var t := Submitted(s, i);
    LeadsSelf(t);
    SubmitLeads(s, i, t);
    assert t.queued != [];
  }

  // ---- Idle and cleared ----

  /**
   busy looks at running and queued alone, and a job is off both before the Clear after it is tried:
   idle means cleared exactly when the worker is not at that Clear.
   */
  lemma IdleIsClearedExactlyWhen(s: State)
    requires Inv(s) && s.holder.None? && !s.Busy()
    ensures StageOf(s.log) == Cleared <==> !s.worker.Clearing?
    ensures s.worker.Clearing? ==> StageOf(s.log) == Uncleared
  {
    QuietState(s);
  }

  /**
   A caller that waits for quiesced and idle can meet that moment in the very first job of any driver,
   with no submit call in flight: nothing will run again, and the Clear is still to come.
   */
  lemma IdleBeforeCleared(s: State)
    requires Init(s) && |s.subs| > 0
    ensures exists t: State :: Leads(s, t) && Drained(t) && t.holder.None? && !t.Busy() && StageOf(t.log) == Uncleared
  {
    var checked := After(s, Check(0, 1));
    var t := OverUnderQuiesce(Submitted(checked, 0));
    FirstJobLeads(Submitted(checked, 0));
    SubmitLeads(checked, 0, t);
    LeadsBack(s, Check(0, 1), t);
    InitInv(s);
    LeadsKeeps(s, t);
    IdleIsClearedExactlyWhen(t);
  }

  /** The one job in the channel has run and the driver was quiesced meanwhile. */
  function OverUnderQuiesce(s: State): State
    requires |s.chan| == 1
  {
    var name := s.chan[0];
    s.(chan := [], queued := [], running := 0, quiesced := true, worker := Clearing,
       log := s.log + [Began(name)] + [Ended(name)], history := Last(s.history + [name], HISTORY_CAP))
  }

  lemma FirstJobLeads(s: State)
    requires s.holder.None? && s.worker.Waiting? && |s.chan| == 1 && s.queued == s.chan
    ensures Leads(s, OverUnderQuiesce(s))
  {
    var t := OverUnderQuiesce(s);
    var s1 := After(s, Receive);
    var s2 := After(s1, Begin);
    var s3 := After(s2, Quiesce);
    LeadsSelf(t);
    hide Leads;
    assert After(s3, End) == t;
    LeadsBack(s3, End, t);
    LeadsBack(s2, Quiesce, t);
    LeadsBack(s1, Begin, t);
    LeadsBack(s, Receive, t);
  }

  /** From then on the network is cleared exactly when the worker was past its Clear or has come to it. */
  lemma {:induction false} DrainedIsClearedOnceTried(s: State, steps: seq<Step>)
    requires Inv(s) && Drained(s) && Enables(s, steps)
    ensures StageOf(Run(s, steps).log) == Cleared
            <==> !s.worker.Clearing? || exists i :: 0 <= i < |steps| && steps[i].Clear?
    decreases steps
  {
    if steps != [] {
      var t := After(s, steps[0]);
      StepKeeps(s, steps[0]);
      assert Drained(t);
      DrainedIsClearedOnceTried(t, steps[1..]);
      assert forall i :: 0 < i < |steps| ==> steps[i] == steps[1..][i - 1];
    }
  }
}
