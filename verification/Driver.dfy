/**
 The serial driver of a schedule (cmd/migration-chaos/main.go:144-414): one pass over the sorted
 action list, against a network that may refuse any Partition or Clear, answer or drop any probe,
 and a shutdown that may come at any wait.
 */
module Driver {
  import opened Options
  import opened Schedule
  import opened Actions
  import opened Records

  /** The groups of a Partition: the rest of the network, then the victims, each alone when mutual. */
  method Islands(participants: nat, victims: seq<int>, mutual: bool) returns (groups: seq<seq<int>>)
    ensures |groups| == if mutual then 1 + |victims| else 2
    ensures forall p :: p in groups[0] <==> 1 <= p <= participants && p !in victims
    ensures mutual ==> forall i :: 0 <= i < |victims| ==> groups[i + 1] == [victims[i]]
    ensures !mutual ==> groups[1] == victims
  {
    var others := [];
    for i := 1 to participants + 1
      invariant forall p :: p in others <==> 1 <= p < i && p !in victims
    {
      if i !in victims {
        others := others + [i];
      }
    }
    groups := [others];
    if mutual {
      for i := 0 to |victims|
        invariant |groups| == 1 + i && groups[0] == others
        invariant forall k :: 0 <= k < i ==> groups[k + 1] == [victims[k]]
      {
        groups := groups + [[victims[i]]];
      }
    } else {
      groups := groups + [victims];
    }
  }

  /** What the driver relies on in its action list. */
  ghost predicate Plan(acts: seq<Action>) {
    && (forall k :: 0 <= k < |acts| && !acts[k].Sweep? ==>
          acts[k].at == if acts[k].OpStart? then acts[k].op.start else acts[k].op.end)
    && (forall k :: 0 <= k < |acts| && acts[k].OpStart? ==>
          k + 1 < |acts| && acts[k + 1] == OpEnd(acts[k].op.end, acts[k].op))
    && (forall k :: 0 <= k < |acts| && acts[k].OpEnd? ==> k > 0 && acts[k - 1] == OpStart(acts[k].op.start, acts[k].op))
    && (forall k, m :: 0 <= k < m < |acts| && acts[k].OpStart? && acts[m].OpStart? ==>
          acts[k].op.name != acts[m].op.name)
  }

  lemma SerialPlan(s: Schedule, acts: seq<Action>)
    requires Serial(s) && Ordered(acts) && multiset(acts) == multiset(Flat(s))
    ensures Plan(acts)
  {
    EndFollowsStart(s, acts);
    forall k | 0 <= k < |acts| && !acts[k].Sweep?
      ensures acts[k].at == if acts[k].OpStart? then acts[k].op.start else acts[k].op.end
    {
      var i := OpOf(s, acts, k);
    }
    forall k, m | 0 <= k < m < |acts| && acts[k].OpStart? && acts[m].OpStart?
      ensures acts[k].op.name != acts[m].op.name
    {
      NamesDiffer(s, acts, k, m);
    }
  }

  lemma NamesDiffer(s: Schedule, acts: seq<Action>, k: nat, m: nat)
    requires Serial(s) && Ordered(acts) && multiset(acts) == multiset(Flat(s)) && k < m < |acts|
    requires acts[k].OpStart? && acts[m].OpStart?
    ensures acts[k].op.name != acts[m].op.name
  {
    hide Ordered, Flat;
    var i := OpOf(s, acts, k);
    var j := OpOf(s, acts, m);
    if i == j {
      assert acts[k] == acts[m];
      OnlyOnce(s, acts, k, m);
    } else if i < j {
      assert s.ops[i].name != s.ops[j].name;
    } else {
      assert s.ops[j].name != s.ops[i].name;
    }
  }

  /** Action i - 1 cut a partition that no Clear has been tried for. */
  predicate Owing(acts: seq<Action>, i: nat, applied: set<nat>)
    requires i <= |acts|
  {
    i > 0 && acts[i - 1].OpStart? && acts[i - 1].op.name in applied
  }

  /** What a driver is given: whether it can inject state, and how many clients there are. */
  datatype Setup = Setup(injector: bool, clients: nat)

  /** State is injected for this op. */
  predicate Injects(g: Setup, op: Op) {
    g.injector && op.kind == Straddle
  }

  /** The groups of an op's Partition: the rest of the network, then its victims together, or each alone when mutual. */
  ghost predicate Splits(participants: nat, op: Op, groups: seq<seq<int>>) {
    && |groups| == (if op.mutual then 1 + |op.victims| else 2)
    && (forall p :: p in groups[0] <==> 1 <= p <= participants && p !in op.victims)
    && (op.mutual ==> forall i :: 0 <= i < |op.victims| ==> groups[i + 1] == [op.victims[i]])
    && (!op.mutual ==> groups[1] == op.victims)
  }

  /**
   With this gear every Partition splits the network so; a deploy was tried for exactly the straddles among
   the starts dealt with, the writes for exactly those accepted, and the peers are rejoined after every
   Clear that wants it.
   */
  ghost predicate Fitted(g: Setup, k: Kit) {
    && (forall x :: x in k.starts ==> (x.1 <==> Injects(g, x.0)))
    && (forall x :: x in k.writes ==> (x.1.Some? <==> Injects(g, x.0)))
    && (k.ready.Some? ==> Injects(g, k.ready.value)) && (k.writing.Some? ==> g.injector)
    && (forall x :: x in k.splits ==> Splits(g.clients, x.0, x.1))
    && k.repeers == if g.clients < 2 then 0 else k.heals
  }

  /** With a Partition accepted for op: the writes it calls for are all made, and no hold has begun. */
  ghost predicate Injected(g: Setup, k: Kit, op: Op) {
    && (k.writing.Some? <==> Injects(g, op)) && !k.paused
    && (k.writing.Some? ==> WroteAll(k.contract, k.writing.value))
  }

  /** The ops ended without having been accepted, once per victim. */
  function Nevers(acts: seq<Action>, cuts: seq<Op>): seq<Op> {
    if acts == [] then []
    else
      var a := acts[|acts| - 1];
      Nevers(acts[..|acts| - 1], cuts)
      + if a.OpEnd? && a.op !in cuts then seq(|a.op.victims|, _ => a.op) else []
  }

  /** The driver before action i: m is what its trace so far amounts to. */
  ghost predicate Between(g: Setup, acts: seq<Action>, i: nat, m: Watch, healed: bool, applied: set<nat>) {
    && i <= |acts|
    && m.owed == [] && !m.stopped && !m.kit.over && healed == m.cleared
    && CutsSoFar(acts, i, m.cuts, applied) && m.done == Due(acts[..i])
    && (m.attempted <==> !Owing(acts, i, applied))
    && (Owing(acts, i, applied) ==> Holding(m, acts[i - 1].op, {}, {}, {}) && m.asks == [])
    && Fitted(g, m.kit) && m.kit.ready.None? && m.kit.never == Nevers(acts[..i], m.cuts)
    && (Owing(acts, i, applied) ==> Injected(g, m.kit, acts[i - 1].op))
  }

  /** What a hold for this op knows: exactly what its probes since the cut answered. */
  ghost predicate Holding(m: Watch, op: Op, crossed: set<int>, reached: set<int>, warned: set<int>) {
    && m.Last() == Some(op) && !m.attempted && m.owed == [] && !m.stopped && !m.kit.over && WritesDone(m)
    && m.crossed == crossed && m.reached == reached
    && forall v :: v in warned <==> (v, Failed) in m.asks
  }

  /** Nothing is owed and nothing has come but lines that change nothing. */
  ghost predicate Calm(m: Watch) {
    m.owed == [] && !m.stopped && !m.kit.over
  }

  /** n is m after a shutdown's Clear. */
  ghost predicate Halted(m: Watch, n: Watch) {
    n.stopped && n.attempted && n.owed == [] && Kept(m, n) && SameKit(m.kit, n.kit)
  }

  ghost predicate Kept(m: Watch, n: Watch) {
    && n.cuts == m.cuts && n.done == m.done && n.refused == m.refused
    && n.kit.contract == m.kit.contract && n.kit.starts == m.kit.starts && n.kit.never == m.kit.never
    && n.kit.ready == m.kit.ready && n.kit.splits == m.kit.splits
  }

  /** Only a hold's pause may have been logged. */
  ghost predicate SameKit(k: Kit, l: Kit) {
    l == k.(paused := l.paused)
  }

  ghost predicate SameCut(m: Watch, n: Watch) {
    Kept(m, n) && n.attempted == m.attempted && n.cleared == m.cleared && SameKit(m.kit, n.kit)
  }

  /** n is m but for what was done beside the partitions, which is k. */
  ghost predicate Beside(m: Watch, n: Watch, k: Kit) {
    n == m.(owedAt := n.owedAt, kit := k)
  }

  /** The starts and sweeps of an action list. */
  function Due(acts: seq<Action>): seq<Action> {
    if acts == [] then []
    else Due(acts[..|acts| - 1]) + if acts[|acts| - 1].OpEnd? then [] else [acts[|acts| - 1]]
  }

  /** Every start and sweep, each as often as it is there, and no end. */
  lemma {:induction false} DueMeans(acts: seq<Action>, a: Action)
    ensures multiset(Due(acts))[a] == if a.OpEnd? then 0 else multiset(acts)[a]
  {
    if acts != [] {
      var rest, last := acts[..|acts| - 1], acts[|acts| - 1];
      DueMeans(rest, a);
      assert acts == rest + [last];
    }
  }

  lemma DueNext(acts: seq<Action>, i: nat)
    requires i < |acts|
    ensures Due(acts[..i + 1]) == Due(acts[..i]) + if acts[i].OpEnd? then [] else [acts[i]]
  {
    assert acts[..i + 1][..i] == acts[..i];
  }

  lemma {:induction false} DuePrefix(acts: seq<Action>, i: nat)
    requires i <= |acts|
    ensures Due(acts[..i]) <= Due(acts)
  {
    if i == |acts| {
      assert acts[..i] == acts;
    } else {
      DuePrefix(acts[..|acts| - 1], i);
      assert acts[..|acts| - 1][..i] == acts[..i];
    }
  }

  /** The accepted ops are those applied, each accepted once, from its own start. */
  ghost predicate CutsSoFar(acts: seq<Action>, i: nat, cuts: seq<Op>, applied: set<nat>)
    requires i <= |acts|
  {
    && (forall n :: n in applied ==> StartedBefore(acts, i, n))
    && (forall c :: 0 <= c < |cuts| ==> cuts[c].name in applied && OpStart(cuts[c].start, cuts[c]) in acts)
    && (forall c, d :: 0 <= c < d < |cuts| ==> cuts[c].name != cuts[d].name)
  }

  ghost predicate StartedBefore(acts: seq<Action>, i: nat, name: nat)
    requires i <= |acts|
  {
    exists k :: 0 <= k < i && acts[k].OpStart? && acts[k].op.name == name
  }

  class Driver {
    const clients: nat
    const injector: bool
    const slotSeconds: int
    var now: int
    var trace: seq<Ev>
    var healed: bool
    var applied: set<nat>
    /** The injection contract is deployed. */
    var contract: bool

    constructor (clients: nat, injector: bool, slotSeconds: int, now: int)
      ensures this.clients == clients && this.injector == injector && this.slotSeconds == slotSeconds && this.now == now
      ensures trace == [] && healed && applied == {} && !contract
    {
      this.clients := clients;
      this.injector := injector;
      this.slotSeconds := slotSeconds;
      this.now := now;
      trace := [];
      healed := true;
      applied := {};
      contract := false;
    }

    ghost function Given(): Setup {
      Setup(injector, clients)
    }

    method Pass()
      modifies `now
      ensures now >= old(now)
    {
      var d :| d >= 0;
      now := now + d;
    }

    /** False when a shutdown came first. */
    method SleepUntil(t: int) returns (ok: bool)
      modifies `now
      ensures now >= old(now) && (ok ==> now >= t)
    {
      if now >= t {
        return true;
      }
      var d :| d >= 0;
      ok := *;
      now := (if ok then t else now) + d;
    }

    method Emit(line: Line)
      requires Safe(trace) && StepOk(Mon(trace), Logged(line, now))
      modifies `trace
      ensures trace == old(trace) + [Logged(line, now)]
      ensures Safe(trace) && Mon(trace) == WatchStep(Mon(old(trace)), Logged(line, now))
    {
      SafeSnoc(trace, Logged(line, now));
      trace := trace + [Logged(line, now)];
    }

    /** The next line owed. */
    method Pay(line: Line)
      requires Safe(trace) && Mon(trace).owed != [] && Mon(trace).owed[0] == line && Mon(trace).owedAt == now
               && !line.Skip? && !line.Pause?
      modifies `trace
      ensures Safe(trace) && Mon(trace) == Mon(old(trace)).(owed := Mon(old(trace)).owed[1..])
    {
      hide Safe, Mon, WatchStep;
      PaidStep(Mon(trace), line, now);
      Emit(line);
    }

    /** A pause is never owed. */
    method Pause(over: bool)
      requires Safe(trace) && Calm(Mon(trace)) && MayCome(Mon(trace), Logged(Line.Pause(over), now))
      modifies `trace
      ensures Safe(trace)
      ensures
        var k := Mon(old(trace)).kit;
        Mon(trace) == Mon(old(trace)).(kit := if over then k.(over := true) else k.(paused := true))
    {
      hide Safe, Mon;
      Emit(Line.Pause(over));
    }

    method Clear(cause: Cause) returns (ok: bool)
      requires Safe(trace) && StepOk(Mon(trace), Cleared(cause, true, now, now))
      modifies `now, `trace
      ensures now >= old(now) && Safe(trace)
      ensures Mon(trace) == WatchStep(Mon(old(trace)), Cleared(cause, ok, old(now), now))
    {
      ok := *;
      var sent := now;
      Pass();
      SafeSnoc(trace, Cleared(cause, ok, sent, now));
      trace := trace + [Cleared(cause, ok, sent, now)];
    }

    method Partition(op: Op, groups: seq<seq<int>>) returns (ok: bool)
      requires Safe(trace) && StepOk(Mon(trace), Cut(op, groups, true, now, now))
      modifies `now, `trace
      ensures now >= old(now) && Safe(trace)
      ensures Mon(trace) == WatchStep(Mon(old(trace)), Cut(op, groups, ok, old(now), now))
    {
      ok := *;
      var sent := now;
      var d: nat :| d <= REQUEST_TIMEOUT;
      now := now + d;
      SafeSnoc(trace, Cut(op, groups, ok, sent, now));
      trace := trace + [Cut(op, groups, ok, sent, now)];
    }

    /** A shutdown mid-window must not leave the partition applied. */
    method Wait(t: int) returns (ok: bool)
      requires Safe(trace) && Calm(Mon(trace)) && WritesDone(Mon(trace))
      modifies `now, `trace
      ensures now >= old(now) && Safe(trace)
      ensures if ok then trace == old(trace) && now >= t else Halted(Mon(old(trace)), Mon(trace))
    {
      hide Safe, Mon;
      ok := SleepUntil(t);
      if !ok {
        var cleared := Clear(AtStop);
      }
    }

    method Add(e: Ev)
      requires Safe(trace) && StepOk(Mon(trace), e)
      modifies `trace
      ensures Safe(trace) && Mon(trace) == WatchStep(Mon(old(trace)), e)
    {
      SafeSnoc(trace, e);
      trace := trace + [e];
    }

    /** Deploys the contract the writes go to; that logs a heal line when it works. */
    method Deploy(op: Op)
      requires Safe(trace) && Calm(Mon(trace)) && MayDeploy(Mon(trace), op, now, now)
      requires contract == Mon(trace).kit.contract
      modifies `now, `trace, `contract
      ensures now >= old(now) && Safe(trace) && contract == Mon(trace).kit.contract
      ensures Beside(Mon(old(trace)), Mon(trace), Mon(old(trace)).kit.(ready := Some(op), contract := contract))
    {
      hide Safe, Mon;
      ghost var m := Mon(trace);
      var sent := now;
      Pass();
      var ok: bool := *;
      DeployedStep(m, op, ok, sent, now);
      Add(Deployed(op, ok, sent, now));
      if ok {
        contract := true;
        Pay(Heal(None, Plain));
      } else {
        Pay(Warn);
      }
    }

    /** One write of the attempt, and what it logs. */
    method Write(w: Write, ghost ws: seq<Write>)
      requires Safe(trace) && Calm(Mon(trace)) && !Mon(trace).attempted && Mon(trace).asks == []
      requires Mon(trace).kit.writing == Some(ws) && Mon(trace).kit.contract
      modifies `now, `trace
      ensures now >= old(now) && Safe(trace)
      ensures Beside(Mon(old(trace)), Mon(trace), Mon(old(trace)).kit.(writing := Some(ws + [w])))
    {
      hide Safe, Mon;
      ghost var m := Mon(trace);
      Pass();
      WroteStep(m, w, ws, now);
      Add(Wrote(w, now));
      match w {
        case Unreached(_) => Pay(Warn);
        case Put(side, slot, outcome) =>
          if outcome != Confirmed {
            Pay(Warn);
          }
          if outcome != Unsent {
            Pay(Line.Inject(side, slot));
          }
      }
    }

    /** Writes one slot; the network decides what becomes of it. */
    method WriteSlot(side: Side, slot: nat, ghost ws: seq<Write>) returns (w: Write)
      requires Safe(trace) && Calm(Mon(trace)) && !Mon(trace).attempted && Mon(trace).asks == []
      requires Mon(trace).kit.writing == Some(ws) && Mon(trace).kit.contract
      modifies `now, `trace
      ensures w.Put? && w.side == side && w.slot == slot
      ensures now >= old(now) && Safe(trace)
      ensures Beside(Mon(old(trace)), Mon(trace), Mon(old(trace)).kit.(writing := Some(ws + [w])))
    {
      hide Safe, Mon;
      var outcome :| outcome == Unsent || outcome == Unconfirmed || outcome == Confirmed;
      w := Put(side, slot, outcome);
      Write(w, ws);
    }

    /**
     Conflicting writes while the partition is open, the majority's first; without a contract there is nothing to
     write to.
     */
    method SplitWrites(op: Op) returns (ghost ws: seq<Write>)
      requires Safe(trace) && Calm(Mon(trace)) && MayInject(Mon(trace), op, now)
      requires contract == Mon(trace).kit.contract
      modifies `now, `trace
      ensures now >= old(now) && Safe(trace) && WroteAll(contract, ws)
      ensures Beside(Mon(old(trace)), Mon(trace), Mon(old(trace)).kit.(writing := Some(ws)))
    {
      hide Safe, Mon;
      ws := [];
      InjectingStep(Mon(trace), op, now);
      Add(Injecting(op, now));
      if !contract {
        return;
      }
      var reached: bool := *;
      var w;
      if reached {
        var swapped: bool := *;
        var first := if swapped then 2 else 1;
        w := WriteSlot(Majority, first, ws);
        ws := ws + [w];
        w := WriteSlot(Majority, 3 - first, ws);
        ws := ws + [w];
      } else {
        Write(Unreached(Majority), ws);
        ws := ws + [Unreached(Majority)];
      }
      reached := *;
      if reached {
        w := WriteSlot(Island, 1, ws);
        ws := ws + [w];
      } else {
        Write(Unreached(Island), ws);
        ws := ws + [Unreached(Island)];
      }
    }

    /** Rebuilding the peer mesh after a heal also logs a heal line when it works. */
    method Repeer()
      requires Safe(trace) && Calm(Mon(trace)) && Mon(trace).attempted
      requires clients >= 2 ==> Mon(trace).kit.heals == Mon(trace).kit.repeers + 1
      modifies `now, `trace
      ensures now >= old(now) && Safe(trace)
      ensures
        var k := Mon(old(trace)).kit;
        Beside(Mon(old(trace)), Mon(trace), k.(repeers := if clients < 2 then k.repeers else k.repeers + 1))
    {
      hide Safe, Mon;
      if clients < 2 {
        return;
      }
      ghost var m := Mon(trace);
      Pass();
      var ok: bool := *;
      RepeeredStep(m, ok, now);
      Add(Repeered(ok, now));
      if ok {
        Pay(Heal(None, Plain));
      } else {
        Pay(Warn);
      }
    }

    /** One probe of a victim: past the fork on a block the anchor does not know, not yet, or no answer. */
    method Probe(v: int) returns (answer: Answer)
      requires Safe(trace) && StepOk(Mon(trace), Probed(v, NotYet, now))
      modifies `now, `trace
      ensures now >= old(now) && Safe(trace) && Mon(trace) == WatchStep(Mon(old(trace)), Probed(v, answer, now))
    {
      Pass();
      answer :| answer == Failed || answer == NotYet || answer == Crossed;
      SafeSnoc(trace, Probed(v, answer, now));
      trace := trace + [Probed(v, answer, now)];
    }

    /** One round of probes: everyone not yet across is asked once, in order. */
    method Poll(op: Op, crossed: set<int>, reached: set<int>, warned: set<int>)
      returns (crossed': set<int>, reached': set<int>, warned': set<int>, waiting: bool, ghost asks: seq<(int, Answer)>)
      requires Safe(trace) && Holding(Mon(trace), op, crossed, reached, warned)
      modifies `now, `trace
      ensures now >= old(now) && Safe(trace) && SameCut(Mon(old(trace)), Mon(trace))
      ensures Holding(Mon(trace), op, crossed', reached', warned') && Mon(trace).kit == Mon(old(trace)).kit
      ensures Mon(trace).asks == Mon(old(trace)).asks + asks && Round(op.victims, crossed, asks)
      ensures crossed' == Across(crossed, asks) && (waiting <==> Unanswered(asks))
    {
      hide Safe, Mon, Round, Across, Unanswered;
      crossed', reached', warned', waiting, asks := crossed, reached, warned, false, [];
      RoundBegins(crossed);
      assert op.victims[..0] == [];
      for i := 0 to |op.victims|
        invariant now >= old(now) && Safe(trace) && SameCut(Mon(old(trace)), Mon(trace))
        invariant Holding(Mon(trace), op, crossed', reached', warned') && Mon(trace).kit == Mon(old(trace)).kit
        invariant Mon(trace).asks == Mon(old(trace)).asks + asks && Round(op.victims[..i], crossed, asks)
        invariant crossed' == Across(crossed, asks) && (waiting <==> Unanswered(asks))
      {
        var v := op.victims[i];
        RoundNext(op.victims, i, crossed, asks);
        if v !in crossed' {
          var answer := Probe(v);
          asks := asks + [(v, answer)];
          match answer {
            case Failed =>
              if v !in warned' {
                warned' := warned' + {v};
                Pay(Warn);
              }
              waiting := true;
            case Crossed =>
              reached', crossed' := reached' + {v}, crossed' + {v};
              Pay(Isolate(v));
            case NotYet =>
              reached' := reached' + {v};
              waiting := true;
          }
        }
      }
      assert op.victims[..|op.victims|] == op.victims;
    }

    /**
     Polls once a slot until every victim has crossed the fork on its own branch or the hold is
     over; unreachable are the victims no probe reached. Not ok on shutdown.
     */
    method HoldUntilCrossed(op: Op)
      returns (crossed: set<int>, unreachable: set<int>, ok: bool, ghost rounds: seq<seq<(int, Answer)>>,
               ghost ends: seq<int>)
      requires Safe(trace) && Holding(Mon(trace), op, {}, {}, {}) && Mon(trace).asks == []
      requires slotSeconds > 0 && op.holdUntil.Some? && !Mon(trace).kit.paused
      modifies `now, `trace
      ensures now >= old(now) && Safe(trace) && SameCut(Mon(old(trace)), Mon(trace)) && Calm(Mon(trace))
      ensures Polled(op.victims, rounds, Mon(trace).asks, crossed)
              && Paced(rounds, ends, op.holdUntil.value, slotSeconds)
      ensures |ends| == |rounds| > 0 && (ok ==> Over(rounds, ends, op.holdUntil.value) && now == ends[|ends| - 1])
      ensures Mon(trace).kit.paused <==> !ok || |rounds| > 1
      ensures WritesDone(Mon(trace)) && Mon(trace).Last() == Some(op) && !Mon(trace).attempted
      ensures ok ==>
                crossed == Mon(trace).crossed && unreachable == (set v | v in op.victims && v !in Mon(trace).reached)
    {
      hide Safe, Mon, Paced, Polled, Over, Round, Across;
      crossed, unreachable, ok, rounds, ends := {}, {}, true, [], [];
      NoRounds(op.victims, op.holdUntil.value, slotSeconds);
      var reached: set<int>, warned: set<int>, paused := {}, {}, false;
      var more := true;
      while more
        invariant now >= old(now) && Safe(trace) && SameCut(Mon(old(trace)), Mon(trace))
        invariant Holding(Mon(trace), op, crossed, reached, warned)
        invariant Polled(op.victims, rounds, Mon(trace).asks, crossed)
                  && Paced(rounds, ends, op.holdUntil.value, slotSeconds)
        invariant |ends| == |rounds|
                  && (rounds != [] ==> if more then ends[|ends| - 1] + slotSeconds <= now else now == ends[|ends| - 1])
        invariant paused == Mon(trace).kit.paused && (paused <==> |rounds| > 1 || (|rounds| == 1 && more))
        invariant rounds != [] ==> (Over(rounds, ends, op.holdUntil.value) <==> !more)
        invariant !more ==> rounds != []
        decreases more, op.holdUntil.value - now
      {
        var waiting;
        ghost var asks;
        ghost var was := Mon(trace).asks;
        PolledAcross(op.victims, rounds, was, crossed);
        crossed, reached, warned, waiting, asks := Poll(op, crossed, reached, warned);
        OneMoreRound(op.victims, rounds, was, asks);
        PacedNext(rounds, ends, asks, now, op.holdUntil.value, slotSeconds);
        rounds, ends := rounds + [asks], ends + [now];
        if !waiting || now >= op.holdUntil.value {
          more := false;
        } else {
          if !paused {
            paused := true;
            WaitedFor(Mon(trace), asks);
            Pause(false);
          }
          var slept := SleepUntil(now + slotSeconds);
          if !slept {
            ok := false;
            return;
          }
        }
      }
      unreachable := set v | v in op.victims && v !in reached;
    }

    // ---- The actions ----

    method StartOp(acts: seq<Action>, i: nat) returns (ok: bool)
      requires Plan(acts) && i < |acts| && acts[i].OpStart?
      requires Safe(trace) && Between(Given(), acts, i, Mon(trace), healed, applied)
      requires contract == Mon(trace).kit.contract
      modifies this
      ensures contract == Mon(trace).kit.contract
      ensures Safe(trace) && Mon(trace).refused == Mon(old(trace)).refused
      ensures if ok then Between(Given(), acts, i + 1, Mon(trace), healed, applied)
              else CutShort(Given(), acts, i + 1, Mon(trace), applied)
    {
      hide Safe, Mon, Plan, Between, CutsSoFar, Due, CutShort, Nevers, Fitted, WatchStep, StartDone, WroteAll, AtStart,
           AfterStart, Injected;
      BeforeStart(Given(), acts, i, Mon(trace), healed, applied);
      var op := acts[i].op;
      ghost var m := Mon(trace);
      ok := Prepare(op);
      if !ok {
        NotEvenStarted(Given(), acts, i, m, Mon(trace), applied);
        return;
      }
      ghost var ready := Mon(trace);
      ReadyToStart(Given(), acts, i, m, ready, applied);
      if acts[i].StaleAt(now) {
        StaleStep(ready, op, now);
        StartDoneFacts(Given(), ready.kit, op);
        Emit(Line.Skip(Stale(op)));
        NotStarted(Given(), acts, i, ready, Mon(trace), healed, applied);
        return;
      }
      var accepted := Apply(op);
      if !accepted {
        NotStarted(Given(), acts, i, ready, Mon(trace), healed, applied);
        return;
      }
      ghost var before, cut := applied, Mon(trace);
      applied := applied + {op.name};
      healed := false;
      ok := Inject(op);
      if ok {
        AfterWrites(Given(), ready.kit, cut.kit, Mon(trace).kit, op);
        Started(Given(), acts, i, ready, Mon(trace), before, op);
      } else {
        HaltedOnStart(Given(), acts, i, ready, cut, Mon(trace), before, op);
      }
    }

    /** Waits for an op's start, deploying for it a minute before if state is to be injected. */
    method Prepare(op: Op) returns (ok: bool)
      requires Safe(trace) && Calm(Mon(trace)) && Mon(trace).attempted && Mon(trace).kit.ready.None?
      requires contract == Mon(trace).kit.contract && Fitted(Given(), Mon(trace).kit)
      modifies `now, `trace, `contract
      ensures now >= old(now) && Safe(trace) && contract == Mon(trace).kit.contract
      ensures
        var m, n := Mon(old(trace)), Mon(trace);
        if ok then
          now >= op.start
          && Beside(m, n, m.kit.(ready := if Injects(Given(), op) then Some(op) else None, contract := contract))
        else
          n.stopped && n.attempted && n.owed == [] && n.cuts == m.cuts && n.done == m.done && n.refused == m.refused
          && Fitted(Given(), n.kit) && !n.kit.over
    {
      hide Safe, Mon, Fitted, WatchStep;
      ghost var m := Mon(trace);
      if injector && op.kind == Straddle {
        ok := Wait(op.start - 60);
        if !ok {
          SameFit(Given(), m.kit, Mon(trace).kit);
          return;
        }
        Deploy(op);
      }
      ok := Wait(op.start);
      if !ok {
        SameFit(Given(), m.kit, Mon(trace).kit);
      }
    }

    /** Sends an op's Partition and logs what comes of it. */
    method Apply(op: Op) returns (accepted: bool)
      requires Safe(trace) && Calm(Mon(trace)) && Mon(trace).attempted && op.start <= now < op.end
      requires Mon(trace).kit.ready.None? || Mon(trace).kit.ready == Some(op)
      modifies `now, `trace
      ensures now >= old(now) && Safe(trace)
      ensures
        var m, n := Mon(old(trace)), Mon(trace);
        && Calm(n) && n.refused == m.refused && n.done == m.done + [OpStart(op.start, op)]
        && n.kit.contract == m.kit.contract && AfterStart(Given(), m.kit, n.kit, op)
        && (accepted ==> n.kit.writing.None? && !n.kit.paused) && (!accepted ==> n.kit.writing == m.kit.writing)
        && if accepted then
             && n.cuts == m.cuts + [op] && !n.attempted && !n.cleared
             && n.asks == [] && n.reached == {} && n.crossed == {}
           else n.cuts == m.cuts && n.attempted == m.attempted && n.cleared == m.cleared
    {
      hide Safe, Mon;
      var groups := Islands(clients, op.victims, op.mutual);
      assert Splits(clients, op, groups);
      accepted := Partition(op, groups);
      if accepted {
        Isolates(op);
      } else {
        Complains(op);
      }
    }

    /** The writes of an accepted straddle, once both sides have had time for a block. */
    method Inject(op: Op) returns (ok: bool)
      requires Safe(trace) && Calm(Mon(trace)) && Mon(trace).Last() == Some(op) && !Mon(trace).attempted
      requires Mon(trace).asks == [] && Mon(trace).kit.writing.None? && !Mon(trace).kit.paused
      requires contract == Mon(trace).kit.contract
      modifies `now, `trace
      ensures now >= old(now) && Safe(trace)
      ensures
        var m, n := Mon(old(trace)), Mon(trace);
        if ok then Beside(m, n, m.kit.(writing := n.kit.writing)) && Injected(Given(), n.kit, op) else Halted(m, n)
    {
      hide Safe, Mon, WatchStep, WroteAll;
      ok := true;
      if injector && op.kind == Straddle {
        ok := Wait(op.start + 15);
        if !ok {
          return;
        }
        ghost var ws := SplitWrites(op);
      }
    }

    /** The warnings a refused Partition owes. */
    method Complains(op: Op)
      requires Safe(trace) && Mon(trace).owed == Warnings(|op.victims|) && Mon(trace).owedAt == now
      modifies `trace
      ensures Safe(trace) && Mon(trace) == Mon(old(trace)).(owed := [])
    {
      hide Safe, Mon;
      ghost var m := Mon(trace);
      assert m.owed[0..] == m.owed;
      for j := 0 to |op.victims|
        invariant Safe(trace) && Mon(trace) == m.(owed := m.owed[j..])
      {
        assert m.owed[j..][0] == Warn;
        Pay(Warn);
      }
    }

    /** The isolate lines an accepted Partition owes. */
    method Isolates(op: Op)
      requires Safe(trace) && Mon(trace).owed == IsolateLines(op.victims) && Mon(trace).owedAt == now
      modifies `trace
      ensures Safe(trace) && Mon(trace) == Mon(old(trace)).(owed := [])
    {
      hide Safe, Mon;
      ghost var m := Mon(trace);
      assert m.owed[0..] == m.owed;
      for j := 0 to |op.victims|
        invariant Safe(trace) && Mon(trace) == m.(owed := m.owed[j..])
      {
        Pay(Isolate(op.victims[j]));
      }
    }

    /** The heal lines an op's own heal owes. */
    method Heals(op: Op, crossed: set<int>, unreachable: set<int>)
      requires Safe(trace) && Mon(trace).owed == HealLines(Mon(trace), op) && Mon(trace).owedAt == now
      requires op.holdUntil.None? ==> crossed == {} && unreachable == {}
      requires op.holdUntil.Some? ==>
                 crossed == Mon(trace).crossed && unreachable == (set v | v in op.victims && v !in Mon(trace).reached)
      modifies `trace
      ensures Safe(trace) && Mon(trace) == Mon(old(trace)).(owed := [])
    {
      hide Safe, Mon;
      ghost var m := Mon(trace);
      assert m.owed[0..] == m.owed;
      for j := 0 to |op.victims|
        invariant Safe(trace) && Mon(trace) == m.(owed := m.owed[j..])
      {
        var v := op.victims[j];
        var note := Plain;
        if v in unreachable {
          note := Unreachable;
        } else if op.holdUntil.Some? && v !in crossed {
          note := NeverCrossed;
        }
        Pay(Heal(Some(v), note));
      }
    }

    method EndOp(acts: seq<Action>, i: nat) returns (ok: bool)
      requires Plan(acts) && i < |acts| && acts[i].OpEnd? && slotSeconds > 0
      requires Safe(trace) && Between(Given(), acts, i, Mon(trace), healed, applied)
      requires contract == Mon(trace).kit.contract
      modifies this
      ensures contract == Mon(trace).kit.contract
      ensures Safe(trace) && Mon(trace).refused == Mon(old(trace)).refused
      ensures if ok then Between(Given(), acts, i + 1, Mon(trace), healed, applied)
              else CutShort(Given(), acts, i + 1, Mon(trace), applied)
    {
      hide Safe, Mon, Plan, Between, CutsSoFar, Due, CutShort, Nevers, Fitted, WroteAll;
      var op := acts[i].op;
      ghost var m := Mon(trace);
      BeforeEnd(Given(), acts, i, m, healed, applied);
      ok := Wait(acts[i].at);
      if !ok {
        SameFit(Given(), m.kit, Mon(trace).kit);
        NotEvenStarted(Given(), acts, i, m, Mon(trace), applied);
        return;
      }
      if op.name !in applied {
        SkipNever(op);
        NeversNext(acts, i, m.cuts);
        SameFit(Given(), m.kit, Mon(trace).kit);
        NothingDue(Given(), acts, i, m, Mon(trace), healed, applied);
        return;
      }
      ok := HealOp(op);
      if !ok {
        NotEvenStarted(Given(), acts, i, m, Mon(trace), applied);
        return;
      }
      NeversNext(acts, i, m.cuts);
      NothingDue(Given(), acts, i, m, Mon(trace), healed, applied);
    }

    /** Says that an op was never applied, once per victim. */
    method SkipNever(op: Op)
      requires Safe(trace) && Calm(Mon(trace)) && op !in Mon(trace).cuts
      modifies `trace
      ensures Safe(trace)
      ensures
        var m := Mon(old(trace));
        Mon(trace) == m.(kit := m.kit.(never := m.kit.never + seq(|op.victims|, _ => op)))
    {
      hide Safe, Mon;
      ghost var m := Mon(trace);
      for j := 0 to |op.victims|
        invariant Safe(trace) && Mon(trace) == m.(kit := m.kit.(never := m.kit.never + seq(j, _ => op)))
      {
        Emit(Line.Skip(NeverApplied(op)));
        assert seq(j + 1, _ => op) == seq(j, _ => op) + [op];
      }
    }

    /** Ends an op that was applied: the hold, the Clear and what it owes. */
    method HealOp(op: Op) returns (ok: bool)
      requires Safe(trace) && Holding(Mon(trace), op, {}, {}, {}) && Mon(trace).asks == []
      requires slotSeconds > 0 && now >= op.end && healed == Mon(trace).cleared
      requires Fitted(Given(), Mon(trace).kit) && Injected(Given(), Mon(trace).kit, op)
      modifies `now, `trace, `healed
      ensures Fitted(Given(), Mon(trace).kit) && !Mon(trace).kit.over
      ensures Safe(trace) && Kept(Mon(old(trace)), Mon(trace)) && Mon(trace).attempted && Mon(trace).owed == []
      ensures if ok then !Mon(trace).stopped && healed == Mon(trace).cleared else Mon(trace).stopped
    {
      hide Safe, Mon, Polled, Paced, Over, MayHeal, Fitted, WroteAll;
      ghost var k := Mon(trace).kit;
      var crossed: set<int>, unreachable: set<int> := {}, {};
      NoHold(Mon(trace), op, now);
      if op.holdUntil.Some? {
        ghost var rounds, ends;
        crossed, unreachable, ok, rounds, ends := HoldUntilCrossed(op);
        if !ok {
          var stopped := Clear(AtStop);
          SameFit(Given(), k, Mon(trace).kit);
          return;
        }
        HoldIsOver(Mon(trace), op, rounds, ends, crossed, now);
        SameFit(Given(), k, Mon(trace).kit);
      }
      ok := true;
      ClearOp(op, crossed, unreachable);
    }

    /** The Clear that ends an op, and what it owes. */
    method ClearOp(op: Op, crossed: set<int>, unreachable: set<int>)
      requires Safe(trace) && Calm(Mon(trace)) && Mon(trace).Last() == Some(op) && !Mon(trace).attempted
      requires MayHeal(Mon(trace), op, now) && healed == Mon(trace).cleared && WritesDone(Mon(trace))
      requires Fitted(Given(), Mon(trace).kit) && (Mon(trace).kit.writing.Some? <==> Injects(Given(), op))
      requires op.holdUntil.None? ==> crossed == {} && unreachable == {}
      requires op.holdUntil.Some? ==>
                 crossed == Mon(trace).crossed && unreachable == (set v | v in op.victims && v !in Mon(trace).reached)
      modifies `now, `trace, `healed
      ensures Safe(trace) && Kept(Mon(old(trace)), Mon(trace)) && Calm(Mon(trace)) && Fitted(Given(), Mon(trace).kit)
      ensures Mon(trace).attempted && healed == Mon(trace).cleared
    {
      hide Safe, Mon, MayHeal, NoteFor, WatchStep, HealLines, Fitted, WroteAll;
      ghost var m, sent := Mon(trace), now;
      var cleared := Clear(AtEnd(op));
      EndClearStep(m, op, cleared, sent, now);
      HealFits(Given(), m.kit, Mon(trace).kit, op, cleared);
      if !cleared {
        Pay(Warn);
        return;
      }
      healed := true;
      SameHealLines(m, Mon(trace), op);
      Heals(op, crossed, unreachable);
      ghost var due := Mon(trace).kit;
      Repeer();
      RepeerFits(Given(), due, Mon(trace).kit);
    }

    /** The Clear of a sweep, and the one line it owes. */
    method SweepClear(at: int)
      requires Safe(trace) && Calm(Mon(trace)) && Mon(trace).attempted && now >= at && healed == Mon(trace).cleared
      modifies `now, `trace, `healed
      ensures now >= old(now) && Safe(trace)
      ensures
        var m, n := Mon(old(trace)), Mon(trace);
        && Calm(n) && n.refused == m.refused && n.cuts == m.cuts && n.done == m.done + [Action.Sweep(at)]
        && n.attempted && healed == n.cleared && n.kit == m.kit.(heals := m.kit.heals + 1)
    {
      hide Safe, Mon;
      var cleared := Clear(AtSweep(at));
      if !cleared {
        Pay(Warn);
      } else if !healed {
        Pay(Critical);
        healed := true;
      } else {
        Pay(Heal(None, Plain));
      }
    }

    method Sweep(acts: seq<Action>, i: nat) returns (ok: bool)
      requires Plan(acts) && i < |acts| && acts[i].Sweep?
      requires Safe(trace) && Between(Given(), acts, i, Mon(trace), healed, applied)
      requires contract == Mon(trace).kit.contract
      modifies this
      ensures contract == Mon(trace).kit.contract
      ensures Safe(trace) && Mon(trace).refused == Mon(old(trace)).refused
      ensures if ok then Between(Given(), acts, i + 1, Mon(trace), healed, applied)
              else CutShort(Given(), acts, i + 1, Mon(trace), applied)
    {
      hide Safe, Mon, Plan, Between, CutsSoFar, Due, CutShort, Nevers, Fitted;
      ghost var m := Mon(trace);
      BeforeSweep(Given(), acts, i, m, healed, applied);
      ok := Wait(acts[i].at);
      if !ok {
        SameFit(Given(), m.kit, Mon(trace).kit);
        NotEvenStarted(Given(), acts, i, m, Mon(trace), applied);
        return;
      }
      SweepClear(acts[i].at);
      ghost var due := Mon(trace).kit;
      SweepFits(Given(), m.kit, due);
      Repeer();
      RepeerFits(Given(), due, Mon(trace).kit);
      NeversNext(acts, i, m.cuts);
      NothingDue(Given(), acts, i, m, Mon(trace), healed, applied);
    }

    /** Says which ops are refused, once per victim. */
    method SkipRefused(s: Schedule)
      requires Safe(trace) && Calm(Mon(trace))
      modifies `trace
      ensures Safe(trace) && Mon(trace) == Mon(old(trace)).(refused := Mon(old(trace)).refused + Refusals(s.ops))
    {
      hide Safe, Mon, Refusals;
      ghost var m := Mon(trace);
      NoRefusals();
      assert s.ops[..0] == [];
      for i := 0 to |s.ops|
        invariant Safe(trace) && Mon(trace) == m.(refused := m.refused + Refusals(s.ops[..i]))
      {
        var o := s.ops[i];
        RefusalsNext(s.ops, i);
        if !o.Admitted() {
          for j := 0 to |o.victims|
            invariant Safe(trace) && Mon(trace) == m.(refused := m.refused + (Refusals(s.ops[..i]) + seq(j, _ => o)))
          {
            Emit(Line.Skip(Refused(o)));
            assert seq(j + 1, _ => o) == seq(j, _ => o) + [o];
          }
        }
      }
      assert s.ops[..|s.ops|] == s.ops;
    }

    method RunAll(acts: seq<Action>) returns (ok: bool)
      requires Plan(acts) && slotSeconds > 0 && Safe(trace) && Between(Given(), acts, 0, Mon(trace), healed, applied)
      requires contract == Mon(trace).kit.contract
      modifies this
      ensures Safe(trace) && Mon(trace).refused == Mon(old(trace)).refused
      ensures if ok then Between(Given(), acts, |acts|, Mon(trace), healed, applied)
              else CutShort(Given(), acts, |acts|, Mon(trace), applied)
    {
      hide Safe, Mon, Between, Plan, CutShort;
      ok := true;
      var i := 0;
      while i < |acts|
        invariant i <= |acts| && Between(Given(), acts, i, Mon(trace), healed, applied)
        invariant Safe(trace) && Mon(trace).refused == Mon(old(trace)).refused
        invariant contract == Mon(trace).kit.contract
      {
        match acts[i] {
          case OpStart(_, _) => ok := StartOp(acts, i);
          case OpEnd(_, _) => ok := EndOp(acts, i);
          case Sweep(_) => ok := Sweep(acts, i);
        }
        if !ok {
          CutShortAll(Given(), acts, i + 1, Mon(trace), applied);
          return;
        }
        i := i + 1;
      }
    }

    /** Runs the schedule; not ok when a shutdown cut it short. */
    method Execute(s: Schedule) returns (ok: bool)
      requires Serial(s) && slotSeconds == s.slotSeconds > 0
      requires trace == [] && healed && applied == {} && !contract
      modifies this
      ensures Safe(trace) && Mon(trace).owed == [] && Mon(trace).attempted
      ensures OnceEach(s, Mon(trace).cuts) && Mon(trace).refused == Refusals(s.ops)
      ensures Mon(trace).done <= Due(SortActions(Flat(s)))
      ensures ok ==> now >= s.quiet && !Mon(trace).stopped
      ensures ok <==> Mon(trace).kit.over
      ensures !Mon(trace).stopped ==> Mon(trace).done == Due(SortActions(Flat(s)))
      ensures !Mon(trace).stopped ==> Mon(trace).kit.never == Nevers(SortActions(Flat(s)), Mon(trace).cuts)
      ensures Fitted(Given(), Mon(trace).kit)
    {
      hide Safe, Mon, Between, Serial, Plan, OnceEach, CutsSoFar, Ordered, Due, Refusals, CutShort, Nevers, Fitted;
      NothingYet();
      SkipRefused(s);
      var acts := ActionsOf(s);
      SerialPlan(s, acts);
      BeforeAll(Given(), acts, Mon(trace));
      ok := RunAll(acts);
      if !ok {
        AfterStop(Given(), s, acts, Mon(trace), applied);
        return;
      }
      AfterAll(Given(), s, acts, Mon(trace), healed, applied);
      ok := SleepUntil(s.quiet);
      if ok {
        ghost var k := Mon(trace).kit;
        Pause(true);
        SameFit(Given(), k, Mon(trace).kit);
      }
    }
  }

  // ---- Rounds of probes ----

  /** Who has crossed after these answers. */
  ghost function Across(crossed: set<int>, asks: seq<(int, Answer)>): set<int> {
    if asks == [] then crossed
    else
      var before, last := Across(crossed, asks[..|asks| - 1]), asks[|asks| - 1];
      if last.1 == Crossed then before + {last.0} else before
  }

  ghost predicate Unanswered(asks: seq<(int, Answer)>) {
    exists a :: a in asks && a.1 != Crossed
  }

  /** The asks of one round: each victim is asked in turn unless it is known to be across. */
  ghost predicate Round(victims: seq<int>, crossed: set<int>, asks: seq<(int, Answer)>) {
    if victims == [] then asks == []
    else
      var rest, v := victims[..|victims| - 1], victims[|victims| - 1];
      || (v in Across(crossed, asks) && Round(rest, crossed, asks))
      || (asks != [] && asks[|asks| - 1].0 == v && v !in Across(crossed, asks[..|asks| - 1])
          && Round(rest, crossed, asks[..|asks| - 1]))
  }

  ghost function Asked(rounds: seq<seq<(int, Answer)>>): seq<(int, Answer)> {
    if rounds == [] then [] else Asked(rounds[..|rounds| - 1]) + rounds[|rounds| - 1]
  }

  /** Each is a round over those the earlier ones left behind. */
  ghost predicate Rounds(victims: seq<int>, rounds: seq<seq<(int, Answer)>>) {
    rounds == [] || (
      var rest := rounds[..|rounds| - 1];
      Rounds(victims, rest) && Round(victims, Across({}, Asked(rest)), rounds[|rounds| - 1]))
  }

  /** In a round everyone not yet across is asked, and nobody else. */
  lemma {:induction false} RoundAsksEveryone(victims: seq<int>, crossed: set<int>, asks: seq<(int, Answer)>)
    requires Round(victims, crossed, asks)
    ensures forall v :: v in victims && v !in crossed ==> exists a :: a in asks && a.0 == v
    ensures forall a :: a in asks ==> a.0 in victims && a.0 !in crossed
    ensures |asks| <= |victims|
    ensures !Unanswered(asks) ==> forall v :: v in victims ==> v in Across(crossed, asks)
  {
    AcrossMeans(crossed, asks);
    if victims != [] {
      var rest, v := victims[..|victims| - 1], victims[|victims| - 1];
      if v in Across(crossed, asks) && Round(rest, crossed, asks) {
        RoundAsksEveryone(rest, crossed, asks);
      } else {
        var before, last := asks[..|asks| - 1], asks[|asks| - 1];
        RoundAsksEveryone(rest, crossed, before);
        AcrossMeans(crossed, before);
        assert asks == before + [last] && last in asks;
      }
    }
  }

  lemma {:induction false} AcrossMeans(crossed: set<int>, asks: seq<(int, Answer)>)
    ensures forall v :: v in Across(crossed, asks) <==> v in crossed || (v, Crossed) in asks
  {
    if asks != [] {
      AcrossMeans(crossed, asks[..|asks| - 1]);
    }
  }

  lemma RoundBegins(crossed: set<int>)
    ensures Round([], crossed, []) && Across(crossed, []) == crossed && !Unanswered([])
  {
  }

  lemma RoundNext(victims: seq<int>, i: nat, crossed: set<int>, asks: seq<(int, Answer)>)
    requires i < |victims| && Round(victims[..i], crossed, asks)
    ensures victims[i] in Across(crossed, asks) ==> Round(victims[..i + 1], crossed, asks)
    ensures forall answer :: victims[i] !in Across(crossed, asks) ==>
              Round(victims[..i + 1], crossed, asks + [(victims[i], answer)])
    ensures forall answer ::
              Across(crossed, asks + [(victims[i], answer)])
              == if answer == Crossed then Across(crossed, asks) + {victims[i]} else Across(crossed, asks)
    ensures forall answer :: Unanswered(asks + [(victims[i], answer)]) <==> Unanswered(asks) || answer != Crossed
  {
    assert victims[..i + 1][..i] == victims[..i];
    forall answer: Answer
      ensures Unanswered(asks + [(victims[i], answer)]) <==> Unanswered(asks) || answer != Crossed
      ensures (asks + [(victims[i], answer)])[..|asks|] == asks
    {
      var more := asks + [(victims[i], answer)];
      assert forall a :: a in more <==> a in asks || a == (victims[i], answer);
    }
  }

  /** All the asks of a hold, and who has crossed by them. */
  ghost predicate Polled(victims: seq<int>, rounds: seq<seq<(int, Answer)>>, asks: seq<(int, Answer)>,
                         crossed: set<int>) {
    Rounds(victims, rounds) && asks == Asked(rounds) && crossed == Across({}, asks)
  }

  /** A round is followed by another, a slot later, only while someone is waited for and the hold lasts. */
  ghost predicate Paced(rounds: seq<seq<(int, Answer)>>, ends: seq<int>, until: int, slot: int) {
    && |ends| == |rounds|
    && forall k :: 0 <= k < |rounds| - 1 ==> Unanswered(rounds[k]) && ends[k] < until && ends[k] + slot <= ends[k + 1]
  }

  /** After the last round nobody is waited for or the hold is over. */
  ghost predicate Over(rounds: seq<seq<(int, Answer)>>, ends: seq<int>, until: int)
    requires |ends| == |rounds| > 0
  {
    !Unanswered(rounds[|rounds| - 1]) || ends[|ends| - 1] >= until
  }

  lemma NoRounds(victims: seq<int>, until: int, slot: int)
    ensures Polled(victims, [], [], {}) && Paced([], [], until, slot)
  {
  }

  lemma PolledAcross(victims: seq<int>, rounds: seq<seq<(int, Answer)>>, asks: seq<(int, Answer)>, crossed: set<int>)
    requires Polled(victims, rounds, asks, crossed)
    ensures crossed == Across({}, asks)
  {
  }

  lemma PacedNext(rounds: seq<seq<(int, Answer)>>, ends: seq<int>, asks: seq<(int, Answer)>, end: int, until: int,
                  slot: int)
    requires Paced(rounds, ends, until, slot)
    requires rounds != [] ==> !Over(rounds, ends, until) && ends[|ends| - 1] + slot <= end
    ensures Paced(rounds + [asks], ends + [end], until, slot)
    ensures Over(rounds + [asks], ends + [end], until) <==> !Unanswered(asks) || end >= until
  {
    hide Unanswered;
  }

  lemma OneMoreRound(victims: seq<int>, rounds: seq<seq<(int, Answer)>>, asks: seq<(int, Answer)>,
                     more: seq<(int, Answer)>)
    requires Polled(victims, rounds, asks, Across({}, asks)) && Round(victims, Across({}, asks), more)
    ensures Polled(victims, rounds + [more], asks + more, Across(Across({}, asks), more))
  {
    hide Round, Across;
    assert (rounds + [more])[..|rounds|] == rounds;
    AcrossTwo({}, Asked(rounds), more);
  }

  lemma {:induction false} AcrossTwo(crossed: set<int>, a: seq<(int, Answer)>, b: seq<(int, Answer)>)
    ensures Across(crossed, a + b) == Across(Across(crossed, a), b)
  {
    if b == [] {
      assert a + b == a;
    } else {
      AcrossTwo(crossed, a, b[..|b| - 1]);
      assert (a + b)[..|a + b| - 1] == a + b[..|b| - 1];
    }
  }

  // ---- From one action to the next ----

  /** A run a shutdown ended somewhere before action i. */
  ghost predicate CutShort(g: Setup, acts: seq<Action>, i: nat, m: Watch, applied: set<nat>) {
    && i <= |acts| && m.stopped && m.attempted && m.owed == [] && !m.kit.over && Fitted(g, m.kit)
    && CutsSoFar(acts, i, m.cuts, applied) && m.done <= Due(acts[..i])
  }

  lemma NotStartedYet(acts: seq<Action>, i: nat, name: nat)
    requires Plan(acts) && i < |acts| && acts[i].OpStart? && StartedBefore(acts, i, name)
    ensures name != acts[i].op.name
  {
  }

  lemma StartedLater(acts: seq<Action>, i: nat, cuts: seq<Op>, applied: set<nat>)
    requires i < |acts| && CutsSoFar(acts, i, cuts, applied)
    ensures CutsSoFar(acts, i + 1, cuts, applied)
  {
  }

  lemma BeforeStart(g: Setup, acts: seq<Action>, i: nat, m: Watch, healed: bool, applied: set<nat>)
    requires Plan(acts) && i < |acts| && acts[i].OpStart? && Between(g, acts, i, m, healed, applied)
    ensures m.attempted && Calm(m) && healed == m.cleared && acts[i] == OpStart(acts[i].op.start, acts[i].op)
    ensures CutsSoFar(acts, i, m.cuts, applied) && m.done == Due(acts[..i])
    ensures Fitted(g, m.kit) && m.kit.ready.None? && m.kit.never == Nevers(acts[..i], m.cuts)
  {
    hide Fitted, Nevers, Due, CutsSoFar;
  }

  /** What a start does to what is noted beside it: its groups, if it was sent, split the network. */
  ghost predicate AfterStart(g: Setup, k: Kit, l: Kit, op: Op) {
    && l == StartDone(k, op).(splits := l.splits, writing := l.writing, paused := l.paused)
    && forall x :: x in l.splits ==> x in k.splits || Splits(g.clients, x.0, x.1)
  }

  /** Waited for, and deployed for if state is injected for it, an op is about to be started. */
  ghost predicate AtStart(g: Setup, acts: seq<Action>, i: nat, m: Watch, applied: set<nat>) {
    && Plan(acts) && i < |acts| && acts[i].OpStart? && acts[i] == OpStart(acts[i].op.start, acts[i].op)
    && CutsSoFar(acts, i, m.cuts, applied) && m.done == Due(acts[..i]) && m.kit.never == Nevers(acts[..i], m.cuts)
    && Calm(m) && m.attempted && Fitted(g, m.kit)
    && m.kit.ready == if Injects(g, acts[i].op) then Some(acts[i].op) else None
  }

  lemma ReadyToStart(g: Setup, acts: seq<Action>, i: nat, m: Watch, n: Watch, applied: set<nat>)
    requires Plan(acts) && i < |acts| && acts[i].OpStart? && acts[i] == OpStart(acts[i].op.start, acts[i].op)
    requires CutsSoFar(acts, i, m.cuts, applied) && m.done == Due(acts[..i]) && Calm(m) && m.attempted
    requires Fitted(g, m.kit) && m.kit.ready.None? && m.kit.never == Nevers(acts[..i], m.cuts)
    requires Beside(m, n, m.kit.(ready := if Injects(g, acts[i].op) then Some(acts[i].op) else None,
                                 contract := n.kit.contract))
    ensures AtStart(g, acts, i, n, applied)
  {
    hide CutsSoFar, Due, Nevers, Plan;
  }

  /** An op whose start came to nothing leaves nothing due. */
  lemma NotStarted(g: Setup, acts: seq<Action>, i: nat, m: Watch, n: Watch, healed: bool, applied: set<nat>)
    requires AtStart(g, acts, i, m, applied)
    requires n.cuts == m.cuts && n.done == m.done + [acts[i]]
    requires AfterStart(g, m.kit, n.kit, acts[i].op) && n.kit.writing == m.kit.writing
    requires Calm(n) && healed == n.cleared && n.attempted
    ensures Between(g, acts, i + 1, n, healed, applied)
  {
    StartedFits(g, m.kit, acts[i].op);
    SameFit(g, StartDone(m.kit, acts[i].op), n.kit);
    hide Fitted, Nevers;
    NeversNext(acts, i, m.cuts);
    if acts[i].op.name in applied {
      NotStartedYet(acts, i, acts[i].op.name);
    }
    hide Plan;
    DueNext(acts, i);
    StartedLater(acts, i, m.cuts, applied);
    hide CutsSoFar;
  }

  /** A shutdown before anything of action i was done. */
  lemma NotEvenStarted(g: Setup, acts: seq<Action>, i: nat, m: Watch, n: Watch, applied: set<nat>)
    requires i < |acts| && CutsSoFar(acts, i, m.cuts, applied) && m.done == Due(acts[..i])
    requires n.stopped && n.attempted && n.owed == [] && n.cuts == m.cuts && n.done == m.done
    requires Fitted(g, n.kit) && !n.kit.over
    ensures CutShort(g, acts, i + 1, n, applied)
  {
    hide Fitted;
    DueNext(acts, i);
    StartedLater(acts, i, m.cuts, applied);
    hide CutsSoFar;
  }

  lemma Started(g: Setup, acts: seq<Action>, i: nat, m: Watch, n: Watch, applied: set<nat>, op: Op)
    requires AtStart(g, acts, i, m, applied) && op == acts[i].op
    requires n.cuts == m.cuts + [op] && n.done == m.done + [acts[i]] && !n.attempted && !n.cleared
    requires n.asks == [] && n.reached == {} && n.crossed == {} && Calm(n)
    requires AfterStart(g, m.kit, n.kit, op) && Injected(g, n.kit, op)
    ensures Between(g, acts, i + 1, n, false, applied + {op.name})
  {
    StartedFits(g, m.kit, op);
    SameFit(g, StartDone(m.kit, op), n.kit);
    hide Fitted, Nevers, WroteAll;
    CutOnceMore(acts, i, m.cuts, applied, op);
    DueNext(acts, i);
    NeversNext(acts, i, m.cuts + [op]);
    NeversOfOthers(acts, i, m.cuts, op);
    hide CutsSoFar, Plan;
  }

  /** A shutdown after the Partition, before any writes. */
  lemma HaltedOnStart(g: Setup, acts: seq<Action>, i: nat, m: Watch, cut: Watch, n: Watch, applied: set<nat>, op: Op)
    requires AtStart(g, acts, i, m, applied) && op == acts[i].op
    requires cut.cuts == m.cuts + [op] && cut.done == m.done + [acts[i]] && !cut.kit.over
    requires AfterStart(g, m.kit, cut.kit, op) && cut.kit.writing.None? && Halted(cut, n)
    ensures CutShort(g, acts, i + 1, n, applied + {op.name})
  {
    StartedFits(g, m.kit, op);
    SameFit(g, StartDone(m.kit, op), n.kit);
    hide Fitted;
    CutOnceMore(acts, i, m.cuts, applied, op);
    DueNext(acts, i);
    hide CutsSoFar, Plan;
  }

  /** Exactly the ops that came to their end, were not accepted and have victims are said never to have been applied. */
  lemma {:induction false} NeversMean(acts: seq<Action>, cuts: seq<Op>, o: Op)
    ensures o in Nevers(acts, cuts)
            <==> (exists a :: a in acts && a.OpEnd? && a.op == o) && o !in cuts && o.victims != []
  {
    if acts != [] {
      var rest, last := acts[..|acts| - 1], acts[|acts| - 1];
      NeversMean(rest, cuts, o);
      assert acts == rest + [last];
      if last.OpEnd? {
        var said := seq(|last.op.victims|, _ => last.op);
        assert last.op.victims != [] ==> said[0] == last.op;
      }
    }
  }

  lemma NeversNext(acts: seq<Action>, i: nat, cuts: seq<Op>)
    requires i < |acts|
    ensures Nevers(acts[..i + 1], cuts)
            == Nevers(acts[..i], cuts)
               + if acts[i].OpEnd? && acts[i].op !in cuts then seq(|acts[i].op.victims|, _ => acts[i].op) else []
  {
    assert acts[..i + 1][..i] == acts[..i];
  }

  /** An op accepted now was not ended before. */
  lemma {:induction false} NeversOfOthers(acts: seq<Action>, i: nat, cuts: seq<Op>, op: Op)
    requires Plan(acts) && i < |acts| && acts[i].OpStart? && acts[i].op == op
    ensures Nevers(acts[..i], cuts + [op]) == Nevers(acts[..i], cuts)
  {
    NeversUpTo(acts, i, i, cuts, op);
  }

  lemma {:induction false} NeversUpTo(acts: seq<Action>, i: nat, j: nat, cuts: seq<Op>, op: Op)
    requires Plan(acts) && j <= i < |acts| && acts[i].OpStart? && acts[i].op == op
    ensures Nevers(acts[..j], cuts + [op]) == Nevers(acts[..j], cuts)
  {
    if j > 0 {
      NeversUpTo(acts, i, j - 1, cuts, op);
      NeversNext(acts, j - 1, cuts);
      NeversNext(acts, j - 1, cuts + [op]);
      EndedOtherwise(acts, i, j - 1);
    }
  }

  lemma EndedOtherwise(acts: seq<Action>, i: nat, j: nat)
    requires Plan(acts) && j < i < |acts| && acts[i].OpStart?
    ensures acts[j].OpEnd? ==> acts[j].op != acts[i].op
  {
    assert acts[j].OpEnd? ==> j > 0 && acts[j - 1] == OpStart(acts[j].op.start, acts[j].op);
  }

  // ---- What a driver's gear makes it do ----

  lemma SameFit(g: Setup, k: Kit, l: Kit)
    requires Fitted(g, k) && l.starts == k.starts && l.writes == k.writes && l.heals == k.heals
             && l.repeers == k.repeers
    requires forall x :: x in l.splits ==> x in k.splits || Splits(g.clients, x.0, x.1)
    requires l.ready == k.ready || (l.ready.Some? ==> Injects(g, l.ready.value))
    requires l.writing == k.writing || (l.writing.Some? ==> g.injector)
    ensures Fitted(g, l)
  {
  }

  /** A start dealt with after a deploy if and only if one is called for. */
  lemma StartedFits(g: Setup, k: Kit, op: Op)
    requires Fitted(g, k) && k.ready == if Injects(g, op) then Some(op) else None
    ensures Fitted(g, StartDone(k, op))
  {
  }

  lemma StartDoneFacts(g: Setup, k: Kit, op: Op)
    ensures AfterStart(g, k, StartDone(k, op), op)
    ensures StartDone(k, op).over == k.over && StartDone(k, op).contract == k.contract
    ensures StartDone(k, op).writing == k.writing
  {
  }

  lemma AfterWrites(g: Setup, k: Kit, l: Kit, l': Kit, op: Op)
    requires AfterStart(g, k, l, op) && l' == l.(writing := l'.writing)
    ensures AfterStart(g, k, l', op)
  {
  }

  lemma HealFits(g: Setup, k: Kit, l: Kit, op: Op, ok: bool)
    requires Fitted(g, k) && (k.writing.Some? <==> Injects(g, op))
    requires l == k.(writes := k.writes + [(op, k.writing)], heals := if ok then k.heals + 1 else k.heals)
    ensures if ok then Unpeered(g, l) else Fitted(g, l)
  {
  }

  lemma SweepFits(g: Setup, k: Kit, l: Kit)
    requires Fitted(g, k) && l == k.(heals := k.heals + 1)
    ensures Unpeered(g, l)
  {
  }

  /** The peers are still to be rejoined. */
  ghost predicate Unpeered(g: Setup, k: Kit) {
    && (g.clients >= 2 ==> k.heals == k.repeers + 1)
    && Fitted(g, k.(repeers := if g.clients < 2 then k.repeers else k.repeers + 1))
  }

  lemma RepeerFits(g: Setup, k: Kit, l: Kit)
    requires Unpeered(g, k) && l == k.(repeers := if g.clients < 2 then k.repeers else k.repeers + 1)
    ensures Fitted(g, l)
  {
  }

  // ---- Steps beside the partitions ----

  lemma DeployedStep(m: Watch, op: Op, ok: bool, sent: int, at: int)
    requires Calm(m) && MayDeploy(m, op, sent, sent) && sent <= at
    ensures StepOk(m, Deployed(op, ok, sent, at))
    ensures WatchStep(m, Deployed(op, ok, sent, at)) ==
            m.(owed := [if ok then Heal(None, Plain) else Warn], owedAt := at,
               kit := m.kit.(ready := Some(op), contract := m.kit.contract || ok))
  {
  }

  lemma StaleStep(m: Watch, op: Op, at: int)
    requires Calm(m) && op.end <= at && (m.kit.ready.None? || m.kit.ready == Some(op))
    ensures StepOk(m, Logged(Line.Skip(Stale(op)), at))
    ensures WatchStep(m, Logged(Line.Skip(Stale(op)), at)) ==
            m.(done := m.done + [OpStart(op.start, op)], kit := StartDone(m.kit, op))
  {
  }

  lemma InjectingStep(m: Watch, op: Op, at: int)
    requires Calm(m) && MayInject(m, op, at)
    ensures StepOk(m, Injecting(op, at))
    ensures WatchStep(m, Injecting(op, at)) == m.(owedAt := at, kit := m.kit.(writing := Some([])))
  {
  }

  lemma WroteStep(m: Watch, w: Write, ws: seq<Write>, at: int)
    requires Calm(m) && !m.attempted && m.asks == [] && m.kit.contract && m.kit.writing == Some(ws)
    ensures StepOk(m, Wrote(w, at))
    ensures WatchStep(m, Wrote(w, at)) ==
            m.(owed := OwedBy(m, Wrote(w, at)), owedAt := at, kit := m.kit.(writing := Some(ws + [w])))
  {
  }

  lemma RepeeredStep(m: Watch, ok: bool, at: int)
    requires Calm(m) && m.attempted && m.kit.heals == m.kit.repeers + 1
    ensures StepOk(m, Repeered(ok, at))
    ensures WatchStep(m, Repeered(ok, at)) ==
            m.(owed := [if ok then Heal(None, Plain) else Warn], owedAt := at,
               kit := m.kit.(repeers := m.kit.repeers + 1))
  {
  }

  /** Someone waited for was asked. */
  lemma WaitedFor(m: Watch, asks: seq<(int, Answer)>)
    requires Unanswered(asks) && exists before :: m.asks == before + asks
    ensures m.asks != []
  {
  }

  lemma CutOnceMore(acts: seq<Action>, i: nat, cuts: seq<Op>, applied: set<nat>, op: Op)
    requires Plan(acts) && i < |acts| && acts[i].OpStart? && op == acts[i].op && acts[i] == OpStart(op.start, op)
    requires CutsSoFar(acts, i, cuts, applied)
    ensures CutsSoFar(acts, i + 1, cuts + [op], applied + {op.name})
  {
    if op.name in applied {
      NotStartedYet(acts, i, op.name);
    }
    StartedLater(acts, i, cuts, applied);
    assert StartedBefore(acts, i + 1, op.name);
    assert OpStart(op.start, op) in acts;
  }

  lemma BeforeEnd(g: Setup, acts: seq<Action>, i: nat, m: Watch, healed: bool, applied: set<nat>)
    requires Plan(acts) && i < |acts| && acts[i].OpEnd? && Between(g, acts, i, m, healed, applied)
    ensures Calm(m) && healed == m.cleared && acts[i].at == acts[i].op.end
    ensures CutsSoFar(acts, i, m.cuts, applied) && m.done == Due(acts[..i])
    ensures Fitted(g, m.kit) && m.kit.ready.None? && m.kit.never == Nevers(acts[..i], m.cuts) && WritesDone(m)
    ensures acts[i].op.name in applied ==>
              Holding(m, acts[i].op, {}, {}, {}) && m.asks == [] && Injected(g, m.kit, acts[i].op)
              && acts[i].op in m.cuts
    ensures acts[i].op.name !in applied ==> m.attempted && acts[i].op !in m.cuts
  {
  }

  lemma BeforeSweep(g: Setup, acts: seq<Action>, i: nat, m: Watch, healed: bool, applied: set<nat>)
    requires Plan(acts) && i < |acts| && acts[i].Sweep? && Between(g, acts, i, m, healed, applied)
    ensures Calm(m) && healed == m.cleared && m.attempted && acts[i] == Action.Sweep(acts[i].at)
    ensures CutsSoFar(acts, i, m.cuts, applied) && m.done == Due(acts[..i])
    ensures Fitted(g, m.kit) && m.kit.ready.None? && m.kit.never == Nevers(acts[..i], m.cuts)
  {
  }

  lemma NothingDue(g: Setup, acts: seq<Action>, i: nat, m: Watch, n: Watch, healed: bool, applied: set<nat>)
    requires i < |acts| && !acts[i].OpStart? && CutsSoFar(acts, i, m.cuts, applied) && m.done == Due(acts[..i])
    requires n.cuts == m.cuts && n.done == m.done + if acts[i].OpEnd? then [] else [acts[i]]
    requires Calm(n) && healed == n.cleared && n.attempted
    requires Fitted(g, n.kit) && n.kit.ready.None? && n.kit.never == Nevers(acts[..i + 1], n.cuts)
    ensures Between(g, acts, i + 1, n, healed, applied)
  {
    hide Fitted, Nevers;
    DueNext(acts, i);
    StartedLater(acts, i, m.cuts, applied);
    hide CutsSoFar;
  }

  /** Once the hold is over the op may be healed. */
  lemma HoldIsOver(m: Watch, op: Op, rounds: seq<seq<(int, Answer)>>, ends: seq<int>, crossed: set<int>, now: int)
    requires op.holdUntil.Some? && |ends| == |rounds| > 0 && Over(rounds, ends, op.holdUntil.value)
             && now == ends[|ends| - 1]
    requires Polled(op.victims, rounds, m.asks, crossed) && crossed == m.crossed && now >= op.end
    ensures MayHeal(m, op, now)
  {
    hide Unanswered, Round, Across;
    if now < op.holdUntil.value {
      var before, last := Asked(rounds[..|rounds| - 1]), rounds[|rounds| - 1];
      RoundAsksEveryone(op.victims, Across({}, before), last);
      AcrossTwo({}, before, last);
    }
  }

  lemma SameHealLines(m: Watch, n: Watch, op: Op)
    requires n.reached == m.reached && n.crossed == m.crossed
    ensures HealLines(n, op) == HealLines(m, op)
  {
  }

  lemma NoHold(m: Watch, op: Op, now: int)
    ensures now >= op.end && op.holdUntil.None? ==> MayHeal(m, op, now)
  {
  }

  lemma CutShortAll(g: Setup, acts: seq<Action>, i: nat, m: Watch, applied: set<nat>)
    requires CutShort(g, acts, i, m, applied)
    ensures CutShort(g, acts, |acts|, m, applied)
  {
    hide CutsSoFar;
    CutsByTheEnd(acts, i, m.cuts, applied);
    DuePrefix(acts, i);
    assert acts[..|acts|] == acts;
  }

  lemma CutsByTheEnd(acts: seq<Action>, i: nat, cuts: seq<Op>, applied: set<nat>)
    requires i <= |acts| && CutsSoFar(acts, i, cuts, applied)
    ensures CutsSoFar(acts, |acts|, cuts, applied)
    decreases |acts| - i
  {
    hide CutsSoFar;
    if i < |acts| {
      StartedLater(acts, i, cuts, applied);
      CutsByTheEnd(acts, i + 1, cuts, applied);
    }
  }

  lemma NothingYet()
    ensures Safe([]) && Mon([]) == UNSTARTED
  {
  }

  lemma BeforeAll(g: Setup, acts: seq<Action>, m: Watch)
    requires m == UNSTARTED.(refused := m.refused)
    ensures Between(g, acts, 0, m, true, {})
  {
  }

  /** Every accepted Partition was of an admitted op of the schedule, none accepted twice. */
  ghost predicate OnceEach(s: Schedule, cuts: seq<Op>) {
    && (forall c :: 0 <= c < |cuts| ==> cuts[c] in s.ops && cuts[c].Admitted())
    && (forall c, d :: 0 <= c < d < |cuts| ==> cuts[c].name != cuts[d].name)
  }

  lemma AfterAll(g: Setup, s: Schedule, acts: seq<Action>, m: Watch, healed: bool, applied: set<nat>)
    requires Plan(acts) && multiset(acts) == multiset(Flat(s)) && Between(g, acts, |acts|, m, healed, applied)
    ensures Calm(m) && m.attempted && OnceEach(s, m.cuts) && m.done == Due(acts)
    ensures Fitted(g, m.kit) && m.kit.never == Nevers(acts, m.cuts)
  {
    hide Flat;
    assert acts[..|acts|] == acts;
    CutsAreOps(s, acts, m.cuts, applied);
  }

  lemma AfterStop(g: Setup, s: Schedule, acts: seq<Action>, m: Watch, applied: set<nat>)
    requires multiset(acts) == multiset(Flat(s)) && CutShort(g, acts, |acts|, m, applied)
    ensures m.stopped && m.attempted && m.owed == [] && OnceEach(s, m.cuts) && m.done <= Due(acts)
    ensures Fitted(g, m.kit) && !m.kit.over
  {
    hide Flat;
    assert acts[..|acts|] == acts;
    CutsAreOps(s, acts, m.cuts, applied);
  }

  lemma CutsAreOps(s: Schedule, acts: seq<Action>, cuts: seq<Op>, applied: set<nat>)
    requires multiset(acts) == multiset(Flat(s)) && CutsSoFar(acts, |acts|, cuts, applied)
    ensures OnceEach(s, cuts)
  {
    hide Flat;
    forall c | 0 <= c < |cuts|
      ensures cuts[c] in s.ops && cuts[c].Admitted()
    {
      var a := OpStart(cuts[c].start, cuts[c]);
      FlatIs(s, acts, a);
      OpActionsAre(s.ops, a);
      var k :| 0 <= k < |s.ops| && ActionOf(a, s.ops[k]);
    }
  }

  /** The refused ops, once per victim. */
  function Refusals(ops: seq<Op>): seq<Op> {
    if ops == [] then []
    else
      var o := ops[|ops| - 1];
      Refusals(ops[..|ops| - 1]) + if o.Admitted() then [] else seq(|o.victims|, _ => o)
  }

  /** Exactly the refused ops that have victims are said to be. */
  lemma {:induction false} RefusalsMean(ops: seq<Op>, o: Op)
    ensures o in Refusals(ops) <==> o in ops && o.refused && o.victims != []
  {
    if ops != [] {
      var rest, last := ops[..|ops| - 1], ops[|ops| - 1];
      RefusalsMean(rest, o);
      assert ops == rest + [last];
      var said := seq(|last.victims|, _ => last);
      assert last.victims != [] ==> said[0] == last;
    }
  }

  lemma NoRefusals()
    ensures Refusals([]) == []
  {
  }

  lemma RefusalsNext(ops: seq<Op>, i: nat)
    requires i < |ops|
    ensures Refusals(ops[..i + 1])
            == if ops[i].Admitted() then Refusals(ops[..i]) else Refusals(ops[..i]) + seq(|ops[i].victims|, _ => ops[i])
  {
    assert ops[..i + 1][..i] == ops[..i];
  }
}
