/**
 Two readings of the windows a run cut: one from its requests alone, what happened, and one from its
 log lines alone, what a reader can tell. They agree exactly when every isolation's first heal line
 comes, if it comes, before its node is cut again and at the time the isolation ended.
 */
module Readings {
  import opened Options
  import opened Schedule
  import opened Records

  /** One node's isolation; it was never healed if it has no end. */
  datatype Isolation = Isolation(node: int, from: int, to: Option<int>)

  /** The windows still open, by node, and those closed. */
  datatype Reading = Reading(open: map<int, int>, closed: multiset<Isolation>)

  const NOTHING := Reading(map[], multiset{})

  function Closing(open: map<int, int>, to: int): multiset<Isolation> {
    multiset(set v | v in open :: Isolation(v, open[v], Some(to)))
  }

  function Isolated(victims: seq<int>, at: int): map<int, int> {
    map v | v in victims :: at
  }

  function DroveStep(d: Reading, e: Ev): Reading {
    match e
    case Cut(op, _, true, _, at) => Reading(Isolated(op.victims, at), d.closed + Closing(d.open, at))
    case Cleared(_, true, _, at) => Reading(map[], d.closed + Closing(d.open, at))
    case _ => d
  }

  /**
   What the requests say: an accepted Partition isolates its victims until the next one or the next Clear that
   works.
   */
  function Drove(trace: seq<Ev>): Reading {
    if trace == [] then NOTHING else DroveStep(Drove(trace[..|trace| - 1]), trace[|trace| - 1])
  }

  function ReadLine(r: Reading, line: Line, at: int): Reading {
    match line
    case Isolate(v) => if v in r.open then r else r.(open := r.open[v := at])
    case Heal(None, _) => Reading(map[], r.closed + Closing(r.open, at))
    case Heal(Some(v), _) =>
      if v in r.open then Reading(r.open - {v}, r.closed + multiset{Isolation(v, r.open[v], Some(at))}) else r
    case _ => r
  }

  function PairStep(r: Reading, e: Ev): Reading {
    if e.Logged? then ReadLine(r, e.line, e.at) else r
  }

  /** What the lines say: an isolate opens its node's window unless one is open, a heal closes it. */
  function Pair(trace: seq<Ev>): Reading {
    if trace == [] then NOTHING else PairStep(Pair(trace[..|trace| - 1]), trace[|trace| - 1])
  }

  // ---- Isolate lines tell the cuts ----

  function HeardStep(r: Reading, e: Ev): Reading {
    match e
    case Cut(op, _, true, _, at) => r.(open := Isolated(op.victims, at) + r.open)
    case Logged(line, at) => if line.Heal? then ReadLine(r, line, at) else r
    case _ => r
  }

  /** A reading that opens windows at the cuts themselves and closes them at the heal lines. */
  function Heard(trace: seq<Ev>): Reading {
    if trace == [] then NOTHING else HeardStep(Heard(trace[..|trace| - 1]), trace[|trace| - 1])
  }

  function OpenAll(r: Reading, lines: seq<Line>, at: int): Reading
    decreases lines
  {
    if lines == [] then r else OpenAll(ReadLine(r, lines[0], at), lines[1..], at)
  }

  lemma {:induction false} OpenAllIsolates(r: Reading, victims: seq<int>, at: int)
    ensures OpenAll(r, IsolateLines(victims), at) == r.(open := Isolated(victims, at) + r.open)
    decreases victims
  {
    if victims == [] {
      assert Isolated([], at) + r.open == r.open;
    } else {
      var v, rest := victims[0], victims[1..];
      var next := ReadLine(r, Isolate(v), at);
      OpenAllIsolates(next, rest, at);
      assert IsolateLines(victims)[1..] == IsolateLines(rest);
      OneMoreIsolated(r.open, v, rest, at);
      assert victims == [v] + rest;
    }
  }

  lemma OneMoreIsolated(open: map<int, int>, v: int, rest: seq<int>, at: int)
    ensures Isolated([v] + rest, at) + open == Isolated(rest, at) + (if v in open then open else open[v := at])
  {
    var a, b := Isolated([v] + rest, at) + open, Isolated(rest, at) + (if v in open then open else open[v := at]);
    assert forall u :: u in [v] + rest <==> u == v || u in rest;
    assert forall u :: u in a <==> u in b;
    assert forall u :: u in a ==> a[u] == b[u];
  }

  /** Lines owed are all isolates or none is, and none is a heal before a Clear was tried. */
  ghost predicate InKind(m: Watch) {
    && ((forall line :: line in m.owed ==> line.Isolate?) || (forall line :: line in m.owed ==> !line.Isolate?))
    && (!m.attempted ==> forall line :: line in m.owed ==> !line.Heal?)
  }

  /** The two readings differ only by the isolate lines still owed. */
  ghost predicate Echoes(m: Watch, pair: Reading, heard: Reading) {
    && InKind(m)
    && heard == (if m.owed != [] && m.owed[0].Isolate? then OpenAll(pair, m.owed, m.owedAt) else pair)
    && (m.Last().Some? && !m.attempted ==> forall v :: v in m.Last().value.victims ==> v in heard.open)
  }

  lemma EchoesPaid(m: Watch, pair: Reading, heard: Reading, e: Ev)
    requires Echoes(m, pair, heard) && m.owed != [] && e == Logged(m.owed[0], m.owedAt)
    requires !m.owed[0].Skip? && !m.owed[0].Pause?
    ensures Echoes(WatchStep(m, e), PairStep(pair, e), HeardStep(heard, e))
  {
    var line, rest := m.owed[0], m.owed[1..];
    PaidStep(m, line, m.owedAt);
    hide WatchStep, ReadLine;
    assert forall other :: other in rest ==> other in m.owed;
    assert line in m.owed;
    if line.Isolate? {
      IsolateIsUnheard(heard, line, m.owedAt);
      var next := ReadLine(pair, line, m.owedAt);
      assert OpenAll(pair, m.owed, m.owedAt) == OpenAll(next, rest, m.owedAt);
      assert OpenAll(next, [], m.owedAt) == next;
      assert m.owed == [line] + rest;
      assert rest != [] ==> rest[0] in m.owed;
    } else {
      SameLine(pair, line, m.owedAt);
      HealKeepsNone(m, heard, line);
      assert rest != [] ==> rest[0] in m.owed;
    }
  }

  lemma IsolateIsUnheard(heard: Reading, line: Line, at: int)
    requires line.Isolate?
    ensures HeardStep(heard, Logged(line, at)) == heard
  {
  }

  lemma SameLine(r: Reading, line: Line, at: int)
    requires !line.Isolate?
    ensures HeardStep(r, Logged(line, at)) == ReadLine(r, line, at)
  {
  }

  lemma HealKeepsNone(m: Watch, r: Reading, line: Line)
    requires InKind(m) && line in m.owed
    ensures !m.attempted ==> HeardStep(r, Logged(line, m.owedAt)) == r
  {
  }

  lemma EchoesCut(m: Watch, pair: Reading, heard: Reading, e: Ev)
    requires Echoes(m, pair, heard) && m.owed == [] && e.Cut? && MayCome(m, e)
    ensures Echoes(WatchStep(m, e), PairStep(pair, e), HeardStep(heard, e))
  {
    if e.ok {
      OpenAllIsolates(pair, e.op.victims, e.at);
      assert forall line :: line in IsolateLines(e.op.victims) ==> line.Isolate?;
      assert e.op.victims == [] ==> Isolated(e.op.victims, e.at) + heard.open == heard.open;
    } else {
      assert forall line :: line in Warnings(|e.op.victims|) ==> line == Warn;
    }
  }

  lemma EchoesProbe(m: Watch, pair: Reading, heard: Reading, e: Ev)
    requires Echoes(m, pair, heard) && m.owed == [] && e.Probed? && MayCome(m, e)
    ensures Echoes(WatchStep(m, e), PairStep(pair, e), HeardStep(heard, e))
  {
    if e.answer == Crossed {
      assert OpenAll(pair, [Isolate(e.node)], e.at) == OpenAll(ReadLine(pair, Isolate(e.node), e.at), [], e.at);
    }
  }

  lemma EchoesClear(m: Watch, pair: Reading, heard: Reading, e: Ev)
    requires Echoes(m, pair, heard) && m.owed == [] && e.Cleared? && MayCome(m, e)
    ensures Echoes(WatchStep(m, e), PairStep(pair, e), HeardStep(heard, e))
  {
    if e.cause.AtEnd? {
      assert forall line :: line in HealLines(m, e.cause.op) ==> line.Heal?;
    }
  }

  lemma EchoesBeside(m: Watch, pair: Reading, heard: Reading, e: Ev)
    requires Echoes(m, pair, heard) && m.owed == [] && MayCome(m, e)
    requires e.Deployed? || e.Injecting? || e.Wrote? || e.Repeered?
    ensures Echoes(WatchStep(m, e), PairStep(pair, e), HeardStep(heard, e))
  {
  }

  lemma EchoesFree(m: Watch, pair: Reading, heard: Reading, e: Ev)
    requires Echoes(m, pair, heard) && m.owed == [] && e.Logged? && MayCome(m, e)
    ensures Echoes(WatchStep(m, e), PairStep(pair, e), HeardStep(heard, e))
  {
  }

  lemma {:induction false} Echo(trace: seq<Ev>)
    requires Safe(trace)
    ensures Echoes(Mon(trace), Pair(trace), Heard(trace))
    ensures forall line :: line in Mon(trace).owed ==> !line.Skip? && !line.Pause?
  {
    if trace != [] {
      var rest, e := trace[..|trace| - 1], trace[|trace| - 1];
      Echo(rest);
      MonLast(trace);
      NoSkipOwed(Mon(rest), e);
      hide Mon, Safe, Echoes, WatchStep, MayCome, PairStep, HeardStep;
      var m := Mon(rest);
      if m.owed != [] {
        assert m.owed[0] in m.owed;
        EchoesPaid(m, Pair(rest), Heard(rest), e);
      } else if e.Cut? {
        EchoesCut(m, Pair(rest), Heard(rest), e);
      } else if e.Probed? {
        EchoesProbe(m, Pair(rest), Heard(rest), e);
      } else if e.Cleared? {
        EchoesClear(m, Pair(rest), Heard(rest), e);
      } else if !e.Logged? {
        EchoesBeside(m, Pair(rest), Heard(rest), e);
      } else {
        EchoesFree(m, Pair(rest), Heard(rest), e);
      }
    }
  }

  lemma NoSkipOwed(m: Watch, e: Ev)
    requires forall line :: line in m.owed ==> !line.Skip? && !line.Pause?
    ensures forall line :: line in WatchStep(m, e).owed ==> !line.Skip? && !line.Pause?
  {
    StepOwes(m, e);
    hide WatchStep, KitStep;
  }

  /** With nothing owed, the lines tell just what the cuts and the heal lines do. */
  lemma PairIsHeard(trace: seq<Ev>)
    requires Safe(trace) && Mon(trace).owed == []
    ensures Pair(trace) == Heard(trace)
  {
    hide Mon, Safe;
    Echo(trace);
  }

  // ---- What ended an isolation, and what said so ----

  /** v was isolated by the Partition accepted at i. */
  predicate CutsNode(trace: seq<Ev>, i: nat, v: int) {
    i < |trace| && Accepted(trace[i]) && v in trace[i].op.victims
  }

  /** A Partition accepted replaces the one before it, a Clear that works removes it. */
  predicate Ends(e: Ev) {
    Accepted(e) || (e.Cleared? && e.ok)
  }

  /** A line that closes a node's window. */
  predicate Closes(e: Ev, v: int) {
    e.Logged? && e.line.Heal? && (e.line.who == None || e.line.who == Some(v))
  }

  /** The isolation cut at i ended at c. */
  ghost predicate EndAt(trace: seq<Ev>, i: nat, c: nat) {
    i < c < |trace| && Ends(trace[c]) && forall k :: i < k < c ==> !Ends(trace[k])
  }

  ghost predicate NoEnd(trace: seq<Ev>, i: nat) {
    forall k :: i < k < |trace| ==> !Ends(trace[k])
  }

  /** The first heal line for v after i is at l. */
  ghost predicate FirstClose(trace: seq<Ev>, i: nat, v: int, l: nat) {
    i < l < |trace| && Closes(trace[l], v) && forall k :: i < k < l ==> !Closes(trace[k], v)
  }

  ghost predicate NoClose(trace: seq<Ev>, i: nat, v: int) {
    forall k :: i < k < |trace| ==> !Closes(trace[k], v)
  }

  /** That line comes before v is cut again. */
  ghost predicate SaidAt(trace: seq<Ev>, i: nat, v: int, l: nat) {
    FirstClose(trace, i, v, l) && forall k :: i < k < l ==> !CutsNode(trace, k, v)
  }

  /** The log tells v's isolation by i right: it says healed when it ended, or neither happened. */
  ghost predicate ToldRight(trace: seq<Ev>, i: nat, v: int) {
    && ((exists c: nat :: EndAt(trace, i, c)) <==> (exists l: nat :: SaidAt(trace, i, v, l)))
    && forall c: nat, l: nat :: EndAt(trace, i, c) && SaidAt(trace, i, v, l) ==> trace[c].at == trace[l].at
  }

  /** Accepted Partitions are answered at different times. */
  ghost predicate FromsDiffer(trace: seq<Ev>) {
    forall i, j :: 0 <= i < j < |trace| && Accepted(trace[i]) && Accepted(trace[j]) ==> trace[i].at != trace[j].at
  }

  /** w is v's window for the isolation cut at i that ended at c. */
  ghost predicate WindowAt(trace: seq<Ev>, i: nat, c: nat, w: Isolation) {
    && CutsNode(trace, i, w.node) && EndAt(trace, i, c)
    && w.from == trace[i].at && w.to == Some(trace[c].at)
  }

  lemma InClosing(open: map<int, int>, to: int, w: Isolation)
    ensures w in Closing(open, to) <==> w.node in open && w == Isolation(w.node, open[w.node], Some(to))
    ensures Closing(open, to)[w] <= 1
  {
  }

  // ---- The requests ----

  ghost predicate StillOut(trace: seq<Ev>, i: nat, v: int) {
    CutsNode(trace, i, v) && NoEnd(trace, i)
  }

  lemma StillOutSnoc(rest: seq<Ev>, e: Ev, i: nat, v: int)
    requires i < |rest|
    ensures StillOut(rest + [e], i, v) <==> StillOut(rest, i, v) && !Ends(e)
  {
    var trace := rest + [e];
    assert forall k :: 0 <= k < |rest| ==> trace[k] == rest[k];
    assert trace[|rest|] == e;
  }

  /** Isolated by the requests: those of the last accepted Partition, until it ends. */
  lemma {:induction false} DroveOpen(trace: seq<Ev>, v: int)
    ensures v in Drove(trace).open ==> exists i: nat :: StillOut(trace, i, v) && Drove(trace).open[v] == trace[i].at
    ensures forall i: nat :: StillOut(trace, i, v) ==> v in Drove(trace).open && Drove(trace).open[v] == trace[i].at
  {
    if trace != [] {
      var rest, e := trace[..|trace| - 1], trace[|trace| - 1];
      assert trace == rest + [e];
      DroveOpen(rest, v);
      forall i: nat | i < |rest|
        ensures StillOut(trace, i, v) <==> StillOut(rest, i, v) && !Ends(e)
      {
        StillOutSnoc(rest, e, i, v);
      }
      assert StillOut(trace, |rest|, v) <==> Accepted(e) && v in e.op.victims;
      hide Drove, StillOut;
      DroveLast(trace);
      if v in Drove(trace).open && !Ends(e) {
        var i: nat :| StillOut(rest, i, v) && Drove(rest).open[v] == rest[i].at;
        StillOutInside(rest, i, v);
        assert trace[i] == rest[i];
      }
      forall i: nat | StillOut(trace, i, v)
        ensures v in Drove(trace).open && Drove(trace).open[v] == trace[i].at
      {
        StillOutInside(trace, i, v);
        assert i < |rest| ==> trace[i] == rest[i];
      }
    }
  }

  lemma StillOutInside(trace: seq<Ev>, i: nat, v: int)
    requires StillOut(trace, i, v)
    ensures i < |trace| && Accepted(trace[i])
  {
  }

  lemma DroveLast(trace: seq<Ev>)
    requires trace != []
    ensures
      var d, e := Drove(trace[..|trace| - 1]), trace[|trace| - 1];
      && Drove(trace).open == (if Accepted(e) then Isolated(e.op.victims, e.at) else if Ends(e) then map[] else d.open)
      && Drove(trace).closed == (if Ends(e) then d.closed + Closing(d.open, e.at) else d.closed)
  {
  }

  lemma WindowAtSnoc(rest: seq<Ev>, e: Ev, i: nat, c: nat, w: Isolation)
    ensures c < |rest| ==> (WindowAt(rest + [e], i, c, w) <==> WindowAt(rest, i, c, w))
    ensures WindowAt(rest + [e], i, |rest|, w)
            <==> StillOut(rest, i, w.node) && Ends(e) && w.from == rest[i].at && w.to == Some(e.at)
  {
    var trace := rest + [e];
    assert forall k :: 0 <= k < |rest| ==> trace[k] == rest[k];
    assert trace[|rest|] == e;
  }

  /** The windows of the requests: from each cut to what ended it. */
  lemma {:induction false} DroveClosed(trace: seq<Ev>, w: Isolation)
    ensures w in Drove(trace).closed <==> exists i: nat, c: nat :: WindowAt(trace, i, c, w)
  {
    if trace != [] {
      var rest, e := trace[..|trace| - 1], trace[|trace| - 1];
      assert trace == rest + [e];
      DroveClosed(rest, w);
      DroveLast(trace);
      DroveOpen(rest, w.node);
      InClosing(Drove(rest).open, e.at, w);
      hide Drove, WindowAt, StillOut, Closing;
      if w in Drove(rest).closed {
        var i: nat, c: nat :| WindowAt(rest, i, c, w);
        WindowInside(rest, i, c, w);
        WindowAtSnoc(rest, e, i, c, w);
      }
      if Ends(e) && w in Closing(Drove(rest).open, e.at) {
        var i: nat :| StillOut(rest, i, w.node) && Drove(rest).open[w.node] == rest[i].at;
        WindowAtSnoc(rest, e, i, |rest|, w);
      }
      if i: nat, c: nat :| WindowAt(trace, i, c, w) {
        WindowInside(trace, i, c, w);
        WindowAtSnoc(rest, e, i, c, w);
      }
    }
  }

  lemma WindowInside(trace: seq<Ev>, i: nat, c: nat, w: Isolation)
    requires WindowAt(trace, i, c, w)
    ensures i < c < |trace|
  {
  }

  lemma FromsDifferBefore(rest: seq<Ev>, e: Ev)
    requires FromsDiffer(rest + [e])
    ensures FromsDiffer(rest)
  {
    assert forall k :: 0 <= k < |rest| ==> (rest + [e])[k] == rest[k];
  }

  lemma {:induction false} DroveOnce(trace: seq<Ev>, w: Isolation)
    requires FromsDiffer(trace)
    ensures Drove(trace).closed[w] <= 1
  {
    if trace != [] {
      var rest, e := trace[..|trace| - 1], trace[|trace| - 1];
      assert trace == rest + [e];
      FromsDifferBefore(rest, e);
      DroveOnce(rest, w);
      DroveLast(trace);
      InClosing(Drove(rest).open, e.at, w);
      hide Drove, Closing;
      if Ends(e) && w in Closing(Drove(rest).open, e.at) && w in Drove(rest).closed {
        DroveApart(rest, w);
      }
    }
  }

  /** A window closed is not of the isolation still open. */
  lemma DroveApart(trace: seq<Ev>, w: Isolation)
    requires FromsDiffer(trace) && w in Drove(trace).closed
    ensures !(w.node in Drove(trace).open && Drove(trace).open[w.node] == w.from)
  {
    hide Drove;
    DroveClosed(trace, w);
    DroveOpen(trace, w.node);
    var i: nat, c: nat :| WindowAt(trace, i, c, w);
    if j: nat :| StillOut(trace, j, w.node) {
      assert j != i ==> trace[j].at != trace[i].at;
    }
  }

  // ---- The lines ----

  /** The cut at i opened a window for v: none was open. */
  ghost predicate Opens(trace: seq<Ev>, i: nat, v: int) {
    CutsNode(trace, i, v) && v !in Heard(trace[..i]).open
  }

  /** The window the cut at i opened for v is open still. */
  ghost predicate StillOpen(trace: seq<Ev>, i: nat, v: int) {
    Opens(trace, i, v) && NoClose(trace, i, v)
  }

  /** w is the window the cut at i opened for its node, closed by the line at l. */
  ghost predicate LineWindowAt(trace: seq<Ev>, i: nat, l: nat, w: Isolation) {
    && Opens(trace, i, w.node) && FirstClose(trace, i, w.node, l)
    && w.from == trace[i].at && w.to == Some(trace[l].at)
  }

  lemma HeardLast(trace: seq<Ev>, v: int)
    requires trace != []
    ensures
      var r, e := Heard(trace[..|trace| - 1]), trace[|trace| - 1];
      && (v in Heard(trace).open <==> (v in r.open && !Closes(e, v)) || (Accepted(e) && v in e.op.victims))
      && (v in r.open && !Closes(e, v) ==> Heard(trace).open[v] == r.open[v])
      && (v !in r.open && v in Heard(trace).open ==> Heard(trace).open[v] == e.at)
  {
    hide Closes, Closing;
    StepOpens(Heard(trace[..|trace| - 1]), trace[|trace| - 1], v);
  }

  lemma StepOpens(r: Reading, e: Ev, v: int)
    ensures v in HeardStep(r, e).open <==> (v in r.open && !Closes(e, v)) || (Accepted(e) && v in e.op.victims)
    ensures v in r.open && !Closes(e, v) ==> HeardStep(r, e).open[v] == r.open[v]
    ensures v !in r.open && v in HeardStep(r, e).open ==> HeardStep(r, e).open[v] == e.at
  {
    hide Closing;
  }

  /** The window a line closes for w's node, if w is it. */
  predicate ClosesWindow(r: Reading, e: Ev, w: Isolation) {
    Closes(e, w.node) && w.node in r.open && w == Isolation(w.node, r.open[w.node], Some(e.at))
  }

  lemma HeardCloses(trace: seq<Ev>, w: Isolation)
    requires trace != []
    ensures
      var r, e := Heard(trace[..|trace| - 1]), trace[|trace| - 1];
      && (w in Heard(trace).closed <==> w in r.closed || ClosesWindow(r, e, w))
      && Heard(trace).closed[w] <= r.closed[w] + if ClosesWindow(r, e, w) then 1 else 0
  {
    hide ClosesWindow, HeardStep;
    StepCloses(Heard(trace[..|trace| - 1]), trace[|trace| - 1], w);
  }

  lemma StepCloses(r: Reading, e: Ev, w: Isolation)
    ensures HeardStep(r, e).closed[w] == r.closed[w] + if ClosesWindow(r, e, w) then 1 else 0
  {
    if e.Logged? && e.line.Heal? {
      InClosing(r.open, e.at, w);
      hide Closing;
      if e.line.who.Some? && e.line.who.value in r.open {
        var v := e.line.who.value;
        assert HeardStep(r, e).closed == r.closed + multiset{Isolation(v, r.open[v], Some(e.at))};
      }
    }
  }

  lemma OpensSnoc(rest: seq<Ev>, e: Ev, i: nat, v: int)
    ensures i < |rest| ==> (Opens(rest + [e], i, v) <==> Opens(rest, i, v))
    ensures Opens(rest + [e], |rest|, v) <==> Accepted(e) && v in e.op.victims && v !in Heard(rest).open
  {
    hide Heard;
    var trace := rest + [e];
    assert i < |rest| ==> trace[i] == rest[i] && trace[..i] == rest[..i];
    assert trace[|rest|] == e && trace[..|rest|] == rest;
  }

  lemma OpensInside(trace: seq<Ev>, i: nat, v: int)
    requires Opens(trace, i, v)
    ensures i < |trace| && Accepted(trace[i])
  {
  }

  lemma NoCloseSnoc(rest: seq<Ev>, e: Ev, i: nat, v: int)
    requires i < |rest|
    ensures NoClose(rest + [e], i, v) <==> NoClose(rest, i, v) && !Closes(e, v)
  {
    var trace := rest + [e];
    assert forall k :: 0 <= k < |rest| ==> trace[k] == rest[k];
    assert trace[|rest|] == e;
  }

  lemma StillOpenSnoc(rest: seq<Ev>, e: Ev, i: nat, v: int)
    ensures i < |rest| ==> (StillOpen(rest + [e], i, v) <==> StillOpen(rest, i, v) && !Closes(e, v))
    ensures StillOpen(rest + [e], |rest|, v) <==> Accepted(e) && v in e.op.victims && v !in Heard(rest).open
  {
    OpensSnoc(rest, e, i, v);
    hide Heard, Opens, Closes;
    if i < |rest| {
      NoCloseSnoc(rest, e, i, v);
    }
  }

  lemma StillOpenInside(trace: seq<Ev>, i: nat, v: int)
    requires StillOpen(trace, i, v)
    ensures i < |trace| && Accepted(trace[i])
  {
  }

  /** Open by the lines: what a cut opened and no line closed since. */
  lemma {:induction false} HeardOpen(trace: seq<Ev>, v: int)
    ensures v in Heard(trace).open ==> exists i: nat :: StillOpen(trace, i, v) && Heard(trace).open[v] == trace[i].at
    ensures forall i: nat :: StillOpen(trace, i, v) ==> v in Heard(trace).open && Heard(trace).open[v] == trace[i].at
  {
    if trace != [] {
      var rest, e := trace[..|trace| - 1], trace[|trace| - 1];
      assert trace == rest + [e];
      HeardOpen(rest, v);
      HeardLast(trace, v);
      StillOpenSnoc(rest, e, 0, v);
      hide Heard, StillOpen, Closes;
      if v in Heard(rest).open && !Closes(e, v) {
        var i: nat :| StillOpen(rest, i, v) && Heard(rest).open[v] == rest[i].at;
        StillOpenInside(rest, i, v);
        StillOpenSnoc(rest, e, i, v);
      }
      forall i: nat | StillOpen(trace, i, v)
        ensures v in Heard(trace).open && Heard(trace).open[v] == trace[i].at
      {
        StillOpenInside(trace, i, v);
        StillOpenSnoc(rest, e, i, v);
      }
    }
  }

  /** A cut node stays open by the lines until one closes it. */
  lemma {:induction false} OpenUntilClosed(trace: seq<Ev>, i: nat, v: int)
    requires CutsNode(trace, i, v) && NoClose(trace, i, v)
    ensures v in Heard(trace).open
  {
    var rest, e := trace[..|trace| - 1], trace[|trace| - 1];
    HeardLast(trace, v);
    if i < |rest| {
      assert trace == rest + [e];
      NoCloseSnoc(rest, e, i, v);
      OpenUntilClosed(rest, i, v);
    }
  }

  lemma LineWindowSnoc(rest: seq<Ev>, e: Ev, i: nat, l: nat, w: Isolation)
    ensures l < |rest| ==> (LineWindowAt(rest + [e], i, l, w) <==> LineWindowAt(rest, i, l, w))
    ensures i < |rest| ==>
              (LineWindowAt(rest + [e], i, |rest|, w)
               <==> StillOpen(rest, i, w.node) && Closes(e, w.node) && w.from == rest[i].at && w.to == Some(e.at))
  {
    OpensSnoc(rest, e, i, w.node);
    hide Heard, Opens;
    var trace := rest + [e];
    assert forall k :: 0 <= k < |rest| ==> trace[k] == rest[k];
    assert trace[|rest|] == e;
  }

  lemma LineWindowInside(trace: seq<Ev>, i: nat, l: nat, w: Isolation)
    requires LineWindowAt(trace, i, l, w)
    ensures i < l < |trace|
  {
  }

  /** The windows of the lines: from the cut that opened each to the first line that closes it. */
  lemma {:induction false} HeardClosed(trace: seq<Ev>, w: Isolation)
    ensures w in Heard(trace).closed <==> exists i: nat, l: nat :: LineWindowAt(trace, i, l, w)
  {
    if trace != [] {
      var rest, e := trace[..|trace| - 1], trace[|trace| - 1];
      assert trace == rest + [e];
      HeardClosed(rest, w);
      HeardCloses(trace, w);
      HeardOpen(rest, w.node);
      hide Heard, LineWindowAt, StillOpen, Closes;
      if w in Heard(rest).closed {
        var i: nat, l: nat :| LineWindowAt(rest, i, l, w);
        LineWindowInside(rest, i, l, w);
        LineWindowSnoc(rest, e, i, l, w);
      }
      if ClosesWindow(Heard(rest), e, w) {
        var i: nat :| StillOpen(rest, i, w.node) && Heard(rest).open[w.node] == rest[i].at;
        StillOpenInside(rest, i, w.node);
        LineWindowSnoc(rest, e, i, |rest|, w);
      }
      if i: nat, l: nat :| LineWindowAt(trace, i, l, w) {
        LineWindowInside(trace, i, l, w);
        LineWindowSnoc(rest, e, i, l, w);
      }
    }
  }

  lemma {:induction false} HeardOnce(trace: seq<Ev>, w: Isolation)
    requires FromsDiffer(trace)
    ensures Heard(trace).closed[w] <= 1
  {
    if trace != [] {
      var rest, e := trace[..|trace| - 1], trace[|trace| - 1];
      assert trace == rest + [e];
      FromsDifferBefore(rest, e);
      HeardOnce(rest, w);
      HeardCloses(trace, w);
      hide Heard, Closes;
      if ClosesWindow(Heard(rest), e, w) && w in Heard(rest).closed {
        HeardApart(rest, w);
      }
    }
  }

  lemma HeardApart(trace: seq<Ev>, w: Isolation)
    requires FromsDiffer(trace) && w in Heard(trace).closed
    ensures !(w.node in Heard(trace).open && Heard(trace).open[w.node] == w.from)
  {
    HeardClosed(trace, w);
    HeardOpen(trace, w.node);
    hide Heard, Closes;
    var i: nat, l: nat :| LineWindowAt(trace, i, l, w);
    if j: nat :| StillOpen(trace, j, w.node) {
      assert j != i ==> trace[j].at != trace[i].at;
    }
  }

  // ---- When the readings agree ----

  /** No node is cut while a window of it is open by the lines. */
  ghost predicate NoOverlap(trace: seq<Ev>) {
    forall j: nat, v :: CutsNode(trace, j, v) ==> Opens(trace, j, v)
  }

  ghost predicate AllToldRight(trace: seq<Ev>) {
    forall i: nat, v :: CutsNode(trace, i, v) ==> ToldRight(trace, i, v)
  }

  lemma {:induction false} FirstEnd(trace: seq<Ev>, i: nat, n: nat) returns (c: nat)
    requires i < n < |trace| && Ends(trace[n])
    ensures EndAt(trace, i, c) && c <= n
    decreases n
  {
    if k :| i < k < n && Ends(trace[k]) {
      c := FirstEnd(trace, i, k);
    } else {
      c := n;
    }
  }

  lemma {:induction false} SomeFirstClose(trace: seq<Ev>, i: nat, v: int, n: nat) returns (l: nat)
    requires i < n < |trace| && Closes(trace[n], v)
    ensures FirstClose(trace, i, v, l) && l <= n
    decreases n
  {
    hide Closes;
    if k :| i < k < n && Closes(trace[k], v) {
      l := SomeFirstClose(trace, i, v, k);
    } else {
      l := n;
    }
  }

  lemma RightMeansNoOverlap(trace: seq<Ev>)
    requires AllToldRight(trace)
    ensures NoOverlap(trace)
  {
    hide Heard, Closes;
    forall j: nat, v | CutsNode(trace, j, v)
      ensures Opens(trace, j, v)
    {
      HeardOpen(trace[..j], v);
      if v in Heard(trace[..j]).open {
        var i: nat :| StillOpen(trace[..j], i, v);
        OverlapIsWrong(trace, i, j, v);
      }
    }
  }

  /** A node cut again before a line closed its window is told wrong. */
  lemma OverlapIsWrong(trace: seq<Ev>, i: nat, j: nat, v: int)
    requires j < |trace| && CutsNode(trace, j, v) && StillOpen(trace[..j], i, v)
    ensures CutsNode(trace, i, v) && !ToldRight(trace, i, v)
  {
    hide Heard;
    assert forall k :: 0 <= k < j ==> trace[..j][k] == trace[k];
    var c := FirstEnd(trace, i, j);
    assert forall l: nat :: !SaidAt(trace, i, v, l);
  }

  lemma SaidIsFirstClose(trace: seq<Ev>, i: nat, v: int, l: nat)
    requires NoOverlap(trace) && CutsNode(trace, i, v) && FirstClose(trace, i, v, l)
    ensures SaidAt(trace, i, v, l)
  {
    hide Heard, Closes;
    forall k | i < k < l
      ensures !CutsNode(trace, k, v)
    {
      if CutsNode(trace, k, v) {
        assert trace[..k][i] == trace[i];
        OpenUntilClosed(trace[..k], i, v);
      }
    }
  }

  /** A window of either reading starts at a cut that opened it. */
  lemma HeardFrom(trace: seq<Ev>, w: Isolation) returns (i: nat)
    requires w in Heard(trace).closed || (w.node in Heard(trace).open && Heard(trace).open[w.node] == w.from)
    ensures Opens(trace, i, w.node) && trace[i].at == w.from
  {
    HeardClosed(trace, w);
    HeardOpen(trace, w.node);
    hide Heard, FirstClose, NoClose;
    if w in Heard(trace).closed {
      var j: nat, l: nat :| LineWindowAt(trace, j, l, w);
      i := j;
    } else {
      var j: nat :| StillOpen(trace, j, w.node) && Heard(trace).open[w.node] == trace[j].at;
      i := j;
    }
  }

  lemma SameCutOnce(trace: seq<Ev>, i: nat, j: nat)
    requires FromsDiffer(trace) && i < |trace| && j < |trace| && Accepted(trace[i]) && Accepted(trace[j])
    requires trace[i].at == trace[j].at
    ensures i == j
  {
  }

  lemma EqualMeansNoOverlap(trace: seq<Ev>)
    requires FromsDiffer(trace) && Heard(trace) == Drove(trace)
    ensures NoOverlap(trace)
  {
    hide Heard, Drove;
    forall j: nat, v | CutsNode(trace, j, v)
      ensures Opens(trace, j, v)
    {
      var w := CutsWindow(trace, j, v);
      var i := HeardFrom(trace, w);
      SameCutOnce(trace, i, j);
    }
  }

  /** Every cut has its window by the requests, open or closed. */
  lemma CutsWindow(trace: seq<Ev>, j: nat, v: int) returns (w: Isolation)
    requires CutsNode(trace, j, v)
    ensures w.node == v && w.from == trace[j].at
    ensures w in Drove(trace).closed || (v in Drove(trace).open && Drove(trace).open[v] == w.from)
  {
    hide Drove;
    if k :| j < k < |trace| && Ends(trace[k]) {
      var c := FirstEnd(trace, j, k);
      w := Isolation(v, trace[j].at, Some(trace[c].at));
      DroveClosed(trace, w);
      assert WindowAt(trace, j, c, w);
    } else {
      w := Isolation(v, trace[j].at, None);
      DroveOpen(trace, v);
      assert StillOut(trace, j, v);
    }
  }

  lemma EqualMeansRight(trace: seq<Ev>, i: nat, v: int)
    requires FromsDiffer(trace) && Heard(trace) == Drove(trace) && NoOverlap(trace) && CutsNode(trace, i, v)
    ensures ToldRight(trace, i, v)
  {
    hide Heard, Drove, Ends, Closes, NoOverlap;
    forall c: nat | EndAt(trace, i, c)
      ensures exists l: nat :: SaidAt(trace, i, v, l) && trace[l].at == trace[c].at
    {
      var l := EndIsSaid(trace, i, v, c);
    }
    forall l: nat | SaidAt(trace, i, v, l)
      ensures exists c: nat :: EndAt(trace, i, c) && trace[c].at == trace[l].at
    {
      var c := SaidIsEnd(trace, i, v, l);
    }
    OnlyOne(trace, i, v);
  }

  lemma OnlyOne(trace: seq<Ev>, i: nat, v: int)
    ensures forall c: nat, d: nat :: EndAt(trace, i, c) && EndAt(trace, i, d) ==> c == d
    ensures forall l: nat, m: nat :: SaidAt(trace, i, v, l) && SaidAt(trace, i, v, m) ==> l == m
  {
    hide Ends, Closes, CutsNode;
  }

  lemma EndIsSaid(trace: seq<Ev>, i: nat, v: int, c: nat) returns (l: nat)
    requires FromsDiffer(trace) && Heard(trace) == Drove(trace) && NoOverlap(trace) && CutsNode(trace, i, v)
    requires EndAt(trace, i, c)
    ensures SaidAt(trace, i, v, l) && trace[l].at == trace[c].at
  {
    hide Heard, Drove, Closes, NoOverlap;
    var w := Isolation(v, trace[i].at, Some(trace[c].at));
    DroveClosed(trace, w);
    assert WindowAt(trace, i, c, w);
    HeardClosed(trace, w);
    var j: nat, m: nat :| LineWindowAt(trace, j, m, w);
    OpensInside(trace, j, v);
    SameCutOnce(trace, i, j);
    l := m;
    SaidIsFirstClose(trace, i, v, l);
  }

  lemma SaidIsEnd(trace: seq<Ev>, i: nat, v: int, l: nat) returns (c: nat)
    requires FromsDiffer(trace) && Heard(trace) == Drove(trace) && NoOverlap(trace) && CutsNode(trace, i, v)
    requires SaidAt(trace, i, v, l)
    ensures EndAt(trace, i, c) && trace[c].at == trace[l].at
  {
    hide Heard, Drove, Closes, Ends;
    var w := Isolation(v, trace[i].at, Some(trace[l].at));
    HeardClosed(trace, w);
    assert Opens(trace, i, v);
    assert LineWindowAt(trace, i, l, w);
    DroveClosed(trace, w);
    var j: nat, d: nat :| WindowAt(trace, j, d, w);
    SameCutOnce(trace, i, j);
    c := d;
  }

  /** With every isolation told right the two readings are one. */
  lemma RightMeansEqual(trace: seq<Ev>)
    requires FromsDiffer(trace) && AllToldRight(trace)
    ensures Heard(trace) == Drove(trace)
  {
    hide Heard, Drove, AllToldRight, NoOverlap;
    RightMeansNoOverlap(trace);
    forall w: Isolation
      ensures Heard(trace).closed[w] == Drove(trace).closed[w]
    {
      HeardOnce(trace, w);
      DroveOnce(trace, w);
      SameClosed(trace, w);
      assert w in Heard(trace).closed <==> Heard(trace).closed[w] > 0;
      assert w in Drove(trace).closed <==> Drove(trace).closed[w] > 0;
    }
    forall v: int
      ensures v in Heard(trace).open <==> v in Drove(trace).open
      ensures v in Heard(trace).open ==> Heard(trace).open[v] == Drove(trace).open[v]
    {
      SameOpen(trace, v);
    }
    assert Heard(trace).closed == Drove(trace).closed;
    assert Heard(trace).open == Drove(trace).open;
  }

  lemma SameClosed(trace: seq<Ev>, w: Isolation)
    requires AllToldRight(trace) && NoOverlap(trace)
    ensures w in Heard(trace).closed <==> w in Drove(trace).closed
  {
    hide Heard, Drove, Closes, Ends;
    HeardClosed(trace, w);
    DroveClosed(trace, w);
    var v := w.node;
    if i: nat, l: nat :| LineWindowAt(trace, i, l, w) {
      SaidIsFirstClose(trace, i, v, l);
      assert ToldRight(trace, i, v);
      var c: nat :| EndAt(trace, i, c);
      assert WindowAt(trace, i, c, w);
    }
    if i: nat, c: nat :| WindowAt(trace, i, c, w) {
      assert ToldRight(trace, i, v);
      var l: nat :| SaidAt(trace, i, v, l);
      assert Opens(trace, i, v);
      assert LineWindowAt(trace, i, l, w);
    }
  }

  lemma SameOpen(trace: seq<Ev>, v: int)
    requires AllToldRight(trace) && NoOverlap(trace)
    ensures v in Heard(trace).open <==> v in Drove(trace).open
    ensures v in Heard(trace).open ==> Heard(trace).open[v] == Drove(trace).open[v]
  {
    hide Heard, Drove, NoOverlap, AllToldRight;
    HeardOpen(trace, v);
    DroveOpen(trace, v);
    if v in Heard(trace).open {
      var i: nat :| StillOpen(trace, i, v) && Heard(trace).open[v] == trace[i].at;
      OpenIsOut(trace, i, v);
    }
    if v in Drove(trace).open {
      var i: nat :| StillOut(trace, i, v) && Drove(trace).open[v] == trace[i].at;
      OutIsOpen(trace, i, v);
    }
  }

  lemma OpenIsOut(trace: seq<Ev>, i: nat, v: int)
    requires AllToldRight(trace) && StillOpen(trace, i, v)
    ensures StillOut(trace, i, v)
  {
    hide Heard;
    assert ToldRight(trace, i, v);
    if k :| i < k < |trace| && Ends(trace[k]) {
      var c := FirstEnd(trace, i, k);
    }
  }

  lemma OutIsOpen(trace: seq<Ev>, i: nat, v: int)
    requires AllToldRight(trace) && NoOverlap(trace) && StillOut(trace, i, v)
    ensures StillOpen(trace, i, v)
  {
    hide Heard;
    assert ToldRight(trace, i, v) && Opens(trace, i, v);
    if k :| i < k < |trace| && Closes(trace[k], v) {
      var l := SomeFirstClose(trace, i, v, k);
      SaidIsFirstClose(trace, i, v, l);
    }
  }

  /**
   The log tells what the driver cut exactly when it tells every isolation right: the first heal line
   for its node comes, if its isolation ended, before the node is cut again, and at the time it ended.
   */
  lemma ReadsRightExactlyWhen(trace: seq<Ev>)
    requires Safe(trace) && Mon(trace).owed == [] && FromsDiffer(trace)
    ensures Pair(trace) == Drove(trace) <==> AllToldRight(trace)
  {
    hide Safe, Mon, Pair, Heard, Drove, AllToldRight, NoOverlap, FromsDiffer;
    PairIsHeard(trace);
    if Heard(trace) == Drove(trace) {
      EqualMeansNoOverlap(trace);
      AllRightIfEqual(trace);
    }
    if AllToldRight(trace) {
      RightMeansEqual(trace);
    }
  }

  lemma AllRightIfEqual(trace: seq<Ev>)
    requires FromsDiffer(trace) && Heard(trace) == Drove(trace) && NoOverlap(trace)
    ensures AllToldRight(trace)
  {
    hide Heard, Drove, NoOverlap, FromsDiffer, ToldRight, CutsNode;
    forall i: nat, v | CutsNode(trace, i, v)
      ensures ToldRight(trace, i, v)
    {
      EqualMeansRight(trace, i, v);
    }
  }
}
