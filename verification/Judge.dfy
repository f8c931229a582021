/**
 The log reader of cmd/verify-migration/checks.go:217-380: pairing isolate and heal lines into
 windows and attributing each to the op that made it; and the round trip from a run of the driver.
 */
module Judge {
  import opened Options
  import opened Schedule
  import opened Records
  import opened Readings
  import opened Dump
  import opened Shipped

  function Unhealed(open: map<int, int>): multiset<Isolation> {
    multiset(set v | v in open :: Isolation(v, open[v], None))
  }

  /** Pairs each isolate with the same-node heal or heal-all that closes it; the open map is walked in any order. */
  method ChaosWindows(log: seq<Ev>) returns (windows: seq<Isolation>)
    ensures multiset(windows) == Pair(log).closed + Unhealed(Pair(log).open)
  {
    hide Closing, Unhealed;
    var open: map<int, int> := map[];
    windows := [];
    for i := 0 to |log|
      invariant multiset(windows) == Pair(log[..i]).closed && open == Pair(log[..i]).open
    {
      assert log[..i + 1][..i] == log[..i];
      match log[i] {
        case Logged(Isolate(v), at) =>
          if v !in open {
            open := open[v := at];
          }
        case Logged(Heal(None, _), at) =>
          windows := CloseAll(open, at, windows);
          open := map[];
        case Logged(Heal(Some(v), _), at) =>
          if v in open {
            windows := windows + [Isolation(v, open[v], Some(at))];
            open := open - {v};
          }
        case _ =>
      }
    }
    assert log[..|log|] == log;
    windows := LeaveOpen(open, windows);
  }

  method CloseAll(open: map<int, int>, at: int, windows: seq<Isolation>) returns (closed: seq<Isolation>)
    ensures multiset(closed) == multiset(windows) + Closing(open, at)
  {
    hide Closing;
    closed := windows;
    var rest := open;
    while rest.Keys != {}
      invariant multiset(closed) + Closing(rest, at) == multiset(windows) + Closing(open, at)
      decreases rest.Keys
    {
      SomeKey(rest);
      var v :| v in rest;
      ClosingExtra(rest - {v}, v, rest[v], at);
      assert (rest - {v})[v := rest[v]] == rest;
      closed := closed + [Isolation(v, rest[v], Some(at))];
      rest := rest - {v};
    }
    ClosingNone(rest, at);
  }

  method LeaveOpen(open: map<int, int>, windows: seq<Isolation>) returns (all: seq<Isolation>)
    ensures multiset(all) == multiset(windows) + Unhealed(open)
  {
    hide Unhealed;
    all := windows;
    var rest := open;
    while rest.Keys != {}
      invariant multiset(all) + Unhealed(rest) == multiset(windows) + Unhealed(open)
      decreases rest.Keys
    {
      SomeKey(rest);
      var v :| v in rest;
      UnhealedExtra(rest - {v}, v, rest[v]);
      assert (rest - {v})[v := rest[v]] == rest;
      all := all + [Isolation(v, rest[v], None)];
      rest := rest - {v};
    }
    UnhealedNone(rest);
  }

  lemma ClosingNone(open: map<int, int>, at: int)
    requires open.Keys == {}
    ensures Closing(open, at) == multiset{}
  {
    assert open == map[];
  }

  lemma ClosingExtra(open: map<int, int>, v: int, from: int, at: int)
    requires v !in open
    ensures Closing(open[v := from], at) == Closing(open, at) + multiset{Isolation(v, from, Some(at))}
  {
    var w := Isolation(v, from, Some(at));
    var more := open[v := from];
    var was := set u | u in open :: Isolation(u, open[u], Some(at));
    var now := set u | u in more :: Isolation(u, more[u], Some(at));
    forall x | x in was
      ensures x in now
    {
      assert x.node in more;
    }
    assert v in more;
    assert now == was + {w};
    assert w !in was;
  }

  lemma SomeKey(open: map<int, int>)
    requires open.Keys != {}
    ensures exists v :: v in open
  {
    assert (exists v :: v in open) || open.Keys == {};
  }

  lemma UnhealedNone(open: map<int, int>)
    requires open.Keys == {}
    ensures Unhealed(open) == multiset{}
  {
    assert open == map[];
  }

  lemma UnhealedExtra(open: map<int, int>, v: int, from: int)
    requires v !in open
    ensures Unhealed(open[v := from]) == Unhealed(open) + multiset{Isolation(v, from, None)}
  {
    var w := Isolation(v, from, None);
    var more := open[v := from];
    var was := set u | u in open :: Isolation(u, open[u], None);
    var now := set u | u in more :: Isolation(u, more[u], None);
    forall x | x in was
      ensures x in now
    {
      assert x.node in more;
    }
    assert v in more;
    assert now == was + {w};
    assert w !in was;
  }

  /** The lines of a run, all a reader gets. */
  function Told(trace: seq<Ev>): (r: seq<Ev>) {
    if trace == [] then []
    else Told(trace[..|trace| - 1]) + if trace[|trace| - 1].Logged? then [trace[|trace| - 1]] else []
  }

  lemma {:induction false} ToldReadsTheSame(trace: seq<Ev>)
    ensures Pair(Told(trace)) == Pair(trace)
  {
    if trace != [] {
      var rest, e := trace[..|trace| - 1], trace[|trace| - 1];
      ToldReadsTheSame(rest);
      if e.Logged? {
        Snoc(Told(rest), e);
      } else {
        assert Told(trace) == Told(rest);
      }
    }
  }

  /** Whether an instant falls inside the window for a node, give or take the slop; no node matches any. */
  predicate Covers(w: Isolation, node: Option<int>, t: int, slop: nat) {
    && (node.Some? ==> w.node == node.value)
    && w.from - slop <= t
    && (w.to.Some? ==> t <= w.to.value + slop)
  }

  /** With slop, an instant is covered exactly when one no further off than that is covered without. */
  lemma SlopWidens(w: Isolation, node: Option<int>, t: int, slop: nat)
    requires w.to.Some? ==> w.from <= w.to.value
    ensures Covers(w, node, t, slop) <==> exists u :: t - slop <= u <= t + slop && Covers(w, node, u, 0)
  {
    if Covers(w, node, t, slop) {
      var u := if t < w.from then w.from else if w.to.Some? && t > w.to.value then w.to.value else t;
      assert Covers(w, node, u, 0);
    }
  }

  // ---- Attribution ----

  /** The window's node is one of the op's victims and it started inside the op's window, give or take the slop. */
  predicate OpOwns(op: DumpOp, w: Isolation) {
    w.node in op.victims && op.start - SLOP <= w.from <= op.end + SLOP
  }

  /** The first op that owns the window. */
  function Owner(ops: seq<DumpOp>, w: Isolation): (r: Option<DumpOp>)
    ensures r.Some? ==> r.value in ops && OpOwns(r.value, w)
    ensures r.None? ==> forall o :: o in ops ==> !OpOwns(o, w)
    ensures r.Some? ==> w.node in r.value.victims && r.value.start - 30 <= w.from <= r.value.end + 30
  {
    if ops == [] then None
    else
      var before, last := Owner(ops[..|ops| - 1], w), ops[|ops| - 1];
      assert ops == ops[..|ops| - 1] + [last];
      if before.Some? then before else if OpOwns(last, w) then Some(last) else None
  }

  /** The windows that found an owner. */
  ghost function Windows(matched: seq<(DumpOp, Isolation)>): seq<Isolation> {
    seq(|matched|, (k: nat) requires k < |matched| => matched[k].1)
  }

  lemma WindowsSnoc(matched: seq<(DumpOp, Isolation)>, op: DumpOp, w: Isolation)
    ensures Windows(matched + [(op, w)]) == Windows(matched) + [w]
  {
  }

  /** Each window goes to the first admitted op that owns it, and none is lost. */
  method AttributeWindows(d: Dump, windows: seq<Isolation>)
    returns (matched: seq<(DumpOp, Isolation)>, unscheduled: seq<Isolation>)
    ensures forall m :: m in matched ==> Owner(Admitted(d.ops), m.1) == Some(m.0)
    ensures forall w :: w in unscheduled ==> Owner(Admitted(d.ops), w) == None
    ensures multiset(windows) == multiset(Windows(matched)) + multiset(unscheduled)
  {
    hide Owner, Windows;
    matched, unscheduled := [], [];
    var admitted := Admitted(d.ops);
    NoWindows();
    for i := 0 to |windows|
      invariant forall m :: m in matched ==> Owner(admitted, m.1) == Some(m.0)
      invariant forall w :: w in unscheduled ==> Owner(admitted, w) == None
      invariant multiset(windows[..i]) == multiset(Windows(matched)) + multiset(unscheduled)
    {
      var w := windows[i];
      assert windows[..i + 1] == windows[..i] + [w];
      var owner := FindOwner(admitted, w);
      match owner {
        case Some(op) =>
          WindowsSnoc(matched, op, w);
          matched := matched + [(op, w)];
        case None =>
          unscheduled := unscheduled + [w];
      }
    }
    assert windows[..|windows|] == windows;
  }

  lemma NoWindows()
    ensures Windows([]) == []
  {
  }

  method FindOwner(ops: seq<DumpOp>, w: Isolation) returns (owner: Option<DumpOp>)
    ensures owner == Owner(ops, w)
  {
    for i := 0 to |ops|
      invariant Owner(ops[..i], w) == None
    {
      assert ops[..i + 1][..i] == ops[..i];
      if OpOwns(ops[i], w) {
        OwnerStays(ops, i + 1, w);
        return Some(ops[i]);
      }
    }
    assert ops[..|ops|] == ops;
    owner := None;
  }

  lemma {:induction false} OwnerStays(ops: seq<DumpOp>, i: nat, w: Isolation)
    requires i <= |ops| && Owner(ops[..i], w).Some?
    ensures Owner(ops, w) == Owner(ops[..i], w)
  {
    if i == |ops| {
      assert ops[..i] == ops;
    } else {
      assert ops[..|ops| - 1][..i] == ops[..i];
      OwnerStays(ops[..|ops| - 1], i, w);
    }
  }
}
