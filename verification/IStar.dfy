/**
 Finding the fork block I*, the first block whose time is at or past the activation T: the
 monitor's resumable probe (cmd/migration-monitor/monitor.go:257-316), the verifier's backwalk
 (cmd/verify-migration/checks.go:192-215) and the shape a record must have
 (internal/migmon/timeline.go:258-272). A chain is its headers by number; any request may fail.
 */
module IStar {

  datatype Header = Header(hash: nat, time: nat)

  datatype Record = Record(number: nat, hash: nat, time: nat, parentTime: nat)

  datatype Probe = Failed | NotCrossed | Found(record: Record)

  datatype Walk = WalkFailed | NotReached | Reached(number: nat)

  /** Block times strictly increase. */
  ghost predicate Increasing(chain: seq<Header>) {
    forall i, j :: 0 <= i < j < |chain| ==> chain[i].time < chain[j].time
  }

  /** n is the first block of the chain at or past T. */
  ghost predicate First(chain: seq<Header>, t: nat, n: nat) {
    n < |chain| && chain[n].time >= t && forall k :: 0 <= k < n ==> chain[k].time < t
  }

  function RecordAt(chain: seq<Header>, n: nat): Record
    requires n < |chain|
  {
    Record(n, chain[n].hash, chain[n].time, if n > 0 then chain[n - 1].time else 0)
  }

  predicate ShapeOk(r: Record, t: nat) {
    r.time >= t && r.parentTime < t
  }

  /** The k-th request of a run, for a header; fails says which requests the network lets down. */
  method Ask(chain: seq<Header>, n: nat, fails: nat -> bool, k: nat) returns (ok: bool, h: Header)
    requires n < |chain|
    ensures ok == !fails(k) && (ok ==> h == chain[n])
  {
    ok := !fails(k);
    h := chain[n];
  }

  /** A request before the end-th, from the start-th on, failed. */
  ghost predicate SomeFailed(fails: nat -> bool, start: nat, end: nat) {
    exists k: nat :: start <= k < end && fails(k)
  }

  /** What the probe resumed at lo settles on: it takes the word of lo for a block below T without asking. */
  ghost predicate Settles(chain: seq<Header>, t: nat, lo: nat, head: nat, n: nat) {
    if lo >= head then n == head
    else if lo < |chain| && chain[lo].time >= t then n == lo + 1
    else First(chain, t, n)
  }

  class Prober {
    /** The highest block known to be below T, across polls. */
    var lastBelowT: nat

    constructor ()
      ensures lastBelowT == 0
    {
      lastBelowT := 0;
    }

    /** Requests are numbered from start; the answer comes with the number of the next one. */
    method FindIStar(chain: seq<Header>, head: nat, t: nat, fails: nat -> bool, start: nat)
      returns (r: Probe, next: nat)
      requires Increasing(chain) && head < |chain|
      modifies this
      ensures next > start && (r.Failed? <==> SomeFailed(fails, start, next))
      ensures r.NotCrossed? ==> chain[head].time < t && lastBelowT == head
      ensures !r.NotCrossed? ==> lastBelowT == old(lastBelowT)
      ensures r.Found? ==>
                && chain[head].time >= t && r.record.number <= head
                && Settles(chain, t, old(lastBelowT), head, r.record.number)
                && r.record == RecordAt(chain, r.record.number)
    {
      var ok, h := Ask(chain, head, fails, start);
      next := start + 1;
      if !ok {
        return Failed, next;
      }
      if h.time < t {
        lastBelowT := head;
        return NotCrossed, next;
      }
      var lo: nat, hi: nat := lastBelowT, head;
      while lo + 1 < hi
        invariant lastBelowT == old(lastBelowT)
        invariant hi <= head && chain[hi].time >= t
        invariant lastBelowT < head ==> lastBelowT <= lo < hi
        invariant lastBelowT >= head ==> lo == lastBelowT && hi == head
        invariant lo == lastBelowT || chain[lo].time < t
        invariant next > start && !SomeFailed(fails, start, next)
      {
        var mid := lo + (hi - lo) / 2;
        var midHdr;
        ok, midHdr := Ask(chain, mid, fails, next);
        next := next + 1;
        if !ok {
          return Failed, next;
        }
        if midHdr.time >= t {
          hi := mid;
        } else {
          lo := mid;
        }
      }
      var boundary := h;
      if hi != head {
        ok, boundary := Ask(chain, hi, fails, next);
        next := next + 1;
        if !ok {
          return Failed, next;
        }
      }
      var parentTime := 0;
      if hi > 0 {
        var parent;
        ok, parent := Ask(chain, hi - 1, fails, next);
        next := next + 1;
        if !ok {
          return Failed, next;
        }
        parentTime := parent.time;
      }
      r := Found(Record(hi, boundary.hash, boundary.time, parentTime));
    }
  }

  /** The verifier's own search, over the whole chain. */
  method BackwalkIStar(chain: seq<Header>, t: nat, fails: nat -> bool, start: nat) returns (r: Walk, next: nat)
    requires Increasing(chain) && chain != []
    ensures next > start && (r.WalkFailed? <==> SomeFailed(fails, start, next))
    ensures r.NotReached? ==> chain[|chain| - 1].time < t
    ensures r.Reached? ==> First(chain, t, r.number)
  {
    var head := |chain| - 1;
    var ok, h := Ask(chain, head, fails, start);
    next := start + 1;
    if !ok {
      return WalkFailed, next;
    }
    if h.time < t {
      return NotReached, next;
    }
    var lo: nat, hi: nat := 0, head;
    while lo < hi
      invariant lo <= hi <= head && chain[hi].time >= t
      invariant forall k :: 0 <= k < lo ==> chain[k].time < t
      invariant next > start && !SomeFailed(fails, start, next)
    {
      var mid := lo + (hi - lo) / 2;
      var block;
      ok, block := Ask(chain, mid, fails, next);
      next := next + 1;
      if !ok {
        return WalkFailed, next;
      }
      if block.time >= t {
        hi := mid;
      } else {
        lo := mid + 1;
      }
    }
    r := Reached(lo);
  }

  /**
   The probe is right exactly when the block it resumes from is below T on the chain it now reads;
   resumed at or past the head, exactly when the head is itself the first.
   */
  lemma ProbeIsRightExactlyWhen(chain: seq<Header>, t: nat, lo: nat, head: nat, n: nat)
    requires Increasing(chain) && head < |chain| && chain[head].time >= t && n <= head && Settles(chain, t, lo, head, n)
    ensures First(chain, t, n) <==> if lo < head then chain[lo].time < t else head == 0 || chain[head - 1].time < t
  {
    if lo >= head && head > 0 && chain[head - 1].time < t {
      forall k | 0 <= k < head
        ensures chain[k].time < t
      {
        assert k < head - 1 ==> chain[k].time < chain[head - 1].time;
      }
    }
  }

  lemma OneFirst(chain: seq<Header>, t: nat, m: nat, n: nat)
    requires First(chain, t, m) && First(chain, t, n)
    ensures m == n
  {
    assert !(m < n) && !(n < m);
  }

  /** The monitor's probe and the verifier's backwalk give one number exactly when the resume point is below T. */
  lemma SearchesCoincide(chain: seq<Header>, t: nat, lo: nat, head: nat, probed: nat, walked: nat)
    requires Increasing(chain) && head < |chain| && chain[head].time >= t && probed <= head
    requires Settles(chain, t, lo, head, probed) && First(chain, t, walked)
    ensures probed == walked <==> if lo < head then chain[lo].time < t else head == 0 || chain[head - 1].time < t
  {
    ProbeIsRightExactlyWhen(chain, t, lo, head, probed);
    if First(chain, t, probed) {
      OneFirst(chain, t, probed, walked);
    }
  }

  /**
   The monitor's probe and then the verifier's backwalk over one chain: while no request fails both
   answer, and they answer alike exactly when the block resumed from is below T on that chain.
   */
  method ProbeAndWalk(p: Prober, chain: seq<Header>, t: nat, fails: nat -> bool)
    returns (probe: Probe, walk: Walk, asked: nat)
    requires Increasing(chain) && chain != []
    modifies p
    ensures probe.Failed? || walk.WalkFailed? ==> SomeFailed(fails, 0, asked)
    ensures !SomeFailed(fails, 0, asked) ==> (probe.NotCrossed? <==> chain[|chain| - 1].time < t)
    ensures !SomeFailed(fails, 0, asked) ==> (probe.NotCrossed? <==> walk.NotReached?)
    ensures walk.Reached? ==> walk.number < |chain|
    ensures probe.Found? && walk.Reached? ==>
              var lo, head := old(p.lastBelowT), |chain| - 1;
              probe.record == RecordAt(chain, walk.number)
              <==> if lo < head then chain[lo].time < t else head == 0 || chain[head - 1].time < t
  {
    var middle;
    probe, middle := p.FindIStar(chain, |chain| - 1, t, fails, 0);
    walk, asked := BackwalkIStar(chain, t, fails, middle);
    if probe.Found? && walk.Reached? {
      SearchesCoincide(chain, t, old(p.lastBelowT), |chain| - 1, probe.record.number, walk.number);
    }
  }

  // ---- The verifier's resolution ----

  /** An istar event of the monitor's log. */
  datatype Event = Event(node: nat, number: nat)

  /** The block each node's last event names. */
  function NodeValues(events: seq<Event>): map<nat, nat> {
    if events == [] then map[]
    else NodeValues(events[..|events| - 1])[events[|events| - 1].node := events[|events| - 1].number]
  }

  lemma {:induction false} ValuesAreEvents(events: seq<Event>, v: nat)
    requires v in NodeValues(events)
    ensures exists e: Event :: e in events && e.node == v && e.number == NodeValues(events)[v]
  {
    var last := events[|events| - 1];
    if v != last.node {
      ValuesAreEvents(events[..|events| - 1], v);
    } else {
      assert last in events;
    }
  }

  datatype Resolution = Unresolved | Resolved(number: nat)

  /** Every node's last event names block n. */
  ghost predicate AllSay(vals: map<nat, nat>, n: nat) {
    forall v: nat :: v in vals ==> vals[v] == n
  }

  /** Whether the node values agree, and on what. */
  method Agreement(vals: map<nat, nat>) returns (agree: bool, number: nat)
    ensures agree ==> AllSay(vals, number)
    ensures !agree ==> forall n: nat :: !AllSay(vals, n)
  {
    var left: map<nat, nat> := vals;
    var seen := false;
    agree, number := true, 0;
    while left != map[]
      invariant forall v: nat :: v in left ==> v in vals && left[v] == vals[v]
      invariant !seen ==> agree && left == vals
      invariant seen ==> exists v: nat :: v in vals && vals[v] == number
      invariant agree && seen ==> forall v: nat :: v in vals && v !in left ==> vals[v] == number
      invariant !agree ==> seen && exists v: nat :: v in vals && vals[v] != number
      decreases |left|
    {
      NotEmpty(left);
      var v: nat :| v in left;
      var n := left[v];
      if !seen {
        number, seen := n, true;
      } else if n != number {
        agree := false;
      }
      left := left - {v};
    }
  }

  lemma NotEmpty(m: map<nat, nat>)
    requires m != map[]
    ensures exists v: nat :: v in m
  {
    assert (exists v: nat :: v in m) || m.Keys == {};
  }

  /** The backwalk answers: there is a node to ask, no request fails and its head is at or past T. */
  ghost predicate Walked(els: seq<seq<Header>>, t: nat, failed: bool) {
    els != [] && els[0] != [] && !failed && els[0][|els[0]| - 1].time >= t
  }

  /** Block n is what every source that answers says, and one does. */
  ghost predicate AllAgree(events: seq<Event>, els: seq<seq<Header>>, t: nat, failed: bool, n: nat) {
    && AllSay(NodeValues(events), n) && (Walked(els, t, failed) ==> First(els[0], t, n))
    && (events != [] || Walked(els, t, failed))
  }

  /** The fork block of the verifier's checks, which is unresolved exactly when its sources disagree or none answers. */
  method ResolveIStar(events: seq<Event>, els: seq<seq<Header>>, t: nat, fails: nat -> bool)
    returns (r: Resolution, asked: nat)
    requires forall c :: c in els ==> Increasing(c) && c != []
    ensures r.Resolved? ==> AllAgree(events, els, t, SomeFailed(fails, 0, asked), r.number)
    ensures r.Unresolved? ==> forall n: nat :: !AllAgree(events, els, t, SomeFailed(fails, 0, asked), n)
  {
    var vals := NodeValues(events);
    var agree, number := Agreement(vals);
    asked := 0;
    if vals != map[] && !agree {
      return Unresolved, asked;
    }
    var walk := WalkFailed;
    if els != [] {
      walk, asked := BackwalkIStar(els[0], t, fails, 0);
    }
    AnswersAre(events, els, t, SomeFailed(fails, 0, asked), number, walk);
    if vals != map[] && walk.Reached? {
      r := if number == walk.number then Resolved(number) else Unresolved;
    } else if vals != map[] {
      r := Resolved(number);
    } else {
      r := if walk.Reached? then Resolved(walk.number) else Unresolved;
    }
  }

  lemma AnswersAre(events: seq<Event>, els: seq<seq<Header>>, t: nat, failed: bool, number: nat, walk: Walk)
    requires els != [] ==> els[0] != []
    requires NodeValues(events) != map[] ==> AllSay(NodeValues(events), number)
    requires if els == [] then walk == WalkFailed else walk.WalkFailed? <==> failed
    requires els != [] ==>
               (walk.NotReached? ==> els[0][|els[0]| - 1].time < t) && (walk.Reached? ==> First(els[0], t, walk.number))
    requires els != [] && walk.Reached? ==> els[0][|els[0]| - 1].time >= t
    ensures walk.Reached? <==> Walked(els, t, failed)
    ensures forall n: nat :: AllAgree(events, els, t, failed, n) <==>
              && (NodeValues(events) != map[] ==> n == number) && (walk.Reached? ==> n == walk.number)
              && (NodeValues(events) != map[] || walk.Reached?)
  {
    var vals := NodeValues(events);
    assert events != [] ==> events[|events| - 1].node in vals;
    forall n: nat
      ensures AllSay(vals, n) <==> vals == map[] || n == number
    {
      if vals != map[] {
        NotEmpty(vals);
      }
    }
    forall n: nat
      ensures walk.Reached? ==> (First(els[0], t, n) <==> n == walk.number)
    {
      if walk.Reached? && First(els[0], t, n) {
        OneFirst(els[0], t, n, walk.number);
      }
    }
  }

  /** Events that all name the first block of the chain walked never leave it unresolved. */
  lemma SoundEventsResolve(events: seq<Event>, els: seq<seq<Header>>, t: nat, failed: bool, n: nat)
    requires events != [] || !failed
    requires els != [] && Increasing(els[0]) && First(els[0], t, n)
    requires forall e: Event :: e in events ==> First(els[0], t, e.number)
    ensures AllAgree(events, els, t, failed, n)
  {
    forall v: nat | v in NodeValues(events)
      ensures NodeValues(events)[v] == n
    {
      ValuesAreEvents(events, v);
      OneFirst(els[0], t, n, NodeValues(events)[v]);
    }
    assert els[0][|els[0]| - 1].time >= els[0][n].time;
  }

  /**
   Stale or not, a record of the chain has the right shape exactly when it is the one first block and T is not
   zero.
   */
  lemma ShapeDecides(chain: seq<Header>, t: nat, n: nat)
    requires Increasing(chain) && n < |chain|
    ensures ShapeOk(RecordAt(chain, n), t) <==> t > 0 && First(chain, t, n)
  {
    if n > 0 && chain[n - 1].time < t {
      forall k | 0 <= k < n
        ensures chain[k].time < t
      {
        assert k < n - 1 ==> chain[k].time < chain[n - 1].time;
      }
    }
  }

  /** A reorg can leave the block resumed from past T on the new branch: the probe then settles one block late. */
  lemma StaleResumePoint()
    ensures
      var chain := [Header(1, 0), Header(2, 10), Header(3, 20), Header(4, 30)];
      Increasing(chain) && Settles(chain, 15, 2, 3, 3) && First(chain, 15, 2) && !ShapeOk(RecordAt(chain, 3), 15)
  {
  }
}
