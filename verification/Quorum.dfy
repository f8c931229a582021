/**
 Fork-block records across nodes (internal/migmon/timeline.go:205-310). Nodes are numbers; maps are walked in any
 order.
 */
module Quorum {
  import opened IStar
  import opened Options

  const PROVISIONAL_GRACE := 360

  datatype Ev = Misshapen(node: nat, number: nat) | FinalDiffers(node: nat, other: nat) | StillDisagree

  predicate Same(a: Record, b: Record) {
    a.number == b.number && a.hash == b.hash
  }

  // ---- Counting differing pairs ----

  /** The unordered pairs of nodes whose records differ, smaller node first. */
  ghost function DifferPairs(recs: map<nat, Record>): set<(nat, nat)> {
    set a, b | a in recs && b in recs && a < b && !Same(recs[a], recs[b]) :: (a, b)
  }

  function Others(recs: map<nat, Record>, r: Record): set<nat> {
    set n | n in recs && !Same(recs[n], r)
  }

  function Paired(node: nat, n: nat): (nat, nat) {
    if n < node then (n, node) else (node, n)
  }

  ghost function PairsWith(node: nat, ns: set<nat>): set<(nat, nat)> {
    set n | n in ns :: Paired(node, n)
  }

  lemma {:induction false} PairsWithCount(node: nat, ns: set<nat>)
    requires node !in ns
    ensures |PairsWith(node, ns)| == |ns|
  {
    if ns == {} {
      assert PairsWith(node, ns) == {};
    } else {
      var n :| n in ns;
      PairsWithCount(node, ns - {n});
      assert PairsWith(node, ns) == PairsWith(node, ns - {n}) + {Paired(node, n)};
      assert Paired(node, n) !in PairsWith(node, ns - {n});
    }
  }

  lemma InDifferPairs(recs: map<nat, Record>, x: (nat, nat))
    ensures x in DifferPairs(recs) <==> x.0 in recs && x.1 in recs && x.0 < x.1 && !Same(recs[x.0], recs[x.1])
  {
  }

  lemma InPairsWith(node: nat, ns: set<nat>, x: (nat, nat))
    requires node !in ns
    ensures x in PairsWith(node, ns) <==> x.0 < x.1 && ((x.0 == node && x.1 in ns) || (x.1 == node && x.0 in ns))
  {
    if x.0 < x.1 && x.0 == node && x.1 in ns {
      assert x == Paired(node, x.1);
    }
    if x.0 < x.1 && x.1 == node && x.0 in ns {
      assert x == Paired(node, x.0);
    }
  }

  /** A new record adds a differing pair for every node it differs from. */
  lemma DifferPairsNext(recs: map<nat, Record>, node: nat, r: Record)
    requires node !in recs
    ensures |DifferPairs(recs[node := r])| == |DifferPairs(recs)| + |Others(recs, r)|
  {
    hide DifferPairs, PairsWith;
    var more := recs[node := r];
    var old', new' := DifferPairs(recs), PairsWith(node, Others(recs, r));
    PairsWithCount(node, Others(recs, r));
    forall x: (nat, nat)
      ensures x in DifferPairs(more) <==> x in old' || x in new'
      ensures !(x in old' && x in new')
    {
      InDifferPairs(more, x);
      InDifferPairs(recs, x);
      InPairsWith(node, Others(recs, r), x);
    }
    assert DifferPairs(more) == old' + new';
    assert old' !! new';
  }

  // ---- How long nodes have disagreed ----

  /** One look at the provisional records: when, and whether some two differed. */
  datatype Look = Look(at: int, differ: bool)

  /** How many looks up to look i, in a row, found a difference. */
  function Span(looks: seq<Look>, i: nat): (n: nat)
    requires i < |looks|
    ensures n <= i + 1 && (n > 0 <==> looks[i].differ)
  {
    if !looks[i].differ then 0 else if i == 0 then 1 else Span(looks, i - 1) + 1
  }

  /** When the disagreement that look i is in was first seen. */
  function Start(looks: seq<Look>, i: nat): int
    requires i < |looks| && looks[i].differ
  {
    looks[i + 1 - Span(looks, i)].at
  }

  /** Look i finds a disagreement that has outlasted the grace. */
  predicate Late(looks: seq<Look>, i: nat) {
    i < |looks| && looks[i].differ && looks[i].at - Start(looks, i) > PROVISIONAL_GRACE
  }

  /** Nodes differed at every look from the k-th to the i-th, and not at the one before. */
  ghost predicate DifferSince(looks: seq<Look>, k: nat, i: nat) {
    && k <= i < |looks| && (k > 0 ==> !looks[k - 1].differ) && forall j :: k <= j <= i ==> looks[j].differ
  }

  lemma {:induction false} SpanMeans(looks: seq<Look>, i: nat)
    requires i < |looks| && looks[i].differ
    ensures DifferSince(looks, i + 1 - Span(looks, i), i)
  {
    if i > 0 && looks[i - 1].differ {
      SpanMeans(looks, i - 1);
    }
  }

  /** A look is late exactly when it is more than six minutes after the first that saw this disagreement. */
  lemma LateMeans(looks: seq<Look>, i: nat)
    ensures Late(looks, i) <==> exists k: nat :: DifferSince(looks, k, i) && looks[i].at - looks[k].at > 360
  {
    if i < |looks| && looks[i].differ {
      SpanMeans(looks, i);
      var k := i + 1 - Span(looks, i);
      assert forall j: nat :: DifferSince(looks, j, i) ==> !(j < k) && !(j > k);
    }
  }

  ghost predicate LateInSpan(looks: seq<Look>, i: nat)
    requires i < |looks|
  {
    exists k: nat :: i - Span(looks, i) < k <= i && Late(looks, k)
  }

  /** Look i is the first of its disagreement to find it late. */
  ghost predicate Overdue(looks: seq<Look>, i: nat)
    requires i < |looks|
  {
    Late(looks, i) && forall k: nat :: i - Span(looks, i) < k < i ==> !Late(looks, k)
  }

  lemma {:induction false} SpanStays(looks: seq<Look>, l: Look, i: nat)
    requires i < |looks|
    ensures Span(looks + [l], i) == Span(looks, i) && (Late(looks + [l], i) <==> Late(looks, i))
  {
    assert forall k :: 0 <= k < |looks| ==> (looks + [l])[k] == looks[k];
    if i > 0 && looks[i].differ {
      SpanStays(looks, l, i - 1);
    }
  }

  /** One disagreement is found overdue at most once. */
  lemma OverdueOnce(looks: seq<Look>, i: nat, j: nat)
    requires i < j < |looks| && Overdue(looks, i) && Overdue(looks, j)
    ensures exists k :: i < k < j && !looks[k].differ
  {
    if forall k :: i < k < j ==> looks[k].differ {
      SpanReaches(looks, i, j);
    }
  }

  lemma {:induction false} SpanReaches(looks: seq<Look>, i: nat, j: nat)
    requires i <= j < |looks| && forall k :: i <= k <= j ==> looks[k].differ
    ensures Span(looks, j) >= j - i + 1
  {
    if i < j {
      SpanReaches(looks, i, j - 1);
    }
  }

  /** The two fields sum up the looks: since when they differ, and whether that was already found late. */
  ghost predicate Timed(looks: seq<Look>, since: Option<int>, fired: bool) {
    if looks != [] && looks[|looks| - 1].differ
    then since == Some(Start(looks, |looks| - 1)) && (fired <==> LateInSpan(looks, |looks| - 1))
    else since == None && !fired
  }

  lemma TimedNext(looks: seq<Look>, since: Option<int>, fired: bool, at: int)
    requires Timed(looks, since, fired)
    ensures
      var start := if since.Some? then since.value else at;
      var more := looks + [Look(at, true)];
      var late := at - start > PROVISIONAL_GRACE;
      && Timed(more, Some(start), fired || late)
      && (Overdue(more, |looks|) <==> !fired && late)
    ensures Timed(looks + [Look(at, false)], None, false) && !Overdue(looks + [Look(at, false)], |looks|)
  {
    var more, n := looks + [Look(at, true)], |looks|;
    assert forall k :: 0 <= k < n ==> more[k] == looks[k];
    if n > 0 {
      SpanStays(looks, Look(at, true), n - 1);
      assert Span(more, n) == if looks[n - 1].differ then Span(looks, n - 1) + 1 else 1;
    }
    LateNext(looks, at);
  }

  lemma LateNext(looks: seq<Look>, at: int)
    ensures
      var more, n := looks + [Look(at, true)], |looks|;
      var before := n > 0 && looks[n - 1].differ && LateInSpan(looks, n - 1);
      && (LateInSpan(more, n) <==> Late(more, n) || before)
      && (Overdue(more, n) <==> Late(more, n) && !before)
  {
    var more, n := looks + [Look(at, true)], |looks|;
    forall k: nat | k < n
      ensures Late(more, k) <==> Late(looks, k)
    {
      SpanStays(looks, Look(at, true), k);
    }
    if n > 0 {
      SpanStays(looks, Look(at, true), n - 1);
    }
    hide Late;
    if n > 0 && looks[n - 1].differ && LateInSpan(looks, n - 1) {
      var k: nat :| n - 1 - Span(looks, n - 1) < k <= n - 1 && Late(looks, k);
      assert Late(more, k);
    }
  }

  ghost predicate Disagree(recs: map<nat, Record>) {
    exists a, b :: a in recs && b in recs && !Same(recs[a], recs[b])
  }

  class IStarQuorum {
    const t: nat
    var provisional: map<nat, Record>
    var final: map<nat, Record>
    var shaped: set<(nat, nat)>
    var disagreeSince: Option<int>
    var disagreeFired: bool
    /** How many finalized-differ findings were raised, and the looks at two or more provisional records. */
    ghost var raised: nat
    ghost var looks: seq<Look>

    ghost predicate Valid()
      reads this
    {
      raised == |DifferPairs(final)| && Timed(looks, disagreeSince, disagreeFired)
    }

    constructor (t: nat)
      ensures Valid() && this.t == t && provisional == map[] && final == map[] && shaped == {} && raised == 0
              && looks == []
    {
      this.t := t;
      provisional, final, shaped := map[], map[], {};
      disagreeSince, disagreeFired := None, false;
      raised, looks := 0, [];
      assert DifferPairs(map[]) == {};
    }

    /** Records that a node's fork block has settled: a finding against every node that settled on another. */
    method Finalize(node: nat, b: Record) returns (evs: seq<Ev>)
      requires Valid()
      modifies `final, `raised
      ensures Valid()
      ensures final == if node in old(final) then old(final) else old(final)[node := b]
      ensures node in old(final) ==> evs == []
      ensures node !in old(final) ==>
                && (forall o :: FinalDiffers(node, o) in evs <==>
                      o in old(final) && (old(final)[o].number != b.number || old(final)[o].hash != b.hash))
                && |evs| == |Others(old(final), b)|
      ensures raised == old(raised) + |evs|
    {
      hide Timed;
      evs := [];
      if node in final {
        return;
      }
      DifferPairsNext(final, node, b);
      var before := final;
      final := final[node := b];
      evs := Differing(node, b, final);
      SameOthers(before, node, b);
      raised := raised + |evs|;
    }

    lemma SameOthers(before: map<nat, Record>, node: nat, b: Record)
      requires node !in before
      ensures Others(before[node := b], b) == Others(before, b)
    {
    }

    method Differing(node: nat, b: Record, recs: map<nat, Record>) returns (evs: seq<Ev>)
      ensures forall o :: FinalDiffers(node, o) in evs <==> o in Others(recs, b)
      ensures |evs| == |Others(recs, b)|
    {
      evs := [];
      var rest := recs.Keys;
      ghost var found: set<nat> := {};
      while rest != {}
        invariant rest <= recs.Keys
        invariant forall o :: o in found <==> o in recs && o !in rest && !Same(recs[o], b)
        invariant forall o :: FinalDiffers(node, o) in evs <==> o in found
        invariant |evs| == |found|
        decreases rest
      {
        var other :| other in rest;
        rest := rest - {other};
        if !Same(recs[other], b) {
          found := found + {other};
          evs := evs + [FinalDiffers(node, other)];
        }
      }
      assert found == Others(recs, b);
    }

    /** One record's own shape, checked once per node and hash. */
    method CheckShape(node: nat, b: Record) returns (evs: seq<Ev>)
      modifies `shaped
      ensures shaped == old(shaped) + {(node, b.hash)}
      ensures evs == if (node, b.hash) !in old(shaped) && !ShapeOk(b, t) then [Misshapen(node, b.number)] else []
    {
      if (node, b.hash) in shaped {
        return [];
      }
      shaped := shaped + {(node, b.hash)};
      if b.time >= t && b.parentTime < t {
        return [];
      }
      evs := [Misshapen(node, b.number)];
    }

    /**
     Fires once nodes disagree longer than the grace; which two nodes it names depends on the walk, the verdict
     does not.
     */
    method CheckProvisional(now: int) returns (evs: seq<Ev>)
      requires Valid()
      modifies `disagreeSince, `disagreeFired, `looks
      ensures Valid()
      ensures looks == if |provisional| < 2 then old(looks) else old(looks) + [Look(now, Disagree(provisional))]
      ensures evs == if |provisional| >= 2 && Overdue(looks, |looks| - 1) then [StillDisagree] else []
    {
      evs := [];
      if |provisional| < 2 {
        return;
      }
      hide Timed, Overdue, DifferPairs;
      var differ := FindDifference(provisional);
      TimedNext(looks, disagreeSince, disagreeFired, now);
      looks := looks + [Look(now, differ)];
      if differ {
        if disagreeSince.None? {
          disagreeSince := Some(now);
        }
        if !disagreeFired && now - disagreeSince.value > PROVISIONAL_GRACE {
          disagreeFired := true;
          evs := [StillDisagree];
        }
      } else {
        disagreeSince := None;
        disagreeFired := false;
      }
    }

    /**
     Walks the records in any order, comparing each with the first: whatever the order, it tells whether any two
     differ.
     */
    method FindDifference(recs: map<nat, Record>) returns (differ: bool)
      requires recs.Keys != {}
      ensures differ <==> Disagree(recs)
      ensures differ <==> exists a, b :: a in recs && b in recs
                                         && (recs[a].number != recs[b].number || recs[a].hash != recs[b].hash)
    {
      var first :| first in recs.Keys;
      var rest := recs.Keys - {first};
      while rest != {}
        invariant rest <= recs.Keys && first !in rest
        invariant forall o :: o in recs && o !in rest ==> Same(recs[o], recs[first])
        decreases rest
      {
        var node :| node in rest;
        rest := rest - {node};
        if !Same(recs[node], recs[first]) {
          return true;
        }
      }
      differ := false;
    }

    method Observe(node: nat, b: Record, now: int) returns (evs: seq<Ev>)
      requires Valid()
      modifies `provisional, `shaped, `disagreeSince, `disagreeFired, `looks
      ensures Valid() && provisional == old(provisional)[node := b]
      ensures shaped == old(shaped) + {(node, b.hash)}
      ensures looks == if |provisional| < 2 then old(looks) else old(looks) + [Look(now, Disagree(provisional))]
      ensures evs == (if (node, b.hash) !in old(shaped) && !ShapeOk(b, t) then [Misshapen(node, b.number)] else [])
                     + (if |provisional| >= 2 && Overdue(looks, |looks| - 1) then [StillDisagree] else [])
    {
      hide Timed, Overdue, DifferPairs, Disagree;
      provisional := provisional[node := b];
      evs := CheckShape(node, b);
      var more := CheckProvisional(now);
      evs := evs + more;
    }
  }
}
