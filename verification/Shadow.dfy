/**
 The shadow-root table of cmd/migration-monitor/shadow.go:12-114: which node is asked about which
 block, when, and that an answer is final. Nodes count from 0; root 0 stands for an unreported one.
 */
module Shadow {
  import opened Options
  import opened Sorting

  const BACKOFF_CAP := 5

  datatype Cell = Cell(root: nat, lastAsked: Option<int>, asks: nat)

  datatype Block = Block(slot: nat, cells: seq<Cell>)

  datatype Answer = Root(root: nat) | Error(message: nat)

  function Pow2(n: nat): (p: nat)
    ensures p > 0
  {
    if n == 0 then 1 else 2 * Pow2(n - 1)
  }

  /** How long after its n-th ask a pair may be asked again: doubling, up to a cap. */
  function Backoff(retryEvery: nat, n: nat): nat
    requires n > 0
  {
    retryEvery * Pow2(if n - 1 < BACKOFF_CAP then n - 1 else BACKOFF_CAP)
  }

  /** An ask is counted exactly when its time is kept. */
  predicate Counted(c: Cell) {
    c.lastAsked.Some? <==> c.asks > 0
  }

  /** The pair may be asked: not answered, and not asked too recently. */
  predicate Ready(c: Cell, now: int, retryEvery: nat)
    requires Counted(c)
  {
    c.root == 0 && (c.lastAsked.Some? ==> now - c.lastAsked.value >= Backoff(retryEvery, c.asks))
  }

  /** The asks of one pair, in order, each far enough from the one before. */
  ghost predicate Spaced(times: seq<int>, retryEvery: nat) {
    forall k :: 1 <= k < |times| ==> times[k] - times[k - 1] >= Backoff(retryEvery, k)
  }

  ghost predicate CellOk(c: Cell, times: seq<int>, retryEvery: nat) {
    && c.asks == |times| && c.lastAsked == (if times == [] then None else Some(times[|times| - 1]))
    && Spaced(times, retryEvery)
  }

  type Blocks = map<nat, Block>
  type Times = map<(nat, nat), seq<int>>

  ghost function At(times: Times, h: nat, i: nat): seq<int> {
    if (h, i) in times then times[(h, i)] else []
  }

  predicate Shaped(blocks: Blocks, nodes: nat) {
    forall h :: h in blocks ==> |blocks[h].cells| == nodes && forall i :: 0 <= i < nodes ==> Counted(blocks[h].cells[i])
  }

  /** Every tracked cell sums up the asks of its pair since the block was tracked. */
  ghost predicate Kept(blocks: Blocks, nodes: nat, times: Times, retryEvery: nat) {
    && Shaped(blocks, nodes)
    && forall h, i: nat :: h in blocks && i < nodes ==> CellOk(blocks[h].cells[i], At(times, h, i), retryEvery)
  }

  // ---- The order of asking ----

  /** Newest slot first, then by hash. */
  predicate Before(blocks: Blocks, a: nat, b: nat)
    requires a in blocks && b in blocks
  {
    blocks[a].slot > blocks[b].slot || (blocks[a].slot == blocks[b].slot && a < b)
  }

  predicate NewestFirst(blocks: Blocks, p: seq<nat>) {
    (forall h :: h in p ==> h in blocks) && forall i, j :: 0 <= i < j < |p| ==> Before(blocks, p[i], p[j])
  }

  function SlotOf(blocks: Blocks, h: nat): nat {
    if h in blocks then blocks[h].slot else 0
  }

  /** The order of Before, with ties. */
  function Newer(blocks: Blocks): (nat, nat) -> bool {
    (a: nat, b: nat) => SlotOf(blocks, a) > SlotOf(blocks, b) || (SlotOf(blocks, a) == SlotOf(blocks, b) && a <= b)
  }

  /** The blocks to ask about, newest first; collected in any order. */
  method Pending(blocks: Blocks) returns (p: seq<nat>)
    ensures NewestFirst(blocks, p) && forall h :: h in p <==> h in blocks
  {
    p := [];
    var rest := blocks.Keys;
    while rest != {}
      invariant rest <= blocks.Keys && forall i, j :: 0 <= i < j < |p| ==> p[i] != p[j]
      invariant forall h :: h in p <==> h in blocks && h !in rest
      decreases rest
    {
      var h :| h in rest;
      p := p + [h];
      rest := rest - {h};
    }
    NewestSorted(blocks, p);
    p := Sort(Newer(blocks), p);
  }

  lemma NewestSorted(blocks: Blocks, p: seq<nat>)
    requires (forall h :: h in p ==> h in blocks) && forall i, j :: 0 <= i < j < |p| ==> p[i] != p[j]
    ensures NewestFirst(blocks, Sort(Newer(blocks), p)) && forall h :: h in Sort(Newer(blocks), p) <==> h in p
  {
    hide Sort;
    var r := Sort(Newer(blocks), p);
    NewerIsAnOrder(blocks);
    Sorts(Newer(blocks), p);
    SameMembers(r, p);
    forall i, j | 0 <= i < j < |r|
      ensures Before(blocks, r[i], r[j])
    {
      assert r[i] in r && r[j] in r;
      if r[i] == r[j] {
        OnceOnly(p, r[i]);
        Repeated(r, i, j);
      }
      NewerIsBefore(blocks, r[i], r[j]);
    }
  }

  lemma NewerIsAnOrder(blocks: Blocks)
    ensures IsOrder(Newer(blocks))
  {
  }

  lemma NewerIsBefore(blocks: Blocks, a: nat, b: nat)
    requires a in blocks && b in blocks && a != b && Newer(blocks)(a, b)
    ensures Before(blocks, a, b)
  {
  }

  lemma {:induction false} OnceOnly(p: seq<nat>, h: nat)
    requires forall i, j :: 0 <= i < j < |p| ==> p[i] != p[j]
    ensures multiset(p)[h] <= 1
  {
    if p != [] {
      var rest, last := p[..|p| - 1], p[|p| - 1];
      OnceOnly(rest, h);
      assert p == rest + [last];
      assert h in rest <==> h in multiset(rest);
      assert last !in rest;
    }
  }

  lemma Repeated(r: seq<nat>, i: nat, j: nat)
    requires i < j < |r| && r[i] == r[j]
    ensures multiset(r)[r[i]] >= 2
  {
    assert r == r[..i] + [r[i]] + r[i + 1..j] + [r[j]] + r[j + 1..];
  }

  /** The blocks of p one node is asked about: the first ready ones, up to the budget. */
  function Due(blocks: Blocks, nodes: nat, p: seq<nat>, i: nat, now: int, retryEvery: nat, budget: nat): (r: seq<nat>)
    requires Shaped(blocks, nodes) && i < nodes && forall h :: h in p ==> h in blocks
    ensures |r| <= budget && forall h :: h in r ==> h in p && Ready(blocks[h].cells[i], now, retryEvery)
  {
    if p == [] then []
    else
      var before, h := Due(blocks, nodes, p[..|p| - 1], i, now, retryEvery, budget), p[|p| - 1];
      if |before| < budget && Ready(blocks[h].cells[i], now, retryEvery) then before + [h] else before
  }

  /** All the ready blocks of p, in order. */
  function AllReady(blocks: Blocks, nodes: nat, p: seq<nat>, i: nat, now: int, retryEvery: nat): seq<nat>
    requires Shaped(blocks, nodes) && i < nodes && forall h :: h in p ==> h in blocks
  {
    if p == [] then []
    else
      AllReady(blocks, nodes, p[..|p| - 1], i, now, retryEvery)
      + if Ready(blocks[p[|p| - 1]].cells[i], now, retryEvery) then [p[|p| - 1]] else []
  }

  /** Exactly the first of the ready blocks, as many as the budget allows. */
  lemma {:induction false} DueIsTheFirstReady(blocks: Blocks, nodes: nat, p: seq<nat>, i: nat, now: int,
                                              retryEvery: nat, budget: nat)
    requires Shaped(blocks, nodes) && i < nodes && forall h :: h in p ==> h in blocks
    ensures
      var all := AllReady(blocks, nodes, p, i, now, retryEvery);
      Due(blocks, nodes, p, i, now, retryEvery, budget) == if |all| <= budget then all else all[..budget]
  {
    if p != [] {
      DueIsTheFirstReady(blocks, nodes, p[..|p| - 1], i, now, retryEvery, budget);
    }
  }

  // ---- Who is asked about what ----

  /** Long enough since the last of a pair's asks, by how many there were. */
  ghost predicate Waited(times: seq<int>, now: int, retryEvery: nat) {
    times == [] ||
    var gap := now - times[|times| - 1];
    && (|times| == 1 ==> gap >= retryEvery) && (|times| == 2 ==> gap >= 2 * retryEvery)
    && (|times| == 3 ==> gap >= 4 * retryEvery) && (|times| == 4 ==> gap >= 8 * retryEvery)
    && (|times| == 5 ==> gap >= 16 * retryEvery) && (|times| >= 6 ==> gap >= 32 * retryEvery)
  }

  /** A pair is ready exactly when it has no root and has waited. */
  lemma ReadyMeans(c: Cell, times: seq<int>, now: int, retryEvery: nat)
    requires CellOk(c, times, retryEvery) && Counted(c)
    ensures Ready(c, now, retryEvery) <==> c.root == 0 && Waited(times, now, retryEvery)
  {
    if times != [] {
      BackoffMeans(retryEvery, |times|);
      hide Backoff;
    }
  }

  lemma BackoffMeans(retryEvery: nat, n: nat)
    requires n > 0
    ensures n == 1 ==> Backoff(retryEvery, n) == retryEvery
    ensures n == 2 ==> Backoff(retryEvery, n) == 2 * retryEvery
    ensures n == 3 ==> Backoff(retryEvery, n) == 4 * retryEvery
    ensures n == 4 ==> Backoff(retryEvery, n) == 8 * retryEvery
    ensures n == 5 ==> Backoff(retryEvery, n) == 16 * retryEvery
    ensures n >= 6 ==> Backoff(retryEvery, n) == 32 * retryEvery
  {
    assert Pow2(0) == 1 && Pow2(1) == 2 && Pow2(2) == 4 && Pow2(3) == 8 && Pow2(4) == 16 && Pow2(5) == 32;
  }

  /** Spaced asks are those that each waited. */
  lemma SpacedMeans(times: seq<int>, retryEvery: nat)
    ensures Spaced(times, retryEvery) <==> forall k :: 1 <= k < |times| ==> Waited(times[..k], times[k], retryEvery)
  {
    forall k | 1 <= k < |times|
      ensures times[k] - times[k - 1] >= Backoff(retryEvery, k) <==> Waited(times[..k], times[k], retryEvery)
    {
      BackoffMeans(retryEvery, k);
      hide Backoff;
    }
    hide Waited, Backoff;
  }

  /** A block still kept, of which this node has reported no root and was not asked too recently. */
  ghost predicate Askable(blocks: Blocks, times: Times, retainSlots: nat, nowSlot: nat, now: int, retryEvery: nat,
                          h: nat, i: nat)
  {
    && h in blocks && blocks[h].slot + retainSlots >= nowSlot
    && i < |blocks[h].cells| && blocks[h].cells[i].root == 0 && Waited(At(times, h, i), now, retryEvery)
  }

  /** Block a comes before b: its slot is later, or the same and its hash smaller. */
  ghost predicate Sooner(blocks: Blocks, a: nat, b: nat) {
    && a in blocks && b in blocks
    && (blocks[a].slot > blocks[b].slot || (blocks[a].slot == blocks[b].slot && a < b))
  }

  /**
   What one node was asked about: only what may be asked, soonest first, within the budget; and what may
   be asked is left out only when the budget is spent on sooner blocks.
   */
  ghost predicate AskedRight(blocks: Blocks, times: Times, retainSlots: nat, nowSlot: nat, now: int, retryEvery: nat,
                             budget: nat, i: nat, asked: seq<nat>)
  {
    && |asked| <= budget
    && (forall h :: h in asked ==> Askable(blocks, times, retainSlots, nowSlot, now, retryEvery, h, i))
    && (forall j, k :: 0 <= j < k < |asked| ==> Sooner(blocks, asked[j], asked[k]))
    && forall h :: Askable(blocks, times, retainSlots, nowSlot, now, retryEvery, h, i) && h !in asked ==>
         |asked| == budget && forall g :: g in asked ==> Sooner(blocks, g, h)
  }

  lemma {:induction false} DueMeans(b: Blocks, nodes: nat, p: seq<nat>, i: nat, now: int, retryEvery: nat, budget: nat)
    requires Shaped(b, nodes) && i < nodes && NewestFirst(b, p) && forall h :: h in p ==> h in b
    ensures
      var due := Due(b, nodes, p, i, now, retryEvery, budget);
      && NewestFirst(b, due)
      && forall h :: h in p && Ready(b[h].cells[i], now, retryEvery) && h !in due ==>
           |due| == budget && forall g :: g in due ==> Before(b, g, h)
  {
    if p != [] {
      hide Ready;
      var rest, h := p[..|p| - 1], p[|p| - 1];
      assert p == rest + [h] && NewestFirst(b, rest);
      DueMeans(b, nodes, rest, i, now, retryEvery, budget);
      var before := Due(b, nodes, rest, i, now, retryEvery, budget);
      forall g | g in before
        ensures Before(b, g, h)
      {
        var j :| 0 <= j < |rest| && rest[j] == g;
        assert p[j] == g;
      }
    }
  }

  lemma DueIsAskedRight(blocks: Blocks, nodes: nat, times: Times, retainSlots: nat, nowSlot: nat, p: seq<nat>, i: nat,
                        now: int, retryEvery: nat, budget: nat)
    requires Kept(blocks, nodes, times, retryEvery) && i < nodes
    requires Shaped(Retained(blocks, retainSlots, nowSlot), nodes)
    requires NewestFirst(Retained(blocks, retainSlots, nowSlot), p)
    requires forall h :: h in p <==> h in Retained(blocks, retainSlots, nowSlot)
    ensures AskedRight(blocks, times, retainSlots, nowSlot, now, retryEvery, budget, i,
                       Due(Retained(blocks, retainSlots, nowSlot), nodes, p, i, now, retryEvery, budget))
  {
    var b := Retained(blocks, retainSlots, nowSlot);
    var due := Due(b, nodes, p, i, now, retryEvery, budget);
    DueMeans(b, nodes, p, i, now, retryEvery, budget);
    forall h
      ensures Askable(blocks, times, retainSlots, nowSlot, now, retryEvery, h, i)
              <==> h in b && Ready(b[h].cells[i], now, retryEvery)
    {
      AskableIs(blocks, nodes, times, retainSlots, nowSlot, h, i, now, retryEvery);
    }
    forall g, h | g in b && h in b
      ensures Before(b, g, h) <==> Sooner(blocks, g, h)
    {
    }
    hide Retained, Askable, Ready, Due, Kept, Shaped, Before, Sooner;
  }

  lemma AskableIs(blocks: Blocks, nodes: nat, times: Times, retainSlots: nat, nowSlot: nat, h: nat, i: nat, now: int,
                  retryEvery: nat)
    requires Kept(blocks, nodes, times, retryEvery) && i < nodes
    requires Shaped(Retained(blocks, retainSlots, nowSlot), nodes)
    ensures Askable(blocks, times, retainSlots, nowSlot, now, retryEvery, h, i)
            <==> h in Retained(blocks, retainSlots, nowSlot)
                 && Ready(Retained(blocks, retainSlots, nowSlot)[h].cells[i], now, retryEvery)
  {
    hide Waited, Ready, CellOk, At;
    if h in blocks {
      ReadyMeans(blocks[h].cells[i], At(times, h, i), now, retryEvery);
    }
  }

  // ---- What asking does ----

  ghost predicate AskedCell(c: Cell, d: Cell, now: int) {
    d.lastAsked == Some(now) && d.asks == c.asks + 1
  }

  /** The cell holds what the node answered, and an error has been reported. */
  ghost predicate Taken(blocks: Blocks, warned: set<(nat, nat)>, h: nat, i: nat, answer: Answer) {
    && h in blocks && i < |blocks[h].cells|
    && blocks[h].cells[i].root == (if answer.Root? then answer.root else 0)
    && (answer.Error? ==> (i, answer.message) in warned)
  }

  /** The answers of one node's asks, in order. */
  ghost predicate AllTaken(blocks: Blocks, warned: set<(nat, nat)>, asked: seq<nat>, i: nat, answers: seq<Answer>) {
    |answers| == |asked| && forall k :: 0 <= k < |asked| ==> Taken(blocks, warned, asked[k], i, answers[k])
  }

  /** Asking other pairs leaves an answer where it is. */
  lemma TakenStays(b: Blocks, c: Blocks, nodes: nat, pairs: set<(nat, nat)>, now: int, warned: set<(nat, nat)>,
                   warned': set<(nat, nat)>, asked: seq<nat>, i: nat, answers: seq<Answer>)
    requires Shaped(b, nodes) && Asked(b, c, nodes, pairs, now) && i < nodes && warned <= warned'
    requires AllTaken(b, warned, asked, i, answers) && forall h :: h in asked ==> (h, i) !in pairs
    ensures AllTaken(c, warned', asked, i, answers)
  {
    forall k | 0 <= k < |asked|
      ensures Taken(c, warned', asked[k], i, answers[k])
    {
      assert Taken(b, warned, asked[k], i, answers[k]) && asked[k] in asked;
    }
  }

  /** From b to c exactly these pairs were asked, and nothing else changed. */
  ghost predicate Asked(b: Blocks, c: Blocks, nodes: nat, pairs: set<(nat, nat)>, now: int)
    requires Shaped(b, nodes)
  {
    && Shaped(c, nodes) && c.Keys == b.Keys
    && (forall h :: h in b ==> c[h].slot == b[h].slot)
    && (forall h, i: nat :: h in b && i < nodes ==>
          if (h, i) in pairs then AskedCell(b[h].cells[i], c[h].cells[i], now) else c[h].cells[i] == b[h].cells[i])
  }

  ghost predicate AskedAt(t: Times, u: Times, pairs: set<(nat, nat)>, now: int) {
    forall h: nat, i: nat :: At(u, h, i) == if (h, i) in pairs then At(t, h, i) + [now] else At(t, h, i)
  }

  lemma AskedNothing(b: Blocks, nodes: nat, t: Times, now: int)
    requires Shaped(b, nodes)
    ensures Asked(b, b, nodes, {}, now) && AskedAt(t, t, {}, now)
  {
  }

  lemma AskedThen(b: Blocks, c: Blocks, d: Blocks, nodes: nat, t: Times, u: Times, v: Times, p: set<(nat, nat)>,
                  q: set<(nat, nat)>, now: int)
    requires Shaped(b, nodes) && Asked(b, c, nodes, p, now) && Asked(c, d, nodes, q, now) && p !! q
    requires AskedAt(t, u, p, now) && AskedAt(u, v, q, now)
    ensures Asked(b, d, nodes, p + q, now) && AskedAt(t, v, p + q, now)
  {
    forall h, i: nat | h in b && i < nodes
      ensures if (h, i) in p + q then AskedCell(b[h].cells[i], d[h].cells[i], now) else d[h].cells[i] == b[h].cells[i]
    {
      assert !((h, i) in p && (h, i) in q);
    }
    forall h: nat, i: nat
      ensures At(v, h, i) == if (h, i) in p + q then At(t, h, i) + [now] else At(t, h, i)
    {
      assert !((h, i) in p && (h, i) in q);
    }
  }

  /** Asking only ready pairs keeps every pair's asks spaced. */
  lemma AskedKeeps(b: Blocks, c: Blocks, nodes: nat, t: Times, u: Times, pairs: set<(nat, nat)>, now: int,
                   retryEvery: nat)
    requires Kept(b, nodes, t, retryEvery) && Asked(b, c, nodes, pairs, now) && AskedAt(t, u, pairs, now)
    requires forall h, i: nat :: (h, i) in pairs && h in b && i < nodes ==> Ready(b[h].cells[i], now, retryEvery)
    ensures Kept(c, nodes, u, retryEvery)
  {
    hide Backoff, CellOk, AskedCell, Ready, At;
    forall h, i: nat | h in c && i < nodes
      ensures CellOk(c[h].cells[i], At(u, h, i), retryEvery)
    {
      assert CellOk(b[h].cells[i], At(t, h, i), retryEvery);
      if (h, i) in pairs {
        CellAsked(b[h].cells[i], c[h].cells[i], At(t, h, i), now, retryEvery);
      }
    }
  }

  lemma CellAsked(c: Cell, d: Cell, times: seq<int>, now: int, retryEvery: nat)
    requires Counted(c) && CellOk(c, times, retryEvery) && Ready(c, now, retryEvery) && AskedCell(c, d, now)
    ensures CellOk(d, times + [now], retryEvery)
  {
    hide Backoff;
  }

  /** A table keeps the blocks not past retention. */
  function Retained(blocks: Blocks, retainSlots: nat, nowSlot: nat): Blocks {
    map h | h in blocks && blocks[h].slot + retainSlots >= nowSlot :: blocks[h]
  }

  lemma RetainedAre(blocks: Blocks, retainSlots: nat, nowSlot: nat)
    ensures forall h ::
              h in Retained(blocks, retainSlots, nowSlot) <==> h in blocks && blocks[h].slot + retainSlots >= nowSlot
  {
  }

  lemma RetainedKept(blocks: Blocks, nodes: nat, times: Times, retryEvery: nat, retainSlots: nat, nowSlot: nat)
    requires Kept(blocks, nodes, times, retryEvery)
    ensures Kept(Retained(blocks, retainSlots, nowSlot), nodes, times, retryEvery)
  {
    hide CellOk;
  }

  function Pairs(hs: seq<nat>, i: nat): set<(nat, nat)> {
    set h | h in hs :: (h, i)
  }

  lemma PairsSnoc(hs: seq<nat>, h: nat, i: nat)
    ensures Pairs(hs + [h], i) == Pairs(hs, i) + {(h, i)}
  {
  }

  /** The pairs asked of the first nodes. */
  ghost function AllPairs(asks: seq<seq<nat>>): set<(nat, nat)> {
    if asks == [] then {} else AllPairs(asks[..|asks| - 1]) + Pairs(asks[|asks| - 1], |asks| - 1)
  }

  lemma {:induction false} InAllPairs(asks: seq<seq<nat>>, h: nat, i: nat)
    ensures (h, i) in AllPairs(asks) <==> i < |asks| && h in asks[i]
  {
    if asks != [] {
      InAllPairs(asks[..|asks| - 1], h, i);
    }
  }

  type Said = (nat, Answer)

  /** What each node answered, in order. */
  ghost function SaidBy(i: nat, answers: seq<Answer>): seq<Said> {
    seq(|answers|, (k: nat) requires k < |answers| => (i, answers[k]))
  }

  ghost function AllSaid(answers: seq<seq<Answer>>): seq<Said> {
    if answers == [] then []
    else AllSaid(answers[..|answers| - 1]) + SaidBy(|answers| - 1, answers[|answers| - 1])
  }

  /** The errors to report: each the first time its node gives it. */
  function NewErrors(warned: set<(nat, nat)>, said: seq<Said>): seq<(nat, nat)> {
    if said == [] then []
    else
      var before := NewErrors(warned, said[..|said| - 1]);
      match said[|said| - 1]
      case (_, Root(_)) => before
      case (i, Error(m)) => if (i, m) in warned || (i, m) in before then before else before + [(i, m)]
  }

  /** After these answers these errors have been reported. */
  ghost predicate Reported(before: set<(nat, nat)>, after: set<(nat, nat)>, said: seq<Said>, warns: seq<(nat, nat)>) {
    warns == NewErrors(before, said) && after == before + set w | w in warns
  }

  lemma {:induction false} ReportedThen(
    a: set<(nat, nat)>, b: set<(nat, nat)>, c: set<(nat, nat)>, v: seq<(nat, nat)>, w: seq<(nat, nat)>, s: seq<Said>,
    t: seq<Said>)
    requires Reported(a, b, s, v) && Reported(b, c, t, w)
    ensures Reported(a, c, s + t, v + w)
    decreases |t|
  {
    assert forall x :: x in v + w <==> x in v || x in w;
    if t == [] {
      assert s + t == s;
    } else {
      var before := NewErrors(b, t[..|t| - 1]);
      ReportedThen(a, b, b + (set x | x in before), v, before, s, t[..|t| - 1]);
      assert (s + t)[..|s + t| - 1] == s + t[..|t| - 1];
      assert forall x :: x in v + before <==> x in v || x in before;
    }
  }

  /** An error is reported exactly when it is new, and once per node and message. */
  lemma {:induction false} ErrorsAreReportedOnce(warned: set<(nat, nat)>, said: seq<Said>)
    ensures forall w: (nat, nat) :: w in NewErrors(warned, said) <==> w !in warned && (w.0, Error(w.1)) in said
    ensures NoRepeats(NewErrors(warned, said))
  {
    if said != [] {
      var init, last := said[..|said| - 1], said[|said| - 1];
      ErrorsAreReportedOnce(warned, init);
      assert said == init + [last];
      assert forall x: Said :: x in said <==> x in init || x == last;
      var before, warns := NewErrors(warned, init), NewErrors(warned, said);
      assert warns == before
             || (last.1.Error? && warns == before + [(last.0, last.1.message)] && (last.0, last.1.message) !in before);
      assert last.1.Error? ==> (last.0, last.1.message) in warned || (last.0, last.1.message) in warns;
      forall w: (nat, nat)
        ensures w in warns <==> w !in warned && (w.0, Error(w.1)) in said
      {
        if w in warns && w !in before {
          assert w == (last.0, last.1.message);
        }
      }
    }
  }

  lemma OneAnswer(warned: set<(nat, nat)>, i: nat, answer: Answer)
    ensures NewErrors(warned, [(i, answer)]) ==
            if answer.Error? && (i, answer.message) !in warned then [(i, answer.message)] else []
  {
    assert [(i, answer)][..0] == [];
  }

  lemma OneAsked(b: Blocks, nodes: nat, t: Times, h: nat, i: nat, d: Cell, now: int)
    requires Shaped(b, nodes) && h in b && i < nodes && AskedCell(b[h].cells[i], d, now)
    ensures Asked(b, b[h := b[h].(cells := b[h].cells[i := d])], nodes, {(h, i)}, now)
    ensures AskedAt(t, t[(h, i) := At(t, h, i) + [now]], {(h, i)}, now)
  {
  }

  class ShadowTable {
    const nodes: nat
    const retryEvery: nat
    const retainSlots: nat
    var blocks: Blocks
    var warned: set<(nat, nat)>
    /** When each pair was asked since its block was tracked. */
    ghost var times: Times

    ghost predicate Valid()
      reads this
    {
      Kept(blocks, nodes, times, retryEvery)
    }

    constructor (nodes: nat, retryEvery: nat, retainSlots: nat)
      ensures Valid() && this.nodes == nodes && this.retryEvery == retryEvery && this.retainSlots == retainSlots
      ensures blocks == map[] && warned == {} && times == map[]
    {
      this.nodes, this.retryEvery, this.retainSlots := nodes, retryEvery, retainSlots;
      blocks, warned, times := map[], {}, map[];
    }

    /** Re-tracking keeps a block's answers. */
    method Track(hash: nat, slot: nat)
      requires Valid()
      modifies `blocks, `times
      ensures Valid()
      ensures hash in old(blocks) ==> blocks == old(blocks) && times == old(times)
      ensures hash !in old(blocks) ==>
                && blocks == old(blocks)[hash := Block(slot, seq(nodes, i => Cell(0, None, 0)))]
                && forall h: nat, i: nat :: At(times, h, i) == if h == hash then [] else At(old(times), h, i)
    {
      if hash !in blocks {
        blocks := blocks[hash := Block(slot, seq(nodes, i => Cell(0, None, 0)))];
        times := map k | k in times && k.0 != hash :: times[k];
        hide Backoff;
      }
    }

    /** One ask of a ready pair: an error leaves the root unreported. */
    method Ask(h: nat, i: nat, now: int) returns (answer: Answer, warns: seq<(nat, nat)>)
      requires Valid() && h in blocks && i < nodes && Ready(blocks[h].cells[i], now, retryEvery)
      modifies `blocks, `warned, `times
      ensures Valid()
      ensures Asked(old(blocks), blocks, nodes, {(h, i)}, now) && AskedAt(old(times), times, {(h, i)}, now)
      ensures Reported(old(warned), warned, [(i, answer)], warns) && Taken(blocks, warned, h, i, answer)
    {
      hide Backoff, Kept, CellOk, Asked, AskedAt, At, NewErrors;
      KeptIsShaped(blocks, nodes, times, retryEvery);
      warns := [];
      var c := blocks[h].cells[i];
      answer := *;
      OneAnswer(warned, i, answer);
      c := c.(lastAsked := Some(now), asks := c.asks + 1);
      match answer {
        case Root(root) =>
          c := c.(root := root);
        case Error(message) =>
          if (i, message) !in warned {
            warned := warned + {(i, message)};
            warns := [(i, message)];
          }
      }
      ghost var was, then' := blocks, times;
      OneAsked(blocks, nodes, times, h, i, c, now);
      blocks := blocks[h := blocks[h].(cells := blocks[h].cells[i := c])];
      times := times[(h, i) := At(times, h, i) + [now]];
      AskedKeeps(was, blocks, nodes, then', times, {(h, i)}, now, retryEvery);
    }

    /** Asks one node about at most budget unanswered blocks, in the order of p. */
    method AskNode(p: seq<nat>, i: nat, now: int, budget: nat)
      returns (asked: seq<nat>, answers: seq<Answer>, warns: seq<(nat, nat)>)
      requires Valid() && i < nodes && NoRepeats(p) && forall h :: h in p ==> h in blocks
      requires Shaped(blocks, nodes)
      modifies `blocks, `warned, `times
      ensures Valid()
      ensures asked == Due(old(blocks), nodes, p, i, now, retryEvery, budget)
      ensures Asked(old(blocks), blocks, nodes, Pairs(asked, i), now)
              && AskedAt(old(times), times, Pairs(asked, i), now)
      ensures Reported(old(warned), warned, SaidBy(i, answers), warns) && AllTaken(blocks, warned, asked, i, answers)
    {
      hide Backoff, Kept, CellOk, Ready, Asked, AskedAt, At, Reported, Shaped, Due, Pairs, NoRepeats, Taken, AllTaken,
           SaidBy, NewErrors;
      asked, answers, warns := [], [], [];
      NoneTaken(blocks, warned, i);
      AskedNothing(blocks, nodes, times, now);
      DueNone(blocks, nodes, i, now, retryEvery, budget);
      NothingSaid(warned, i);
      var k := 0;
      while k < |p| && |asked| < budget
        invariant k <= |p| && Valid() && (forall h :: h in p[..k] ==> h in old(blocks))
        invariant asked == Due(old(blocks), nodes, p[..k], i, now, retryEvery, budget)
        invariant Asked(old(blocks), blocks, nodes, Pairs(asked, i), now)
                  && AskedAt(old(times), times, Pairs(asked, i), now)
        invariant Reported(old(warned), warned, SaidBy(i, answers), warns)
                  && AllTaken(blocks, warned, asked, i, answers)
      {
        var h := p[k];
        DueNext(old(blocks), nodes, p, k, i, now, retryEvery, budget);
        Untouched(old(blocks), blocks, nodes, p, k, asked, i, now);
        KeptIsShaped(blocks, nodes, times, retryEvery);
        CellHere(blocks, nodes, h, i);
        if Ready(blocks[h].cells[i], now, retryEvery) {
          ghost var b, t, w := blocks, times, warned;
          var answer, more := Ask(h, i, now);
          WarnedGrows(w, warned, [(i, answer)], more);
          TakenStays(b, blocks, nodes, {(h, i)}, now, w, warned, asked, i, answers);
          OneMoreTaken(blocks, warned, asked, i, answers, h, answer);
          AskedThen(old(blocks), b, blocks, nodes, old(times), t, times, Pairs(asked, i), {(h, i)}, now);
          SaidMore(i, answers, answer);
          ReportedThen(old(warned), w, warned, warns, more, SaidBy(i, answers), [(i, answer)]);
          PairsSnoc(asked, h, i);
          asked := asked + [h];
          answers := answers + [answer];
          warns := warns + more;
        }
        k := k + 1;
      }
      DueRest(old(blocks), nodes, p, k, i, now, retryEvery, budget);
    }

    /**
     Drops the blocks past retention, then asks each node that is able about its due blocks, newest
     first: asks[i] are the blocks node i was asked about, in that order.
     */
    method Step(now: int, nowSlot: nat, budget: nat, able: set<nat>)
      returns (pending: seq<nat>, asks: seq<seq<nat>>, answers: seq<seq<Answer>>, warns: seq<(nat, nat)>)
      requires Valid()
      modifies `blocks, `warned, `times
      ensures Valid() && |asks| == nodes
      ensures Shaped(Retained(old(blocks), retainSlots, nowSlot), nodes)
      ensures NewestFirst(Retained(old(blocks), retainSlots, nowSlot), pending)
      ensures forall h :: h in pending <==> h in Retained(old(blocks), retainSlots, nowSlot)
      ensures forall i :: 0 <= i < nodes ==>
                asks[i] ==
                if i in able
                then Due(Retained(old(blocks), retainSlots, nowSlot), nodes, pending, i, now, retryEvery, budget)
                else []
      ensures forall i :: 0 <= i < nodes ==>
                if i in able
                then AskedRight(old(blocks), old(times), retainSlots, nowSlot, now, retryEvery, budget, i, asks[i])
                else asks[i] == []
      ensures forall h :: h in blocks <==> h in old(blocks) && old(blocks)[h].slot + retainSlots >= nowSlot
      ensures Asked(Retained(old(blocks), retainSlots, nowSlot), blocks, nodes, AllPairs(asks), now)
      ensures AskedAt(old(times), times, AllPairs(asks), now)
      ensures |answers| == nodes && forall i: nat :: i < nodes ==> AllTaken(blocks, warned, asks[i], i, answers[i])
      ensures Reported(old(warned), warned, AllSaid(answers), warns)
    {
      hide Backoff, Kept, CellOk, Ready, Asked, AskedAt, At, Reported, Shaped, Due, Pairs, NoRepeats, NewestFirst,
           Retained, AllPairs, AllTaken, SaidBy, AllSaid, NewErrors, AskedRight;
      RetainedKept(blocks, nodes, times, retryEvery, retainSlots, nowSlot);
      blocks := Retained(blocks, retainSlots, nowSlot);
      ghost var start := blocks;
      KeptIsShaped(blocks, nodes, times, retryEvery);
      pending := Pending(blocks);
      NewestOnce(blocks, pending);
      asks, answers, warns := [], [], [];
      AskedNothing(blocks, nodes, times, now);
      NoPairs();
      NothingSaid(warned, 0);
      for i := 0 to nodes
        invariant Valid() && |asks| == i && Shaped(start, nodes)
        invariant forall j :: 0 <= j < i ==>
                    asks[j] == if j in able then Due(start, nodes, pending, j, now, retryEvery, budget) else []
        invariant Asked(start, blocks, nodes, AllPairs(asks), now) && AskedAt(old(times), times, AllPairs(asks), now)
        invariant Reported(old(warned), warned, AllSaid(answers), warns)
        invariant |answers| == i && forall j: nat :: j < i ==> AllTaken(blocks, warned, asks[j], j, answers[j])
      {
        var asked, taken := [], [];
        AllPairsNext(asks, []);
        if i in able {
          ghost var b, t, w := blocks, times, warned;
          AskedKeys(start, blocks, nodes, AllPairs(asks), now);
          KeptIsShaped(blocks, nodes, times, retryEvery);
          DueSame(start, blocks, nodes, pending, asks, i, now, retryEvery, budget);
          var more;
          asked, taken, more := AskNode(pending, i, now, budget);
          WarnedGrows(w, warned, SaidBy(i, taken), more);
          forall j: nat | j < i
            ensures AllTaken(blocks, warned, asks[j], j, answers[j])
          {
            OtherNode(asks[j], j, asked, i);
            TakenStays(b, blocks, nodes, Pairs(asked, i), now, w, warned, asks[j], j, answers[j]);
          }
          AllPairsNext(asks, asked);
          AskedThen(start, b, blocks, nodes, old(times), t, times, AllPairs(asks), Pairs(asked, i), now);
          ReportedThen(old(warned), w, warned, warns, more, AllSaid(answers), SaidBy(i, taken));
          warns := warns + more;
        } else {
          NoneTaken(blocks, warned, i);
        }
        asks := asks + [asked];
        AllSaidMore(answers, taken);
        answers := answers + [taken];
      }
      AskedKeys(start, blocks, nodes, AllPairs(asks), now);
      RetainedAre(old(blocks), retainSlots, nowSlot);
      forall i | 0 <= i < nodes && i in able
        ensures AskedRight(old(blocks), old(times), retainSlots, nowSlot, now, retryEvery, budget, i, asks[i])
      {
        DueIsAskedRight(old(blocks), nodes, old(times), retainSlots, nowSlot, pending, i, now, retryEvery, budget);
      }
    }
  }

  lemma NoneTaken(blocks: Blocks, warned: set<(nat, nat)>, i: nat)
    ensures AllTaken(blocks, warned, [], i, [])
  {
  }

  lemma OneMoreTaken(blocks: Blocks, warned: set<(nat, nat)>, asked: seq<nat>, i: nat, answers: seq<Answer>, h: nat,
                     answer: Answer)
    requires AllTaken(blocks, warned, asked, i, answers) && Taken(blocks, warned, h, i, answer)
    ensures AllTaken(blocks, warned, asked + [h], i, answers + [answer])
  {
    hide Taken;
  }

  lemma WarnedGrows(before: set<(nat, nat)>, after: set<(nat, nat)>, said: seq<Said>, warns: seq<(nat, nat)>)
    requires Reported(before, after, said, warns)
    ensures before <= after
  {
  }

  lemma OtherNode(hs: seq<nat>, j: nat, asked: seq<nat>, i: nat)
    requires j != i
    ensures forall h :: h in hs ==> (h, j) !in Pairs(asked, i)
  {
  }

  ghost predicate NoRepeats<T>(p: seq<T>) {
    forall j, k :: 0 <= j < k < |p| ==> p[j] != p[k]
  }

  lemma NewestOnce(blocks: Blocks, p: seq<nat>)
    requires NewestFirst(blocks, p)
    ensures NoRepeats(p)
  {
    forall j, k | 0 <= j < k < |p|
      ensures p[j] != p[k]
    {
      assert Before(blocks, p[j], p[k]);
    }
  }

  lemma NothingSaid(warned: set<(nat, nat)>, i: nat)
    ensures SaidBy(i, []) == [] && AllSaid([]) == [] && Reported(warned, warned, [], [])
  {
  }

  lemma SaidMore(i: nat, answers: seq<Answer>, answer: Answer)
    ensures SaidBy(i, answers + [answer]) == SaidBy(i, answers) + [(i, answer)]
  {
  }

  lemma AllSaidMore(answers: seq<seq<Answer>>, taken: seq<Answer>)
    ensures AllSaid(answers + [taken]) == AllSaid(answers) + SaidBy(|answers|, taken)
    ensures taken == [] ==> AllSaid(answers + [taken]) == AllSaid(answers)
  {
    assert (answers + [taken])[..|answers|] == answers;
  }

  lemma NoPairs()
    ensures AllPairs([]) == {} && forall i :: Pairs([], i) == {}
  {
  }

  lemma DueNone(b: Blocks, nodes: nat, i: nat, now: int, retryEvery: nat, budget: nat)
    requires Shaped(b, nodes) && i < nodes
    ensures Due(b, nodes, [], i, now, retryEvery, budget) == [] && Pairs([], i) == {}
  {
  }

  lemma CellHere(b: Blocks, nodes: nat, h: nat, i: nat)
    requires Shaped(b, nodes) && h in b && i < nodes
    ensures i < |b[h].cells| && Counted(b[h].cells[i])
  {
  }

  lemma DueNext(b: Blocks, nodes: nat, p: seq<nat>, k: nat, i: nat, now: int, retryEvery: nat, budget: nat)
    requires Shaped(b, nodes) && i < nodes && k < |p| && forall h :: h in p ==> h in b
    ensures (forall h :: h in p[..k] ==> h in b) && forall h :: h in p[..k + 1] ==> h in b
    ensures i < |b[p[k]].cells| && Counted(b[p[k]].cells[i])
    ensures
      var before := Due(b, nodes, p[..k], i, now, retryEvery, budget);
      Due(b, nodes, p[..k + 1], i, now, retryEvery, budget)
      == if |before| < budget && Ready(b[p[k]].cells[i], now, retryEvery) then before + [p[k]] else before
  {
    assert p[..k + 1][..k] == p[..k];
  }

  /** Once the budget is spent, the rest adds nothing. */
  lemma {:induction false} DueRest(b: Blocks, nodes: nat, p: seq<nat>, k: nat, i: nat, now: int, retryEvery: nat,
                                   budget: nat)
    requires Shaped(b, nodes) && i < nodes && k <= |p| && forall h :: h in p ==> h in b
    requires (forall h :: h in p[..k] ==> h in b)
             && (k == |p| || |Due(b, nodes, p[..k], i, now, retryEvery, budget)| >= budget)
    ensures Due(b, nodes, p, i, now, retryEvery, budget) == Due(b, nodes, p[..k], i, now, retryEvery, budget)
  {
    if k == |p| {
      assert p[..k] == p;
    } else {
      assert p[..|p| - 1][..k] == p[..k];
      DueRest(b, nodes, p[..|p| - 1], k, i, now, retryEvery, budget);
    }
  }

  /** A block not reached yet has not been asked about. */
  lemma Untouched(b: Blocks, c: Blocks, nodes: nat, p: seq<nat>, k: nat, asked: seq<nat>, i: nat, now: int)
    requires Shaped(b, nodes) && i < nodes && k < |p| && NoRepeats(p) && p[k] in b
    requires Asked(b, c, nodes, Pairs(asked, i), now) && forall h :: h in asked ==> h in p[..k]
    ensures p[k] in c && c[p[k]].cells == b[p[k]].cells && p[k] !in asked && Pairs(asked, i) !! {(p[k], i)}
  {
    assert p[k] !in p[..k];
    forall j | 0 <= j < nodes
      ensures c[p[k]].cells[j] == b[p[k]].cells[j]
    {
      assert (p[k], j) !in Pairs(asked, i);
    }
  }

  lemma AskedKeys(b: Blocks, c: Blocks, nodes: nat, pairs: set<(nat, nat)>, now: int)
    requires Shaped(b, nodes) && Asked(b, c, nodes, pairs, now)
    ensures c.Keys == b.Keys
  {
  }

  lemma AllPairsNext(asks: seq<seq<nat>>, asked: seq<nat>)
    ensures AllPairs(asks + [asked]) == AllPairs(asks) + Pairs(asked, |asks|) && AllPairs(asks) !! Pairs(asked, |asks|)
    ensures asked == [] ==> AllPairs(asks + [asked]) == AllPairs(asks)
  {
    assert (asks + [asked])[..|asks|] == asks;
    forall x | x in AllPairs(asks)
      ensures x !in Pairs(asked, |asks|)
    {
      InAllPairs(asks, x.0, x.1);
    }
  }

  /** What is due for a node does not depend on what the others were asked. */
  lemma {:induction false} DueSame(b: Blocks, c: Blocks, nodes: nat, p: seq<nat>, asks: seq<seq<nat>>, i: nat, now: int,
                                   retryEvery: nat, budget: nat)
    requires Shaped(b, nodes) && Asked(b, c, nodes, AllPairs(asks), now) && |asks| <= i < nodes
    requires forall h :: h in p ==> h in b
    ensures Shaped(c, nodes)
            && Due(c, nodes, p, i, now, retryEvery, budget) == Due(b, nodes, p, i, now, retryEvery, budget)
  {
    if p != [] {
      hide Ready;
      DueSame(b, c, nodes, p[..|p| - 1], asks, i, now, retryEvery, budget);
      InAllPairs(asks, p[|p| - 1], i);
    }
  }

  /** A reported root is final: its pair is not asked again and its cell stays, whatever else the step does. */
  lemma RootsAreFinal(b: Blocks, c: Blocks, nodes: nat, p: seq<nat>, asks: seq<seq<nat>>, now: int, retryEvery: nat,
                      budget: nat, h: nat, i: nat)
    requires Shaped(b, nodes) && |asks| == nodes && Asked(b, c, nodes, AllPairs(asks), now)
    requires forall g :: g in p ==> g in b
    requires forall j :: 0 <= j < nodes ==> asks[j] == [] || asks[j] == Due(b, nodes, p, j, now, retryEvery, budget)
    requires h in b && i < nodes && b[h].cells[i].root != 0
    ensures h !in asks[i] && c[h].cells[i] == b[h].cells[i]
  {
    InAllPairs(asks, h, i);
  }

  lemma KeptIsShaped(blocks: Blocks, nodes: nat, times: Times, retryEvery: nat)
    requires Kept(blocks, nodes, times, retryEvery)
    ensures Shaped(blocks, nodes)
  {
  }
}
