/** The context compiler: a greedy selection from the neighborhood under a hard token budget. */
module Compiler {
  import opened Common
  import opened Domain
  import opened Projections
  import opened Views
  import opened MemoryProjections
  import opened Neighborhoods
  import CompactIo
  import CompactCanon

  /** Token costs, of which nothing is assumed. */
  datatype Costs = Costs(node: MemoryNode -> nat, fact: MemoryFact -> nat)

  type Nodes = map<Id, MemoryNode>

  // ---- Costs of sets -----------------------------------------------------------------

  function Cost<T>(cost: T -> nat, items: map<Id, T>, id: Id): nat {
    if id in items then cost(items[id]) else 0
  }

  /** The cost of a set of items, each counted once. */
  ghost function SetCost<T>(cost: T -> nat, items: map<Id, T>, ids: set<Id>): nat
    decreases |ids|
  {
    if ids == {} then 0
    else
      var x :| x in ids;
      Cost(cost, items, x) + SetCost(cost, items, ids - {x})
  }

  function FactsCost(costs: Costs, facts: seq<MemoryFact>): nat {
    if facts == [] then 0 else FactsCost(costs, facts[..|facts| - 1]) + costs.fact(facts[|facts| - 1])
  }

  lemma {:induction false} SetCostRemove<T>(cost: T -> nat, items: map<Id, T>, ids: set<Id>, x: Id)
    requires x in ids
    ensures SetCost(cost, items, ids) == Cost(cost, items, x) + SetCost(cost, items, ids - {x})
    decreases |ids|
  {
    var y :| y in ids && SetCost(cost, items, ids) == Cost(cost, items, y) + SetCost(cost, items, ids - {y});
    if y != x {
      SetCostRemove(cost, items, ids - {y}, x);
      SetCostRemove(cost, items, ids - {x}, y);
      assert ids - {y} - {x} == ids - {x} - {y};
    }
  }

  lemma SetCostAdd<T>(cost: T -> nat, items: map<Id, T>, ids: set<Id>, x: Id)
    ensures SetCost(cost, items, ids + {x}) == SetCost(cost, items, ids) + if x in ids then 0 else Cost(cost, items, x)
  {
    if x in ids {
      assert ids + {x} == ids;
    } else {
      SetCostRemove(cost, items, ids + {x}, x);
      assert ids + {x} - {x} == ids;
    }
  }

  // ---- The greedy choice ------------------------------------------------------------------

  datatype Pick = Pick(selected: set<Id>, used: nat, facts: seq<MemoryFact>, omitted: nat)

  function EndCost(costs: Costs, nodes: Nodes, selected: set<Id>, id: Id): nat {
    if id in selected then 0 else Cost(costs.node, nodes, id)
  }

  /** What the crate charges for a fact: both endpoints that are not yet selected, a self-loop's twice. */
  function Charge(costs: Costs, nodes: Nodes, selected: set<Id>, f: MemoryFact): nat {
    costs.fact(f) + EndCost(costs, nodes, selected, f.source) + EndCost(costs, nodes, selected, f.target)
  }

  predicate Affordable(costs: Costs, nodes: Nodes, budget: nat, s: Pick, f: MemoryFact) {
    s.used + Charge(costs, nodes, s.selected, f) <= budget
  }

  function Choose(costs: Costs, nodes: Nodes, budget: nat, s: Pick, f: MemoryFact): Pick {
    if !Affordable(costs, nodes, budget, s, f) then s.(omitted := s.omitted + 1)
    else Pick(s.selected + {f.source} + {f.target}, s.used + Charge(costs, nodes, s.selected, f), s.facts + [f], s.omitted)
  }

  function ChooseAll(costs: Costs, nodes: Nodes, budget: nat, s: Pick, candidates: seq<MemoryFact>): Pick {
    if candidates == [] then s
    else
      var n := |candidates| - 1;
      Choose(costs, nodes, budget, ChooseAll(costs, nodes, budget, s, candidates[..n]), candidates[n])
  }

  /** Was candidate `i` taken? */
  predicate Taken(costs: Costs, nodes: Nodes, budget: nat, s: Pick, candidates: seq<MemoryFact>, i: nat)
    requires i < |candidates|
  {
    Affordable(costs, nodes, budget, ChooseAll(costs, nodes, budget, s, candidates[..i]), candidates[i])
  }

  /** The tokens charged twice: the nodes of taken self-loops that brought their own node in. */
  function TwiceCharged(costs: Costs, nodes: Nodes, budget: nat, s: Pick, candidates: seq<MemoryFact>): nat {
    if candidates == [] then 0
    else
      var n := |candidates| - 1;
      var t, f := ChooseAll(costs, nodes, budget, s, candidates[..n]), candidates[n];
      TwiceCharged(costs, nodes, budget, s, candidates[..n])
      + if Affordable(costs, nodes, budget, t, f) && f.source == f.target then EndCost(costs, nodes, t.selected, f.source) else 0
  }

  ghost function TrueCost(costs: Costs, nodes: Nodes, s: Pick): nat {
    SetCost(costs.node, nodes, s.selected) + FactsCost(costs, s.facts)
  }

  lemma ChooseCost(costs: Costs, nodes: Nodes, budget: nat, s: Pick, f: MemoryFact)
    requires Affordable(costs, nodes, budget, s, f)
    ensures TrueCost(costs, nodes, Choose(costs, nodes, budget, s, f)) - TrueCost(costs, nodes, s)
         == Charge(costs, nodes, s.selected, f) - if f.source == f.target then EndCost(costs, nodes, s.selected, f.source) else 0
  {
    hide SetCost, Cost;
    SetCostAdd(costs.node, nodes, s.selected, f.source);
    SetCostAdd(costs.node, nodes, s.selected + {f.source}, f.target);
    assert (s.facts + [f])[..|s.facts|] == s.facts;
  }

  /** The estimate is the true cost plus what was charged twice, and stays within the budget; every
      candidate is either selected or omitted. */
  lemma {:induction false} GreedyAccounts(costs: Costs, nodes: Nodes, budget: nat, s: Pick, candidates: seq<MemoryFact>)
    requires s.facts == [] && s.omitted == 0 && s.used == SetCost(costs.node, nodes, s.selected) <= budget
    ensures var t := ChooseAll(costs, nodes, budget, s, candidates);
            && t.used <= budget
            && t.used == TrueCost(costs, nodes, t) + TwiceCharged(costs, nodes, budget, s, candidates)
            && |t.facts| + t.omitted == |candidates|
    decreases |candidates|
  {
    hide SetCost, Charge, EndCost;
    if candidates != [] {
      var n := |candidates| - 1;
      GreedyAccounts(costs, nodes, budget, s, candidates[..n]);
      var t := ChooseAll(costs, nodes, budget, s, candidates[..n]);
      if Affordable(costs, nodes, budget, t, candidates[n]) {
        ChooseCost(costs, nodes, budget, t, candidates[n]);
      }
    }
  }

  /** What candidate `i` was charged twice, if it was taken. */
  function TwiceAt(costs: Costs, nodes: Nodes, budget: nat, s: Pick, candidates: seq<MemoryFact>, i: nat): nat
    requires i < |candidates|
  {
    if Taken(costs, nodes, budget, s, candidates, i) && candidates[i].source == candidates[i].target
    then EndCost(costs, nodes, ChooseAll(costs, nodes, budget, s, candidates[..i]).selected, candidates[i].source)
    else 0
  }

  /** Nothing is charged twice if, and only if, every taken self-loop found its node selected already or
      free of cost. */
  lemma {:induction false} NothingTwice(costs: Costs, nodes: Nodes, budget: nat, s: Pick, candidates: seq<MemoryFact>)
    ensures TwiceCharged(costs, nodes, budget, s, candidates) == 0
            <==> forall i | 0 <= i < |candidates| :: TwiceAt(costs, nodes, budget, s, candidates, i) == 0
    decreases |candidates|
  {
    hide Affordable, ChooseAll, EndCost;
    if candidates != [] {
      var n := |candidates| - 1;
      var front := candidates[..n];
      NothingTwice(costs, nodes, budget, s, front);
      forall i | 0 <= i < n ensures TwiceAt(costs, nodes, budget, s, candidates, i) == TwiceAt(costs, nodes, budget, s, front, i) {
        assert front[..i] == candidates[..i];
      }
      assert TwiceCharged(costs, nodes, budget, s, candidates)
          == TwiceCharged(costs, nodes, budget, s, front) + TwiceAt(costs, nodes, budget, s, candidates, n);
    }
  }

  /** The selected nodes are the start and the endpoints of the selected facts; the selected facts are
      the taken candidates. */
  lemma {:induction false} GreedySelects(costs: Costs, nodes: Nodes, budget: nat, s: Pick, candidates: seq<MemoryFact>)
    requires s.facts == []
    ensures var t := ChooseAll(costs, nodes, budget, s, candidates);
            && s.selected <= t.selected
            && (forall f | f in t.facts :: f in candidates && f.source in t.selected && f.target in t.selected)
            && (forall x | x in t.selected && x !in s.selected :: exists f :: f in t.facts && At(f, x))
            && (forall i | 0 <= i < |candidates| && Taken(costs, nodes, budget, s, candidates, i) :: candidates[i] in t.facts)
    decreases |candidates|
  {
    hide Affordable, Charge;
    if candidates != [] {
      var n := |candidates| - 1;
      var front, f := candidates[..n], candidates[n];
      GreedySelects(costs, nodes, budget, s, front);
      var b := ChooseAll(costs, nodes, budget, s, front);
      var t := ChooseAll(costs, nodes, budget, s, candidates);
      forall x | x in t.selected && x !in s.selected ensures exists g :: g in t.facts && At(g, x) {
        if x in b.selected {
          var g :| g in b.facts && At(g, x);
          assert g in t.facts;
        } else {
          assert f in t.facts && At(f, x);
        }
      }
      forall i | 0 <= i < |candidates| && Taken(costs, nodes, budget, s, candidates, i) ensures candidates[i] in t.facts {
        if i < n {
          assert front[..i] == candidates[..i];
          assert Taken(costs, nodes, budget, s, front, i);
        }
      }
    }
  }

  // ---- Nothing more would fit --------------------------------------------------------------------

  /** A self-loop whose node is selected in `t` but was not in `s`. */
  predicate PaidBetween(s: Pick, t: Pick, g: MemoryFact) {
    g.source == g.target && g.source in t.selected && g.source !in s.selected
  }

  lemma ChooseKeepsPressure(costs: Costs, nodes: Nodes, budget: nat, s: Pick, f: MemoryFact, g: MemoryFact)
    ensures var t := Choose(costs, nodes, budget, s, f);
            && s.selected <= t.selected
            && (!PaidBetween(s, t, g) ==>
                  t.used + Charge(costs, nodes, t.selected, g) >= s.used + Charge(costs, nodes, s.selected, g))
  {}

  lemma {:induction false} PressureKept(costs: Costs, nodes: Nodes, budget: nat, s: Pick, candidates: seq<MemoryFact>, i: nat, g: MemoryFact)
    requires i <= |candidates|
    ensures var b := ChooseAll(costs, nodes, budget, s, candidates[..i]);
            var t := ChooseAll(costs, nodes, budget, s, candidates);
            && b.selected <= t.selected
            && (!PaidBetween(b, t, g) ==>
                  t.used + Charge(costs, nodes, t.selected, g) >= b.used + Charge(costs, nodes, b.selected, g))
    decreases |candidates|
  {
    hide Choose, Charge;
    if i == |candidates| {
      assert candidates[..i] == candidates;
    } else {
      var n := |candidates| - 1;
      ChooseKeepsPressure(costs, nodes, budget, ChooseAll(costs, nodes, budget, s, candidates[..n]), candidates[n], g);
      PressureKept(costs, nodes, budget, s, candidates[..n], i, g);
      assert candidates[..n][..i] == candidates[..i];
    }
  }

  /** An omitted fact would fit at the end, although later choices may have paid for its endpoints, if and
      only if it is a self-loop whose node was selected after all and whose own cost is still left. */
  lemma OmittedFits(costs: Costs, nodes: Nodes, budget: nat, s: Pick, candidates: seq<MemoryFact>, i: nat)
    requires i < |candidates| && !Taken(costs, nodes, budget, s, candidates, i)
    ensures var t, f := ChooseAll(costs, nodes, budget, s, candidates), candidates[i];
            && (Affordable(costs, nodes, budget, t, f)
                <==> f.source == f.target && f.source in t.selected && t.used + costs.fact(f) <= budget)
            && (Affordable(costs, nodes, budget, t, f)
                ==> PaidBetween(ChooseAll(costs, nodes, budget, s, candidates[..i]), t, f))
  {
    hide ChooseAll, Cost;
    PressureKept(costs, nodes, budget, s, candidates, i, candidates[i]);
  }

  // ---- The order of candidates ----------------------------------------------------------------------

  function MinDistance(dist: Distances, f: MemoryFact): nat {
    var a := if f.source in dist then dist[f.source] else 0;
    var b := if f.target in dist then dist[f.target] else 0;
    if a <= b then a else b
  }

  /** Nearer first, then more confident, then more recent, then by id. */
  predicate KeyLe(dist: Distances, f: MemoryFact, g: MemoryFact) {
    var a, b := MinDistance(dist, f), MinDistance(dist, g);
    if a != b then a < b
    else if f.confidence != g.confidence then f.confidence > g.confidence
    else if f.recordedAt != g.recordedAt then f.recordedAt > g.recordedAt
    else CompactIo.LexLe(f.id, g.id)
  }

  lemma KeyTotal(dist: Distances, f: MemoryFact, g: MemoryFact)
    ensures KeyLe(dist, f, g) || KeyLe(dist, g, f)
    ensures KeyLe(dist, f, g) && KeyLe(dist, g, f) ==> f.id == g.id
  {
    CompactIo.LexTotal(f.id, g.id);
  }

  lemma KeyTransitive(dist: Distances, f: MemoryFact, g: MemoryFact, h: MemoryFact)
    requires KeyLe(dist, f, g) && KeyLe(dist, g, h)
    ensures KeyLe(dist, f, h)
  {
    hide MinDistance;
    if CompactIo.LexLe(f.id, g.id) && CompactIo.LexLe(g.id, h.id) {
      CompactIo.LexTransitive(f.id, g.id, h.id);
    }
  }

  ghost predicate Sorted(dist: Distances, s: seq<MemoryFact>) {
    forall i, j | 0 <= i < j < |s| :: KeyLe(dist, s[i], s[j])
  }

  /** The sequence lists each fact of the map once. */
  ghost predicate Lists(facts: map<Id, MemoryFact>, s: seq<MemoryFact>) {
    && (forall i | 0 <= i < |s| :: s[i].id in facts && facts[s[i].id] == s[i])
    && (forall id | id in facts :: facts[id].id == id && facts[id] in s)
    && DistinctIds(s)
  }

  ghost predicate DistinctIds(s: seq<MemoryFact>) {
    forall i, j | 0 <= i < j < |s| :: s[i].id != s[j].id
  }

  /** What the order of candidates means, in the facts' own numbers: the nearer end of an earlier one is no
      farther; at equal distance it is no less confident; at equal confidence recorded no earlier; and
      otherwise its id comes first. */
  lemma OrderMeaning(q: Query, n: Neighborhood, candidates: seq<MemoryFact>, i: nat, j: nat)
    requires Consistent(q.p) && Candidates(q, n, candidates) && i < j < |candidates|
    ensures var f, g := candidates[i], candidates[j];
            && f.source in n.distances && f.target in n.distances && g.source in n.distances && g.target in n.distances
            && var a := if n.distances[f.source] <= n.distances[f.target] then n.distances[f.source] else n.distances[f.target];
               var b := if n.distances[g.source] <= n.distances[g.target] then n.distances[g.source] else n.distances[g.target];
               && a <= b
               && (a == b ==> f.confidence >= g.confidence)
               && (a == b && f.confidence == g.confidence ==> f.recordedAt >= g.recordedAt)
               && (a == b && f.confidence == g.confidence && f.recordedAt == g.recordedAt ==>
                     CompactIo.ComesBefore(f.id, g.id))
  {
    hide Consistent, InBall, IsDistance, InsideIds, CrossingIds, NodeOf, FactOf;
    CandidatesKnown(q, n, candidates);
    assert candidates[i] in candidates && candidates[j] in candidates;
    CompactIo.LexMeaning(candidates[i].id, candidates[j].id);
  }

  lemma FirstIsLeast(dist: Distances, facts: map<Id, MemoryFact>, s: seq<MemoryFact>, t: seq<MemoryFact>)
    requires Lists(facts, s) && Lists(facts, t) && Sorted(dist, s) && Sorted(dist, t) && s != []
    ensures t != [] && s[0] == t[0]
  {
    hide KeyLe;
    assert facts[s[0].id] in t;
    assert facts[t[0].id] in s;
    var i :| 0 <= i < |t| && t[i] == s[0];
    var j :| 0 <= j < |s| && s[j] == t[0];
    KeyTotal(dist, s[0], t[0]);
  }

  lemma ListsRest(facts: map<Id, MemoryFact>, s: seq<MemoryFact>)
    requires Lists(facts, s) && s != []
    ensures Lists(facts - {s[0].id}, s[1..])
  {
    var rest := facts - {s[0].id};
    forall id | id in rest ensures rest[id] in s[1..] {
      var i :| 0 <= i < |s| && s[i] == facts[id];
      assert s[1..][i - 1] == facts[id];
    }
  }

  /** There is one order only, so the compiler is deterministic. */
  lemma {:induction false} OrderIsUnique(dist: Distances, facts: map<Id, MemoryFact>, s: seq<MemoryFact>, t: seq<MemoryFact>)
    requires Lists(facts, s) && Lists(facts, t) && Sorted(dist, s) && Sorted(dist, t)
    ensures s == t
    decreases |s|
  {
    hide KeyLe, Lists;
    if s == [] {
      if t != [] {
        FirstIsLeast(dist, facts, t, s);
      }
    } else {
      FirstIsLeast(dist, facts, s, t);
      ListsRest(facts, s);
      ListsRest(facts, t);
      OrderIsUnique(dist, facts - {s[0].id}, s[1..], t[1..]);
      assert s == [s[0]] + s[1..] && t == [t[0]] + t[1..];
    }
  }

  // ---- The compiler ------------------------------------------------------------------------------------

  lemma SortedInsert(dist: Distances, s: seq<MemoryFact>, f: MemoryFact, k: nat)
    requires Sorted(dist, s) && k <= |s|
    requires k > 0 ==> KeyLe(dist, s[k - 1], f)
    requires k < |s| ==> KeyLe(dist, f, s[k])
    ensures Sorted(dist, Inserted(s, f, k))
  {
    hide KeyLe;
    var t := Inserted(s, f, k);
    forall i | 0 <= i < k ensures KeyLe(dist, s[i], f) {
      if i < k - 1 {
        KeyTransitive(dist, s[i], s[k - 1], f);
      }
    }
    forall i | k <= i < |s| ensures KeyLe(dist, f, s[i]) {
      if i > k {
        KeyTransitive(dist, f, s[k], s[i]);
      }
    }
    forall i, j | 0 <= i < j < |t| ensures KeyLe(dist, t[i], t[j]) {
    }
  }

  method Place(dist: Distances, s: seq<MemoryFact>, f: MemoryFact) returns (k: nat)
    requires Sorted(dist, s)
    ensures k <= |s| && Sorted(dist, Inserted(s, f, k))
  {
    hide KeyLe;
    k := |s|;
    while k > 0 && !KeyLe(dist, s[k - 1], f)
      invariant k <= |s| && (k < |s| ==> KeyLe(dist, f, s[k]))
    {
      KeyTotal(dist, s[k - 1], f);
      k := k - 1;
    }
    SortedInsert(dist, s, f, k);
  }

  function Inserted<T>(s: seq<T>, x: T, k: nat): (t: seq<T>)
    requires k <= |s|
    ensures |t| == |s| + 1 && forall i | 0 <= i < |t| :: t[i] == if i < k then s[i] else if i == k then x else s[i - 1]
  {
    s[..k] + [x] + s[k..]
  }

  lemma InsertedDistinct(s: seq<MemoryFact>, f: MemoryFact, k: nat)
    requires k <= |s| && forall i | 0 <= i < |s| :: s[i].id != f.id
    requires DistinctIds(s)
    ensures DistinctIds(Inserted(s, f, k))
  {
    var t := Inserted(s, f, k);
    forall i, j | 0 <= i < j < |t| ensures t[i].id != t[j].id {
      assert t[i] == if i < k then s[i] else if i == k then f else s[i - 1];
      assert t[j] == if j < k then s[j] else if j == k then f else s[j - 1];
    }
  }

  lemma InsertedMembers(s: seq<MemoryFact>, f: MemoryFact, k: nat, g: MemoryFact)
    requires k <= |s|
    ensures g in Inserted(s, f, k) <==> g == f || g in s
  {}

  lemma ListsInsert(facts: map<Id, MemoryFact>, s: seq<MemoryFact>, f: MemoryFact, k: nat)
    requires Lists(facts, s) && k <= |s| && f.id !in facts
    ensures Lists(facts[f.id := f], Inserted(s, f, k))
  {
    var t, after := Inserted(s, f, k), facts[f.id := f];
    InsertedDistinct(s, f, k);
    forall id | id in after ensures after[id].id == id && after[id] in t {
      InsertedMembers(s, f, k, after[id]);
    }
    forall i | 0 <= i < |t| ensures t[i].id in after && after[t[i].id] == t[i] {
      assert t[i] == if i < k then s[i] else if i == k then f else s[i - 1];
    }
  }

  /** All facts of the map, in the order of their keys. */
  method SortFacts(dist: Distances, facts: map<Id, MemoryFact>) returns (r: seq<MemoryFact>)
    requires forall id | id in facts :: facts[id].id == id
    ensures Lists(facts, r) && Sorted(dist, r)
  {
    hide KeyLe, Lists, Sorted, Inserted;
    r := [];
    var seen: map<Id, MemoryFact>, todo := map[], facts.Keys;
    NothingListed(dist);
    while todo != {}
      invariant todo <= facts.Keys
      invariant seen == map id | id in facts && id !in todo :: facts[id]
      invariant Lists(seen, r) && Sorted(dist, r)
      decreases |todo|
    {
      var id :| id in todo;
      var k := Place(dist, r, facts[id]);
      ListsInsert(seen, r, facts[id], k);
      r := Inserted(r, facts[id], k);
      seen, todo := seen[id := facts[id]], todo - {id};
    }
    assert seen == facts;
  }

  lemma NothingListed(dist: Distances)
    ensures Lists(map[], []) && Sorted(dist, [])
  {}

  /** The first seed, in order, that is not among the nodes. */
  function FirstAbsent(nodes: Nodes, seeds: seq<Id>): Option<Id>
    decreases |seeds|
  {
    if seeds == [] then None
    else if seeds[0] !in nodes then Some(seeds[0])
    else FirstAbsent(nodes, seeds[1..])
  }

  lemma {:induction false} NoneAbsent(nodes: Nodes, seeds: seq<Id>)
    requires forall x | x in seeds :: x in nodes
    ensures FirstAbsent(nodes, seeds) == None
    decreases |seeds|
  {
    if seeds != [] {
      NoneAbsent(nodes, seeds[1..]);
    }
  }

  /** Of keys in ascending order, the absent one that comes first. */
  lemma {:induction false} FirstAbsentMeaning(nodes: Nodes, keys: seq<Id>, x: Id)
    requires forall i, j | 0 <= i < j < |keys| :: CompactIo.ComesBefore(keys[i], keys[j])
    ensures FirstAbsent(nodes, keys).None? <==> forall y | y in keys :: y in nodes
    ensures FirstAbsent(nodes, keys) == Some(x)
            <==> x in keys && x !in nodes && forall y | y in keys && y !in nodes && y != x :: CompactIo.ComesBefore(x, y)
    decreases |keys|
  {
    hide CompactIo.ComesBefore;
    if keys != [] {
      if keys[0] in nodes {
        FirstAbsentMeaning(nodes, keys[1..], x);
        assert forall y :: y in keys <==> y == keys[0] || y in keys[1..];
      } else {
        CompactIo.NotBoth(keys[0], x);
        forall y | y in keys && y != keys[0] ensures CompactIo.ComesBefore(keys[0], y) {}
      }
    }
  }

  /** The seed `SelectSeeds` reports: of those without a node, the one that comes first. */
  lemma AbsentSeed(nodes: Nodes, rq: Request, x: Id)
    ensures FirstAbsent(nodes, SeedKeys(rq)).None? <==> forall y | y in rq.seeds :: y in nodes
    ensures FirstAbsent(nodes, SeedKeys(rq)) == Some(x)
            <==> x in rq.seeds && x !in nodes && forall y | y in rq.seeds && y !in nodes && y != x :: CompactIo.ComesBefore(x, y)
  {
    hide FirstAbsent, CompactIo.SortedKeys, CompactIo.LexLe, CompactIo.DiffersAt;
    var keys := SeedKeys(rq);
    CompactCanon.SortedAscends(set y | y in rq.seeds);
    forall i, j | 0 <= i < j < |keys| ensures CompactIo.ComesBefore(keys[i], keys[j]) {
      CompactIo.LexMeaning(keys[i], keys[j]);
    }
    FirstAbsentMeaning(nodes, keys, x);
  }

  ghost function SeedKeys(rq: Request): (r: seq<Id>)
    ensures forall x :: x in r <==> x in rq.seeds
  {
    CompactIo.SortedKeys(set x | x in rq.seeds)
  }

  /** The seeds and what they cost; a seed without a node is an error, and so is too small a budget, which
      names the cost. */
  method SelectSeeds(costs: Costs, nodes: Nodes, rq: Request) returns (r: Result<Pick>)
    ensures var seeds := set x | x in rq.seeds;
            var absent := FirstAbsent(nodes, SeedKeys(rq));
            var needed := SetCost(costs.node, nodes, seeds);
            r == if absent.Some? then Err(MissingEntity(absent.value))
                 else if needed > rq.tokenBudget then Err(BudgetTooSmall(needed, rq.tokenBudget))
                 else Ok(Pick(seeds, needed, [], 0))
  {
    hide CompactIo.SortedKeys, SetCost;
    var all := set x | x in rq.seeds;
    var seeds := CompactIo.SortKeys(all);
    var selected: set<Id>, used := {}, 0;
    assert SetCost(costs.node, nodes, {}) == 0 by { NothingCosts(costs.node, nodes); }
    assert seeds[0..] == seeds;
    for i := 0 to |seeds|
      invariant FirstAbsent(nodes, seeds) == FirstAbsent(nodes, seeds[i..])
      invariant selected == set j | 0 <= j < i :: seeds[j]
      invariant used == SetCost(costs.node, nodes, selected)
    {
      assert seeds[i..][1..] == seeds[i + 1..];
      if seeds[i] !in nodes {
        return Err(MissingEntity(seeds[i]));
      }
      assert seeds[i] in seeds && seeds[i] !in selected;
      SetCostAdd(costs.node, nodes, selected, seeds[i]);
      used := used + costs.node(nodes[seeds[i]]);
      selected := selected + {seeds[i]};
    }
    assert selected == all by {
      forall x | x in all ensures x in selected {
        assert x in seeds;
      }
    }
    r := if used > rq.tokenBudget then Err(BudgetTooSmall(used, rq.tokenBudget)) else Ok(Pick(selected, used, [], 0));
  }

  lemma NothingCosts<T>(cost: T -> nat, items: map<Id, T>)
    ensures SetCost(cost, items, {}) == 0
  {}

  /** The greedy loop. */
  method ChooseFacts(costs: Costs, nodes: Nodes, budget: nat, start: Pick, candidates: seq<MemoryFact>) returns (s: Pick)
    requires forall i | 0 <= i < |candidates| :: candidates[i].source in nodes && candidates[i].target in nodes
    ensures s == ChooseAll(costs, nodes, budget, start, candidates)
  {
    s := start;
    for i := 0 to |candidates|
      invariant s == ChooseAll(costs, nodes, budget, start, candidates[..i])
    {
      var f := candidates[i];
      assert candidates[..i + 1][..i] == candidates[..i];
      var missing := (if f.source in s.selected then [] else [f.source]) + (if f.target in s.selected then [] else [f.target]);
      var cost := costs.fact(f);
      for j := 0 to |missing|
        invariant cost == costs.fact(f) + (if j > 0 then Cost(costs.node, nodes, missing[0]) else 0)
                          + (if j > 1 then Cost(costs.node, nodes, missing[1]) else 0)
        invariant forall k | 0 <= k < |missing| :: missing[k] in nodes
      {
        cost := cost + costs.node(nodes[missing[j]]);
      }
      assert cost == Charge(costs, nodes, s.selected, f);
      if s.used + cost > budget {
        s := s.(omitted := s.omitted + 1);
      } else {
        s := Pick(s.selected + (set k | k in missing), s.used + cost, s.facts + [f], s.omitted);
        assert ChooseAll(costs, nodes, budget, start, candidates[..i]).selected + {f.source} + {f.target} == s.selected;
      }
    }
    assert candidates[..|candidates|] == candidates;
  }

  // ---- The bundle ----------------------------------------------------------------------------------------

  datatype Receipt = Receipt(
    validAt: Timestamp,
    knownAt: Timestamp,
    sourcePosition: Option<u64>,
    tokenBudget: nat,
    estimatedTokens: nat,
    examinedFacts: nat,
    selectedFacts: nat,
    omittedByBudget: nat,
    excludedByScope: nat)

  datatype Bundle = Bundle(view: MemoryView, receipt: Receipt)

  function IdsOf(facts: seq<MemoryFact>): set<Id> {
    set i | 0 <= i < |facts| :: facts[i].id
  }

  /** The items under the given ids, in id order. */
  ghost function ById<T>(items: map<Id, T>, ids: set<Id>): (r: seq<T>)
    ensures |r| == |ids * items.Keys|
  {
    var keys := CompactIo.SortedKeys(ids * items.Keys);
    seq(|keys|, i requires 0 <= i < |keys| => assert keys[i] in keys; items[keys[i]])
  }

  ghost function Start(costs: Costs, q: Query, n: Neighborhood): Pick {
    var seeds := set x | x in q.rq.seeds;
    Pick(seeds, SetCost(costs.node, n.nodes, seeds), [], 0)
  }

  ghost function Final(costs: Costs, q: Query, n: Neighborhood, candidates: seq<MemoryFact>): Pick {
    ChooseAll(costs, n.nodes, q.rq.tokenBudget, Start(costs, q, n), candidates)
  }

  ghost function BundleOf(q: Query, n: Neighborhood, candidates: seq<MemoryFact>, t: Pick): Bundle {
    var view := MemoryView(ById(n.nodes, t.selected), ById(n.facts, IdsOf(t.facts)));
    Bundle(view, Receipt(q.rq.validAt, q.rq.knownAt, q.p.lastPosition, q.rq.tokenBudget, t.used,
                         |candidates|, |view.facts|, t.omitted, n.excluded))
  }

  /** The neighborhood and the order of its facts. */
  ghost predicate Candidates(q: Query, n: Neighborhood, candidates: seq<MemoryFact>) {
    IsNeighborhood(q, n) && Lists(n.facts, candidates) && Sorted(n.distances, candidates)
  }

  ghost predicate Compiles(costs: Costs, q: Query, n: Neighborhood, candidates: seq<MemoryFact>, r: Result<Bundle>) {
    && Candidates(q, n, candidates)
    && r == if Start(costs, q, n).used > q.rq.tokenBudget
            then Err(BudgetTooSmall(Start(costs, q, n).used, q.rq.tokenBudget))
            else Ok(BundleOf(q, n, candidates, Final(costs, q, n, candidates)))
  }

  method CollectById<T>(items: map<Id, T>, ids: set<Id>) returns (r: seq<T>)
    requires ids <= items.Keys
    ensures r == ById(items, ids)
  {
    hide CompactIo.SortedKeys;
    var keys := CompactIo.SortKeys(ids);
    assert ids * items.Keys == ids;
    r := seq(|keys|, i requires 0 <= i < |keys| => assert keys[i] in keys; items[keys[i]]);
  }

  /** What the selection may rely on: candidates and seeds lie in the ball. */
  lemma CandidatesKnown(q: Query, n: Neighborhood, candidates: seq<MemoryFact>)
    requires Consistent(q.p) && Candidates(q, n, candidates)
    ensures forall f | f in candidates :: f.source in n.nodes && f.target in n.nodes
    ensures forall x | x in q.rq.seeds :: x in n.nodes
  {
    hide Within, Live, FactOf, NodeOf, IsDistance, KeyLe, Consistent, InsideIds;
    forall f | f in candidates ensures f.source in n.nodes && f.target in n.nodes {
      InsideMember(q, f);
    }
    forall x | x in q.rq.seeds ensures x in n.nodes {
      SeedInBall(q, x);
    }
  }

  lemma SeedInBall(q: Query, x: Id)
    requires x in q.rq.seeds
    ensures InBall(q, x)
  {
    WithinGrows(q, x, 0, q.rq.maxDepth);
  }

  lemma KeyedFacts(q: Query, n: Neighborhood)
    requires IsNeighborhood(q, n)
    ensures forall id | id in n.facts :: n.facts[id].id == id
  {
    hide Within, Live, NodeOf, IsDistance;
  }

  lemma {:induction false} GreedyDistinct(costs: Costs, nodes: Nodes, budget: nat, s: Pick, candidates: seq<MemoryFact>)
    requires s.facts == [] && DistinctIds(candidates)
    ensures DistinctIds(ChooseAll(costs, nodes, budget, s, candidates).facts)
    decreases |candidates|
  {
    hide Affordable, Charge;
    if candidates != [] {
      var n := |candidates| - 1;
      GreedyDistinct(costs, nodes, budget, s, candidates[..n]);
      GreedySelects(costs, nodes, budget, s, candidates[..n]);
    }
  }

  lemma IdsOfStep(s: seq<MemoryFact>, f: MemoryFact)
    ensures IdsOf(s + [f]) == IdsOf(s) + {f.id}
  {
    var t := s + [f];
    assert t[|s|] == f;
    forall x | x in IdsOf(s) ensures x in IdsOf(t) {
      var i :| 0 <= i < |s| && s[i].id == x;
      assert t[i].id == x;
    }
  }

  lemma {:induction false} FactsCostOfIds(costs: Costs, facts: map<Id, MemoryFact>, s: seq<MemoryFact>)
    requires forall i | 0 <= i < |s| :: s[i].id in facts && facts[s[i].id] == s[i]
    requires DistinctIds(s)
    ensures FactsCost(costs, s) == SetCost(costs.fact, facts, IdsOf(s)) && |IdsOf(s)| == |s|
    decreases |s|
  {
    hide SetCost;
    if s == [] {
      assert IdsOf(s) == {};
      NothingCosts(costs.fact, facts);
    } else {
      var front, f := s[..|s| - 1], s[|s| - 1];
      FactsCostOfIds(costs, facts, front);
      assert s == front + [f];
      IdsOfStep(front, f);
      SetCostAdd(costs.fact, facts, IdsOf(front), f.id);
    }
  }

  lemma {:induction false} SelectedKnown(costs: Costs, nodes: Nodes, budget: nat, s: Pick, candidates: seq<MemoryFact>)
    requires s.selected <= nodes.Keys && forall f | f in candidates :: f.source in nodes && f.target in nodes
    ensures ChooseAll(costs, nodes, budget, s, candidates).selected <= nodes.Keys
    decreases |candidates|
  {
    hide Affordable, Charge;
    if candidates != [] {
      SelectedKnown(costs, nodes, budget, s, candidates[..|candidates| - 1]);
    }
  }

  /** Compiling: errors for no seeds, a bad seed or seeds too dear; otherwise the greedy bundle. */
  method Compile(projection: MemoryProjection, costs: Costs, rq: Request)
    returns (r: Result<Bundle>, ghost n: Neighborhood, ghost candidates: seq<MemoryFact>)
    requires projection.Valid()
    ensures var q := Query(projection.Value(), rq);
            var bad := FirstBad(q, SeedOrder(q));
            if rq.seeds == [] then r == Err(InvalidValue)
            else if bad.Some? then r == Err(MissingEntity(bad.value))
            else Compiles(costs, q, n, candidates, r)
  {
    hide MemoryProjection.Valid, Consistent, IsNeighborhood, FirstBad, SeedOrder, Lists, Sorted, ById, ChooseAll, SetCost;
    ghost var q := Query(projection.Value(), rq);
    n, candidates := Neighborhood(map[], map[], map[], 0), [];
    if rq.seeds == [] {
      return Err(InvalidValue), n, candidates;
    }
    var found := FindNeighborhood(projection, rq);
    if found.Err? {
      return Err(found.error), n, candidates;
    }
    var near := found.value;
    n := near;
    KeyedFacts(q, near);
    var order := SortFacts(near.distances, near.facts);
    candidates := order;
    ValidIsConsistent(projection);
    CandidatesKnown(q, near, order);
    NoneAbsent(near.nodes, SeedKeys(rq));
    var start := SelectSeeds(costs, near.nodes, rq);
    if start.Err? {
      return Err(start.error), n, candidates;
    }
    var t := ChooseFacts(costs, near.nodes, rq.tokenBudget, start.value, order);
    PickKnown(costs, q, near, order);
    var nodes := CollectById(near.nodes, t.selected);
    var facts := CollectById(near.facts, IdsOf(t.facts));
    r := Ok(Bundle(MemoryView(nodes, facts),
                   Receipt(rq.validAt, rq.knownAt, projection.lastGlobalPosition, rq.tokenBudget, t.used,
                           |order|, |facts|, t.omitted, near.excluded)));
  }

  lemma PickKnown(costs: Costs, q: Query, n: Neighborhood, candidates: seq<MemoryFact>)
    requires Consistent(q.p) && Candidates(q, n, candidates)
    ensures var t := Final(costs, q, n, candidates);
            && t.selected <= n.nodes.Keys && IdsOf(t.facts) <= n.facts.Keys
            && (forall f | f in t.facts :: f.id in n.facts && n.facts[f.id] == f)
  {
    hide IsNeighborhood, Consistent, ChooseAll, KeyLe, SetCost;
    CandidatesKnown(q, n, candidates);
    GreedySelects(costs, n.nodes, q.rq.tokenBudget, Start(costs, q, n), candidates);
    SelectedKnown(costs, n.nodes, q.rq.tokenBudget, Start(costs, q, n), candidates);
    var t := Final(costs, q, n, candidates);
    forall f | f in t.facts ensures f.id in n.facts && n.facts[f.id] == f {
      assert f in candidates;
    }
  }

  /** One turn of the selection, in numbers: a candidate is taken exactly if what it costs, with each of its
      ends that is not selected yet, still fits; then its ends are selected and its price is used. */
  lemma GreedyMeaning(costs: Costs, q: Query, n: Neighborhood, candidates: seq<MemoryFact>, k: nat)
    requires Consistent(q.p) && Candidates(q, n, candidates) && k < |candidates|
    ensures var f := candidates[k];
            var b := ChooseAll(costs, n.nodes, q.rq.tokenBudget, Start(costs, q, n), candidates[..k]);
            && f.source in n.nodes && f.target in n.nodes
            && var price := costs.fact(f) + (if f.source in b.selected then 0 else costs.node(n.nodes[f.source]))
                            + (if f.target in b.selected then 0 else costs.node(n.nodes[f.target]));
               ChooseAll(costs, n.nodes, q.rq.tokenBudget, Start(costs, q, n), candidates[..k + 1])
               == if b.used + price <= q.rq.tokenBudget
                  then Pick(b.selected + {f.source, f.target}, b.used + price, b.facts + [f], b.omitted)
                  else Pick(b.selected, b.used, b.facts, b.omitted + 1)
  {
    hide Consistent, Candidates, Start;
    CandidatesKnown(q, n, candidates);
    var f := candidates[k];
    assert f in candidates;
    assert candidates[..k + 1][..k] == candidates[..k];
    var b := ChooseAll(costs, n.nodes, q.rq.tokenBudget, Start(costs, q, n), candidates[..k]);
    assert b.selected + {f.source} + {f.target} == b.selected + {f.source, f.target};
  }

  ghost predicate StrictlyById<T>(s: seq<T>, id: T -> Id) {
    forall i, j | 0 <= i < j < |s| :: id(s[i]) != id(s[j]) && CompactIo.LexLe(id(s[i]), id(s[j]))
  }

  lemma ByIdAscends<T>(items: map<Id, T>, ids: set<Id>, id: T -> Id)
    requires forall x | x in items :: id(items[x]) == x
    ensures StrictlyById(ById(items, ids), id)
  {
    hide CompactIo.SortedKeys, CompactIo.LexLe;
    var keys := CompactIo.SortedKeys(ids * items.Keys);
    CompactCanon.SortedAscends(ids * items.Keys);
    var r := ById(items, ids);
    forall i, j | 0 <= i < j < |r| ensures id(r[i]) != id(r[j]) && CompactIo.LexLe(id(r[i]), id(r[j])) {
      assert keys[i] in keys && keys[j] in keys;
    }
  }

  /** Nodes and facts are returned in ascending order of their ids. */
  lemma BundleIsOrdered(costs: Costs, q: Query, n: Neighborhood, candidates: seq<MemoryFact>, b: Bundle)
    requires Consistent(q.p) && Compiles(costs, q, n, candidates, Ok(b))
    ensures StrictlyById(b.view.nodes, (x: MemoryNode) => x.id) && StrictlyById(b.view.facts, (f: MemoryFact) => f.id)
  {
    hide Consistent, IsNeighborhood, ById, Final, Lists, Sorted, SetCost, StrictlyById;
    forall x | x in n.nodes ensures n.nodes[x].id == x {
      NodeHasId(q, n, x);
    }
    KeyedFacts(q, n);
    ByIdAscends(n.nodes, Final(costs, q, n, candidates).selected, (x: MemoryNode) => x.id);
    ByIdAscends(n.facts, IdsOf(Final(costs, q, n, candidates).facts), (f: MemoryFact) => f.id);
  }

  /** A compilation is refused exactly if the seeds alone cost more than the budget, and says both. */
  lemma BudgetRefusal(costs: Costs, q: Query, n: Neighborhood, candidates: seq<MemoryFact>, r: Result<Bundle>)
    requires Compiles(costs, q, n, candidates, r)
    ensures r.Err? <==> SetCost(costs.node, n.nodes, set x | x in q.rq.seeds) > q.rq.tokenBudget
    ensures r.Err? ==>
              && r.error.BudgetTooSmall?
              && r.error.available == q.rq.tokenBudget < r.error.required == SetCost(costs.node, n.nodes, set x | x in q.rq.seeds)
  {
    hide Candidates, SetCost, Final, ById;
  }

  /** The receipt repeats the request and the projection's position, and counts the neighborhood. */
  lemma ReceiptForm(costs: Costs, q: Query, n: Neighborhood, candidates: seq<MemoryFact>, b: Bundle)
    requires Consistent(q.p) && Compiles(costs, q, n, candidates, Ok(b))
    ensures b.receipt.validAt == q.rq.validAt && b.receipt.knownAt == q.rq.knownAt && b.receipt.tokenBudget == q.rq.tokenBudget
    ensures b.receipt.sourcePosition == q.p.lastPosition
    ensures b.receipt.examinedFacts == |InsideIds(q)| && b.receipt.excludedByScope == |CrossingIds(q)|
  {
    hide Consistent, ById, Final, Start, KeyLe, SetCost, InBall, IsDistance, InsideIds, CrossingIds, NodeOf, FactOf, IdsOf;
    AllExamined(costs, n.facts, candidates);
  }

  lemma AllExamined(costs: Costs, facts: map<Id, MemoryFact>, candidates: seq<MemoryFact>)
    requires Lists(facts, candidates)
    ensures |candidates| == |facts.Keys|
  {
    hide SetCost, FactsCost;
    FactsCostOfIds(costs, facts, candidates);
    forall id | id in facts ensures id in IdsOf(candidates) {
      var i :| 0 <= i < |candidates| && candidates[i] == facts[id];
    }
    assert IdsOf(candidates) == facts.Keys;
  }

  // ---- What every bundle promises -------------------------------------------------------------------------

  lemma ByIdMember<T>(items: map<Id, T>, ids: set<Id>, x: T)
    ensures x in ById(items, ids) <==> exists id :: id in ids && id in items && items[id] == x
  {
    hide CompactIo.SortedKeys;
    var keys := CompactIo.SortedKeys(ids * items.Keys);
    var r := ById(items, ids);
    if x in r {
      var i :| 0 <= i < |r| && r[i] == x;
      assert keys[i] in keys;
      assert items[keys[i]] == x;
    }
    if id :| id in ids && id in items && items[id] == x {
      assert id in keys;
      var i :| 0 <= i < |keys| && keys[i] == id;
      assert r[i] == x;
    }
  }

  lemma FactsById(facts: map<Id, MemoryFact>, picked: seq<MemoryFact>, f: MemoryFact)
    requires forall g | g in picked :: g.id in facts && facts[g.id] == g
    ensures f in ById(facts, IdsOf(picked)) <==> f in picked
  {
    hide ById;
    ByIdMember(facts, IdsOf(picked), f);
    if f in picked {
      var i :| 0 <= i < |picked| && picked[i] == f;
      assert f.id in IdsOf(picked);
    }
    if id :| id in IdsOf(picked) && id in facts && facts[id] == f {
      var i :| 0 <= i < |picked| && picked[i].id == id;
      assert picked[i] in picked;
    }
  }

  /** The facts returned, and only they, are the picked ones; the nodes returned are the selected ones. */
  lemma BundleHolds(costs: Costs, q: Query, n: Neighborhood, candidates: seq<MemoryFact>, b: Bundle)
    requires Consistent(q.p) && Compiles(costs, q, n, candidates, Ok(b))
    ensures var t := Final(costs, q, n, candidates);
            && (forall f :: f in b.view.facts <==> f in t.facts)
            && (forall x: MemoryNode :: x in b.view.nodes <==> exists id :: id in t.selected && id in n.nodes && n.nodes[id] == x)
            && |b.view.facts| == |t.facts| && |b.view.nodes| == |t.selected|
  {
    hide Consistent, Candidates, ById, Final, Start, SetCost, FactsCost, IdsOf;
    var t := Final(costs, q, n, candidates);
    PickKnown(costs, q, n, candidates);
    PickDistinct(costs, q, n, candidates);
    assert IdsOf(t.facts) * n.facts.Keys == IdsOf(t.facts) && t.selected * n.nodes.Keys == t.selected;
    forall f ensures f in b.view.facts <==> f in t.facts {
      FactsById(n.facts, t.facts, f);
    }
    forall x: MemoryNode ensures x in b.view.nodes <==> exists id :: id in t.selected && id in n.nodes && n.nodes[id] == x {
      ByIdMember(n.nodes, t.selected, x);
    }
  }

  lemma PickDistinct(costs: Costs, q: Query, n: Neighborhood, candidates: seq<MemoryFact>)
    requires Consistent(q.p) && Candidates(q, n, candidates)
    ensures var t := Final(costs, q, n, candidates);
            FactsCost(costs, t.facts) == SetCost(costs.fact, n.facts, IdsOf(t.facts)) && |IdsOf(t.facts)| == |t.facts|
  {
    hide Consistent, IsNeighborhood, ChooseAll, KeyLe, SetCost, FactsCost, IdsOf, DistinctIds;
    PickKnown(costs, q, n, candidates);
    GreedyDistinct(costs, n.nodes, q.rq.tokenBudget, Start(costs, q, n), candidates);
    FactsCostOfIds(costs, n.facts, Final(costs, q, n, candidates).facts);
  }

  /** The receipt tells the truth: the estimate is within the budget, and is the cost of what is returned
      plus what was charged twice; every candidate was selected or omitted. */
  lemma ReceiptIsTrue(costs: Costs, q: Query, n: Neighborhood, candidates: seq<MemoryFact>, b: Bundle)
    requires Consistent(q.p) && Compiles(costs, q, n, candidates, Ok(b))
    ensures var t := Final(costs, q, n, candidates);
            && b.receipt.estimatedTokens <= q.rq.tokenBudget
            && b.receipt.estimatedTokens
               == SetCost(costs.node, n.nodes, t.selected) + SetCost(costs.fact, n.facts, IdsOf(t.facts))
                  + TwiceCharged(costs, n.nodes, q.rq.tokenBudget, Start(costs, q, n), candidates)
            && b.receipt.selectedFacts + b.receipt.omittedByBudget == b.receipt.examinedFacts
            && b.receipt.selectedFacts == |b.view.facts|
  {
    hide Consistent, Candidates, ById, ChooseAll, SetCost, FactsCost, IdsOf;
    BundleHolds(costs, q, n, candidates, b);
    PickDistinct(costs, q, n, candidates);
    GreedyAccounts(costs, n.nodes, q.rq.tokenBudget, Start(costs, q, n), candidates);
  }

  /** Every returned fact comes with both endpoints, and belongs to the temporal view. */
  lemma BundleIsClosed(costs: Costs, q: Query, n: Neighborhood, candidates: seq<MemoryFact>, b: Bundle, f: MemoryFact)
    requires Consistent(q.p) && FirstBad(q, SeedOrder(q)).None? && Compiles(costs, q, n, candidates, Ok(b)) && f in b.view.facts
    ensures f in View(q.p, ClockOf(q.rq)).facts
    ensures f.source in n.nodes && n.nodes[f.source] in b.view.nodes
    ensures f.target in n.nodes && n.nodes[f.target] in b.view.nodes
  {
    hide Consistent, IsNeighborhood, ById, ChooseAll, SetCost, FirstBad, SeedOrder, View, Lists, Sorted;
    var t := Final(costs, q, n, candidates);
    BundleHolds(costs, q, n, candidates, b);
    PickKnown(costs, q, n, candidates);
    GreedySelects(costs, n.nodes, q.rq.tokenBudget, Start(costs, q, n), candidates);
    NeighborhoodRefinesView(q, n, f);
  }

  lemma DistanceUnique(q: Query, x: Id, d: nat, e: nat)
    requires IsDistance(q, x, d) && IsDistance(q, x, e)
    ensures d == e
  {
    DistanceBelow(q, x, d, e);
    DistanceBelow(q, x, e, d);
  }

  lemma NeighborhoodUnique(q: Query, m: Neighborhood, n: Neighborhood)
    requires IsNeighborhood(q, m) && IsNeighborhood(q, n)
    ensures m == n
  {
    hide InBall, NodeOf, FactOf, IsDistance, InsideIds, CrossingIds;
    forall x | x in m.distances ensures x in n.distances && m.distances[x] == n.distances[x] {
      assert IsDistance(q, x, m.distances[x]);
      assert IsDistance(q, x, n.distances[x]);
      DistanceUnique(q, x, m.distances[x], n.distances[x]);
    }
    assert m.distances.Keys == n.distances.Keys;
    assert m.distances == n.distances;
    forall x | x in m.nodes ensures m.nodes[x] == n.nodes[x] {
      assert NodeOf(q, x) == Some(m.nodes[x]) && NodeOf(q, x) == Some(n.nodes[x]);
    }
    assert m.nodes == n.nodes;
    forall id | id in m.facts ensures m.facts[id] == n.facts[id] {
      assert FactOf(q, id) == Some(m.facts[id]) && FactOf(q, id) == Some(n.facts[id]);
    }
    assert m.facts == n.facts;
  }

  /** The same projection and request always compile to the same result. */
  lemma CompileIsDeterministic(costs: Costs, q: Query, m: Neighborhood, n: Neighborhood, s: seq<MemoryFact>, t: seq<MemoryFact>,
                               a: Result<Bundle>, b: Result<Bundle>)
    requires Compiles(costs, q, m, s, a) && Compiles(costs, q, n, t, b)
    ensures a == b
  {
    hide IsNeighborhood, Lists, Sorted, BundleOf, Start, Final;
    NeighborhoodUnique(q, m, n);
    OrderIsUnique(n.distances, n.facts, s, t);
  }

  // ---- Requests without stray self-loops --------------------------------------------------------------------

  /** Every self-loop the request may meet sits on a seed. */
  ghost predicate LoopsOnSeeds(q: Query) {
    forall i | 0 <= i < |q.p.facts| && Inside(q, q.p.facts[i]) && q.p.facts[i].source == q.p.facts[i].target ::
      q.p.facts[i].source in q.rq.seeds
  }

  lemma CandidateLoops(q: Query, n: Neighborhood, candidates: seq<MemoryFact>, f: MemoryFact)
    requires Consistent(q.p) && Candidates(q, n, candidates) && LoopsOnSeeds(q) && f in candidates && f.source == f.target
    ensures f.source in q.rq.seeds
  {
    hide Consistent, Inside, InsideIds, IsDistance, NodeOf, FactOf, InBall, KeyLe;
    InsideMember(q, f);
  }

  /** If every live self-loop inside the ball sits on a seed, the estimate is exactly the cost of what is
      returned, and nothing omitted would fit. */
  lemma WithoutStrayLoops(costs: Costs, q: Query, n: Neighborhood, candidates: seq<MemoryFact>, b: Bundle)
    requires Consistent(q.p) && Compiles(costs, q, n, candidates, Ok(b)) && LoopsOnSeeds(q)
    ensures var t := Final(costs, q, n, candidates);
            && b.receipt.estimatedTokens == SetCost(costs.node, n.nodes, t.selected) + SetCost(costs.fact, n.facts, IdsOf(t.facts))
            && forall f | f in candidates && f !in b.view.facts :: !Affordable(costs, n.nodes, q.rq.tokenBudget, t, f)
  {
    hide Consistent, Candidates, ById, ChooseAll, SetCost, IdsOf, LoopsOnSeeds, BundleOf, Affordable, TwiceCharged;
    var start, budget := Start(costs, q, n), q.rq.tokenBudget;
    var t := Final(costs, q, n, candidates);
    ReceiptIsTrue(costs, q, n, candidates, b);
    forall i | 0 <= i < |candidates| ensures TwiceAt(costs, n.nodes, budget, start, candidates, i) == 0 {
      SeedLoopPaid(costs, q, n, candidates, i);
    }
    NothingTwice(costs, n.nodes, budget, start, candidates);
    forall f | f in candidates && f !in b.view.facts ensures !Affordable(costs, n.nodes, budget, t, f) {
      var i :| 0 <= i < |candidates| && candidates[i] == f;
      BundleHolds(costs, q, n, candidates, b);
      GreedySelects(costs, n.nodes, budget, start, candidates);
      SeedLoopPaid(costs, q, n, candidates, i);
      OmittedFits(costs, n.nodes, budget, start, candidates, i);
    }
  }

  lemma SeedLoopPaid(costs: Costs, q: Query, n: Neighborhood, candidates: seq<MemoryFact>, i: nat)
    requires Consistent(q.p) && Candidates(q, n, candidates) && LoopsOnSeeds(q) && i < |candidates|
    ensures var s := ChooseAll(costs, n.nodes, q.rq.tokenBudget, Start(costs, q, n), candidates[..i]);
            candidates[i].source == candidates[i].target ==> candidates[i].source in s.selected
  {
    hide Consistent, Candidates, LoopsOnSeeds, ChooseAll, SetCost;
    var f := candidates[i];
    if f.source == f.target {
      CandidateLoops(q, n, candidates, f);
      GreedySelects(costs, n.nodes, q.rq.tokenBudget, Start(costs, q, n), candidates[..i]);
    }
  }

  // ---- And only then, whatever things cost ---------------------------------------------------------------------

  /** Costs under which nothing but the self-loop `f` and its node can be afforded. */
  function StrayCosts(f: MemoryFact, budget: nat): Costs {
    Costs((x: MemoryNode) => if x.id == f.source then 1 else 0, (g: MemoryFact) => if g.id == f.id then 0 else budget + 1)
  }

  lemma {:induction false} NoCost<T>(cost: T -> nat, items: map<Id, T>, ids: set<Id>)
    requires forall x | x in ids :: Cost(cost, items, x) == 0
    ensures SetCost(cost, items, ids) == 0
    decreases |ids|
  {
    if ids != {} {
      var x :| x in ids;
      SetCostRemove(cost, items, ids, x);
      NoCost(cost, items, ids - {x});
    }
  }

  lemma NodeHasId(q: Query, n: Neighborhood, x: Id)
    requires Consistent(q.p) && IsNeighborhood(q, n) && x in n.nodes
    ensures n.nodes[x].id == x
  {
    hide FactsOk, InBall, IsDistance, InsideIds, CrossingIds, FactOf;
    var i := NodeIndex(q.p.nodes, x).value;
    assert HistoryOk(q.p.nodes[i]);
    VisibleRevisionHasId(q.p.nodes[i], q.rq.knownAt);
  }

  lemma {:induction false} NothingBefore(costs: Costs, nodes: Nodes, budget: nat, s: Pick, candidates: seq<MemoryFact>)
    requires forall i | 0 <= i < |candidates| :: costs.fact(candidates[i]) > budget
    ensures ChooseAll(costs, nodes, budget, s, candidates) == s.(omitted := s.omitted + |candidates|)
    decreases |candidates|
  {
    if candidates != [] {
      NothingBefore(costs, nodes, budget, s, candidates[..|candidates| - 1]);
    }
  }

  lemma StrayLoopCharged(q: Query, n: Neighborhood, candidates: seq<MemoryFact>, k: nat)
    requires Consistent(q.p) && Candidates(q, n, candidates) && q.rq.tokenBudget >= 2
    requires k < |candidates| && candidates[k].source == candidates[k].target && candidates[k].source !in q.rq.seeds
    ensures var costs := StrayCosts(candidates[k], q.rq.tokenBudget);
            && Start(costs, q, n).used == 0
            && TwiceCharged(costs, n.nodes, q.rq.tokenBudget, Start(costs, q, n), candidates) > 0
  {
    hide Consistent, IsNeighborhood, KeyLe, ChooseAll, TwiceCharged, SetCost;
    var f, budget := candidates[k], q.rq.tokenBudget;
    var costs := StrayCosts(f, budget);
    var start, front := Start(costs, q, n), candidates[..k];
    CandidatesKnown(q, n, candidates);
    forall x | x in q.rq.seeds ensures Cost(costs.node, n.nodes, x) == 0 {
      NodeHasId(q, n, x);
    }
    NoCost(costs.node, n.nodes, start.selected);
    forall i | 0 <= i < |front| ensures costs.fact(front[i]) > budget {
      assert candidates[i].id != f.id;
    }
    NothingBefore(costs, n.nodes, budget, start, front);
    assert f in candidates;
    NodeHasId(q, n, f.source);
    assert TwiceAt(costs, n.nodes, budget, start, candidates, k) == 1;
    NothingTwice(costs, n.nodes, budget, start, candidates);
  }

  lemma SmallBudgetPaysOnce(costs: Costs, nodes: Nodes, budget: nat, s: Pick, candidates: seq<MemoryFact>, i: nat)
    requires i < |candidates| && budget < 2
    ensures TwiceAt(costs, nodes, budget, s, candidates, i) == 0
  {
    hide ChooseAll, Cost;
  }

  /** Nothing is charged twice under any costs, if and only if every live self-loop inside the ball sits on a
      seed or the budget could not pay for anything twice. */
  lemma LoopsDecide(q: Query, n: Neighborhood, candidates: seq<MemoryFact>)
    requires Consistent(q.p) && Candidates(q, n, candidates)
    ensures LoopsOnSeeds(q) || q.rq.tokenBudget < 2
            <==> forall costs | Start(costs, q, n).used <= q.rq.tokenBudget ::
                   TwiceCharged(costs, n.nodes, q.rq.tokenBudget, Start(costs, q, n), candidates) == 0
  {
    hide Consistent, Candidates, Inside, TwiceCharged, TwiceAt, Start, StrayCosts, ChooseAll;
    if LoopsOnSeeds(q) || q.rq.tokenBudget < 2 {
      forall costs | Start(costs, q, n).used <= q.rq.tokenBudget
        ensures TwiceCharged(costs, n.nodes, q.rq.tokenBudget, Start(costs, q, n), candidates) == 0
      {
        forall i | 0 <= i < |candidates|
          ensures TwiceAt(costs, n.nodes, q.rq.tokenBudget, Start(costs, q, n), candidates, i) == 0
        {
          if q.rq.tokenBudget < 2 {
            SmallBudgetPaysOnce(costs, n.nodes, q.rq.tokenBudget, Start(costs, q, n), candidates, i);
          } else {
            SeedLoopOnce(costs, q, n, candidates, i);
          }
        }
        NothingTwice(costs, n.nodes, q.rq.tokenBudget, Start(costs, q, n), candidates);
      }
    } else {
      var i :| 0 <= i < |q.p.facts| && Inside(q, q.p.facts[i]) && q.p.facts[i].source == q.p.facts[i].target
               && q.p.facts[i].source !in q.rq.seeds;
      var k := CandidateOf(q, n, candidates, i);
      StrayLoopCharged(q, n, candidates, k);
    }
  }

  lemma SeedLoopOnce(costs: Costs, q: Query, n: Neighborhood, candidates: seq<MemoryFact>, i: nat)
    requires Consistent(q.p) && Candidates(q, n, candidates) && LoopsOnSeeds(q) && i < |candidates|
    ensures TwiceAt(costs, n.nodes, q.rq.tokenBudget, Start(costs, q, n), candidates, i) == 0
  {
    hide Consistent, Candidates, LoopsOnSeeds, ChooseAll, Start, Affordable;
    SeedLoopPaid(costs, q, n, candidates, i);
  }

  lemma CandidateOf(q: Query, n: Neighborhood, candidates: seq<MemoryFact>, i: nat) returns (k: nat)
    requires Consistent(q.p) && Candidates(q, n, candidates) && i < |q.p.facts| && Inside(q, q.p.facts[i])
    ensures k < |candidates| && candidates[k] == q.p.facts[i]
  {
    hide Consistent, Inside, InsideIds, IsDistance, NodeOf, FactOf, InBall, KeyLe;
    InsideMember(q, q.p.facts[i]);
    assert n.facts[q.p.facts[i].id] in candidates;
    k :| 0 <= k < |candidates| && candidates[k] == q.p.facts[i];
  }

  // ---- When nothing omitted fits, whatever things cost -----------------------------------------------------------

  /** `f` is a self-loop off the seeds and `g`, behind it in the order, is another kind of fact at its node. */
  ghost predicate StrayFollowed(q: Query, n: Neighborhood, f: MemoryFact, g: MemoryFact) {
    && Inside(q, f) && f.source == f.target && f.source !in q.rq.seeds
    && Inside(q, g) && g.source != g.target && At(g, f.source)
    && KeyLe(n.distances, f, g)
  }

  /** No fact that may pay for the node of a stray self-loop comes behind it. */
  ghost predicate LoopsComeLast(q: Query, n: Neighborhood) {
    forall i, j | 0 <= i < |q.p.facts| && 0 <= j < |q.p.facts| :: !StrayFollowed(q, n, q.p.facts[i], q.p.facts[j])
  }

  /** From `i` on, only self-loops touch the node `x`. */
  ghost predicate OnlyLoopsAt(candidates: seq<MemoryFact>, i: nat, x: Id) {
    forall j | i <= j < |candidates| && At(candidates[j], x) :: candidates[j].source == candidates[j].target
  }

  lemma LoopKeepsPressure(costs: Costs, nodes: Nodes, budget: nat, s: Pick, f: MemoryFact, g: MemoryFact)
    requires g.source == g.target && (At(f, g.source) ==> f.source == f.target)
    ensures var t := Choose(costs, nodes, budget, s, f);
            t.used + Charge(costs, nodes, t.selected, g) >= s.used + Charge(costs, nodes, s.selected, g)
  {}

  /** While only self-loops pay for its node, and pay twice, a self-loop never comes closer to fitting. */
  lemma {:induction false} PressureOfLoops(costs: Costs, nodes: Nodes, budget: nat, s: Pick, candidates: seq<MemoryFact>, i: nat, g: MemoryFact)
    requires i <= |candidates| && g.source == g.target && OnlyLoopsAt(candidates, i, g.source)
    ensures var b := ChooseAll(costs, nodes, budget, s, candidates[..i]);
            var t := ChooseAll(costs, nodes, budget, s, candidates);
            t.used + Charge(costs, nodes, t.selected, g) >= b.used + Charge(costs, nodes, b.selected, g)
    decreases |candidates|
  {
    hide Choose, Charge;
    if i == |candidates| {
      assert candidates[..i] == candidates;
    } else {
      var n := |candidates| - 1;
      LoopKeepsPressure(costs, nodes, budget, ChooseAll(costs, nodes, budget, s, candidates[..n]), candidates[n], g);
      PressureOfLoops(costs, nodes, budget, s, candidates[..n], i, g);
      assert candidates[..n][..i] == candidates[..i];
    }
  }

  lemma {:induction false} FreeOnly(costs: Costs, nodes: Nodes, s: Pick, candidates: seq<MemoryFact>, x: Id)
    requires s.used == 0 && x !in s.selected
    ensures var t := ChooseAll(costs, nodes, 0, s, candidates);
            t.used == 0 && (x in t.selected ==> Cost(costs.node, nodes, x) == 0)
    decreases |candidates|
  {
    hide Cost;
    if candidates != [] {
      FreeOnly(costs, nodes, s, candidates[..|candidates| - 1], x);
    }
  }

  /** Two candidates in the order of the sequence are in the order of their keys, and conversely. */
  lemma OrderOfKeys(q: Query, n: Neighborhood, candidates: seq<MemoryFact>, i: nat, j: nat)
    requires Candidates(q, n, candidates) && i < |candidates| && j < |candidates| && i != j
    ensures i < j <==> KeyLe(n.distances, candidates[i], candidates[j])
  {
    hide KeyLe, IsNeighborhood;
    KeyTotal(n.distances, candidates[i], candidates[j]);
  }

  lemma LoopsLastMeans(q: Query, n: Neighborhood, candidates: seq<MemoryFact>, i: nat)
    requires Consistent(q.p) && Candidates(q, n, candidates) && LoopsComeLast(q, n) && i < |candidates|
    requires candidates[i].source == candidates[i].target && candidates[i].source !in q.rq.seeds
    ensures OnlyLoopsAt(candidates, i, candidates[i].source)
  {
    hide Consistent, Candidates, Inside, KeyLe, InsideIds;
    var f := candidates[i];
    forall j | i <= j < |candidates| && At(candidates[j], f.source) ensures candidates[j].source == candidates[j].target {
      if j != i {
        OrderOfKeys(q, n, candidates, i, j);
        var a := FactBehind(q, n, candidates, i);
        var b := FactBehind(q, n, candidates, j);
        assert !StrayFollowed(q, n, q.p.facts[a], q.p.facts[b]);
      }
    }
  }

  lemma FactBehind(q: Query, n: Neighborhood, candidates: seq<MemoryFact>, i: nat) returns (a: nat)
    requires Consistent(q.p) && Candidates(q, n, candidates) && i < |candidates|
    ensures a < |q.p.facts| && q.p.facts[a] == candidates[i] && Inside(q, candidates[i])
  {
    hide Consistent, Inside, InsideIds, IsDistance, NodeOf, FactOf, InBall, KeyLe;
    var f := candidates[i];
    InsideMember(q, f);
    a :| 0 <= a < |q.p.facts| && q.p.facts[a] == f;
  }

  /** An omitted fact that fits at the end was an omitted stray self-loop whose node was paid for later. */
  lemma NothingOmittedFits(costs: Costs, q: Query, n: Neighborhood, candidates: seq<MemoryFact>, k: nat)
    requires Consistent(q.p) && Candidates(q, n, candidates) && Start(costs, q, n).used <= q.rq.tokenBudget
    requires LoopsComeLast(q, n) || q.rq.tokenBudget == 0
    requires k < |candidates| && !Taken(costs, n.nodes, q.rq.tokenBudget, Start(costs, q, n), candidates, k)
    ensures !Affordable(costs, n.nodes, q.rq.tokenBudget, Final(costs, q, n, candidates), candidates[k])
  {
    hide Consistent, Candidates, LoopsComeLast, ChooseAll, SetCost, Cost;
    var budget, s, f := q.rq.tokenBudget, Start(costs, q, n), candidates[k];
    var b, t := ChooseAll(costs, n.nodes, budget, s, candidates[..k]), Final(costs, q, n, candidates);
    if Affordable(costs, n.nodes, budget, t, f) {
      OmittedFits(costs, n.nodes, budget, s, candidates, k);
      SelectionGrows(costs, n.nodes, budget, s, candidates[..k]);
      if budget == 0 {
        FreeOnly(costs, n.nodes, s, candidates, f.source);
        FreeOnly(costs, n.nodes, s, candidates[..k], f.source);
      } else {
        LoopsLastMeans(q, n, candidates, k);
        PressureOfLoops(costs, n.nodes, budget, s, candidates, k, f);
      }
      assert false;
    }
  }

  lemma {:induction false} SelectionGrows(costs: Costs, nodes: Nodes, budget: nat, s: Pick, candidates: seq<MemoryFact>)
    ensures s.selected <= ChooseAll(costs, nodes, budget, s, candidates).selected
    decreases |candidates|
  {
    hide Affordable, Charge;
    if candidates != [] {
      SelectionGrows(costs, nodes, budget, s, candidates[..|candidates| - 1]);
    }
  }

  /** Costs under which the self-loop `f` is too dear for its node alone, and `g` can just pay for it. */
  function FollowCosts(f: MemoryFact, g: MemoryFact, budget: nat): Costs {
    Costs((x: MemoryNode) => if x.id == f.source then budget else 0,
          (h: MemoryFact) => if h.id == f.id || h.id == g.id then 0 else budget + 1)
  }

  lemma {:induction false} ChooseSplit(costs: Costs, nodes: Nodes, budget: nat, s: Pick, a: seq<MemoryFact>, b: seq<MemoryFact>)
    ensures ChooseAll(costs, nodes, budget, s, a + b) == ChooseAll(costs, nodes, budget, ChooseAll(costs, nodes, budget, s, a), b)
    decreases |b|
  {
    hide Choose;
    if b == [] {
      assert a + b == a;
    } else {
      var m := |b| - 1;
      ChooseSplit(costs, nodes, budget, s, a, b[..m]);
      assert (a + b)[..|a + b| - 1] == a + b[..m];
    }
  }

  lemma ChooseOne(costs: Costs, nodes: Nodes, budget: nat, s: Pick, f: MemoryFact)
    ensures ChooseAll(costs, nodes, budget, s, [f]) == Choose(costs, nodes, budget, s, f)
  {
    assert [f][..0] == [];
  }

  /** Only candidates `i` and `j` matter when all others cost more than the budget. */
  lemma OnlyTwoMatter(costs: Costs, nodes: Nodes, budget: nat, s: Pick, candidates: seq<MemoryFact>, i: nat, j: nat)
    requires i < j < |candidates| && forall k | 0 <= k < |candidates| && k != i && k != j :: costs.fact(candidates[k]) > budget
    ensures var t1 := Choose(costs, nodes, budget, ChooseAll(costs, nodes, budget, s, candidates[..i]), candidates[i]);
            var t := ChooseAll(costs, nodes, budget, s, candidates);
            && ChooseAll(costs, nodes, budget, s, candidates[..i]) == s.(omitted := s.omitted + i)
            && t == Choose(costs, nodes, budget, t1.(omitted := t1.omitted + (j - i - 1)), candidates[j]).(omitted := t.omitted)
  {
    hide Choose, ChooseAll;
    var a, b, c := candidates[..i], candidates[i + 1..j], candidates[j + 1..];
    assert candidates == a + ([candidates[i]] + (b + ([candidates[j]] + c)));
    NothingBefore(costs, nodes, budget, s, a);
    var s1 := ChooseAll(costs, nodes, budget, s, a);
    ChooseSplit(costs, nodes, budget, s, a, [candidates[i]] + (b + ([candidates[j]] + c)));
    ChooseSplit(costs, nodes, budget, s1, [candidates[i]], b + ([candidates[j]] + c));
    ChooseOne(costs, nodes, budget, s1, candidates[i]);
    var s2 := Choose(costs, nodes, budget, s1, candidates[i]);
    ChooseSplit(costs, nodes, budget, s2, b, [candidates[j]] + c);
    NothingBefore(costs, nodes, budget, s2, b);
    var s3 := ChooseAll(costs, nodes, budget, s2, b);
    ChooseSplit(costs, nodes, budget, s3, [candidates[j]], c);
    ChooseOne(costs, nodes, budget, s3, candidates[j]);
    NothingBefore(costs, nodes, budget, Choose(costs, nodes, budget, s3, candidates[j]), c);
  }

  lemma FollowedLoopFits(q: Query, n: Neighborhood, candidates: seq<MemoryFact>, i: nat, j: nat)
    requires Consistent(q.p) && Candidates(q, n, candidates) && q.rq.tokenBudget >= 1 && i < j < |candidates|
    requires candidates[i].source == candidates[i].target && candidates[i].source !in q.rq.seeds
    requires candidates[j].source != candidates[j].target && At(candidates[j], candidates[i].source)
    ensures var costs := FollowCosts(candidates[i], candidates[j], q.rq.tokenBudget);
            && Start(costs, q, n).used == 0
            && !Taken(costs, n.nodes, q.rq.tokenBudget, Start(costs, q, n), candidates, i)
            && Affordable(costs, n.nodes, q.rq.tokenBudget, Final(costs, q, n, candidates), candidates[i])
  {
    hide Consistent, IsNeighborhood, KeyLe, ChooseAll, SetCost;
    var f, g, budget := candidates[i], candidates[j], q.rq.tokenBudget;
    var costs := FollowCosts(f, g, budget);
    var s := Start(costs, q, n);
    CandidatesKnown(q, n, candidates);
    assert f in candidates && g in candidates;
    NodeHasId(q, n, f.source);
    NodeHasId(q, n, g.source);
    NodeHasId(q, n, g.target);
    forall x | x in q.rq.seeds ensures Cost(costs.node, n.nodes, x) == 0 {
      NodeHasId(q, n, x);
    }
    NoCost(costs.node, n.nodes, s.selected);
    OnlyTwoMatter(costs, n.nodes, budget, s, candidates, i, j);
  }

  /** Nothing omitted fits at the end under any costs, if and only if no stray self-loop is followed by a
      fact that may pay for its node, or there is no budget at all. */
  lemma FollowersDecide(q: Query, n: Neighborhood, candidates: seq<MemoryFact>)
    requires Consistent(q.p) && Candidates(q, n, candidates)
    ensures LoopsComeLast(q, n) || q.rq.tokenBudget == 0
            <==> forall costs, k | Start(costs, q, n).used <= q.rq.tokenBudget && 0 <= k < |candidates|
                                   && !Taken(costs, n.nodes, q.rq.tokenBudget, Start(costs, q, n), candidates, k) ::
                   !Affordable(costs, n.nodes, q.rq.tokenBudget, Final(costs, q, n, candidates), candidates[k])
  {
    hide Consistent, Candidates, Inside, KeyLe, Start, Final, FollowCosts, Taken, Affordable;
    if LoopsComeLast(q, n) || q.rq.tokenBudget == 0 {
      forall costs, k | Start(costs, q, n).used <= q.rq.tokenBudget && 0 <= k < |candidates|
                        && !Taken(costs, n.nodes, q.rq.tokenBudget, Start(costs, q, n), candidates, k)
        ensures !Affordable(costs, n.nodes, q.rq.tokenBudget, Final(costs, q, n, candidates), candidates[k])
      {
        NothingOmittedFits(costs, q, n, candidates, k);
      }
    } else {
      var a, b :| 0 <= a < |q.p.facts| && 0 <= b < |q.p.facts| && StrayFollowed(q, n, q.p.facts[a], q.p.facts[b]);
      var i := CandidateOf(q, n, candidates, a);
      var j := CandidateOf(q, n, candidates, b);
      OrderOfKeys(q, n, candidates, i, j);
      FollowedLoopFits(q, n, candidates, i, j);
    }
  }
}
