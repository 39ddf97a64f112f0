/** A concrete request, from an empty projection and with the crate's default token counts, on which a
    self-loop is charged twice, and one on which an omitted self-loop would still fit. */
module LoopLimits {
  import opened Common
  import opened Domain
  import opened Projections
  import opened Views
  import opened Neighborhoods
  import opened Compiler
  import opened Tokens
  import BulkReplay
  import CompactIo

  const A: Text := [0x61]
  const B: Text := [0x62]
  const C: Text := [0x63]

  function Letters(n: nat): (s: Text)
    ensures |s| == n && forall i | 0 <= i < n :: s[i] == 0x61
  {
    seq(n, _ => 0x61)
  }

  const NOTE := Evidence(A, A, None, None)
  const NODE_A := MemoryNode(A, A, A, None, None, map[])
  const NODE_B := MemoryNode(B, A, Letters(168), None, None, map[])
  const NODE_C := MemoryNode(C, A, A, None, None, map[])

  function Link(id: Id, source: Id, relation: Text, target: Id): MemoryFact {
    MemoryFact(id, source, relation, target, 0, None, 0, 0, A, A, 0, [NOTE], None)
  }

  /** The only way from the seed A to B costs more than the rest of the budget. */
  const DEAR := Link(A, A, Letters(316), B)
  const LOOP := Link(B, B, A, B)
  const NEXT := Link(C, B, A, C)

  // ---- The projection, event by event --------------------------------------------------

  function EventAt(id: Id, position: u64, payload: MemoryEvent): StoredEvent<MemoryEvent> {
    StoredEvent(EventMetadata(id, A, position, position, TypeOf(payload), 0, 0, A, A, None, None), payload)
  }

  function History(node: MemoryNode, position: u64): NodeHistory {
    NodeHistory(NodeRevision(node, 0, position), [])
  }

  const NODES := [History(NODE_A, 0), History(NODE_B, 1), History(NODE_C, 2)]
  const FACTS := [DEAR, LOOP, NEXT]

  const NODE_EVENTS := [EventAt(A, 0, NodeUpserted(NODE_A)), EventAt(B, 1, NodeUpserted(NODE_B)), EventAt(C, 2, NodeUpserted(NODE_C))]
  const FACT_EVENTS := [EventAt([0x64], 3, FactRecorded(DEAR)), EventAt([0x65], 4, FactRecorded(LOOP)), EventAt([0x66], 5, FactRecorded(NEXT))]

  const BUILT := Projection(NODES, FACTS, map[], map[], Some(5))

  lemma LettersAreProper(n: nat)
    requires n > 0
    ensures IsProperText(Letters(n))
  {
    var s := Letters(n);
    forall k | 1 <= k <= 3 && k <= |s| ensures !IsWhitespace(s[..k]) {
      assert s[..k][0] == 0x61;
    }
    forall k | 0 <= k < |s| <= k + 3 ensures !IsWhitespace(s[k..]) {
      assert s[k..][0] == 0x61;
    }
  }

  lemma SingleIsProper()
    ensures IsProperText(A)
  {
    LettersAreProper(1);
    assert A == Letters(1);
  }

  lemma AllValid()
    ensures NodeValid(NODE_A) && NodeValid(NODE_B) && NodeValid(NODE_C)
    ensures FactValid(DEAR) && FactValid(LOOP) && FactValid(NEXT)
  {
    hide IsProperText;
    SingleIsProper();
    LettersAreProper(316);
  }

  lemma Ids()
    ensures A != B && B != C && A != C
  {
    assert A[0] != B[0] && B[0] != C[0] && A[0] != C[0];
  }

  lemma NodesFound()
    ensures NodeIndex(NODES, A) == Some(0) && NodeIndex(NODES, B) == Some(1) && NodeIndex(NODES, C) == Some(2)
  {
    Ids();
    NodeIndexUnique(NODES, 0);
    NodeIndexUnique(NODES, 1);
    NodeIndexUnique(NODES, 2);
  }

  lemma FactsFound()
    ensures FactIndex(FACTS, A) == Some(0) && FactIndex(FACTS, B) == Some(1) && FactIndex(FACTS, C) == Some(2)
  {
    Ids();
    FactIndexUnique(FACTS, 0);
    FactIndexUnique(FACTS, 1);
    FactIndexUnique(FACTS, 2);
  }

  lemma UpsertApplies(nodes: seq<NodeHistory>, last: Option<u64>, id: Id, position: u64, node: MemoryNode)
    requires NodeValid(node) && !HasNode(nodes, node.id)
    ensures Apply(Projection(nodes, [], map[], map[], last), EventAt(id, position, NodeUpserted(node)))
         == Ok(Projection(nodes + [History(node, position)], [], map[], map[], Some(position)))
  {
    hide NodeValid, NodeIndex;
  }

  lemma RecordApplies(facts: seq<MemoryFact>, last: u64, id: Id, position: u64, f: MemoryFact)
    requires FactValid(f) && HasNode(NODES, f.source) && HasNode(NODES, f.target) && !HasFact(facts, f.id)
    requires f.supersedes.None? && f.recordedAt == 0 && f.agentId == A && f.sessionId == A
    ensures Apply(Projection(NODES, facts, map[], map[], Some(last)), EventAt(id, position, FactRecorded(f)))
         == Ok(Projection(NODES, facts + [f], map[], map[], Some(position)))
  {
    hide FactValid, NodeIndex, FactIndex;
  }

  lemma NodesApply()
    ensures ApplyAll(EMPTY, NODE_EVENTS) == Ok(Projection(NODES, [], map[], map[], Some(2)))
  {
    hide Apply, NodeValid;
    AllValid();
    Ids();
    var h1, h2 := [History(NODE_A, 0)], [History(NODE_A, 0), History(NODE_B, 1)];
    var none: seq<NodeHistory> := [];
    UpsertApplies(none, None, A, 0, NODE_A);
    UpsertApplies(h1, Some(0), B, 1, NODE_B);
    UpsertApplies(h2, Some(1), C, 2, NODE_C);
    assert none + [History(NODE_A, 0)] == h1 && h1 + [History(NODE_B, 1)] == h2 && h2 + [History(NODE_C, 2)] == NODES;
    var e := NODE_EVENTS;
    assert e[1..] == [e[1], e[2]] && e[1..][1..] == [e[2]] && e[1..][1..][1..] == [];
    assert ApplyAll(Projection(h2, [], map[], map[], Some(1)), [e[2]]) == Ok(Projection(NODES, [], map[], map[], Some(2)));
    assert ApplyAll(Projection(h1, [], map[], map[], Some(0)), e[1..]) == Ok(Projection(NODES, [], map[], map[], Some(2)));
  }

  lemma FactsApply()
    ensures ApplyAll(Projection(NODES, [], map[], map[], Some(2)), FACT_EVENTS) == Ok(BUILT)
  {
    hide Apply, FactValid, NodeIndex;
    AllValid();
    NodesFound();
    Ids();
    var none: seq<MemoryFact> := [];
    var f1, f2 := [DEAR], [DEAR, LOOP];
    RecordApplies(none, 2, [0x64], 3, DEAR);
    RecordApplies(f1, 3, [0x65], 4, LOOP);
    RecordApplies(f2, 4, [0x66], 5, NEXT);
    assert none + [DEAR] == f1 && f1 + [LOOP] == f2 && f2 + [NEXT] == FACTS;
    var e := FACT_EVENTS;
    assert e[1..] == [e[1], e[2]] && e[1..][1..] == [e[2]] && e[1..][1..][1..] == [];
    assert ApplyAll(Projection(NODES, f2, map[], map[], Some(4)), [e[2]]) == Ok(BUILT);
    assert ApplyAll(Projection(NODES, f1, map[], map[], Some(3)), e[1..]) == Ok(BUILT);
  }

  lemma AllApply()
    ensures ApplyAll(EMPTY, NODE_EVENTS + FACT_EVENTS) == Ok(BUILT)
  {
    hide ApplyAll;
    NodesApply();
    FactsApply();
    BulkReplay.ApplySplit(EMPTY, NODE_EVENTS, FACT_EVENTS);
  }

  // ---- The neighborhood of A ----------------------------------------------------------------

  /** Everything reachable from A in two steps, with no limit of scope. */
  function Ask(budget: nat): Query {
    Query(BUILT, Request([A], 0, 0, budget, 2, {}, {}, {}))
  }

  const NEAR := Neighborhood(map[A := NODE_A, B := NODE_B, C := NODE_C], map[A := DEAR, B := LOOP, C := NEXT],
                             map[A := 0, B := 1, C := 2], 0)

  lemma SeesHistory(node: MemoryNode, position: u64)
    ensures VisibleRevision(History(node, position), 0) == Some(node)
  {
    var revisions := History(node, position).Revisions();
    assert revisions == [NodeRevision(node, 0, position)] && revisions[..0] == [];
    assert Latest(revisions[..0], 0) == None;
    assert Latest(revisions, 0) == Some(revisions[0]);
  }

  lemma SeesNodes(budget: nat)
    ensures NodeOf(Ask(budget), A) == Some(NODE_A) && NodeOf(Ask(budget), B) == Some(NODE_B) && NodeOf(Ask(budget), C) == Some(NODE_C)
    ensures forall x | NodeOf(Ask(budget), x).Some? :: x == A || x == B || x == C
    ensures forall x :: Good(Ask(budget), x) <==> x == A || x == B || x == C
    ensures forall x :: !OutOfScope(Ask(budget), x)
  {
    hide VisibleRevision;
    NodesFound();
    SeesHistory(NODE_A, 0);
    SeesHistory(NODE_B, 1);
    SeesHistory(NODE_C, 2);
  }

  lemma SeesFacts(budget: nat)
    ensures FactOf(Ask(budget), A) == Some(DEAR) && FactOf(Ask(budget), B) == Some(LOOP) && FactOf(Ask(budget), C) == Some(NEXT)
    ensures Live(Ask(budget), DEAR) && Live(Ask(budget), LOOP) && Live(Ask(budget), NEXT)
    ensures forall id | FactOf(Ask(budget), id).Some? :: id == A || id == B || id == C
  {
    FactsFound();
  }

  /** A leads to B only, B to itself, A and C. */
  lemma Steps(budget: nat)
    ensures Adjacent(Ask(budget), A, B) && Adjacent(Ask(budget), B, C)
    ensures forall y | Adjacent(Ask(budget), A, y) :: y == B
  {
    hide Good, Live, FactOf;
    Ids();
    SeesNodes(budget);
    SeesFacts(budget);
    var q := Ask(budget);
    assert Leads(q, A, A, B) && Leads(q, C, B, C);
    forall y | Adjacent(q, A, y) ensures y == B {
      var id :| Leads(q, id, A, y);
    }
  }

  lemma TrueDistances(budget: nat)
    ensures IsDistance(Ask(budget), A, 0) && IsDistance(Ask(budget), B, 1) && IsDistance(Ask(budget), C, 2)
  {
    hide Adjacent;
    Ids();
    Steps(budget);
    var q := Ask(budget);
    assert Within(q, A, 0) && Within(q, B, 1) && Within(q, C, 2);
    assert !Within(q, B, 0);
    assert !Within(q, C, 0);
    assert !Within(q, C, 1);
  }

  lemma BallIsThree(budget: nat, x: Id)
    ensures InBall(Ask(budget), x) <==> x == A || x == B || x == C
  {
    hide Within, Good, IsDistance, FirstBad;
    var q := Ask(budget);
    TrueDistances(budget);
    InBallByDistance(q, A, 0);
    InBallByDistance(q, B, 1);
    InBallByDistance(q, C, 2);
    if InBall(q, x) {
      SeedsAreGood(budget);
      BallIsGood(q, x, 2);
      SeesNodes(budget);
    }
  }

  lemma InBallByDistance(q: Query, x: Id, d: nat)
    requires IsDistance(q, x, d) && d <= q.rq.maxDepth
    ensures InBall(q, x)
  {
    WithinGrows(q, x, d, q.rq.maxDepth);
  }

  lemma SeedsAreGood(budget: nat)
    ensures FirstBad(Ask(budget), SeedOrder(Ask(budget))).None?
  {
    hide Good, CompactIo.SortedKeys;
    SeesNodes(budget);
    var seeds := SeedOrder(Ask(budget));
    AllGood(Ask(budget), seeds);
  }

  lemma {:induction false} AllGood(q: Query, seeds: seq<Id>)
    requires forall x | x in seeds :: Good(q, x)
    ensures FirstBad(q, seeds).None?
    decreases |seeds|
  {
    if seeds != [] {
      AllGood(q, seeds[1..]);
    }
  }

  lemma AllInside(budget: nat)
    ensures InsideIds(Ask(budget)) == {A, B, C} && CrossingIds(Ask(budget)) == {}
  {
    hide InBall, Live, OutOfScope;
    var q := Ask(budget);
    SeesNodes(budget);
    SeesFacts(budget);
    BallIsThree(budget, A);
    BallIsThree(budget, B);
    BallIsThree(budget, C);
    assert q.p.facts[0] == DEAR && q.p.facts[1] == LOOP && q.p.facts[2] == NEXT;
    assert q.p.facts[0].id in InsideIds(q) && q.p.facts[1].id in InsideIds(q) && q.p.facts[2].id in InsideIds(q);
  }

  lemma NearIsNeighborhood(budget: nat)
    ensures IsNeighborhood(Ask(budget), NEAR)
  {
    hide InBall, IsDistance, NodeOf, FactOf, InsideIds, CrossingIds;
    Ids();
    SeesNodes(budget);
    SeesFacts(budget);
    TrueDistances(budget);
    AllInside(budget);
    forall x ensures InBall(Ask(budget), x) <==> x == A || x == B || x == C {
      BallIsThree(budget, x);
    }
  }

  // ---- The order of its facts ------------------------------------------------------------------

  lemma AllListed()
    ensures Lists(NEAR.facts, FACTS)
  {
    Ids();
    assert FACTS[0] == DEAR && FACTS[1] == LOOP && FACTS[2] == NEXT;
    assert DEAR in FACTS && LOOP in FACTS && NEXT in FACTS;
  }

  lemma InOrder()
    ensures Sorted(NEAR.distances, FACTS)
  {
    Ids();
    assert CompactIo.LexLe(B, C);
    assert MinDistance(NEAR.distances, DEAR) == 0;
    assert MinDistance(NEAR.distances, LOOP) == 1;
    assert MinDistance(NEAR.distances, NEXT) == 1;
  }

  // ---- What things cost by default --------------------------------------------------------------

  /** The default estimator: four bytes to the token. */
  function ByDefault(): Text -> nat {
    (s: Text) => BytesEstimate(4, s)
  }

  ghost function Charges(): Costs {
    TokenCosts(ByDefault())
  }

  lemma NoAttributes(n: MemoryNode)
    requires n.attributes == map[] && n.repository.None? && n.branch.None?
    ensures NodeTokens(ByDefault(), n) == ByDefault()(n.id) + ByDefault()(n.kind) + ByDefault()(n.labelText) + 6
  {
    hide BytesEstimate;
    assert n.attributes.Keys == {};
    CompactIo.NoKeys();
  }

  lemma NodePrices()
    ensures Charges().node(NODE_A) == 9 && Charges().node(NODE_B) == 50 && Charges().node(NODE_C) == 9
  {
    hide NodeTokens;
    NoAttributes(NODE_A);
    NoAttributes(NODE_B);
    NoAttributes(NODE_C);
  }

  lemma FactPrices()
    ensures Charges().fact(DEAR) == 100 && Charges().fact(LOOP) == 22 && Charges().fact(NEXT) == 22
  {
    hide NodeTokens;
    assert [NOTE][..0] == [];
    assert EvidenceTokens(ByDefault(), [NOTE]) == 2;
  }

  lemma Prices()
    ensures Charges().node(NODE_A) == 9 && Charges().node(NODE_B) == 50 && Charges().node(NODE_C) == 9
    ensures Charges().fact(DEAR) == 100 && Charges().fact(LOOP) == 22 && Charges().fact(NEXT) == 22
  {
    hide Charges;
    NodePrices();
    FactPrices();
  }

  // ---- The two selections -------------------------------------------------------------------------

  lemma SeedCosts(budget: nat)
    ensures Start(Charges(), Ask(budget), NEAR) == Pick({A}, 9, [], 0)
  {
    hide SetCost, Charges;
    Prices();
    var seeds := set x | x in Ask(budget).rq.seeds;
    assert seeds == {} + {A};
    SetCostAdd(Charges().node, NEAR.nodes, {}, A);
    NothingCosts(Charges().node, NEAR.nodes);
  }

  lemma ThreeChoices(budget: nat, s: Pick)
    ensures ChooseAll(Charges(), NEAR.nodes, budget, s, FACTS[..0]) == s
    ensures ChooseAll(Charges(), NEAR.nodes, budget, s, FACTS[..1]) == Choose(Charges(), NEAR.nodes, budget, s, DEAR)
    ensures ChooseAll(Charges(), NEAR.nodes, budget, s, FACTS[..2])
         == Choose(Charges(), NEAR.nodes, budget, Choose(Charges(), NEAR.nodes, budget, s, DEAR), LOOP)
    ensures ChooseAll(Charges(), NEAR.nodes, budget, s, FACTS)
         == Choose(Charges(), NEAR.nodes, budget, Choose(Charges(), NEAR.nodes, budget, Choose(Charges(), NEAR.nodes, budget, s, DEAR), LOOP), NEXT)
  {
    hide Choose, Charges;
    assert FACTS[..1][..0] == [] && FACTS[..0] == [] && FACTS[..2][..1] == FACTS[..1];
    assert FACTS[..1] == [DEAR] && FACTS[..2] == [DEAR, LOOP];
  }

  /** The request compiles, and the selection behind the bundle is `t`. */
  ghost predicate CompilesTo(budget: nat, t: Pick) {
    && Compiles(Charges(), Ask(budget), NEAR, FACTS, Ok(BundleOf(Ask(budget), NEAR, FACTS, t)))
    && Final(Charges(), Ask(budget), NEAR, FACTS) == t
  }

  lemma CandidatesHere(budget: nat)
    ensures Candidates(Ask(budget), NEAR, FACTS)
  {
    hide IsNeighborhood, Lists, Sorted;
    NearIsNeighborhood(budget);
    AllListed();
    InOrder();
  }

  /** With 130 tokens left after the seed, the loop is taken and its node is charged twice: the estimate is
      131 tokens for a bundle that costs 81. */
  lemma LoopChargedTwice()
    ensures ApplyAll(EMPTY, NODE_EVENTS + FACT_EVENTS) == Ok(Ask(139).p)
    ensures CompilesTo(139, Pick({A, B}, 131, [LOOP], 2))
    ensures TwiceCharged(Charges(), NEAR.nodes, 139, Start(Charges(), Ask(139), NEAR), FACTS) == 50
  {
    hide ApplyAll, Candidates, Charges, Start, TwiceCharged, ChooseAll, BundleOf;
    AllApply();
    CandidatesHere(139);
    SeedCosts(139);
    Ids();
    Prices();
    var s := Pick({A}, 9, [], 0);
    ThreeChoices(139, s);
    var t1 := Choose(Charges(), NEAR.nodes, 139, s, DEAR);
    assert t1 == Pick({A}, 9, [], 1);
    var t2 := Choose(Charges(), NEAR.nodes, 139, t1, LOOP);
    assert t2 == Pick({A, B}, 131, [LOOP], 1);
    TwiceHere(139, s, t1, t2);
  }

  lemma TwiceHere(budget: nat, s: Pick, t1: Pick, t2: Pick)
    requires t1 == ChooseAll(Charges(), NEAR.nodes, budget, s, FACTS[..1]) && t2 == ChooseAll(Charges(), NEAR.nodes, budget, s, FACTS[..2])
    requires Affordable(Charges(), NEAR.nodes, budget, t1, LOOP) && B !in t1.selected
    ensures TwiceCharged(Charges(), NEAR.nodes, budget, s, FACTS) == 50
  {
    hide ChooseAll, Affordable, Charges;
    Ids();
    Prices();
    assert FACTS[..1][..0] == [] && FACTS[..2][..1] == FACTS[..1];
    assert TwiceCharged(Charges(), NEAR.nodes, budget, s, FACTS[..1]) == 0;
    assert TwiceCharged(Charges(), NEAR.nodes, budget, s, FACTS[..2]) == 50;
  }

  /** With 110 tokens left, the loop is omitted for its double charge, the next fact pays for its node,
      and at the end the loop would fit. */
  lemma OmittedLoopWouldFit()
    ensures ApplyAll(EMPTY, NODE_EVENTS + FACT_EVENTS) == Ok(Ask(119).p)
    ensures CompilesTo(119, Pick({A, B, C}, 90, [NEXT], 2))
    ensures !Taken(Charges(), NEAR.nodes, 119, Start(Charges(), Ask(119), NEAR), FACTS, 1) && FACTS[1] == LOOP
    ensures Affordable(Charges(), NEAR.nodes, 119, Final(Charges(), Ask(119), NEAR, FACTS), LOOP)
  {
    hide ApplyAll, Candidates, Charges, Start, ChooseAll, BundleOf;
    AllApply();
    CandidatesHere(119);
    SeedCosts(119);
    Ids();
    Prices();
    var s := Pick({A}, 9, [], 0);
    ThreeChoices(119, s);
    var t1 := Choose(Charges(), NEAR.nodes, 119, s, DEAR);
    assert t1 == Pick({A}, 9, [], 1);
    var t2 := Choose(Charges(), NEAR.nodes, 119, t1, LOOP);
    assert t2 == Pick({A}, 9, [], 2);
    assert Choose(Charges(), NEAR.nodes, 119, t2, NEXT) == Pick({A, B, C}, 90, [NEXT], 2);
  }
}
