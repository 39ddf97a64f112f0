/** Bitemporal queries over a projection, and what later events may not do to them. */
module Views {
  import opened Common
  import opened Domain
  import opened Projections

  datatype Clock = Clock(validAt: Timestamp, knownAt: Timestamp)

  datatype MemoryView = MemoryView(nodes: seq<MemoryNode>, facts: seq<MemoryFact>)

  // ---- Queries as the crate computes them -----------------------------------------

  /** Is `a` ranked at or below `b` by recording time, then by position? */
  predicate RankLe(a: NodeRevision, b: NodeRevision) {
    a.recordedAt < b.recordedAt || (a.recordedAt == b.recordedAt && a.position <= b.position)
  }

  /** The highest-ranked revision recorded by `known`; among equals, the last one. */
  function Latest(revisions: seq<NodeRevision>, known: Timestamp): Option<NodeRevision> {
    if revisions == [] then None
    else
      var last := revisions[|revisions| - 1];
      var best := Latest(revisions[..|revisions| - 1], known);
      if last.recordedAt > known then best
      else if best.None? || RankLe(best.value, last) then Some(last)
      else best
  }

  function VisibleRevision(h: NodeHistory, known: Timestamp): Option<MemoryNode> {
    match Latest(h.Revisions(), known)
    case Some(r) => Some(r.node)
    case None => None
  }

  function VisibleNodes(nodes: seq<NodeHistory>, known: Timestamp): (r: seq<MemoryNode>)
    ensures |r| <= |nodes|
  {
    if nodes == [] then []
    else
      var front := VisibleNodes(nodes[..|nodes| - 1], known);
      match VisibleRevision(nodes[|nodes| - 1], known)
      case Some(n) => front + [n]
      case None => front
  }

  predicate SupersededAt(p: Projection, id: Id, clock: Clock) {
    && id in p.supersessions
    && p.supersessions[id].recordedAt <= clock.knownAt
    && p.supersessions[id].validFrom <= clock.validAt
  }

  predicate RetractedAt(p: Projection, id: Id, clock: Clock) {
    && id in p.retractions
    && p.retractions[id].recordedAt <= clock.knownAt
    && p.retractions[id].validUntil <= clock.validAt
  }

  /** Recorded by then, and valid then by its own interval. */
  predicate HoldsAt(f: MemoryFact, clock: Clock) {
    && f.recordedAt <= clock.knownAt
    && f.validFrom <= clock.validAt
    && (f.validUntil.Some? ==> clock.validAt < f.validUntil.value)
  }

  predicate IsActive(p: Projection, f: MemoryFact, clock: Clock) {
    && HoldsAt(f, clock)
    && !SupersededAt(p, f.id, clock)
    && !RetractedAt(p, f.id, clock)
  }

  function NodeIds(nodes: seq<MemoryNode>): set<Id> {
    set i | 0 <= i < |nodes| :: nodes[i].id
  }

  /** The fact filter of a view; without a set of visible ids the endpoint test is skipped. */
  function SelectFacts(p: Projection, facts: seq<MemoryFact>, visible: Option<set<Id>>, clock: Clock): seq<MemoryFact> {
    if facts == [] then []
    else
      var front := SelectFacts(p, facts[..|facts| - 1], visible, clock);
      var f := facts[|facts| - 1];
      if (visible.Some? ==> f.source in visible.value && f.target in visible.value) && IsActive(p, f, clock)
      then front + [f]
      else front
  }

  /** The view, with the shortcut taken when every node is visible. */
  function View(p: Projection, clock: Clock): MemoryView {
    var nodes := VisibleNodes(p.nodes, clock.knownAt);
    var visible := if |nodes| != |p.nodes| then Some(NodeIds(nodes)) else None;
    MemoryView(nodes, SelectFacts(p, p.facts, visible, clock))
  }

  // ---- The shortcut-free meaning ------------------------------------------------------

  /** The node known under an id at a time, by plain search. */
  function VisibleNode(nodes: seq<NodeHistory>, id: Id, known: Timestamp): Option<MemoryNode> {
    match NodeIndex(nodes, id)
    case Some(i) => VisibleRevision(nodes[i], known)
    case None => None
  }

  predicate EndpointsVisible(nodes: seq<NodeHistory>, f: MemoryFact, known: Timestamp) {
    VisibleNode(nodes, f.source, known).Some? && VisibleNode(nodes, f.target, known).Some?
  }

  predicate InView(p: Projection, f: MemoryFact, clock: Clock) {
    EndpointsVisible(p.nodes, f, clock.knownAt) && IsActive(p, f, clock)
  }

  function FilterFacts(p: Projection, facts: seq<MemoryFact>, clock: Clock): seq<MemoryFact> {
    if facts == [] then []
    else
      var front := FilterFacts(p, facts[..|facts| - 1], clock);
      if InView(p, facts[|facts| - 1], clock) then front + [facts[|facts| - 1]] else front
  }

  // ---- Revisions -------------------------------------------------------------------------

  /** Recorded earlier; or at the same time at a lower position; or there too, but listed no later. */
  ghost predicate Outranked(revisions: seq<NodeRevision>, j: nat, k: nat)
    requires j < |revisions| && k < |revisions|
  {
    var a, b := revisions[j], revisions[k];
    || a.recordedAt < b.recordedAt
    || (a.recordedAt == b.recordedAt && a.position < b.position)
    || (a.recordedAt == b.recordedAt && a.position == b.position && j <= k)
  }

  /** Revision `k` is known, and outranks every known one. */
  ghost predicate IsLatest(revisions: seq<NodeRevision>, known: Timestamp, k: nat) {
    && k < |revisions|
    && revisions[k].recordedAt <= known
    && forall j | 0 <= j < |revisions| && revisions[j].recordedAt <= known :: Outranked(revisions, j, k)
  }

  lemma {:induction false} LatestIsMaximal(revisions: seq<NodeRevision>, known: Timestamp) returns (k: nat)
    ensures Latest(revisions, known).None? <==> forall j | 0 <= j < |revisions| :: revisions[j].recordedAt > known
    ensures Latest(revisions, known).Some? ==>
              IsLatest(revisions, known, k) && Latest(revisions, known).value == revisions[k]
    decreases |revisions|
  {
    k := 0;
    if revisions != [] {
      var front := revisions[..|revisions| - 1];
      var last := revisions[|revisions| - 1];
      k := LatestIsMaximal(front, known);
      if last.recordedAt <= known && (Latest(front, known).None? || RankLe(Latest(front, known).value, last)) {
        if Latest(front, known).Some? {
          forall j | 0 <= j < |front| && front[j].recordedAt <= known ensures Outranked(revisions, j, |front|) {
            assert Outranked(front, j, k);
          }
        }
        k := |front|;
      } else if Latest(front, known).Some? {
        forall j | 0 <= j < |front| && front[j].recordedAt <= known ensures Outranked(revisions, j, k) {
          assert Outranked(front, j, k);
        }
      }
    }
  }

  lemma LatestUnique(revisions: seq<NodeRevision>, known: Timestamp, j: nat, k: nat)
    requires IsLatest(revisions, known, j) && IsLatest(revisions, known, k)
    ensures j == k
  {
    assert Outranked(revisions, j, k) && Outranked(revisions, k, j);
  }

  /** `n` is the node of the history's maximal known revision. */
  ghost predicate IsCurrent(h: NodeHistory, known: Timestamp, n: MemoryNode) {
    exists k: nat :: IsLatest(h.Revisions(), known, k) && h.Revisions()[k].node == n
  }

  ghost predicate IsKnown(h: NodeHistory, known: Timestamp) {
    exists j: nat :: j < |h.Revisions()| && h.Revisions()[j].recordedAt <= known
  }

  /** A history shows the node of its maximal known revision, and nothing when none is known. */
  lemma VisibleMeaning(h: NodeHistory, known: Timestamp, n: MemoryNode)
    ensures VisibleRevision(h, known) == Some(n) <==> IsCurrent(h, known, n)
    ensures VisibleRevision(h, known).Some? <==> IsKnown(h, known)
  {
    hide Latest;
    var revisions := h.Revisions();
    var k := LatestIsMaximal(revisions, known);
    if IsCurrent(h, known, n) {
      var j: nat :| IsLatest(revisions, known, j) && revisions[j].node == n;
      assert revisions[j].recordedAt <= known;
      LatestUnique(revisions, known, j, k);
    }
  }

  /** `view` has one entry for each history with a known revision, in history order, namely the node of
      that history's maximal known revision; `shown` are the indexes of those histories. */
  ghost predicate Presents(nodes: seq<NodeHistory>, known: Timestamp, shown: seq<nat>, view: seq<MemoryNode>) {
    && (forall a, b | 0 <= a < b < |shown| :: shown[a] < shown[b])
    && (forall i | 0 <= i < |nodes| :: IsKnown(nodes[i], known) <==> i in shown)
    && |shown| == |view|
    && (forall a | 0 <= a < |shown| :: shown[a] < |nodes| && IsCurrent(nodes[shown[a]], known, view[a]))
  }

  lemma PresentsMore(nodes: seq<NodeHistory>, h: NodeHistory, known: Timestamp, shown: seq<nat>, view: seq<MemoryNode>, n: MemoryNode)
    requires Presents(nodes, known, shown, view)
    ensures !IsKnown(h, known) ==> Presents(nodes + [h], known, shown, view)
    ensures IsKnown(h, known) && IsCurrent(h, known, n) ==> Presents(nodes + [h], known, shown + [|nodes|], view + [n])
  {
    hide IsKnown, IsCurrent;
    var all, more := nodes + [h], shown + [|nodes|];
    assert forall i | 0 <= i < |nodes| :: all[i] == nodes[i];
    assert forall x :: x in more <==> x in shown || x == |nodes|;
    forall a | 0 <= a < |shown| ensures shown[a] != |nodes| {}
  }

  /** The nodes of a view are what it should present. */
  lemma {:induction false} VisibleNodesMeaning(nodes: seq<NodeHistory>, known: Timestamp) returns (shown: seq<nat>)
    ensures Presents(nodes, known, shown, VisibleNodes(nodes, known))
    decreases |nodes|
  {
    hide Presents, IsCurrent, IsKnown, VisibleRevision;
    if nodes == [] {
      shown := [];
      NothingPresented(known);
    } else {
      var front, h := nodes[..|nodes| - 1], nodes[|nodes| - 1];
      var was := VisibleNodesMeaning(front, known);
      var last := VisibleRevision(h, known);
      var n := if last.Some? then last.value else h.first.node;
      VisibleMeaning(h, known, n);
      PresentsMore(front, h, known, was, VisibleNodes(front, known), n);
      assert nodes == front + [h];
      shown := if last.Some? then was + [|front|] else was;
    }
  }

  lemma NothingPresented(known: Timestamp)
    ensures Presents([], known, [], [])
  {}

  lemma LatestIgnoresFuture(revisions: seq<NodeRevision>, r: NodeRevision, known: Timestamp)
    requires r.recordedAt > known
    ensures Latest(revisions + [r], known) == Latest(revisions, known)
  {
    assert (revisions + [r])[..|revisions|] == revisions;
  }

  lemma VisibleRevisionHasId(h: NodeHistory, known: Timestamp)
    requires HistoryOk(h)
    ensures VisibleRevision(h, known).Some? ==> VisibleRevision(h, known).value.id == h.Id()
  {
    var k := LatestIsMaximal(h.Revisions(), known);
  }

  // ---- The all-nodes-visible shortcut is sound ----------------------------------------------

  lemma {:induction false} VisibleNodesAll(nodes: seq<NodeHistory>, known: Timestamp, i: nat)
    requires |VisibleNodes(nodes, known)| == |nodes| && i < |nodes|
    ensures VisibleRevision(nodes[i], known).Some?
    decreases |nodes|
  {
    if i < |nodes| - 1 {
      VisibleNodesAll(nodes[..|nodes| - 1], known, i);
    }
  }

  ghost predicate ShowsId(h: NodeHistory, known: Timestamp, id: Id) {
    h.Id() == id && VisibleRevision(h, known).Some?
  }

  lemma NodeIdsAppend(nodes: seq<MemoryNode>, n: MemoryNode)
    ensures NodeIds(nodes + [n]) == NodeIds(nodes) + {n.id}
  {
    var all := nodes + [n];
    assert all[|nodes|] == n;
    forall x | x in NodeIds(nodes) ensures x in NodeIds(all) {
      var i :| 0 <= i < |nodes| && nodes[i].id == x;
      assert all[i].id == x;
    }
  }

  /** Ids of visible nodes are exactly the ids whose history is visible. */
  lemma {:induction false} VisibleIds(nodes: seq<NodeHistory>, known: Timestamp, id: Id)
    requires forall i | 0 <= i < |nodes| :: HistoryOk(nodes[i])
    ensures id in NodeIds(VisibleNodes(nodes, known)) <==> exists i :: 0 <= i < |nodes| && ShowsId(nodes[i], known, id)
    decreases |nodes|
  {
    if nodes != [] {
      var n := |nodes| - 1;
      var front := nodes[..n];
      VisibleIds(front, known, id);
      VisibleRevisionHasId(nodes[n], known);
      if VisibleRevision(nodes[n], known).Some? {
        NodeIdsAppend(VisibleNodes(front, known), VisibleRevision(nodes[n], known).value);
      }
      assert nodes == front + [nodes[n]];
    }
  }

  lemma SearchMeetsVisibility(p: Projection, id: Id, known: Timestamp)
    requires NodesOk(p.nodes)
    ensures VisibleNode(p.nodes, id, known).Some? <==> id in NodeIds(VisibleNodes(p.nodes, known))
  {
    VisibleIds(p.nodes, known, id);
    if i: nat :| i < |p.nodes| && ShowsId(p.nodes[i], known, id) {
      NodeIndexUnique(p.nodes, i);
    }
    if VisibleNode(p.nodes, id, known).Some? {
      assert ShowsId(p.nodes[NodeIndex(p.nodes, id).value], known, id);
    }
  }

  lemma {:induction false} SelectIsFilter(p: Projection, facts: seq<MemoryFact>, visible: Option<set<Id>>, clock: Clock)
    requires forall i | 0 <= i < |facts| ::
               InView(p, facts[i], clock)
               <==> (visible.Some? ==> facts[i].source in visible.value && facts[i].target in visible.value)
                    && IsActive(p, facts[i], clock)
    ensures SelectFacts(p, facts, visible, clock) == FilterFacts(p, facts, clock)
    decreases |facts|
  {
    if facts != [] {
      SelectIsFilter(p, facts[..|facts| - 1], visible, clock);
    }
  }

  /** A view lists the visible nodes and exactly the active facts between visible nodes, in order,
      whether or not the shortcut was taken. */
  lemma ViewMeaning(p: Projection, clock: Clock)
    requires Consistent(p)
    ensures View(p, clock) == MemoryView(VisibleNodes(p.nodes, clock.knownAt), FilterFacts(p, p.facts, clock))
  {
    var nodes := VisibleNodes(p.nodes, clock.knownAt);
    var visible := if |nodes| != |p.nodes| then Some(NodeIds(nodes)) else None;
    forall i | 0 <= i < |p.facts|
      ensures InView(p, p.facts[i], clock)
              <==> (visible.Some? ==> p.facts[i].source in visible.value && p.facts[i].target in visible.value)
                   && IsActive(p, p.facts[i], clock)
    {
      var f := p.facts[i];
      assert FactOk(p.nodes, f);
      SearchMeetsVisibility(p, f.source, clock.knownAt);
      SearchMeetsVisibility(p, f.target, clock.knownAt);
      if |nodes| == |p.nodes| {
        VisibleNodesAll(p.nodes, clock.knownAt, NodeIndex(p.nodes, f.source).value);
        VisibleNodesAll(p.nodes, clock.knownAt, NodeIndex(p.nodes, f.target).value);
      }
    }
    SelectIsFilter(p, p.facts, visible, clock);
  }

  lemma {:induction false} FilterMember(p: Projection, facts: seq<MemoryFact>, clock: Clock, f: MemoryFact)
    ensures f in FilterFacts(p, facts, clock) <==> f in facts && InView(p, f, clock)
    decreases |facts|
  {
    if facts != [] {
      FilterMember(p, facts[..|facts| - 1], clock, f);
      assert facts == facts[..|facts| - 1] + [facts[|facts| - 1]];
    }
  }

  // ---- The known past is never rewritten --------------------------------------------------------

  lemma {:induction false} FilterCongruent(p: Projection, q: Projection, facts: seq<MemoryFact>, clock: Clock)
    requires forall i | 0 <= i < |facts| :: InView(p, facts[i], clock) <==> InView(q, facts[i], clock)
    ensures FilterFacts(p, facts, clock) == FilterFacts(q, facts, clock)
    decreases |facts|
  {
    if facts != [] {
      FilterCongruent(p, q, facts[..|facts| - 1], clock);
    }
  }

  lemma {:induction false} VisibleNodesCongruent(a: seq<NodeHistory>, b: seq<NodeHistory>, known: Timestamp)
    requires |a| == |b| && forall i | 0 <= i < |a| :: VisibleRevision(a[i], known) == VisibleRevision(b[i], known)
    ensures VisibleNodes(a, known) == VisibleNodes(b, known)
    decreases |a|
  {
    if a != [] {
      VisibleNodesCongruent(a[..|a| - 1], b[..|b| - 1], known);
    }
  }

  lemma RevisionKeepsPast(nodes: seq<NodeHistory>, i: nat, r: NodeRevision, known: Timestamp)
    requires i < |nodes| && r.recordedAt > known
    ensures var after := nodes[i := nodes[i].(later := nodes[i].later + [r])];
            && VisibleNodes(after, known) == VisibleNodes(nodes, known)
            && forall id :: VisibleNode(after, id, known) == VisibleNode(nodes, id, known)
  {
    var after := nodes[i := nodes[i].(later := nodes[i].later + [r])];
    assert after[i].Revisions() == nodes[i].Revisions() + [r];
    LatestIgnoresFuture(nodes[i].Revisions(), r, known);
    hide Latest, NodeIndex;
    assert forall j | 0 <= j < |nodes| :: VisibleRevision(after[j], known) == VisibleRevision(nodes[j], known);
    VisibleNodesCongruent(after, nodes, known);
    forall id ensures VisibleNode(after, id, known) == VisibleNode(nodes, id, known) {
      NodeIndexSameIds(nodes, after, id);
    }
  }

  lemma NewNodeKeepsPast(nodes: seq<NodeHistory>, r: NodeRevision, known: Timestamp)
    requires r.recordedAt > known && !HasNode(nodes, r.node.id)
    ensures var after := nodes + [NodeHistory(r, [])];
            && VisibleNodes(after, known) == VisibleNodes(nodes, known)
            && forall id :: VisibleNode(after, id, known) == VisibleNode(nodes, id, known)
  {
    var h := NodeHistory(r, []);
    var after := nodes + [h];
    assert h.Revisions() == [] + [r];
    LatestIgnoresFuture([], r, known);
    assert VisibleRevision(h, known) == None;
    assert after[..|nodes|] == nodes;
    hide Latest;
    forall id ensures VisibleNode(after, id, known) == VisibleNode(nodes, id, known) {
      NodeIndexAppend(nodes, h, id);
    }
  }

  /** A revision recorded later shows no node that was not already visible, and hides none. */
  lemma NodeKeepsPast(p: Projection, r: NodeRevision, known: Timestamp)
    requires InsertNode(p, r).Ok? && r.recordedAt > known
    ensures var q := InsertNode(p, r).value;
            && VisibleNodes(q.nodes, known) == VisibleNodes(p.nodes, known)
            && (forall id :: VisibleNode(q.nodes, id, known) == VisibleNode(p.nodes, id, known))
            && q.supersessions == p.supersessions && q.retractions == p.retractions && q.facts == p.facts
  {
    hide VisibleNode, VisibleNodes;
    match NodeIndex(p.nodes, r.node.id)
    case Some(i) => RevisionKeepsPast(p.nodes, i, r, known);
    case None => NewNodeKeepsPast(p.nodes, r, known);
  }

  lemma FactKeepsPast(p: Projection, fact: MemoryFact, clock: Clock)
    requires InsertFact(p, fact).Ok? && fact.recordedAt > clock.knownAt
    ensures var q := InsertFact(p, fact).value;
            FilterFacts(q, q.facts, clock) == FilterFacts(p, p.facts, clock)
  {
    InsertFactShape(p, fact);
    var q := InsertFact(p, fact).value;
    assert q.facts[..|p.facts|] == p.facts;
    FilterCongruent(q, p, p.facts, clock);
  }

  /** Retracting `id` again would lift an earlier retraction that was already known at `known`
      and that alone kept its fact out of some view. */
  ghost predicate LiftsRetraction(p: Projection, id: Id, known: Timestamp) {
    && id in p.retractions
    && p.retractions[id].recordedAt <= known
    && HasFact(p.facts, id)
    && var f := p.facts[FactIndex(p.facts, id).value];
       var end := p.retractions[id].validUntil;
       && f.recordedAt <= known
       && EndpointsVisible(p.nodes, f, known)
       && (f.validUntil.Some? ==> end < f.validUntil.value)
       && (id in p.supersessions && p.supersessions[id].recordedAt <= known ==> end < p.supersessions[id].validFrom)
  }

  ghost predicate RewritesPast(p: Projection, event: StoredEvent<MemoryEvent>, known: Timestamp) {
    event.payload.FactRetracted? && LiftsRetraction(p, event.payload.factId, known)
  }

  ghost predicate RetractionStep(p: Projection, q: Projection, id: Id, r: Retraction) {
    q == p.(retractions := p.retractions[id := r], lastPosition := q.lastPosition)
  }

  lemma RetractionKeepsFact(p: Projection, q: Projection, id: Id, r: Retraction, i: nat, clock: Clock)
    requires FactIdsUnique(p.facts) && i < |p.facts| && RetractionStep(p, q, id, r)
    requires id in p.retractions ==> RetractionBacked(p.facts, id, p.retractions[id])
    requires r.recordedAt > clock.knownAt && !LiftsRetraction(p, id, clock.knownAt)
    ensures InView(q, p.facts[i], clock) <==> InView(p, p.facts[i], clock)
  {
    var f := p.facts[i];
    FactIndexUnique(p.facts, i);
    if f.id == id {
      assert !RetractedAt(q, id, clock);
      if RetractedAt(p, id, clock) {
        assert !(EndpointsVisible(p.nodes, f, clock.knownAt) && HoldsAt(f, clock) && !SupersededAt(p, id, clock));
      }
    } else {
      assert RetractedAt(q, f.id, clock) <==> RetractedAt(p, f.id, clock);
    }
  }

  ghost predicate SamePast(p: Projection, q: Projection, known: Timestamp) {
    forall validAt: Timestamp :: View(q, Clock(validAt, known)) == View(p, Clock(validAt, known))
  }

  lemma PositionUnseen(p: Projection, position: Option<u64>, clock: Clock)
    ensures View(p.(lastPosition := position), clock) == View(p, clock)
    ensures FilterFacts(p.(lastPosition := position), p.facts, clock) == FilterFacts(p, p.facts, clock)
  {
    var q := p.(lastPosition := position);
    FilterCongruent(q, p, p.facts, clock);
    SelectCongruent(q, p, p.facts, clock);
  }

  lemma {:induction false} SelectCongruent(p: Projection, q: Projection, facts: seq<MemoryFact>, clock: Clock)
    requires p.supersessions == q.supersessions && p.retractions == q.retractions
    ensures forall visible :: SelectFacts(p, facts, visible, clock) == SelectFacts(q, facts, visible, clock)
    decreases |facts|
  {
    if facts != [] {
      SelectCongruent(p, q, facts[..|facts| - 1], clock);
    }
  }

  lemma SameSurroundings(p: Projection, q: Projection, f: MemoryFact, clock: Clock)
    requires forall id :: VisibleNode(q.nodes, id, clock.knownAt) == VisibleNode(p.nodes, id, clock.knownAt)
    requires p.supersessions == q.supersessions && p.retractions == q.retractions
    ensures InView(q, f, clock) <==> InView(p, f, clock)
  {}

  lemma UpsertKeepsView(p: Projection, r: NodeRevision, clock: Clock)
    requires Consistent(p) && InsertNode(p, r).Ok? && r.recordedAt > clock.knownAt
    ensures View(InsertNode(p, r).value, clock) == View(p, clock)
  {
    var q := InsertNode(p, r).value;
    InsertNodeInv(p, r);
    ViewMeaning(p, clock);
    ViewMeaning(q, clock);
    NodeKeepsPast(p, r, clock.knownAt);
    forall i | 0 <= i < |p.facts| ensures InView(q, p.facts[i], clock) <==> InView(p, p.facts[i], clock) {
      SameSurroundings(p, q, p.facts[i], clock);
    }
    FilterCongruent(q, p, p.facts, clock);
  }

  lemma RecordKeepsView(p: Projection, fact: MemoryFact, clock: Clock)
    requires Consistent(p) && InsertFact(p, fact).Ok? && fact.recordedAt > clock.knownAt
    ensures View(InsertFact(p, fact).value, clock) == View(p, clock)
  {
    InsertFactInv(p, fact);
    ViewMeaning(p, clock);
    ViewMeaning(InsertFact(p, fact).value, clock);
    InsertFactShape(p, fact);
    FactKeepsPast(p, fact, clock);
  }

  lemma RetractionKeepsView(p: Projection, event: StoredEvent<MemoryEvent>, clock: Clock)
    requires Consistent(p) && event.payload.FactRetracted? && Apply(p, event).Ok?
    requires event.metadata.recordedAt > clock.knownAt && !RewritesPast(p, event, clock.knownAt)
    ensures View(Apply(p, event).value, clock) == View(p, clock)
  {
    var q := Apply(p, event).value;
    RetractionShape(p, event);
    ApplyInv(p, event);
    ViewMeaning(p, clock);
    ViewMeaning(q, clock);
    forall i | 0 <= i < |p.facts| ensures InView(q, p.facts[i], clock) <==> InView(p, p.facts[i], clock) {
      RetractionKeepsFact(p, q, event.payload.factId,
                          Retraction(event.payload.validUntil, event.metadata.recordedAt), i, clock);
    }
    FilterCongruent(q, p, p.facts, clock);
  }

  lemma EventKeepsView(p: Projection, event: StoredEvent<MemoryEvent>, clock: Clock)
    requires Consistent(p) && Apply(p, event).Ok? && event.metadata.recordedAt > clock.knownAt
    requires !RewritesPast(p, event, clock.knownAt)
    ensures View(Apply(p, event).value, clock) == View(p, clock)
  {
    hide Consistent;
    var m := event.metadata;
    match event.payload {
      case NodeUpserted(node) => UpsertKeepsView(p, NodeRevision(node, m.recordedAt, m.globalPosition), clock);
      case FactRecorded(fact) => RecordKeepsView(p, fact, clock);
      case FactRetracted(_, _, _) => RetractionKeepsView(p, event, clock);
    }
    PositionUnseen(ApplyPayload(p, event).value, Some(m.globalPosition), clock);
  }

  lemma ShownMeans(p: Projection, clock: Clock, f: MemoryFact)
    requires Consistent(p)
    ensures f in View(p, clock).facts <==> f in p.facts && InView(p, f, clock)
  {
    hide Consistent, InView, View, FilterFacts;
    ViewMeaning(p, clock);
    FilterMember(p, p.facts, clock, f);
  }

  /** The one way the past can change: the fact reappears at the instant its old retraction began. */
  lemma ReappearsHere(p: Projection, event: StoredEvent<MemoryEvent>, known: Timestamp)
    requires Consistent(p) && Apply(p, event).Ok? && event.metadata.recordedAt > known && RewritesPast(p, event, known)
    ensures var id := event.payload.factId;
            var clock := Clock(p.retractions[id].validUntil, known);
            var f := p.facts[FactIndex(p.facts, id).value];
            f !in View(p, clock).facts && f in View(Apply(p, event).value, clock).facts
  {
    hide View, EndpointsVisible, NodesOk, FactsOk;
    var q, id := Apply(p, event).value, event.payload.factId;
    var clock := Clock(p.retractions[id].validUntil, known);
    var f := p.facts[FactIndex(p.facts, id).value];
    RetractionShape(p, event);
    ApplyInv(p, event);
    assert RetractionBacked(p.facts, id, p.retractions[id]);
    ShownMeans(p, clock, f);
    ShownMeans(q, clock, f);
  }

  /** Recording something after `known` changes what was known then if, and only if, it lifts
      a retraction already known by then. */
  lemma KnownPastKept(p: Projection, event: StoredEvent<MemoryEvent>, known: Timestamp)
    requires Consistent(p) && Apply(p, event).Ok? && event.metadata.recordedAt > known
    ensures SamePast(p, Apply(p, event).value, known) <==> !RewritesPast(p, event, known)
  {
    hide Consistent, Apply, View;
    var q := Apply(p, event).value;
    if RewritesPast(p, event, known) {
      var clock := Clock(p.retractions[event.payload.factId].validUntil, known);
      ReappearsHere(p, event, known);
      assert View(q, clock) != View(p, clock);
    } else {
      forall validAt: Timestamp ensures View(q, Clock(validAt, known)) == View(p, Clock(validAt, known)) {
        EventKeepsView(p, event, Clock(validAt, known));
      }
    }
  }

  /** Events applied one after another. */
  function ApplyAll(p: Projection, events: seq<StoredEvent<MemoryEvent>>): Result<Projection>
    decreases |events|
  {
    if events == [] then Ok(p)
    else
      var next :- Apply(p, events[0]);
      ApplyAll(next, events[1..])
  }

  /** All events of the run are recorded after `known`. */
  ghost predicate AllLater(events: seq<StoredEvent<MemoryEvent>>, known: Timestamp) {
    forall i | 0 <= i < |events| :: events[i].metadata.recordedAt > known
  }

  /** No event of the run lifts a retraction known at `known`. */
  ghost predicate RunKeepsPast(p: Projection, events: seq<StoredEvent<MemoryEvent>>, known: Timestamp)
    decreases |events|
  {
    events != [] ==>
      && !RewritesPast(p, events[0], known)
      && (Apply(p, events[0]).Ok? ==> RunKeepsPast(Apply(p, events[0]).value, events[1..], known))
  }

  /** A fact shown at a clock is never hidden from it by what is recorded later. */
  lemma ShownStays(p: Projection, event: StoredEvent<MemoryEvent>, clock: Clock, f: MemoryFact)
    requires Consistent(p) && Apply(p, event).Ok? && event.metadata.recordedAt > clock.knownAt
    requires f in View(p, clock).facts
    ensures f in View(Apply(p, event).value, clock).facts
  {
    hide Consistent, View, EndpointsVisible;
    var q := Apply(p, event).value;
    if RewritesPast(p, event, clock.knownAt) {
      RetractionShape(p, event);
      ApplyInv(p, event);
      ShownMeans(p, clock, f);
      ShownMeans(q, clock, f);
    } else {
      EventKeepsView(p, event, clock);
    }
  }

  lemma {:induction false} ShownForever(p: Projection, events: seq<StoredEvent<MemoryEvent>>, clock: Clock, f: MemoryFact)
    requires Consistent(p) && ApplyAll(p, events).Ok? && AllLater(events, clock.knownAt)
    requires f in View(p, clock).facts
    ensures f in View(ApplyAll(p, events).value, clock).facts
    decreases |events|
  {
    hide Consistent, View, Apply;
    if events != [] {
      ApplyInv(p, events[0]);
      ShownStays(p, events[0], clock, f);
      ShownForever(Apply(p, events[0]).value, events[1..], clock, f);
    }
  }

  /** A lifted retraction brings its fact back at some clock, and no later event takes it away again. */
  lemma RewriteLasts(p: Projection, events: seq<StoredEvent<MemoryEvent>>, known: Timestamp)
    requires Consistent(p) && ApplyAll(p, events).Ok? && AllLater(events, known)
    requires events != [] && RewritesPast(p, events[0], known)
    ensures !SamePast(p, ApplyAll(p, events).value, known)
  {
    hide Consistent, View, EndpointsVisible;
    var event := events[0];
    var q, id := Apply(p, event).value, event.payload.factId;
    var clock := Clock(p.retractions[id].validUntil, known);
    var f := p.facts[FactIndex(p.facts, id).value];
    RetractionShape(p, event);
    ApplyInv(p, event);
    ReappearsHere(p, event, known);
    ShownForever(q, events[1..], clock, f);
    assert View(ApplyAll(p, events).value, clock) != View(p, clock);
  }

  /** Over whole runs of later events: everything known by `known` stays as it was if, and only if, no
      event of the run lifts a retraction already known by then. */
  lemma {:induction false} KnownPastKeptByRuns(p: Projection, events: seq<StoredEvent<MemoryEvent>>, known: Timestamp)
    requires Consistent(p) && ApplyAll(p, events).Ok? && AllLater(events, known)
    ensures Consistent(ApplyAll(p, events).value)
    ensures SamePast(p, ApplyAll(p, events).value, known) <==> RunKeepsPast(p, events, known)
    decreases |events|
  {
    hide Consistent, Apply, RewritesPast, View;
    if events != [] {
      var next := Apply(p, events[0]).value;
      ApplyInv(p, events[0]);
      KnownPastKept(p, events[0], known);
      KnownPastKeptByRuns(next, events[1..], known);
      if RewritesPast(p, events[0], known) {
        RewriteLasts(p, events, known);
      }
    }
  }

  // ---- Supersession chains ------------------------------------------------------------------------

  /** The map holds exactly the replacements the facts themselves declare. */
  lemma SupersessionsDetermined(p: Projection, prior: Id, s: Supersession)
    requires Inv(p)
    ensures prior in p.supersessions && p.supersessions[prior] == s
            <==> exists j :: 0 <= j < |p.facts| && p.facts[j].supersedes == Some(prior) && s == SupersessionBy(p.facts[j])
  {
    if prior in p.supersessions && p.supersessions[prior] == s {
      assert SupersessionBacked(p.facts, prior, s);
      var j := FactIndex(p.facts, s.replacement).value;
      assert p.facts[j].supersedes == Some(prior) && s == SupersessionBy(p.facts[j]);
    }
    if j: nat :| j < |p.facts| && p.facts[j].supersedes == Some(prior) && s == SupersessionBy(p.facts[j]) {
      assert ReplacementRegistered(p, j);
    }
  }

  /** Replacements are younger than what they replace, so chains cannot close into a cycle. */
  lemma ReplacementIsLater(p: Projection, prior: Id)
    requires Inv(p) && prior in p.supersessions
    ensures HasFact(p.facts, prior) && HasFact(p.facts, p.supersessions[prior].replacement)
    ensures FactIndex(p.facts, prior).value < FactIndex(p.facts, p.supersessions[prior].replacement).value
  {
    assert SupersessionBacked(p.facts, prior, p.supersessions[prior]);
    assert ReplacementRegistered(p, FactIndex(p.facts, p.supersessions[prior].replacement).value);
  }

  /** Fact indexes in which each fact replaces the one before it. */
  ghost predicate Chain(p: Projection, chain: seq<nat>) {
    && (forall i | 0 <= i < |chain| :: chain[i] < |p.facts|)
    && forall i | 0 <= i < |chain| - 1 :: p.facts[chain[i + 1]].supersedes == Some(p.facts[chain[i]].id)
  }

  /** Neither time axis runs backwards along the chain. */
  ghost predicate TimesAscend(p: Projection, chain: seq<nat>)
    requires Chain(p, chain)
  {
    forall i | 0 <= i < |chain| - 1 ::
      && p.facts[chain[i]].validFrom <= p.facts[chain[i + 1]].validFrom
      && p.facts[chain[i]].recordedAt <= p.facts[chain[i + 1]].recordedAt
  }

  /** A fact and its direct replacement are never both active. */
  lemma ReplacementHidesPrior(p: Projection, i: nat, j: nat, clock: Clock)
    requires FactIdsUnique(p.facts) && SupersessionsComplete(p)
    requires i < |p.facts| && j < |p.facts| && p.facts[j].supersedes == Some(p.facts[i].id)
    ensures i < j
    ensures p.facts[j].recordedAt <= clock.knownAt && p.facts[j].validFrom <= clock.validAt
            ==> !IsActive(p, p.facts[i], clock)
    ensures !(IsActive(p, p.facts[i], clock) && IsActive(p, p.facts[j], clock))
  {
    assert ReplacementRegistered(p, j);
    FactIndexUnique(p.facts, i);
  }

  lemma {:induction false} AscendingTimes(p: Projection, chain: seq<nat>, i: nat, j: nat)
    requires Chain(p, chain) && TimesAscend(p, chain) && i <= j < |chain|
    ensures p.facts[chain[i]].validFrom <= p.facts[chain[j]].validFrom
    ensures p.facts[chain[i]].recordedAt <= p.facts[chain[j]].recordedAt
    decreases j - i
  {
    if i < j {
      AscendingTimes(p, chain, i, j - 1);
      var k := j - 1;
      assert p.facts[chain[k]].validFrom <= p.facts[chain[k + 1]].validFrom
          && p.facts[chain[k]].recordedAt <= p.facts[chain[k + 1]].recordedAt;
    }
  }

  /** Along a chain whose times ascend, at most one fact is active at any clock. */
  lemma ChainHasOneActive(p: Projection, chain: seq<nat>, i: nat, j: nat, clock: Clock)
    requires Inv(p) && Chain(p, chain) && TimesAscend(p, chain) && i < j < |chain|
    ensures !(IsActive(p, p.facts[chain[i]], clock) && IsActive(p, p.facts[chain[j]], clock))
  {
    AscendingTimes(p, chain, i + 1, j);
    assert p.facts[chain[i + 1]].supersedes == Some(p.facts[chain[i]].id);
    ReplacementHidesPrior(p, chain[i], chain[i + 1], clock);
  }
}
