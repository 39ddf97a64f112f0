/** The bitemporal projection as a value, with lookups by plain search.

    This is the simple form that the indexed `MemoryProjection` object refines: every
    event either is rejected with an error or yields the next projection.
 */
module Projections {
  import opened Common
  import opened Domain

  datatype NodeRevision = NodeRevision(node: MemoryNode, recordedAt: Timestamp, position: u64)

  datatype NodeHistory = NodeHistory(first: NodeRevision, later: seq<NodeRevision>) {
    function Id(): Id {
      first.node.id
    }

    function Revisions(): (r: seq<NodeRevision>)
      ensures |r| == |later| + 1
    {
      [first] + later
    }
  }

  datatype Supersession = Supersession(replacement: Id, validFrom: Timestamp, recordedAt: Timestamp)

  datatype Retraction = Retraction(validUntil: Timestamp, recordedAt: Timestamp)

  datatype Projection = Projection(
    nodes: seq<NodeHistory>,
    facts: seq<MemoryFact>,
    supersessions: map<Id, Supersession>,
    retractions: map<Id, Retraction>,
    lastPosition: Option<u64>)

  const EMPTY := Projection([], [], map[], map[], None)

  // ---- Search --------------------------------------------------------------------

  function NodeIndex(nodes: seq<NodeHistory>, id: Id): (r: Option<nat>)
    ensures r.Some? ==> r.value < |nodes| && nodes[r.value].Id() == id
    ensures r.None? ==> forall i | 0 <= i < |nodes| :: nodes[i].Id() != id
  {
    if nodes == [] then None
    else if nodes[|nodes| - 1].Id() == id then Some(|nodes| - 1)
    else NodeIndex(nodes[..|nodes| - 1], id)
  }

  function FactIndex(facts: seq<MemoryFact>, id: Id): (r: Option<nat>)
    ensures r.Some? ==> r.value < |facts| && facts[r.value].id == id
    ensures r.None? ==> forall i | 0 <= i < |facts| :: facts[i].id != id
  {
    if facts == [] then None
    else if facts[|facts| - 1].id == id then Some(|facts| - 1)
    else FactIndex(facts[..|facts| - 1], id)
  }

  predicate HasNode(nodes: seq<NodeHistory>, id: Id) {
    NodeIndex(nodes, id).Some?
  }

  predicate HasFact(facts: seq<MemoryFact>, id: Id) {
    FactIndex(facts, id).Some?
  }

  // ---- The three events -------------------------------------------------------------

  function SupersessionBy(fact: MemoryFact): Supersession {
    Supersession(fact.id, fact.validFrom, fact.recordedAt)
  }

  function InsertNode(p: Projection, revision: NodeRevision): Result<Projection> {
    if !NodeValid(revision.node) then Err(InvalidValue)
    else
      match NodeIndex(p.nodes, revision.node.id)
      case Some(i) =>
        var h := p.nodes[i];
        Ok(p.(nodes := p.nodes[i := h.(later := h.later + [revision])]))
      case None =>
        Ok(p.(nodes := p.nodes + [NodeHistory(revision, [])]))
  }

  /** The checks and the map update a replacement fact causes, against any set of known facts. */
  function Supersede(known: set<Id>, supersessions: map<Id, Supersession>, prior: Id, fact: MemoryFact)
    : Result<map<Id, Supersession>>
  {
    if prior !in known then Err(MissingFact(prior))
    else if prior in supersessions then Err(ConflictingFact(prior))
    else Ok(supersessions[prior := SupersessionBy(fact)])
  }

  function FactIds(facts: seq<MemoryFact>): set<Id> {
    set i | 0 <= i < |facts| :: facts[i].id
  }

  /** The first check a new fact fails, apart from what it supersedes. */
  function FactError(p: Projection, fact: MemoryFact): (r: Option<Error>)
    ensures r.None? <==> FactValid(fact) && HasNode(p.nodes, fact.source) && HasNode(p.nodes, fact.target)
                         && !HasFact(p.facts, fact.id)
  {
    if !FactValid(fact) then Some(InvalidValue)
    else if !HasNode(p.nodes, fact.source) then Some(MissingEntity(fact.source))
    else if !HasNode(p.nodes, fact.target) then Some(MissingEntity(fact.target))
    else if HasFact(p.facts, fact.id) then Some(ConflictingFact(fact.id))
    else None
  }

  function InsertFact(p: Projection, fact: MemoryFact): Result<Projection> {
    match FactError(p, fact)
    case Some(e) => Err(e)
    case None =>
      match fact.supersedes
      case None => Ok(p.(facts := p.facts + [fact]))
      case Some(prior) =>
        var supersessions :- Supersede(FactIds(p.facts), p.supersessions, prior, fact);
        Ok(p.(facts := p.facts + [fact], supersessions := supersessions))
  }

  function RetractFact(p: Projection, recordedAt: Timestamp, factId: Id, validUntil: Timestamp, evidence: seq<Evidence>)
    : Result<Projection>
  {
    match FactIndex(p.facts, factId)
    case None => Err(MissingFact(factId))
    case Some(i) =>
      if validUntil <= p.facts[i].validFrom then Err(InvalidValue)
      else if evidence == [] || !AllEvidenceValid(evidence) then Err(InvalidValue)
      else Ok(p.(retractions := p.retractions[factId := Retraction(validUntil, recordedAt)]))
  }

  /** Does the envelope of a recorded fact carry the fact's own provenance? */
  predicate EnvelopeMatches(metadata: EventMetadata, fact: MemoryFact) {
    fact.recordedAt == metadata.recordedAt && fact.agentId == metadata.agentId && fact.sessionId == metadata.sessionId
  }

  function ApplyPayload(p: Projection, event: StoredEvent<MemoryEvent>): Result<Projection> {
    var m := event.metadata;
    match event.payload
    case NodeUpserted(node) => InsertNode(p, NodeRevision(node, m.recordedAt, m.globalPosition))
    case FactRecorded(fact) => if EnvelopeMatches(m, fact) then InsertFact(p, fact) else Err(InvalidValue)
    case FactRetracted(id, until, evidence) => RetractFact(p, m.recordedAt, id, until, evidence)
  }

  function Apply(p: Projection, event: StoredEvent<MemoryEvent>): Result<Projection> {
    if event.metadata.eventType != TypeOf(event.payload) then Err(InvalidValue)
    else
      var next :- ApplyPayload(p, event);
      Ok(next.(lastPosition := Some(event.metadata.globalPosition)))
  }

  // ---- What every reachable projection satisfies ----------------------------------------

  ghost predicate NodeIdsUnique(nodes: seq<NodeHistory>) {
    forall i, j | 0 <= i < j < |nodes| :: nodes[i].Id() != nodes[j].Id()
  }

  ghost predicate FactIdsUnique(facts: seq<MemoryFact>) {
    forall i, j | 0 <= i < j < |facts| :: facts[i].id != facts[j].id
  }

  predicate HistoryOk(h: NodeHistory) {
    forall k | 0 <= k < |h.Revisions()| :: NodeValid(h.Revisions()[k].node) && h.Revisions()[k].node.id == h.Id()
  }

  ghost predicate NodesOk(nodes: seq<NodeHistory>) {
    NodeIdsUnique(nodes) && forall i | 0 <= i < |nodes| :: HistoryOk(nodes[i])
  }

  ghost predicate FactOk(nodes: seq<NodeHistory>, f: MemoryFact) {
    FactValid(f) && HasNode(nodes, f.source) && HasNode(nodes, f.target)
  }

  ghost predicate FactsOk(nodes: seq<NodeHistory>, facts: seq<MemoryFact>) {
    FactIdsUnique(facts) && forall i | 0 <= i < |facts| :: FactOk(nodes, facts[i])
  }

  /** The entry for `prior` is backed by a fact that replaces it. */
  ghost predicate SupersessionBacked(facts: seq<MemoryFact>, prior: Id, s: Supersession) {
    && HasFact(facts, prior)
    && HasFact(facts, s.replacement)
    && var f := facts[FactIndex(facts, s.replacement).value];
       f.supersedes == Some(prior) && s == SupersessionBy(f)
  }

  ghost predicate RetractionBacked(facts: seq<MemoryFact>, id: Id, r: Retraction) {
    HasFact(facts, id) && facts[FactIndex(facts, id).value].validFrom < r.validUntil
  }

  /** What index rebuilding checks of a decoded projection. */
  ghost predicate Consistent(p: Projection) {
    && NodesOk(p.nodes)
    && FactsOk(p.nodes, p.facts)
    && (forall k | k in p.supersessions :: SupersessionBacked(p.facts, k, p.supersessions[k]))
    && (forall k | k in p.retractions :: RetractionBacked(p.facts, k, p.retractions[k]))
  }

  /** A fact that replaces another points to an earlier fact and owns the map entry. */
  ghost predicate ReplacementRegistered(p: Projection, j: nat)
    requires j < |p.facts|
  {
    var f := p.facts[j];
    f.supersedes.Some? ==>
      && f.supersedes.value in p.supersessions
      && p.supersessions[f.supersedes.value] == SupersessionBy(f)
      && HasFact(p.facts, f.supersedes.value)
      && FactIndex(p.facts, f.supersedes.value).value < j
  }

  /** What replay adds: the supersession map holds every replacement, each of an earlier fact. */
  ghost predicate SupersessionsComplete(p: Projection) {
    forall j | 0 <= j < |p.facts| :: ReplacementRegistered(p, j)
  }

  ghost predicate Inv(p: Projection) {
    Consistent(p) && SupersessionsComplete(p)
  }

  // ---- Search lemmas -----------------------------------------------------------------------

  lemma NodeIndexUnique(nodes: seq<NodeHistory>, i: nat)
    requires NodeIdsUnique(nodes) && i < |nodes|
    ensures NodeIndex(nodes, nodes[i].Id()) == Some(i)
  {}

  lemma FactIndexUnique(facts: seq<MemoryFact>, i: nat)
    requires FactIdsUnique(facts) && i < |facts|
    ensures FactIndex(facts, facts[i].id) == Some(i)
  {}

  lemma FactIndexAppend(facts: seq<MemoryFact>, f: MemoryFact, id: Id)
    ensures FactIndex(facts + [f], id) == if f.id == id then Some(|facts|) else FactIndex(facts, id)
  {
    assert (facts + [f])[..|facts|] == facts;
  }

  lemma NodeIndexAppend(nodes: seq<NodeHistory>, h: NodeHistory, id: Id)
    ensures NodeIndex(nodes + [h], id) == if h.Id() == id then Some(|nodes|) else NodeIndex(nodes, id)
  {
    assert (nodes + [h])[..|nodes|] == nodes;
  }

  lemma {:induction false} NodeIndexSameIds(a: seq<NodeHistory>, b: seq<NodeHistory>, id: Id)
    requires |a| == |b| && forall i | 0 <= i < |a| :: a[i].Id() == b[i].Id()
    ensures NodeIndex(a, id) == NodeIndex(b, id)
    decreases |a|
  {
    if a != [] {
      NodeIndexSameIds(a[..|a| - 1], b[..|b| - 1], id);
    }
  }

  lemma FactIdsSearch(facts: seq<MemoryFact>, id: Id)
    ensures id in FactIds(facts) <==> HasFact(facts, id)
  {
    if HasFact(facts, id) {
      assert facts[FactIndex(facts, id).value].id == id;
    }
  }

  /** Known nodes stay known when an event is applied. */
  lemma InsertNodeKeepsNodes(p: Projection, r: NodeRevision, id: Id)
    requires InsertNode(p, r).Ok?
    ensures HasNode(InsertNode(p, r).value.nodes, id) <==> HasNode(p.nodes, id) || id == r.node.id
  {
    var q := InsertNode(p, r).value;
    match NodeIndex(p.nodes, r.node.id)
    case Some(i) => NodeIndexSameIds(p.nodes, q.nodes, id);
    case None => NodeIndexAppend(p.nodes, NodeHistory(r, []), id);
  }

  // ---- Every accepted event preserves the invariant --------------------------------------------

  lemma EmptyInv()
    ensures Inv(EMPTY)
  {}

  lemma AddRevisionOk(nodes: seq<NodeHistory>, i: nat, r: NodeRevision)
    requires NodesOk(nodes) && i < |nodes| && NodeValid(r.node) && r.node.id == nodes[i].Id()
    ensures NodesOk(nodes[i := nodes[i].(later := nodes[i].later + [r])])
  {
    var h := nodes[i];
    var h' := h.(later := h.later + [r]);
    assert h'.Revisions() == h.Revisions() + [r];
    assert HistoryOk(h') by {
      assert HistoryOk(h);
    }
  }

  lemma AddNodeOk(nodes: seq<NodeHistory>, r: NodeRevision)
    requires NodesOk(nodes) && NodeValid(r.node) && !HasNode(nodes, r.node.id)
    ensures NodesOk(nodes + [NodeHistory(r, [])])
  {
    assert HistoryOk(NodeHistory(r, []));
  }

  lemma FactsOkWithMoreNodes(a: seq<NodeHistory>, b: seq<NodeHistory>, facts: seq<MemoryFact>)
    requires FactsOk(a, facts)
    requires forall id: Id :: HasNode(a, id) ==> HasNode(b, id)
    ensures FactsOk(b, facts)
  {
    forall i | 0 <= i < |facts| ensures FactOk(b, facts[i]) {
      assert FactOk(a, facts[i]);
    }
  }

  /** Acceptance leads from consistent states to consistent states, and a complete supersession
      map stays complete. */
  ghost predicate Preserved(p: Projection, q: Projection) {
    Consistent(q) && (SupersessionsComplete(p) ==> SupersessionsComplete(q))
  }

  lemma SameFactsComplete(p: Projection, q: Projection)
    requires SupersessionsComplete(p) && p.facts == q.facts && p.supersessions == q.supersessions
    ensures SupersessionsComplete(q)
  {
    forall j | 0 <= j < |q.facts| ensures ReplacementRegistered(q, j) {
      assert ReplacementRegistered(p, j);
    }
  }

  lemma InsertNodeInv(p: Projection, r: NodeRevision)
    requires Consistent(p) && InsertNode(p, r).Ok?
    ensures Preserved(p, InsertNode(p, r).value)
  {
    var q := InsertNode(p, r).value;
    assert FactsOk(q.nodes, q.facts) by {
      forall id: Id | HasNode(p.nodes, id) ensures HasNode(q.nodes, id) {
        InsertNodeKeepsNodes(p, r, id);
      }
      FactsOkWithMoreNodes(p.nodes, q.nodes, p.facts);
    }
    assert NodesOk(q.nodes) by {
      match NodeIndex(p.nodes, r.node.id)
      case Some(i) => AddRevisionOk(p.nodes, i, r);
      case None => AddNodeOk(p.nodes, r);
    }
    if SupersessionsComplete(p) {
      SameFactsComplete(p, q);
    }
  }

  lemma AddFactOk(nodes: seq<NodeHistory>, facts: seq<MemoryFact>, f: MemoryFact)
    requires FactsOk(nodes, facts) && FactOk(nodes, f) && !HasFact(facts, f.id)
    ensures FactsOk(nodes, facts + [f])
  {}

  /** A new fact leaves the backing of existing entries in place. */
  lemma SupersessionKept(facts: seq<MemoryFact>, f: MemoryFact, k: Id, s: Supersession)
    requires !HasFact(facts, f.id) && SupersessionBacked(facts, k, s)
    ensures SupersessionBacked(facts + [f], k, s)
  {
    FactIndexAppend(facts, f, k);
    FactIndexAppend(facts, f, s.replacement);
  }

  lemma RetractionKept(facts: seq<MemoryFact>, f: MemoryFact, k: Id, r: Retraction)
    requires !HasFact(facts, f.id) && RetractionBacked(facts, k, r)
    ensures RetractionBacked(facts + [f], k, r)
  {
    FactIndexAppend(facts, f, k);
  }

  lemma SupersessionAdded(facts: seq<MemoryFact>, f: MemoryFact, k: Id)
    requires !HasFact(facts, f.id) && HasFact(facts, k) && f.supersedes == Some(k)
    ensures SupersessionBacked(facts + [f], k, SupersessionBy(f))
  {
    FactIndexAppend(facts, f, k);
    FactIndexAppend(facts, f, f.id);
  }

  /** What an accepted fact does to the supersession map. */
  ghost predicate SupersessionStep(p: Projection, q: Projection, fact: MemoryFact) {
    match fact.supersedes
    case None => q.supersessions == p.supersessions
    case Some(prior) =>
      && HasFact(p.facts, prior)
      && prior !in p.supersessions
      && q.supersessions == p.supersessions[prior := SupersessionBy(fact)]
  }

  lemma InsertFactShape(p: Projection, fact: MemoryFact)
    requires InsertFact(p, fact).Ok?
    ensures var q := InsertFact(p, fact).value;
            && FactOk(p.nodes, fact)
            && !HasFact(p.facts, fact.id)
            && q == p.(facts := p.facts + [fact], supersessions := q.supersessions)
            && SupersessionStep(p, q, fact)
  {
    if fact.supersedes.Some? {
      FactIdsSearch(p.facts, fact.supersedes.value);
    }
  }

  lemma NewFactRegistered(p: Projection, q: Projection, fact: MemoryFact, j: nat)
    requires SupersessionsComplete(p) && j <= |p.facts|
    requires !HasFact(p.facts, fact.id) && q.facts == p.facts + [fact] && SupersessionStep(p, q, fact)
    ensures ReplacementRegistered(q, j)
  {
    if q.facts[j].supersedes.Some? {
      FactIndexAppend(p.facts, fact, q.facts[j].supersedes.value);
      if j < |p.facts| {
        assert ReplacementRegistered(p, j);
      }
    }
  }

  lemma SupersessionStepBacked(p: Projection, q: Projection, fact: MemoryFact, k: Id)
    requires !HasFact(p.facts, fact.id) && SupersessionStep(p, q, fact) && k in q.supersessions
    requires k in p.supersessions ==> SupersessionBacked(p.facts, k, p.supersessions[k])
    ensures SupersessionBacked(p.facts + [fact], k, q.supersessions[k])
  {
    if k in p.supersessions {
      SupersessionKept(p.facts, fact, k, p.supersessions[k]);
    } else {
      SupersessionAdded(p.facts, fact, k);
    }
  }

  lemma InsertFactInv(p: Projection, fact: MemoryFact)
    requires Consistent(p) && InsertFact(p, fact).Ok?
    ensures Preserved(p, InsertFact(p, fact).value)
  {
    InsertFactShape(p, fact);
    var q := InsertFact(p, fact).value;
    AddFactOk(p.nodes, p.facts, fact);
    forall k | k in q.supersessions ensures SupersessionBacked(q.facts, k, q.supersessions[k]) {
      SupersessionStepBacked(p, q, fact, k);
    }
    forall k | k in q.retractions ensures RetractionBacked(q.facts, k, q.retractions[k]) {
      RetractionKept(p.facts, fact, k, p.retractions[k]);
    }
    if SupersessionsComplete(p) {
      forall j | 0 <= j < |q.facts| ensures ReplacementRegistered(q, j) {
        NewFactRegistered(p, q, fact, j);
      }
    }
  }

  lemma RetractFactInv(p: Projection, at: Timestamp, id: Id, until: Timestamp, evidence: seq<Evidence>)
    requires Consistent(p) && RetractFact(p, at, id, until, evidence).Ok?
    ensures Preserved(p, RetractFact(p, at, id, until, evidence).value)
    ensures RetractFact(p, at, id, until, evidence).value == p.(retractions := p.retractions[id := Retraction(until, at)])
  {
    var q := RetractFact(p, at, id, until, evidence).value;
    forall k | k in q.retractions ensures RetractionBacked(q.facts, k, q.retractions[k]) {
      if k != id {
        assert RetractionBacked(p.facts, k, p.retractions[k]);
      }
    }
    if SupersessionsComplete(p) {
      SameFactsComplete(p, q);
    }
  }

  lemma RetractionShape(p: Projection, event: StoredEvent<MemoryEvent>)
    requires event.payload.FactRetracted? && Apply(p, event).Ok?
    ensures var q, id := Apply(p, event).value, event.payload.factId;
            && HasFact(p.facts, id)
            && q == p.(retractions := p.retractions[id := Retraction(event.payload.validUntil, event.metadata.recordedAt)],
                       lastPosition := q.lastPosition)
  {}

  lemma PositionKeepsInv(p: Projection, position: Option<u64>)
    requires Consistent(p)
    ensures Preserved(p, p.(lastPosition := position))
  {
    if SupersessionsComplete(p) {
      SameFactsComplete(p, p.(lastPosition := position));
    }
  }

  /** The inductive step for every run: accepted events lead from good states to good states. */
  lemma ApplyInv(p: Projection, event: StoredEvent<MemoryEvent>)
    requires Consistent(p) && Apply(p, event).Ok?
    ensures Preserved(p, Apply(p, event).value)
    ensures Inv(p) ==> Inv(Apply(p, event).value)
    ensures Apply(p, event).value.lastPosition == Some(event.metadata.globalPosition)
  {
    var m := event.metadata;
    match event.payload {
      case NodeUpserted(node) => InsertNodeInv(p, NodeRevision(node, m.recordedAt, m.globalPosition));
      case FactRecorded(fact) => InsertFactInv(p, fact);
      case FactRetracted(id, until, evidence) => RetractFactInv(p, m.recordedAt, id, until, evidence);
    }
    PositionKeepsInv(ApplyPayload(p, event).value, Some(m.globalPosition));
  }
}
