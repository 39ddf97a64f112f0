/** The projection object: the vectors and maps the crate keeps, with all its indexes.

    `Value` forgets the indexes; `Valid` says that they agree with plain search in
    that value.  Every mutation is proved against the value-level event functions,
    and a rejected event leaves the object as it was.
 */
module MemoryProjections {
  import opened Common
  import opened Domain
  import opened Projections
  import opened Views
  import opened IdIndexes
  import opened Incidents

  ghost predicate IndexesNodes(m: map<Id, nat>, nodes: seq<NodeHistory>) {
    forall id :: Get(m, id) == NodeIndex(nodes, id)
  }

  ghost predicate IndexesFacts(m: map<Id, nat>, facts: seq<MemoryFact>) {
    forall id :: Get(m, id) == FactIndex(facts, id)
  }

  function IndexOr0(nodes: seq<NodeHistory>, id: Id): nat {
    match NodeIndex(nodes, id)
    case Some(i) => i
    case None => 0
  }

  function EndpointOf(nodes: seq<NodeHistory>, f: MemoryFact): (nat, nat) {
    (IndexOr0(nodes, f.source), IndexOr0(nodes, f.target))
  }

  /** The endpoint indexes of all facts, resolved by plain search. */
  function EndpointsOf(nodes: seq<NodeHistory>, facts: seq<MemoryFact>): (r: Endpoints)
    ensures |r| == |facts| && forall i | 0 <= i < |facts| :: r[i] == EndpointOf(nodes, facts[i])
  {
    if facts == [] then []
    else EndpointsOf(nodes, facts[..|facts| - 1]) + [EndpointOf(nodes, facts[|facts| - 1])]
  }

  lemma EndpointsInRange(nodes: seq<NodeHistory>, facts: seq<MemoryFact>)
    requires FactsOk(nodes, facts)
    ensures InRange(EndpointsOf(nodes, facts), |nodes|)
  {
    forall i | 0 <= i < |facts|
      ensures EndpointsOf(nodes, facts)[i].0 < |nodes| && EndpointsOf(nodes, facts)[i].1 < |nodes|
    {
      assert FactOk(nodes, facts[i]);
    }
  }

  /** Endpoints do not move when nodes are added or revised. */
  lemma EndpointsStable(a: seq<NodeHistory>, b: seq<NodeHistory>, facts: seq<MemoryFact>)
    requires FactsOk(a, facts)
    requires forall id | HasNode(a, id) :: NodeIndex(b, id) == NodeIndex(a, id)
    ensures EndpointsOf(b, facts) == EndpointsOf(a, facts)
  {
    forall i | 0 <= i < |facts| ensures EndpointsOf(b, facts)[i] == EndpointsOf(a, facts)[i] {
      assert FactOk(a, facts[i]);
    }
  }

  lemma EndpointsAppend(nodes: seq<NodeHistory>, facts: seq<MemoryFact>, f: MemoryFact)
    ensures EndpointsOf(nodes, facts + [f]) == EndpointsOf(nodes, facts) + [EndpointOf(nodes, f)]
  {
    assert (facts + [f])[..|facts|] == facts;
  }

  /** The facts at a node, as ids, by plain search. */
  function IncidentIds(p: Projection, id: Id): seq<Id> {
    match NodeIndex(p.nodes, id)
    case None => []
    case Some(k) => IdsAt(p.facts, Touching(EndpointsOf(p.nodes, p.facts), k))
  }

  function IdsAt(facts: seq<MemoryFact>, list: seq<nat>): seq<Id>
    requires forall i | 0 <= i < |list| :: list[i] < |facts|
  {
    seq(|list|, i requires 0 <= i < |list| => facts[list[i]].id)
  }

  /** All indexes, as values. */
  datatype Indexes = Indexes(nodes: map<Id, nat>, facts: map<Id, nat>, offsets: seq<nat>, slots: seq<nat>, delta: Delta)

  ghost predicate IndexedBy(nodes: seq<NodeHistory>, facts: seq<MemoryFact>, x: Indexes) {
    && IndexesNodes(x.nodes, nodes)
    && IndexesFacts(x.facts, facts)
    && Indexed(x.offsets, x.slots, x.delta, EndpointsOf(nodes, facts), |nodes|)
  }

  // ---- Each event, on the indexes -------------------------------------------------------

  function WithRevision(p: Projection, i: nat, r: NodeRevision): Projection
    requires i < |p.nodes|
  {
    p.(nodes := p.nodes[i := p.nodes[i].(later := p.nodes[i].later + [r])])
  }

  function WithNode(p: Projection, r: NodeRevision): Projection {
    p.(nodes := p.nodes + [NodeHistory(r, [])])
  }

  lemma RevisionStep(p: Projection, x: Indexes, r: NodeRevision, i: nat)
    requires Consistent(p) && IndexedBy(p.nodes, p.facts, x) && NodeValid(r.node) && NodeIndex(p.nodes, r.node.id) == Some(i)
    ensures InsertNode(p, r) == Ok(WithRevision(p, i, r))
    ensures Consistent(WithRevision(p, i, r)) && IndexedBy(WithRevision(p, i, r).nodes, p.facts, x)
  {
    hide Consistent, Indexed, NodeValid;
    var q := WithRevision(p, i, r);
    InsertNodeInv(p, r);
    forall id ensures NodeIndex(q.nodes, id) == NodeIndex(p.nodes, id) {
      NodeIndexSameIds(q.nodes, p.nodes, id);
    }
    assert FactsOk(p.nodes, p.facts) by { ConsistentFacts(p); }
    EndpointsStable(p.nodes, q.nodes, p.facts);
  }

  lemma ConsistentFacts(p: Projection)
    requires Consistent(p)
    ensures FactsOk(p.nodes, p.facts)
  {}

  lemma NewNodeStep(p: Projection, x: Indexes, r: NodeRevision)
    requires Consistent(p) && IndexedBy(p.nodes, p.facts, x) && NodeValid(r.node) && !HasNode(p.nodes, r.node.id)
    ensures InsertNode(p, r) == Ok(WithNode(p, r))
    ensures Consistent(WithNode(p, r))
    ensures |x.offsets| == |p.nodes| + 1
    ensures IndexedBy(WithNode(p, r).nodes, p.facts,
                      x.(nodes := x.nodes[r.node.id := |p.nodes|], offsets := x.offsets + [x.offsets[|x.offsets| - 1]]))
  {
    hide Consistent, NodeValid;
    var q := WithNode(p, r);
    InsertNodeInv(p, r);
    ConsistentFacts(p);
    forall id
      ensures NodeIndex(q.nodes, id) == if id == r.node.id then Some(|p.nodes|) else NodeIndex(p.nodes, id)
    {
      NodeIndexAppend(p.nodes, NodeHistory(r, []), id);
    }
    EndpointsStable(p.nodes, q.nodes, p.facts);
    IndexedNewNode(x.offsets, x.slots, x.delta, EndpointsOf(p.nodes, p.facts), |p.nodes|);
  }

  lemma LookupsAgree(p: Projection, x: Indexes, id: Id)
    requires IndexedBy(p.nodes, p.facts, x)
    ensures Get(x.nodes, id) == NodeIndex(p.nodes, id)
    ensures Get(x.facts, id) == FactIndex(p.facts, id)
  {}

  lemma NewFactStep(nodes: seq<NodeHistory>, facts: seq<MemoryFact>, x: Indexes, f: MemoryFact, e: (nat, nat))
    requires IndexedBy(nodes, facts, x)
    requires NodeIndex(nodes, f.source) == Some(e.0) && NodeIndex(nodes, f.target) == Some(e.1)
    ensures IndexedBy(nodes, facts + [f], x.(facts := x.facts[f.id := |facts|], delta := PushBoth(x.delta, e, |facts|)))
  {
    forall id ensures FactIndex(facts + [f], id) == if id == f.id then Some(|facts|) else FactIndex(facts, id) {
      FactIndexAppend(facts, f, id);
    }
    EndpointsAppend(nodes, facts, f);
    hide FactIndex, NodeIndex;
    IndexedNewFact(x.offsets, x.slots, x.delta, EndpointsOf(nodes, facts), |nodes|, e);
  }

  lemma KnownFacts(p: Projection, x: Indexes)
    requires IndexedBy(p.nodes, p.facts, x)
    ensures x.facts.Keys == FactIds(p.facts)
  {
    hide FactIndex, Indexed, IndexesNodes;
    forall id ensures id in x.facts <==> id in FactIds(p.facts) {
      FactIdsSearch(p.facts, id);
      assert Get(x.facts, id) == FactIndex(p.facts, id);
    }
  }

  // ---- Rebuilding, item by item -----------------------------------------------------------

  lemma NodesOkStep(nodes: seq<NodeHistory>, n: nat)
    requires n < |nodes| && NodesOk(nodes[..n])
    ensures NodesOk(nodes[..n + 1]) <==> HistoryOk(nodes[n]) && !HasNode(nodes[..n], nodes[n].Id())
  {
    hide HistoryOk;
    var front, all := nodes[..n], nodes[..n + 1];
    assert all == front + [nodes[n]];
    if HasNode(front, nodes[n].Id()) {
      var i := NodeIndex(front, nodes[n].Id()).value;
      assert all[i].Id() == all[n].Id();
    }
    if NodesOk(all) {
      assert HistoryOk(all[n]);
    }
  }

  lemma NodesOkPrefix(nodes: seq<NodeHistory>, n: nat)
    requires n <= |nodes| && NodesOk(nodes)
    ensures NodesOk(nodes[..n])
  {
    hide HistoryOk;
  }

  lemma IndexesNodesStep(m: map<Id, nat>, nodes: seq<NodeHistory>, n: nat)
    requires n < |nodes| && IndexesNodes(m, nodes[..n])
    ensures IndexesNodes(m[nodes[n].Id() := n], nodes[..n + 1])
  {
    assert nodes[..n + 1] == nodes[..n] + [nodes[n]];
    var after := m[nodes[n].Id() := n];
    forall id ensures Get(after, id) == NodeIndex(nodes[..n + 1], id) {
      NodeIndexAppend(nodes[..n], nodes[n], id);
    }
  }

  lemma FactsOkStep(nodes: seq<NodeHistory>, facts: seq<MemoryFact>, n: nat)
    requires n < |facts| && FactsOk(nodes, facts[..n])
    ensures FactsOk(nodes, facts[..n + 1]) <==> FactOk(nodes, facts[n]) && !HasFact(facts[..n], facts[n].id)
  {
    hide FactOk;
    var front, all := facts[..n], facts[..n + 1];
    assert all == front + [facts[n]];
    if HasFact(front, facts[n].id) {
      var i := FactIndex(front, facts[n].id).value;
      assert all[i].id == all[n].id;
    }
    if FactsOk(nodes, all) {
      assert FactOk(nodes, all[n]);
    }
  }

  lemma FactsOkPrefix(nodes: seq<NodeHistory>, facts: seq<MemoryFact>, n: nat)
    requires n <= |facts| && FactsOk(nodes, facts)
    ensures FactsOk(nodes, facts[..n])
  {
    hide FactOk;
  }

  lemma IndexesFactsStep(m: map<Id, nat>, facts: seq<MemoryFact>, n: nat)
    requires n < |facts| && IndexesFacts(m, facts[..n])
    ensures IndexesFacts(m[facts[n].id := n], facts[..n + 1])
  {
    assert facts[..n + 1] == facts[..n] + [facts[n]];
    var after := m[facts[n].id := n];
    forall id ensures Get(after, id) == FactIndex(facts[..n + 1], id) {
      FactIndexAppend(facts[..n], facts[n], id);
    }
  }

  class MemoryProjection {
    var nodes: seq<NodeHistory>
    var facts: seq<MemoryFact>
    var nodeLookup: IdIndex
    var factLookup: IdIndex
    var incidentOffsets: seq<nat>
    var incidentFacts: seq<nat>
    var incidentDelta: Delta
    var supersessions: map<Id, Supersession>
    var retractions: map<Id, Retraction>
    var lastGlobalPosition: Option<u64>

    ghost function Value(): Projection
      reads this
    {
      Projection(nodes, facts, supersessions, retractions, lastGlobalPosition)
    }

    ghost function Index(): Indexes
      reads this, nodeLookup, factLookup
    {
      Indexes(nodeLookup.Contents, factLookup.Contents, incidentOffsets, incidentFacts, incidentDelta)
    }

    ghost predicate LookupsValid()
      reads this, nodeLookup, factLookup
    {
      nodeLookup != factLookup && nodeLookup.Valid() && factLookup.Valid()
    }

    ghost predicate Valid()
      reads this, nodeLookup, factLookup
    {
      LookupsValid() && Consistent(Value()) && IndexedBy(nodes, facts, Index())
    }

    constructor (hash: Id -> u64)
      ensures Valid() && Value() == EMPTY && fresh(nodeLookup) && fresh(factLookup)
    {
      nodes, facts := [], [];
      nodeLookup := new IdIndex(hash);
      factLookup := new IdIndex(hash);
      incidentOffsets, incidentFacts, incidentDelta := [0], [], map[];
      supersessions, retractions, lastGlobalPosition := map[], map[], None;
    }

    method InsertNode(revision: NodeRevision) returns (r: Result<()>)
      requires Valid()
      modifies this`nodes, this`incidentOffsets, nodeLookup
      ensures Valid()
      ensures match Projections.InsertNode(old(Value()), revision)
              case Ok(p) => r.Ok? && Value() == p
              case Err(e) => r == Err(e) && Value() == old(Value())
    {
      hide Consistent, SupersessionsComplete, IndexedBy, EndpointsOf, NodeIndex, FactIndex, NodeValid, IdIndex.Valid;
      if !NodeValid(revision.node) {
        return Err(InvalidValue);
      }
      ghost var p, x := Value(), Index();
      var found := nodeLookup.Lookup(revision.node.id);
      LookupsAgree(p, x, revision.node.id);
      if found.Some? {
        RevisionStep(p, x, revision, found.value);
        var i := found.value;
        nodes := nodes[i := nodes[i].(later := nodes[i].later + [revision])];
        assert Value() == WithRevision(p, i, revision);
        assert Index() == x;
      } else {
        NewNodeStep(p, x, revision);
        var _ := nodeLookup.Insert(revision.node.id, |nodes|);
        nodes := nodes + [NodeHistory(revision, [])];
        incidentOffsets := incidentOffsets + [incidentOffsets[|incidentOffsets| - 1]];
        assert Value() == WithNode(p, revision);
      }
      r := Ok(());
    }

    method ApplySupersession(prior: Id, fact: MemoryFact) returns (r: Result<()>)
      requires factLookup.Valid()
      modifies this`supersessions
      ensures match Supersede(factLookup.Contents.Keys, old(supersessions), prior, fact)
              case Ok(s) => r.Ok? && supersessions == s
              case Err(e) => r == Err(e) && supersessions == old(supersessions)
    {
      var known := factLookup.Lookup(prior);
      if known.None? {
        return Err(MissingFact(prior));
      }
      if prior in supersessions {
        return Err(ConflictingFact(prior));
      }
      supersessions := supersessions[prior := SupersessionBy(fact)];
      r := Ok(());
    }

    /** The last part of inserting a fact: nothing can fail any more. */
    method PushFact(fact: MemoryFact, source: nat, target: nat)
      requires LookupsValid() && IndexedBy(nodes, facts, Index())
      requires NodeIndex(nodes, fact.source) == Some(source) && NodeIndex(nodes, fact.target) == Some(target)
      modifies this`facts, this`incidentDelta, factLookup
      ensures LookupsValid() && IndexedBy(nodes, facts, Index())
      ensures facts == old(facts) + [fact]
    {
      hide IndexedBy, EndpointsOf, NodeIndex, FactIndex, IdIndex.Valid;
      NewFactStep(nodes, facts, Index(), fact, (source, target));
      var index := |facts|;
      var _ := factLookup.Insert(fact.id, index);
      incidentDelta := Push(incidentDelta, source, index);
      if target != source {
        incidentDelta := Push(incidentDelta, target, index);
      }
      facts := facts + [fact];
    }

    /** The checks on a new fact, and the places of its endpoints. */
    method ResolveFact(fact: MemoryFact) returns (error: Option<Error>, source: nat, target: nat)
      requires LookupsValid() && IndexedBy(nodes, facts, Index())
      ensures error == FactError(Value(), fact)
      ensures error.None? ==>
                NodeIndex(nodes, fact.source) == Some(source) && NodeIndex(nodes, fact.target) == Some(target)
    {
      hide IndexedBy, NodeIndex, FactIndex, FactValid, IdIndex.Valid;
      source, target := 0, 0;
      if !FactValid(fact) {
        return Some(InvalidValue), 0, 0;
      }
      var s := nodeLookup.Lookup(fact.source);
      LookupsAgree(Value(), Index(), fact.source);
      if s.None? {
        return Some(MissingEntity(fact.source)), 0, 0;
      }
      var t := nodeLookup.Lookup(fact.target);
      LookupsAgree(Value(), Index(), fact.target);
      if t.None? {
        return Some(MissingEntity(fact.target)), 0, 0;
      }
      var existing := factLookup.Lookup(fact.id);
      LookupsAgree(Value(), Index(), fact.id);
      if existing.Some? {
        return Some(ConflictingFact(fact.id)), 0, 0;
      }
      return None, s.value, t.value;
    }

    method InsertFact(fact: MemoryFact) returns (r: Result<()>)
      requires Valid()
      modifies this`facts, this`incidentDelta, this`supersessions, factLookup
      ensures Valid()
      ensures match Projections.InsertFact(old(Value()), fact)
              case Ok(p) => r.Ok? && Value() == p
              case Err(e) => r == Err(e) && Value() == old(Value())
    {
      hide Consistent, SupersessionsComplete, IndexedBy, NodeIndex, FactIndex, FactError, FactIds, IdIndex.Valid;
      ghost var p := Value();
      var error, source, target := ResolveFact(fact);
      if error.Some? {
        return Err(error.value);
      }
      if fact.supersedes.Some? {
        KnownFacts(p, Index());
        r := ApplySupersession(fact.supersedes.value, fact);
        if r.Err? {
          return;
        }
      }
      InsertFactInv(p, fact);
      PushFact(fact, source, target);
      r := Ok(());
    }

    method ApplyRetraction(recordedAt: Timestamp, factId: Id, validUntil: Timestamp, evidence: seq<Evidence>)
      returns (r: Result<()>)
      requires Valid()
      modifies this`retractions
      ensures Valid()
      ensures match RetractFact(old(Value()), recordedAt, factId, validUntil, evidence)
              case Ok(p) => r.Ok? && Value() == p
              case Err(e) => r == Err(e) && Value() == old(Value())
    {
      hide Consistent, SupersessionsComplete, IndexedBy, FactIndex, AllEvidenceValid, IdIndex.Valid;
      ghost var p := Value();
      var found := factLookup.Lookup(factId);
      LookupsAgree(p, Index(), factId);
      if found.None? {
        return Err(MissingFact(factId));
      }
      if validUntil <= facts[found.value].validFrom || evidence == [] || !AllEvidenceValid(evidence) {
        return Err(InvalidValue);
      }
      RetractFactInv(p, recordedAt, factId, validUntil, evidence);
      retractions := retractions[factId := Retraction(validUntil, recordedAt)];
      r := Ok(());
    }

    /** Dispatch on the payload. */
    method ApplyPayload(event: StoredEvent<MemoryEvent>) returns (r: Result<()>)
      requires Valid()
      modifies this, nodeLookup, factLookup
      ensures Valid() && nodeLookup == old(nodeLookup) && factLookup == old(factLookup)
      ensures match Projections.ApplyPayload(old(Value()), event)
              case Ok(p) => r.Ok? && Value() == p
              case Err(e) => r == Err(e) && Value() == old(Value())
    {
      hide Consistent, IndexedBy, NodeIndex, FactIndex, IdIndex.Valid;
      var m := event.metadata;
      match event.payload {
        case NodeUpserted(node) =>
          r := InsertNode(NodeRevision(node, m.recordedAt, m.globalPosition));
        case FactRecorded(fact) =>
          if !EnvelopeMatches(m, fact) {
            return Err(InvalidValue);
          }
          r := InsertFact(fact);
        case FactRetracted(id, until, evidence) =>
          r := ApplyRetraction(m.recordedAt, id, until, evidence);
      }
    }

    /** One event: accepted exactly as the value-level function says, or refused without a trace. */
    method Apply(event: StoredEvent<MemoryEvent>) returns (r: Result<()>)
      requires Valid()
      modifies this, nodeLookup, factLookup
      ensures Valid() && nodeLookup == old(nodeLookup) && factLookup == old(factLookup)
      ensures match Projections.Apply(old(Value()), event)
              case Ok(p) => r.Ok? && Value() == p
              case Err(e) => r == Err(e) && Value() == old(Value())
    {
      hide Consistent, IndexedBy, IdIndex.Valid, Projections.ApplyPayload;
      if event.metadata.eventType != TypeOf(event.payload) {
        return Err(InvalidValue);
      }
      r := ApplyPayload(event);
      if r.Ok? {
        SetPosition(Some(event.metadata.globalPosition));
      }
    }

    method SetPosition(position: Option<u64>)
      requires Valid()
      modifies this`lastGlobalPosition
      ensures Valid() && Value() == old(Value()).(lastPosition := position)
    {
      hide Consistent, SupersessionsComplete, IndexedBy, IdIndex.Valid;
      PositionKeepsInv(Value(), position);
      lastGlobalPosition := position;
    }

    // ---- Queries --------------------------------------------------------------------

    method Visible(id: Id, known: Timestamp) returns (r: Option<MemoryNode>)
      requires Valid()
      ensures r == VisibleNode(nodes, id, known)
    {
      hide Consistent, IndexedBy;
      var found := nodeLookup.Lookup(id);
      LookupsAgree(Value(), Index(), id);
      r := if found.Some? then VisibleRevision(nodes[found.value], known) else None;
    }

    method Fact(id: Id) returns (r: Option<MemoryFact>)
      requires Valid()
      ensures r == match FactIndex(facts, id) case Some(i) => Some(facts[i]) case None => None
    {
      hide Consistent, IndexedBy;
      var found := factLookup.Lookup(id);
      LookupsAgree(Value(), Index(), id);
      r := if found.Some? then Some(facts[found.value]) else None;
    }

    /** The tests in the crate's order, against the two change maps. */
    method FactIsActive(fact: MemoryFact, clock: Clock) returns (r: bool)
      ensures r == IsActive(Value(), fact, clock)
    {
      if fact.recordedAt > clock.knownAt || fact.validFrom > clock.validAt {
        return false;
      }
      if fact.validUntil.Some? && clock.validAt >= fact.validUntil.value {
        return false;
      }
      if fact.id in supersessions {
        var change := supersessions[fact.id];
        if change.recordedAt <= clock.knownAt && change.validFrom <= clock.validAt {
          return false;
        }
      }
      if fact.id in retractions {
        var change := retractions[fact.id];
        return !(change.recordedAt <= clock.knownAt && change.validUntil <= clock.validAt);
      }
      r := true;
    }

    /** Stable slice, then delta: exactly the facts at the node, once each, in append order. */
    method IncidentFactIds(id: Id) returns (r: seq<Id>)
      requires Valid()
      ensures r == IncidentIds(Value(), id)
    {
      hide Consistent, IndexesFacts, Touching;
      var found := nodeLookup.Lookup(id);
      assert found == NodeIndex(nodes, id);
      if found.None? {
        return [];
      }
      var k := found.value;
      ghost var endpoints := EndpointsOf(nodes, facts);
      assert NodeIndexed(incidentOffsets, incidentFacts, incidentDelta, endpoints, k);
      var list := incidentFacts[incidentOffsets[k]..incidentOffsets[k + 1]] + DeltaOf(incidentDelta, k);
      assert list == Touching(endpoints, k);
      r := IdsAt(facts, list);
    }

    // ---- Building all indexes at once ---------------------------------------------------

    /** A projection with its data in place and every index still empty. */
    constructor FromData(data: Projection, hash: Id -> u64)
      ensures Value() == data && fresh(nodeLookup) && fresh(factLookup)
      ensures LookupsValid() && nodeLookup.Contents == map[] && factLookup.Contents == map[]
    {
      nodes, facts := data.nodes, data.facts;
      nodeLookup := new IdIndex(hash);
      factLookup := new IdIndex(hash);
      incidentOffsets, incidentFacts, incidentDelta := [], [], map[];
      supersessions, retractions := data.supersessions, data.retractions;
      lastGlobalPosition := data.lastPosition;
    }

    method SetIncidents(endpoints: Endpoints)
      requires InRange(endpoints, |nodes|)
      modifies this`incidentOffsets, this`incidentFacts, this`incidentDelta
      ensures Indexed(incidentOffsets, incidentFacts, incidentDelta, endpoints, |nodes|)
    {
      incidentOffsets, incidentFacts := BuildCsr(|nodes|, endpoints);
      incidentDelta := map[];
      CsrIsIndexed(incidentOffsets, incidentFacts, endpoints, |nodes|);
    }

    method RebuildNodes() returns (ok: bool)
      requires LookupsValid() && nodeLookup.Contents == map[]
      modifies nodeLookup
      ensures LookupsValid()
      ensures ok <==> NodesOk(nodes)
      ensures ok ==> IndexesNodes(nodeLookup.Contents, nodes)
    {
      hide NodesOk, IndexesNodes, HistoryOk, NodeIndex, IdIndex.Valid;
      EmptyIndexes();
      assert nodes[..0] == [];
      for index := 0 to |nodes|
        invariant LookupsValid() && NodesOk(nodes[..index]) && IndexesNodes(nodeLookup.Contents, nodes[..index])
      {
        NodesOkStep(nodes, index);
        if !HistoryOk(nodes[index]) {
          ok := false;
          RefuteNodes(nodes, index);
          return;
        }
        IndexesNodesStep(nodeLookup.Contents, nodes, index);
        NodeLookup(nodeLookup.Contents, nodes[..index], nodes[index].Id());
        var prior := nodeLookup.Insert(nodes[index].Id(), index);
        if prior.Some? {
          ok := false;
          RefuteNodes(nodes, index);
          return;
        }
      }
      assert nodes[..|nodes|] == nodes;
      ok := true;
    }

    method RebuildFacts() returns (ok: bool, endpoints: Endpoints)
      requires LookupsValid() && IndexesNodes(nodeLookup.Contents, nodes) && factLookup.Contents == map[]
      modifies factLookup
      ensures LookupsValid()
      ensures ok <==> FactsOk(nodes, facts)
      ensures ok ==> IndexesFacts(factLookup.Contents, facts) && endpoints == EndpointsOf(nodes, facts)
    {
      hide FactsOk, IndexesNodes, IndexesFacts, NodeIndex, FactIndex, FactValid, EndpointsOf, IdIndex.Valid;
      EmptyIndexes();
      assert facts[..0] == [];
      EmptyEndpoints(nodes);
      endpoints := [];
      for index := 0 to |facts|
        invariant LookupsValid() && FactsOk(nodes, facts[..index]) && IndexesFacts(factLookup.Contents, facts[..index])
        invariant endpoints == EndpointsOf(nodes, facts[..index])
      {
        var fact := facts[index];
        FactsOkStep(nodes, facts, index);
        var source := nodeLookup.Lookup(fact.source);
        NodeLookup(nodeLookup.Contents, nodes, fact.source);
        var target := nodeLookup.Lookup(fact.target);
        NodeLookup(nodeLookup.Contents, nodes, fact.target);
        if !FactValid(fact) || source.None? || target.None? {
          ok := false;
          RefuteFacts(nodes, facts, index);
          return;
        }
        IndexesFactsStep(factLookup.Contents, facts, index);
        FactLookup(factLookup.Contents, facts[..index], fact.id);
        var prior := factLookup.Insert(fact.id, index);
        if prior.Some? {
          ok := false;
          RefuteFacts(nodes, facts, index);
          return;
        }
        EndpointsAppend(nodes, facts[..index], fact);
        assert facts[..index + 1] == facts[..index] + [fact];
        endpoints := endpoints + [(source.value, target.value)];
      }
      assert facts[..|facts|] == facts;
      ok := true;
    }

    method ValidateSupersessions() returns (ok: bool)
      requires LookupsValid() && IndexesFacts(factLookup.Contents, facts)
      ensures ok <==> forall k | k in supersessions :: SupersessionBacked(facts, k, supersessions[k])
    {
      hide IndexesFacts, FactIndex, IdIndex.Valid;
      var keys := supersessions.Keys;
      while keys != {}
        invariant keys <= supersessions.Keys
        invariant forall k | k in supersessions && k !in keys :: SupersessionBacked(facts, k, supersessions[k])
        decreases |keys|
      {
        var k :| k in keys;
        var change := supersessions[k];
        var prior := factLookup.Lookup(k);
        FactLookup(factLookup.Contents, facts, k);
        var replacement := factLookup.Lookup(change.replacement);
        FactLookup(factLookup.Contents, facts, change.replacement);
        if prior.None? || replacement.None? {
          return false;
        }
        var newer := facts[replacement.value];
        if newer.supersedes != Some(facts[prior.value].id)
           || newer.validFrom != change.validFrom || newer.recordedAt != change.recordedAt
        {
          return false;
        }
        keys := keys - {k};
      }
      return true;
    }

    method ValidateRetractions() returns (ok: bool)
      requires LookupsValid() && IndexesFacts(factLookup.Contents, facts)
      ensures ok <==> forall k | k in retractions :: RetractionBacked(facts, k, retractions[k])
    {
      hide IndexesFacts, FactIndex, IdIndex.Valid;
      var keys := retractions.Keys;
      while keys != {}
        invariant keys <= retractions.Keys
        invariant forall k | k in retractions && k !in keys :: RetractionBacked(facts, k, retractions[k])
        decreases |keys|
      {
        var k :| k in keys;
        var found := factLookup.Lookup(k);
        FactLookup(factLookup.Contents, facts, k);
        if found.None? || retractions[k].validUntil <= facts[found.value].validFrom {
          return false;
        }
        keys := keys - {k};
      }
      return true;
    }

    /** Rebuilding accepts exactly the consistent projections and leaves every index in agreement. */
    method RebuildIndexes() returns (ok: bool)
      requires LookupsValid() && nodeLookup.Contents == map[] && factLookup.Contents == map[]
      modifies this`incidentOffsets, this`incidentFacts, this`incidentDelta, nodeLookup, factLookup
      ensures ok <==> Consistent(Value())
      ensures ok ==> Valid()
    {
      hide NodesOk, FactsOk, IndexesNodes, IndexesFacts, Indexed, EndpointsOf, InRange, IdIndex.Valid;
      hide SupersessionBacked, RetractionBacked;
      ok := RebuildNodes();
      if !ok {
        return;
      }
      var endpoints;
      ok, endpoints := RebuildFacts();
      if !ok {
        return;
      }
      EndpointsInRange(nodes, facts);
      SetIncidents(endpoints);
      ok := ValidateSupersessions();
      if !ok {
        return;
      }
      ok := ValidateRetractions();
    }
  }

  lemma EmptyIndexes()
    ensures IndexesNodes(map[], []) && IndexesFacts(map[], []) && NodesOk([]) && forall nodes :: FactsOk(nodes, [])
  {}

  lemma EmptyEndpoints(nodes: seq<NodeHistory>)
    ensures EndpointsOf(nodes, []) == []
  {}

  lemma NodeLookup(m: map<Id, nat>, nodes: seq<NodeHistory>, id: Id)
    requires IndexesNodes(m, nodes)
    ensures Get(m, id) == NodeIndex(nodes, id)
  {}

  lemma FactLookup(m: map<Id, nat>, facts: seq<MemoryFact>, id: Id)
    requires IndexesFacts(m, facts)
    ensures Get(m, id) == FactIndex(facts, id)
  {}

  lemma RefuteNodes(nodes: seq<NodeHistory>, n: nat)
    requires n < |nodes| && !NodesOk(nodes[..n + 1])
    ensures !NodesOk(nodes)
  {
    if NodesOk(nodes) {
      NodesOkPrefix(nodes, n + 1);
      assert false;
    }
  }

  lemma RefuteFacts(nodes: seq<NodeHistory>, facts: seq<MemoryFact>, n: nat)
    requires n < |facts| && !FactsOk(nodes, facts[..n + 1])
    ensures !FactsOk(nodes, facts)
  {
    if FactsOk(nodes, facts) {
      FactsOkPrefix(nodes, facts, n + 1);
      assert false;
    }
  }
}
