/** What a view is, told from the events alone: for every run from nothing, the current node of an id, the
    facts, and whether a fact is active, without mentioning how a projection stores any of it. */
module EventLogs {
  import opened Common
  import opened Domain
  import opened Projections
  import opened Views
  import BulkReplay
  import Replay
  import Stores

  type Events = seq<StoredEvent<MemoryEvent>>

  predicate Upserts(e: StoredEvent<MemoryEvent>, id: Id) {
    e.payload.NodeUpserted? && e.payload.node.id == id
  }

  predicate Retracts(e: StoredEvent<MemoryEvent>, id: Id) {
    e.payload.FactRetracted? && e.payload.factId == id
  }

  predicate Replaces(e: StoredEvent<MemoryEvent>, id: Id) {
    e.payload.FactRecorded? && e.payload.fact.supersedes == Some(id)
  }

  /** Among the upserts of `id` recorded by `known`, event `i` was recorded last; of those recorded at the
      same time it has the highest position, and of those the last place in the run. */
  ghost predicate IsLastUpsert(events: Events, id: Id, known: Timestamp, i: nat) {
    && i < |events| && Upserts(events[i], id) && events[i].metadata.recordedAt <= known
    && forall j | 0 <= j < |events| && Upserts(events[j], id) && events[j].metadata.recordedAt <= known ::
         var a, b := events[j].metadata, events[i].metadata;
         || a.recordedAt < b.recordedAt
         || (a.recordedAt == b.recordedAt && a.globalPosition < b.globalPosition)
         || (a.recordedAt == b.recordedAt && a.globalPosition == b.globalPosition && j <= i)
  }

  /** Event `i` is the last retraction of `id`. */
  ghost predicate IsLastRetraction(events: Events, id: Id, i: nat) {
    i < |events| && Retracts(events[i], id) && forall j | i < j < |events| :: !Retracts(events[j], id)
  }

  ghost predicate ReplacedBy(events: Events, id: Id, clock: Clock, i: nat) {
    && i < |events| && Replaces(events[i], id)
    && events[i].payload.fact.recordedAt <= clock.knownAt && events[i].payload.fact.validFrom <= clock.validAt
  }

  ghost predicate RetractedBy(events: Events, id: Id, clock: Clock, i: nat) {
    && IsLastRetraction(events, id, i)
    && events[i].metadata.recordedAt <= clock.knownAt && events[i].payload.validUntil <= clock.validAt
  }

  /** Recorded by then, valid then, neither replaced nor retracted by anything known then. */
  ghost predicate ActiveByEvents(events: Events, f: MemoryFact, clock: Clock) {
    && f.recordedAt <= clock.knownAt
    && f.validFrom <= clock.validAt
    && (f.validUntil.Some? ==> clock.validAt < f.validUntil.value)
    && (forall i: nat :: !ReplacedBy(events, f.id, clock, i))
    && (forall i: nat :: !RetractedBy(events, f.id, clock, i))
  }

  ghost predicate Records(events: Events, i: nat, f: MemoryFact) {
    i < |events| && events[i].payload == FactRecorded(f)
  }

  ghost predicate Names(events: Events, id: Id, known: Timestamp, n: MemoryNode) {
    exists i: nat :: IsLastUpsert(events, id, known, i) && events[i].payload.node == n
  }

  // ---- Runs, event by event ------------------------------------------------------------

  /** The projection after a run from nothing. */
  ghost predicate Yields(events: Events, p: Projection) {
    ApplyAll(EMPTY, events) == Ok(p)
  }

  lemma YieldsStep(events: Events, p: Projection) returns (before: Projection)
    requires events != [] && Yields(events, p)
    ensures Yields(events[..|events| - 1], before) && Inv(before)
    ensures Apply(before, events[|events| - 1]) == Ok(p) && Inv(p)
  {
    hide Apply, Inv, Consistent;
    var front, e := events[..|events| - 1], events[|events| - 1];
    assert events == front + [e];
    BulkReplay.ApplySplit(EMPTY, front, [e]);
    before := ApplyAll(EMPTY, front).value;
    RunKeepsInv(EMPTY, front);
    assert [e][1..] == [];
    LastApply(before, e);
    ApplyKeepsInv(before, e);
  }

  lemma LastApply(p: Projection, e: StoredEvent<MemoryEvent>)
    ensures ApplyAll(p, [e]) == Apply(p, e)
  {
    hide Apply;
    assert [e][1..] == [];
  }

  lemma ApplyKeepsInv(p: Projection, e: StoredEvent<MemoryEvent>)
    requires Inv(p) && Apply(p, e).Ok?
    ensures Inv(Apply(p, e).value)
  {
    hide Consistent, SupersessionsComplete, Apply;
    ApplyInv(p, e);
  }

  lemma {:induction false} RunKeepsInv(p: Projection, events: Events)
    requires (p == EMPTY || Inv(p)) && ApplyAll(p, events).Ok?
    ensures Inv(ApplyAll(p, events).value)
    decreases |events|
  {
    hide Inv, Apply;
    EmptyInv();
    if events != [] {
      ApplyKeepsInv(p, events[0]);
      RunKeepsInv(Apply(p, events[0]).value, events[1..]);
    }
  }

  // ---- Nodes ------------------------------------------------------------------------------

  /** The maximal known revision under an id. */
  function LatestOf(p: Projection, id: Id, known: Timestamp): Option<NodeRevision> {
    match NodeIndex(p.nodes, id)
    case Some(i) => Latest(p.nodes[i].Revisions(), known)
    case None => None
  }

  function RevisionOf(e: StoredEvent<MemoryEvent>): NodeRevision
    requires e.payload.NodeUpserted?
  {
    NodeRevision(e.payload.node, e.metadata.recordedAt, e.metadata.globalPosition)
  }

  lemma LatestAfterAppend(revisions: seq<NodeRevision>, r: NodeRevision, known: Timestamp)
    ensures var best := Latest(revisions, known);
            Latest(revisions + [r], known)
            == if r.recordedAt <= known && (best.None? || RankLe(best.value, r)) then Some(r) else best
  {
    assert (revisions + [r])[..|revisions|] == revisions;
  }

  /** What one event does to the maximal known revision. */
  lemma LatestStep(p: Projection, e: StoredEvent<MemoryEvent>, id: Id, known: Timestamp)
    requires Apply(p, e).Ok?
    ensures var best := LatestOf(p, id, known);
            LatestOf(Apply(p, e).value, id, known)
            == if Upserts(e, id) && e.metadata.recordedAt <= known && (best.None? || RankLe(best.value, RevisionOf(e)))
               then Some(RevisionOf(e)) else best
  {
    hide Latest, RankLe, NodeValid, FactError, AllEvidenceValid, NodeIndex;
    var q := Apply(p, e).value;
    match e.payload {
      case NodeUpserted(node) =>
        var r := RevisionOf(e);
        match NodeIndex(p.nodes, node.id) {
          case Some(i) =>
            NodeIndexSameIds(q.nodes, p.nodes, id);
            assert q.nodes[i].Revisions() == p.nodes[i].Revisions() + [r];
            LatestAfterAppend(p.nodes[i].Revisions(), r, known);
          case None =>
            var h := NodeHistory(r, []);
            NodeIndexAppend(p.nodes, h, id);
            assert h.Revisions() == [] + [r];
            LatestAfterAppend([], r, known);
            LatestOfNothing(known);
        }
      case FactRecorded(fact) =>
        InsertFactShape(p, fact);
      case FactRetracted(_, _, _) =>
        RetractionShape(p, e);
    }
  }

  lemma LatestOfNothing(known: Timestamp)
    ensures Latest([], known) == None
  {}

  ghost predicate LatestFromEvents(events: Events, p: Projection, id: Id, known: Timestamp) {
    && (LatestOf(p, id, known).None? ==> forall i | 0 <= i < |events| && Upserts(events[i], id) :: events[i].metadata.recordedAt > known)
    && (LatestOf(p, id, known).Some? ==>
          exists i: nat :: i < |events| && events[i].payload.NodeUpserted? && IsLastUpsert(events, id, known, i)
                           && RevisionOf(events[i]) == LatestOf(p, id, known).value)
  }

  lemma {:induction false} LatestMeetsEvents(events: Events, p: Projection, id: Id, known: Timestamp)
    requires Yields(events, p)
    ensures LatestFromEvents(events, p, id, known)
    decreases |events|
  {
    hide Yields, LatestFromEvents;
    if events == [] {
      NothingUpserted(p, id, known);
    } else {
      var front, e := events[..|events| - 1], events[|events| - 1];
      var before := YieldsStep(events, p);
      LatestMeetsEvents(front, before, id, known);
      LatestEventStep(front, e, before, id, known);
      assert events == front + [e];
    }
  }

  lemma NothingUpserted(p: Projection, id: Id, known: Timestamp)
    requires Yields([], p)
    ensures LatestFromEvents([], p, id, known)
  {}

  lemma LatestEventStep(front: Events, e: StoredEvent<MemoryEvent>, p: Projection, id: Id, known: Timestamp)
    requires LatestFromEvents(front, p, id, known) && Apply(p, e).Ok?
    ensures LatestFromEvents(front + [e], Apply(p, e).value, id, known)
  {
    hide Apply, LatestOf, IsLastUpsert, RankLe;
    var all, best := front + [e], LatestOf(p, id, known);
    assert all[|front|] == e;
    LatestStep(p, e, id, known);
    if best.Some? {
      var i: nat :| i < |front| && front[i].payload.NodeUpserted? && IsLastUpsert(front, id, known, i)
                    && RevisionOf(front[i]) == best.value;
      assert all[i] == front[i];
      LastUpsertStep(front, e, id, known, i);
    } else {
      FirstUpsertStep(front, e, id, known);
    }
  }

  lemma LastUpsertStep(front: Events, e: StoredEvent<MemoryEvent>, id: Id, known: Timestamp, i: nat)
    requires IsLastUpsert(front, id, known, i)
    ensures var better := Upserts(e, id) && e.metadata.recordedAt <= known && RankLe(RevisionOf(front[i]), RevisionOf(e));
            IsLastUpsert(front + [e], id, known, if better then |front| else i)
  {
    var all := front + [e];
    assert all[|front|] == e && forall j | 0 <= j < |front| :: all[j] == front[j];
  }

  lemma FirstUpsertStep(front: Events, e: StoredEvent<MemoryEvent>, id: Id, known: Timestamp)
    requires forall i | 0 <= i < |front| && Upserts(front[i], id) :: front[i].metadata.recordedAt > known
    ensures var all := front + [e];
            if Upserts(e, id) && e.metadata.recordedAt <= known then IsLastUpsert(all, id, known, |front|)
            else forall i | 0 <= i < |all| && Upserts(all[i], id) :: all[i].metadata.recordedAt > known
  {
    var all := front + [e];
    assert all[|front|] == e && forall j | 0 <= j < |front| :: all[j] == front[j];
  }

  lemma LastUpsertUnique(events: Events, id: Id, known: Timestamp, i: nat, j: nat)
    requires IsLastUpsert(events, id, known, i) && IsLastUpsert(events, id, known, j)
    ensures i == j
  {}

  /** The node shown under an id is that of the last upsert known, and there is one exactly if some upsert
      is known. */
  lemma NodeFromEvents(events: Events, p: Projection, id: Id, known: Timestamp, n: MemoryNode)
    requires Yields(events, p)
    ensures VisibleNode(p.nodes, id, known) == Some(n) <==> Names(events, id, known, n)
    ensures VisibleNode(p.nodes, id, known).Some?
            <==> exists i :: 0 <= i < |events| && Upserts(events[i], id) && events[i].metadata.recordedAt <= known
  {
    hide Latest, ApplyAll, NodeIndex;
    LatestMeetsEvents(events, p, id, known);
    if LatestOf(p, id, known).Some? {
      var i: nat :| IsLastUpsert(events, id, known, i) && RevisionOf(events[i]) == LatestOf(p, id, known).value;
      if Names(events, id, known, n) {
        var j: nat :| IsLastUpsert(events, id, known, j) && events[j].payload.node == n;
        LastUpsertUnique(events, id, known, i, j);
      }
    }
  }

  // ---- Facts ----------------------------------------------------------------------------------

  /** The facts recorded by a run, in order. */
  function FactsOf(events: Events): seq<MemoryFact> {
    if events == [] then []
    else
      var front, e := FactsOf(events[..|events| - 1]), events[|events| - 1];
      if e.payload.FactRecorded? then front + [e.payload.fact] else front
  }

  lemma {:induction false} FactsMeetEvents(events: Events, p: Projection)
    requires Yields(events, p)
    ensures p.facts == FactsOf(events)
    decreases |events|
  {
    hide Inv, Consistent, NodeValid, FactError;
    if events != [] {
      var e := events[|events| - 1];
      var before := YieldsStep(events, p);
      FactsMeetEvents(events[..|events| - 1], before);
      match e.payload {
        case NodeUpserted(_) =>
        case FactRecorded(fact) => InsertFactShape(before, fact);
        case FactRetracted(_, _, _) => RetractionShape(before, e);
      }
    }
  }

  lemma {:induction false} FactRecordedAt(events: Events, f: MemoryFact)
    ensures f in FactsOf(events) <==> exists i: nat :: Records(events, i, f)
    decreases |events|
  {
    if events != [] {
      var n := |events| - 1;
      var front := events[..n];
      FactRecordedAt(front, f);
      if i: nat :| Records(front, i, f) {
        assert Records(events, i, f);
      }
      if i: nat :| Records(events, i, f) {
        assert i < n ==> Records(front, i, f);
      }
      if events[n].payload == FactRecorded(f) {
        assert Records(events, n, f);
      }
    }
  }

  // ---- Retractions -------------------------------------------------------------------------------

  ghost predicate RetractionFromEvents(events: Events, p: Projection, id: Id) {
    && (id !in p.retractions ==> forall i | 0 <= i < |events| :: !Retracts(events[i], id))
    && (id in p.retractions ==>
          exists i: nat :: IsLastRetraction(events, id, i)
                           && p.retractions[id] == Retraction(events[i].payload.validUntil, events[i].metadata.recordedAt))
  }

  /** What one event does to the retraction of an id. */
  lemma RetractionStep(p: Projection, e: StoredEvent<MemoryEvent>, id: Id)
    requires Apply(p, e).Ok?
    ensures var q := Apply(p, e).value;
            if Retracts(e, id) then id in q.retractions && q.retractions[id] == Retraction(e.payload.validUntil, e.metadata.recordedAt)
            else (id in q.retractions <==> id in p.retractions) && (id in p.retractions ==> q.retractions[id] == p.retractions[id])
  {
    hide NodeValid, FactError;
    match e.payload {
      case NodeUpserted(_) =>
      case FactRecorded(fact) => InsertFactShape(p, fact);
      case FactRetracted(_, _, _) => RetractionShape(p, e);
    }
  }

  lemma {:induction false} RetractionMeetsEvents(events: Events, p: Projection, id: Id)
    requires Yields(events, p)
    ensures RetractionFromEvents(events, p, id)
    decreases |events|
  {
    hide Apply, Inv;
    if events != [] {
      var n := |events| - 1;
      var front, e := events[..n], events[n];
      var before := YieldsStep(events, p);
      RetractionMeetsEvents(front, before, id);
      RetractionStep(before, e, id);
      assert forall j | 0 <= j < n :: front[j] == events[j];
      if Retracts(e, id) {
        assert IsLastRetraction(events, id, n);
      } else if id in before.retractions {
        var i: nat :| IsLastRetraction(front, id, i)
                      && before.retractions[id] == Retraction(front[i].payload.validUntil, front[i].metadata.recordedAt);
        assert IsLastRetraction(events, id, i);
      }
    }
  }

  lemma LastRetractionUnique(events: Events, id: Id, i: nat, j: nat)
    requires IsLastRetraction(events, id, i) && IsLastRetraction(events, id, j)
    ensures i == j
  {}

  lemma RetractedMeaning(events: Events, p: Projection, id: Id, clock: Clock)
    requires Yields(events, p)
    ensures RetractedAt(p, id, clock) <==> exists i: nat :: RetractedBy(events, id, clock, i)
  {
    hide Yields;
    RetractionMeetsEvents(events, p, id);
    if id in p.retractions {
      var i: nat :| IsLastRetraction(events, id, i)
                    && p.retractions[id] == Retraction(events[i].payload.validUntil, events[i].metadata.recordedAt);
      if RetractedAt(p, id, clock) {
        assert RetractedBy(events, id, clock, i);
      }
      if j: nat :| RetractedBy(events, id, clock, j) {
        LastRetractionUnique(events, id, i, j);
      }
    }
  }

  lemma SupersededMeaning(events: Events, p: Projection, id: Id, clock: Clock)
    requires Yields(events, p) && Inv(p)
    ensures SupersededAt(p, id, clock) <==> exists i: nat :: ReplacedBy(events, id, clock, i)
  {
    hide Consistent, SupersessionsComplete, FactsOf, Yields;
    FactsMeetEvents(events, p);
    if SupersededAt(p, id, clock) {
      SupersessionsDetermined(p, id, p.supersessions[id]);
      var j: nat :| j < |p.facts| && p.facts[j].supersedes == Some(id) && p.supersessions[id] == SupersessionBy(p.facts[j]);
      assert p.facts[j] in p.facts;
      FactRecordedAt(events, p.facts[j]);
      var i: nat :| Records(events, i, p.facts[j]);
      assert ReplacedBy(events, id, clock, i);
    }
    if i: nat :| ReplacedBy(events, id, clock, i) {
      var g := events[i].payload.fact;
      assert Records(events, i, g);
      FactRecordedAt(events, g);
      var j :| 0 <= j < |p.facts| && p.facts[j] == g;
      SupersessionsDetermined(p, id, SupersessionBy(g));
    }
  }

  // ---- The view -----------------------------------------------------------------------------------------

  /** Some upsert of `id` was recorded by `known`. */
  ghost predicate NamedBy(events: Events, id: Id, known: Timestamp) {
    exists i :: 0 <= i < |events| && Upserts(events[i], id) && events[i].metadata.recordedAt <= known
  }

  lemma YieldsInv(events: Events, p: Projection)
    requires Yields(events, p)
    ensures Inv(p)
  {
    hide Inv, Apply;
    RunKeepsInv(EMPTY, events);
  }

  /** Whether a recorded fact is active, from the events. */
  lemma ActivityFromEvents(events: Events, p: Projection, f: MemoryFact, clock: Clock)
    requires Yields(events, p)
    ensures IsActive(p, f, clock) <==> ActiveByEvents(events, f, clock)
  {
    hide Yields, Inv, SupersededAt, RetractedAt, ReplacedBy, RetractedBy;
    YieldsInv(events, p);
    SupersededMeaning(events, p, f.id, clock);
    RetractedMeaning(events, p, f.id, clock);
  }

  /** The whole view from the events: a node is shown exactly if it is what the last known upsert of its id
      says, and a fact exactly if it was recorded, is active, and both its ends are named by then. */
  lemma ViewFromEvents(events: Events, p: Projection, clock: Clock, n: MemoryNode, f: MemoryFact)
    requires Yields(events, p)
    ensures n in View(p, clock).nodes <==> Names(events, n.id, clock.knownAt, n)
    ensures f in View(p, clock).facts
            <==> (exists i: nat :: Records(events, i, f)) && ActiveByEvents(events, f, clock)
                 && NamedBy(events, f.source, clock.knownAt) && NamedBy(events, f.target, clock.knownAt)
  {
    hide Yields, Consistent, SupersessionsComplete, View, IsActive, ActiveByEvents, VisibleNode, Names, FactsOf, FilterFacts;
    YieldsInv(events, p);
    ShownMeans(p, clock, f);
    FactsMeetEvents(events, p);
    FactRecordedAt(events, f);
    ActivityFromEvents(events, p, f, clock);
    NodeFromEvents(events, p, f.source, clock.knownAt, n);
    NodeFromEvents(events, p, f.target, clock.knownAt, n);
    NodeFromEvents(events, p, n.id, clock.knownAt, n);
    ViewMeaning(p, clock);
    NodeShown(p, clock.knownAt, n);
  }

  /** A node stands in the view exactly if it is the one found under its id. */
  lemma NodeShown(p: Projection, known: Timestamp, n: MemoryNode)
    requires Consistent(p)
    ensures n in VisibleNodes(p.nodes, known) <==> VisibleNode(p.nodes, n.id, known) == Some(n)
  {
    hide VisibleRevision, FactsOk;
    VisibleMember(p.nodes, known, n);
    if i: nat :| i < |p.nodes| && VisibleRevision(p.nodes[i], known) == Some(n) {
      assert HistoryOk(p.nodes[i]);
      VisibleRevisionHasId(p.nodes[i], known);
      NodeIndexUnique(p.nodes, i);
    }
  }

  lemma {:induction false} VisibleMember(nodes: seq<NodeHistory>, known: Timestamp, n: MemoryNode)
    ensures n in VisibleNodes(nodes, known) <==> exists i: nat :: i < |nodes| && VisibleRevision(nodes[i], known) == Some(n)
    decreases |nodes|
  {
    hide VisibleRevision;
    if nodes != [] {
      var m := |nodes| - 1;
      VisibleMember(nodes[..m], known, n);
      assert forall i | 0 <= i < m :: nodes[..m][i] == nodes[i];
    }
  }

  // ---- Which events are accepted ------------------------------------------------------------------------

  /** Some earlier event upserted a node of this id. */
  ghost predicate Named(events: Events, id: Id) {
    exists i :: 0 <= i < |events| && Upserts(events[i], id)
  }

  /** Some earlier event recorded a fact of this id. */
  ghost predicate Recorded(events: Events, id: Id) {
    exists i :: 0 <= i < |events| && events[i].payload.FactRecorded? && events[i].payload.fact.id == id
  }

  /** Some earlier event recorded a replacement for this id. */
  ghost predicate Replaced(events: Events, id: Id) {
    exists i :: 0 <= i < |events| && Replaces(events[i], id)
  }

  /** Some earlier event recorded a fact of this id that begins at `until` or later. */
  ghost predicate BeginsLater(events: Events, id: Id, until: Timestamp) {
    exists i :: 0 <= i < |events| && events[i].payload.FactRecorded? && events[i].payload.fact.id == id
                && until <= events[i].payload.fact.validFrom
  }

  /** Evidence names its kind and its source, and leaves no optional part blank. */
  predicate EvidenceComplete(e: Evidence) {
    && IsProperText(e.kind) && IsProperText(e.source)
    && (e.locator == None || IsProperText(e.locator.value))
    && (e.digest == None || IsProperText(e.digest.value))
  }

  predicate NodeComplete(n: MemoryNode) {
    && IsProperText(n.kind) && n.labelText != []
    && (n.repository == None || IsProperText(n.repository.value))
    && (n.branch == None || IsProperText(n.branch.value))
    && (forall key | key in n.attributes.Keys :: IsProperText(key))
  }

  /** Observed no later than recorded, valid for a while, and backed by evidence. */
  predicate FactComplete(f: MemoryFact) {
    && IsProperText(f.relation)
    && f.recordedAt >= f.observedAt
    && (f.validUntil == None || f.validUntil.value > f.validFrom)
    && |f.evidence| > 0
    && forall e | e in f.evidence :: EvidenceComplete(e)
  }

  /** Why an event is refused after a run, in the order of the checks; none if it is accepted. */
  ghost function Refusal(events: Events, e: StoredEvent<MemoryEvent>): Option<Error> {
    var m := e.metadata;
    match e.payload
    case NodeUpserted(n) =>
      if m.eventType != NodeUpsertedType || !NodeComplete(n) then Some(InvalidValue) else None
    case FactRecorded(f) =>
      if m.eventType != FactRecordedType then Some(InvalidValue)
      else if f.recordedAt != m.recordedAt || f.agentId != m.agentId || f.sessionId != m.sessionId then Some(InvalidValue)
      else if !FactComplete(f) then Some(InvalidValue)
      else if !Named(events, f.source) then Some(MissingEntity(f.source))
      else if !Named(events, f.target) then Some(MissingEntity(f.target))
      else if Recorded(events, f.id) then Some(ConflictingFact(f.id))
      else if f.supersedes == None then None
      else if !Recorded(events, f.supersedes.value) then Some(MissingFact(f.supersedes.value))
      else if Replaced(events, f.supersedes.value) then Some(ConflictingFact(f.supersedes.value))
      else None
    case FactRetracted(id, until, evidence) =>
      if m.eventType != FactRetractedType then Some(InvalidValue)
      else if !Recorded(events, id) then Some(MissingFact(id))
      else if BeginsLater(events, id, until) || evidence == [] || !(forall x | x in evidence :: EvidenceComplete(x))
      then Some(InvalidValue)
      else None
  }

  lemma NamesStep(p: Projection, e: StoredEvent<MemoryEvent>, id: Id)
    requires Apply(p, e).Ok?
    ensures HasNode(Apply(p, e).value.nodes, id) <==> HasNode(p.nodes, id) || Upserts(e, id)
  {
    hide NodeValid, FactError, AllEvidenceValid, NodeIndex;
    match e.payload {
      case NodeUpserted(node) => InsertNodeKeepsNodes(p, RevisionOf(e), id);
      case FactRecorded(fact) => InsertFactShape(p, fact);
      case FactRetracted(_, _, _) => RetractionShape(p, e);
    }
  }

  lemma {:induction false} NamesMeetNodes(events: Events, p: Projection, id: Id)
    requires Yields(events, p)
    ensures HasNode(p.nodes, id) <==> Named(events, id)
    decreases |events|
  {
    hide Inv, Apply, NodeIndex, Upserts;
    if events == [] {
      NoNodesYet(id);
    } else {
      var n := |events| - 1;
      var front, e := events[..n], events[n];
      var before := YieldsStep(events, p);
      NamesMeetNodes(front, before, id);
      NamesStep(before, e, id);
      assert forall j | 0 <= j < n :: front[j] == events[j];
    }
  }

  lemma NoNodesYet(id: Id)
    ensures !HasNode(EMPTY.nodes, id)
  {}

  lemma RecordedMeetFacts(events: Events, p: Projection, id: Id)
    requires Yields(events, p)
    ensures HasFact(p.facts, id) <==> Recorded(events, id)
  {
    hide Apply, FactsOf, ApplyAll;
    FactsMeetEvents(events, p);
    if HasFact(p.facts, id) {
      var f := p.facts[FactIndex(p.facts, id).value];
      assert f in p.facts;
      FactRecordedAt(events, f);
      var i: nat :| Records(events, i, f);
      assert events[i].payload.fact.id == id;
    }
    if Recorded(events, id) {
      var i :| 0 <= i < |events| && events[i].payload.FactRecorded? && events[i].payload.fact.id == id;
      var f := events[i].payload.fact;
      assert Records(events, i, f);
      FactRecordedAt(events, f);
      var j :| 0 <= j < |p.facts| && p.facts[j] == f;
      assert p.facts[j].id == id;
    }
  }

  lemma ReplacedMeetsMap(events: Events, p: Projection, id: Id)
    requires Yields(events, p)
    ensures id in p.supersessions <==> Replaced(events, id)
  {
    hide ApplyAll, FactsOf, Consistent, SupersessionsComplete;
    YieldsInv(events, p);
    FactsMeetEvents(events, p);
    if id in p.supersessions {
      SupersessionsDetermined(p, id, p.supersessions[id]);
      var j :| 0 <= j < |p.facts| && p.facts[j].supersedes == Some(id) && p.supersessions[id] == SupersessionBy(p.facts[j]);
      assert p.facts[j] in p.facts;
      FactRecordedAt(events, p.facts[j]);
      var i: nat :| Records(events, i, p.facts[j]);
      assert Replaces(events[i], id);
    }
    if Replaced(events, id) {
      var i :| 0 <= i < |events| && Replaces(events[i], id);
      var f := events[i].payload.fact;
      assert Records(events, i, f);
      FactRecordedAt(events, f);
      var j :| 0 <= j < |p.facts| && p.facts[j] == f;
      SupersessionsDetermined(p, id, SupersessionBy(f));
    }
  }

  lemma ValidationMeaning(n: MemoryNode, f: MemoryFact, evidence: seq<Evidence>)
    ensures NodeValid(n) <==> NodeComplete(n)
    ensures FactValid(f) <==> FactComplete(f)
    ensures AllEvidenceValid(evidence) <==> forall x | x in evidence :: EvidenceComplete(x)
  {
    hide IsProperText;
    assert forall x :: EvidenceValid(x) <==> EvidenceComplete(x);
    forall list: seq<Evidence> ensures AllEvidenceValid(list) <==> forall x | x in list :: EvidenceComplete(x) {
      assert forall i | 0 <= i < |list| :: list[i] in list;
    }
  }

  lemma RetractionBegin(events: Events, p: Projection, id: Id, until: Timestamp)
    requires Yields(events, p) && HasFact(p.facts, id)
    ensures until <= p.facts[FactIndex(p.facts, id).value].validFrom <==> BeginsLater(events, id, until)
  {
    hide ApplyAll, FactsOf, NodesOk, SupersessionsComplete, FactOk;
    YieldsInv(events, p);
    FactsMeetEvents(events, p);
    var f := p.facts[FactIndex(p.facts, id).value];
    assert f in p.facts;
    FactRecordedAt(events, f);
    var k: nat :| Records(events, k, f);
    if BeginsLater(events, id, until) {
      var i :| 0 <= i < |events| && events[i].payload.FactRecorded? && events[i].payload.fact.id == id
               && until <= events[i].payload.fact.validFrom;
      var g := events[i].payload.fact;
      assert Records(events, i, g);
      FactRecordedAt(events, g);
      var j :| 0 <= j < |p.facts| && p.facts[j] == g;
      FactIndexUnique(p.facts, j);
    }
  }

  /** After any run from nothing, an event is accepted exactly if `Refusal` finds nothing, and refused with
      just that error otherwise. */
  lemma AcceptanceFromEvents(events: Events, p: Projection, e: StoredEvent<MemoryEvent>)
    requires Yields(events, p)
    ensures match Refusal(events, e)
            case None => Apply(p, e).Ok?
            case Some(error) => Apply(p, e) == Err(error)
  {
    hide Yields, NodeValid, FactValid, AllEvidenceValid, NodeComplete, FactComplete, EvidenceComplete, Named, Recorded, Replaced, BeginsLater;
    match e.payload {
      case NodeUpserted(n) =>
        ValidationMeaning(n, SomeFact(), []);
      case FactRecorded(f) =>
        ValidationMeaning(SomeNode(), f, []);
        FactAcceptance(events, p, f);
      case FactRetracted(id, until, evidence) =>
        ValidationMeaning(SomeNode(), SomeFact(), evidence);
        RecordedMeetFacts(events, p, id);
        if HasFact(p.facts, id) {
          RetractionBegin(events, p, id, until);
        }
    }
  }

  function SomeNode(): MemoryNode {
    MemoryNode([], [], [], None, None, map[])
  }

  function SomeFact(): MemoryFact {
    MemoryFact([], [], [], [], 0, None, 0, 0, [], [], 0, [], None)
  }

  lemma FactAcceptance(events: Events, p: Projection, f: MemoryFact)
    requires Yields(events, p)
    ensures HasNode(p.nodes, f.source) <==> Named(events, f.source)
    ensures HasNode(p.nodes, f.target) <==> Named(events, f.target)
    ensures HasFact(p.facts, f.id) <==> Recorded(events, f.id)
    ensures f.supersedes.Some? ==> (f.supersedes.value in FactIds(p.facts) <==> Recorded(events, f.supersedes.value))
    ensures f.supersedes.Some? ==> (f.supersedes.value in p.supersessions <==> Replaced(events, f.supersedes.value))
  {
    hide Yields, Named, Recorded, Replaced;
    NamesMeetNodes(events, p, f.source);
    NamesMeetNodes(events, p, f.target);
    RecordedMeetFacts(events, p, f.id);
    if f.supersedes.Some? {
      RecordedMeetFacts(events, p, f.supersedes.value);
      FactIdsSearch(p.facts, f.supersedes.value);
      ReplacedMeetsMap(events, p, f.supersedes.value);
    }
  }

  // ---- Which replays are accepted ------------------------------------------------------------------------

  /** The cursor after a replay: the position of the last event, and the version each stream has. */
  lemma {:induction false} ReplayTracks(p: Projection, cursor: Replay.ReplayCursor, log: Events, events: Events, z: bool)
    requires Stores.CursorTracks(cursor, log)
    requires Replay.ReplayFrom(p, cursor, Replay.EventIds(log), events, z).Ok?
    ensures Stores.CursorTracks(Replay.ReplayFrom(p, cursor, Replay.EventIds(log), events, z).value.cursor, log + events)
    decreases |events|
  {
    hide Stores.CursorTracks, Replay.ValidateNext, Replay.EventIds, Apply, Stores.Fits;
    if events == [] {
      assert log + events == log;
    } else {
      var e := events[0];
      Replay.ZeroStartUnused(cursor, Replay.EventIds(log), e);
      Stores.CursorFits(cursor, log, e);
      Stores.EventIdsStep(log, e);
      ReplayTracks(Apply(p, e).value, Replay.Advance(cursor, e), log + [e], events[1..], z);
      assert (log + [e]) + events[1..] == log + events;
    }
  }

  lemma StartTracks()
    ensures Stores.CursorTracks<MemoryEvent>(Replay.START, []) && Replay.EventIds<MemoryEvent>([]) == {}
  {}

  /** A replayed snapshot: its projection is that of the run, and its cursor names the last position and the
      last version of every stream. */
  lemma ReplayedSnapshot(events: Events, s: Replay.Snapshot)
    requires Replay.ReplayAll(events) == Ok(s)
    ensures Yields(events, s.projection)
    ensures Stores.CursorTracks(s.cursor, events)
  {
    hide Stores.CursorTracks, ApplyAll, Replay.CursorsAccept, Replay.ReplayFrom;
    StartTracks();
    var none: Events := [];
    assert none + events == events;
    ReplayTracks(EMPTY, Replay.START, none, events, true);
    Replay.ReplayIsApplication(EMPTY, Replay.START, {}, events);
  }

  /** Why the next event of a replay is refused: a known id, the wrong position, the wrong version of its
      stream, or else what the projection says. */
  ghost function ReplayRefusal(events: Events, e: StoredEvent<MemoryEvent>): Option<Error> {
    var m := e.metadata;
    if exists i :: 0 <= i < |events| && events[i].metadata.id == m.id then Some(DuplicateEvent(m.id))
    else if |events| >= U64_LIMIT then Some(CapacityOverflow)
    else if m.globalPosition != |events| then Some(InvalidReplay)
    else if Stores.NextVersion(events, m.streamId) >= U64_LIMIT then Some(CapacityOverflow)
    else if m.streamVersion != Stores.NextVersion(events, m.streamId) then Some(InvalidReplay)
    else Refusal(events, e)
  }

  lemma NextMeaning(cursor: Replay.ReplayCursor, events: Events, e: StoredEvent<MemoryEvent>, z: bool)
    requires Stores.CursorTracks(cursor, events)
    ensures var r, m := Replay.ValidateNext(cursor, Replay.EventIds(events), e, z), e.metadata;
            if exists i :: 0 <= i < |events| && events[i].metadata.id == m.id then r == Err(DuplicateEvent(m.id))
            else if |events| >= U64_LIMIT then r == Err(CapacityOverflow)
            else if m.globalPosition != |events| then r == Err(InvalidReplay)
            else if Stores.NextVersion(events, m.streamId) >= U64_LIMIT then r == Err(CapacityOverflow)
            else if m.streamVersion != Stores.NextVersion(events, m.streamId) then r == Err(InvalidReplay)
            else r.Ok?
  {
    hide Stores.StreamVersion;
    assert Replay.VersionOf(cursor, e.metadata.streamId) == Stores.StreamVersion(events, e.metadata.streamId);
  }

  /** After an accepted replay, the next event is accepted exactly if `ReplayRefusal` finds nothing, and
      otherwise the whole replay fails with just that error. */
  lemma ReplayAcceptance(events: Events, e: StoredEvent<MemoryEvent>)
    requires Replay.ReplayAll(events).Ok?
    ensures match ReplayRefusal(events, e)
            case None => Replay.ReplayAll(events + [e]).Ok?
            case Some(error) => Replay.ReplayAll(events + [e]) == Err(error)
  {
    hide Yields, Stores.CursorTracks, Refusal, Apply, Stores.NextVersion, Replay.ValidateNext, Replay.EventIds;
    var s := Replay.ReplayAll(events).value;
    ReplayedSnapshot(events, s);
    Replay.ReplaySplit(EMPTY, Replay.START, {}, events, [e], true);
    assert {} + Replay.EventIds(events) == Replay.EventIds(events);
    NextMeaning(s.cursor, events, e, true);
    AcceptanceFromEvents(events, s.projection, e);
    assert [e][1..] == [];
  }
}
