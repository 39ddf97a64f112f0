/** Bulk construction and event replay accept the same parts and build the same projection. */
module BulkReplay {
  import opened Common
  import opened Domain
  import opened Projections
  import opened Views
  import opened Replay
  import opened Parts
  import Stores

  ghost predicate NodeEvent(e: StoredEvent<MemoryEvent>, node: MemoryNode, knownAt: Timestamp, position: int) {
    && e.payload == NodeUpserted(node)
    && e.metadata.eventType == NodeUpsertedType
    && e.metadata.recordedAt == knownAt
    && e.metadata.globalPosition == position
  }

  ghost predicate FactEvent(e: StoredEvent<MemoryEvent>, fact: MemoryFact) {
    e.payload == FactRecorded(fact) && e.metadata.eventType == FactRecordedType && EnvelopeMatches(e.metadata, fact)
  }

  /** The events that record all nodes at `knownAt` and then all facts, numbered from zero. */
  ghost predicate Describes(events: Events, nodes: seq<MemoryNode>, facts: seq<MemoryFact>, knownAt: Timestamp) {
    && |events| == |nodes| + |facts| <= U64_LIMIT
    && (forall i | 0 <= i < |nodes| :: NodeEvent(events[i], nodes[i], knownAt, i))
    && (forall j | 0 <= j < |facts| :: FactEvent(events[|nodes| + j], facts[j]))
  }

  /** Every replaced fact comes before its replacement; `known` are the ids so far. */
  predicate SupersedesEarlier(known: set<Id>, facts: seq<MemoryFact>)
    decreases |facts|
  {
    facts == []
    || ((facts[0].supersedes.Some? ==> facts[0].supersedes.value in known)
        && SupersedesEarlier(known + {facts[0].id}, facts[1..]))
  }

  lemma {:induction false} ApplySplit(p: Projection, a: Events, b: Events)
    ensures var first := ApplyAll(p, a);
            ApplyAll(p, a + b) == if first.Ok? then ApplyAll(first.value, b) else first
    decreases |a|
  {
    hide Apply;
    if a == [] {
      assert a + b == b;
    } else {
      assert (a + b)[1..] == a[1..] + b;
      if Apply(p, a[0]).Ok? {
        ApplySplit(Apply(p, a[0]).value, a[1..], b);
      }
    }
  }

  // ---- Nodes -------------------------------------------------------------------------

  function NodesOnly(nodes: seq<NodeHistory>, last: Option<u64>): Projection {
    Projection(nodes, [], map[], map[], last)
  }

  lemma ApplyNode(acc: seq<NodeHistory>, last: Option<u64>, e: StoredEvent<MemoryEvent>, node: MemoryNode, knownAt: Timestamp)
    requires |acc| < U64_LIMIT && NodeEvent(e, node, knownAt, |acc|) && !HasNode(acc, node.id)
    ensures Apply(NodesOnly(acc, last), e)
         == if NodeValid(node) then Ok(NodesOnly(acc + [NewHistory(node, knownAt, |acc|)], Some(|acc|))) else Err(InvalidValue)
  {}

  lemma {:induction false} NodePhase(acc: seq<NodeHistory>, nodes: seq<MemoryNode>, knownAt: Timestamp, events: Events,
                                     last: Option<u64>)
    requires |acc| + |nodes| <= U64_LIMIT && |events| == |nodes|
    requires forall i | 0 <= i < |nodes| :: NodeEvent(events[i], nodes[i], knownAt, |acc| + i)
    requires DistinctAfter(acc, nodes, knownAt)
    ensures ApplyAll(NodesOnly(acc, last), events).Ok? <==> AddNodes(acc, nodes, knownAt).Ok?
    ensures ApplyAll(NodesOnly(acc, last), events).Ok? ==>
              var q := ApplyAll(NodesOnly(acc, last), events).value;
              q == NodesOnly(AddNodes(acc, nodes, knownAt).value, q.lastPosition)
    decreases |nodes|
  {
    if nodes != [] {
      assert NodeEvent(events[0], nodes[0], knownAt, |acc| + 0);
      ApplyNode(acc, last, events[0], nodes[0], knownAt);
      hide NodeValid, HasNode, Apply, NodeEvent;
      var rest := events[1..];
      forall i | 0 <= i < |nodes[1..]| ensures NodeEvent(rest[i], nodes[1..][i], knownAt, |acc| + 1 + i) {
        assert NodeEvent(events[i + 1], nodes[i + 1], knownAt, |acc| + (i + 1));
      }
      NodePhase(acc + [NewHistory(nodes[0], knownAt, |acc|)], nodes[1..], knownAt, rest, Some(|acc|));
    }
  }

  // ---- Facts -------------------------------------------------------------------------------

  function WithFacts(nodes: seq<NodeHistory>, facts: seq<MemoryFact>, s: map<Id, Supersession>, last: Option<u64>): Projection {
    Projection(nodes, facts, s, map[], last)
  }

  ghost predicate AllFactsOk(nodes: seq<NodeHistory>, facts: seq<MemoryFact>) {
    forall i | 0 <= i < |facts| :: FactOk(nodes, facts[i])
  }

  /** When replay accepts one more fact, and what it then holds. */
  lemma ApplyFact(nodes: seq<NodeHistory>, done: seq<MemoryFact>, s: map<Id, Supersession>, last: Option<u64>,
                  e: StoredEvent<MemoryEvent>, f: MemoryFact)
    requires FactEvent(e, f)
    ensures var r := Apply(WithFacts(nodes, done, s, last), e);
            && (r.Ok? <==> FactOk(nodes, f) && f.id !in FactIds(done)
                           && (f.supersedes.Some? ==> Supersede(FactIds(done), s, f.supersedes.value, f).Ok?))
            && (r.Ok? ==> r.value == WithFacts(nodes, done + [f],
                                               if f.supersedes.None? then s else s[f.supersedes.value := SupersessionBy(f)],
                                               Some(e.metadata.globalPosition)))
  {
    hide FactValid, NodeIndex, FactIndex, FactIds;
    FactIdsSearch(done, f.id);
  }

  /** What the rest of the facts must satisfy, in the bulk builder's terms. */
  ghost predicate RestAccepted(nodes: seq<NodeHistory>, done: seq<MemoryFact>, known: set<Id>, s: map<Id, Supersession>,
                               todo: seq<MemoryFact>)
  {
    && AllFactsOk(nodes, todo)
    && RegisterIds(FactIds(done), todo).Ok?
    && SupersedesEarlier(FactIds(done), todo)
    && SupersedeAll(known, s, todo).Ok?
  }

  lemma AllFactsOkFirst(nodes: seq<NodeHistory>, facts: seq<MemoryFact>)
    requires facts != []
    ensures AllFactsOk(nodes, facts) <==> FactOk(nodes, facts[0]) && AllFactsOk(nodes, facts[1..])
  {
    hide FactOk;
    if FactOk(nodes, facts[0]) && AllFactsOk(nodes, facts[1..]) {
      forall i | 0 <= i < |facts| ensures FactOk(nodes, facts[i]) {
        if i > 0 {
          assert facts[i] == facts[1..][i - 1];
        }
      }
    }
  }

  /** One fact ahead: replay's check now, against the bulk builder's three separate passes. */
  lemma RestStep(nodes: seq<NodeHistory>, done: seq<MemoryFact>, known: set<Id>, s: map<Id, Supersession>,
                 todo: seq<MemoryFact>, t: map<Id, Supersession>)
    requires todo != [] && FactIds(done) <= known
    requires t == if todo[0].supersedes.None? then s else s[todo[0].supersedes.value := SupersessionBy(todo[0])]
    ensures RestAccepted(nodes, done, known, s, todo)
            <==> FactOk(nodes, todo[0]) && todo[0].id !in FactIds(done)
                 && (todo[0].supersedes.Some? ==> Supersede(FactIds(done), s, todo[0].supersedes.value, todo[0]).Ok?)
                 && RestAccepted(nodes, done + [todo[0]], known, t, todo[1..])
    ensures RestAccepted(nodes, done, known, s, todo) ==> SupersedeAll(known, s, todo) == SupersedeAll(known, t, todo[1..])
  {
    hide FactOk, FactIds, AllFactsOk;
    AllFactsOkFirst(nodes, todo);
    FactIdsAppend(done, todo[0]);
  }

  lemma {:induction false} FactPhase(nodes: seq<NodeHistory>, done: seq<MemoryFact>, known: set<Id>, s: map<Id, Supersession>,
                                     todo: seq<MemoryFact>, events: Events, last: Option<u64>)
    requires |events| == |todo| && (forall j | 0 <= j < |todo| :: FactEvent(events[j], todo[j]))
    requires FactIds(done + todo) <= known
    ensures ApplyAll(WithFacts(nodes, done, s, last), events).Ok? <==> RestAccepted(nodes, done, known, s, todo)
    ensures ApplyAll(WithFacts(nodes, done, s, last), events).Ok? ==>
              var q := ApplyAll(WithFacts(nodes, done, s, last), events).value;
              q == WithFacts(nodes, done + todo, SupersedeAll(known, s, todo).value, q.lastPosition)
    decreases |todo|
  {
    hide FactOk, FactIds, Apply, FactEvent, RegisterIds;
    if todo == [] {
      assert done + todo == done;
      NothingLeft(nodes, done, known, s);
    } else {
      hide RestAccepted, SupersedeAll;
      var f := todo[0];
      var t := if f.supersedes.None? then s else s[f.supersedes.value := SupersessionBy(f)];
      IdsOfPart(done, todo);
      ApplyFact(nodes, done, s, last, events[0], f);
      RestStep(nodes, done, known, s, todo, t);
      assert (done + [f]) + todo[1..] == done + todo;
      if Apply(WithFacts(nodes, done, s, last), events[0]).Ok? {
        forall j | 0 <= j < |todo[1..]| ensures FactEvent(events[1..][j], todo[1..][j]) {
          assert FactEvent(events[j + 1], todo[j + 1]);
        }
        FactPhase(nodes, done + [f], known, t, todo[1..], events[1..], Some(events[0].metadata.globalPosition));
      }
    }
  }

  lemma NothingLeft(nodes: seq<NodeHistory>, done: seq<MemoryFact>, known: set<Id>, s: map<Id, Supersession>)
    ensures RestAccepted(nodes, done, known, s, []) && SupersedeAll(known, s, []) == Ok(s)
  {}

  lemma IdsOfPart(a: seq<MemoryFact>, b: seq<MemoryFact>)
    ensures FactIds(a) <= FactIds(a + b)
  {
    forall x | x in FactIds(a) ensures x in FactIds(a + b) {
      var i :| 0 <= i < |a| && a[i].id == x;
      assert (a + b)[i].id == x;
    }
  }

  // ---- The two routes ----------------------------------------------------------------------------

  /** What replay does not check on the way and bulk building does: node ids that repeat would be
      revisions, and facts may be recorded at any time. */
  ghost predicate BulkShaped(nodes: seq<MemoryNode>, facts: seq<MemoryFact>, knownAt: Timestamp)
    requires |nodes| <= U64_LIMIT
  {
    DistinctAfter([], nodes, knownAt) && forall j | 0 <= j < |facts| :: facts[j].recordedAt <= knownAt
  }

  /** The bulk builder's acceptance, unfolded into the terms the fact phase uses. */
  lemma FromPartsMeaning(nodes: seq<MemoryNode>, facts: seq<MemoryFact>, knownAt: Timestamp, position: Option<u64>)
    requires |nodes| <= U64_LIMIT && BulkShaped(nodes, facts, knownAt) && AddNodes([], nodes, knownAt).Ok?
    ensures var h := AddNodes([], nodes, knownAt).value;
            && (FromParts(nodes, facts, knownAt, position).Ok? && SupersedesEarlier({}, facts)
                <==> RestAccepted(h, [], FactIds(facts), map[], facts))
            && (RestAccepted(h, [], FactIds(facts), map[], facts) ==>
                  FromParts(nodes, facts, knownAt, position).value
                  == WithFacts(h, facts, SupersedeAll(FactIds(facts), map[], facts).value, position))
  {
    hide AddNodes, PrepareFacts, RegisterIds, SupersedeAll, SupersedesEarlier, FactOk, DistinctAfter;
    var h := AddNodes([], nodes, knownAt).value;
    PrepareMeaning(h, facts, knownAt);
    assert AllFactsOk(h, facts) <==> PrepareFacts(h, facts, knownAt, []).Ok? by {
      if AllFactsOk(h, facts) {
        forall i | 0 <= i < |facts| ensures PreparedOk(h, facts[i], knownAt) {}
      } else {
        var i :| 0 <= i < |facts| && !FactOk(h, facts[i]);
        assert !PreparedOk(h, facts[i], knownAt);
      }
    }
    assert FactIds([]) == {} && [] + facts == facts;
    RegisterMeaning([], facts);
  }

  lemma PartsRefuseShape(nodes: seq<MemoryNode>, facts: seq<MemoryFact>, knownAt: Timestamp, position: Option<u64>)
    requires |nodes| <= U64_LIMIT && FromParts(nodes, facts, knownAt, position).Ok?
    ensures BulkShaped(nodes, facts, knownAt)
  {
    hide AddNodes, PrepareFacts, RegisterIds, SupersedeAll, FactOk, DistinctAfter, NodeValid, Histories;
    AddNodesMeaning([], nodes, knownAt);
    PrepareMeaning(AddNodes([], nodes, knownAt).value, facts, knownAt);
    forall j | 0 <= j < |facts| ensures facts[j].recordedAt <= knownAt {
      assert PreparedOk(AddNodes([], nodes, knownAt).value, facts[j], knownAt);
    }
  }

  lemma EventsSplit(nodes: seq<MemoryNode>, facts: seq<MemoryFact>, knownAt: Timestamp, events: Events)
    requires Describes(events, nodes, facts, knownAt)
    ensures var a, b := events[..|nodes|], events[|nodes|..];
            && events == a + b
            && (forall i | 0 <= i < |nodes| :: NodeEvent(a[i], nodes[i], knownAt, 0 + i))
            && (forall j | 0 <= j < |facts| :: FactEvent(b[j], facts[j]))
  {
    hide NodeEvent, FactEvent;
    var b := events[|nodes|..];
    forall j | 0 <= j < |facts| ensures FactEvent(b[j], facts[j]) {
      assert FactEvent(events[|nodes| + j], facts[j]);
    }
  }

  /** Bulk building succeeds, with every replacement after what it replaces, exactly when replaying
      the same nodes and facts succeeds and the parts have the bulk shape; both then agree. */
  lemma PartsMeetReplay(nodes: seq<MemoryNode>, facts: seq<MemoryFact>, knownAt: Timestamp, position: Option<u64>,
                        events: Events)
    requires Describes(events, nodes, facts, knownAt)
    ensures FromParts(nodes, facts, knownAt, position).Ok? && SupersedesEarlier({}, facts)
            <==> ApplyAll(EMPTY, events).Ok? && BulkShaped(nodes, facts, knownAt)
    ensures FromParts(nodes, facts, knownAt, position).Ok? && SupersedesEarlier({}, facts) ==>
              FromParts(nodes, facts, knownAt, position).value == ApplyAll(EMPTY, events).value.(lastPosition := position)
  {
    hide AddNodes, SupersedeAll, RestAccepted, SupersedesEarlier, FromParts, Apply, BulkShaped, FactIds;
    if FromParts(nodes, facts, knownAt, position).Ok? {
      PartsRefuseShape(nodes, facts, knownAt, position);
    }
    if BulkShaped(nodes, facts, knownAt) {
      RoutesAgree(nodes, facts, knownAt, position, events);
    }
  }

  /** The same against the cursor-checked replay: it accepts the events exactly when they are numbered
      without gaps, repeat no identifier, and describe parts that bulk building accepts in order. */
  lemma PartsMeetCheckedReplay(nodes: seq<MemoryNode>, facts: seq<MemoryFact>, knownAt: Timestamp, position: Option<u64>,
                               events: Events)
    requires Describes(events, nodes, facts, knownAt)
    ensures FromParts(nodes, facts, knownAt, position).Ok? && SupersedesEarlier({}, facts) && Stores.WellNumbered(events)
            <==> ReplayAll(events).Ok? && BulkShaped(nodes, facts, knownAt)
    ensures ReplayAll(events).Ok? && BulkShaped(nodes, facts, knownAt) ==>
              FromParts(nodes, facts, knownAt, position).value == ReplayAll(events).value.projection.(lastPosition := position)
  {
    hide FromParts, SupersedesEarlier, BulkShaped, Describes, ApplyAll, Stores.WellNumbered, CursorsAccept;
    PartsMeetReplay(nodes, facts, knownAt, position, events);
    ReplayIsApplication(EMPTY, START, {}, events);
    Stores.ReplayAcceptsNumbered(events);
  }

  lemma RoutesAgree(nodes: seq<MemoryNode>, facts: seq<MemoryFact>, knownAt: Timestamp, position: Option<u64>, events: Events)
    requires Describes(events, nodes, facts, knownAt) && BulkShaped(nodes, facts, knownAt)
    ensures FromParts(nodes, facts, knownAt, position).Ok? && SupersedesEarlier({}, facts) <==> ApplyAll(EMPTY, events).Ok?
    ensures ApplyAll(EMPTY, events).Ok? ==>
              FromParts(nodes, facts, knownAt, position).value == ApplyAll(EMPTY, events).value.(lastPosition := position)
  {
    hide AddNodes, SupersedeAll, RestAccepted, SupersedesEarlier, FromParts, Apply, FactIds, ApplyAll;
    hide NodeEvent, FactEvent;
    var a, b := events[..|nodes|], events[|nodes|..];
    EventsSplit(nodes, facts, knownAt, events);
    ApplySplit(EMPTY, a, b);
    assert EMPTY == NodesOnly([], None);
    NodePhase([], nodes, knownAt, a, None);
    if AddNodes([], nodes, knownAt).Ok? {
      var h := AddNodes([], nodes, knownAt).value;
      var last := ApplyAll(EMPTY, a).value.lastPosition;
      assert ApplyAll(EMPTY, a).value == WithFacts(h, [], map[], last);
      FromPartsMeaning(nodes, facts, knownAt, position);
      assert [] + facts == facts;
      FactPhase(h, [], FactIds(facts), map[], facts, b, last);
    } else {
      NoNodesNoParts(nodes, facts, knownAt, position);
    }
  }

  lemma NoNodesNoParts(nodes: seq<MemoryNode>, facts: seq<MemoryFact>, knownAt: Timestamp, position: Option<u64>)
    requires AddNodes([], nodes, knownAt).Err?
    ensures FromParts(nodes, facts, knownAt, position).Err?
  {}
}
