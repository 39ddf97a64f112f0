/** Building a projection in bulk from nodes and facts, and its agreement with replay. */
module Parts {
  import opened Common
  import opened Domain
  import opened Projections
  import opened Views
  import opened IdIndexes
  import opened Incidents
  import opened MemoryProjections
  import opened Replay

  // ---- The bulk construction as a value ---------------------------------------------

  function NewHistory(node: MemoryNode, knownAt: Timestamp, position: u64): NodeHistory {
    NodeHistory(NodeRevision(node, knownAt, position), [])
  }

  /** Appends the nodes one by one; a repeated id is an error here, not a revision. */
  function AddNodes(acc: seq<NodeHistory>, nodes: seq<MemoryNode>, knownAt: Timestamp): Result<seq<NodeHistory>>
    decreases |nodes|
  {
    if nodes == [] then Ok(acc)
    else if !NodeValid(nodes[0]) || HasNode(acc, nodes[0].id) then Err(InvalidValue)
    else if |acc| >= U64_LIMIT then Err(CapacityOverflow)
    else AddNodes(acc + [NewHistory(nodes[0], knownAt, |acc|)], nodes[1..], knownAt)
  }

  function PrepareFact(nodes: seq<NodeHistory>, fact: MemoryFact, knownAt: Timestamp): Result<(nat, nat)> {
    if fact.recordedAt > knownAt || !FactValid(fact) then Err(InvalidValue)
    else if !HasNode(nodes, fact.source) then Err(MissingEntity(fact.source))
    else if !HasNode(nodes, fact.target) then Err(MissingEntity(fact.target))
    else Ok(EndpointOf(nodes, fact))
  }

  /** In order; the first failing fact decides the error. */
  function PrepareFacts(nodes: seq<NodeHistory>, facts: seq<MemoryFact>, knownAt: Timestamp, acc: Endpoints)
    : Result<Endpoints>
    decreases |facts|
  {
    if facts == [] then Ok(acc)
    else
      var e :- PrepareFact(nodes, facts[0], knownAt);
      PrepareFacts(nodes, facts[1..], knownAt, acc + [e])
  }

  function RegisterIds(seen: set<Id>, facts: seq<MemoryFact>): Result<set<Id>>
    decreases |facts|
  {
    if facts == [] then Ok(seen)
    else if facts[0].id in seen then Err(ConflictingFact(facts[0].id))
    else RegisterIds(seen + {facts[0].id}, facts[1..])
  }

  function SupersedeAll(known: set<Id>, supersessions: map<Id, Supersession>, facts: seq<MemoryFact>)
    : Result<map<Id, Supersession>>
    decreases |facts|
  {
    if facts == [] then Ok(supersessions)
    else if facts[0].supersedes.None? then SupersedeAll(known, supersessions, facts[1..])
    else
      var next :- Supersede(known, supersessions, facts[0].supersedes.value, facts[0]);
      SupersedeAll(known, next, facts[1..])
  }

  function FromParts(nodes: seq<MemoryNode>, facts: seq<MemoryFact>, knownAt: Timestamp, position: Option<u64>)
    : Result<Projection>
  {
    var histories :- AddNodes([], nodes, knownAt);
    var _ :- PrepareFacts(histories, facts, knownAt, []);
    var known :- RegisterIds({}, facts);
    var supersessions :- SupersedeAll(known, map[], facts);
    Ok(Projection(histories, facts, supersessions, map[], position))
  }

  // ---- Chunked preparation ------------------------------------------------------------------

  lemma {:induction false} PrepareSplit(nodes: seq<NodeHistory>, a: seq<MemoryFact>, b: seq<MemoryFact>, knownAt: Timestamp,
                                        acc: Endpoints)
    ensures var first := PrepareFacts(nodes, a, knownAt, acc);
            PrepareFacts(nodes, a + b, knownAt, acc) ==
            if first.Ok? then PrepareFacts(nodes, b, knownAt, first.value) else first
    decreases |a|
  {
    hide PrepareFact;
    if a == [] {
      assert a + b == b;
    } else {
      assert (a + b)[1..] == a[1..] + b;
      var e := PrepareFact(nodes, a[0], knownAt);
      if e.Ok? {
        PrepareSplit(nodes, a[1..], b, knownAt, acc + [e.value]);
      }
    }
  }

  lemma {:induction false} PrepareFresh(nodes: seq<NodeHistory>, facts: seq<MemoryFact>, knownAt: Timestamp, acc: Endpoints)
    ensures var alone := PrepareFacts(nodes, facts, knownAt, []);
            PrepareFacts(nodes, facts, knownAt, acc) == if alone.Ok? then Ok(acc + alone.value) else alone
    decreases |facts|
  {
    hide PrepareFact;
    if facts == [] {
      assert acc + [] == acc;
    } else {
      var e := PrepareFact(nodes, facts[0], knownAt);
      if e.Ok? {
        PrepareFresh(nodes, facts[1..], knownAt, acc + [e.value]);
        PrepareFresh(nodes, facts[1..], knownAt, [e.value]);
        assert [] + [e.value] == [e.value];
        var rest := PrepareFacts(nodes, facts[1..], knownAt, []);
        if rest.Ok? {
          assert (acc + [e.value]) + rest.value == acc + ([e.value] + rest.value);
        }
      }
    }
  }

  const CHUNK: nat := 16_384

  function CeilDiv(n: nat, d: nat): nat
    requires d > 0
  {
    (n + d - 1) / d
  }

  lemma CeilDivPositive(n: nat, d: nat)
    requires d > 0 && n > 0
    ensures CeilDiv(n, d) > 0
  {}

  /** Splitting the facts over any number of workers changes neither the result nor the error. */
  method PrepareInChunks(nodes: seq<NodeHistory>, facts: seq<MemoryFact>, knownAt: Timestamp, parallelism: nat)
    returns (r: Result<Endpoints>)
    ensures r == PrepareFacts(nodes, facts, knownAt, [])
  {
    hide PrepareFacts;
    var wanted := CeilDiv(|facts|, CHUNK);
    var workers := if parallelism < wanted then parallelism else wanted;
    if workers <= 1 {
      return PrepareFacts(nodes, facts, knownAt, []);
    }
    assert facts != [];
    var size := CeilDiv(|facts|, workers);
    CeilDivPositive(|facts|, workers);
    var prepared: Endpoints := [];
    var start := 0;
    assert facts[0..] == facts;
    while start < |facts|
      invariant start <= |facts|
      invariant PrepareFacts(nodes, facts[start..], knownAt, prepared) == PrepareFacts(nodes, facts, knownAt, [])
      decreases |facts| - start
    {
      var end := if start + size < |facts| then start + size else |facts|;
      var chunk := facts[start..end];
      PrepareSplit(nodes, chunk, facts[end..], knownAt, prepared);
      assert facts[start..] == chunk + facts[end..];
      PrepareFresh(nodes, chunk, knownAt, prepared);
      var part := PrepareFacts(nodes, chunk, knownAt, []);
      if part.Err? {
        return part;
      }
      prepared := prepared + part.value;
      start := end;
    }
    NothingToPrepare(nodes, knownAt, prepared);
    assert facts[start..] == [];
    r := Ok(prepared);
  }

  lemma NothingToPrepare(nodes: seq<NodeHistory>, knownAt: Timestamp, acc: Endpoints)
    ensures PrepareFacts(nodes, [], knownAt, acc) == Ok(acc)
  {}

  // ---- What each stage establishes --------------------------------------------------------------

  function Histories(acc: seq<NodeHistory>, nodes: seq<MemoryNode>, knownAt: Timestamp): seq<NodeHistory>
    requires |acc| + |nodes| <= U64_LIMIT
    decreases |nodes|
  {
    if nodes == [] then acc else Histories(acc + [NewHistory(nodes[0], knownAt, |acc|)], nodes[1..], knownAt)
  }

  /** No node repeats an id that came before it. */
  predicate DistinctAfter(acc: seq<NodeHistory>, nodes: seq<MemoryNode>, knownAt: Timestamp)
    requires |acc| + |nodes| <= U64_LIMIT
    decreases |nodes|
  {
    nodes == []
    || (!HasNode(acc, nodes[0].id) && DistinctAfter(acc + [NewHistory(nodes[0], knownAt, |acc|)], nodes[1..], knownAt))
  }

  lemma {:induction false} AddNodesMeaning(acc: seq<NodeHistory>, nodes: seq<MemoryNode>, knownAt: Timestamp)
    requires |acc| + |nodes| <= U64_LIMIT
    ensures AddNodes(acc, nodes, knownAt).Ok?
            <==> DistinctAfter(acc, nodes, knownAt) && forall i | 0 <= i < |nodes| :: NodeValid(nodes[i])
    ensures AddNodes(acc, nodes, knownAt).Ok? ==> AddNodes(acc, nodes, knownAt).value == Histories(acc, nodes, knownAt)
    ensures AddNodes(acc, nodes, knownAt).Ok? && NodesOk(acc) ==> NodesOk(Histories(acc, nodes, knownAt))
    decreases |nodes|
  {
    hide NodeValid, HasNode, NodesOk;
    if nodes != [] {
      AddNodesMeaning(acc + [NewHistory(nodes[0], knownAt, |acc|)], nodes[1..], knownAt);
      if NodesOk(acc) && NodeValid(nodes[0]) && !HasNode(acc, nodes[0].id) {
        AddNodeOk(acc, NodeRevision(nodes[0], knownAt, |acc|));
      }
      assert forall i | 0 < i < |nodes| :: nodes[i] == nodes[1..][i - 1];
    }
  }

  ghost predicate PreparedOk(nodes: seq<NodeHistory>, f: MemoryFact, knownAt: Timestamp) {
    f.recordedAt <= knownAt && FactOk(nodes, f)
  }

  lemma {:induction false} PrepareMeaning(nodes: seq<NodeHistory>, facts: seq<MemoryFact>, knownAt: Timestamp)
    ensures PrepareFacts(nodes, facts, knownAt, []).Ok?
            <==> forall i | 0 <= i < |facts| :: PreparedOk(nodes, facts[i], knownAt)
    ensures PrepareFacts(nodes, facts, knownAt, []).Ok? ==>
              PrepareFacts(nodes, facts, knownAt, []).value == EndpointsOf(nodes, facts)
    decreases |facts|
  {
    if facts != [] {
      var n := |facts| - 1;
      PrepareMeaning(nodes, facts[..n], knownAt);
      PrepareSplit(nodes, facts[..n], [facts[n]], knownAt, []);
      var front := PrepareFacts(nodes, facts[..n], knownAt, []);
      PrepareOne(nodes, facts[n], knownAt, if front.Ok? then front.value else []);
      hide PrepareFacts, FactOk, EndpointOf;
      assert facts == facts[..n] + [facts[n]];
      assert PreparedOk(nodes, facts[n], knownAt) || !PreparedOk(nodes, facts[n], knownAt);
    }
  }

  /** The error of preparation is that of the first fact that cannot be prepared. */
  lemma {:induction false} FirstUnprepared(nodes: seq<NodeHistory>, facts: seq<MemoryFact>, knownAt: Timestamp, acc: Endpoints)
    returns (i: nat)
    requires PrepareFacts(nodes, facts, knownAt, acc).Err?
    ensures i < |facts| && !PreparedOk(nodes, facts[i], knownAt)
    ensures forall j | 0 <= j < i :: PreparedOk(nodes, facts[j], knownAt)
    ensures PrepareFacts(nodes, facts, knownAt, acc).error
         == if facts[i].recordedAt > knownAt || !FactValid(facts[i]) then InvalidValue
            else if !HasNode(nodes, facts[i].source) then MissingEntity(facts[i].source)
            else MissingEntity(facts[i].target)
    decreases |facts|
  {
    hide FactValid, NodeIndex;
    i := 0;
    if PrepareFact(nodes, facts[0], knownAt).Ok? {
      var k := FirstUnprepared(nodes, facts[1..], knownAt, acc + [PrepareFact(nodes, facts[0], knownAt).value]);
      i := k + 1;
      assert forall j | 0 < j <= i :: facts[j] == facts[1..][j - 1];
    }
  }

  /** Registering fails at the first fact whose id was seen before. */
  lemma {:induction false} FirstRepeated(seen: set<Id>, facts: seq<MemoryFact>) returns (i: nat)
    requires RegisterIds(seen, facts).Err?
    ensures i < |facts| && RegisterIds(seen, facts).error == ConflictingFact(facts[i].id)
    ensures facts[i].id in seen || exists j: nat :: j < i && facts[j].id == facts[i].id
    ensures forall j | 0 <= j < i :: facts[j].id !in seen
    ensures forall j, k | 0 <= j < k < i :: facts[j].id != facts[k].id
    decreases |facts|
  {
    i := 0;
    if facts[0].id !in seen {
      var k := FirstRepeated(seen + {facts[0].id}, facts[1..]);
      i := k + 1;
      assert forall j | 0 < j <= i :: facts[j] == facts[1..][j - 1];
      if facts[i].id !in seen && facts[i].id != facts[0].id {
        var j: nat :| j < k && facts[1..][j].id == facts[1..][k].id;
        assert facts[j + 1].id == facts[i].id;
      }
    }
  }

  /** Replacing fails at the first fact that replaces an unknown one, or one already replaced. */
  lemma {:induction false} FirstUnreplaceable(known: set<Id>, supersessions: map<Id, Supersession>, facts: seq<MemoryFact>)
    returns (i: nat)
    requires SupersedeAll(known, supersessions, facts).Err?
    ensures i < |facts| && facts[i].supersedes.Some?
    ensures var prior := facts[i].supersedes.value;
            SupersedeAll(known, supersessions, facts).error
            == (if prior !in known then MissingFact(prior) else ConflictingFact(prior))
            && (prior in known ==> prior in supersessions || exists j: nat :: j < i && facts[j].supersedes == Some(prior))
    ensures forall j | 0 <= j < i && facts[j].supersedes.Some? ::
              facts[j].supersedes.value in known && facts[j].supersedes.value !in supersessions
    decreases |facts|
  {
    i := 0;
    var step := if facts[0].supersedes.None? then Ok(supersessions)
                else Supersede(known, supersessions, facts[0].supersedes.value, facts[0]);
    if step.Ok? {
      var k := FirstUnreplaceable(known, step.value, facts[1..]);
      i := k + 1;
      assert forall j | 0 < j <= i :: facts[j] == facts[1..][j - 1];
      var prior := facts[i].supersedes.value;
      if prior in known && prior !in supersessions && facts[0].supersedes != Some(prior) {
        var j: nat :| j < k && facts[1..][j].supersedes == Some(prior);
        assert facts[j + 1].supersedes == Some(prior);
      }
    }
  }

  /** Adding nodes fails at the first one that is incomplete or repeats an id. */
  lemma {:induction false} FirstBadNode(acc: seq<NodeHistory>, nodes: seq<MemoryNode>, knownAt: Timestamp) returns (i: nat)
    requires AddNodes(acc, nodes, knownAt).Err? && |acc| + |nodes| <= U64_LIMIT
    ensures i < |nodes| && AddNodes(acc, nodes, knownAt).error == InvalidValue
    ensures !NodeValid(nodes[i]) || HasNode(acc, nodes[i].id) || exists j: nat :: j < i && nodes[j].id == nodes[i].id
    ensures forall j | 0 <= j < i :: NodeValid(nodes[j]) && !HasNode(acc, nodes[j].id)
    decreases |nodes|
  {
    hide NodeValid, NodeIndex;
    i := 0;
    if NodeValid(nodes[0]) && !HasNode(acc, nodes[0].id) {
      var h := NewHistory(nodes[0], knownAt, |acc|);
      var k := FirstBadNode(acc + [h], nodes[1..], knownAt);
      i := k + 1;
      assert forall j | 0 < j <= i :: nodes[j] == nodes[1..][j - 1];
      forall j | 0 < j <= i ensures HasNode(acc + [h], nodes[j].id) <==> HasNode(acc, nodes[j].id) || nodes[0].id == nodes[j].id {
        NodeIndexAppend(acc, h, nodes[j].id);
      }
      if NodeValid(nodes[i]) && !HasNode(acc, nodes[i].id) && nodes[0].id != nodes[i].id {
        var j: nat :| j < k && nodes[1..][j].id == nodes[1..][k].id;
        assert nodes[j + 1].id == nodes[i].id;
      }
    }
  }

  lemma PrepareOne(nodes: seq<NodeHistory>, f: MemoryFact, knownAt: Timestamp, acc: Endpoints)
    ensures var e := PrepareFact(nodes, f, knownAt);
            PrepareFacts(nodes, [f], knownAt, acc) == if e.Ok? then Ok(acc + [e.value]) else Err(e.error)
    ensures PrepareFact(nodes, f, knownAt).Ok? <==> PreparedOk(nodes, f, knownAt)
    ensures PrepareFact(nodes, f, knownAt).Ok? ==> PrepareFact(nodes, f, knownAt).value == EndpointOf(nodes, f)
  {
    assert [f][1..] == [];
  }

  lemma FactIdsAppend(facts: seq<MemoryFact>, f: MemoryFact)
    ensures FactIds(facts + [f]) == FactIds(facts) + {f.id}
  {
    var all := facts + [f];
    assert all[|facts|] == f;
    forall x | x in FactIds(facts) ensures x in FactIds(all) {
      var i :| 0 <= i < |facts| && facts[i].id == x;
      assert all[i].id == x;
    }
  }

  lemma {:induction false} RegisterMeaning(done: seq<MemoryFact>, todo: seq<MemoryFact>)
    requires FactIdsUnique(done)
    ensures RegisterIds(FactIds(done), todo).Ok? <==> FactIdsUnique(done + todo)
    ensures RegisterIds(FactIds(done), todo).Ok? ==> RegisterIds(FactIds(done), todo).value == FactIds(done + todo)
    decreases |todo|
  {
    if todo == [] {
      assert done + todo == done;
    } else {
      FactIdsAppend(done, todo[0]);
      assert done + todo == (done + [todo[0]]) + todo[1..];
      if todo[0].id in FactIds(done) {
        var i :| 0 <= i < |done| && done[i].id == todo[0].id;
        assert (done + todo)[i].id == (done + todo)[|done|].id;
      } else {
        assert FactIdsUnique(done + [todo[0]]) by {
          FactIdsSearch(done, todo[0].id);
        }
        RegisterMeaning(done + [todo[0]], todo[1..]);
      }
    }
  }

  /** Every entry is backed, whatever the order in which facts replace each other. */
  lemma {:induction false} SupersedeAllBacked(facts: seq<MemoryFact>, n: nat, s: map<Id, Supersession>)
    requires n <= |facts| && FactIdsUnique(facts)
    requires forall k | k in s :: SupersessionBacked(facts, k, s[k])
    requires SupersedeAll(FactIds(facts), s, facts[n..]).Ok?
    ensures var t := SupersedeAll(FactIds(facts), s, facts[n..]).value;
            forall k | k in t :: SupersessionBacked(facts, k, t[k])
    decreases |facts| - n
  {
    hide FactIds;
    if n < |facts| {
      var f := facts[n];
      assert facts[n..][1..] == facts[n + 1..];
      if f.supersedes.Some? {
        var prior := f.supersedes.value;
        FactIdsSearch(facts, prior);
        FactIndexUnique(facts, n);
        assert SupersessionBacked(facts, prior, SupersessionBy(f));
        SupersedeAllBacked(facts, n + 1, s[prior := SupersessionBy(f)]);
      } else {
        SupersedeAllBacked(facts, n + 1, s);
      }
    }
  }

  lemma {:induction false} AddNodesFits(acc: seq<NodeHistory>, nodes: seq<MemoryNode>, knownAt: Timestamp)
    requires AddNodes(acc, nodes, knownAt).Ok? && |acc| <= U64_LIMIT
    ensures |acc| + |nodes| <= U64_LIMIT
    decreases |nodes|
  {
    hide NodeValid, HasNode;
    if nodes != [] {
      AddNodesFits(acc + [NewHistory(nodes[0], knownAt, |acc|)], nodes[1..], knownAt);
    }
  }

  lemma AddedNodesOk(nodes: seq<MemoryNode>, knownAt: Timestamp)
    requires AddNodes([], nodes, knownAt).Ok?
    ensures NodesOk(AddNodes([], nodes, knownAt).value)
  {
    hide AddNodes, Histories, DistinctAfter, NodeValid;
    AddNodesFits([], nodes, knownAt);
    AddNodesMeaning([], nodes, knownAt);
    assert NodesOk([]);
  }

  lemma PreparedFactsOk(nodes: seq<NodeHistory>, facts: seq<MemoryFact>, knownAt: Timestamp)
    requires PrepareFacts(nodes, facts, knownAt, []).Ok? && RegisterIds({}, facts).Ok?
    ensures FactsOk(nodes, facts)
    ensures RegisterIds({}, facts).value == FactIds(facts)
  {
    hide PrepareFacts, RegisterIds, FactOk;
    PrepareMeaning(nodes, facts, knownAt);
    assert FactIds([]) == {} && [] + facts == facts;
    RegisterMeaning([], facts);
    forall i | 0 <= i < |facts| ensures FactOk(nodes, facts[i]) {
      assert PreparedOk(nodes, facts[i], knownAt);
    }
  }

  /** A bulk-built projection is consistent. */
  lemma FromPartsConsistent(nodes: seq<MemoryNode>, facts: seq<MemoryFact>, knownAt: Timestamp, position: Option<u64>)
    requires FromParts(nodes, facts, knownAt, position).Ok?
    ensures Consistent(FromParts(nodes, facts, knownAt, position).value)
  {
    hide AddNodes, PrepareFacts, RegisterIds, SupersedeAll, NodesOk, FactOk, SupersessionBacked;
    var histories := AddNodes([], nodes, knownAt).value;
    AddedNodesOk(nodes, knownAt);
    PreparedFactsOk(histories, facts, knownAt);
    assert facts[0..] == facts;
    SupersedeAllBacked(facts, 0, map[]);
  }

  // ---- The bulk construction as a method ----------------------------------------------------------

  method AddAllNodes(projection: MemoryProjection, nodes: seq<MemoryNode>, knownAt: Timestamp) returns (r: Result<()>)
    requires projection.LookupsValid() && projection.nodeLookup.Contents == map[] && projection.nodes == []
    modifies projection`nodes, projection.nodeLookup
    ensures projection.LookupsValid()
    ensures match AddNodes([], nodes, knownAt)
            case Ok(h) => r.Ok? && projection.nodes == h && IndexesNodes(projection.nodeLookup.Contents, h)
            case Err(e) => r == Err(e)
  {
    hide IndexesNodes, NodeIndex, NodeValid, IdIndex.Valid;
    EmptyIndexes();
    assert nodes[0..] == nodes;
    for i := 0 to |nodes|
      invariant projection.LookupsValid()
      invariant IndexesNodes(projection.nodeLookup.Contents, projection.nodes)
      invariant AddNodes(projection.nodes, nodes[i..], knownAt) == AddNodes([], nodes, knownAt)
    {
      var node := nodes[i];
      assert nodes[i..][0] == node && nodes[i..][1..] == nodes[i + 1..];
      if !NodeValid(node) {
        return Err(InvalidValue);
      }
      var index := |projection.nodes|;
      ghost var m := projection.nodeLookup.Contents;
      NodeLookup(m, projection.nodes, node.id);
      var prior := projection.nodeLookup.Insert(node.id, index);
      if prior.Some? {
        return Err(InvalidValue);
      }
      if index >= U64_LIMIT {
        return Err(CapacityOverflow);
      }
      var history := NewHistory(node, knownAt, index);
      NewNodeIndexed(m, projection.nodes, history);
      projection.nodes := projection.nodes + [history];
    }
    r := Ok(());
  }

  lemma NewNodeIndexed(m: map<Id, nat>, nodes: seq<NodeHistory>, h: NodeHistory)
    requires IndexesNodes(m, nodes)
    ensures IndexesNodes(m[h.Id() := |nodes|], nodes + [h])
  {
    var all := nodes + [h];
    assert all[..|nodes|] == nodes && all[..|nodes| + 1] == all;
    IndexesNodesStep(m, all, |nodes|);
  }

  method RegisterFacts(index: IdIndex, facts: seq<MemoryFact>) returns (r: Result<()>)
    requires index.Valid() && index.Contents == map[]
    modifies index
    ensures index.Valid()
    ensures match RegisterIds({}, facts)
            case Ok(known) => r.Ok? && index.Contents.Keys == known && IndexesFacts(index.Contents, facts)
            case Err(e) => r == Err(e)
  {
    hide IndexesFacts, FactIndex, IdIndex.Valid;
    EmptyIndexes();
    assert facts[0..] == facts && facts[..0] == [] && index.Contents.Keys == {};
    for i := 0 to |facts|
      invariant index.Valid() && IndexesFacts(index.Contents, facts[..i])
      invariant RegisterIds(index.Contents.Keys, facts[i..]) == RegisterIds({}, facts)
    {
      var id := facts[i].id;
      assert facts[i..][0] == facts[i] && facts[i..][1..] == facts[i + 1..];
      IndexesFactsStep(index.Contents, facts, i);
      ghost var known := index.Contents.Keys;
      var prior := index.InsertHashed(id, i, index.hash(id));
      if prior.Some? {
        return Err(ConflictingFact(id));
      }
      assert index.Contents.Keys == known + {id};
    }
    assert facts[..|facts|] == facts;
    r := Ok(());
  }

  method SupersedeFacts(projection: MemoryProjection, facts: seq<MemoryFact>) returns (r: Result<()>)
    requires projection.LookupsValid() && projection.supersessions == map[]
    modifies projection`supersessions
    ensures match SupersedeAll(projection.factLookup.Contents.Keys, map[], facts)
            case Ok(s) => r.Ok? && projection.supersessions == s
            case Err(e) => r == Err(e)
  {
    hide IdIndex.Valid;
    assert facts[0..] == facts;
    ghost var known := projection.factLookup.Contents.Keys;
    for i := 0 to |facts|
      invariant projection.LookupsValid()
      invariant SupersedeAll(known, projection.supersessions, facts[i..]) == SupersedeAll(known, map[], facts)
    {
      assert facts[i..][0] == facts[i] && facts[i..][1..] == facts[i + 1..];
      if facts[i].supersedes.Some? {
        r := projection.ApplySupersession(facts[i].supersedes.value, facts[i]);
        if r.Err? {
          return;
        }
      }
    }
    r := Ok(());
  }

  /** The last part: nothing can fail any more. */
  method FinishParts(projection: MemoryProjection, facts: seq<MemoryFact>, endpoints: Endpoints, position: Option<u64>)
    requires projection.LookupsValid()
    requires Consistent(projection.Value().(facts := facts))
    requires IndexesNodes(projection.nodeLookup.Contents, projection.nodes)
    requires IndexesFacts(projection.factLookup.Contents, facts)
    requires endpoints == EndpointsOf(projection.nodes, facts)
    modifies projection
    ensures projection.Valid() && projection.Value() == old(projection.Value()).(facts := facts, lastPosition := position)
    ensures projection.nodeLookup == old(projection.nodeLookup) && projection.factLookup == old(projection.factLookup)
  {
    hide Consistent, SupersessionsComplete, IndexesNodes, IndexesFacts, Indexed, EndpointsOf, InRange, FactsOk, IdIndex.Valid;
    ghost var p := projection.Value().(facts := facts);
    ConsistentFacts(p);
    PositionKeepsInv(p, position);
    projection.facts := facts;
    EndpointsInRange(projection.nodes, facts);
    projection.SetIncidents(endpoints);
    projection.lastGlobalPosition := position;
  }

  /** The whole construction, index by index, against its value. */
  method TryFromParts(nodes: seq<MemoryNode>, facts: seq<MemoryFact>, knownAt: Timestamp, position: Option<u64>,
                      parallelism: nat, hash: Id -> u64)
    returns (r: Result<MemoryProjection>)
    ensures match FromParts(nodes, facts, knownAt, position)
            case Ok(p) => r.Ok? && fresh(r.value) && r.value.Valid() && r.value.Value() == p
            case Err(e) => r == Err(e)
  {
    hide AddNodes, PrepareFacts, RegisterIds, SupersedeAll, Consistent, EndpointsOf;
    hide IndexesNodes, IndexesFacts, IndexedBy, IdIndex.Valid;
    var projection := new MemoryProjection.FromData(EMPTY, hash);
    var step := AddAllNodes(projection, nodes, knownAt);
    if step.Err? {
      return Err(step.error);
    }
    var endpoints := PrepareInChunks(projection.nodes, facts, knownAt, parallelism);
    if endpoints.Err? {
      return Err(endpoints.error);
    }
    step := RegisterFacts(projection.factLookup, facts);
    if step.Err? {
      return Err(step.error);
    }
    step := SupersedeFacts(projection, facts);
    if step.Err? {
      return Err(step.error);
    }
    FromPartsConsistent(nodes, facts, knownAt, None);
    PrepareMeaning(projection.nodes, facts, knownAt);
    FinishParts(projection, facts, endpoints.value, position);
    r := Ok(projection);
  }
}
