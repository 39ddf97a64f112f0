/** The neighborhood of a context request: a depth-bounded breadth-first search from several seeds. */
module Neighborhoods {
  import opened Common
  import opened Domain
  import opened Projections
  import opened Views
  import opened MemoryProjections
  import CompactCanon
  import CompactIo
  import Incidents

  datatype Request = Request(
    seeds: seq<Id>,
    validAt: Timestamp,
    knownAt: Timestamp,
    tokenBudget: nat,
    maxDepth: nat,
    relations: set<Text>,
    repositories: set<Text>,
    branches: set<Text>)

  /** A request together with the projection it is put to. */
  datatype Query = Query(p: Projection, rq: Request)

  // ---- Scope -----------------------------------------------------------------------

  predicate OneOf(wanted: set<Text>, value: Option<Text>) {
    wanted == {} || (value.Some? && value.value in wanted)
  }

  predicate NodeAllowed(rq: Request, n: MemoryNode) {
    OneOf(rq.repositories, n.repository) && OneOf(rq.branches, n.branch)
  }

  predicate RelationAllowed(rq: Request, relation: Text) {
    rq.relations == {} || relation in rq.relations
  }

  function ClockOf(rq: Request): Clock {
    Clock(rq.validAt, rq.knownAt)
  }

  // ---- The graph a request sees -------------------------------------------------------

  function NodeOf(q: Query, id: Id): Option<MemoryNode> {
    VisibleNode(q.p.nodes, id, q.rq.knownAt)
  }

  /** Visible and in scope. */
  predicate Good(q: Query, id: Id) {
    NodeOf(q, id).Some? && NodeAllowed(q.rq, NodeOf(q, id).value)
  }

  function FactOf(q: Query, id: Id): Option<MemoryFact> {
    match FactIndex(q.p.facts, id)
    case Some(i) => Some(q.p.facts[i])
    case None => None
  }

  predicate Live(q: Query, f: MemoryFact) {
    IsActive(q.p, f, ClockOf(q.rq)) && RelationAllowed(q.rq, f.relation)
  }

  predicate At(f: MemoryFact, c: Id) {
    f.source == c || f.target == c
  }

  function Other(f: MemoryFact, c: Id): Id {
    if f.source == c then f.target else f.source
  }

  /** The fact `id` is live and leads from `c` to `y`. */
  predicate Leads(q: Query, id: Id, c: Id, y: Id) {
    FactOf(q, id).Some? && At(FactOf(q, id).value, c) && Live(q, FactOf(q, id).value) && Other(FactOf(q, id).value, c) == y
  }

  ghost predicate Adjacent(q: Query, c: Id, y: Id) {
    Good(q, y) && exists id :: Leads(q, id, c, y)
  }

  /** What scope means: a non-empty set of repositories, branches or relations must hold the value, and a node
      without one does not count. */
  lemma ScopeMeaning(rq: Request, n: MemoryNode, relation: Text)
    ensures NodeAllowed(rq, n)
            <==> (rq.repositories != {} ==> exists r :: r in rq.repositories && n.repository == Some(r))
                 && (rq.branches != {} ==> exists b :: b in rq.branches && n.branch == Some(b))
    ensures RelationAllowed(rq, relation) <==> (rq.relations != {} ==> relation in rq.relations)
  {}

  /** `c` leads to `y` exactly if `y` is visible and in scope and a live fact joins the two, in either
      direction. */
  lemma AdjacentMeaning(q: Query, c: Id, y: Id)
    requires FactIdsUnique(q.p.facts)
    ensures Adjacent(q, c, y)
            <==> Good(q, y)
                 && exists i :: 0 <= i < |q.p.facts| && Live(q, q.p.facts[i])
                                && ((q.p.facts[i].source == c && q.p.facts[i].target == y)
                                    || (q.p.facts[i].source == y && q.p.facts[i].target == c))
  {
    hide Good, Live;
    if id :| Leads(q, id, c, y) {
      assert Live(q, q.p.facts[FactIndex(q.p.facts, id).value]);
    }
    if i :| 0 <= i < |q.p.facts| && Live(q, q.p.facts[i])
            && ((q.p.facts[i].source == c && q.p.facts[i].target == y) || (q.p.facts[i].source == y && q.p.facts[i].target == c)) {
      FactIndexUnique(q.p.facts, i);
      assert Leads(q, q.p.facts[i].id, c, y);
    }
  }

  /** The ball of radius `d` around the seeds. */
  ghost predicate Within(q: Query, x: Id, d: nat)
    decreases d
  {
    if d == 0 then x in q.rq.seeds
    else Within(q, x, d - 1) || exists c :: Within(q, c, d - 1) && Adjacent(q, c, x)
  }

  /** `d` is the least number of hops from a seed. */
  ghost predicate IsDistance(q: Query, x: Id, d: nat) {
    Within(q, x, d) && (d > 0 ==> !Within(q, x, d - 1))
  }

  /** A walk along live facts between good nodes, from a seed. */
  ghost predicate IsPath(q: Query, path: seq<Id>) {
    if |path| <= 1 then |path| == 1 && path[0] in q.rq.seeds
    else IsPath(q, path[..|path| - 1]) && Adjacent(q, path[|path| - 2], path[|path| - 1])
  }

  ghost predicate PathTo(q: Query, path: seq<Id>, x: Id, d: nat) {
    IsPath(q, path) && 0 < |path| <= d + 1 && path[|path| - 1] == x
  }

  lemma {:induction false} PathWithin(q: Query, path: seq<Id>, x: Id, d: nat)
    requires PathTo(q, path, x, d)
    ensures Within(q, x, d)
    decreases |path|
  {
    hide Adjacent;
    if |path| == 1 {
      WithinGrows(q, x, 0, d);
    } else {
      var c := path[|path| - 2];
      PathWithin(q, path[..|path| - 1], c, d - 1);
    }
  }

  lemma {:induction false} WithinGrows(q: Query, x: Id, d: nat, e: nat)
    requires Within(q, x, d) && d <= e
    ensures Within(q, x, e)
    decreases e
  {
    if d < e {
      WithinGrows(q, x, d, e - 1);
    }
  }

  lemma {:induction false} WithinHasPath(q: Query, x: Id, d: nat) returns (path: seq<Id>)
    requires Within(q, x, d)
    ensures PathTo(q, path, x, d)
    decreases d
  {
    hide Adjacent;
    if d == 0 {
      path := [x];
    } else if Within(q, x, d - 1) {
      path := WithinHasPath(q, x, d - 1);
    } else {
      var c :| Within(q, c, d - 1) && Adjacent(q, c, x);
      var front := WithinHasPath(q, c, d - 1);
      path := front + [x];
      assert path[..|path| - 1] == front;
    }
  }

  /** Balls are what paths reach: `IsDistance` is the length of a shortest path. */
  lemma BallsArePaths(q: Query, x: Id, d: nat)
    ensures Within(q, x, d) <==> exists path :: PathTo(q, path, x, d)
  {
    hide IsPath, Within;
    if Within(q, x, d) {
      var path := WithinHasPath(q, x, d);
    }
    if path :| PathTo(q, path, x, d) {
      PathWithin(q, path, x, d);
    }
  }

  // ---- What the search keeps -------------------------------------------------------------

  type Distances = map<Id, nat>

  /** The queue holds what is known and not yet expanded, nearest first, at most one level ahead. */
  ghost predicate Queued(dist: Distances, queue: seq<Id>, done: set<Id>, level: nat) {
    && (forall i | 0 <= i < |queue| :: queue[i] in dist && queue[i] !in done && level <= dist[queue[i]] <= level + 1)
    && (forall i, j | 0 <= i < j < |queue| :: queue[i] != queue[j] && dist[queue[i]] <= dist[queue[j]])
    && (forall x | x in done :: x in dist && dist[x] <= level)
    && (forall x | x in dist :: x in done || x in queue)
  }

  ghost predicate Measured(q: Query, dist: Distances) {
    && (forall s | s in q.rq.seeds :: s in dist)
    && forall x | x in dist :: IsDistance(q, x, dist[x]) && dist[x] <= q.rq.maxDepth && Good(q, x)
  }

  ghost predicate Closed(q: Query, dist: Distances, done: set<Id>) {
    forall x, y | x in done && x in dist && dist[x] < q.rq.maxDepth && Adjacent(q, x, y) :: y in dist
  }

  /** Between two expansions. */
  ghost predicate Searching(q: Query, dist: Distances, queue: seq<Id>, done: set<Id>, level: nat) {
    Queued(dist, queue, done, level) && Measured(q, dist) && Closed(q, dist, done)
  }

  /** While `c` is being expanded. */
  ghost predicate Expanding(q: Query, dist: Distances, queue: seq<Id>, done: set<Id>, c: Id) {
    && c in dist
    && Queued(dist, queue, done + {c}, dist[c]) && Measured(q, dist) && Closed(q, dist, done)
  }

  lemma DistanceBelow(q: Query, x: Id, d: nat, e: nat)
    requires IsDistance(q, x, d) && Within(q, x, e)
    ensures d <= e
  {
    hide Within;
    if e < d {
      WithinGrows(q, x, e, d - 1);
    }
  }

  /** Everything up to the level of the search is already known. */
  lemma {:induction false} LevelComplete(q: Query, dist: Distances, queue: seq<Id>, done: set<Id>, c: Id, x: Id, d: nat)
    requires Expanding(q, dist, queue, done, c) && Within(q, x, d) && d <= dist[c]
    ensures x in dist
    decreases d
  {
    hide Good, IsDistance, Adjacent;
    if d > 0 {
      if Within(q, x, d - 1) {
        LevelComplete(q, dist, queue, done, c, x, d - 1);
      } else {
        var b :| Within(q, b, d - 1) && Adjacent(q, b, x);
        LevelComplete(q, dist, queue, done, c, b, d - 1);
        DistanceBelow(q, b, dist[b], d - 1);
        assert b in done;
      }
    }
  }

  /** Everything in the ball is known once the queue is empty. */
  lemma {:induction false} BallComplete(q: Query, dist: Distances, done: set<Id>, level: nat, x: Id, d: nat)
    requires Searching(q, dist, [], done, level) && Within(q, x, d) && d <= q.rq.maxDepth
    ensures x in dist
    decreases d
  {
    hide Good, IsDistance, Adjacent;
    if d > 0 {
      if Within(q, x, d - 1) {
        BallComplete(q, dist, done, level, x, d - 1);
      } else {
        var b :| Within(q, b, d - 1) && Adjacent(q, b, x);
        BallComplete(q, dist, done, level, b, d - 1);
        DistanceBelow(q, b, dist[b], d - 1);
      }
    }
  }

  lemma PopStep(q: Query, dist: Distances, queue: seq<Id>, done: set<Id>, level: nat)
    requires Searching(q, dist, queue, done, level) && queue != []
    ensures Expanding(q, dist, queue[1..], done, queue[0])
  {
    hide Measured, Closed;
    var c, rest := queue[0], queue[1..];
    forall x | x in dist ensures x in done + {c} || x in rest {
      if x !in done && x != c {
        var i :| 0 <= i < |queue| && queue[i] == x;
        assert rest[i - 1] == x;
      }
    }
  }

  lemma PushStep(q: Query, dist: Distances, queue: seq<Id>, done: set<Id>, c: Id, y: Id)
    requires Expanding(q, dist, queue, done, c) && dist[c] < q.rq.maxDepth && Adjacent(q, c, y) && y !in dist
    ensures Expanding(q, dist[y := dist[c] + 1], queue + [y], done, c)
  {
    hide Good, Within, Adjacent;
    NewDistance(q, dist, queue, done, c, y);
    assert Good(q, y) by { AdjacentGood(q, c, y); }
  }

  lemma AdjacentGood(q: Query, c: Id, y: Id)
    requires Adjacent(q, c, y)
    ensures Good(q, y)
  {}

  lemma NewDistance(q: Query, dist: Distances, queue: seq<Id>, done: set<Id>, c: Id, y: Id)
    requires Expanding(q, dist, queue, done, c) && y !in dist && Adjacent(q, c, y)
    ensures IsDistance(q, y, dist[c] + 1)
  {
    hide Good, Adjacent, Queued, Closed;
    assert Within(q, c, dist[c]);
    if Within(q, y, dist[c]) {
      LevelComplete(q, dist, queue, done, c, y, dist[c]);
    }
  }

  lemma CloseStep(q: Query, dist: Distances, queue: seq<Id>, done: set<Id>, c: Id)
    requires Expanding(q, dist, queue, done, c)
    requires dist[c] < q.rq.maxDepth ==> forall y | Adjacent(q, c, y) :: y in dist
    ensures Searching(q, dist, queue, done + {c}, dist[c])
  {
    hide Adjacent, Queued, Measured;
  }

  /** When the queue is empty, what is known is the ball, with true distances. */
  lemma SearchEnds(q: Query, dist: Distances, done: set<Id>, level: nat)
    requires Searching(q, dist, [], done, level)
    ensures forall x :: x in dist <==> Within(q, x, q.rq.maxDepth)
    ensures forall x | x in dist :: IsDistance(q, x, dist[x])
    ensures done == dist.Keys
  {
    hide Within, Good, Adjacent, Closed;
    forall x ensures x in dist <==> Within(q, x, q.rq.maxDepth) {
      if x in dist {
        WithinGrows(q, x, dist[x], q.rq.maxDepth);
      } else if Within(q, x, q.rq.maxDepth) {
        BallComplete(q, dist, done, level, x, q.rq.maxDepth);
      }
    }
  }

  // ---- What the search collects --------------------------------------------------------------

  datatype Search = Search(
    dist: Distances,
    queue: seq<Id>,
    nodes: map<Id, MemoryNode>,
    facts: map<Id, MemoryFact>,
    excluded: set<Id>)

  /** One incident fact of `c`, met while `c` is expanded. */
  function Visit(q: Query, s: Search, c: Id, f: MemoryFact): Search
    requires c in s.dist
  {
    var y := Other(f, c);
    if !Live(q, f) || NodeOf(q, y).None? then s
    else if !NodeAllowed(q.rq, NodeOf(q, y).value) then s.(excluded := s.excluded + {f.id})
    else if y in s.dist then s.(facts := s.facts[f.id := f])
    else if s.dist[c] >= q.rq.maxDepth then s
    else Search(s.dist[y := s.dist[c] + 1], s.queue + [y], s.nodes[y := NodeOf(q, y).value], s.facts[f.id := f], s.excluded)
  }

  predicate OutOfScope(q: Query, id: Id) {
    NodeOf(q, id).Some? && !NodeAllowed(q.rq, NodeOf(q, id).value)
  }

  ghost predicate NodesMatch(q: Query, s: Search) {
    s.nodes.Keys == s.dist.Keys && forall x | x in s.nodes :: NodeOf(q, x) == Some(s.nodes[x])
  }

  ghost predicate FactSound(q: Query, s: Search, id: Id, f: MemoryFact) {
    FactOf(q, id) == Some(f) && Live(q, f) && f.source in s.dist && f.target in s.dist
  }

  ghost predicate CrossesFrom(q: Query, s: Search, f: MemoryFact, c: Id) {
    c in s.dist && OutOfScope(q, Other(f, c))
  }

  ghost predicate ExcludedSound(q: Query, s: Search, id: Id) {
    && FactOf(q, id).Some?
    && var f := FactOf(q, id).value;
       Live(q, f) && (CrossesFrom(q, s, f, f.source) || CrossesFrom(q, s, f, f.target))
  }

  ghost predicate Matches(q: Query, s: Search) {
    && NodesMatch(q, s)
    && (forall id | id in s.facts :: FactSound(q, s, id, s.facts[id]))
    && (forall id | id in s.excluded :: ExcludedSound(q, s, id))
  }

  /** The fact `f` at the expanded node `c` has been dealt with. */
  ghost predicate Handled(q: Query, s: Search, c: Id, f: MemoryFact) {
    c in s.dist && At(f, c) && Live(q, f) ==>
      var y := Other(f, c);
      && (Good(q, y) && (y in s.dist || s.dist[c] < q.rq.maxDepth) ==> f.id in s.facts)
      && (OutOfScope(q, y) ==> f.id in s.excluded)
  }

  ghost predicate AllHandled(q: Query, s: Search, done: set<Id>) {
    forall c, i | c in done && 0 <= i < |q.p.facts| :: Handled(q, s, c, q.p.facts[i])
  }

  lemma VisitExpands(q: Query, s: Search, done: set<Id>, c: Id, f: MemoryFact)
    requires Expanding(q, s.dist, s.queue, done, c) && FactOf(q, f.id) == Some(f) && At(f, c)
    ensures var t := Visit(q, s, c, f);
            Expanding(q, t.dist, t.queue, done, c) && t.dist[c] == s.dist[c]
  {
    hide Queued, Measured, Closed, Live, NodeOf, NodeAllowed;
    var y := Other(f, c);
    if Live(q, f) && Good(q, y) && y !in s.dist && s.dist[c] < q.rq.maxDepth {
      assert Leads(q, f.id, c, y);
      PushStep(q, s.dist, s.queue, done, c, y);
    }
  }

  lemma VisitMatches(q: Query, s: Search, c: Id, f: MemoryFact)
    requires c in s.dist && Matches(q, s) && FactOf(q, f.id) == Some(f) && At(f, c)
    ensures Matches(q, Visit(q, s, c, f))
  {
    hide Live, NodeOf, FactOf, NodeAllowed;
    var t := Visit(q, s, c, f);
    forall id | id in t.facts ensures FactSound(q, t, id, t.facts[id]) {
      if id != f.id {
        assert FactSound(q, s, id, s.facts[id]);
      }
    }
    forall id | id in t.excluded ensures ExcludedSound(q, t, id) {
      if id in s.excluded {
        assert ExcludedSound(q, s, id);
      } else {
        assert CrossesFrom(q, t, f, c);
      }
    }
  }

  /** Visiting deals with the fact visited, and undoes nothing. */
  lemma VisitHandles(q: Query, s: Search, c: Id, f: MemoryFact, d: Id, g: MemoryFact)
    requires c in s.dist && d in s.dist && s.dist[d] <= s.dist[c]
    ensures Handled(q, Visit(q, s, c, f), c, f)
    ensures Handled(q, s, d, g) ==> Handled(q, Visit(q, s, c, f), d, g)
  {
    hide Live, NodeOf, NodeAllowed;
  }

  /** A visit keeps everything already handled, at expanded nodes and at `c`. */
  lemma VisitKeepsHandled(q: Query, s: Search, done: set<Id>, c: Id, f: MemoryFact)
    requires Expanding(q, s.dist, s.queue, done, c) && AllHandled(q, s, done)
    ensures AllHandled(q, Visit(q, s, c, f), done)
  {
    hide Handled, Visit, Measured, Closed;
    forall d, i | d in done && 0 <= i < |q.p.facts| ensures Handled(q, Visit(q, s, c, f), d, q.p.facts[i]) {
      assert Handled(q, s, d, q.p.facts[i]);
      VisitHandles(q, s, c, f, d, q.p.facts[i]);
    }
  }

  // ---- Incident lists -------------------------------------------------------------------------

  lemma IncidentFact(p: Projection, c: Id, i: nat)
    requires Consistent(p) && i < |p.facts| && HasNode(p.nodes, c) && At(p.facts[i], c)
    ensures p.facts[i].id in IncidentIds(p, c)
  {
    hide Incidents.Touching;
    var k := NodeIndex(p.nodes, c).value;
    var endpoints := EndpointsOf(p.nodes, p.facts);
    assert endpoints[i] == EndpointOf(p.nodes, p.facts[i]);
    Incidents.TouchingComplete(endpoints, k);
    var list := Incidents.Touching(endpoints, k);
    assert i in list;
    var j :| 0 <= j < |list| && list[j] == i;
    assert IncidentIds(p, c)[j] == p.facts[i].id;
  }

  lemma IncidentIsAt(q: Query, c: Id, j: nat)
    requires Consistent(q.p) && j < |IncidentIds(q.p, c)|
    ensures FactOf(q, IncidentIds(q.p, c)[j]).Some?
    ensures var f := FactOf(q, IncidentIds(q.p, c)[j]).value;
            At(f, c) && f.id == IncidentIds(q.p, c)[j]
  {
    hide Incidents.Touching;
    var p := q.p;
    var k := NodeIndex(p.nodes, c).value;
    var endpoints := EndpointsOf(p.nodes, p.facts);
    var list := Incidents.Touching(endpoints, k);
    var i := list[j];
    assert Incidents.Touches(endpoints[i], k);
    assert FactOk(p.nodes, p.facts[i]);
    assert IncidentIds(p, c)[j] == p.facts[i].id;
    FactIndexUnique(p.facts, i);
  }

  // ---- The result --------------------------------------------------------------------------------

  datatype Neighborhood = Neighborhood(
    nodes: map<Id, MemoryNode>,
    facts: map<Id, MemoryFact>,
    distances: Distances,
    excluded: nat)

  ghost predicate InBall(q: Query, x: Id) {
    Within(q, x, q.rq.maxDepth)
  }

  /** A live fact with both ends in the ball. */
  ghost predicate Inside(q: Query, f: MemoryFact) {
    Live(q, f) && InBall(q, f.source) && InBall(q, f.target)
  }

  /** A live fact from the ball to a visible node out of scope. */
  ghost predicate Crossing(q: Query, f: MemoryFact) {
    && Live(q, f)
    && (|| (InBall(q, f.source) && OutOfScope(q, f.target))
        || (InBall(q, f.target) && OutOfScope(q, f.source)))
  }

  ghost function InsideIds(q: Query): set<Id> {
    set i | 0 <= i < |q.p.facts| && Inside(q, q.p.facts[i]) :: q.p.facts[i].id
  }

  ghost function CrossingIds(q: Query): set<Id> {
    set i | 0 <= i < |q.p.facts| && Crossing(q, q.p.facts[i]) :: q.p.facts[i].id
  }

  /** What the search is for, without mentioning how it runs. */
  ghost predicate IsNeighborhood(q: Query, r: Neighborhood) {
    && (forall x :: x in r.distances <==> InBall(q, x))
    && (forall x | x in r.distances :: IsDistance(q, x, r.distances[x]))
    && r.nodes.Keys == r.distances.Keys
    && (forall x | x in r.nodes :: NodeOf(q, x) == Some(r.nodes[x]))
    && r.facts.Keys == InsideIds(q)
    && (forall id | id in r.facts :: FactOf(q, id) == Some(r.facts[id]))
    && r.excluded == |CrossingIds(q)|
  }

  /** All of the search's state between two expansions. */
  ghost predicate Running(q: Query, s: Search, done: set<Id>, level: nat) {
    Searching(q, s.dist, s.queue, done, level) && Matches(q, s) && AllHandled(q, s, done)
  }

  lemma FactsEnd(q: Query, s: Search, id: Id)
    requires Consistent(q.p) && Matches(q, s) && AllHandled(q, s, s.dist.Keys)
    requires forall x :: x in s.dist <==> InBall(q, x)
    requires forall x | x in s.dist :: Good(q, x)
    ensures id in s.facts <==> id in InsideIds(q)
  {
    hide InBall, Live, NodeOf, NodeAllowed, Consistent;
    if id in s.facts {
      assert FactSound(q, s, id, s.facts[id]);
      var i := FactIndex(q.p.facts, id).value;
      assert Inside(q, q.p.facts[i]);
    }
    if id in InsideIds(q) {
      var i :| 0 <= i < |q.p.facts| && Inside(q, q.p.facts[i]) && q.p.facts[i].id == id;
      assert Handled(q, s, q.p.facts[i].source, q.p.facts[i]);
    }
  }

  lemma ExcludedEnd(q: Query, s: Search, id: Id)
    requires Consistent(q.p) && Matches(q, s) && AllHandled(q, s, s.dist.Keys)
    requires forall x :: x in s.dist <==> InBall(q, x)
    requires forall x | x in s.dist :: Good(q, x)
    ensures id in s.excluded <==> id in CrossingIds(q)
  {
    hide InBall, Live, NodeOf, NodeAllowed, Consistent;
    if id in s.excluded {
      assert ExcludedSound(q, s, id);
      var i := FactIndex(q.p.facts, id).value;
      assert Crossing(q, q.p.facts[i]);
    }
    if id in CrossingIds(q) {
      var i :| 0 <= i < |q.p.facts| && Crossing(q, q.p.facts[i]) && q.p.facts[i].id == id;
      assert Handled(q, s, q.p.facts[i].source, q.p.facts[i]);
      assert Handled(q, s, q.p.facts[i].target, q.p.facts[i]);
    }
  }

  lemma RunEnds(q: Query, s: Search, done: set<Id>, level: nat)
    requires Consistent(q.p) && Running(q, s, done, level) && s.queue == []
    ensures IsNeighborhood(q, Neighborhood(s.nodes, s.facts, s.dist, |s.excluded|))
    ensures forall id | id in s.facts :: s.facts[id].source in s.dist && s.facts[id].target in s.dist
  {
    hide Within, Queued, Closed, IsDistance, Live, NodeOf, NodeAllowed, FactOf, Consistent, Handled;
    SearchEnds(q, s.dist, done, level);
    forall id ensures id in s.facts <==> id in InsideIds(q) {
      FactsEnd(q, s, id);
    }
    forall id ensures id in s.excluded <==> id in CrossingIds(q) {
      ExcludedEnd(q, s, id);
    }
    assert s.facts.Keys == InsideIds(q);
    assert s.excluded == CrossingIds(q);
    forall id | id in s.facts
      ensures FactOf(q, id) == Some(s.facts[id]) && s.facts[id].source in s.dist && s.facts[id].target in s.dist
    {
      assert FactSound(q, s, id, s.facts[id]);
    }
  }

  // ---- The search itself ------------------------------------------------------------------------------

  function AllIds(nodes: seq<NodeHistory>): set<Id> {
    set i | 0 <= i < |nodes| :: nodes[i].Id()
  }

  lemma KnownNode(q: Query, id: Id)
    requires NodeOf(q, id).Some?
    ensures HasNode(q.p.nodes, id) && id in AllIds(q.p.nodes)
  {
    var i := NodeIndex(q.p.nodes, id).value;
    assert q.p.nodes[i].Id() == id;
  }

  lemma LessLeft(all: set<Id>, done: set<Id>, c: Id)
    requires c in all && c !in done
    ensures |all - (done + {c})| < |all - done|
  {
    assert all - (done + {c}) == (all - done) - {c};
  }

  /** The first seed, in sorted order, that is not visible and in scope. */
  function FirstBad(q: Query, seeds: seq<Id>): Option<Id>
    decreases |seeds|
  {
    if seeds == [] then None
    else if !Good(q, seeds[0]) then Some(seeds[0])
    else FirstBad(q, seeds[1..])
  }

  ghost function SeedOrder(q: Query): seq<Id> {
    CompactIo.SortedKeys(set x | x in q.rq.seeds)
  }

  /** The seed reported is the one that comes first, in byte order, of those not visible or not in scope. */
  lemma FirstBadMeaning(q: Query, x: Id)
    ensures FirstBad(q, SeedOrder(q)).None? <==> forall y | y in q.rq.seeds :: Good(q, y)
    ensures FirstBad(q, SeedOrder(q)) == Some(x)
            <==> x in q.rq.seeds && !Good(q, x) && forall y | y in q.rq.seeds && !Good(q, y) && y != x :: CompactIo.ComesBefore(x, y)
  {
    hide Good, CompactIo.SortedKeys, CompactIo.LexLe, CompactIo.DiffersAt;
    var seeds := SeedOrder(q);
    CompactCanon.SortedAscends(set y | y in q.rq.seeds);
    forall i, j | 0 <= i < j < |seeds| ensures CompactIo.ComesBefore(seeds[i], seeds[j]) {
      CompactIo.LexMeaning(seeds[i], seeds[j]);
    }
    FirstBadAscending(q, seeds, x);
  }

  lemma {:induction false} FirstBadAscending(q: Query, seeds: seq<Id>, x: Id)
    requires forall i, j | 0 <= i < j < |seeds| :: CompactIo.ComesBefore(seeds[i], seeds[j])
    ensures FirstBad(q, seeds).None? <==> forall y | y in seeds :: Good(q, y)
    ensures FirstBad(q, seeds) == Some(x)
            <==> x in seeds && !Good(q, x) && forall y | y in seeds && !Good(q, y) && y != x :: CompactIo.ComesBefore(x, y)
    decreases |seeds|
  {
    hide Good, CompactIo.ComesBefore;
    if seeds != [] {
      if Good(q, seeds[0]) {
        FirstBadAscending(q, seeds[1..], x);
        assert forall y :: y in seeds <==> y == seeds[0] || y in seeds[1..];
      } else {
        CompactIo.NotBoth(seeds[0], x);
        forall y | y in seeds && y != seeds[0] ensures CompactIo.ComesBefore(seeds[0], y) {}
      }
    }
  }

  /** The start of the search, with the first `n` seeds entered. */
  ghost predicate Seeded(q: Query, s: Search, seeds: seq<Id>) {
    && s.queue == seeds && s.facts == map[] && s.excluded == {}
    && s.dist.Keys == s.nodes.Keys
    && (forall x :: x in s.dist <==> x in seeds)
    && forall x | x in s.dist :: s.dist[x] == 0 && Good(q, x) && NodeOf(q, x) == Some(s.nodes[x])
  }

  lemma SeededRuns(q: Query, s: Search)
    requires Seeded(q, s, SeedOrder(q))
    ensures Running(q, s, {}, 0)
  {
    hide NodeOf, NodeAllowed, Live, CompactIo.SortedKeys;
    var seeds := SeedOrder(q);
    forall x | x in s.dist ensures IsDistance(q, x, s.dist[x]) {
      assert x in seeds;
    }
  }

  lemma SeedStep(q: Query, s: Search, seeds: seq<Id>, seed: Id)
    requires Seeded(q, s, seeds) && Good(q, seed)
    ensures Seeded(q, s.(dist := s.dist[seed := 0], nodes := s.nodes[seed := NodeOf(q, seed).value], queue := s.queue + [seed]),
                   seeds + [seed])
  {
    hide NodeOf, NodeAllowed;
  }

  method ScopedNode(projection: MemoryProjection, rq: Request, id: Id) returns (r: Option<MemoryNode>)
    requires projection.Valid()
    ensures var q := Query(projection.Value(), rq);
            r == if Good(q, id) then NodeOf(q, id) else None
  {
    hide MemoryProjection.Valid, VisibleNode;
    var node := projection.Visible(id, rq.knownAt);
    r := if node.Some? && NodeAllowed(rq, node.value) then node else None;
  }

  /** The seeds, sorted and without repetition, at distance zero. */
  method EnterSeeds(projection: MemoryProjection, rq: Request) returns (r: Result<Search>)
    requires projection.Valid()
    ensures var q := Query(projection.Value(), rq);
            var bad := FirstBad(q, SeedOrder(q));
            if bad.Some? then r == Err(MissingEntity(bad.value)) else r.Ok? && Running(q, r.value, {}, 0)
  {
    hide MemoryProjection.Valid, CompactIo.SortedKeys, Good, NodeOf, Running, Seeded;
    ghost var q := Query(projection.Value(), rq);
    var seeds := CompactIo.SortKeys(set x | x in rq.seeds);
    var s := Search(map[], [], map[], map[], {});
    assert seeds[0..] == seeds && seeds[..0] == [];
    NothingSeeded(q);
    for i := 0 to |seeds|
      invariant FirstBad(q, seeds) == FirstBad(q, seeds[i..])
      invariant Seeded(q, s, seeds[..i])
    {
      var seed := seeds[i];
      assert seeds[i..][1..] == seeds[i + 1..] && seeds[..i + 1] == seeds[..i] + [seed];
      var node := ScopedNode(projection, rq, seed);
      GoodHasNode(q, seed);
      if node.None? {
        return Err(MissingEntity(seed));
      }
      SeedStep(q, s, seeds[..i], seed);
      s := s.(dist := s.dist[seed := 0], nodes := s.nodes[seed := node.value], queue := s.queue + [seed]);
    }
    assert seeds[..|seeds|] == seeds;
    SeededRuns(q, s);
    r := Ok(s);
  }

  lemma NothingSeeded(q: Query)
    ensures Seeded(q, Search(map[], [], map[], map[], {}), [])
  {}

  lemma GoodHasNode(q: Query, id: Id)
    ensures Good(q, id) ==> NodeOf(q, id).Some?
  {}

  /** The state in the middle of expanding `c`. */
  ghost predicate Midway(q: Query, s: Search, done: set<Id>, c: Id) {
    Expanding(q, s.dist, s.queue, done, c) && Matches(q, s) && AllHandled(q, s, done)
  }

  lemma VisitStep(q: Query, s: Search, done: set<Id>, c: Id, f: MemoryFact)
    requires Midway(q, s, done, c) && FactOf(q, f.id) == Some(f) && At(f, c) && c in s.dist
    ensures Midway(q, Visit(q, s, c, f), done, c) && Handled(q, Visit(q, s, c, f), c, f)
    ensures c in Visit(q, s, c, f).dist && Visit(q, s, c, f).dist[c] == s.dist[c]
    ensures forall g | Handled(q, s, c, g) :: Handled(q, Visit(q, s, c, f), c, g)
  {
    hide Queued, Measured, Closed, Matches, AllHandled, Handled, Visit;
    VisitExpands(q, s, done, c, f);
    VisitMatches(q, s, c, f);
    VisitKeepsHandled(q, s, done, c, f);
    VisitHandles(q, s, c, f, c, f);
    forall g | Handled(q, s, c, g) ensures Handled(q, Visit(q, s, c, f), c, g) {
      VisitHandles(q, s, c, f, c, g);
    }
  }

  /** One turn of the inner loop. */
  method VisitFact(projection: MemoryProjection, rq: Request, s: Search, c: Id, depth: nat, id: Id) returns (t: Search)
    requires projection.Valid() && c in s.dist && s.dist[c] == depth
    requires FactOf(Query(projection.Value(), rq), id).Some?
    ensures var q := Query(projection.Value(), rq);
            t == Visit(q, s, c, FactOf(q, id).value)
  {
    hide MemoryProjection.Valid, VisibleNode, IsActive, FactIndex;
    var found := projection.Fact(id);
    var fact := found.value;
    var active := projection.FactIsActive(fact, ClockOf(rq));
    if !active || !RelationAllowed(rq, fact.relation) {
      return s;
    }
    var other := if fact.source == c then fact.target else fact.source;
    var node := projection.Visible(other, rq.knownAt);
    if node.None? {
      return s;
    }
    if !NodeAllowed(rq, node.value) {
      return s.(excluded := s.excluded + {fact.id});
    }
    t := s;
    if other !in t.dist {
      if depth >= rq.maxDepth {
        return;
      }
      t := t.(dist := t.dist[other := depth + 1], nodes := t.nodes[other := node.value], queue := t.queue + [other]);
    }
    t := t.(facts := t.facts[fact.id := fact]);
  }

  /** The facts of one node, through the incident index. */
  method Expand(projection: MemoryProjection, rq: Request, start: Search, c: Id, ghost done: set<Id>) returns (s: Search)
    requires projection.Valid() && Midway(Query(projection.Value(), rq), start, done, c)
    ensures c in s.dist && Running(Query(projection.Value(), rq), s, done + {c}, s.dist[c])
  {
    hide MemoryProjection.Valid, Consistent, Midway, Handled, Visit, Running, IncidentIds, FactOf;
    ghost var q := Query(projection.Value(), rq);
    assert Consistent(q.p) by { ValidIsConsistent(projection); }
    MidwayKnows(q, start, done, c);
    var depth := start.dist[c];
    s := start;
    var ids := projection.IncidentFactIds(c);
    for i := 0 to |ids|
      invariant Midway(q, s, done, c) && c in s.dist && s.dist[c] == depth
      invariant forall j | 0 <= j < i :: FactOf(q, ids[j]).Some? && Handled(q, s, c, FactOf(q, ids[j]).value)
    {
      IncidentIsAt(q, c, i);
      ghost var f := FactOf(q, ids[i]).value;
      VisitStep(q, s, done, c, f);
      s := VisitFact(projection, rq, s, c, depth, ids[i]);
    }
    ExpandEnds(q, s, done, c);
  }

  lemma ValidIsConsistent(projection: MemoryProjection)
    requires projection.Valid()
    ensures Consistent(projection.Value())
  {
    hide Consistent;
  }

  lemma MidwayKnows(q: Query, s: Search, done: set<Id>, c: Id)
    requires Midway(q, s, done, c)
    ensures c in s.dist && NodeOf(q, c).Some?
  {
    hide NodeOf, IsDistance, Queued, Closed;
    assert Good(q, c);
  }

  /** Facts away from `c` need no handling; those at `c` were in its incident list. */
  lemma ExpandHandles(q: Query, s: Search, c: Id)
    requires Consistent(q.p) && HasNode(q.p.nodes, c)
    requires forall id | id in IncidentIds(q.p, c) :: FactOf(q, id).Some? && Handled(q, s, c, FactOf(q, id).value)
    ensures forall i | 0 <= i < |q.p.facts| :: Handled(q, s, c, q.p.facts[i])
  {
    hide IncidentIds, Good, Live, OutOfScope;
    forall i | 0 <= i < |q.p.facts| ensures Handled(q, s, c, q.p.facts[i]) {
      if At(q.p.facts[i], c) {
        IncidentFact(q.p, c, i);
        FactIndexUnique(q.p.facts, i);
      }
    }
  }

  lemma NeighbourKnown(q: Query, s: Search, c: Id, y: Id)
    requires Matches(q, s) && c in s.dist && s.dist[c] < q.rq.maxDepth && Adjacent(q, c, y)
    requires forall i | 0 <= i < |q.p.facts| :: Handled(q, s, c, q.p.facts[i])
    ensures y in s.dist
  {
    hide Good, Live, NodesMatch, ExcludedSound;
    var id :| Leads(q, id, c, y);
    var i := FactIndex(q.p.facts, id).value;
    assert Handled(q, s, c, q.p.facts[i]);
    assert FactSound(q, s, id, s.facts[id]);
  }

  lemma ExpandEnds(q: Query, s: Search, done: set<Id>, c: Id)
    requires Consistent(q.p) && Midway(q, s, done, c) && HasNode(q.p.nodes, c)
    requires forall id | id in IncidentIds(q.p, c) :: FactOf(q, id).Some? && Handled(q, s, c, FactOf(q, id).value)
    ensures Running(q, s, done + {c}, s.dist[c])
  {
    hide Consistent, IncidentIds, Handled, Queued, Measured, Closed, Matches, Adjacent;
    ExpandHandles(q, s, c);
    if s.dist[c] < q.rq.maxDepth {
      forall y | Adjacent(q, c, y) ensures y in s.dist {
        NeighbourKnown(q, s, c, y);
      }
    }
    CloseStep(q, s.dist, s.queue, done, c);
  }

  lemma PopRuns(q: Query, s: Search, done: set<Id>, level: nat)
    requires Running(q, s, done, level) && s.queue != []
    ensures Midway(q, s.(queue := s.queue[1..]), done, s.queue[0])
    ensures s.queue[0] !in done && NodeOf(q, s.queue[0]).Some?
  {
    hide Handled, Measured, Closed, IsDistance, FactSound, ExcludedSound;
    PopStep(q, s.dist, s.queue, done, level);
    var t := s.(queue := s.queue[1..]);
    SameMatches(q, s, t);
    assert Midway(q, t, done, s.queue[0]);
    MidwayKnows(q, t, done, s.queue[0]);
  }

  lemma SameMatches(q: Query, s: Search, t: Search)
    requires t == s.(queue := t.queue)
    ensures Matches(q, s) ==> Matches(q, t)
    ensures forall done :: AllHandled(q, s, done) ==> AllHandled(q, t, done)
  {
    hide NodeOf, FactOf, Live;
    forall done | AllHandled(q, s, done) ensures AllHandled(q, t, done) {
      forall c, i | c in done && 0 <= i < |q.p.facts| ensures Handled(q, t, c, q.p.facts[i]) {
        assert Handled(q, s, c, q.p.facts[i]);
      }
    }
    if Matches(q, s) {
      forall id | id in t.facts ensures FactSound(q, t, id, t.facts[id]) {
        assert FactSound(q, s, id, s.facts[id]);
      }
      forall id | id in t.excluded ensures ExcludedSound(q, t, id) {
        assert ExcludedSound(q, s, id);
      }
    }
  }

  /** The neighborhood is the ball around the seeds with true hop distances, all live facts inside it, and
      the number of live facts that leave it for a visible node out of scope; a bad seed is an error. */
  method FindNeighborhood(projection: MemoryProjection, rq: Request) returns (r: Result<Neighborhood>)
    requires projection.Valid()
    ensures var q := Query(projection.Value(), rq);
            var bad := FirstBad(q, SeedOrder(q));
            if bad.Some? then r == Err(MissingEntity(bad.value)) else r.Ok? && IsNeighborhood(q, r.value)
  {
    hide MemoryProjection.Valid, Consistent, Running, Midway, NodeOf, IsNeighborhood, FirstBad, SeedOrder;
    ghost var q := Query(projection.Value(), rq);
    var entered := EnterSeeds(projection, rq);
    if entered.Err? {
      return Err(entered.error);
    }
    var s := entered.value;
    ghost var done: set<Id>, level: nat := {}, 0;
    while s.queue != []
      invariant Running(q, s, done, level)
      decreases |AllIds(q.p.nodes) - done|
    {
      PopRuns(q, s, done, level);
      var current := s.queue[0];
      KnownNode(q, current);
      LessLeft(AllIds(q.p.nodes), done, current);
      s := Expand(projection, rq, s.(queue := s.queue[1..]), current, done);
      done, level := done + {current}, s.dist[current];
    }
    ValidIsConsistent(projection);
    RunEnds(q, s, done, level);
    var facts := map id | id in s.facts && s.facts[id].source in s.dist && s.facts[id].target in s.dist :: s.facts[id];
    assert facts == s.facts;
    r := Ok(Neighborhood(s.nodes, facts, s.dist, |s.excluded|));
  }

  lemma InsideMember(q: Query, f: MemoryFact)
    requires Consistent(q.p)
    ensures f.id in InsideIds(q) && FactOf(q, f.id) == Some(f) <==> f in q.p.facts && Inside(q, f)
  {
    hide Inside, NodesOk;
    if f in q.p.facts {
      var i :| 0 <= i < |q.p.facts| && q.p.facts[i] == f;
      FactIndexUnique(q.p.facts, i);
    }
    if f.id in InsideIds(q) && FactOf(q, f.id) == Some(f) {
      var i :| 0 <= i < |q.p.facts| && Inside(q, q.p.facts[i]) && q.p.facts[i].id == f.id;
      FactIndexUnique(q.p.facts, i);
    }
  }

  /** Seen from the temporal view: the facts found are exactly its facts of an allowed relation with both
      ends in the ball. */
  lemma NeighborhoodRefinesView(q: Query, r: Neighborhood, f: MemoryFact)
    requires Consistent(q.p) && IsNeighborhood(q, r) && FirstBad(q, SeedOrder(q)).None?
    ensures f in View(q.p, ClockOf(q.rq)).facts && RelationAllowed(q.rq, f.relation) && f.source in r.distances && f.target in r.distances
            <==> f.id in r.facts && r.facts[f.id] == f
  {
    hide Consistent, Within, IsActive, VisibleNode, NodeAllowed, FirstBad, SeedOrder, FilterFacts, View, InsideIds, FactOf, IsDistance;
    var clock := ClockOf(q.rq);
    ViewMeaning(q.p, clock);
    FilterMember(q.p, q.p.facts, clock, f);
    InsideMember(q, f);
    if InBall(q, f.source) && InBall(q, f.target) {
      BallIsGood(q, f.source, q.rq.maxDepth);
      BallIsGood(q, f.target, q.rq.maxDepth);
    }
  }

  /** And the facts counted as excluded are exactly the view's facts of an allowed relation that lead from the
      ball to a node out of scope. */
  lemma ExcludedRefinesView(q: Query, r: Neighborhood, f: MemoryFact)
    requires Consistent(q.p) && IsNeighborhood(q, r) && FirstBad(q, SeedOrder(q)).None?
    ensures f in View(q.p, ClockOf(q.rq)).facts && RelationAllowed(q.rq, f.relation)
            && ((f.source in r.distances && OutOfScope(q, f.target)) || (f.target in r.distances && OutOfScope(q, f.source)))
            <==> f in q.p.facts && f.id in CrossingIds(q)
    ensures r.excluded == |CrossingIds(q)|
  {
    hide Consistent, Within, IsActive, VisibleNode, NodeAllowed, FirstBad, SeedOrder, FilterFacts, View, InsideIds, CrossingIds, FactOf, IsDistance;
    var clock := ClockOf(q.rq);
    ViewMeaning(q.p, clock);
    FilterMember(q.p, q.p.facts, clock, f);
    if f in q.p.facts {
      CrossingMember(q, f);
    }
    if InBall(q, f.source) {
      BallIsGood(q, f.source, q.rq.maxDepth);
    }
    if InBall(q, f.target) {
      BallIsGood(q, f.target, q.rq.maxDepth);
    }
  }

  lemma CrossingMember(q: Query, f: MemoryFact)
    requires Consistent(q.p) && f in q.p.facts
    ensures f.id in CrossingIds(q) <==> Crossing(q, f)
  {
    hide Crossing, NodesOk;
    var i :| 0 <= i < |q.p.facts| && q.p.facts[i] == f;
    FactIndexUnique(q.p.facts, i);
    if f.id in CrossingIds(q) {
      var j :| 0 <= j < |q.p.facts| && Crossing(q, q.p.facts[j]) && q.p.facts[j].id == f.id;
      FactIndexUnique(q.p.facts, j);
    }
  }

  lemma {:induction false} FirstBadAll(q: Query, seeds: seq<Id>, x: Id)
    requires FirstBad(q, seeds).None? && x in seeds
    ensures Good(q, x)
    decreases |seeds|
  {
    if x != seeds[0] {
      FirstBadAll(q, seeds[1..], x);
    }
  }

  lemma {:induction false} BallIsGood(q: Query, x: Id, d: nat)
    requires FirstBad(q, SeedOrder(q)).None? && Within(q, x, d)
    ensures Good(q, x)
    decreases d
  {
    hide NodeOf, NodeAllowed, Leads, CompactIo.SortedKeys;
    if d == 0 {
      FirstBadAll(q, SeedOrder(q), x);
    } else if Within(q, x, d - 1) {
      BallIsGood(q, x, d - 1);
    }
  }
}
