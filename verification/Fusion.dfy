/** Reciprocal-rank fusion of several retrieval providers, and what its result does not depend on. */
module Fusion {
  import opened Common
  import opened Sorting
  import CompactIo

  datatype Channel = Literal | Lexical | Semantic | Hybrid

  datatype Hit = Hit(entity: Id, channel: Channel, score: nat)

  /** A provider and what it retrieves; `None` when retrieval fails. */
  datatype Provider = Provider(name: Text, hits: Option<seq<Hit>>)

  datatype RetrievalQuery = RetrievalQuery(limit: nat, channels: set<Channel>)

  datatype FusionError = BadName | DuplicateName(name: Text) | ProviderFailed(name: Text)

  datatype Source = Source(provider: Text, channel: Channel, rank: nat, rawScore: nat)

  datatype Fused = Fused(entity: Id, score: nat, sources: seq<Source>)

  datatype Fusing<+T> = Done(value: T) | Refused(error: FusionError)

  const RRF_K: nat := 60
  const RRF_SCALE: nat := 1_000_000_000

  // ---- Ranking one provider's hits -------------------------------------------------------

  function Place(c: Channel): nat {
    match c
    case Literal => 0
    case Lexical => 1
    case Semantic => 2
    case Hybrid => 3
  }

  /** Higher score first, then by entity, then by channel. */
  predicate HitLe(a: Hit, b: Hit) {
    if a.score != b.score then a.score > b.score
    else if a.entity != b.entity then CompactIo.LexLe(a.entity, b.entity)
    else Place(a.channel) <= Place(b.channel)
  }

  lemma HitOrder()
    ensures Total(HitLe) && Transitive(HitLe)
    ensures forall a, b | HitLe(a, b) && HitLe(b, a) :: a == b
  {
    hide CompactIo.LexLe;
    forall a, b ensures HitLe(a, b) || HitLe(b, a) {
      CompactIo.LexTotal(a.entity, b.entity);
    }
    forall a, b | HitLe(a, b) && HitLe(b, a) ensures a == b {
      CompactIo.LexTotal(a.entity, b.entity);
    }
    forall a, b, c | HitLe(a, b) && HitLe(b, c) ensures HitLe(a, c) {
      if CompactIo.LexLe(a.entity, b.entity) && CompactIo.LexLe(b.entity, c.entity) {
        CompactIo.LexTransitive(a.entity, b.entity, c.entity);
        CompactIo.LexTotal(a.entity, b.entity);
      }
    }
  }

  function Matching(channels: set<Channel>, hits: seq<Hit>): seq<Hit>
    decreases |hits|
  {
    if hits == [] then []
    else if channels == {} || hits[0].channel in channels then [hits[0]] + Matching(channels, hits[1..])
    else Matching(channels, hits[1..])
  }

  /** The first hit of each entity not seen before. */
  function FirstOfEach(hits: seq<Hit>, seen: set<Id>): seq<Hit>
    decreases |hits|
  {
    if hits == [] then []
    else if hits[0].entity in seen then FirstOfEach(hits[1..], seen)
    else [hits[0]] + FirstOfEach(hits[1..], seen + {hits[0].entity})
  }

  function Take<T>(s: seq<T>, n: nat): seq<T> {
    if |s| <= n then s else s[..n]
  }

  function Ranked(q: RetrievalQuery, hits: seq<Hit>): seq<Hit> {
    Take(FirstOfEach(Sort(HitLe, Matching(q.channels, hits)), {}), q.limit)
  }

  lemma {:induction false} MatchingCounts(channels: set<Channel>, hits: seq<Hit>, h: Hit)
    ensures multiset(Matching(channels, hits))[h] == if channels == {} || h.channel in channels then multiset(hits)[h] else 0
    decreases |hits|
  {
    if hits != [] {
      MatchingCounts(channels, hits[1..], h);
      assert hits == [hits[0]] + hits[1..];
    }
  }

  /** Ranks do not depend on the order in which a provider lists its hits. */
  lemma RankedForgetsOrder(q: RetrievalQuery, a: seq<Hit>, b: seq<Hit>)
    requires multiset(a) == multiset(b)
    ensures Ranked(q, a) == Ranked(q, b)
  {
    hide FirstOfEach, Matching, Sort;
    var x, y := Matching(q.channels, a), Matching(q.channels, b);
    forall h ensures multiset(x)[h] == multiset(y)[h] {
      MatchingCounts(q.channels, a, h);
      MatchingCounts(q.channels, b, h);
    }
    assert multiset(x) == multiset(y);
    HitOrder();
    SortForgetsOrder(HitLe, x, y);
  }

  function Rescaled(g: nat -> nat): Hit -> Hit {
    (h: Hit) => h.(score := g(h.score))
  }

  /** Strictly increasing on the scores that occur among `hits`; elsewhere `g` is free. */
  ghost predicate IncreasingOn(g: nat -> nat, hits: seq<Hit>) {
    forall i, j | 0 <= i < |hits| && 0 <= j < |hits| && hits[i].score < hits[j].score :: g(hits[i].score) < g(hits[j].score)
  }

  lemma {:induction false} MatchingRescaled(g: nat -> nat, channels: set<Channel>, hits: seq<Hit>)
    ensures Matching(channels, Mapped(Rescaled(g), hits)) == Mapped(Rescaled(g), Matching(channels, hits))
    decreases |hits|
  {
    if hits != [] {
      MatchingRescaled(g, channels, hits[1..]);
      assert Mapped(Rescaled(g), hits)[1..] == Mapped(Rescaled(g), hits[1..]);
      MappedCons(Rescaled(g), hits[0], Matching(channels, hits[1..]));
    }
  }

  lemma {:induction false} FirstOfEachRescaled(g: nat -> nat, hits: seq<Hit>, seen: set<Id>)
    ensures FirstOfEach(Mapped(Rescaled(g), hits), seen) == Mapped(Rescaled(g), FirstOfEach(hits, seen))
    decreases |hits|
  {
    if hits != [] {
      assert Mapped(Rescaled(g), hits)[1..] == Mapped(Rescaled(g), hits[1..]);
      if hits[0].entity in seen {
        FirstOfEachRescaled(g, hits[1..], seen);
      } else {
        FirstOfEachRescaled(g, hits[1..], seen + {hits[0].entity});
        MappedCons(Rescaled(g), hits[0], FirstOfEach(hits[1..], seen + {hits[0].entity}));
      }
    }
  }

  lemma IncreasingKeepsOrder(g: nat -> nat, hits: seq<Hit>, a: Hit, b: Hit)
    requires IncreasingOn(g, hits) && a in hits && b in hits
    ensures HitLe(a, b) == HitLe(Rescaled(g)(a), Rescaled(g)(b))
  {
    hide CompactIo.LexLe;
    if a.score < b.score {
      assert g(a.score) < g(b.score);
    } else if b.score < a.score {
      assert g(b.score) < g(a.score);
    }
  }

  lemma MatchingMember(channels: set<Channel>, hits: seq<Hit>, h: Hit)
    requires h in Matching(channels, hits)
    ensures h in hits
  {
    MatchingCounts(channels, hits, h);
    MultisetMember(Matching(channels, hits), h);
    MultisetMember(hits, h);
  }

  /** A map of the scores that is strictly increasing on those that occur changes the scores and nothing
      else. */
  lemma RankedRescaled(q: RetrievalQuery, g: nat -> nat, hits: seq<Hit>)
    requires IncreasingOn(g, hits)
    ensures Ranked(q, Mapped(Rescaled(g), hits)) == Mapped(Rescaled(g), Ranked(q, hits))
  {
    hide FirstOfEach, Matching, Sort, HitLe, IncreasingOn;
    var m := Matching(q.channels, hits);
    MatchingRescaled(g, q.channels, hits);
    forall x, y | x in m && y in m ensures HitLe(x, y) == HitLe(Rescaled(g)(x), Rescaled(g)(y)) {
      MatchingMember(q.channels, hits, x);
      MatchingMember(q.channels, hits, y);
      IncreasingKeepsOrder(g, hits, x, y);
    }
    SortMapped(HitLe, HitLe, Rescaled(g), m);
    FirstOfEachRescaled(g, Sort(HitLe, m), {});
  }

  // ---- Adding up -----------------------------------------------------------------------------

  function Contribution(rank: nat): nat {
    RRF_SCALE / (RRF_K + rank)
  }

  function SaturatingAdd(a: nat, b: nat): nat {
    if a + b < U64_LIMIT then a + b else U64_LIMIT - 1
  }

  type Scores = map<Id, Fused>

  function EntryOf(m: Scores, entity: Id): Fused {
    if entity in m then m[entity] else Fused(entity, 0, [])
  }

  function AddHit(m: Scores, name: Text, h: Hit, rank: nat): Scores {
    var was := EntryOf(m, h.entity);
    m[h.entity := was.(score := SaturatingAdd(was.score, Contribution(rank)),
                        sources := was.sources + [Source(name, h.channel, rank, h.score)])]
  }

  function AddHits(m: Scores, name: Text, ranked: seq<Hit>): Scores {
    if ranked == [] then m
    else AddHit(AddHits(m, name, ranked[..|ranked| - 1]), name, ranked[|ranked| - 1], |ranked|)
  }

  /** A provider's name with its ranked hits. */
  datatype Ranking = Ranking(name: Text, hits: Option<seq<Hit>>)

  function RankingOf(q: RetrievalQuery): Provider -> Ranking {
    (p: Provider) => Ranking(p.name, if p.hits.Some? then Some(Ranked(q, p.hits.value)) else None)
  }

  function AddAll(rankings: seq<Ranking>): Scores {
    if rankings == [] then map[]
    else
      var r := rankings[|rankings| - 1];
      AddHits(AddAll(rankings[..|rankings| - 1]), r.name, if r.hits.Some? then r.hits.value else [])
  }

  predicate FusedLe(a: Fused, b: Fused) {
    if a.score != b.score then a.score > b.score else CompactIo.LexLe(a.entity, b.entity)
  }

  /** The entries in entity order. */
  ghost function Values(m: Scores): (r: seq<Fused>)
    ensures |r| == |m.Keys|
  {
    var keys := CompactIo.SortedKeys(m.Keys);
    seq(|keys|, i requires 0 <= i < |keys| => assert keys[i] in keys; m[keys[i]])
  }

  function NameError(names: seq<Text>, seen: set<Text>): Option<FusionError>
    decreases |names|
  {
    if names == [] then None
    else if !IsProperText(names[0]) then Some(BadName)
    else if names[0] in seen then Some(DuplicateName(names[0]))
    else NameError(names[1..], seen + {names[0]})
  }

  function FirstFailure(rankings: seq<Ranking>): Option<FusionError>
    decreases |rankings|
  {
    if rankings == [] then None
    else if rankings[0].hits.None? then Some(ProviderFailed(rankings[0].name))
    else FirstFailure(rankings[1..])
  }

  function ProviderName(): Provider -> Text {
    (p: Provider) => p.name
  }

  predicate ByName(a: Provider, b: Provider) {
    CompactIo.LexLe(a.name, b.name)
  }

  /** From ranked providers in name order to the fused list. */
  ghost function Finish(q: RetrievalQuery, rankings: seq<Ranking>): Fusing<seq<Fused>> {
    if FirstFailure(rankings).Some? then Refused(FirstFailure(rankings).value)
    else Done(Take(Sort(FusedLe, Values(AddAll(rankings))), q.limit))
  }

  ghost function Fuse(q: RetrievalQuery, providers: seq<Provider>): Fusing<seq<Fused>> {
    var sorted := Sort(ByName, providers);
    var names := Mapped(ProviderName(), sorted);
    if NameError(names, {}).Some? then Refused(NameError(names, {}).value)
    else Finish(q, Mapped(RankingOf(q), sorted))
  }

  // ---- What the result does not depend on --------------------------------------------------------

  lemma NameOrder()
    ensures Total(CompactIo.LexLe) && Transitive(CompactIo.LexLe)
    ensures Total(ByName) && Transitive(ByName)
  {
    forall a, b ensures CompactIo.LexLe(a, b) || CompactIo.LexLe(b, a) {
      CompactIo.LexTotal(a, b);
    }
    forall a, b, c | CompactIo.LexLe(a, b) && CompactIo.LexLe(b, c) ensures CompactIo.LexLe(a, c) {
      CompactIo.LexTransitive(a, b, c);
    }
  }

  lemma NamesSort(providers: seq<Provider>)
    ensures Mapped(ProviderName(), Sort(ByName, providers)) == Sort(CompactIo.LexLe, Mapped(ProviderName(), providers))
  {
    SortMapped(ByName, CompactIo.LexLe, ProviderName(), providers);
  }

  lemma {:induction false} GoodNamesDiffer(names: seq<Text>, seen: set<Text>, i: nat, j: nat)
    requires NameError(names, seen).None? && i < j < |names|
    ensures names[i] != names[j]
    decreases |names|
  {
    if i > 0 {
      GoodNamesDiffer(names[1..], seen + {names[0]}, i - 1, j - 1);
    } else {
      GoodNameUnseen(names[1..], seen + {names[0]}, j - 1);
    }
  }

  lemma {:induction false} GoodNameUnseen(names: seq<Text>, seen: set<Text>, i: nat)
    requires NameError(names, seen).None? && i < |names|
    ensures names[i] !in seen
    decreases |names|
  {
    if i > 0 {
      GoodNameUnseen(names[1..], seen + {names[0]}, i - 1);
    }
  }

  lemma GoodNamesSeparate(sorted: seq<Provider>)
    requires NameError(Mapped(ProviderName(), sorted), {}).None?
    ensures Separates(ByName, sorted)
  {
    hide NameError;
    var names := Mapped(ProviderName(), sorted);
    forall x, y | x in sorted && y in sorted && ByName(x, y) && ByName(y, x) ensures x == y {
      var i :| 0 <= i < |sorted| && sorted[i] == x;
      var j :| 0 <= j < |sorted| && sorted[j] == y;
      CompactIo.LexTotal(x.name, y.name);
      assert names[i] == names[j];
      if i < j {
        GoodNamesDiffer(names, {}, i, j);
      } else if j < i {
        GoodNamesDiffer(names, {}, j, i);
      }
    }
  }

  /** The result, errors included, does not depend on the order of the providers. */
  lemma ProvidersForgetOrder(q: RetrievalQuery, a: seq<Provider>, b: seq<Provider>)
    requires multiset(a) == multiset(b)
    ensures Fuse(q, a) == Fuse(q, b)
  {
    hide Sort, NameError, Finish, ByName;
    NameOrder();
    NamesSort(a);
    NamesSort(b);
    MappedMultiset(ProviderName(), a, b);
    NamesSeparate(Mapped(ProviderName(), a));
    SortForgetsOrder(CompactIo.LexLe, Mapped(ProviderName(), a), Mapped(ProviderName(), b));
    var sorted := Sort(ByName, a);
    if NameError(Mapped(ProviderName(), sorted), {}).None? {
      GoodNamesSeparate(sorted);
      SortMultiset(ByName, a);
      forall x | x in a ensures x in sorted {
        MultisetMember(a, x);
        MultisetMember(sorted, x);
      }
      SortForgetsOrder(ByName, a, b);
    }
  }

  lemma NamesSeparate(names: seq<Text>)
    ensures Separates(CompactIo.LexLe, names)
  {
    forall x, y | x in names && y in names && CompactIo.LexLe(x, y) && CompactIo.LexLe(y, x) ensures x == y {
      CompactIo.LexTotal(x, y);
    }
  }

  predicate RankingLe(a: Ranking, b: Ranking) {
    CompactIo.LexLe(a.name, b.name)
  }

  lemma RankingsSort(q: RetrievalQuery, providers: seq<Provider>)
    ensures Mapped(RankingOf(q), Sort(ByName, providers)) == Sort(RankingLe, Mapped(RankingOf(q), providers))
  {
    hide CompactIo.LexLe, Ranked;
    SortMapped(ByName, RankingLe, RankingOf(q), providers);
  }

  /** The result depends on the providers' names and rankings only. */
  lemma RankingsDecide(q: RetrievalQuery, a: seq<Provider>, b: seq<Provider>)
    requires Mapped(RankingOf(q), a) == Mapped(RankingOf(q), b)
    ensures Fuse(q, a) == Fuse(q, b)
  {
    hide Sort, NameError, Finish, ByName, Ranked;
    RankingsSort(q, a);
    RankingsSort(q, b);
    NamesSort(a);
    NamesSort(b);
    assert |a| == |Mapped(RankingOf(q), a)| == |b|;
    forall i | 0 <= i < |a| ensures a[i].name == b[i].name {
      assert Mapped(RankingOf(q), a)[i] == RankingOf(q)(a[i]) && Mapped(RankingOf(q), b)[i] == RankingOf(q)(b[i]);
    }
    assert Mapped(ProviderName(), a) == Mapped(ProviderName(), b);
  }

  ghost predicate SameHits(a: Provider, b: Provider) {
    a.name == b.name && a.hits.Some? == b.hits.Some? && (a.hits.Some? ==> multiset(a.hits.value) == multiset(b.hits.value))
  }

  /** The result does not depend on the order in which providers list their hits. */
  lemma HitsForgetOrder(q: RetrievalQuery, a: seq<Provider>, b: seq<Provider>)
    requires |a| == |b| && forall i | 0 <= i < |a| :: SameHits(a[i], b[i])
    ensures Fuse(q, a) == Fuse(q, b)
  {
    hide Fuse, Ranked;
    forall i | 0 <= i < |a| ensures RankingOf(q)(a[i]) == RankingOf(q)(b[i]) {
      assert SameHits(a[i], b[i]);
      if a[i].hits.Some? {
        RankedForgetsOrder(q, a[i].hits.value, b[i].hits.value);
      }
    }
    assert Mapped(RankingOf(q), a) == Mapped(RankingOf(q), b);
    RankingsDecide(q, a, b);
  }

  // ---- Raw scores only show up as raw scores ----------------------------------------------------------

  function Nought(): nat -> nat {
    (n: nat) => 0
  }

  function BlindSource(): Source -> Source {
    (s: Source) => s.(rawScore := 0)
  }

  function BlindFused(): Fused -> Fused {
    (f: Fused) => f.(sources := Mapped(BlindSource(), f.sources))
  }

  function BlindRanking(): Ranking -> Ranking {
    (r: Ranking) => r.(hits := if r.hits.Some? then Some(Mapped(Rescaled(Nought()), r.hits.value)) else None)
  }

  ghost function BlindMap(m: Scores): (r: Scores)
    ensures r.Keys == m.Keys
  {
    map e | e in m :: BlindFused()(m[e])
  }

  /** A result with its raw scores taken away. */
  ghost function Blind(r: Fusing<seq<Fused>>): Fusing<seq<Fused>> {
    if r.Done? then Done(Mapped(BlindFused(), r.value)) else r
  }

  lemma AddHitBlind(m: Scores, name: Text, h: Hit, rank: nat)
    ensures BlindMap(AddHit(m, name, h, rank)) == AddHit(BlindMap(m), name, Rescaled(Nought())(h), rank)
  {
    hide Contribution, SaturatingAdd;
    var was := EntryOf(m, h.entity);
    MappedSnoc(BlindSource(), was.sources, Source(name, h.channel, rank, h.score));
    assert EntryOf(BlindMap(m), h.entity) == BlindFused()(was) by {
      if h.entity !in m {
        assert Mapped(BlindSource(), []) == [];
      }
    }
  }

  lemma {:induction false} AddHitsBlind(m: Scores, name: Text, hits: seq<Hit>)
    ensures BlindMap(AddHits(m, name, hits)) == AddHits(BlindMap(m), name, Mapped(Rescaled(Nought()), hits))
    decreases |hits|
  {
    hide AddHit, BlindMap;
    if hits != [] {
      var front, h := hits[..|hits| - 1], hits[|hits| - 1];
      AddHitsBlind(m, name, front);
      AddHitBlind(AddHits(m, name, front), name, h, |hits|);
      assert hits == front + [h];
      MappedSnoc(Rescaled(Nought()), front, h);
      var blind := Mapped(Rescaled(Nought()), hits);
      assert blind[..|blind| - 1] == Mapped(Rescaled(Nought()), front);
    }
  }

  lemma AddAllLast(rankings: seq<Ranking>, r: Ranking)
    ensures AddAll(rankings + [r]) == AddHits(AddAll(rankings), r.name, if r.hits.Some? then r.hits.value else [])
  {
    hide AddHits;
    assert (rankings + [r])[..|rankings|] == rankings;
  }

  lemma {:induction false} AddAllBlind(rankings: seq<Ranking>)
    ensures BlindMap(AddAll(rankings)) == AddAll(Mapped(BlindRanking(), rankings))
    decreases |rankings|
  {
    hide AddHits, AddAll;
    if rankings == [] {
      NothingAdded();
    } else {
      var front, r := rankings[..|rankings| - 1], rankings[|rankings| - 1];
      assert rankings == front + [r];
      AddAllBlind(front);
      AddAllLast(front, r);
      MappedSnoc(BlindRanking(), front, r);
      AddAllLast(Mapped(BlindRanking(), front), BlindRanking()(r));
      AddHitsBlind(AddAll(front), r.name, if r.hits.Some? then r.hits.value else []);
      assert Mapped(Rescaled(Nought()), []) == [];
    }
  }

  lemma NothingAdded()
    ensures BlindMap(AddAll([])) == AddAll(Mapped(BlindRanking(), []))
  {
    assert BlindMap(map[]) == map[];
  }

  lemma {:induction false} FirstFailureBlind(rankings: seq<Ranking>)
    ensures FirstFailure(Mapped(BlindRanking(), rankings)) == FirstFailure(rankings)
    decreases |rankings|
  {
    if rankings != [] {
      FirstFailureBlind(rankings[1..]);
      assert Mapped(BlindRanking(), rankings)[1..] == Mapped(BlindRanking(), rankings[1..]);
    }
  }

  lemma ValuesBlind(m: Scores)
    ensures Values(BlindMap(m)) == Mapped(BlindFused(), Values(m))
  {
    hide CompactIo.SortedKeys;
    var keys := CompactIo.SortedKeys(m.Keys);
    forall i | 0 <= i < |keys| ensures Values(BlindMap(m))[i] == BlindFused()(Values(m)[i]) {
      assert keys[i] in keys;
    }
  }

  lemma FinishBlind(q: RetrievalQuery, rankings: seq<Ranking>)
    ensures Blind(Finish(q, rankings)) == Finish(q, Mapped(BlindRanking(), rankings))
  {
    hide AddAll, FirstFailure, Values, Sort, CompactIo.LexLe, BlindMap;
    FirstFailureBlind(rankings);
    AddAllBlind(rankings);
    var values := Values(AddAll(rankings));
    ValuesBlind(AddAll(rankings));
    SortMapped(FusedLe, FusedLe, BlindFused(), values);
    var sorted := Sort(FusedLe, values);
    assert Mapped(BlindFused(), Take(sorted, q.limit)) == Take(Mapped(BlindFused(), sorted), q.limit);
  }

  function Compose<A, B, C>(f: A -> B, g: B -> C): A -> C {
    (a: A) => g(f(a))
  }

  lemma MappedTwice<A, B, C>(f: A -> B, g: B -> C, s: seq<A>)
    ensures Mapped(g, Mapped(f, s)) == Mapped(Compose(f, g), s)
  {}

  function BlindView(q: RetrievalQuery): Provider -> Ranking {
    Compose(RankingOf(q), BlindRanking())
  }

  /** Apart from the raw scores it repeats, the result depends on names and blinded rankings only. */
  lemma BlindRankingsDecide(q: RetrievalQuery, a: seq<Provider>, b: seq<Provider>)
    requires Mapped(BlindView(q), a) == Mapped(BlindView(q), b)
    ensures Blind(Fuse(q, a)) == Blind(Fuse(q, b))
  {
    hide Sort, NameError, Finish, Ranked;
    BlindSorted(q, a);
    BlindSorted(q, b);
    NamesSort(a);
    NamesSort(b);
    assert |a| == |Mapped(BlindView(q), a)| == |b|;
    forall i | 0 <= i < |a| ensures a[i].name == b[i].name {
      assert Mapped(BlindView(q), a)[i] == BlindView(q)(a[i]) && Mapped(BlindView(q), b)[i] == BlindView(q)(b[i]);
    }
    assert Mapped(ProviderName(), a) == Mapped(ProviderName(), b);
  }

  lemma BlindSorted(q: RetrievalQuery, providers: seq<Provider>)
    ensures Blind(Finish(q, Mapped(RankingOf(q), Sort(ByName, providers))))
         == Finish(q, Sort(RankingLe, Mapped(BlindView(q), providers)))
  {
    hide Finish, Ranked, Sort, Blind, CompactIo.LexLe;
    var sorted := Sort(ByName, providers);
    FinishBlind(q, Mapped(RankingOf(q), sorted));
    MappedTwice(RankingOf(q), BlindRanking(), sorted);
    SortMapped(ByName, RankingLe, BlindView(q), providers);
  }

  function RescaledProvider(p: Provider, g: nat -> nat): Provider {
    p.(hits := if p.hits.Some? then Some(Mapped(Rescaled(g), p.hits.value)) else None)
  }

  lemma RescaledLooksSame(q: RetrievalQuery, p: Provider, g: nat -> nat)
    requires p.hits.Some? ==> IncreasingOn(g, p.hits.value)
    ensures BlindView(q)(RescaledProvider(p, g)) == BlindView(q)(p)
  {
    hide Ranked, IncreasingOn;
    if p.hits.Some? {
      RankedRescaled(q, g, p.hits.value);
      var ranked := Ranked(q, p.hits.value);
      assert Mapped(Rescaled(Nought()), Mapped(Rescaled(g), ranked)) == Mapped(Rescaled(Nought()), ranked);
    }
  }

  /** Scores are never compared between providers: a change of one provider's raw scores that is strictly
      increasing on those it reports leaves entities, order, ranks, channels and fused scores alone. */
  lemma RescalingIsInvisible(q: RetrievalQuery, providers: seq<Provider>, k: nat, g: nat -> nat)
    requires k < |providers| && (providers[k].hits.Some? ==> IncreasingOn(g, providers[k].hits.value))
    ensures Blind(Fuse(q, providers[k := RescaledProvider(providers[k], g)])) == Blind(Fuse(q, providers))
  {
    hide Fuse, BlindView, IncreasingOn, RescaledProvider;
    var after := providers[k := RescaledProvider(providers[k], g)];
    RescaledLooksSame(q, providers[k], g);
    assert Mapped(BlindView(q), after) == Mapped(BlindView(q), providers);
    BlindRankingsDecide(q, after, providers);
  }

  // ---- What ranks and scores mean -----------------------------------------------------------------------

  ghost predicate OnePerEntity(hits: seq<Hit>) {
    forall i, j | 0 <= i < j < |hits| :: hits[i].entity != hits[j].entity
  }

  ghost predicate Represents(ranked: seq<Hit>, i: nat, h: Hit) {
    i < |ranked| && ranked[i].entity == h.entity && HitLe(ranked[i], h)
  }

  lemma {:induction false} FirstOfEachFresh(hits: seq<Hit>, seen: set<Id>)
    ensures OnePerEntity(FirstOfEach(hits, seen))
    ensures forall i | 0 <= i < |FirstOfEach(hits, seen)| :: FirstOfEach(hits, seen)[i].entity !in seen
    decreases |hits|
  {
    if hits != [] {
      FirstOfEachFresh(hits[1..], if hits[0].entity in seen then seen else seen + {hits[0].entity});
    }
  }

  lemma {:induction false} FirstOfEachFrom(hits: seq<Hit>, seen: set<Id>)
    requires Sorted(HitLe, hits)
    ensures Sorted(HitLe, FirstOfEach(hits, seen))
    ensures forall i | 0 <= i < |FirstOfEach(hits, seen)| :: FirstOfEach(hits, seen)[i] in hits
    decreases |hits|
  {
    if hits != [] {
      var rest := FirstOfEach(hits[1..], if hits[0].entity in seen then seen else seen + {hits[0].entity});
      FirstOfEachFrom(hits[1..], if hits[0].entity in seen then seen else seen + {hits[0].entity});
      forall i | 0 <= i < |rest| ensures HitLe(hits[0], rest[i]) {
        assert rest[i] in hits[1..];
        var j :| 0 <= j < |hits[1..]| && hits[1..][j] == rest[i];
        assert hits[j + 1] == rest[i];
      }
    }
  }

  lemma {:induction false} FirstOfEachBest(hits: seq<Hit>, seen: set<Id>, k: nat) returns (i: nat)
    requires Sorted(HitLe, hits) && k < |hits| && hits[k].entity !in seen && HitLe(hits[k], hits[k])
    ensures Represents(FirstOfEach(hits, seen), i, hits[k])
    decreases |hits|
  {
    hide HitLe;
    if hits[0].entity in seen {
      i := FirstOfEachBest(hits[1..], seen, k - 1);
    } else if hits[0].entity == hits[k].entity {
      i := 0;
    } else {
      var j := FirstOfEachBest(hits[1..], seen + {hits[0].entity}, k - 1);
      i := j + 1;
    }
  }

  /** The ranking before it is cut to the limit: matching hits only, best first, one per entity, and each
      entity by its best hit. */
  lemma RankingMeaning(q: RetrievalQuery, hits: seq<Hit>, h: Hit)
    ensures var ranked := FirstOfEach(Sort(HitLe, Matching(q.channels, hits)), {});
            && Ranked(q, hits) <= ranked
            && Sorted(HitLe, ranked) && OnePerEntity(ranked)
            && (h in ranked ==> h in Matching(q.channels, hits))
            && (h in Matching(q.channels, hits) ==> exists i :: Represents(ranked, i, h))
  {
    hide Matching, Sort, FirstOfEach;
    var matching := Matching(q.channels, hits);
    var sorted := Sort(HitLe, matching);
    HitOrder();
    SortSorted(HitLe, matching);
    SortMultiset(HitLe, matching);
    FirstOfEachFresh(sorted, {});
    FirstOfEachFrom(sorted, {});
    var ranked := FirstOfEach(sorted, {});
    if h in ranked {
      MultisetMember(sorted, h);
      MultisetMember(matching, h);
    }
    if h in matching {
      MultisetMember(matching, h);
      MultisetMember(sorted, h);
      var k :| 0 <= k < |sorted| && sorted[k] == h;
      var i := FirstOfEachBest(sorted, {}, k);
    }
  }

  /** The rank of an entity, from one; zero when it is not ranked. */
  function RankIn(hits: seq<Hit>, entity: Id): nat {
    if hits == [] then 0
    else if hits[|hits| - 1].entity == entity then |hits|
    else RankIn(hits[..|hits| - 1], entity)
  }

  function Gain(hits: seq<Hit>, entity: Id): nat {
    if RankIn(hits, entity) == 0 then 0 else Contribution(RankIn(hits, entity))
  }

  const MOST: nat := 16_393_442

  lemma QuotientBelow(n: nat, d: nat)
    requires d > 0
    ensures (n / d) * d <= n
  {
    assert n == d * (n / d) + n % d;
  }

  lemma SmallerFactor(x: nat, a: nat, b: nat)
    requires a <= b
    ensures x * a <= x * b
  {}

  lemma ContributionBound(rank: nat)
    requires rank >= 1
    ensures Contribution(rank) <= MOST
  {
    QuotientBelow(RRF_SCALE, RRF_K + rank);
    SmallerFactor(Contribution(rank), 61, RRF_K + rank);
  }

  lemma {:induction false} AddHitsScore(m: Scores, name: Text, hits: seq<Hit>, entity: Id)
    requires OnePerEntity(hits)
    ensures var r := AddHits(m, name, hits);
            && (entity in r <==> entity in m || RankIn(hits, entity) > 0)
            && EntryOf(r, entity).score
               == if RankIn(hits, entity) == 0 then EntryOf(m, entity).score
                  else SaturatingAdd(EntryOf(m, entity).score, Contribution(RankIn(hits, entity)))
    decreases |hits|
  {
    hide SaturatingAdd, Contribution;
    if hits != [] {
      var front, h := hits[..|hits| - 1], hits[|hits| - 1];
      AddHitsScore(m, name, front, entity);
      if h.entity == entity {
        NotRanked(front, entity);
      }
    }
  }

  lemma {:induction false} NotRanked(hits: seq<Hit>, entity: Id)
    requires forall i | 0 <= i < |hits| :: hits[i].entity != entity
    ensures RankIn(hits, entity) == 0
    decreases |hits|
  {
    if hits != [] {
      NotRanked(hits[..|hits| - 1], entity);
    }
  }

  function HitsOf(r: Ranking): seq<Hit> {
    if r.hits.Some? then r.hits.value else []
  }

  /** The sum of all contributions to an entity. */
  function TotalGain(rankings: seq<Ranking>, entity: Id): nat {
    if rankings == [] then 0
    else TotalGain(rankings[..|rankings| - 1], entity) + Gain(HitsOf(rankings[|rankings| - 1]), entity)
  }

  /** Below 2^40 providers no addition saturates: a fused score is the exact sum of its contributions, and
      an entity is fused exactly if some provider ranks it. */
  lemma {:induction false} ScoresAreExact(rankings: seq<Ranking>, entity: Id)
    requires |rankings| <= 0x100_0000_0000 && forall i | 0 <= i < |rankings| :: OnePerEntity(HitsOf(rankings[i]))
    ensures EntryOf(AddAll(rankings), entity).score == TotalGain(rankings, entity) <= |rankings| * MOST
    ensures entity in AddAll(rankings) <==> exists i :: 0 <= i < |rankings| && RankIn(HitsOf(rankings[i]), entity) > 0
    decreases |rankings|
  {
    hide OnePerEntity, RankIn, Contribution, AddHits;
    if rankings != [] {
      var n := |rankings| - 1;
      var front, hits := rankings[..n], HitsOf(rankings[n]);
      ScoresAreExact(front, entity);
      AddHitsScore(AddAll(front), rankings[n].name, hits, entity);
      if RankIn(hits, entity) > 0 {
        ContributionBound(RankIn(hits, entity));
      }
      if i :| 0 <= i < |front| && RankIn(HitsOf(front[i]), entity) > 0 {
        assert rankings[i] == front[i];
      }
    }
  }

  ghost predicate Keyed(m: Scores) {
    forall e | e in m :: m[e].entity == e
  }

  lemma {:induction false} AddHitsKeyed(m: Scores, name: Text, hits: seq<Hit>)
    requires Keyed(m)
    ensures Keyed(AddHits(m, name, hits))
    decreases |hits|
  {
    hide SaturatingAdd, Contribution;
    if hits != [] {
      AddHitsKeyed(m, name, hits[..|hits| - 1]);
    }
  }

  lemma {:induction false} AddAllKeyed(rankings: seq<Ranking>)
    ensures Keyed(AddAll(rankings))
    decreases |rankings|
  {
    hide AddHits;
    if rankings != [] {
      var n := |rankings| - 1;
      AddAllKeyed(rankings[..n]);
      AddHitsKeyed(AddAll(rankings[..n]), rankings[n].name, if rankings[n].hits.Some? then rankings[n].hits.value else []);
    }
  }

  lemma RankedOnePerEntity(q: RetrievalQuery, hits: seq<Hit>)
    ensures OnePerEntity(Ranked(q, hits))
  {
    FirstOfEachFresh(Sort(HitLe, Matching(q.channels, hits)), {});
  }

  lemma ValuesMember(m: Scores, f: Fused)
    requires f in Values(m)
    ensures exists e :: e in m && m[e] == f
  {
    hide CompactIo.SortedKeys;
    var keys := CompactIo.SortedKeys(m.Keys);
    var i :| 0 <= i < |Values(m)| && Values(m)[i] == f;
    assert keys[i] in keys;
  }

  /** Every fused hit returned carries the exact sum over all providers. */
  lemma FusedScoresAreExact(q: RetrievalQuery, providers: seq<Provider>, f: Fused)
    requires |providers| <= 0x100_0000_0000 && Fuse(q, providers).Done? && f in Fuse(q, providers).value
    ensures f.score == TotalGain(Mapped(RankingOf(q), Sort(ByName, providers)), f.entity)
  {
    hide Sort, Ranked, AddAll, TotalGain, Values, FirstFailure, NameError, ByName;
    var rankings := Mapped(RankingOf(q), Sort(ByName, providers));
    forall i | 0 <= i < |rankings| ensures OnePerEntity(HitsOf(rankings[i])) {
      if rankings[i].hits.Some? {
        RankedOnePerEntity(q, Sort(ByName, providers)[i].hits.value);
      }
    }
    var values := Values(AddAll(rankings));
    assert f in Sort(FusedLe, values);
    SortMultiset(FusedLe, values);
    MultisetMember(Sort(FusedLe, values), f);
    MultisetMember(values, f);
    ValuesMember(AddAll(rankings), f);
    AddAllKeyed(rankings);
    ScoresAreExact(rankings, f.entity);
  }

  // ---- What the returned list is ------------------------------------------------------------------------

  lemma FusedOrder()
    ensures Total(FusedLe) && Transitive(FusedLe)
  {
    hide CompactIo.LexLe;
    forall a, b ensures FusedLe(a, b) || FusedLe(b, a) {
      CompactIo.LexTotal(a.entity, b.entity);
    }
    forall a, b, c | FusedLe(a, b) && FusedLe(b, c) ensures FusedLe(a, c) {
      if CompactIo.LexLe(a.entity, b.entity) && CompactIo.LexLe(b.entity, c.entity) {
        CompactIo.LexTransitive(a.entity, b.entity, c.entity);
      }
    }
  }

  lemma ValuesHold(m: Scores, e: Id)
    requires e in m
    ensures m[e] in Values(m)
  {
    hide CompactIo.SortedKeys;
    var keys := CompactIo.SortedKeys(m.Keys);
    assert e in keys;
    var i :| 0 <= i < |keys| && keys[i] == e;
    assert Values(m)[i] == m[e];
  }

  lemma ValuesDistinct(m: Scores, i: nat, j: nat)
    requires Keyed(m) && i < j < |Values(m)|
    ensures Values(m)[i].entity != Values(m)[j].entity
  {
    hide CompactIo.SortedKeys;
    var keys := CompactIo.SortedKeys(m.Keys);
    assert keys[i] in keys && keys[j] in keys;
    assert keys[i] != keys[j];
  }

  ghost predicate OnePer(s: seq<Fused>) {
    forall i, j | 0 <= i < j < |s| :: s[i].entity != s[j].entity
  }

  lemma {:induction false} InsertOnePer(x: Fused, s: seq<Fused>)
    requires OnePer(s) && forall i | 0 <= i < |s| :: s[i].entity != x.entity
    ensures OnePer(Insert(FusedLe, x, s))
    decreases |s|
  {
    hide FusedLe;
    if s != [] && !FusedLe(x, s[0]) {
      var rest := Insert(FusedLe, x, s[1..]);
      InsertOnePer(x, s[1..]);
      InsertMultiset(FusedLe, x, s[1..]);
      forall i | 0 <= i < |rest| ensures rest[i].entity != s[0].entity {
        InsertedFrom(x, s[1..], rest[i]);
      }
    }
  }

  lemma InsertedFrom(x: Fused, s: seq<Fused>, y: Fused)
    requires y in Insert(FusedLe, x, s)
    ensures y == x || y in s
  {
    InsertMultiset(FusedLe, x, s);
    MultisetMember(Insert(FusedLe, x, s), y);
    MultisetMember(s, y);
  }

  lemma {:induction false} SortOnePer(s: seq<Fused>)
    requires OnePer(s)
    ensures OnePer(Sort(FusedLe, s))
    decreases |s|
  {
    hide FusedLe, Insert;
    if s != [] {
      var rest := Sort(FusedLe, s[1..]);
      SortOnePer(s[1..]);
      SortMultiset(FusedLe, s[1..]);
      forall i | 0 <= i < |rest| ensures rest[i].entity != s[0].entity {
        MultisetMember(rest, rest[i]);
        MultisetMember(s[1..], rest[i]);
        assert rest[i] in s[1..];
      }
      InsertOnePer(s[0], rest);
    }
  }

  /** The list returned for ranked providers: at most `limit` entries and no fewer than there are, best
      first, one per entity, each the entity's entry, and nothing left out ranks before anything returned. */
  ghost predicate IsBest(q: RetrievalQuery, m: Scores, out: seq<Fused>) {
    && |out| == (if |m.Keys| <= q.limit then |m.Keys| else q.limit)
    && Sorted(FusedLe, out) && OnePer(out)
    && (forall i | 0 <= i < |out| :: out[i].entity in m && m[out[i].entity] == out[i])
    && forall e, i | e in m && m[e] !in out && 0 <= i < |out| :: FusedLe(out[i], m[e])
  }

  lemma SortedValues(m: Scores)
    requires Keyed(m)
    ensures var all := Sort(FusedLe, Values(m));
            && |all| == |m.Keys| && Sorted(FusedLe, all) && OnePer(all)
            && (forall i | 0 <= i < |all| :: all[i].entity in m && m[all[i].entity] == all[i])
            && (forall e | e in m :: m[e] in all)
  {
    hide FusedLe, Sort, Values;
    var values := Values(m);
    var all := Sort(FusedLe, values);
    FusedOrder();
    SortSorted(FusedLe, values);
    SortMultiset(FusedLe, values);
    forall i, j | 0 <= i < j < |values| ensures values[i].entity != values[j].entity {
      ValuesDistinct(m, i, j);
    }
    SortOnePer(values);
    forall i | 0 <= i < |all| ensures all[i].entity in m && m[all[i].entity] == all[i] {
      MultisetMember(all, all[i]);
      MultisetMember(values, all[i]);
      ValuesMember(m, all[i]);
    }
    forall e | e in m ensures m[e] in all {
      ValuesHold(m, e);
      MultisetMember(all, m[e]);
      MultisetMember(values, m[e]);
    }
  }

  lemma FinishIsBest(q: RetrievalQuery, rankings: seq<Ranking>)
    requires Finish(q, rankings).Done?
    ensures IsBest(q, AddAll(rankings), Finish(q, rankings).value)
  {
    hide FusedLe, Sort, Values, AddAll, FirstFailure, Sorted;
    var m := AddAll(rankings);
    AddAllKeyed(rankings);
    SortedValues(m);
    var all, out := Sort(FusedLe, Values(m)), Finish(q, rankings).value;
    assert out == all[..|out|];
    SortedTake(all, |out|);
    forall e, i | e in m && m[e] !in out && 0 <= i < |out| ensures FusedLe(out[i], m[e]) {
      LeftOutIsLater(all, |out|, i, m[e]);
    }
  }

  lemma SortedTake(all: seq<Fused>, n: nat)
    requires Sorted(FusedLe, all) && n <= |all|
    ensures Sorted(FusedLe, all[..n])
  {
    hide FusedLe;
  }

  lemma LeftOutIsLater(all: seq<Fused>, n: nat, i: nat, x: Fused)
    requires Sorted(FusedLe, all) && i < n <= |all| && x in all && x !in all[..n]
    ensures FusedLe(all[i], x)
  {
    hide FusedLe;
    var j :| 0 <= j < |all| && all[j] == x;
    assert forall k | 0 <= k < n :: all[k] in all[..n];
  }

  /** What fusion returns, unless it is refused. */
  lemma FuseIsBest(q: RetrievalQuery, providers: seq<Provider>)
    requires Fuse(q, providers).Done?
    ensures IsBest(q, AddAll(Mapped(RankingOf(q), Sort(ByName, providers))), Fuse(q, providers).value)
  {
    hide Finish, Sort, NameError, AddAll, IsBest, ByName;
    FinishIsBest(q, Mapped(RankingOf(q), Sort(ByName, providers)));
  }

  // ---- Ranks and scores in numbers -----------------------------------------------------------------------

  /** What the channel filter keeps. */
  lemma MatchingMeaning(channels: set<Channel>, hits: seq<Hit>, h: Hit)
    ensures h in Matching(channels, hits) <==> h in hits && (channels != {} ==> h.channel in channels)
  {
    MatchingCounts(channels, hits, h);
    MultisetMember(Matching(channels, hits), h);
    MultisetMember(hits, h);
  }

  lemma ChannelOrder()
    ensures Place(Literal) < Place(Lexical) < Place(Semantic) < Place(Hybrid)
  {}

  lemma HitLeNumbers(a: Hit, b: Hit)
    requires HitLe(a, b)
    ensures a.score >= b.score
    ensures a.score == b.score && a.entity != b.entity ==> CompactIo.ComesBefore(a.entity, b.entity)
    ensures a.score == b.score && a.entity == b.entity ==> Place(a.channel) <= Place(b.channel)
  {
    hide CompactIo.DiffersAt, CompactIo.LexLe;
    CompactIo.LexMeaning(a.entity, b.entity);
  }

  /** A ranking in numbers: at most `limit` matching hits, one for each entity, by descending score and then
      by entity. */
  lemma RankedOrder(q: RetrievalQuery, hits: seq<Hit>)
    ensures var r := Ranked(q, hits);
            && |r| <= q.limit
            && (forall i | 0 <= i < |r| :: r[i] in Matching(q.channels, hits))
            && (forall i, j | 0 <= i < j < |r| ::
                  && r[i].entity != r[j].entity && r[i].score >= r[j].score
                  && (r[i].score == r[j].score ==> CompactIo.ComesBefore(r[i].entity, r[j].entity)))
  {
    hide Matching, Sort, FirstOfEach, HitLe, CompactIo.ComesBefore;
    var r := Ranked(q, hits);
    var all := FirstOfEach(Sort(HitLe, Matching(q.channels, hits)), {});
    RankingMeaning(q, hits, Hit([], Literal, 0));
    forall i | 0 <= i < |r| ensures r[i] in Matching(q.channels, hits) {
      assert all[i] in all;
      RankingMeaning(q, hits, all[i]);
    }
    forall i, j | 0 <= i < j < |r|
      ensures r[i].entity != r[j].entity && r[i].score >= r[j].score
              && (r[i].score == r[j].score ==> CompactIo.ComesBefore(r[i].entity, r[j].entity))
    {
      assert all[i].entity != all[j].entity;
      HitLeNumbers(all[i], all[j]);
    }
  }

  /** No matching hit beats the one its entity is ranked by; an entity is missing only when the ranking is
      full, and then it does not come before any entity in it. */
  lemma RankedBest(q: RetrievalQuery, hits: seq<Hit>, h: Hit)
    requires h in Matching(q.channels, hits)
    ensures var r := Ranked(q, hits);
            && (forall i | 0 <= i < |r| && h.entity == r[i].entity ::
                  h.score <= r[i].score && (h.score == r[i].score ==> Place(r[i].channel) <= Place(h.channel)))
            && ((forall i | 0 <= i < |r| :: r[i].entity != h.entity) ==>
                  |r| == q.limit && forall i | 0 <= i < |r| ::
                    r[i].score >= h.score && (r[i].score == h.score ==> CompactIo.ComesBefore(r[i].entity, h.entity)))
  {
    hide Matching, Sort, FirstOfEach, HitLe, CompactIo.ComesBefore;
    var r := Ranked(q, hits);
    var all := FirstOfEach(Sort(HitLe, Matching(q.channels, hits)), {});
    RankingMeaning(q, hits, h);
    var k: nat :| Represents(all, k, h);
    HitLeNumbers(all[k], h);
    if k < |r| {
      assert r[k] == all[k];
      forall i | 0 <= i < |r| && h.entity == r[i].entity ensures i == k {}
    } else {
      forall i | 0 <= i < |r|
        ensures r[i].entity != h.entity && r[i].score >= h.score && (r[i].score == h.score ==> CompactIo.ComesBefore(r[i].entity, h.entity))
      {
        assert r[i] == all[i];
        HitLeNumbers(all[i], all[k]);
      }
    }
  }

  /** The rank of an entity is its place in the ranking, counted from one. */
  lemma {:induction false} RankInMeaning(hits: seq<Hit>, entity: Id)
    requires OnePerEntity(hits)
    ensures RankIn(hits, entity) == 0 <==> forall i | 0 <= i < |hits| :: hits[i].entity != entity
    ensures RankIn(hits, entity) <= |hits|
    ensures forall i | 0 <= i < |hits| && hits[i].entity == entity :: RankIn(hits, entity) == i + 1
    decreases |hits|
  {
    if hits != [] {
      RankInMeaning(hits[..|hits| - 1], entity);
    }
  }

  /** A rank contributes the floor of a billion over sixty plus the rank. */
  lemma ContributionMeaning(rank: nat)
    ensures Contribution(rank) == 1_000_000_000 / (60 + rank)
  {}

  /** For every provider that ranks the entity, in order: its name, the channel and raw score of the hit, and
      the rank. */
  function SourcesOf(rankings: seq<Ranking>, entity: Id): seq<Source> {
    if rankings == [] then []
    else
      var front, last := SourcesOf(rankings[..|rankings| - 1], entity), rankings[|rankings| - 1];
      var rank := RankIn(HitsOf(last), entity);
      if 0 < rank <= |HitsOf(last)|
      then front + [Source(last.name, HitsOf(last)[rank - 1].channel, rank, HitsOf(last)[rank - 1].score)]
      else front
  }

  lemma {:induction false} AddHitsSources(m: Scores, name: Text, hits: seq<Hit>, entity: Id)
    requires OnePerEntity(hits)
    ensures var rank := RankIn(hits, entity);
            && rank <= |hits|
            && EntryOf(AddHits(m, name, hits), entity).sources
               == EntryOf(m, entity).sources
                  + if rank == 0 then [] else [Source(name, hits[rank - 1].channel, rank, hits[rank - 1].score)]
    decreases |hits|
  {
    hide SaturatingAdd, Contribution;
    if hits != [] {
      var front, h := hits[..|hits| - 1], hits[|hits| - 1];
      AddHitsSources(m, name, front, entity);
      if h.entity == entity {
        NotRanked(front, entity);
      }
    }
  }

  lemma {:induction false} SourcesMeaning(rankings: seq<Ranking>, entity: Id)
    requires forall i | 0 <= i < |rankings| :: OnePerEntity(HitsOf(rankings[i]))
    ensures EntryOf(AddAll(rankings), entity).sources == SourcesOf(rankings, entity)
    decreases |rankings|
  {
    hide OnePerEntity, RankIn, AddHits;
    if rankings != [] {
      var n := |rankings| - 1;
      SourcesMeaning(rankings[..n], entity);
      AddHitsSources(AddAll(rankings[..n]), rankings[n].name, HitsOf(rankings[n]), entity);
    }
  }

  /** The sources of every hit returned are those of its entity, in the order of the providers' names. */
  lemma FusedSources(q: RetrievalQuery, providers: seq<Provider>, f: Fused)
    requires Fuse(q, providers).Done? && f in Fuse(q, providers).value
    ensures f.sources == SourcesOf(Mapped(RankingOf(q), Sort(ByName, providers)), f.entity)
  {
    hide Sort, Ranked, AddAll, NameError, ByName, SourcesOf, FusedLe, Finish;
    var rankings := Mapped(RankingOf(q), Sort(ByName, providers));
    forall i | 0 <= i < |rankings| ensures OnePerEntity(HitsOf(rankings[i])) {
      if rankings[i].hits.Some? {
        RankedOnePerEntity(q, Sort(ByName, providers)[i].hits.value);
      }
    }
    FuseIsBest(q, providers);
    SourcesMeaning(rankings, f.entity);
  }

  // ---- The order of providers, and refusals ------------------------------------------------------------

  /** Providers are asked in the byte order of their names. */
  lemma ProviderOrder(providers: seq<Provider>, i: nat, j: nat)
    requires i < j < |providers|
    ensures var s := Sort(ByName, providers);
            && multiset(s) == multiset(providers) && |s| == |providers|
            && (s[i].name != s[j].name ==> CompactIo.ComesBefore(s[i].name, s[j].name))
  {
    hide Sort, CompactIo.LexLe, CompactIo.DiffersAt;
    var s := Sort(ByName, providers);
    NameOrder();
    SortMultiset(ByName, providers);
    SortSorted(ByName, providers);
    assert |s| == |multiset(s)| == |multiset(providers)|;
    CompactIo.LexMeaning(s[i].name, s[j].name);
  }

  /** Name `i` is no name, or an earlier one repeated. */
  ghost predicate Unfit(names: seq<Text>, seen: set<Text>, i: nat) {
    i < |names| && (!IsProperText(names[i]) || names[i] in seen || exists j: nat :: j < i && names[j] == names[i])
  }

  ghost predicate FirstUnfit(names: seq<Text>, seen: set<Text>, i: nat) {
    i < |names| && Unfit(names, seen, i) && forall j: nat | j < i :: !Unfit(names, seen, j)
  }

  lemma UnfitShift(names: seq<Text>, seen: set<Text>, i: nat)
    requires names != [] && !Unfit(names, seen, 0)
    ensures Unfit(names, seen, i) <==> i > 0 && Unfit(names[1..], seen + {names[0]}, i - 1)
  {
    hide IsProperText;
    var rest := names[1..];
    if 0 < i < |names| {
      assert rest[i - 1] == names[i];
      if j: nat :| j < i && names[j] == names[i] {
        assert j > 0 ==> rest[j - 1] == names[j];
      }
      if j: nat :| j < i - 1 && rest[j] == rest[i - 1] {
        assert names[j + 1] == rest[j];
      }
    }
  }

  /** Names are accepted if all are proper and different; otherwise the first unfit one is reported, and as
      a duplicate only if it is proper. */
  lemma {:induction false} NameErrorMeaning(names: seq<Text>, seen: set<Text>)
    ensures NameError(names, seen).None? <==> forall i: nat :: !Unfit(names, seen, i)
    ensures NameError(names, seen).Some? ==>
              exists i: nat :: FirstUnfit(names, seen, i)
                               && NameError(names, seen).value == if IsProperText(names[i]) then DuplicateName(names[i]) else BadName
    decreases |names|
  {
    hide IsProperText, Unfit;
    if names == [] {
      NoneUnfit(seen);
    } else {
      UnfitFirst(names, seen);
      if Unfit(names, seen, 0) {
        assert FirstUnfit(names, seen, 0);
      } else {
        var rest, more := names[1..], seen + {names[0]};
        NameErrorMeaning(rest, more);
        forall i: nat ensures Unfit(names, seen, i) <==> i > 0 && Unfit(rest, more, i - 1) {
          UnfitShift(names, seen, i);
        }
        if NameError(rest, more).Some? {
          var i: nat :| FirstUnfit(rest, more, i)
                        && NameError(rest, more).value == if IsProperText(rest[i]) then DuplicateName(rest[i]) else BadName;
          assert FirstUnfit(names, seen, i + 1) && names[i + 1] == rest[i];
        } else {
          assert forall i: nat :: !Unfit(names, seen, i);
        }
      }
    }
  }

  lemma NoneUnfit(seen: set<Text>)
    ensures forall i: nat :: !Unfit([], seen, i)
  {}

  lemma UnfitFirst(names: seq<Text>, seen: set<Text>)
    requires names != []
    ensures Unfit(names, seen, 0) <==> !IsProperText(names[0]) || names[0] in seen
  {
    hide IsProperText;
  }

  /** The first provider that fails is reported, unless none does. */
  lemma {:induction false} FirstFailureMeaning(rankings: seq<Ranking>)
    ensures FirstFailure(rankings).None? <==> forall i | 0 <= i < |rankings| :: rankings[i].hits.Some?
    ensures FirstFailure(rankings).Some? ==>
              exists i :: 0 <= i < |rankings| && rankings[i].hits.None? && (forall j | 0 <= j < i :: rankings[j].hits.Some?)
                          && FirstFailure(rankings).value == ProviderFailed(rankings[i].name)
    decreases |rankings|
  {
    if rankings != [] && rankings[0].hits.Some? {
      var rest := rankings[1..];
      FirstFailureMeaning(rest);
      assert forall i | 0 < i < |rankings| :: rankings[i] == rest[i - 1];
      if FirstFailure(rest).Some? {
        var i :| 0 <= i < |rest| && rest[i].hits.None? && (forall j | 0 <= j < i :: rest[j].hits.Some?)
                 && FirstFailure(rest).value == ProviderFailed(rest[i].name);
        assert rankings[i + 1].hits.None?;
      }
    }
  }

  /** Fusion is refused for an unfit name before any provider is asked, then for the first failure in name
      order, and otherwise not. */
  lemma FuseRefusals(q: RetrievalQuery, providers: seq<Provider>)
    ensures var sorted := Sort(ByName, providers);
            var names := Mapped(ProviderName(), sorted);
            && |names| == |sorted| && (forall i | 0 <= i < |sorted| :: names[i] == sorted[i].name)
            && ((exists i: nat :: Unfit(names, {}, i)) ==>
                  exists i: nat :: FirstUnfit(names, {}, i)
                                   && Fuse(q, providers) == Refused(if IsProperText(names[i]) then DuplicateName(names[i]) else BadName))
            && ((forall i: nat :: !Unfit(names, {}, i)) && (exists i :: 0 <= i < |sorted| && sorted[i].hits.None?) ==>
                  exists i :: 0 <= i < |sorted| && sorted[i].hits.None? && (forall j | 0 <= j < i :: sorted[j].hits.Some?)
                              && Fuse(q, providers) == Refused(ProviderFailed(sorted[i].name)))
            && ((forall i: nat :: !Unfit(names, {}, i)) && (forall i | 0 <= i < |sorted| :: sorted[i].hits.Some?) ==>
                  Fuse(q, providers).Done?)
  {
    hide Sort, Unfit, IsProperText, AddAll, Values, FirstFailure, NameError, Ranked, FusedLe;
    var sorted := Sort(ByName, providers);
    var names := Mapped(ProviderName(), sorted);
    var rankings := Mapped(RankingOf(q), sorted);
    NameErrorMeaning(names, {});
    FirstFailureMeaning(rankings);
    assert forall i | 0 <= i < |sorted| :: rankings[i].name == sorted[i].name && (rankings[i].hits.Some? <==> sorted[i].hits.Some?);
  }

  /** The list returned, in numbers: by descending score and then by entity, one hit for each entity; and an
      entity that some provider ranks is missing only when the list is full, and then does not come before
      any entity in it. */
  lemma FusedNumbers(q: RetrievalQuery, providers: seq<Provider>)
    requires Fuse(q, providers).Done?
    ensures var out, m := Fuse(q, providers).value, AddAll(Mapped(RankingOf(q), Sort(ByName, providers)));
            && |out| <= q.limit
            && (forall i, j | 0 <= i < j < |out| ::
                  && out[i].entity != out[j].entity && out[i].score >= out[j].score
                  && (out[i].score == out[j].score ==> CompactIo.ComesBefore(out[i].entity, out[j].entity)))
            && (forall e | e in m && (forall i | 0 <= i < |out| :: out[i].entity != e) ::
                  |out| == q.limit && forall i | 0 <= i < |out| ::
                    out[i].score >= m[e].score && (out[i].score == m[e].score ==> CompactIo.ComesBefore(out[i].entity, e)))
  {
    hide Finish, Sort, NameError, AddAll, ByName, FusedLe, CompactIo.ComesBefore;
    var out, m := Fuse(q, providers).value, AddAll(Mapped(RankingOf(q), Sort(ByName, providers)));
    FuseIsBest(q, providers);
    AddAllKeyed(Mapped(RankingOf(q), Sort(ByName, providers)));
    forall i, j | 0 <= i < j < |out|
      ensures out[i].entity != out[j].entity && out[i].score >= out[j].score
              && (out[i].score == out[j].score ==> CompactIo.ComesBefore(out[i].entity, out[j].entity))
    {
      FusedLeNumbers(out[i], out[j]);
    }
    forall e | e in m && (forall i | 0 <= i < |out| :: out[i].entity != e)
      ensures |out| == q.limit && forall i | 0 <= i < |out| ::
                out[i].score >= m[e].score && (out[i].score == m[e].score ==> CompactIo.ComesBefore(out[i].entity, e))
    {
      assert m[e] !in out;
      FullWithout(m, out, e);
      forall i | 0 <= i < |out| ensures out[i].score >= m[e].score && (out[i].score == m[e].score ==> CompactIo.ComesBefore(out[i].entity, e)) {
        FusedLeNumbers(out[i], m[e]);
      }
    }
  }

  lemma FusedLeNumbers(a: Fused, b: Fused)
    requires FusedLe(a, b) && a.entity != b.entity
    ensures a.score >= b.score && (a.score == b.score ==> CompactIo.ComesBefore(a.entity, b.entity))
  {
    hide CompactIo.DiffersAt, CompactIo.LexLe;
    CompactIo.LexMeaning(a.entity, b.entity);
  }

  /** A list of different keys that misses one has fewer entries than there are keys. */
  lemma FullWithout(m: Scores, out: seq<Fused>, e: Id)
    requires OnePer(out) && e in m && forall i | 0 <= i < |out| :: out[i].entity in m && out[i].entity != e
    ensures |out| < |m.Keys|
  {
    var ids := EntitiesOf(out);
    EntitiesCount(out);
    assert ids <= m.Keys - {e};
    SubsetSmaller(ids, m.Keys - {e});
  }

  function EntitiesOf(out: seq<Fused>): set<Id> {
    set i | 0 <= i < |out| :: out[i].entity
  }

  lemma {:induction false} EntitiesCount(out: seq<Fused>)
    requires OnePer(out)
    ensures |EntitiesOf(out)| == |out|
    decreases |out|
  {
    if out == [] {
      assert EntitiesOf(out) == {};
    } else {
      var front, x := out[..|out| - 1], out[|out| - 1];
      EntitiesCount(front);
      assert out == front + [x];
      assert x.entity !in EntitiesOf(front);
      forall e | e in EntitiesOf(front) ensures e in EntitiesOf(out) {
        var i :| 0 <= i < |front| && front[i].entity == e;
        assert out[i].entity == e;
      }
      assert out[|front|] == x;
      assert EntitiesOf(out) == EntitiesOf(front) + {x.entity};
    }
  }

  lemma {:induction false} SubsetSmaller(a: set<Id>, b: set<Id>)
    requires a <= b
    ensures |a| <= |b|
    decreases |a|
  {
    if a != {} {
      var x :| x in a;
      SubsetSmaller(a - {x}, b - {x});
    }
  }

  // ---- The loops --------------------------------------------------------------------------------------------

  method ValidateNames(names: seq<Text>) returns (error: Option<FusionError>)
    ensures error == NameError(names, {})
  {
    hide IsProperText;
    var seen: set<Text> := {};
    assert names[0..] == names;
    for i := 0 to |names|
      invariant NameError(names, {}) == NameError(names[i..], seen)
    {
      assert names[i..][1..] == names[i + 1..];
      if !IsProperText(names[i]) {
        return Some(BadName);
      }
      if names[i] in seen {
        return Some(DuplicateName(names[i]));
      }
      seen := seen + {names[i]};
    }
    return None;
  }

  method RetainFirst(hits: seq<Hit>) returns (kept: seq<Hit>)
    ensures kept == FirstOfEach(hits, {})
  {
    var seen: set<Id> := {};
    kept := [];
    assert hits[0..] == hits;
    for i := 0 to |hits|
      invariant FirstOfEach(hits, {}) == kept + FirstOfEach(hits[i..], seen)
    {
      assert hits[i..][1..] == hits[i + 1..];
      if hits[i].entity !in seen {
        seen := seen + {hits[i].entity};
        kept := kept + [hits[i]];
      }
    }
  }

  method Accumulate(start: Scores, name: Text, ranked: seq<Hit>) returns (fused: Scores)
    ensures fused == AddHits(start, name, ranked)
  {
    hide SaturatingAdd, Contribution;
    fused := start;
    for offset := 0 to |ranked|
      invariant fused == AddHits(start, name, ranked[..offset])
    {
      var hit, rank := ranked[offset], offset + 1;
      assert ranked[..offset + 1][..offset] == ranked[..offset];
      var entry := if hit.entity in fused then fused[hit.entity] else Fused(hit.entity, 0, []);
      entry := entry.(score := SaturatingAdd(entry.score, Contribution(rank)));
      entry := entry.(sources := entry.sources + [Source(name, hit.channel, rank, hit.score)]);
      fused := fused[hit.entity := entry];
    }
    assert ranked[..|ranked|] == ranked;
  }

  method CollectValues(m: Scores) returns (r: seq<Fused>)
    ensures r == Values(m)
  {
    hide CompactIo.SortedKeys;
    var keys := CompactIo.SortKeys(m.Keys);
    r := seq(|keys|, i requires 0 <= i < |keys| => assert keys[i] in keys; m[keys[i]]);
  }

  method RankProvider(q: RetrievalQuery, retrieved: seq<Hit>) returns (hits: seq<Hit>)
    ensures hits == Ranked(q, retrieved)
  {
    hits := Matching(q.channels, retrieved);
    hits := Sort(HitLe, hits);
    hits := RetainFirst(hits);
    hits := Take(hits, q.limit);
  }

  method FuseRetrieval(q: RetrievalQuery, providers: seq<Provider>) returns (r: Fusing<seq<Fused>>)
    ensures r == Fuse(q, providers)
  {
    hide Sort, NameError, Ranked, AddHits, Values, ByName, FusedLe;
    var sorted := Sort(ByName, providers);
    var error := ValidateNames(Mapped(ProviderName(), sorted));
    if error.Some? {
      return Refused(error.value);
    }
    var fused: Scores := map[];
    ghost var rankings := Mapped(RankingOf(q), sorted);
    assert rankings[0..] == rankings;
    for i := 0 to |sorted|
      invariant fused == AddAll(rankings[..i])
      invariant FirstFailure(rankings) == FirstFailure(rankings[i..])
    {
      assert rankings[i..][1..] == rankings[i + 1..] && rankings[..i + 1][..i] == rankings[..i];
      if sorted[i].hits.None? {
        return Refused(ProviderFailed(sorted[i].name));
      }
      var hits := RankProvider(q, sorted[i].hits.value);
      fused := Accumulate(fused, sorted[i].name, hits);
    }
    assert rankings[..|rankings|] == rankings;
    var output := CollectValues(fused);
    output := Sort(FusedLe, output);
    r := Done(Take(output, q.limit));
  }
}
