/** Token counts of nodes and facts, for a given text estimator. */
module Tokens {
  import opened Common
  import opened Domain
  import opened Compiler
  import CompactIo

  /** The byte-based fallback: bytes divided by the rate, rounded up, and at least one. */
  function BytesEstimate(bytesPerToken: nat, s: Text): (n: nat)
    requires bytesPerToken > 0
    ensures n >= 1 && |s| <= n * bytesPerToken && (n == 1 || (n - 1) * bytesPerToken < |s|)
  {
    RoundsUp(|s|, bytesPerToken);
    var n := (|s| + bytesPerToken - 1) / bytesPerToken;
    if n < 1 then 1 else n
  }

  lemma RoundsUp(n: nat, d: nat)
    requires d > 0
    ensures var k := (n + d - 1) / d;
            n <= k * d < n + d
  {
    var m := n + d - 1;
    assert m == d * (m / d) + m % d;
  }

  function OptionalTokens(estimate: Text -> nat, s: Option<Text>): nat {
    if s.Some? then estimate(s.value) else 0
  }

  ghost function EntryTokens(estimate: Text -> nat, keys: seq<Text>, m: map<Text, Text>): nat
    requires forall i | 0 <= i < |keys| :: keys[i] in m
    decreases |keys|
  {
    if keys == [] then 0 else estimate(keys[0]) + estimate(m[keys[0]]) + EntryTokens(estimate, keys[1..], m)
  }

  ghost function NodeTokens(estimate: Text -> nat, n: MemoryNode): nat {
    CompactIo.KeysInMap(n.attributes);
    estimate(n.id) + estimate(n.kind) + estimate(n.labelText)
    + OptionalTokens(estimate, n.repository) + OptionalTokens(estimate, n.branch)
    + EntryTokens(estimate, CompactIo.SortedKeys(n.attributes.Keys), n.attributes)
    + 6
  }

  function EvidenceTokens(estimate: Text -> nat, evidence: seq<Evidence>): nat {
    if evidence == [] then 0
    else
      var e := evidence[|evidence| - 1];
      EvidenceTokens(estimate, evidence[..|evidence| - 1])
      + estimate(e.kind) + estimate(e.source) + OptionalTokens(estimate, e.locator) + OptionalTokens(estimate, e.digest)
  }

  /** Each piece of evidence costs its own texts, absent ones nothing. */
  lemma OneEvidence(estimate: Text -> nat, kind: Text, source: Text, locator: Text, digest: Text)
    ensures var all := estimate(kind) + estimate(source) + estimate(locator) + estimate(digest);
            && EvidenceTokens(estimate, [Evidence(kind, source, Some(locator), Some(digest))]) == all
            && EvidenceTokens(estimate, [Evidence(kind, source, Some(locator), None)]) == all - estimate(digest)
            && EvidenceTokens(estimate, [Evidence(kind, source, None, Some(digest))]) == all - estimate(locator)
            && EvidenceTokens(estimate, [Evidence(kind, source, None, None)]) == estimate(kind) + estimate(source)
  {}

  /** Evidence adds up. */
  lemma {:induction false} EvidenceAdds(estimate: Text -> nat, a: seq<Evidence>, b: seq<Evidence>)
    ensures EvidenceTokens(estimate, a + b) == EvidenceTokens(estimate, a) + EvidenceTokens(estimate, b)
    decreases |b|
  {
    if b == [] {
      assert a + b == a;
    } else {
      EvidenceAdds(estimate, a, b[..|b| - 1]);
      assert (a + b)[..|a + b| - 1] == a + b[..|b| - 1];
    }
  }

  function FactTokens(estimate: Text -> nat, f: MemoryFact): nat {
    estimate(f.id) + estimate(f.source) + estimate(f.relation) + estimate(f.target) + EvidenceTokens(estimate, f.evidence) + 16
  }

  /** The costs the compiler charges with this estimator. */
  ghost function TokenCosts(estimate: Text -> nat): Costs {
    Costs((n: MemoryNode) => NodeTokens(estimate, n), (f: MemoryFact) => FactTokens(estimate, f))
  }

  /** No node is free, so a taken self-loop is charged twice exactly when it brought its node in. */
  lemma TwiceMeansIntroduced(estimate: Text -> nat, nodes: Nodes, budget: nat, s: Pick, candidates: seq<MemoryFact>)
    requires forall f | f in candidates :: f.source in nodes
    ensures TwiceCharged(TokenCosts(estimate), nodes, budget, s, candidates) == 0
            <==> forall i | 0 <= i < |candidates| && Taken(TokenCosts(estimate), nodes, budget, s, candidates, i) ::
                   candidates[i].source == candidates[i].target
                   ==> candidates[i].source in ChooseAll(TokenCosts(estimate), nodes, budget, s, candidates[..i]).selected
  {
    hide ChooseAll, TwiceCharged, EntryTokens;
    var costs := TokenCosts(estimate);
    NothingTwice(costs, nodes, budget, s, candidates);
    forall i | 0 <= i < |candidates|
      ensures TwiceAt(costs, nodes, budget, s, candidates, i) == 0
              <==> (Taken(costs, nodes, budget, s, candidates, i) && candidates[i].source == candidates[i].target
                    ==> candidates[i].source in ChooseAll(costs, nodes, budget, s, candidates[..i]).selected)
    {
      assert candidates[i] in candidates;
    }
  }
}
