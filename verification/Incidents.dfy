/** The counting-sort incident index: one offset table, one slot array, filled in two passes.

    Its meaning is plain: slice `k` lists, in append order and once each, the facts
    that touch node `k`.
 */
module Incidents {

  type Endpoints = seq<(nat, nat)>

  predicate Touches(e: (nat, nat), node: nat) {
    e.0 == node || e.1 == node
  }

  /** Indexes of the facts that touch `node`, ascending. */
  function Touching(endpoints: Endpoints, node: nat): (r: seq<nat>)
    ensures |r| <= |endpoints|
    ensures forall i | 0 <= i < |r| :: r[i] < |endpoints| && Touches(endpoints[r[i]], node)
  {
    if endpoints == [] then []
    else
      var n := |endpoints| - 1;
      var front := Touching(endpoints[..n], node);
      if Touches(endpoints[n], node) then front + [n] else front
  }

  /** Entry `k` of the offset table after counting: the degree of node `k - 1`. */
  function Degree(endpoints: Endpoints, k: nat): nat {
    if k == 0 then 0 else |Touching(endpoints, k - 1)|
  }

  /** Slots used by the nodes below `k`. */
  function Start(endpoints: Endpoints, k: nat): nat {
    if k == 0 then 0 else Start(endpoints, k - 1) + Degree(endpoints, k)
  }

  ghost predicate InRange(endpoints: Endpoints, nodes: nat) {
    forall i | 0 <= i < |endpoints| :: endpoints[i].0 < nodes && endpoints[i].1 < nodes
  }

  /** Slice `k` of the slots is `list`. */
  ghost predicate SliceIs(offsets: seq<nat>, slots: seq<nat>, k: nat, list: seq<nat>) {
    && k + 1 < |offsets|
    && offsets[k] <= offsets[k + 1] <= |slots|
    && slots[offsets[k]..offsets[k + 1]] == list
  }

  /** `offsets` and `slots` present the incident lists of all nodes, one slice after the other. */
  ghost predicate IsCsr(offsets: seq<nat>, slots: seq<nat>, endpoints: Endpoints, nodes: nat) {
    && |offsets| == nodes + 1
    && offsets[0] == 0
    && offsets[nodes] == |slots|
    && forall k | 0 <= k < nodes :: SliceIs(offsets, slots, k, Touching(endpoints, k))
  }

  // ---- Laws of the incident lists ------------------------------------------------

  /** Nothing touching is missed, nothing is listed twice, and the order is append order. */
  lemma {:induction false} TouchingComplete(endpoints: Endpoints, node: nat)
    ensures forall f | 0 <= f < |endpoints| && Touches(endpoints[f], node) :: f in Touching(endpoints, node)
    ensures forall i, j | 0 <= i < j < |Touching(endpoints, node)| ::
              Touching(endpoints, node)[i] < Touching(endpoints, node)[j]
    decreases |endpoints|
  {
    if endpoints != [] {
      TouchingComplete(endpoints[..|endpoints| - 1], node);
    }
  }

  lemma TouchingAppend(endpoints: Endpoints, e: (nat, nat), node: nat)
    ensures Touching(endpoints + [e], node)
         == if Touches(e, node) then Touching(endpoints, node) + [|endpoints|] else Touching(endpoints, node)
  {
    assert (endpoints + [e])[..|endpoints|] == endpoints;
  }

  lemma TouchingStep(endpoints: Endpoints, n: nat, node: nat)
    requires n < |endpoints|
    ensures Touching(endpoints[..n + 1], node)
         == if Touches(endpoints[n], node) then Touching(endpoints[..n], node) + [n] else Touching(endpoints[..n], node)
  {
    assert endpoints[..n + 1] == endpoints[..n] + [endpoints[n]];
    TouchingAppend(endpoints[..n], endpoints[n], node);
  }

  lemma {:induction false} TouchingPrefix(endpoints: Endpoints, n: nat, node: nat)
    requires n <= |endpoints|
    ensures |Touching(endpoints[..n], node)| <= |Touching(endpoints, node)|
    decreases |endpoints| - n
  {
    if n == |endpoints| {
      assert endpoints[..n] == endpoints;
    } else {
      TouchingStep(endpoints, n, node);
      TouchingPrefix(endpoints, n + 1, node);
    }
  }

  lemma {:induction false} StartMonotone(endpoints: Endpoints, j: nat, k: nat)
    requires j <= k
    ensures Start(endpoints, j) <= Start(endpoints, k)
    decreases k
  {
    if j < k {
      StartMonotone(endpoints, j, k - 1);
    }
  }

  // ---- Pass one: count, then sum ----------------------------------------------------

  lemma DegreeStep(endpoints: Endpoints, n: nat, k: nat)
    requires n < |endpoints|
    ensures Degree(endpoints[..n + 1], k)
         == Degree(endpoints[..n], k) + if k > 0 && Touches(endpoints[n], k - 1) then 1 else 0
  {
    if k > 0 {
      TouchingStep(endpoints, n, k - 1);
    }
  }

  method CountDegrees(offsets: array<nat>, endpoints: Endpoints, nodes: nat)
    requires offsets.Length == nodes + 1 && InRange(endpoints, nodes)
    requires forall k | 0 <= k <= nodes :: offsets[k] == 0
    modifies offsets
    ensures forall k | 0 <= k <= nodes :: offsets[k] == Degree(endpoints, k)
  {
    for n := 0 to |endpoints|
      invariant forall k | 0 <= k <= nodes :: offsets[k] == Degree(endpoints[..n], k)
    {
      var (source, target) := endpoints[n];
      forall k | 0 <= k <= nodes
        ensures Degree(endpoints[..n + 1], k)
             == Degree(endpoints[..n], k) + if k > 0 && Touches(endpoints[n], k - 1) then 1 else 0
      {
        DegreeStep(endpoints, n, k);
      }
      hide Degree;
      offsets[source + 1] := offsets[source + 1] + 1;
      if target != source {
        offsets[target + 1] := offsets[target + 1] + 1;
      }
    }
    assert endpoints[..|endpoints|] == endpoints;
  }

  method SumOffsets(offsets: array<nat>, ghost endpoints: Endpoints, nodes: nat)
    requires offsets.Length == nodes + 1
    requires forall k | 0 <= k <= nodes :: offsets[k] == Degree(endpoints, k)
    modifies offsets
    ensures forall k | 0 <= k <= nodes :: offsets[k] == Start(endpoints, k)
  {
    hide Touching;
    for index := 1 to offsets.Length
      invariant forall k {:trigger offsets[k]} | 0 <= k < index :: offsets[k] == Start(endpoints, k)
      invariant forall k {:trigger offsets[k]} | index <= k <= nodes :: offsets[k] == Degree(endpoints, k)
    {
      assert offsets[index - 1] == Start(endpoints, index - 1);
      offsets[index] := offsets[index] + offsets[index - 1];
    }
  }

  // ---- Pass two: fill the slots --------------------------------------------------------

  /** Node `k`'s slots hold `list` so far, and its cursor stands right behind them. */
  ghost predicate NodeFilled(slots: seq<nat>, cursor: nat, list: seq<nat>, endpoints: Endpoints, k: nat) {
    && cursor == Start(endpoints, k) + |list|
    && cursor <= Start(endpoints, k + 1) <= |slots|
    && slots[Start(endpoints, k)..cursor] == list
  }

  ghost predicate Filled(slots: seq<nat>, cursor: seq<nat>, lists: seq<seq<nat>>, endpoints: Endpoints, nodes: nat) {
    && |cursor| == |lists| == nodes
    && |slots| == Start(endpoints, nodes)
    && forall k | 0 <= k < nodes :: NodeFilled(slots, cursor[k], lists[k], endpoints, k)
  }

  lemma OtherNodeKept(slots: seq<nat>, c: nat, fact: nat, k: nat, cursor: nat, list: seq<nat>, endpoints: Endpoints, j: nat)
    requires j != k && Start(endpoints, k) <= c < Start(endpoints, k + 1) && c < |slots|
    requires NodeFilled(slots, cursor, list, endpoints, j)
    ensures NodeFilled(slots[c := fact], cursor, list, endpoints, j)
  {
    if j < k {
      StartMonotone(endpoints, j + 1, k);
    } else {
      StartMonotone(endpoints, k + 1, j);
    }
    hide Start, Touching;
    var start := Start(endpoints, j);
    assert slots[c := fact][start..cursor] == slots[start..cursor];
  }

  /** Each write lands in a slot that no list used before. */
  lemma PlaceStep(slots: seq<nat>, cursor: seq<nat>, k: nat, fact: nat,
                  lists: seq<seq<nat>>, endpoints: Endpoints, nodes: nat)
    requires k < nodes && Filled(slots, cursor, lists, endpoints, nodes)
    requires |lists[k]| < |Touching(endpoints, k)|
    ensures cursor[k] < Start(endpoints, k + 1) <= |slots|
    ensures Filled(slots[cursor[k] := fact], cursor[k := cursor[k] + 1], lists[k := lists[k] + [fact]], endpoints, nodes)
  {
    var c := cursor[k];
    assert NodeFilled(slots, c, lists[k], endpoints, k);
    assert c < Start(endpoints, k + 1);
    hide Start, Touching;
    assert slots[c := fact][Start(endpoints, k)..c + 1] == slots[Start(endpoints, k)..c] + [fact];
    assert NodeFilled(slots[c := fact], c + 1, lists[k] + [fact], endpoints, k);
    hide NodeFilled;
    forall j | 0 <= j < nodes && j != k ensures NodeFilled(slots[c := fact], cursor[j], lists[j], endpoints, j) {
      OtherNodeKept(slots, c, fact, k, cursor[j], lists[j], endpoints, j);
    }
  }

  method Place(slots: array<nat>, cursor: array<nat>, k: nat, fact: nat,
               ghost lists: seq<seq<nat>>, ghost endpoints: Endpoints, nodes: nat)
    requires slots != cursor && k < nodes && Filled(slots[..], cursor[..], lists, endpoints, nodes)
    requires |lists[k]| < |Touching(endpoints, k)|
    modifies slots, cursor
    ensures Filled(slots[..], cursor[..], lists[k := lists[k] + [fact]], endpoints, nodes)
  {
    PlaceStep(slots[..], cursor[..], k, fact, lists, endpoints, nodes);
    ghost var s, c := slots[..], cursor[..];
    slots[cursor[k]] := fact;
    cursor[k] := cursor[k] + 1;
    assert slots[..] == s[c[k] := fact];
    assert cursor[..] == c[k := c[k] + 1];
  }

  ghost function ListsOf(endpoints: Endpoints, nodes: nat): (r: seq<seq<nat>>)
    ensures |r| == nodes && forall k | 0 <= k < nodes :: r[k] == Touching(endpoints, k)
  {
    seq(nodes, k requires 0 <= k => Touching(endpoints, k))
  }

  lemma ListsStep(endpoints: Endpoints, n: nat, nodes: nat)
    requires n < |endpoints| && InRange(endpoints, nodes)
    ensures var (source, target) := endpoints[n];
            var lists := ListsOf(endpoints[..n], nodes);
            var one := lists[source := lists[source] + [n]];
            var both := if target == source then one else one[target := one[target] + [n]];
            && |lists[source]| < |Touching(endpoints, source)|
            && (target != source ==> |one[target]| < |Touching(endpoints, target)|)
            && both == ListsOf(endpoints[..n + 1], nodes)
  {
    var (source, target) := endpoints[n];
    var lists := ListsOf(endpoints[..n], nodes);
    var one := lists[source := lists[source] + [n]];
    var both := if target == source then one else one[target := one[target] + [n]];
    TouchingStep(endpoints, n, source);
    TouchingStep(endpoints, n, target);
    TouchingPrefix(endpoints, n + 1, source);
    TouchingPrefix(endpoints, n + 1, target);
    forall k | 0 <= k < nodes ensures both[k] == Touching(endpoints[..n + 1], k) {
      TouchingStep(endpoints, n, k);
    }
  }

  method FillOne(slots: array<nat>, cursor: array<nat>, n: nat, endpoints: Endpoints, nodes: nat)
    requires slots != cursor && InRange(endpoints, nodes) && n < |endpoints|
    requires Filled(slots[..], cursor[..], ListsOf(endpoints[..n], nodes), endpoints, nodes)
    modifies slots, cursor
    ensures Filled(slots[..], cursor[..], ListsOf(endpoints[..n + 1], nodes), endpoints, nodes)
  {
    var (source, target) := endpoints[n];
    ghost var lists := ListsOf(endpoints[..n], nodes);
    ListsStep(endpoints, n, nodes);
    Place(slots, cursor, source, n, lists, endpoints, nodes);
    if target != source {
      lists := lists[source := lists[source] + [n]];
      Place(slots, cursor, target, n, lists, endpoints, nodes);
    }
  }

  method FillSlots(slots: array<nat>, cursor: array<nat>, endpoints: Endpoints, nodes: nat)
    requires slots != cursor && InRange(endpoints, nodes)
    requires Filled(slots[..], cursor[..], ListsOf([], nodes), endpoints, nodes)
    modifies slots, cursor
    ensures Filled(slots[..], cursor[..], ListsOf(endpoints, nodes), endpoints, nodes)
  {
    assert endpoints[..0] == [];
    for n := 0 to |endpoints|
      invariant Filled(slots[..], cursor[..], ListsOf(endpoints[..n], nodes), endpoints, nodes)
    {
      FillOne(slots, cursor, n, endpoints, nodes);
    }
    assert endpoints[..|endpoints|] == endpoints;
  }

  lemma EmptyNode(slots: seq<nat>, endpoints: Endpoints, k: nat, nodes: nat)
    requires k < nodes && |slots| == Start(endpoints, nodes)
    ensures NodeFilled(slots, Start(endpoints, k), [], endpoints, k)
  {
    StartMonotone(endpoints, k, k + 1);
    StartMonotone(endpoints, k + 1, nodes);
    hide Start;
  }

  lemma EmptyFilled(slots: seq<nat>, cursor: seq<nat>, endpoints: Endpoints, nodes: nat)
    requires |cursor| == nodes && |slots| == Start(endpoints, nodes)
    requires forall k {:trigger cursor[k]} | 0 <= k < nodes :: cursor[k] == Start(endpoints, k)
    ensures Filled(slots, cursor, ListsOf([], nodes), endpoints, nodes)
  {
    var lists := ListsOf([], nodes);
    assert forall k | 0 <= k < nodes :: lists[k] == [];
    hide Start, Touching, NodeFilled;
    forall k | 0 <= k < nodes ensures NodeFilled(slots, cursor[k], lists[k], endpoints, k) {
      EmptyNode(slots, endpoints, k, nodes);
    }
  }

  lemma FilledSlice(offsets: seq<nat>, slots: seq<nat>, cursor: nat, endpoints: Endpoints, k: nat)
    requires k + 1 < |offsets| && offsets[k] == Start(endpoints, k) && offsets[k + 1] == Start(endpoints, k + 1)
    requires NodeFilled(slots, cursor, Touching(endpoints, k), endpoints, k)
    ensures SliceIs(offsets, slots, k, Touching(endpoints, k))
  {
    hide Touching;
  }

  lemma FilledIsCsr(offsets: seq<nat>, slots: seq<nat>, cursor: seq<nat>, endpoints: Endpoints, nodes: nat)
    requires |offsets| == nodes + 1 && forall k {:trigger offsets[k]} | 0 <= k <= nodes :: offsets[k] == Start(endpoints, k)
    requires Filled(slots, cursor, ListsOf(endpoints, nodes), endpoints, nodes)
    ensures IsCsr(offsets, slots, endpoints, nodes)
  {
    assert offsets[0] == 0;
    hide Touching, Start, NodeFilled, SliceIs;
    var lists := ListsOf(endpoints, nodes);
    forall k | 0 <= k < nodes ensures SliceIs(offsets, slots, k, Touching(endpoints, k)) {
      assert NodeFilled(slots, cursor[k], lists[k], endpoints, k);
      FilledSlice(offsets, slots, cursor[k], endpoints, k);
    }
  }

  /** The whole construction. */
  method BuildCsr(nodes: nat, endpoints: Endpoints) returns (offsets: seq<nat>, slots: seq<nat>)
    requires InRange(endpoints, nodes)
    ensures IsCsr(offsets, slots, endpoints, nodes)
  {
    hide Start, Touching, Filled;
    var table := new nat[nodes + 1](_ => 0);
    CountDegrees(table, endpoints, nodes);
    SumOffsets(table, endpoints, nodes);
    offsets := table[..];
    assert offsets[nodes] == Start(endpoints, nodes);
    var cursor := new nat[nodes](i requires 0 <= i < |offsets| => offsets[i]);
    assert cursor[..] == offsets[..nodes];
    var filled := new nat[offsets[nodes]](_ => 0);
    EmptyFilled(filled[..], cursor[..], endpoints, nodes);
    FillSlots(filled, cursor, endpoints, nodes);
    slots := filled[..];
    FilledIsCsr(offsets, slots, cursor[..], endpoints, nodes);
  }

  // ---- Stable slots plus the delta of later facts -----------------------------------------

  type Delta = map<nat, seq<nat>>

  function DeltaOf(delta: Delta, k: nat): seq<nat> {
    if k in delta then delta[k] else []
  }

  function Push(delta: Delta, k: nat, fact: nat): Delta {
    delta[k := DeltaOf(delta, k) + [fact]]
  }

  /** The delta after a fact with the given endpoints was appended. */
  function PushBoth(delta: Delta, e: (nat, nat), fact: nat): Delta {
    var one := Push(delta, e.0, fact);
    if e.1 == e.0 then one else Push(one, e.1, fact)
  }

  /** Stable slice and delta together are the incident list of node `k`. */
  ghost predicate NodeIndexed(offsets: seq<nat>, slots: seq<nat>, delta: Delta, endpoints: Endpoints, k: nat) {
    && k + 1 < |offsets|
    && offsets[k] <= offsets[k + 1] <= |slots|
    && slots[offsets[k]..offsets[k + 1]] + DeltaOf(delta, k) == Touching(endpoints, k)
  }

  ghost predicate Indexed(offsets: seq<nat>, slots: seq<nat>, delta: Delta, endpoints: Endpoints, nodes: nat) {
    && |offsets| == nodes + 1
    && offsets[0] == 0
    && offsets[nodes] == |slots|
    && InRange(endpoints, nodes)
    && (forall k | k in delta :: k < nodes)
    && forall k | 0 <= k < nodes :: NodeIndexed(offsets, slots, delta, endpoints, k)
  }

  lemma CsrIsIndexed(offsets: seq<nat>, slots: seq<nat>, endpoints: Endpoints, nodes: nat)
    requires IsCsr(offsets, slots, endpoints, nodes) && InRange(endpoints, nodes)
    ensures Indexed(offsets, slots, map[], endpoints, nodes)
  {
    forall k | 0 <= k < nodes ensures NodeIndexed(offsets, slots, map[], endpoints, k) {
      assert SliceIs(offsets, slots, k, Touching(endpoints, k));
    }
  }

  lemma {:induction false} UntouchedNode(endpoints: Endpoints, node: nat)
    requires forall i | 0 <= i < |endpoints| :: !Touches(endpoints[i], node)
    ensures Touching(endpoints, node) == []
    decreases |endpoints|
  {
    if endpoints != [] {
      UntouchedNode(endpoints[..|endpoints| - 1], node);
    }
  }

  /** A new node starts with an empty slice. */
  lemma IndexedNewNode(offsets: seq<nat>, slots: seq<nat>, delta: Delta, endpoints: Endpoints, nodes: nat)
    requires Indexed(offsets, slots, delta, endpoints, nodes)
    ensures Indexed(offsets + [offsets[nodes]], slots, delta, endpoints, nodes + 1)
  {
    var after := offsets + [offsets[nodes]];
    UntouchedNode(endpoints, nodes);
    forall k | 0 <= k < nodes + 1 ensures NodeIndexed(after, slots, delta, endpoints, k) {
      if k < nodes {
        assert NodeIndexed(offsets, slots, delta, endpoints, k);
      }
    }
  }

  /** A new fact reaches exactly its endpoints' lists, at their end. */
  lemma IndexedNewFact(offsets: seq<nat>, slots: seq<nat>, delta: Delta, endpoints: Endpoints, nodes: nat, e: (nat, nat))
    requires Indexed(offsets, slots, delta, endpoints, nodes) && e.0 < nodes && e.1 < nodes
    ensures Indexed(offsets, slots, PushBoth(delta, e, |endpoints|), endpoints + [e], nodes)
  {
    var after := PushBoth(delta, e, |endpoints|);
    hide Touching;
    forall k | 0 <= k < nodes ensures NodeIndexed(offsets, slots, after, endpoints + [e], k) {
      assert NodeIndexed(offsets, slots, delta, endpoints, k);
      TouchingAppend(endpoints, e, k);
      assert DeltaOf(after, k) == if Touches(e, k) then DeltaOf(delta, k) + [|endpoints|] else DeltaOf(delta, k);
    }
  }
}
