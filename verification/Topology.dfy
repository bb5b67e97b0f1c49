/**
 Network topologies: links are pairs of indices into a node vector which is compacted, extended,
 sorted and re-indexed in place. What a topology means is the sequence of its weighted links
 between UUIDs.
 */
module Topology {
  import opened Uuids

  datatype Node = Node(uuid: Uuid, id: nat, addr: string)

  /** A link between the nodes at two indices. */
  datatype Link = Link(a: nat, b: nat, weight: nat)

  /** A link between two UUIDs, in the direction it is stored. */
  datatype Edge = Edge(u: Uuid, v: Uuid, weight: nat)

  /** `mdv_vector`: a sequence updated in place by everyone who holds it. */
  class Vector<T> {
    var items: seq<T>

    constructor (items: seq<T>)
      ensures this.items == items
    {
      this.items := items;
    }
  }

  predicate Indexed(links: seq<Link>, n: nat) {
    forall k :: 0 <= k < |links| ==> links[k].a < n && links[k].b < n
  }

  function EdgeOf(nodes: seq<Node>, l: Link): Edge
    requires l.a < |nodes| && l.b < |nodes|
  {
    Edge(nodes[l.a].uuid, nodes[l.b].uuid, l.weight)
  }

  /** What the links mean. */
  function Edges(nodes: seq<Node>, links: seq<Link>): (es: seq<Edge>)
    requires Indexed(links, |nodes|)
    ensures |es| == |links| && forall k :: 0 <= k < |es| ==> es[k] == EdgeOf(nodes, links[k])
  {
    seq(|links|, k requires 0 <= k < |links| => EdgeOf(nodes, links[k]))
  }

  function PairOf(e: Edge): Pair { Sorted(e.u, e.v) }

  function Pairs(es: seq<Edge>): set<Pair> { set e | e in es :: PairOf(e) }

  // ------------------------------------------------------------------ compaction

  predicate Touched(links: seq<Link>, i: nat) {
    exists k :: 0 <= k < |links| && (links[k].a == i || links[k].b == i)
  }

  /** The nodes below index n that some link touches, in order. */
  function Kept(nodes: seq<Node>, links: seq<Link>, n: nat): seq<Node>
    requires n <= |nodes|
  {
    if n == 0 then [] else
    Kept(nodes, links, n - 1) + if Touched(links, n - 1) then [nodes[n - 1]] else []
  }

  lemma {:induction false} KeptAt(nodes: seq<Node>, links: seq<Link>, i: nat, n: nat)
    requires i < n <= |nodes|
    ensures Kept(nodes, links, i) <= Kept(nodes, links, n)
    ensures Touched(links, i) ==>
      |Kept(nodes, links, i)| < |Kept(nodes, links, n)| && Kept(nodes, links, n)[|Kept(nodes, links, i)|] == nodes[i]
    decreases n - i
  {
    if i + 1 < n { KeptAt(nodes, links, i, n - 1); }
  }

  /** Every kept node comes from a touched index. */
  lemma {:induction false} KeptFrom(nodes: seq<Node>, links: seq<Link>, n: nat, node: Node) returns (i: nat)
    requires n <= |nodes| && node in Kept(nodes, links, n)
    ensures i < n && Touched(links, i) && nodes[i] == node
    decreases n
  {
    if node in Kept(nodes, links, n - 1) {
      i := KeptFrom(nodes, links, n - 1, node);
    } else {
      i := n - 1;
    }
  }

  /** Links re-pointed to the kept nodes. */
  function Compacted(nodes: seq<Node>, links: seq<Link>): (r: seq<Link>)
    requires Indexed(links, |nodes|)
  {
    seq(|links|, k requires 0 <= k < |links| =>
      Link(|Kept(nodes, links, links[k].a)|, |Kept(nodes, links, links[k].b)|, links[k].weight))
  }

  /** Compaction keeps exactly the linked nodes, in order, and every link keeps its meaning. */
  lemma CompactionKeepsEdges(nodes: seq<Node>, links: seq<Link>)
    requires Indexed(links, |nodes|)
    ensures Indexed(Compacted(nodes, links), |Kept(nodes, links, |nodes|)|)
    ensures Edges(Kept(nodes, links, |nodes|), Compacted(nodes, links)) == Edges(nodes, links)
  {
    forall k | 0 <= k < |links|
      ensures var l, kept := Compacted(nodes, links)[k], Kept(nodes, links, |nodes|);
        l.a < |kept| && l.b < |kept| && EdgeOf(kept, l) == EdgeOf(nodes, links[k])
    {
      assert Touched(links, links[k].a) && Touched(links, links[k].b);
      KeptAt(nodes, links, links[k].a, |nodes|);
      KeptAt(nodes, links, links[k].b, |nodes|);
    }
  }

  /** After compaction no node is left that no link touches. */
  lemma CompactedTouchesAll(nodes: seq<Node>, links: seq<Link>, i: nat)
    requires Indexed(links, |nodes|) && i < |Kept(nodes, links, |nodes|)|
    ensures Touched(Compacted(nodes, links), i)
  {
    var j := KeptIndex(nodes, links, |nodes|, i);
    var k :| 0 <= k < |links| && (links[k].a == j || links[k].b == j);
    var l := Compacted(nodes, links)[k];
    assert l.a == i || l.b == i;
  }

  lemma {:induction false} KeptIndex(nodes: seq<Node>, links: seq<Link>, n: nat, i: nat) returns (j: nat)
    requires n <= |nodes| && i < |Kept(nodes, links, n)|
    ensures j < n && Touched(links, j) && |Kept(nodes, links, j)| == i
    decreases n
  {
    if i < |Kept(nodes, links, n - 1)| { j := KeptIndex(nodes, links, n - 1, i); } else { j := n - 1; }
  }

  /** The index table of `mdv_topology_linked_nodes`, after marking. */
  method MarkTouched(links: seq<Link>, n: nat) returns (idxs: array<nat>)
    requires Indexed(links, n)
    ensures fresh(idxs) && idxs.Length == n
    ensures forall i :: 0 <= i < n ==> (idxs[i] != 0 <==> Touched(links, i))
  {
    idxs := new nat[n](_ => 0);
    for k := 0 to |links|
      invariant forall i :: 0 <= i < n ==> (idxs[i] != 0 <==> Touched(links[..k], i))
    {
      ghost var before := links[..k];
      ghost var after := links[..k + 1];
      if idxs[links[k].a] == 0 { idxs[links[k].a] := 42; }
      if idxs[links[k].b] == 0 { idxs[links[k].b] := 42; }
      forall i | 0 <= i < n ensures idxs[i] != 0 <==> Touched(after, i) {
        assert after[k] == links[k];
        if Touched(before, i) {
          var j :| 0 <= j < k && (before[j].a == i || before[j].b == i);
          assert after[j] == before[j];
        }
        if Touched(after, i) && i != links[k].a && i != links[k].b {
          var j :| 0 <= j < k + 1 && (after[j].a == i || after[j].b == i);
          assert before[j] == after[j];
        }
      }
    }
    assert links[..|links|] == links;
  }

  method LinkedNodes(links: Vector<Link>, nodes: seq<Node>) returns (linked: Vector<Node>)
    requires Indexed(links.items, |nodes|)
    modifies links
    ensures fresh(linked)
    ensures linked.items == Kept(nodes, old(links.items), |nodes|)
    ensures links.items == Compacted(nodes, old(links.items))
  {
    ghost var all := links.items;
    linked := new Vector([]);
    if |links.items| == 0 {
      KeptOfNothing(nodes, |nodes|);
      return;
    }
    var idxs := MarkTouched(links.items, |nodes|);
    var n := 0;
    for i := 0 to |nodes|
      invariant links.items == all && n == |Kept(nodes, all, i)| && linked.items == Kept(nodes, all, i)
      invariant forall j :: i <= j < |nodes| ==> (idxs[j] != 0 <==> Touched(all, j))
      invariant forall j :: 0 <= j < i && Touched(all, j) ==> idxs[j] == |Kept(nodes, all, j)|
    {
      if idxs[i] != 0 {
        idxs[i] := n;
        n := n + 1;
        linked.items := linked.items + [nodes[i]];
      }
    }
    for k := 0 to |links.items|
      invariant |links.items| == |all| && links.items[k..] == all[k..]
      invariant forall j :: 0 <= j < k ==> links.items[j] == Compacted(nodes, all)[j]
      invariant linked.items == Kept(nodes, all, |nodes|)
      invariant forall j :: 0 <= j < |nodes| && Touched(all, j) ==> idxs[j] == |Kept(nodes, all, j)|
    {
      var l := links.items[k];
      assert l == links.items[k..][0] == all[k];
      assert Touched(all, l.a) && Touched(all, l.b);
      links.items := links.items[k := Link(idxs[l.a], idxs[l.b], l.weight)];
      assert links.items[k + 1..] == all[k + 1..];
    }
  }

  lemma {:induction false} KeptOfNothing(nodes: seq<Node>, n: nat)
    requires n <= |nodes|
    ensures Kept(nodes, [], n) == []
    decreases n
  {
    if n > 0 { KeptOfNothing(nodes, n - 1); }
  }

  // ------------------------------------------------------------------ creation

  predicate SortedNodes(nodes: seq<Node>) {
    forall i, j :: 0 <= i < j < |nodes| ==> !Less(nodes[j].uuid, nodes[i].uuid)
  }

  lemma LessTransitive(a: Uuid, b: Uuid, c: Uuid)
    requires Less(a, b) && !Less(c, b)
    ensures Less(a, c)
  {
  }

  lemma InsertKeepsSorted(sorted: seq<Node>, x: Node, i: nat)
    requires SortedNodes(sorted) && i <= |sorted|
    requires forall j :: 0 <= j < i ==> !Less(x.uuid, sorted[j].uuid)
    requires i < |sorted| ==> Less(x.uuid, sorted[i].uuid)
    ensures SortedNodes(sorted[..i] + [x] + sorted[i..])
  {
    forall j | i <= j < |sorted| ensures Less(x.uuid, sorted[j].uuid) {
      if i < j { LessTransitive(x.uuid, sorted[i].uuid, sorted[j].uuid); }
    }
    var r := sorted[..i] + [x] + sorted[i..];
    forall p, q | 0 <= p < q < |r| ensures !Less(r[q].uuid, r[p].uuid) {
      assert r[p] == (if p < i then sorted[p] else if p == i then x else sorted[p - 1]);
      assert r[q] == (if q < i then sorted[q] else if q == i then x else sorted[q - 1]);
    }
  }

  method InsertNode(sorted: seq<Node>, x: Node) returns (r: seq<Node>)
    requires SortedNodes(sorted)
    ensures SortedNodes(r) && multiset(r) == multiset(sorted) + multiset{x}
  {
    var i := 0;
    while i < |sorted| && !Less(x.uuid, sorted[i].uuid)
      invariant i <= |sorted| && forall j :: 0 <= j < i ==> !Less(x.uuid, sorted[j].uuid)
    {
      i := i + 1;
    }
    InsertKeepsSorted(sorted, x, i);
    assert sorted == sorted[..i] + sorted[i..];
    r := sorted[..i] + [x] + sorted[i..];
  }

  /** `mdv_qsort` by UUID: some sorted rearrangement. */
  method SortNodes(nodes: seq<Node>) returns (sorted: seq<Node>)
    ensures SortedNodes(sorted) && multiset(sorted) == multiset(nodes)
  {
    sorted := [];
    for k := 0 to |nodes|
      invariant SortedNodes(sorted) && multiset(sorted) == multiset(nodes[..k])
    {
      assert nodes[..k + 1] == nodes[..k] + [nodes[k]];
      sorted := InsertNode(sorted, nodes[k]);
    }
    assert nodes[..|nodes|] == nodes;
  }

  predicate HasId(nodes: seq<Node>, id: nat) { exists i :: 0 <= i < |nodes| && nodes[i].id == id }

  /** The last index with the given id: what the id map holds after inserting all nodes. */
  function Last(nodes: seq<Node>, id: nat): (i: nat)
    requires HasId(nodes, id)
    ensures i < |nodes| && nodes[i].id == id
    ensures forall j :: i < j < |nodes| ==> nodes[j].id != id
  {
    var n := |nodes| - 1;
    if nodes[n].id == id then n else
    assert HasId(nodes[..n], id) by {
      var i :| 0 <= i < |nodes| && nodes[i].id == id;
      assert nodes[..n][i] == nodes[i];
    }
    Last(nodes[..n], id)
  }

  /** The links of a created topology: each endpoint is looked up by id among the sorted nodes. */
  ghost predicate Reindexed(nodes: seq<Node>, links: seq<Link>, nodes': seq<Node>, links': seq<Link>) {
    && Indexed(links, |nodes|) && |links'| == |links|
    && SortedNodes(nodes') && multiset(nodes') == multiset(nodes)
    && (forall i :: 0 <= i < |nodes| ==> HasId(nodes', nodes[i].id))
    && forall k :: 0 <= k < |links| ==>
      links'[k] == Link(Last(nodes', nodes[links[k].a].id), Last(nodes', nodes[links[k].b].id), links[k].weight)
  }

  lemma SameMembers(xs: seq<Node>, ys: seq<Node>, i: nat) returns (j: nat)
    requires multiset(xs) == multiset(ys) && i < |xs|
    ensures j < |ys| && ys[j] == xs[i]
  {
    assert xs[i] in multiset(ys);
    j :| 0 <= j < |ys| && ys[j] == xs[i];
  }

  method IndexIds(nodes: seq<Node>) returns (idxs: map<nat, nat>)
    ensures forall id :: id in idxs <==> HasId(nodes, id)
    ensures forall id :: id in idxs ==> idxs[id] == Last(nodes, id)
  {
    idxs := map[];
    for n := 0 to |nodes|
      invariant forall id :: id in idxs <==> exists i :: 0 <= i < n && nodes[i].id == id
      invariant forall id :: id in idxs ==> idxs[id] < n && nodes[idxs[id]].id == id
      invariant forall id, j :: id in idxs && idxs[id] < j < n ==> nodes[j].id != id
    {
      idxs := idxs[nodes[n].id := n];
    }
  }

  /** Replace every index by the id of the node it points to. */
  method IndicesToIds(links: Vector<Link>, nodes: seq<Node>)
    requires Indexed(links.items, |nodes|)
    modifies links
    ensures |links.items| == old(|links.items|)
    ensures forall k :: 0 <= k < |links.items| ==>
      var l := old(links.items)[k]; links.items[k] == Link(nodes[l.a].id, nodes[l.b].id, l.weight)
  {
    ghost var links0 := links.items;
    for k := 0 to |links.items|
      invariant |links.items| == |links0| && forall j :: k <= j < |links0| ==> links.items[j] == links0[j]
      invariant forall j :: 0 <= j < k ==>
        links.items[j] == Link(nodes[links0[j].a].id, nodes[links0[j].b].id, links0[j].weight)
    {
      var l := links.items[k];
      links.items := links.items[k := Link(nodes[l.a].id, nodes[l.b].id, l.weight)];
    }
  }

  /** Replace every id by the index the map holds for it. */
  method IdsToIndices(links: Vector<Link>, idxs: map<nat, nat>)
    requires forall k :: 0 <= k < |links.items| ==> links.items[k].a in idxs && links.items[k].b in idxs
    modifies links
    ensures |links.items| == old(|links.items|)
    ensures forall k :: 0 <= k < |links.items| ==>
      var l := old(links.items)[k]; links.items[k] == Link(idxs[l.a], idxs[l.b], l.weight)
  {
    ghost var links0 := links.items;
    for k := 0 to |links.items|
      invariant |links.items| == |links0| && forall j :: k <= j < |links0| ==> links.items[j] == links0[j]
      invariant forall j :: 0 <= j < k ==>
        links.items[j] == Link(idxs[links0[j].a], idxs[links0[j].b], links0[j].weight)
    {
      var l := links.items[k];
      links.items := links.items[k := Link(idxs[l.a], idxs[l.b], l.weight)];
    }
  }

  /** `mdv_topology_create`: both vectors are rewritten in place. */
  method Create(nodes: Vector<Node>, links: Vector<Link>)
    requires Indexed(links.items, |nodes.items|)
    modifies nodes, links
    ensures Reindexed(old(nodes.items), old(links.items), nodes.items, links.items)
  {
    ghost var nodes0 := nodes.items;
    IndicesToIds(links, nodes.items);
    nodes.items := SortNodes(nodes.items);
    forall i | 0 <= i < |nodes0| ensures HasId(nodes.items, nodes0[i].id) {
      var j := SameMembers(nodes0, nodes.items, i);
    }
    var idxs := IndexIds(nodes.items);
    IdsToIndices(links, idxs);
  }

  /** No other node with the same id has a greater UUID. */
  predicate TopTwin(nodes: seq<Node>, i: nat)
    requires i < |nodes|
  {
    forall j :: 0 <= j < |nodes| && nodes[j].id == nodes[i].id ==> !Less(nodes[i].uuid, nodes[j].uuid)
  }

  predicate NoGreaterTwin(nodes: seq<Node>, links: seq<Link>)
    requires Indexed(links, |nodes|)
  {
    forall k :: 0 <= k < |links| ==> TopTwin(nodes, links[k].a) && TopTwin(nodes, links[k].b)
  }

  /** Looking a node up by id among the sorted nodes finds a node of the same UUID exactly when
      no node with that id has a greater one. */
  lemma LookupByIdIff(nodes: seq<Node>, nodes': seq<Node>, i: nat)
    requires SortedNodes(nodes') && multiset(nodes') == multiset(nodes) && i < |nodes| && HasId(nodes', nodes[i].id)
    ensures nodes'[Last(nodes', nodes[i].id)].uuid == nodes[i].uuid <==> TopTwin(nodes, i)
  {
    var last := Last(nodes', nodes[i].id);
    var at := SameMembers(nodes, nodes', i);
    var found := SameMembers(nodes', nodes, last);
    assert !Less(nodes'[last].uuid, nodes'[at].uuid);
    if nodes'[last].uuid == nodes[i].uuid {
      forall j | 0 <= j < |nodes| && nodes[j].id == nodes[i].id ensures !Less(nodes[i].uuid, nodes[j].uuid) {
        var j' := SameMembers(nodes, nodes', j);
        assert !Less(nodes'[last].uuid, nodes'[j'].uuid);
      }
    }
  }

  /** Re-indexing preserves the graph exactly when no linked node shares its id with a node of a
      greater UUID; distinct ids are enough. */
  lemma CreateKeepsEdgesIff(nodes: seq<Node>, links: seq<Link>, nodes': seq<Node>, links': seq<Link>)
    requires Reindexed(nodes, links, nodes', links')
    ensures Indexed(links', |nodes'|)
    ensures Edges(nodes', links') == Edges(nodes, links) <==> NoGreaterTwin(nodes, links)
  {
    forall k | 0 <= k < |links|
      ensures EdgeOf(nodes', links'[k]) == EdgeOf(nodes, links[k]) <==>
        TopTwin(nodes, links[k].a) && TopTwin(nodes, links[k].b)
    {
      LookupByIdIff(nodes, nodes', links[k].a);
      LookupByIdIff(nodes, nodes', links[k].b);
    }
    var es, es' := Edges(nodes, links), Edges(nodes', links');
    if es == es' {
      forall k | 0 <= k < |links| ensures TopTwin(nodes, links[k].a) && TopTwin(nodes, links[k].b) {
        assert es[k] == es'[k];
      }
    }
  }

  predicate DistinctIds(nodes: seq<Node>) {
    forall i, j :: 0 <= i < j < |nodes| ==> nodes[i].id != nodes[j].id
  }

  predicate DistinctUuids(nodes: seq<Node>) {
    forall i, j :: 0 <= i < j < |nodes| ==> nodes[i].uuid != nodes[j].uuid
  }

  lemma DistinctIdsSuffice(nodes: seq<Node>, links: seq<Link>)
    requires Indexed(links, |nodes|) && DistinctIds(nodes)
    ensures NoGreaterTwin(nodes, links)
  {
  }

  // ------------------------------------------------------------------ neighbours

  /** `mdv_topology_peers`: exactly the other ends of the links at `node`. */
  method Peers(nodes: seq<Node>, links: seq<Link>, node: Uuid) returns (peers: set<Uuid>)
    requires Indexed(links, |nodes|)
    ensures forall p :: p in peers <==> Sorted(node, p) in Pairs(Edges(nodes, links))
  {
    peers := {};
    ghost var es := Edges(nodes, links);
    for k := 0 to |links|
      invariant forall p :: p in peers <==> exists j :: 0 <= j < k && PairOf(es[j]) == Sorted(node, p)
    {
      var l, r := nodes[links[k].a].uuid, nodes[links[k].b].uuid;
      assert es[k] == Edge(l, r, links[k].weight);
      ghost var before := peers;
      if Cmp(node, l) == 0 {
        peers := peers + {r};
      } else if Cmp(node, r) == 0 {
        peers := peers + {l};
      }
      forall p ensures p in peers <==> exists j :: 0 <= j < k + 1 && PairOf(es[j]) == Sorted(node, p) {
        SortedIdentifies(l, r, node, p);
        if p in peers && p !in before { assert PairOf(es[k]) == Sorted(node, p); }
      }
    }
    forall p ensures p in peers <==> Sorted(node, p) in Pairs(es) {
      if p in peers {
        var j :| 0 <= j < |links| && PairOf(es[j]) == Sorted(node, p);
        assert es[j] in es;
      }
      if Sorted(node, p) in Pairs(es) {
        var e :| e in es && PairOf(e) == Sorted(node, p);
        var j :| 0 <= j < |es| && es[j] == e;
      }
    }
  }
}
