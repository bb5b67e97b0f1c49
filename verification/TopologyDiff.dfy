/**
 The difference of two topologies seen from two linked nodes: the links of the first that the
 second does not know, plus the link between the two nodes.
 */
module TopologyDiff {
  import opened Common
  import opened Uuids
  import opened Topology

  datatype Topo = Topo(nodes: seq<Node>, links: seq<Link>)

  const EMPTY := Topo([], [])

  predicate Valid(t: Topo) {
    Indexed(t.links, |t.nodes|) && DistinctIds(t.nodes) && DistinctUuids(t.nodes)
  }

  function Graph(t: Topo): seq<Edge>
    requires Indexed(t.links, |t.nodes|)
  {
    Edges(t.nodes, t.links)
  }

  // ------------------------------------------------------------------ what a difference is

  predicate SeenBefore(es: seq<Edge>, ab: Pair, k: nat)
    requires k <= |es|
  {
    exists j :: 0 <= j < k && PairOf(es[j]) == ab
  }

  /** Link k is unknown to the other side, or it is the first one that joins the two nodes. */
  predicate Chosen(es: seq<Edge>, known: set<Pair>, ab: Pair, k: nat)
    requires k < |es|
  {
    PairOf(es[k]) !in known || (PairOf(es[k]) == ab && !SeenBefore(es, ab, k))
  }

  /** The chosen ones of the first n links. */
  function Selected(links: seq<Link>, es: seq<Edge>, known: set<Pair>, ab: Pair, n: nat): (ls: seq<Link>)
    requires |links| == |es| && n <= |links|
    ensures forall m: nat :: Indexed(links, m) ==> Indexed(ls, m)
  {
    if n == 0 then []
    else if Chosen(es, known, ab, n - 1) then Selected(links, es, known, ab, n - 1) + [links[n - 1]]
    else Selected(links, es, known, ab, n - 1)
  }

  function Chosens(a: Topo, b: Topo, ab: Pair): (ls: seq<Link>)
    requires Valid(a) && Valid(b)
    ensures Indexed(ls, |a.nodes|)
  {
    Selected(a.links, Graph(a), Pairs(Graph(b)), ab, |a.links|)
  }

  /** The first edge joining the pair. */
  function First(es: seq<Edge>, ab: Pair): (k: nat)
    requires ab in Pairs(es)
    ensures k < |es| && PairOf(es[k]) == ab && forall j :: 0 <= j < k ==> PairOf(es[j]) != ab
  {
    if PairOf(es[0]) == ab then 0 else
    assert ab in Pairs(es[1..]) by { var e :| e in es && PairOf(e) == ab; assert e in es[1..]; }
    1 + First(es[1..], ab)
  }

  /** The difference, link by link: weights and directions as the side that knows the link has them. */
  function DiffEdges(a: Topo, b: Topo, ab: Pair): seq<Edge>
    requires Valid(a) && Valid(b)
  {
    Edges(a.nodes, Chosens(a, b, ab)) +
    if ab in Pairs(Graph(a)) || ab !in Pairs(Graph(b)) then [] else [Graph(b)[First(Graph(b), ab)]]
  }

  lemma DiffEdgesOwn(a: Topo, b: Topo, ab: Pair)
    requires Valid(a) && Valid(b) && (ab in Pairs(Graph(a)) || ab !in Pairs(Graph(b)))
    ensures DiffEdges(a, b, ab) == Edges(a.nodes, Chosens(a, b, ab)) && IdsOk(a, b, ab)
  {
    var es := Edges(a.nodes, Chosens(a, b, ab));
    assert es + [] == es;
  }

  /** The difference when only `b` knows the a-b link. */
  lemma DiffEdgesOther(a: Topo, b: Topo, ab: Pair)
    requires Valid(a) && Valid(b) && ab !in Pairs(Graph(a)) && ab in Pairs(Graph(b))
    ensures var l, kept := b.links[First(Graph(b), ab)], KeptNodes(a, b, ab);
      && DiffEdges(a, b, ab) ==
           Edges(a.nodes, Chosens(a, b, ab)) + [Edge(b.nodes[l.a].uuid, b.nodes[l.b].uuid, l.weight)]
      && (IdsOk(a, b, ab) <==> IdsApart(kept, Missing(kept, b.nodes[l.a], b.nodes[l.b])))
  {
  }

  /** The nodes of `a` that the chosen links touch. */
  function KeptNodes(a: Topo, b: Topo, ab: Pair): seq<Node>
    requires Valid(a) && Valid(b)
  {
    Kept(a.nodes, Chosens(a, b, ab), |a.nodes|)
  }

  predicate HasUuid(nodes: seq<Node>, uuid: Uuid) { exists i :: 0 <= i < |nodes| && nodes[i].uuid == uuid }

  function Missing(nodes: seq<Node>, l: Node, r: Node): seq<Node> {
    (if HasUuid(nodes, l.uuid) then [] else [l]) + (if HasUuid(nodes, r.uuid) then [] else [r])
  }

  /** The nodes of `b` that have to be appended for the a-b link, with the ids `b` gave them. */
  function AddedNodes(a: Topo, b: Topo, ab: Pair): seq<Node>
    requires Valid(a) && Valid(b) && ab in Pairs(Graph(b))
  {
    var l := b.links[First(Graph(b), ab)];
    Missing(KeptNodes(a, b, ab), b.nodes[l.a], b.nodes[l.b])
  }

  predicate IdsApart(xs: seq<Node>, ys: seq<Node>) {
    forall i, j :: 0 <= i < |xs| && 0 <= j < |ys| ==> xs[i].id != ys[j].id
  }

  /** Ids of the two sides do not meet in the new node vector. They can only meet when the a-b link
      is known to `b` alone. */
  predicate IdsOk(a: Topo, b: Topo, ab: Pair)
    requires Valid(a) && Valid(b)
  {
    ab in Pairs(Graph(a)) || ab !in Pairs(Graph(b)) || IdsApart(KeptNodes(a, b, ab), AddedNodes(a, b, ab))
  }

  /** The pairs of the first n chosen links. */
  function ChosenPairs(es: seq<Edge>, known: set<Pair>, ab: Pair, n: nat): set<Pair>
    requires n <= |es|
  {
    if n == 0 then {} else
    ChosenPairs(es, known, ab, n - 1) + if Chosen(es, known, ab, n - 1) then {PairOf(es[n - 1])} else {}
  }

  lemma EdgesMore(nodes: seq<Node>, links: seq<Link>, l: Link)
    requires Indexed(links, |nodes|) && l.a < |nodes| && l.b < |nodes|
    ensures Indexed(links + [l], |nodes|) && Edges(nodes, links + [l]) == Edges(nodes, links) + [EdgeOf(nodes, l)]
  {
  }

  /** The first n chosen links as edges. */
  function ChosenEdges(es: seq<Edge>, known: set<Pair>, ab: Pair, n: nat): seq<Edge>
    requires n <= |es|
  {
    if n == 0 then []
    else if Chosen(es, known, ab, n - 1) then ChosenEdges(es, known, ab, n - 1) + [es[n - 1]]
    else ChosenEdges(es, known, ab, n - 1)
  }

  lemma {:induction false} SelectedEdges(nodes: seq<Node>, links: seq<Link>, es: seq<Edge>, known: set<Pair>, ab: Pair,
                                         n: nat)
    requires Indexed(links, |nodes|) && es == Edges(nodes, links) && n <= |links|
    ensures Edges(nodes, Selected(links, es, known, ab, n)) == ChosenEdges(es, known, ab, n)
    decreases n
  {
    if n > 0 {
      SelectedEdges(nodes, links, es, known, ab, n - 1);
      EdgesMore(nodes, Selected(links, es, known, ab, n - 1), links[n - 1]);
    }
  }

  lemma {:induction false} ChosenEdgesPairs(es: seq<Edge>, known: set<Pair>, ab: Pair, n: nat)
    requires n <= |es|
    ensures Pairs(ChosenEdges(es, known, ab, n)) == ChosenPairs(es, known, ab, n)
    decreases n
  {
    if n > 0 {
      ChosenEdgesPairs(es, known, ab, n - 1);
      PairsAppend(ChosenEdges(es, known, ab, n - 1), es[n - 1]);
    }
  }

  lemma {:induction false} ChosenPairsAre(es: seq<Edge>, known: set<Pair>, ab: Pair, n: nat, p: Pair)
    requires n <= |es|
    ensures p in ChosenPairs(es, known, ab, n) <==> SeenBefore(es, p, n) && (p !in known || p == ab)
    decreases n
  {
    if n > 0 {
      ChosenPairsAre(es, known, ab, n - 1, p);
      SeenNext(es, p, n - 1);
    }
  }

  lemma PairsAppend(es: seq<Edge>, e: Edge)
    ensures Pairs(es + [e]) == Pairs(es) + {PairOf(e)}
  {
    forall p ensures p in Pairs(es + [e]) <==> p in Pairs(es) + {PairOf(e)} {
      if p in Pairs(es) { var x :| x in es && PairOf(x) == p; assert x in es + [e]; }
      if p == PairOf(e) { assert e in es + [e]; }
    }
  }

  lemma ChosensPairs(a: Topo, b: Topo, ab: Pair, p: Pair)
    requires Valid(a) && Valid(b)
    ensures p in Pairs(Edges(a.nodes, Chosens(a, b, ab))) <==>
      p in Pairs(Graph(a)) && (p !in Pairs(Graph(b)) || p == ab)
  {
    var es, known := Graph(a), Pairs(Graph(b));
    SelectedEdges(a.nodes, a.links, es, known, ab, |a.links|);
    ChosenEdgesPairs(es, known, ab, |es|);
    ChosenPairsAre(es, known, ab, |es|, p);
    SeenAll(es, p);
  }

  /** The pairs of the difference: those of `a` without those of `b`, plus the a-b link if anyone
      knows it. */
  lemma DiffPairs(a: Topo, b: Topo, ab: Pair)
    requires Valid(a) && Valid(b)
    ensures var known := Pairs(Graph(a)) + Pairs(Graph(b));
      Pairs(DiffEdges(a, b, ab)) == Pairs(Graph(a)) - Pairs(Graph(b)) + (if ab in known then {ab} else {})
  {
    var es, known := Graph(a), Pairs(Graph(b));
    var chosen := Edges(a.nodes, Chosens(a, b, ab));
    forall p ensures p in Pairs(chosen) <==> p in Pairs(es) && (p !in known || p == ab) {
      ChosensPairs(a, b, ab, p);
    }
    if ab !in Pairs(es) && ab in known {
      PairsAppend(chosen, Graph(b)[First(Graph(b), ab)]);
    } else {
      DiffEdgesOwn(a, b, ab);
    }
  }

  predicate EndOf(p: Pair, u: Uuid) { p.lo == u || p.hi == u }

  /** A kept node is the end of a link. */
  lemma KeptEnd(nodes: seq<Node>, links: seq<Link>, node: Node) returns (p: Pair)
    requires Indexed(links, |nodes|) && node in Kept(nodes, links, |nodes|)
    ensures p in Pairs(Edges(nodes, links)) && EndOf(p, node.uuid) && node in nodes
  {
    var i := KeptFrom(nodes, links, |nodes|, node);
    var k :| 0 <= k < |links| && (links[k].a == i || links[k].b == i);
    assert Edges(nodes, links)[k] in Edges(nodes, links);
    p := PairOf(Edges(nodes, links)[k]);
  }

  /** The end of a link is kept. */
  lemma EndKept(nodes: seq<Node>, links: seq<Link>, p: Pair, u: Uuid)
    requires Indexed(links, |nodes|) && p in Pairs(Edges(nodes, links)) && EndOf(p, u)
    ensures HasUuid(Kept(nodes, links, |nodes|), u)
  {
    var k := First(Edges(nodes, links), p);
    var i := if nodes[links[k].a].uuid == u then links[k].a else links[k].b;
    assert Touched(links, i);
    KeptAt(nodes, links, i, |nodes|);
    var j := |Kept(nodes, links, i)|;
    assert Kept(nodes, links, |nodes|)[j].uuid == u;
  }

  // ------------------------------------------------------------------ weights

  /** The weight of the last edge joining the pair. */
  function LastWeight(es: seq<Edge>, p: Pair): Option<nat> {
    if es == [] then None else
    var n := |es| - 1;
    if PairOf(es[n]) == p then Some(es[n].weight) else LastWeight(es[..n], p)
  }

  lemma {:induction false} LastWeightPairs(es: seq<Edge>, p: Pair)
    ensures LastWeight(es, p).Some? <==> p in Pairs(es)
    decreases |es|
  {
    if es != [] {
      var n := |es| - 1;
      LastWeightPairs(es[..n], p);
      assert es == es[..n] + [es[n]];
      PairsAppend(es[..n], es[n]);
    }
  }

  lemma LastWeightSnoc(es: seq<Edge>, e: Edge, p: Pair)
    ensures LastWeight(es + [e], p) == if PairOf(e) == p then Some(e.weight) else LastWeight(es, p)
  {
    assert (es + [e])[..|es|] == es;
  }

  lemma {:induction false} LastWeightCons(es: seq<Edge>, p: Pair)
    requires es != []
    ensures LastWeight(es, p) ==
      if LastWeight(es[1..], p).Some? then LastWeight(es[1..], p)
      else if PairOf(es[0]) == p then Some(es[0].weight) else None
    decreases |es|
  {
    var n := |es| - 1;
    if n > 0 {
      LastWeightCons(es[..n], p);
      assert es[1..][..n - 1] == es[..n][1..];
    } else {
      assert es[..0] == [] && es[1..] == [];
    }
  }

  /** The weight of the first edge joining the pair. */
  function FirstWeight(es: seq<Edge>, p: Pair): Option<nat> {
    if p in Pairs(es) then Some(es[First(es, p)].weight) else None
  }

  /** No two edges join the same pair. */
  predicate Simple(es: seq<Edge>) {
    forall i, j :: 0 <= i < j < |es| ==> PairOf(es[i]) != PairOf(es[j])
  }

  lemma {:induction false} WeightAt(es: seq<Edge>, k: nat)
    requires k < |es| && forall j :: k < j < |es| ==> PairOf(es[j]) != PairOf(es[k])
    ensures LastWeight(es, PairOf(es[k])) == Some(es[k].weight)
    decreases |es|
  {
    if k < |es| - 1 { WeightAt(es[..|es| - 1], k); }
  }

  lemma SimpleWeight(es: seq<Edge>, p: Pair)
    requires Simple(es)
    ensures FirstWeight(es, p) == LastWeight(es, p)
  {
    LastWeightPairs(es, p);
    if p in Pairs(es) { WeightAt(es, First(es, p)); }
  }

  /** The weight of the last of the first n chosen links that joins the pair. */
  function ChosenWeight(es: seq<Edge>, known: set<Pair>, ab: Pair, n: nat, p: Pair): Option<nat>
    requires n <= |es|
  {
    if n == 0 then None
    else if Chosen(es, known, ab, n - 1) && PairOf(es[n - 1]) == p then Some(es[n - 1].weight)
    else ChosenWeight(es, known, ab, n - 1, p)
  }

  lemma {:induction false} ChosenEdgesWeight(es: seq<Edge>, known: set<Pair>, ab: Pair, n: nat, p: Pair)
    requires n <= |es|
    ensures LastWeight(ChosenEdges(es, known, ab, n), p) == ChosenWeight(es, known, ab, n, p)
    decreases n
  {
    if n > 0 {
      ChosenEdgesWeight(es, known, ab, n - 1, p);
      LastWeightSnoc(ChosenEdges(es, known, ab, n - 1), es[n - 1], p);
    }
  }

  /** The weight of the first of the first n edges that joins the pair. */
  function FirstBefore(es: seq<Edge>, p: Pair, n: nat): Option<nat>
    requires n <= |es|
  {
    if n == 0 then None
    else if SeenBefore(es, p, n - 1) then FirstBefore(es, p, n - 1)
    else if PairOf(es[n - 1]) == p then Some(es[n - 1].weight) else None
  }

  /** Of an unknown pair all links are chosen, of the a-b link the first one. */
  lemma {:induction false} ChosenWeightIs(es: seq<Edge>, known: set<Pair>, ab: Pair, n: nat, p: Pair)
    requires n <= |es|
    ensures ChosenWeight(es, known, ab, n, p) ==
      if p !in known then LastWeight(es[..n], p)
      else if p == ab then FirstBefore(es, ab, n) else None
    decreases n
  {
    if n > 0 {
      ChosenWeightIs(es, known, ab, n - 1, p);
      assert es[..n][..n - 1] == es[..n - 1];
    }
  }

  lemma {:induction false} FirstBeforeIs(es: seq<Edge>, p: Pair, n: nat)
    requires n <= |es| && p in Pairs(es)
    ensures FirstBefore(es, p, n) == if First(es, p) < n then Some(es[First(es, p)].weight) else None
    decreases n
  {
    if n > 0 { FirstBeforeIs(es, p, n - 1); }
  }

  lemma {:induction false} FirstBeforeNone(es: seq<Edge>, p: Pair, n: nat)
    requires n <= |es| && p !in Pairs(es)
    ensures FirstBefore(es, p, n) == None
    decreases n
  {
    if n > 0 {
      FirstBeforeNone(es, p, n - 1);
      assert es[n - 1] in es;
    }
  }

  /** The weight the difference gives a pair, if any. */
  function DiffWeight(ea: seq<Edge>, eb: seq<Edge>, ab: Pair, p: Pair): Option<nat> {
    if p !in Pairs(eb) then LastWeight(ea, p)
    else if p != ab then None
    else if ab in Pairs(ea) then FirstWeight(ea, ab) else FirstWeight(eb, ab)
  }

  lemma ChosensWeight(a: Topo, b: Topo, ab: Pair, p: Pair)
    requires Valid(a) && Valid(b)
    ensures var ea := Graph(a);
      LastWeight(Edges(a.nodes, Chosens(a, b, ab)), p) ==
      if p !in Pairs(Graph(b)) then LastWeight(ea, p) else if p == ab then FirstWeight(ea, ab) else None
  {
    var ea := Graph(a);
    SelectedEdges(a.nodes, a.links, ea, Pairs(Graph(b)), ab, |a.links|);
    ChosenEdgesWeight(ea, Pairs(Graph(b)), ab, |ea|, p);
    ChosenWeightIs(ea, Pairs(Graph(b)), ab, |ea|, p);
    assert ea[..|ea|] == ea;
    if ab in Pairs(ea) { FirstBeforeIs(ea, ab, |ea|); } else { FirstBeforeNone(ea, ab, |ea|); }
  }

  /** The weights of the difference: those of `a` for the pairs `b` does not know, and for the a-b
      link that of `a` if it knows the link, else that of `b`. */
  lemma DiffWeights(a: Topo, b: Topo, ab: Pair, p: Pair)
    requires Valid(a) && Valid(b)
    ensures LastWeight(DiffEdges(a, b, ab), p) == DiffWeight(Graph(a), Graph(b), ab, p)
  {
    ChosensWeight(a, b, ab, p);
    if ab in Pairs(Graph(a)) || ab !in Pairs(Graph(b)) {
      DiffEdgesOwn(a, b, ab);
    } else {
      LastWeightSnoc(Edges(a.nodes, Chosens(a, b, ab)), Graph(b)[First(Graph(b), ab)], p);
    }
  }

  // ------------------------------------------------------------------ mixing ids

  lemma KeptDistinct(nodes: seq<Node>, links: seq<Link>)
    requires Indexed(links, |nodes|) && DistinctIds(nodes) && DistinctUuids(nodes)
    ensures DistinctIds(Kept(nodes, links, |nodes|)) && DistinctUuids(Kept(nodes, links, |nodes|))
  {
    var kept := Kept(nodes, links, |nodes|);
    forall i, j | 0 <= i < j < |kept| ensures kept[i].id != kept[j].id && kept[i].uuid != kept[j].uuid {
      var p := KeptIndex(nodes, links, |nodes|, i);
      var q := KeptIndex(nodes, links, |nodes|, j);
      KeptAt(nodes, links, p, |nodes|);
      KeptAt(nodes, links, q, |nodes|);
      assert p != q;
    }
  }

  /** With every node linked, an id shared between a kept and an appended node breaks one of them;
      nothing else does. */
  lemma TwinsIff(kept: seq<Node>, l: Node, r: Node, links: seq<Link>)
    requires DistinctIds(kept) && DistinctUuids(kept) && (l.id == r.id ==> l.uuid == r.uuid)
    requires Indexed(links, |kept + Missing(kept, l, r)|)
    requires forall i: nat :: i < |kept + Missing(kept, l, r)| ==> Touched(links, i)
    ensures NoGreaterTwin(kept + Missing(kept, l, r), links) <==> IdsApart(kept, Missing(kept, l, r))
  {
    var added := Missing(kept, l, r);
    var nodes := kept + added;
    if IdsApart(kept, added) {
      forall i: nat | i < |nodes| ensures TopTwin(nodes, i) {
        forall j | 0 <= j < |nodes| && nodes[j].id == nodes[i].id ensures nodes[i].uuid == nodes[j].uuid {
        }
      }
    } else {
      var i: nat, j: nat :| i < |kept| && j < |added| && kept[i].id == added[j].id;
      var j' := |kept| + j;
      assert Touched(links, i) && Touched(links, j');
      assert nodes[i] == kept[i] && nodes[j'] == added[j];
      assert kept[i].uuid != added[j].uuid;
      var k :| 0 <= k < |links| && (links[k].a == i || links[k].b == i);
      var k' :| 0 <= k' < |links| && (links[k'].a == j' || links[k'].b == j');
      assert !TopTwin(nodes, i) || !TopTwin(nodes, j');
    }
  }

  // ------------------------------------------------------------------ the code

  /** `mdv_topology_links_map` */
  method LinksMap(t: Topo) returns (known: set<Pair>)
    requires Indexed(t.links, |t.nodes|)
    ensures known == Pairs(Graph(t))
  {
    known := {};
    ghost var es := Graph(t);
    for k := 0 to |t.links|
      invariant known == Pairs(es[..k])
    {
      var l := t.links[k];
      PairsAppend(es[..k], es[k]);
      assert es[..k + 1] == es[..k] + [es[k]];
      known := known + {Sorted(t.nodes[l.a].uuid, t.nodes[l.b].uuid)};
    }
    assert es[..|es|] == es;
  }

  /** The index of the first link between two nodes, or the number of links. */
  method FindLink(t: Topo, x: Uuid, y: Uuid) returns (k: nat)
    requires Indexed(t.links, |t.nodes|)
    ensures k < |t.links| <==> Sorted(x, y) in Pairs(Graph(t))
    ensures k <= |t.links|
    ensures k < |t.links| ==> k == First(Graph(t), Sorted(x, y))
  {
    ghost var es, ab := Graph(t), Sorted(x, y);
    k := 0;
    while k < |t.links|
      invariant k <= |t.links| && forall j :: 0 <= j < k ==> PairOf(es[j]) != ab
    {
      var l, r := t.nodes[t.links[k].a].uuid, t.nodes[t.links[k].b].uuid;
      SortedIdentifies(l, r, x, y);
      if (Cmp(x, l) == 0 && Cmp(y, r) == 0) || (Cmp(x, r) == 0 && Cmp(y, l) == 0) {
        assert es[k] in es && PairOf(es[k]) == ab;
        return;
      }
      assert PairOf(es[k]) != ab;
      k := k + 1;
    }
  }

  method FindNode(nodes: seq<Node>, uuid: Uuid) returns (i: nat)
    ensures i <= |nodes| && (i < |nodes| <==> HasUuid(nodes, uuid))
    ensures i < |nodes| ==> nodes[i].uuid == uuid
  {
    i := 0;
    while i < |nodes| && nodes[i].uuid != uuid
      invariant i <= |nodes| && forall j :: 0 <= j < i ==> nodes[j].uuid != uuid
    {
      i := i + 1;
    }
  }

  predicate AtEnd(l: Link, i: nat) { l.a == i || l.b == i }

  /** `mdv_topology_linked_node_append`: add a link, and its end nodes where they are missing. */
  method AppendLink(links: Vector<Link>, nodes: Vector<Node>, l: Node, r: Node, weight: nat)
    requires Indexed(links.items, |nodes.items|)
    modifies links, nodes
    ensures nodes.items == old(nodes.items) + Missing(old(nodes.items), l, r)
    ensures |links.items| == old(|links.items|) + 1 && links.items[..|links.items| - 1] == old(links.items)
    ensures var k := links.items[|links.items| - 1];
      && k.a < |nodes.items| && k.b < |nodes.items| && k.weight == weight
      && nodes.items[k.a].uuid == l.uuid && nodes.items[k.b].uuid == r.uuid
      && forall i :: old(|nodes.items|) <= i < |nodes.items| ==> AtEnd(k, i)
  {
    ghost var nodes0 := nodes.items;
    var i := FindNode(nodes.items, l.uuid);
    var j := FindNode(nodes.items, r.uuid);
    if i == |nodes.items| {
      if j == i { j := j + 1; }
      nodes.items := nodes.items + [l];
    }
    if j == |nodes.items| {
      nodes.items := nodes.items + [r];
    }
    assert nodes.items == nodes0 + Missing(nodes0, l, r);
    links.items := links.items + [Link(i, j, weight)];
  }

  /** The loop after k links. */
  ghost predicate ChosenUpto(links: seq<Link>, es: seq<Edge>, known: set<Pair>, ab: Pair, k: nat, chosen: seq<Link>,
                             added: bool)
    requires |links| == |es| && k <= |links|
  {
    chosen == Selected(links, es, known, ab, k) && (added <==> SeenBefore(es, ab, k))
  }

  predicate Joins(x: Uuid, y: Uuid, l: Uuid, r: Uuid) {
    (Cmp(x, l) == 0 && Cmp(y, r) == 0) || (Cmp(x, r) == 0 && Cmp(y, l) == 0)
  }

  /** What the tests of the loop say about link k. */
  lemma ChosenIs(links: seq<Link>, es: seq<Edge>, known: set<Pair>, x: Uuid, y: Uuid, k: nat, chosen: seq<Link>,
                 added: bool)
    returns (more: seq<Link>, seen: bool)
    requires |links| == |es| && k < |links| && ChosenUpto(links, es, known, Sorted(x, y), k, chosen, added)
    ensures more ==
      if (!added && Joins(x, y, es[k].u, es[k].v)) || PairOf(es[k]) !in known then chosen + [links[k]] else chosen
    ensures seen == (added || Joins(x, y, es[k].u, es[k].v))
    ensures ChosenUpto(links, es, known, Sorted(x, y), k + 1, more, seen)
  {
    var joins := Joins(x, y, es[k].u, es[k].v);
    more := if (!added && joins) || PairOf(es[k]) !in known then chosen + [links[k]] else chosen;
    seen := added || joins;
    SortedIdentifies(es[k].u, es[k].v, x, y);
    SeenNext(es, Sorted(x, y), k);
  }

  /** One turn of the loop. */
  method ChooseLink(a: Topo, known: set<Pair>, x: Uuid, y: Uuid, k: nat, chosen: seq<Link>, added: bool)
    returns (more: seq<Link>, seen: bool)
    requires Valid(a) && k < |a.links|
    ensures var e := Graph(a)[k];
      more == if (!added && Joins(x, y, e.u, e.v)) || PairOf(e) !in known then chosen + [a.links[k]] else chosen
    ensures var e := Graph(a)[k]; seen == (added || Joins(x, y, e.u, e.v))
  {
    var link := a.links[k];
    var l, r := a.nodes[link.a].uuid, a.nodes[link.b].uuid;
    more, seen := chosen, added;
    if !added && Joins(x, y, l, r) {
      more, seen := chosen + [link], true;
    } else if Sorted(l, r) !in known {
      more := chosen + [link];
    }
  }

  method ChooseLinks(a: Topo, known: set<Pair>, x: Uuid, y: Uuid) returns (chosen: seq<Link>, added: bool)
    requires Valid(a)
    ensures chosen == Selected(a.links, Graph(a), known, Sorted(x, y), |a.links|)
    ensures added <==> Sorted(x, y) in Pairs(Graph(a))
  {
    ghost var es, ab := Graph(a), Sorted(x, y);
    chosen, added := [], false;
    for k := 0 to |a.links|
      invariant ChosenUpto(a.links, es, known, ab, k, chosen, added)
    {
      ghost var more, seen := ChosenIs(a.links, es, known, x, y, k, chosen, added);
      chosen, added := ChooseLink(a, known, x, y, k, chosen, added);
      assert chosen == more && added == seen;
    }
    SeenAll(es, ab);
  }

  lemma SeenNext(es: seq<Edge>, ab: Pair, k: nat)
    requires k < |es|
    ensures SeenBefore(es, ab, k + 1) <==> SeenBefore(es, ab, k) || PairOf(es[k]) == ab
  {
  }

  lemma SeenAll(es: seq<Edge>, ab: Pair)
    ensures SeenBefore(es, ab, |es|) <==> ab in Pairs(es)
  {
    if SeenBefore(es, ab, |es|) { var j :| 0 <= j < |es| && PairOf(es[j]) == ab; assert es[j] in es; }
    if ab in Pairs(es) { var j := First(es, ab); assert PairOf(es[j]) == ab; }
  }

  /** `mdv_topology_diff`; None stands for the null result. */
  method Diff(a: Topo, nodea: Uuid, b: Topo, nodeb: Uuid) returns (r: Option<Topo>)
    requires Valid(a) && Valid(b)
    ensures var ab := Sorted(nodea, nodeb);
      if a.links == [] then r == Some(EMPTY)
      else if b.links == [] then r == Some(a)
      else if ab !in Pairs(Graph(a)) && ab !in Pairs(Graph(b)) then
        r == if Chosens(a, b, ab) == [] then Some(EMPTY) else None
      else r.Some? && Indexed(r.value.links, |r.value.nodes|) && SortedNodes(r.value.nodes)
           && (Graph(r.value) == DiffEdges(a, b, ab) <==> IdsOk(a, b, ab))
    ensures r.Some? ==> forall n :: n in r.value.nodes ==> n in a.nodes || n in b.nodes
  {
    if |a.links| == 0 { return Some(EMPTY); }
    if |b.links| == 0 { return Some(a); }
    var known := LinksMap(b);
    var chosen, added := ChooseLinks(a, known, nodea, nodeb);
    r := DiffOf(a, nodea, b, nodeb, chosen, added);
  }

  /** Makes the result from the chosen links, with the a-b link of `b` if `a` does not have it. */
  method DiffOf(a: Topo, nodea: Uuid, b: Topo, nodeb: Uuid, chosen: seq<Link>, added: bool) returns (r: Option<Topo>)
    requires Valid(a) && Valid(b) && chosen == Chosens(a, b, Sorted(nodea, nodeb))
    requires added <==> Sorted(nodea, nodeb) in Pairs(Graph(a))
    ensures var ab := Sorted(nodea, nodeb);
      if ab !in Pairs(Graph(a)) && ab !in Pairs(Graph(b)) then r == if chosen == [] then Some(EMPTY) else None
      else r.Some? && Indexed(r.value.links, |r.value.nodes|) && SortedNodes(r.value.nodes)
           && (Graph(r.value) == DiffEdges(a, b, ab) <==> IdsOk(a, b, ab))
    ensures r.Some? ==> forall n :: n in r.value.nodes ==> n in a.nodes || n in b.nodes
  {
    ghost var ab := Sorted(nodea, nodeb);
    if added {
      DiffEdgesOwn(a, b, ab);
      var t := BuildChosen(a, chosen);
      return Some(t);
    }
    var k := FindLink(b, nodea, nodeb);
    if k == |b.links| {
      return if |chosen| == 0 then Some(EMPTY) else None;
    }
    DiffEdgesOther(a, b, ab);
    var l := b.links[k];
    var t := BuildChosenAnd(a, chosen, b.nodes[l.a], b.nodes[l.b], l.weight);
    r := Some(t);
  }

  /** The topology of the chosen links of `a`. */
  method BuildChosen(a: Topo, chosen: seq<Link>) returns (t: Topo)
    requires Valid(a) && Indexed(chosen, |a.nodes|)
    ensures Indexed(t.links, |t.nodes|) && SortedNodes(t.nodes) && Graph(t) == Edges(a.nodes, chosen)
    ensures forall n :: n in t.nodes ==> n in a.nodes
  {
    var links := new Vector(chosen);
    var nodes := LinkedNodes(links, a.nodes);
    ghost var nodes0, links0 := nodes.items, links.items;
    CompactionKeepsEdges(a.nodes, chosen);
    KeptDistinct(a.nodes, chosen);
    DistinctIdsSuffice(nodes0, links0);
    Create(nodes, links);
    CreateKeepsEdgesIff(nodes0, links0, nodes.items, links.items);
    t := Topo(nodes.items, links.items);
    CameFrom(nodes0, t.nodes, a.nodes, chosen);
  }

  /** The nodes of a created topology are those it was created from. */
  lemma CameFrom(nodes0: seq<Node>, nodes': seq<Node>, nodes: seq<Node>, links: seq<Link>)
    requires multiset(nodes') == multiset(nodes0) && Kept(nodes, links, |nodes|) <= nodes0
    ensures forall n :: n in nodes' ==> n in nodes || n in nodes0[|Kept(nodes, links, |nodes|)|..]
  {
    var kept := Kept(nodes, links, |nodes|);
    forall n | n in nodes'
      ensures n in nodes || n in nodes0[|kept|..]
    {
      assert n in multiset(nodes0);
      var i :| 0 <= i < |nodes0| && nodes0[i] == n;
      if i < |kept| {
        var j := KeptFrom(nodes, links, |nodes|, kept[i]);
      } else {
        assert nodes0[|kept|..][i - |kept|] == n;
      }
    }
  }

  /** The topology of the chosen links of `a` and one link of the other side. */
  method BuildChosenAnd(a: Topo, chosen: seq<Link>, l: Node, r: Node, weight: nat) returns (t: Topo)
    requires Valid(a) && Indexed(chosen, |a.nodes|) && (l.id == r.id ==> l.uuid == r.uuid)
    ensures Indexed(t.links, |t.nodes|) && SortedNodes(t.nodes)
    ensures var kept := Kept(a.nodes, chosen, |a.nodes|);
      Graph(t) == Edges(a.nodes, chosen) + [Edge(l.uuid, r.uuid, weight)] <==> IdsApart(kept, Missing(kept, l, r))
    ensures forall n :: n in t.nodes ==> n in a.nodes || n == l || n == r
  {
    var links := new Vector(chosen);
    var nodes := LinkedNodes(links, a.nodes);
    ghost var kept, compacted := nodes.items, links.items;
    CompactionKeepsEdges(a.nodes, chosen);
    KeptDistinct(a.nodes, chosen);
    AppendLink(links, nodes, l, r, weight);
    ghost var nodes0, links0 := nodes.items, links.items;
    AppendedEdges(kept, compacted, nodes0, links0);
    AppendedTouchesAll(a.nodes, chosen, nodes0, links0);
    TwinsIff(kept, l, r, links0);
    Create(nodes, links);
    CreateKeepsEdgesIff(nodes0, links0, nodes.items, links.items);
    t := Topo(nodes.items, links.items);
    CameFromAnd(nodes0, t.nodes, a.nodes, chosen, l, r);
  }

  lemma CameFromAnd(nodes0: seq<Node>, nodes': seq<Node>, nodes: seq<Node>, links: seq<Link>, l: Node, r: Node)
    requires multiset(nodes') == multiset(nodes0)
    requires nodes0 == Kept(nodes, links, |nodes|) + Missing(Kept(nodes, links, |nodes|), l, r)
    ensures forall n :: n in nodes' ==> n in nodes || n == l || n == r
  {
    CameFrom(nodes0, nodes', nodes, links);
  }

  lemma AppendedEdges(kept: seq<Node>, links: seq<Link>, nodes: seq<Node>, links': seq<Link>)
    requires Indexed(links, |kept|) && kept <= nodes && |links'| == |links| + 1 && links'[..|links|] == links
    requires links'[|links|].a < |nodes| && links'[|links|].b < |nodes|
    ensures Indexed(links', |nodes|) && Edges(nodes, links') == Edges(kept, links) + [EdgeOf(nodes, links'[|links|])]
  {
    forall k | 0 <= k < |links| ensures links'[k] == links[k] && EdgeOf(nodes, links'[k]) == EdgeOf(kept, links[k]) {
      assert links'[k] == links'[..|links|][k];
    }
  }

  lemma AppendedTouchesAll(nodes: seq<Node>, chosen: seq<Link>, nodes': seq<Node>, links': seq<Link>)
    requires Indexed(chosen, |nodes|)
    requires var n := |chosen|; |links'| == n + 1 && links'[..n] == Compacted(nodes, chosen)
    requires forall i :: |Kept(nodes, chosen, |nodes|)| <= i < |nodes'| ==> AtEnd(links'[|chosen|], i)
    ensures forall i: nat :: i < |nodes'| ==> Touched(links', i)
  {
    forall i: nat | i < |nodes'| ensures Touched(links', i) {
      assert i < |Kept(nodes, chosen, |nodes|)| || AtEnd(links'[|chosen|], i);
      if i < |Kept(nodes, chosen, |nodes|)| {
        CompactedTouchesAll(nodes, chosen, i);
        var links := Compacted(nodes, chosen);
        var k :| 0 <= k < |links| && (links[k].a == i || links[k].b == i);
        assert links'[k] == links'[..|chosen|][k];
      }
    }
  }

  // Two valid topologies whose difference is corrupted: each side numbers itself 0, and only the
  // second knows the link between them.

  function MixedA(x: Uuid, y: Uuid): Topo { Topo([Node(x, 0, "x"), Node(y, 1, "y")], [Link(0, 1, 1)]) }

  function MixedB(x: Uuid, z: Uuid): Topo { Topo([Node(z, 0, "z"), Node(x, 1, "x")], [Link(0, 1, 1)]) }

  lemma OneLink(t: Topo, u: Uuid, v: Uuid)
    requires |t.nodes| == 2 && t.links == [Link(0, 1, 1)] && t.nodes[0].uuid == u && t.nodes[1].uuid == v
    ensures Indexed(t.links, 2) && Graph(t) == [Edge(u, v, 1)] && Pairs(Graph(t)) == {Sorted(u, v)}
  {
    var es := Graph(t);
    assert es == [Edge(u, v, 1)] && es[0] in es;
  }

  /** A single link that the other side does not know is chosen. */
  lemma OneChosen(a: Topo, b: Topo, ab: Pair)
    requires Valid(a) && Valid(b) && |a.links| == 1 && PairOf(Graph(a)[0]) !in Pairs(Graph(b))
    ensures Chosens(a, b, ab) == a.links
  {
    var known := Pairs(Graph(b));
    assert Chosen(Graph(a), known, ab, 0);
    assert Selected(a.links, Graph(a), known, ab, 0) == [];
    assert Selected(a.links, Graph(a), known, ab, |a.links|) == [] + [a.links[0]];
  }

  lemma MixedIdsCorrupt(x: Uuid, y: Uuid, z: Uuid)
    requires x != y && x != z && y != z
    ensures Valid(MixedA(x, y)) && Valid(MixedB(x, z))
    ensures Sorted(x, z) !in Pairs(Graph(MixedA(x, y))) && Sorted(x, z) in Pairs(Graph(MixedB(x, z)))
    ensures !IdsOk(MixedA(x, y), MixedB(x, z), Sorted(x, z))
  {
    var a, b := MixedA(x, y), MixedB(x, z);
    OneLink(a, x, y);
    OneLink(b, z, x);
    SortedIdentifies(x, y, z, x);
    SortedIdentifies(z, x, x, z);
    SortedIdentifies(x, y, x, z);
    OneChosen(a, b, Sorted(x, z));
    assert First(Graph(b), Sorted(x, z)) == 0;
    CollidingKept(a.nodes, a.links, b.nodes[0], b.nodes[1]);
  }

  /** The code gives a wrong graph for them. */
  method MixedIdsDiff(x: Uuid, y: Uuid, z: Uuid) returns (r: Topo)
    requires x != y && x != z && y != z
    ensures Valid(MixedA(x, y)) && Valid(MixedB(x, z)) && Indexed(r.links, |r.nodes|)
    ensures Graph(r) != DiffEdges(MixedA(x, y), MixedB(x, z), Sorted(x, z))
  {
    MixedIdsCorrupt(x, y, z);
    var diff := Diff(MixedA(x, y), x, MixedB(x, z), z);
    r := diff.value;
  }

  /** A node outside a two-node graph that carries the id of its first node. */
  lemma CollidingKept(nodes: seq<Node>, links: seq<Link>, l: Node, r: Node)
    requires |nodes| == 2 && links == [Link(0, 1, 1)] && l.id == nodes[0].id
    requires l.uuid != nodes[0].uuid && l.uuid != nodes[1].uuid
    ensures !IdsApart(Kept(nodes, links, 2), Missing(Kept(nodes, links, 2), l, r))
  {
    var kept := Kept(nodes, links, 2);
    assert Touched(links, 0) by { assert links[0].a == 0; }
    KeptAt(nodes, links, 0, 2);
    forall i | 0 <= i < |kept| ensures kept[i].uuid != l.uuid {
      var j := KeptFrom(nodes, links, 2, kept[i]);
    }
    assert !HasUuid(kept, l.uuid);
    assert kept[0].id == Missing(kept, l, r)[0].id;
  }
}
