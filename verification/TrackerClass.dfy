/** The tracker as an object updated in place, proved against the operations on states. */
module TrackerClass {
  import opened Common
  import opened Uuids
  import opened Topology
  import opened TopologyDiff
  import T = Tracker

  lemma TwiceInMultiset(ys: seq<Node>, i: nat, j: nat)
    requires i < j < |ys| && ys[i] == ys[j]
    ensures multiset(ys)[ys[i]] >= 2
  {
    assert ys == ys[..j] + [ys[j]] + ys[j + 1..];
    assert ys[i] in ys[..j] by { assert ys[..j][i] == ys[i]; }
  }

  lemma {:induction false} OnceInMultiset(xs: seq<Node>, x: Node)
    requires DistinctIds(xs)
    ensures multiset(xs)[x] <= 1
    decreases |xs|
  {
    if xs != [] {
      var n := |xs| - 1;
      OnceInMultiset(xs[..n], x);
      assert xs == xs[..n] + [xs[n]];
      if xs[n] == x {
        forall k | 0 <= k < n ensures xs[..n][k] != x { assert xs[k].id != xs[n].id; }
        assert x !in multiset(xs[..n]);
      }
    }
  }

  /** Distinct ids and UUIDs survive a rearrangement. */
  lemma RearrangedDistinct(xs: seq<Node>, ys: seq<Node>)
    requires DistinctIds(xs) && DistinctUuids(xs) && multiset(xs) == multiset(ys)
    ensures DistinctIds(ys) && DistinctUuids(ys)
  {
    forall i, j | 0 <= i < j < |ys| ensures ys[i].id != ys[j].id && ys[i].uuid != ys[j].uuid {
      var p := SameMembers(ys, xs, i);
      var q := SameMembers(ys, xs, j);
      OnceInMultiset(xs, ys[i]);
      if p == q { TwiceInMultiset(ys, i, j); }
    }
  }

  /** The edge a tracked link stands for. */
  function EdgeAt(st: T.State, k: T.Key): Edge
    requires k in st.links && st.links[k].id0 in st.ids && st.links[k].id1 in st.ids
  {
    Edge(st.ids[st.links[k].id0], st.ids[st.links[k].id1], st.links[k].weight)
  }

  /** `es` lists every tracked link once. */
  ghost predicate Lists(st: T.State, order: seq<T.Key>, es: seq<Edge>)
    requires T.Inv(st)
  {
    && |order| == |es|
    && (forall i, j :: 0 <= i < j < |order| ==> order[i] != order[j])
    && (forall k :: k in order <==> k in st.links)
    && (forall i :: 0 <= i < |es| ==> order[i] in st.links && es[i] == EdgeAt(st, order[i]))
  }

  /** A tracked link and the pair of UUIDs it joins name the same key. */
  lemma KeyOfPair(st: T.State, k: T.Key, p: Pair)
    requires T.Inv(st) && k in st.links && Normal(p)
    ensures PairOf(EdgeAt(st, k)) == p <==> T.Registered(st, p) && T.KeyFor(st, p) == k
  {
    var l := st.links[k];
    var e := EdgeAt(st, k);
    SortedIdentifies(e.u, e.v, p.lo, p.hi);
    if T.Registered(st, p) {
      T.KeyIdentifies(st.nodes[p.lo].id, st.nodes[p.hi].id, l.id0, l.id1);
    }
  }

  /** The last weight of a pair that the edges of one key join. */
  lemma {:induction false} PrefixWeight(order: seq<T.Key>, es: seq<Edge>, p: Pair, k: T.Key, w: nat, n: nat)
    requires n <= |es| == |order|
    requires forall i :: 0 <= i < |es| ==>
      (PairOf(es[i]) == p <==> order[i] == k) && (order[i] == k ==> es[i].weight == w)
    ensures LastWeight(es[..n], p) == if k in order[..n] then Some(w) else None
    decreases n
  {
    if n > 0 {
      PrefixWeight(order, es, p, k, w, n - 1);
      assert es[..n] == es[..n - 1] + [es[n - 1]] && order[..n] == order[..n - 1] + [order[n - 1]];
      LastWeightSnoc(es[..n - 1], es[n - 1], p);
    }
  }

  /** A listing of the tracked links means exactly the tracked graph. */
  lemma ListsMeans(st: T.State, order: seq<T.Key>, es: seq<Edge>, p: Pair)
    requires T.Inv(st) && Lists(st, order, es) && Normal(p)
    ensures LastWeight(es, p) == T.WeightOf(st, p)
  {
    forall i | 0 <= i < |es|
      ensures PairOf(es[i]) == p <==> T.Registered(st, p) && T.KeyFor(st, p) == order[i]
    {
      KeyOfPair(st, order[i], p);
    }
    assert es[..|es|] == es && order[..|order|] == order;
    if T.Registered(st, p) {
      var k := T.KeyFor(st, p);
      PrefixWeight(order, es, p, k, if k in st.links then st.links[k].weight else 0, |es|);
    } else {
      NoWeight(es, p);
    }
  }

  lemma ListsSimple(st: T.State, order: seq<T.Key>, es: seq<Edge>)
    requires T.Inv(st) && Lists(st, order, es)
    ensures Simple(es)
  {
    forall i, j | 0 <= i < j < |es| ensures PairOf(es[i]) != PairOf(es[j]) {
      assert order[i] != order[j];
      KeyOfPair(st, order[i], PairOf(es[i]));
      KeyOfPair(st, order[j], PairOf(es[i]));
    }
  }

  lemma NoWeight(es: seq<Edge>, p: Pair)
    requires forall i :: 0 <= i < |es| ==> PairOf(es[i]) != p
    ensures LastWeight(es, p) == None
  {
    LastWeightPairs(es, p);
  }

  /** A valid topology whose nodes are tracked ones and whose links are the tracked ones, each once. */
  ghost predicate Extracted(st: T.State, t: Topo) {
    && Valid(t) && T.Tracks(st, Graph(t)) && Simple(Graph(t)) && |t.links| == |st.links|
    && forall n :: n in t.nodes ==> n.uuid in st.nodes && n == st.nodes[n.uuid]
  }

  /** Each id has the place of its node. */
  ghost predicate Placed(st: T.State, ns: seq<Node>, at: map<nat, nat>)
    requires T.Inverse(st)
  {
    forall i :: i in st.ids ==> i in at && at[i] < |ns| && ns[at[i]] == st.nodes[st.ids[i]]
  }

  /** Every tracked node is among the placed ones, in whatever order. */
  lemma AllPlaced(st: T.State, ns: seq<Node>, at: map<nat, nat>, sorted: seq<Node>)
    requires T.Inverse(st) && Placed(st, ns, at) && multiset(sorted) == multiset(ns)
    ensures forall u :: u in st.nodes ==> st.nodes[u] in sorted
  {
    forall u | u in st.nodes ensures st.nodes[u] in sorted {
      var i := st.nodes[u].id;
      assert st.ids[i] == u && ns[at[i]] == st.nodes[u];
      assert st.nodes[u] in multiset(sorted);
    }
  }

  /** All nodes but those in `todo` are listed, each once. */
  ghost predicate NodesListed(st: T.State, ns: seq<Node>, at: map<nat, nat>, todo: set<Uuid>)
    requires T.Inverse(st)
  {
    && (forall i :: i in st.ids && st.ids[i] !in todo ==> i in at && at[i] < |ns| && ns[at[i]] == st.nodes[st.ids[i]])
    && (forall k :: 0 <= k < |ns| ==>
          ns[k].uuid in st.nodes && ns[k].uuid !in todo && ns[k] == st.nodes[ns[k].uuid])
    && DistinctIds(ns) && DistinctUuids(ns)
  }

  lemma NodesListedNext(st: T.State, ns: seq<Node>, at: map<nat, nat>, todo: set<Uuid>, u: Uuid)
    requires T.Inverse(st) && NodesListed(st, ns, at, todo) && u in todo && u in st.nodes
    ensures NodesListed(st, ns + [st.nodes[u]], at[st.nodes[u].id := |ns|], todo - {u})
  {
    forall k | 0 <= k < |ns| ensures ns[k].id != st.nodes[u].id {
      assert st.ids[ns[k].id] == ns[k].uuid && st.ids[st.nodes[u].id] == u;
    }
  }

  /** All links but those in `todo` are listed, each once. */
  ghost predicate LinksListed(st: T.State, ns: seq<Node>, ls: seq<Link>, order: seq<T.Key>, todo: set<T.Key>)
    requires T.Inv(st)
  {
    && Indexed(ls, |ns|) && |order| == |ls|
    && (forall k :: k in order <==> k in st.links && k !in todo)
    && (forall i, j :: 0 <= i < j < |order| ==> order[i] != order[j])
    && (forall i :: 0 <= i < |ls| ==> order[i] in st.links && EdgeOf(ns, ls[i]) == EdgeAt(st, order[i]))
  }

  lemma LinksListedNext(st: T.State, ns: seq<Node>, at: map<nat, nat>, ls: seq<Link>, order: seq<T.Key>,
                        todo: set<T.Key>, k: T.Key)
    requires T.Inv(st) && Placed(st, ns, at) && LinksListed(st, ns, ls, order, todo) && k in todo && k in st.links
    ensures st.links[k].id0 in at && st.links[k].id1 in at
    ensures var l := st.links[k];
      LinksListed(st, ns, ls + [Link(at[l.id0], at[l.id1], l.weight)], order + [k], todo - {k})
  {
    var l := st.links[k];
    assert ns[at[l.id0]].uuid == st.ids[l.id0] && ns[at[l.id1]].uuid == st.ids[l.id1];
    assert k !in order;
  }

  /** Rearranging the nodes of a listing makes a topology of it. */
  lemma ExtractedIs(st: T.State, ns: seq<Node>, order: seq<T.Key>, es: seq<Edge>, t: Topo)
    requires T.Inv(st) && Lists(st, order, es) && Indexed(t.links, |t.nodes|) && Graph(t) == es
    requires DistinctIds(ns) && DistinctUuids(ns) && multiset(t.nodes) == multiset(ns)
    requires forall k :: 0 <= k < |ns| ==> ns[k].uuid in st.nodes && ns[k] == st.nodes[ns[k].uuid]
    ensures Extracted(st, t)
  {
    RearrangedDistinct(ns, t.nodes);
    forall p | Normal(p) ensures LastWeight(es, p) == T.WeightOf(st, p) { ListsMeans(st, order, es, p); }
    ListsSimple(st, order, es);
    OrderCounts(order, st.links.Keys);
    forall n | n in t.nodes ensures n.uuid in st.nodes && n == st.nodes[n.uuid] {
      assert n in multiset(ns);
      var k :| 0 <= k < |ns| && ns[k] == n;
    }
  }

  function LoadedNodes(self: Uuid, addr: string, stored: map<Uuid, Node>, done: set<Uuid>): map<Uuid, Node>
    requires done <= stored.Keys
  {
    map[self := Node(self, T.LOCAL_ID, addr)] + map u | u in done :: stored[u]
  }

  /** Loading one more stored node keeps the maps inverse: its id is free, or its own. */
  lemma LoadOne(st: T.State, addr: string, done: set<Uuid>, u: Uuid)
    requires T.StoreOk(st.self, st.stored) && T.Inverse(st)
    requires done <= st.stored.Keys && st.nodes == LoadedNodes(st.self, addr, st.stored, done)
    requires u in st.stored && u !in done
    ensures T.Inverse(T.Insert(st, st.stored[u]))
    ensures T.Insert(st, st.stored[u]).nodes == LoadedNodes(st.self, addr, st.stored, done + {u})
  {
    var node := st.stored[u];
    assert node.uuid == u;
    if u == st.self {
      assert st.nodes[u].id == T.LOCAL_ID by { assert u !in done; }
    } else {
      assert u !in st.nodes;
      LoadFree(st, addr, done, u);
    }
    T.InsertInverse(st, node);
    LoadedNext(st.self, addr, st.stored, done, u);
  }

  lemma LoadedNext(self: Uuid, addr: string, stored: map<Uuid, Node>, done: set<Uuid>, u: Uuid)
    requires done <= stored.Keys && u in stored
    ensures LoadedNodes(self, addr, stored, done)[u := stored[u]] == LoadedNodes(self, addr, stored, done + {u})
  {
  }

  lemma LoadedEnds(self: Uuid, addr: string, stored: map<Uuid, Node>)
    ensures LoadedNodes(self, addr, stored, {}) == map[self := Node(self, T.LOCAL_ID, addr)]
    ensures LoadedNodes(self, addr, stored, stored.Keys) == map[self := Node(self, T.LOCAL_ID, addr)] + stored
  {
  }

  lemma LoadFree(st: T.State, addr: string, done: set<Uuid>, u: Uuid)
    requires T.StoreOk(st.self, st.stored) && T.Inverse(st)
    requires done <= st.stored.Keys && st.nodes == LoadedNodes(st.self, addr, st.stored, done)
    requires u in st.stored && u !in done
    requires u != st.self
    ensures st.stored[u].id !in st.ids
  {
  }

  class Tracker {
    var self: Uuid
    var maxId: nat
    var nodes: map<Uuid, Node>
    var ids: map<nat, Uuid>
    var links: map<T.Key, T.TrackedLink>
    var stored: map<Uuid, Node>

    ghost function St(): T.State
      reads this
    {
      T.State(self, maxId, nodes, ids, links, stored)
    }

    constructor (uuid: Uuid, addr: string, storage: map<Uuid, Node>)
      requires T.StoreOk(uuid, storage)
      ensures T.Loaded(uuid, addr, storage, St())
    {
      self, maxId, links, stored := uuid, T.LOCAL_ID, map[], storage;
      nodes, ids := map[uuid := Node(uuid, T.LOCAL_ID, addr)], map[T.LOCAL_ID := uuid];
      new;
      LoadedEnds(uuid, addr, storage);
      LoadStored(addr);
    }

    method LoadStored(ghost addr: string)
      requires T.StoreOk(self, stored) && T.Inverse(St()) && nodes == LoadedNodes(self, addr, stored, {})
      modifies this`nodes, this`ids
      ensures T.Inverse(St()) && nodes == LoadedNodes(self, addr, stored, stored.Keys)
    {
      var todo := stored.Keys;
      ghost var done: set<Uuid> := {};
      while todo != {}
        invariant todo + done == stored.Keys && todo !! done
        invariant nodes == LoadedNodes(self, addr, stored, done) && T.Inverse(St())
        decreases todo
      {
        var u :| u in todo;
        LoadOne(St(), addr, done, u);
        Insert(stored[u]);
        todo, done := todo - {u}, done + {u};
      }
      assert done == stored.Keys;
    }

    method Insert(node: Node)
      modifies this`nodes, this`ids
      ensures St() == T.Insert(old(St()), node)
    {
      nodes := nodes[node.uuid := node];
      ids := ids[node.id := node.uuid];
    }

    method Register(uuid: Uuid, addr: string) returns (ok: bool)
      modifies this
      ensures (St(), ok) == T.Register(old(St()), uuid, addr)
      ensures ok ==> uuid in nodes && nodes[uuid].addr == addr
      ensures ok && old(nodes) != nodes ==> uuid in stored && stored[uuid] == nodes[uuid]
      ensures forall u :: u != uuid && u in old(nodes) ==> u in nodes && nodes[u] == old(nodes)[u]
    {
      T.RegisterFiles(St(), uuid, addr);
      ok := true;
      if uuid in nodes {
        if addr != nodes[uuid].addr {
          ok := T.AddrOk(addr);
          if ok {
            var node := Node(uuid, nodes[uuid].id, addr);
            stored := stored[uuid := node];
            Insert(node);
          }
        }
      } else {
        maxId := maxId + 1;
        ok := T.AddrOk(addr);
        if ok {
          var node := Node(uuid, maxId, addr);
          stored := stored[uuid := node];
          Insert(node);
        }
      }
    }

    method NodeIds(p: Uuid, q: Uuid) returns (ok: bool, i: nat, j: nat)
      ensures ok <==> T.Known(St(), p) && T.Known(St(), q)
      ensures ok ==> i == T.IdOf(St(), p) && j == T.IdOf(St(), q)
    {
      ok, i, j := false, T.LOCAL_ID, T.LOCAL_ID;
      if p != self {
        if p !in nodes { return; }
        i := nodes[p].id;
      }
      if q != self {
        if q !in nodes { return; }
        j := nodes[q].id;
      }
      ok := true;
    }

    method LinkStateAdd(p: Uuid, q: Uuid, connected: bool, weight: nat) returns (ok: bool)
      modifies this`links
      ensures (St(), ok) == T.LinkState(old(St()), p, q, connected, weight)
    {
      var i, j;
      ok, i, j := NodeIds(p, q);
      if ok {
        if connected {
          links := links[T.KeyOf(i, j) := T.TrackedLink(i, j, weight)];
        } else {
          links := links - {T.KeyOf(i, j)};
        }
      }
    }

    /** A link is reported connected exactly when the tracked graph has it, in either direction. */
    method LinkStateGet(p: Uuid, q: Uuid) returns (connected: bool)
      requires T.Inv(St())
      ensures connected <==> T.WeightOf(St(), Sorted(p, q)).Some?
    {
      var ok, i, j := NodeIds(p, q);
      connected := ok && T.KeyOf(i, j) in links;
      T.KeyIdentifies(i, j, j, i);
    }

    method TopodiffAdd(diff: Topo) returns (ok: bool)
      requires Indexed(diff.links, |diff.nodes|)
      modifies this
      ensures (St(), ok) == T.TopodiffAdd(old(St()), diff)
    {
      ghost var st0 := St();
      for k := 0 to |diff.nodes|
        invariant T.RegisterAll(st0, diff.nodes) == T.RegisterAll(St(), diff.nodes[k..])
      {
        assert diff.nodes[k..][1..] == diff.nodes[k + 1..];
        ok := Register(diff.nodes[k].uuid, diff.nodes[k].addr);
        if !ok { return; }
      }
      ghost var st1 := St();
      ghost var es := Graph(diff);
      for k := 0 to |diff.links|
        invariant T.LinkAll(st1, es) == T.LinkAll(St(), es[k..])
      {
        assert es[k..][1..] == es[k + 1..];
        var l := diff.links[k];
        ok := LinkStateAdd(diff.nodes[l.a].uuid, diff.nodes[l.b].uuid, true, l.weight);
        if !ok { return; }
      }
      ok := true;
    }

    /** The tracked nodes in map order, and where each id went. */
    method ExtractNodes() returns (ns: seq<Node>, at: map<nat, nat>)
      requires T.Inv(St())
      ensures DistinctIds(ns) && DistinctUuids(ns) && Placed(St(), ns, at)
      ensures forall k :: 0 <= k < |ns| ==> ns[k].uuid in nodes && ns[k] == nodes[ns[k].uuid]
    {
      ns, at := [], map[];
      var todo := nodes.Keys;
      while todo != {}
        invariant todo <= nodes.Keys && NodesListed(St(), ns, at, todo)
        decreases todo
      {
        var u :| u in todo;
        NodesListedNext(St(), ns, at, todo, u);
        ns, at := ns + [nodes[u]], at[nodes[u].id := |ns|];
        todo := todo - {u};
      }
    }

    /** The tracked links in map order, as index links. */
    method ExtractLinks(ns: seq<Node>, at: map<nat, nat>) returns (ls: seq<Link>, ghost order: seq<T.Key>)
      requires T.Inv(St()) && Placed(St(), ns, at)
      ensures Indexed(ls, |ns|) && Lists(St(), order, Edges(ns, ls))
    {
      ls, order := [], [];
      var todo := links.Keys;
      while todo != {}
        invariant todo <= links.Keys && LinksListed(St(), ns, ls, order, todo)
        decreases todo
      {
        var k :| k in todo;
        var l := links[k];
        LinksListedNext(St(), ns, at, ls, order, todo, k);
        ls, order := ls + [Link(at[l.id0], at[l.id1], l.weight)], order + [k];
        todo := todo - {k};
      }
    }

    /** `mdv_tracker_topology`. */
    method ExtractTopology() returns (t: Topo)
      requires T.Inv(St())
      ensures Extracted(St(), t) && SortedNodes(t.nodes)
      ensures forall u :: u in nodes ==> nodes[u] in t.nodes
    {
      var ns, at := ExtractNodes();
      var ls, order := ExtractLinks(ns, at);
      var nv := new Vector(ns);
      var lv := new Vector(ls);
      Create(nv, lv);
      DistinctIdsSuffice(ns, ls);
      CreateKeepsEdgesIff(ns, ls, nv.items, lv.items);
      t := Topo(nv.items, lv.items);
      AllPlaced(St(), ns, at, t.nodes);
      ExtractedIs(St(), ns, order, Edges(ns, ls), t);
    }
  }

  /** Every address is short enough to be stored. */
  ghost predicate AddrsFit(st: T.State) { forall u :: u in st.nodes ==> T.AddrOk(st.nodes[u].addr) }

  lemma DiffAddrs(sa: T.State, sb: T.State, a: Topo, b: Topo, nodes: seq<Node>)
    requires Extracted(sa, a) && Extracted(sb, b) && AddrsFit(sa) && AddrsFit(sb)
    requires forall n :: n in nodes ==> n in a.nodes || n in b.nodes
    ensures T.AddrsOk(nodes)
  {
    forall k | 0 <= k < |nodes| ensures T.AddrOk(nodes[k].addr) { assert nodes[k] in nodes; }
  }

  /** `u` is the end of a link that `sa` tracks and `sb` does not. */
  ghost predicate NewlyLinked(sa: T.State, sb: T.State, u: Uuid) {
    exists p :: Normal(p) && EndOf(p, u) && T.WeightOf(sa, p).Some? && T.WeightOf(sb, p).None?
  }

  /** If only the receiver knows the link between the two nodes: the ids it gave them, where the new
      links do not bring them along, are not among the ids the sender gave to the ends of the new
      links. */
  ghost predicate IdsClear(sa: T.State, sb: T.State, ab: Pair) {
    T.WeightOf(sa, ab).None? && T.WeightOf(sb, ab).Some? ==>
      forall u, v :: u in sa.nodes && v in sb.nodes && NewlyLinked(sa, sb, u) && EndOf(ab, v) && !NewlyLinked(sa, sb, v)
        ==> sa.nodes[u].id != sb.nodes[v].id
  }

  /** The nodes the difference keeps are the ends of the new links. */
  lemma KeptNewlyLinked(sa: T.State, sb: T.State, a: Topo, b: Topo, ab: Pair, node: Node)
    requires Extracted(sa, a) && Extracted(sb, b) && ab !in Pairs(Graph(a)) && node in KeptNodes(a, b, ab)
    ensures NewlyLinked(sa, sb, node.uuid) && node.uuid in sa.nodes && node == sa.nodes[node.uuid]
  {
    var p := KeptEnd(a.nodes, Chosens(a, b, ab), node);
    ChosensPairs(a, b, ab, p);
    LastWeightPairs(Graph(a), p);
    LastWeightPairs(Graph(b), p);
    assert Normal(p);
  }

  lemma NewlyLinkedKept(sa: T.State, sb: T.State, a: Topo, b: Topo, ab: Pair, u: Uuid)
    requires Extracted(sa, a) && Extracted(sb, b) && NewlyLinked(sa, sb, u)
    ensures HasUuid(KeptNodes(a, b, ab), u)
  {
    var p :| Normal(p) && EndOf(p, u) && T.WeightOf(sa, p).Some? && T.WeightOf(sb, p).None?;
    LastWeightPairs(Graph(a), p);
    LastWeightPairs(Graph(b), p);
    ChosensPairs(a, b, ab, p);
    EndKept(a.nodes, Chosens(a, b, ab), p, u);
  }

  lemma AddedIsEnd(b: Topo, kept: seq<Node>, ab: Pair, node: Node)
    requires Valid(b) && ab in Pairs(Graph(b))
    requires var l := b.links[First(Graph(b), ab)]; node in Missing(kept, b.nodes[l.a], b.nodes[l.b])
    ensures node in b.nodes && EndOf(ab, node.uuid) && !HasUuid(kept, node.uuid)
  {
  }

  lemma IdsClearOk(sa: T.State, sb: T.State, a: Topo, b: Topo, ab: Pair)
    requires Extracted(sa, a) && Extracted(sb, b) && IdsClear(sa, sb, ab) && Normal(ab)
    ensures IdsOk(a, b, ab)
  {
    LastWeightPairs(Graph(a), ab);
    LastWeightPairs(Graph(b), ab);
    if ab !in Pairs(Graph(a)) && ab in Pairs(Graph(b)) {
      var kept, added := KeptNodes(a, b, ab), AddedNodes(a, b, ab);
      forall i, j | 0 <= i < |kept| && 0 <= j < |added| ensures kept[i].id != added[j].id {
        KeptNewlyLinked(sa, sb, a, b, ab, kept[i]);
        AddedIsEnd(b, kept, ab, added[j]);
        if NewlyLinked(sa, sb, added[j].uuid) { NewlyLinkedKept(sa, sb, a, b, ab, added[j].uuid); }
      }
    }
  }

  /** What `Diff` answers when it is right. */
  ghost predicate RightDiff(a: Topo, b: Topo, ab: Pair, diff: Topo)
    requires Valid(a) && Valid(b) && Indexed(diff.links, |diff.nodes|)
  {
    || (a.links == [] && diff == EMPTY)
    || (b.links == [] && diff == a)
    || (ab !in Pairs(Graph(a)) && Chosens(a, b, ab) == [] && diff == EMPTY)
    || Graph(diff) == DiffEdges(a, b, ab)
  }

  /** Without the a-b link, an empty choice means that nothing is new. */
  lemma NothingChosen(a: Topo, b: Topo, ab: Pair, p: Pair)
    requires Valid(a) && Valid(b) && ab !in Pairs(Graph(a))
    ensures Chosens(a, b, ab) == [] && p in Pairs(Graph(a)) ==> p in Pairs(Graph(b))
    ensures Chosens(a, b, ab) != [] ==> Pairs(Graph(a)) - Pairs(Graph(b)) != {}
  {
    ChosensPairs(a, b, ab, p);
    var es := Edges(a.nodes, Chosens(a, b, ab));
    if es != [] {
      assert es[0] in es;
      ChosensPairs(a, b, ab, PairOf(es[0]));
      assert PairOf(es[0]) in Pairs(Graph(a)) - Pairs(Graph(b));
    }
  }

  lemma MergedWeights(sb: T.State, a: Topo, b: Topo, ab: Pair, diff: Topo, p: Pair)
    requires T.Inv(sb) && Extracted(sb, b) && Valid(a) && Simple(Graph(a)) && Normal(p)
    requires Indexed(diff.links, |diff.nodes|) && T.AddrsOk(diff.nodes) && RightDiff(a, b, ab, diff)
    ensures T.WeightOf(T.TopodiffAdd(sb, diff).0, p) ==
      T.MergedWeight(LastWeight(Graph(a), p), T.WeightOf(sb, p), p == ab)
  {
    if Graph(diff) == DiffEdges(a, b, ab) {
      T.MergeWeights(sb, a, b, ab, diff, p);
    } else {
      T.TopodiffMeaning(sb, diff, p);
      LastWeightPairs(Graph(a), p);
      LastWeightPairs(Graph(b), p);
      if ab !in Pairs(Graph(a)) { NothingChosen(a, b, ab, p); }
    }
  }

  /** A difference can be made: someone knows the link between the two nodes, or there is nothing to
      tell apart. */
  ghost predicate Mergeable(sa: T.State, sb: T.State, ab: Pair) {
    || T.WeightOf(sa, ab).Some? || T.WeightOf(sb, ab).Some? || sb.links == map[]
    || forall p :: Normal(p) && T.WeightOf(sa, p).Some? ==> T.WeightOf(sb, p).Some?
  }

  lemma MergeableIff(sa: T.State, sb: T.State, a: Topo, b: Topo, ab: Pair)
    requires Extracted(sa, a) && Extracted(sb, b) && Normal(ab)
    ensures Mergeable(sa, sb, ab) <==>
      a.links == [] || b.links == [] || ab in Pairs(Graph(a)) + Pairs(Graph(b)) || Chosens(a, b, ab) == []
  {
    T.TracksHolds(sa, Graph(a));
    T.TracksHolds(sb, Graph(b));
    if ab !in Pairs(Graph(a)) {
      NothingChosen(a, b, ab, ab);
      if Chosens(a, b, ab) == [] {
        forall p | Normal(p) && p in Pairs(Graph(a)) ensures p in Pairs(Graph(b)) { NothingChosen(a, b, ab, p); }
      } else {
        var p :| p in Pairs(Graph(a)) - Pairs(Graph(b));
        assert Normal(p);
      }
    }
  }

  /** The receiver's weights after a merge, pair by pair. */
  ghost predicate Merged(sa: T.State, sb: T.State, sb': T.State, ab: Pair) {
    forall p :: Normal(p) ==> T.WeightOf(sb', p) == T.MergedWeight(T.WeightOf(sa, p), T.WeightOf(sb, p), p == ab)
  }

  /** Synchronisation from one tracker to another, from extraction over the difference to its
      application. Without a difference nothing happens; with one the receiver ends with the links
      of both, of the link between the two nodes with the sender's weight, of the others with its
      own weight before the sender's. */
  method Merge(ta: Tracker, tb: Tracker) returns (ok: bool)
    requires ta != tb && T.Inv(ta.St()) && T.Inv(tb.St()) && AddrsFit(ta.St()) && AddrsFit(tb.St())
    modifies tb
    ensures ta.St() == old(ta.St())
    ensures ok <==> Mergeable(ta.St(), old(tb.St()), Sorted(ta.self, old(tb.self)))
    ensures !ok ==> tb.St() == old(tb.St())
    ensures ok && IdsClear(ta.St(), old(tb.St()), Sorted(ta.self, old(tb.self))) ==>
      Merged(ta.St(), old(tb.St()), tb.St(), Sorted(ta.self, old(tb.self)))
  {
    ghost var sa, sb, ab := ta.St(), tb.St(), Sorted(ta.self, tb.self);
    var a := ta.ExtractTopology();
    var b := tb.ExtractTopology();
    MergeableIff(sa, sb, a, b, ab);
    var diff := Diff(a, ta.self, b, tb.self);
    if diff.None? { return false; }
    DiffAddrs(sa, sb, a, b, diff.value.nodes);
    MergeMeaning(sa, sb, a, b, ab, diff.value);
    ok := tb.TopodiffAdd(diff.value);
  }

  lemma MergeMeaning(sa: T.State, sb: T.State, a: Topo, b: Topo, ab: Pair, diff: Topo)
    requires T.Inv(sb) && Extracted(sa, a) && Extracted(sb, b) && Normal(ab)
    requires Indexed(diff.links, |diff.nodes|) && T.AddrsOk(diff.nodes)
    requires IdsOk(a, b, ab) ==> RightDiff(a, b, ab, diff)
    ensures T.TopodiffAdd(sb, diff).1
    ensures IdsClear(sa, sb, ab) ==> Merged(sa, sb, T.TopodiffAdd(sb, diff).0, ab)
  {
    T.TopodiffMeaning(sb, diff, ab);
    if IdsClear(sa, sb, ab) {
      IdsClearOk(sa, sb, a, b, ab);
      forall p | Normal(p)
        ensures T.WeightOf(T.TopodiffAdd(sb, diff).0, p) ==
          T.MergedWeight(T.WeightOf(sa, p), T.WeightOf(sb, p), p == ab)
      {
        MergedWeights(sb, a, b, ab, diff, p);
      }
    }
  }

  lemma {:induction false} OrderCounts(order: seq<T.Key>, keys: set<T.Key>)
    requires forall i, j :: 0 <= i < j < |order| ==> order[i] != order[j]
    requires forall k :: k in order <==> k in keys
    ensures |order| == |keys|
    decreases |order|
  {
    if order == [] {
      assert keys == {};
    } else {
      var n := |order| - 1;
      forall k ensures k in order[..n] <==> k in keys - {order[n]} {
        if k in keys - {order[n]} { var i :| 0 <= i < |order| && order[i] == k; assert order[..n][i] == k; }
      }
      assert order[n] in keys;
      OrderCounts(order[..n], keys - {order[n]});
    }
  }
}
