/**
 The topology tracker: nodes by UUID, node ids by number, and links between ids. Its operations
 are functions on states here; the class below updates the same fields in place and is proved
 against them.
 */
module Tracker {
  import opened Common
  import opened Uuids
  import opened Topology
  import opened TopologyDiff

  const LOCAL_ID: nat := 0
  const ADDR_LEN_MAX: nat := 256

  datatype TrackedLink = TrackedLink(id0: nat, id1: nat, weight: nat)

  /** A link key: the ids in the order `mdv_tracker_link_cmp` compares them. */
  datatype Key = Key(lo: nat, hi: nat)

  function KeyOf(i: nat, j: nat): Key { if i < j then Key(i, j) else Key(j, i) }

  /** Comparison of links as map keys (`mdv_tracker_link_cmp`). */
  function LinkCmp(x: TrackedLink, y: TrackedLink): (r: int)
    ensures r == 0 <==> (x.id0 == y.id0 && x.id1 == y.id1) || (x.id0 == y.id1 && x.id1 == y.id0)
  {
    var a, b := KeyOf(x.id0, x.id1), KeyOf(y.id0, y.id1);
    if a.lo < b.lo then -1 else if a.lo > b.lo then 1
    else if a.hi < b.hi then -1 else if a.hi > b.hi then 1 else 0
  }

  /** `stored` is the node storage on disk. */
  datatype State = State(
    self: Uuid, maxId: nat,
    nodes: map<Uuid, Node>, ids: map<nat, Uuid>,
    links: map<Key, TrackedLink>, stored: map<Uuid, Node>)

  predicate AddrOk(addr: string) { |addr| < ADDR_LEN_MAX }

  // ------------------------------------------------------------------ operations

  function Insert(st: State, node: Node): State {
    st.(nodes := st.nodes[node.uuid := node], ids := st.ids[node.id := node.uuid])
  }

  /** `mdv_tracker_register`; the flag says whether it returned MDV_OK. */
  function Register(st: State, uuid: Uuid, addr: string): (State, bool) {
    if uuid in st.nodes then
      if addr == st.nodes[uuid].addr then (st, true)
      else if !AddrOk(addr) then (st, false)
      else
        var node := Node(uuid, st.nodes[uuid].id, addr);
        (Insert(st.(stored := st.stored[uuid := node]), node), true)
    else
      var st' := st.(maxId := st.maxId + 1);
      if !AddrOk(addr) then (st', false)
      else
        var node := Node(uuid, st.maxId + 1, addr);
        (Insert(st'.(stored := st.stored[uuid := node]), node), true)
  }

  predicate Known(st: State, peer: Uuid) { peer == st.self || peer in st.nodes }

  function IdOf(st: State, peer: Uuid): nat
    requires Known(st, peer)
  {
    if peer == st.self then LOCAL_ID else st.nodes[peer].id
  }

  /** `mdv_tracker_linkstate_add` */
  function LinkState(st: State, p: Uuid, q: Uuid, connected: bool, weight: nat): (State, bool) {
    if !Known(st, p) || !Known(st, q) then (st, false)
    else
      var i, j := IdOf(st, p), IdOf(st, q);
      if connected then (st.(links := st.links[KeyOf(i, j) := TrackedLink(i, j, weight)]), true)
      else (st.(links := st.links - {KeyOf(i, j)}), true)
  }

  datatype Op =
    | OpRegister(uuid: Uuid, addr: string)
    | OpLink(p: Uuid, q: Uuid, connected: bool, weight: nat)

  function Apply(st: State, op: Op): State {
    match op
    case OpRegister(uuid, addr) => Register(st, uuid, addr).0
    case OpLink(p, q, connected, weight) => LinkState(st, p, q, connected, weight).0
  }

  function RunOps(st: State, ops: seq<Op>): State
    decreases |ops|
  {
    if ops == [] then st else RunOps(Apply(st, ops[0]), ops[1..])
  }

  // ------------------------------------------------------------------ invariant

  /** Nodes-by-UUID and ids-by-number are mutually inverse. */
  ghost predicate Inverse(st: State) {
    && (forall u :: u in st.nodes ==> st.nodes[u].uuid == u && st.nodes[u].id in st.ids && st.ids[st.nodes[u].id] == u)
    && (forall i :: i in st.ids ==> st.ids[i] in st.nodes && st.nodes[st.ids[i]].id == i)
  }

  /** Every link is filed under its unordered pair of ids, and both ids are registered. */
  ghost predicate LinksOk(links: map<Key, TrackedLink>, ids: map<nat, Uuid>) {
    forall k :: k in links ==> k == KeyOf(links[k].id0, links[k].id1) && links[k].id0 in ids && links[k].id1 in ids
  }

  /** The storage holds every node except possibly the local one, as it is now. */
  ghost predicate StoredOk(self: Uuid, nodes: map<Uuid, Node>, stored: map<Uuid, Node>) {
    && (forall u :: u in stored ==> u in nodes && nodes[u] == stored[u])
    && (forall u :: u in nodes && u != self ==> u in stored)
  }

  ghost predicate Inv(st: State) {
    && Inverse(st)
    && st.self in st.nodes && st.nodes[st.self].id == LOCAL_ID
    && (forall i :: i in st.ids ==> i <= st.maxId)
    && LinksOk(st.links, st.ids)
    && StoredOk(st.self, st.nodes, st.stored)
  }

  /** A tracker created over an empty store. */
  function Fresh(self: Uuid, addr: string): State {
    Insert(State(self, 0, map[], map[], map[], map[]), Node(self, LOCAL_ID, addr))
  }

  lemma FreshInv(self: Uuid, addr: string)
    ensures Inv(Fresh(self, addr))
  {
  }

  /** Inserting a node under its own UUID keeps the maps inverse when its id is that node's
      already, or nobody's. */
  lemma InsertInverse(st: State, node: Node)
    requires Inverse(st)
    requires if node.uuid in st.nodes then node.id == st.nodes[node.uuid].id else node.id !in st.ids
    ensures Inverse(Insert(st, node))
  {
    var st' := Insert(st, node);
    forall u | u in st'.nodes
      ensures st'.nodes[u].uuid == u && st'.nodes[u].id in st'.ids && st'.ids[st'.nodes[u].id] == u
    {
      if u != node.uuid { assert u in st.nodes && st.ids[st.nodes[u].id] == u; }
    }
    forall i | i in st'.ids ensures st'.ids[i] in st'.nodes && st'.nodes[st'.ids[i]].id == i {
      if i != node.id { assert i in st.ids && st.nodes[st.ids[i]].id == i; }
    }
  }

  /** The id a node has or gets. */
  function IdFor(st: State, uuid: Uuid): nat { if uuid in st.nodes then st.nodes[uuid].id else st.maxId + 1 }

  /** The state with a node stored and inserted under that id. */
  function Filed(st: State, uuid: Uuid, addr: string): State {
    var node := Node(uuid, IdFor(st, uuid), addr);
    Insert(st.(stored := st.stored[uuid := node], maxId := if uuid in st.nodes then st.maxId else st.maxId + 1), node)
  }

  lemma RegisterIs(st: State, uuid: Uuid, addr: string)
    ensures Register(st, uuid, addr) ==
      if uuid in st.nodes && addr == st.nodes[uuid].addr then (st, true)
      else if AddrOk(addr) then (Filed(st, uuid, addr), true)
      else (if uuid in st.nodes then st else st.(maxId := st.maxId + 1), false)
  {
  }

  /** Registration keeps the invariant, moves no id and never hands out an id that was used. */
  lemma RegisterInv(st: State, uuid: Uuid, addr: string)
    requires Inv(st)
    ensures Inv(Register(st, uuid, addr).0)
    ensures forall u :: u in st.nodes ==>
      u in Register(st, uuid, addr).0.nodes && Register(st, uuid, addr).0.nodes[u].id == st.nodes[u].id
    ensures Register(st, uuid, addr).1 && uuid !in st.nodes ==> Register(st, uuid, addr).0.nodes[uuid].id > st.maxId
  {
    RegisterIs(st, uuid, addr);
    RegisterIds(st, uuid, addr);
    FiledInv(st, uuid, addr);
    CountedInv(st);
  }

  /** What registration leaves, in memory and in the storage: the node with the given address, under
      its old id or the next one, and all other nodes as they were. It fails exactly on a new address
      that is too long, and then only the counter may have moved. */
  lemma RegisterFiles(st: State, uuid: Uuid, addr: string)
    ensures var r := Register(st, uuid, addr);
      && (r.1 <==> |addr| < 256 || (uuid in st.nodes && st.nodes[uuid].addr == addr))
      && (r.1 ==> uuid in r.0.nodes && r.0.nodes[uuid].addr == addr)
      && (r.1 ==> r.0.nodes[uuid].id == if uuid in st.nodes then st.nodes[uuid].id else st.maxId + 1)
      && (r.1 && !(uuid in st.nodes && st.nodes[uuid].addr == addr) ==>
            uuid in r.0.stored && r.0.stored[uuid] == r.0.nodes[uuid] == Node(uuid, r.0.nodes[uuid].id, addr))
      && (forall u :: u != uuid || !r.1 || (u in st.nodes && st.nodes[u].addr == addr) ==>
            && (u in r.0.nodes <==> u in st.nodes) && (u in st.nodes ==> r.0.nodes[u] == st.nodes[u])
            && (u in r.0.stored <==> u in st.stored) && (u in st.stored ==> r.0.stored[u] == st.stored[u]))
      && r.0.maxId == (if uuid in st.nodes then st.maxId else st.maxId + 1)
      && r.0.self == st.self && r.0.links == st.links
  {
  }

  lemma RegisterIds(st: State, uuid: Uuid, addr: string)
    ensures forall u :: u in st.nodes ==>
      u in Register(st, uuid, addr).0.nodes && Register(st, uuid, addr).0.nodes[u].id == st.nodes[u].id
    ensures Register(st, uuid, addr).1 && uuid !in st.nodes ==> Register(st, uuid, addr).0.nodes[uuid].id > st.maxId
  {
  }

  lemma CountedInv(st: State)
    requires Inv(st)
    ensures Inv(st.(maxId := st.maxId + 1))
  {
  }

  lemma FiledInv(st: State, uuid: Uuid, addr: string)
    requires Inv(st)
    ensures Inv(Filed(st, uuid, addr))
  {
    var node, st' := Node(uuid, IdFor(st, uuid), addr), Filed(st, uuid, addr);
    InsertInverse(st, node);
    assert st'.nodes == Insert(st, node).nodes && st'.ids == Insert(st, node).ids;
    assert Inverse(st');
    assert LinksOk(st'.links, st'.ids);
    StoredAfter(st.self, st.nodes, st.stored, node);
  }

  lemma StoredAfter(self: Uuid, nodes: map<Uuid, Node>, stored: map<Uuid, Node>, node: Node)
    requires StoredOk(self, nodes, stored)
    ensures StoredOk(self, nodes[node.uuid := node], stored[node.uuid := node])
  {
  }

  lemma LinkStateInv(st: State, p: Uuid, q: Uuid, connected: bool, weight: nat)
    requires Inv(st)
    ensures Inv(LinkState(st, p, q, connected, weight).0)
  {
  }

  lemma ApplyInv(st: State, op: Op)
    requires Inv(st)
    ensures Inv(Apply(st, op)) && st.maxId <= Apply(st, op).maxId
    ensures forall u :: u in st.nodes ==> u in Apply(st, op).nodes && Apply(st, op).nodes[u].id == st.nodes[u].id
  {
    match op {
      case OpRegister(uuid, addr) => RegisterInv(st, uuid, addr);
      case OpLink(p, q, connected, weight) => LinkStateInv(st, p, q, connected, weight);
    }
  }

  /** In every run from an empty store the invariant holds and no registered node changes its id. */
  lemma {:induction false} RunInv(st: State, ops: seq<Op>)
    requires Inv(st)
    ensures Inv(RunOps(st, ops)) && st.maxId <= RunOps(st, ops).maxId
    ensures forall u :: u in st.nodes ==> u in RunOps(st, ops).nodes && RunOps(st, ops).nodes[u].id == st.nodes[u].id
    decreases |ops|
  {
    if ops != [] {
      ApplyInv(st, ops[0]);
      RunInv(Apply(st, ops[0]), ops[1..]);
    }
  }

  // ------------------------------------------------------------------ meaning

  predicate Registered(st: State, p: Pair) { p.lo in st.nodes && p.hi in st.nodes }

  function KeyFor(st: State, p: Pair): Key
    requires Registered(st, p)
  {
    KeyOf(st.nodes[p.lo].id, st.nodes[p.hi].id)
  }

  /** The tracked weight of an undirected link between two UUIDs. */
  function WeightOf(st: State, p: Pair): Option<nat> {
    if Registered(st, p) && KeyFor(st, p) in st.links then Some(st.links[KeyFor(st, p)].weight) else None
  }

  lemma KeyIdentifies(i: nat, j: nat, k: nat, l: nat)
    ensures KeyOf(i, j) == KeyOf(k, l) <==> (i == k && j == l) || (i == l && j == k)
  {
  }

  /** A pair with an end that is not registered is not linked, whatever id that end gets. */
  lemma UnregisteredUnlinked(st: State, i: nat, j: nat)
    requires Inv(st) && (i !in st.ids || j !in st.ids)
    ensures KeyOf(i, j) !in st.links
  {
    if KeyOf(i, j) in st.links {
      KeyIdentifies(st.links[KeyOf(i, j)].id0, st.links[KeyOf(i, j)].id1, i, j);
    }
  }

  /** An end that was not registered gives no link. */
  lemma FiledMeaning(st: State, uuid: Uuid, addr: string, p: Pair)
    requires Inv(st)
    ensures WeightOf(Filed(st, uuid, addr), p) == WeightOf(st, p)
  {
    var st' := Filed(st, uuid, addr);
    assert st'.links == st.links;
    if Registered(st', p) && !Registered(st, p) {
      UnregisteredUnlinked(st, st'.nodes[p.lo].id, st'.nodes[p.hi].id);
    }
  }

  lemma RegisterMeaning(st: State, uuid: Uuid, addr: string, p: Pair)
    requires Inv(st)
    ensures WeightOf(Register(st, uuid, addr).0, p) == WeightOf(st, p)
  {
    RegisterIs(st, uuid, addr);
    FiledMeaning(st, uuid, addr, p);
  }

  /** A link update touches exactly the undirected link between its two nodes. */
  lemma LinkStateMeaning(st: State, x: Uuid, y: Uuid, connected: bool, weight: nat, p: Pair)
    requires Inv(st) && Normal(p)
    ensures LinkState(st, x, y, connected, weight).1 <==> x in st.nodes && y in st.nodes
    ensures LinkState(st, x, y, connected, weight).1 ==>
      WeightOf(LinkState(st, x, y, connected, weight).0, p) ==
        if p == Sorted(x, y) then (if connected then Some(weight) else None) else WeightOf(st, p)
    ensures !LinkState(st, x, y, connected, weight).1 ==> LinkState(st, x, y, connected, weight).0 == st
  {
    SortedIdentifies(p.lo, p.hi, x, y);
    if x in st.nodes && y in st.nodes && p.lo in st.nodes && p.hi in st.nodes {
      KeyIdentifies(st.nodes[p.lo].id, st.nodes[p.hi].id, st.nodes[x].id, st.nodes[y].id);
    }
  }

  // ------------------------------------------------------------------ applying a difference

  function RegisterAll(st: State, nodes: seq<Node>): (State, bool)
    decreases |nodes|
  {
    if nodes == [] then (st, true) else
    var r := Register(st, nodes[0].uuid, nodes[0].addr);
    if !r.1 then r else RegisterAll(r.0, nodes[1..])
  }

  function LinkAll(st: State, es: seq<Edge>): (State, bool)
    decreases |es|
  {
    if es == [] then (st, true) else
    var r := LinkState(st, es[0].u, es[0].v, true, es[0].weight);
    if !r.1 then r else LinkAll(r.0, es[1..])
  }

  /** `mdv_tracker_topodiff_add` */
  function TopodiffAdd(st: State, diff: Topo): (State, bool)
    requires Indexed(diff.links, |diff.nodes|)
  {
    var r := RegisterAll(st, diff.nodes);
    if !r.1 then r else LinkAll(r.0, Graph(diff))
  }

  ghost predicate AddrsOk(nodes: seq<Node>) { forall k :: 0 <= k < |nodes| ==> AddrOk(nodes[k].addr) }

  /** Registering a node with a short address succeeds. */
  lemma RegisterOk(st: State, node: Node)
    requires Inv(st) && AddrOk(node.addr)
    ensures Register(st, node.uuid, node.addr).1 && Inv(Register(st, node.uuid, node.addr).0)
    ensures forall u :: u in st.nodes || u == node.uuid ==> u in Register(st, node.uuid, node.addr).0.nodes
  {
    RegisterInv(st, node.uuid, node.addr);
  }

  lemma {:induction false} RegisterAllMeaning(st: State, nodes: seq<Node>, p: Pair)
    requires Inv(st) && AddrsOk(nodes)
    ensures RegisterAll(st, nodes).1 && Inv(RegisterAll(st, nodes).0)
    ensures forall u :: u in st.nodes ==> u in RegisterAll(st, nodes).0.nodes
    ensures forall k :: 0 <= k < |nodes| ==> nodes[k].uuid in RegisterAll(st, nodes).0.nodes
    ensures WeightOf(RegisterAll(st, nodes).0, p) == WeightOf(st, p)
    decreases |nodes|
  {
    if nodes != [] {
      var next := Register(st, nodes[0].uuid, nodes[0].addr).0;
      RegisterOk(st, nodes[0]);
      RegisterAllMeaning(next, nodes[1..], p);
      RegisterMeaning(st, nodes[0].uuid, nodes[0].addr, p);
    }
  }

  lemma {:induction false} LinkAllMeaning(st: State, es: seq<Edge>, p: Pair)
    requires Inv(st) && Normal(p)
    requires forall e :: e in es ==> e.u in st.nodes && e.v in st.nodes
    ensures LinkAll(st, es).1 && Inv(LinkAll(st, es).0)
    ensures WeightOf(LinkAll(st, es).0, p) == if LastWeight(es, p).Some? then LastWeight(es, p) else WeightOf(st, p)
    decreases |es|
  {
    if es != [] {
      var next := LinkState(st, es[0].u, es[0].v, true, es[0].weight).0;
      assert es[0] in es;
      LinkStateInv(st, es[0].u, es[0].v, true, es[0].weight);
      LinkStateMeaning(st, es[0].u, es[0].v, true, es[0].weight, p);
      LinkAllMeaning(next, es[1..], p);
      LastWeightCons(es, p);
    }
  }

  /** Applying a topology overwrites the links it names and no others. */
  lemma TopodiffMeaning(st: State, diff: Topo, p: Pair)
    requires Inv(st) && Indexed(diff.links, |diff.nodes|) && AddrsOk(diff.nodes) && Normal(p)
    ensures TopodiffAdd(st, diff).1 && Inv(TopodiffAdd(st, diff).0)
    ensures WeightOf(TopodiffAdd(st, diff).0, p) ==
      if LastWeight(Graph(diff), p).Some? then LastWeight(Graph(diff), p) else WeightOf(st, p)
  {
    RegisterAllMeaning(st, diff.nodes, p);
    var es := Graph(diff);
    var known := RegisterAll(st, diff.nodes).0.nodes;
    forall e | e in es ensures e.u in known && e.v in known {
      var k :| 0 <= k < |es| && es[k] == e;
    }
    LinkAllMeaning(RegisterAll(st, diff.nodes).0, es, p);
  }

  /** The address the nodes give to a UUID, the last one if there are several. */
  function GivenAddr(nodes: seq<Node>, u: Uuid): Option<string>
    decreases |nodes|
  {
    if nodes == [] then None
    else
      var rest := GivenAddr(nodes[1..], u);
      if rest.Some? then rest else if nodes[0].uuid == u then Some(nodes[0].addr) else None
  }

  lemma {:induction false} GivenAt(nodes: seq<Node>, k: nat)
    requires k < |nodes| && DistinctUuids(nodes)
    ensures GivenAddr(nodes, nodes[k].uuid) == Some(nodes[k].addr)
    decreases |nodes|
  {
    if k > 0 { GivenAt(nodes[1..], k - 1); } else { NotGiven(nodes[1..], nodes[0].uuid); }
  }

  lemma {:induction false} NotGiven(nodes: seq<Node>, u: Uuid)
    requires forall k :: 0 <= k < |nodes| ==> nodes[k].uuid != u
    ensures GivenAddr(nodes, u) == None
    decreases |nodes|
  {
    if nodes != [] { NotGiven(nodes[1..], u); }
  }

  function AddrOf(st: State, u: Uuid): Option<string> { if u in st.nodes then Some(st.nodes[u].addr) else None }

  lemma RegisterAddr(st: State, node: Node, u: Uuid)
    requires AddrOk(node.addr)
    ensures Register(st, node.uuid, node.addr).1
    ensures AddrOf(Register(st, node.uuid, node.addr).0, u) == if u == node.uuid then Some(node.addr) else AddrOf(st, u)
  {
  }

  lemma {:induction false} RegisterAllAddrs(st: State, nodes: seq<Node>, u: Uuid)
    requires AddrsOk(nodes)
    ensures var given := GivenAddr(nodes, u);
      AddrOf(RegisterAll(st, nodes).0, u) == if given.Some? then given else AddrOf(st, u)
    decreases |nodes|
  {
    if nodes != [] {
      RegisterAddr(st, nodes[0], u);
      RegisterAllAddrs(Register(st, nodes[0].uuid, nodes[0].addr).0, nodes[1..], u);
    }
  }

  lemma {:induction false} LinkAllKeepsNodes(st: State, es: seq<Edge>)
    ensures LinkAll(st, es).0.nodes == st.nodes && LinkAll(st, es).0.stored == st.stored
    decreases |es|
  {
    if es != [] {
      var r := LinkState(st, es[0].u, es[0].v, true, es[0].weight);
      if r.1 { LinkAllKeepsNodes(r.0, es[1..]); }
    }
  }

  /** Applying a topology gives each of its nodes the address it has there, and changes no other. */
  lemma TopodiffAddrs(st: State, diff: Topo, u: Uuid)
    requires Indexed(diff.links, |diff.nodes|) && AddrsOk(diff.nodes)
    ensures var given := GivenAddr(diff.nodes, u);
      AddrOf(TopodiffAdd(st, diff).0, u) == if given.Some? then given else AddrOf(st, u)
    ensures DistinctUuids(diff.nodes) ==> forall k :: 0 <= k < |diff.nodes| ==>
      AddrOf(TopodiffAdd(st, diff).0, diff.nodes[k].uuid) == Some(diff.nodes[k].addr)
  {
    var r := RegisterAll(st, diff.nodes).0;
    LinkAllKeepsNodes(r, Graph(diff));
    RegisterAllAddrs(st, diff.nodes, u);
    if DistinctUuids(diff.nodes) {
      forall k | 0 <= k < |diff.nodes|
        ensures AddrOf(TopodiffAdd(st, diff).0, diff.nodes[k].uuid) == Some(diff.nodes[k].addr)
      {
        RegisterAllAddrs(st, diff.nodes, diff.nodes[k].uuid);
        GivenAt(diff.nodes, k);
      }
    }
  }

  /** The tracker knows exactly these links. */
  ghost predicate Holds(st: State, pairs: set<Pair>) {
    forall p :: Normal(p) ==> (WeightOf(st, p).Some? <==> p in pairs)
  }

  /** The tracked weights are those of the edges. */
  ghost predicate Tracks(st: State, es: seq<Edge>) {
    forall p :: Normal(p) ==> WeightOf(st, p) == LastWeight(es, p)
  }

  lemma TracksHolds(st: State, es: seq<Edge>)
    requires Tracks(st, es)
    ensures Holds(st, Pairs(es))
  {
    forall p | Normal(p) ensures WeightOf(st, p).Some? <==> p in Pairs(es) { LastWeightPairs(es, p); }
  }

  /** Topology merge: applying the difference of `a` and `b` changes exactly the weights the difference
      gives. So a tracker that knows the links of `b` ends with exactly the links of both. */
  lemma MergeHoldsUnion(st: State, a: Topo, b: Topo, ab: Pair, diff: Topo, p: Pair)
    requires Inv(st) && Valid(a) && Valid(b) && Normal(p)
    requires Indexed(diff.links, |diff.nodes|) && AddrsOk(diff.nodes) && Graph(diff) == DiffEdges(a, b, ab)
    ensures TopodiffAdd(st, diff).1 && Inv(TopodiffAdd(st, diff).0)
    ensures var given := DiffWeight(Graph(a), Graph(b), ab, p);
      WeightOf(TopodiffAdd(st, diff).0, p) == if given.Some? then given else WeightOf(st, p)
    ensures Holds(st, Pairs(Graph(b))) ==>
      (WeightOf(TopodiffAdd(st, diff).0, p).Some? <==> p in Pairs(Graph(a)) + Pairs(Graph(b)))
  {
    TopodiffMeaning(st, diff, p);
    DiffWeights(a, b, ab, p);
    LastWeightPairs(Graph(a), p);
  }

  /** What the receiver of a difference ends with, when each pair is linked at most once: of the link
      between the two nodes the sender's weight, of all others its own weight before the sender's. */
  function MergedWeight(sent: Option<nat>, own: Option<nat>, between: bool): Option<nat> {
    if sent.Some? && (between || own.None?) then sent else own
  }

  lemma MergeWeights(st: State, a: Topo, b: Topo, ab: Pair, diff: Topo, p: Pair)
    requires Inv(st) && Valid(a) && Valid(b) && Tracks(st, Graph(b)) && Normal(p)
    requires Simple(Graph(a)) && Simple(Graph(b))
    requires Indexed(diff.links, |diff.nodes|) && AddrsOk(diff.nodes) && Graph(diff) == DiffEdges(a, b, ab)
    ensures TopodiffAdd(st, diff).1
    ensures WeightOf(TopodiffAdd(st, diff).0, p) ==
      MergedWeight(LastWeight(Graph(a), p), LastWeight(Graph(b), p), p == ab)
  {
    MergeHoldsUnion(st, a, b, ab, diff, p);
    SimpleWeight(Graph(a), p);
    SimpleWeight(Graph(b), p);
    LastWeightPairs(Graph(a), p);
    LastWeightPairs(Graph(b), p);
  }

  /** The two sides end with the same weight exactly when they do not start with different ones. */
  lemma MergedSame(wa: Option<nat>, wb: Option<nat>, between: bool)
    ensures MergedWeight(wb, wa, between) == MergedWeight(wa, wb, between) <==>
      (wa.Some? && wb.Some? ==> wa == wb)
  {
  }

  ghost predicate SameWeights(s: State, t: State) {
    forall p :: Normal(p) ==> WeightOf(s, p) == WeightOf(t, p)
  }

  predicate Agree(ea: seq<Edge>, eb: seq<Edge>, p: Pair) {
    LastWeight(ea, p).Some? && LastWeight(eb, p).Some? ==> LastWeight(ea, p) == LastWeight(eb, p)
  }

  /** Exchanging differences in both directions leaves the two trackers with the same links. */
  lemma MergeBothWays(sa: State, sb: State, a: Topo, b: Topo, ab: Pair, toB: Topo, toA: Topo, p: Pair)
    requires Inv(sa) && Inv(sb) && Valid(a) && Valid(b) && Normal(p)
    requires Holds(sa, Pairs(Graph(a))) && Holds(sb, Pairs(Graph(b)))
    requires Indexed(toB.links, |toB.nodes|) && AddrsOk(toB.nodes) && Graph(toB) == DiffEdges(a, b, ab)
    requires Indexed(toA.links, |toA.nodes|) && AddrsOk(toA.nodes) && Graph(toA) == DiffEdges(b, a, ab)
    ensures WeightOf(TopodiffAdd(sa, toA).0, p).Some? <==> WeightOf(TopodiffAdd(sb, toB).0, p).Some?
  {
    MergeHoldsUnion(sa, b, a, ab, toA, p);
    MergeHoldsUnion(sb, a, b, ab, toB, p);
  }

  /** With the same weights, too, exactly when they agreed on the links they shared: of the link
      between the two nodes each takes the other's weight, of any other shared link each keeps its own. */
  lemma MergeBothWaysIff(sa: State, sb: State, a: Topo, b: Topo, ab: Pair, toB: Topo, toA: Topo)
    requires Inv(sa) && Inv(sb) && Valid(a) && Valid(b) && Tracks(sa, Graph(a)) && Tracks(sb, Graph(b))
    requires Simple(Graph(a)) && Simple(Graph(b))
    requires Indexed(toB.links, |toB.nodes|) && AddrsOk(toB.nodes) && Graph(toB) == DiffEdges(a, b, ab)
    requires Indexed(toA.links, |toA.nodes|) && AddrsOk(toA.nodes) && Graph(toA) == DiffEdges(b, a, ab)
    ensures SameWeights(TopodiffAdd(sa, toA).0, TopodiffAdd(sb, toB).0) <==>
      forall p :: Normal(p) ==> Agree(Graph(a), Graph(b), p)
  {
    var na, nb := TopodiffAdd(sa, toA).0, TopodiffAdd(sb, toB).0;
    forall p | Normal(p)
      ensures WeightOf(na, p) == WeightOf(nb, p) <==> Agree(Graph(a), Graph(b), p)
    {
      MergeWeights(sa, b, a, ab, toA, p);
      MergeWeights(sb, a, b, ab, toB, p);
      MergedSame(LastWeight(Graph(a), p), LastWeight(Graph(b), p), p == ab);
    }
  }

  /** A tracker on node x that knows node y and the link between them. */
  function Linked(x: Uuid, y: Uuid, w: nat): State {
    LinkState(Register(Fresh(x, ""), y, "").0, x, y, true, w).0
  }

  function LinkedTopo(x: Uuid, y: Uuid, w: nat): Topo { Topo([Node(x, 0, ""), Node(y, 1, "")], [Link(0, 1, w)]) }

  lemma LinkedTracks(x: Uuid, y: Uuid, w: nat, p: Pair)
    requires x != y && Normal(p)
    ensures Inv(Linked(x, y, w)) && Valid(LinkedTopo(x, y, w)) && Graph(LinkedTopo(x, y, w)) == [Edge(x, y, w)]
    ensures WeightOf(Linked(x, y, w), p) == LastWeight([Edge(x, y, w)], p)
  {
    var st := Register(Fresh(x, ""), y, "").0;
    FreshInv(x, "");
    RegisterInv(Fresh(x, ""), y, "");
    LinkStateInv(st, x, y, true, w);
    LinkStateMeaning(st, x, y, true, w, p);
    assert WeightOf(st, p) == None;
    LastWeightSnoc([], Edge(x, y, w), p);
    assert [] + [Edge(x, y, w)] == [Edge(x, y, w)];
  }

  /** The difference of two such topologies is the first. */
  lemma LinkedDiff(a: Topo, b: Topo, e: Edge, ab: Pair)
    requires Valid(a) && Valid(b) && Graph(a) == [e] && PairOf(e) == ab
    ensures DiffEdges(a, b, ab) == Graph(a)
  {
    var known := Pairs(Graph(b));
    assert e in Graph(a);
    DiffEdgesOwn(a, b, ab);
    SelectedEdges(a.nodes, a.links, [e], known, ab, |a.links|);
    assert Chosen([e], known, ab, 0);
    assert ChosenEdges([e], known, ab, 0) == [] && [] + [e] == [e];
    assert ChosenEdges([e], known, ab, |a.links|) == [e];
  }

  lemma LinkedAll(x: Uuid, y: Uuid, w: nat)
    requires x != y
    ensures var t, st := LinkedTopo(x, y, w), Linked(x, y, w);
      Inv(st) && Valid(t) && AddrsOk(t.nodes) && Graph(t) == [Edge(x, y, w)] && Tracks(st, Graph(t))
  {
    LinkedTracks(x, y, w, Sorted(x, y));
    forall p | Normal(p) ensures WeightOf(Linked(x, y, w), p) == LastWeight([Edge(x, y, w)], p) {
      LinkedTracks(x, y, w, p);
    }
  }

  /** A tracker that knows one link takes the weight the other end sends. */
  lemma TakesWeight(st: State, a: Topo, b: Topo, e: Edge, f: Edge, ab: Pair)
    requires Inv(st) && Valid(a) && Valid(b) && AddrsOk(a.nodes) && Graph(a) == [e] && Graph(b) == [f]
    requires PairOf(e) == PairOf(f) == ab && Tracks(st, Graph(b)) && Normal(ab)
    ensures Graph(a) == DiffEdges(a, b, ab) && WeightOf(TopodiffAdd(st, a).0, ab) == Some(e.weight)
  {
    LinkedDiff(a, b, e, ab);
    MergeWeights(st, a, b, ab, a, ab);
    LastWeightSnoc([], e, ab);
    assert [] + [e] == [e];
  }

  /** Two trackers that know the link between them with different weights swap the weights. */
  lemma WeightsSwap(x: Uuid, y: Uuid, w: nat, v: nat)
    requires x != y
    ensures var a, b, ab := LinkedTopo(x, y, w), LinkedTopo(y, x, v), Sorted(x, y);
      && Valid(a) && Valid(b) && Graph(a) == DiffEdges(a, b, ab) && Graph(b) == DiffEdges(b, a, ab)
      && Tracks(Linked(x, y, w), Graph(a)) && Tracks(Linked(y, x, v), Graph(b))
      && WeightOf(TopodiffAdd(Linked(x, y, w), b).0, ab) == Some(v)
      && WeightOf(TopodiffAdd(Linked(y, x, v), a).0, ab) == Some(w)
  {
    var a, b, ab := LinkedTopo(x, y, w), LinkedTopo(y, x, v), Sorted(x, y);
    LinkedAll(x, y, w);
    LinkedAll(y, x, v);
    SortedIdentifies(x, y, y, x);
    TakesWeight(Linked(x, y, w), b, a, Edge(y, x, v), Edge(x, y, w), ab);
    TakesWeight(Linked(y, x, v), a, b, Edge(x, y, w), Edge(y, x, v), ab);
  }

  // ------------------------------------------------------------------ restart

  /** What the storage of a run looks like: distinct ids, 0 for the local node only. */
  ghost predicate StoreOk(self: Uuid, stored: map<Uuid, Node>) {
    && (forall u :: u in stored ==> stored[u].uuid == u && (stored[u].id == LOCAL_ID <==> u == self))
    && (forall u, v :: u in stored && v in stored && stored[u].id == stored[v].id ==> u == v)
  }

  lemma RunLeavesStoreOk(st: State)
    requires Inv(st)
    ensures StoreOk(st.self, st.stored)
  {
    forall u | u in st.stored ensures st.stored[u].uuid == u && (st.stored[u].id == LOCAL_ID <==> u == st.self) {
      assert st.nodes[u] == st.stored[u];
      assert st.ids[LOCAL_ID] == st.self;
    }
    forall u, v | u in st.stored && v in st.stored && st.stored[u].id == st.stored[v].id ensures u == v {
      assert st.ids[st.nodes[u].id] == u && st.ids[st.nodes[v].id] == v;
    }
  }

  /** `mdv_tracker_load`: the local node, then the stored ones under their stored ids; the id
      counter is raised for the local node only. */
  ghost predicate Loaded(self: Uuid, addr: string, stored: map<Uuid, Node>, st: State) {
    && st.self == self && st.maxId == LOCAL_ID && st.links == map[] && st.stored == stored
    && st.nodes == map[self := Node(self, LOCAL_ID, addr)] + stored
    && Inverse(st)
  }

  function Newcomers(base: nat, n: nat): seq<Op>
    decreases n
  {
    if n == 0 then [] else [OpRegister(Uuid(base, 0), "")] + Newcomers(base + 1, n - 1)
  }

  /** Registering n unknown nodes uses up the next n ids, whoever holds them. */
  lemma {:induction false} NewcomersTakeIds(st: State, base: nat, n: nat)
    requires forall u :: u in st.nodes ==> u.w0 < base
    ensures var st' := RunOps(st, Newcomers(base, n));
      && st'.maxId == st.maxId + n
      && (forall u :: u in st.nodes ==> u in st'.nodes && st'.nodes[u] == st.nodes[u])
      && (n > 0 ==> st'.maxId in st'.ids && st'.ids[st'.maxId].w0 >= base)
    decreases n
  {
    if n > 0 {
      var ops := Newcomers(base, n);
      var next := Apply(st, ops[0]);
      assert ops[1..] == Newcomers(base + 1, n - 1);
      NewcomersTakeIds(next, base + 1, n - 1);
      if n == 1 { assert RunOps(next, ops[1..]) == next; }
    }
  }

  lemma {:induction false} AboveAll(us: set<Uuid>) returns (base: nat)
    ensures forall u :: u in us ==> u.w0 < base
    decreases us
  {
    base := 0;
    if us != {} {
      var u :| u in us;
      base := AboveAll(us - {u});
      if base <= u.w0 { base := u.w0 + 1; }
    }
  }

  /** After a restart ids stay unique in every run exactly when the storage held no other node. */
  lemma RestartKeepsIdsIff(self: Uuid, addr: string, stored: map<Uuid, Node>, st: State)
    requires StoreOk(self, stored) && Loaded(self, addr, stored, st)
    ensures (forall ops :: Inverse(RunOps(st, ops))) <==> stored.Keys <= {self}
  {
    if stored.Keys <= {self} {
      assert Inv(st) by {
        assert st.nodes.Keys == {self};
        assert st.nodes[self].id == LOCAL_ID;
        forall i | i in st.ids ensures i <= st.maxId { assert st.ids[i] == self; }
      }
      forall ops ensures Inverse(RunOps(st, ops)) { RunInv(st, ops); }
    } else {
      var n :| n in stored && n != self;
      var base := AboveAll(st.nodes.Keys);
      var k := stored[n].id;
      NewcomersTakeIds(st, base, k);
      var st' := RunOps(st, Newcomers(base, k));
      assert st'.nodes[n].id == k == st'.maxId && st'.ids[k].w0 >= base > n.w0;
      assert !Inverse(st');
    }
  }
}
