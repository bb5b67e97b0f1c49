/**
 Broadcast flooding: a node that receives a broadcast forwards it to those of its peers that
 are not in the `notified` set travelling with the message, after adding them to that set.
 Links are fixed while one broadcast travels, channels are reliable, and messages are delivered
 in any order.
 */
module Flood {
  import opened Uuids

  datatype Msg = Msg(to: Uuid, notified: set<Uuid>)

  /** Messages in flight, and the nodes that have handled the broadcast. */
  datatype Net = Net(inflight: seq<Msg>, handled: set<Uuid>)

  type Links = map<Uuid, set<Uuid>>

  function Peers(links: Links, node: Uuid): set<Uuid> {
    if node in links then links[node] else {}
  }

  /** `out` holds one message for each of `peers`, in any order, all carrying `notified`. */
  ghost predicate Posted(out: seq<Msg>, peers: set<Uuid>, notified: set<Uuid>) {
    && |out| == |peers|
    && (forall m :: m in out ==> m.to in peers && m.notified == notified)
    && (forall p :: p in peers ==> Msg(p, notified) in out)
  }

  /** Delivery of message `i` at a node with the given peers, which posts `out`. */
  ghost predicate Delivery(s: Net, i: nat, peers: set<Uuid>, out: seq<Msg>, s': Net) {
    && i < |s.inflight|
    && Posted(out, peers - s.inflight[i].notified, s.inflight[i].notified + (peers - s.inflight[i].notified))
    && s' == Net(s.inflight[..i] + s.inflight[i + 1..] + out, s.handled + {s.inflight[i].to})
  }

  ghost predicate Step(links: Links, s: Net, s': Net) {
    exists i: nat, out :: i < |s.inflight| && Delivery(s, i, Peers(links, s.inflight[i].to), out, s')
  }

  /** Consecutive states are one delivery apart. */
  ghost predicate Run(links: Links, trace: seq<Net>)
    decreases |trace|
  {
    var n := |trace| - 1;
    n >= 0 && (n > 0 ==> Run(links, trace[..n]) && Step(links, trace[n - 1], trace[n]))
  }

  ghost predicate Start(s: Net, first: set<Uuid>, notified: set<Uuid>) {
    s.handled == {} && Posted(s.inflight, first, notified)
  }

  // ------------------------------------------------------------------ forwarding

  method Erase(peers0: set<Uuid>, entries: set<Uuid>) returns (peers: set<Uuid>)
    ensures peers == peers0 - entries
  {
    peers := peers0;
    var todo := entries;
    while todo != {}
      invariant todo <= entries && peers == peers0 - (entries - todo)
    {
      var entry :| entry in todo;
      peers, todo := peers - {entry}, todo - {entry};
    }
  }

  method Insert(notified0: set<Uuid>, entries: set<Uuid>) returns (notified: set<Uuid>)
    ensures notified == notified0 + entries
  {
    notified := notified0;
    var todo := entries;
    while todo != {}
      invariant todo <= entries && notified == notified0 + (entries - todo)
    {
      var entry :| entry in todo;
      notified, todo := notified + {entry}, todo - {entry};
    }
  }

  lemma PostedAppend(out: seq<Msg>, peers: set<Uuid>, notified: set<Uuid>, p: Uuid)
    requires Posted(out, peers, notified) && p !in peers
    ensures Posted(out + [Msg(p, notified)], peers + {p}, notified)
  {
    var out' := out + [Msg(p, notified)];
    assert Msg(p, notified) == out'[|out|];
    forall q | q in peers ensures Msg(q, notified) in out' {
      assert Msg(q, notified) in out;
    }
  }

  /** Each connected peer listed in the event sends the message on (`mdv_peer_evt_broadcast_post`). */
  method Post(peers: set<Uuid>, notified: set<Uuid>) returns (out: seq<Msg>)
    ensures Posted(out, peers, notified)
  {
    out := [];
    var todo := peers;
    assert peers - todo == {};
    while todo != {}
      invariant todo <= peers && Posted(out, peers - todo, notified)
    {
      var entry :| entry in todo;
      PostedAppend(out, peers - todo, notified, entry);
      assert peers - (todo - {entry}) == (peers - todo) + {entry};
      out, todo := out + [Msg(entry, notified)], todo - {entry};
    }
    assert peers - todo == peers;
  }

  /** The body of `mdv_tracker_evt_broadcast` once the topology is known: drop the notified
      peers, notify the rest, and post one message for each of them. */
  method Forward(peers0: set<Uuid>, notified0: set<Uuid>) returns (out: seq<Msg>, notified: set<Uuid>)
    ensures notified == notified0 + peers0
    ensures Posted(out, peers0 - notified0, notified)
  {
    var peers := Erase(peers0, notified0);
    notified, out := notified0, [];
    if peers != {} {
      notified := Insert(notified0, peers);
      assert notified == notified0 + peers0;
      out := Post(peers, notified);
    } else {
      assert forall p :: p in peers0 ==> p !in peers0 - notified0;
      assert notified == notified0 + peers0;
    }
  }

  // ------------------------------------------------------------------ coverage

  predicate Awaited(s: Net, node: Uuid) { exists m :: m in s.inflight && m.to == node }

  predicate Met(s: Net, node: Uuid) { node in s.handled || Awaited(s, node) }

  /** A path that starts at a first destination and then stays outside `avoid`. */
  ghost predicate Trail(links: Links, first: set<Uuid>, avoid: set<Uuid>, p: seq<Uuid>)
    decreases |p|
  {
    var n := |p| - 1;
    n >= 0 && if n == 0 then p[0] in first
              else Trail(links, first, avoid, p[..n]) && p[n] in Peers(links, p[n - 1]) && p[n] !in avoid
  }

  ghost predicate Reached(links: Links, first: set<Uuid>, avoid: set<Uuid>, node: Uuid) {
    exists p :: Trail(links, first, avoid, p) && p[|p| - 1] == node
  }

  lemma {:induction false} TrailAvoidsLess(
    links: Links, first: set<Uuid>, avoid: set<Uuid>, less: set<Uuid>, p: seq<Uuid>)
    requires Trail(links, first, avoid, p) && less <= avoid
    ensures Trail(links, first, less, p)
    decreases |p|
  {
    if |p| > 1 { TrailAvoidsLess(links, first, avoid, less, p[..|p| - 1]); }
  }

  lemma ReachedStep(links: Links, first: set<Uuid>, avoid: set<Uuid>, u: Uuid, v: Uuid)
    requires Reached(links, first, avoid, u) && v in Peers(links, u) && v !in avoid
    ensures Reached(links, first, avoid, v)
  {
    var p :| Trail(links, first, avoid, p) && p[|p| - 1] == u;
    var q := p + [v];
    assert q[..|p|] == p;
    assert Trail(links, first, avoid, q) && q[|q| - 1] == v;
  }

  /** Whoever a message lists as notified was notified from the start or has been met. */
  ghost predicate Backed(notified: set<Uuid>, s: Net) {
    forall m :: m in s.inflight ==> notified <= m.notified && forall v :: v in m.notified ==> v in notified || Met(s, v)
  }

  /** The peers of a node that handled the broadcast are accounted for. */
  ghost predicate Spread(links: Links, notified: set<Uuid>, s: Net) {
    forall u, v :: u in s.handled && v in Peers(links, u) ==> v in notified || Met(s, v)
  }

  ghost predicate FloodInv(links: Links, first: set<Uuid>, notified: set<Uuid>, s: Net) {
    && (forall v :: v in first ==> Met(s, v))
    && Backed(notified, s)
    && Spread(links, notified, s)
    && (forall v :: Met(s, v) ==> Reached(links, first, notified, v))
  }

  lemma InvStart(links: Links, first: set<Uuid>, notified: set<Uuid>, s: Net)
    requires Start(s, first, notified)
    ensures FloodInv(links, first, notified, s)
  {
    forall v | v in first ensures Met(s, v) {
      assert Msg(v, notified) in s.inflight;
    }
    forall v | Met(s, v) ensures Reached(links, first, notified, v) {
      assert Trail(links, first, notified, [v]);
    }
  }

  lemma DeliveryMembers(s: Net, i: nat, peers: set<Uuid>, out: seq<Msg>, s': Net)
    requires Delivery(s, i, peers, out, s')
    ensures forall m :: m in s'.inflight ==> m in s.inflight || m in out
    ensures forall m :: m in out ==> m in s'.inflight
    ensures forall v :: Met(s, v) ==> Met(s', v)
  {
    forall v | Met(s, v) ensures Met(s', v) {
      if v !in s.handled {
        var m :| m in s.inflight && m.to == v;
        var k :| 0 <= k < |s.inflight| && s.inflight[k] == m;
        if k < i { assert s'.inflight[k] == m; }
        if k > i { assert s'.inflight[k - 1] == m; }
      }
    }
  }

  /** After a delivery, everyone the forward names has been met. */
  lemma DeliveryMeets(links: Links, first: set<Uuid>, notified: set<Uuid>, s: Net, i: nat, out: seq<Msg>, s': Net)
    requires FloodInv(links, first, notified, s) && i < |s.inflight|
    requires Delivery(s, i, Peers(links, s.inflight[i].to), out, s')
    ensures forall v :: v in s.inflight[i].notified + Peers(links, s.inflight[i].to) ==> v in notified || Met(s', v)
  {
    var m0 := s.inflight[i];
    var unaware := Peers(links, m0.to) - m0.notified;
    DeliveryMembers(s, i, Peers(links, m0.to), out, s');
    forall v | v in m0.notified + Peers(links, m0.to) ensures v in notified || Met(s', v) {
      if v in unaware { assert Msg(v, m0.notified + unaware) in out; }
    }
  }

  /** After a delivery, whoever is newly met extends a trail by one link. */
  lemma DeliveryReaches(links: Links, first: set<Uuid>, notified: set<Uuid>, s: Net, i: nat, out: seq<Msg>, s': Net,
                        v: Uuid)
    requires FloodInv(links, first, notified, s) && i < |s.inflight|
    requires Delivery(s, i, Peers(links, s.inflight[i].to), out, s') && Met(s', v)
    ensures Reached(links, first, notified, v)
  {
    var m0 := s.inflight[i];
    assert Met(s, m0.to);
    DeliveryMembers(s, i, Peers(links, m0.to), out, s');
    if !Met(s, v) {
      var m :| m in s'.inflight && m.to == v;
      assert m !in s.inflight;
      assert m in out;
      assert notified <= m0.notified;
      ReachedStep(links, first, notified, m0.to, v);
    }
  }

  lemma BackedStep(notified: set<Uuid>, s: Net, i: nat, peers: set<Uuid>, out: seq<Msg>, s': Net)
    requires Backed(notified, s) && Delivery(s, i, peers, out, s')
    requires forall v :: v in s.inflight[i].notified + peers ==> v in notified || Met(s', v)
    ensures Backed(notified, s')
  {
    DeliveryMembers(s, i, peers, out, s');
    assert s.inflight[i] in s.inflight;
    forall m | m in s'.inflight
      ensures notified <= m.notified && forall v :: v in m.notified ==> v in notified || Met(s', v)
    {
      if m in s.inflight {
        forall v | v in m.notified ensures v in notified || Met(s', v) { assert v in notified || Met(s, v); }
      } else {
        assert m in out && m.notified == s.inflight[i].notified + (peers - s.inflight[i].notified);
      }
    }
  }

  lemma InvStep(links: Links, first: set<Uuid>, notified: set<Uuid>, s: Net, s': Net)
    requires FloodInv(links, first, notified, s) && Step(links, s, s')
    ensures FloodInv(links, first, notified, s')
  {
    var i: nat, out :| i < |s.inflight| && Delivery(s, i, Peers(links, s.inflight[i].to), out, s');
    var peers := Peers(links, s.inflight[i].to);
    DeliveryMembers(s, i, peers, out, s');
    DeliveryMeets(links, first, notified, s, i, out, s');
    BackedStep(notified, s, i, peers, out, s');
    forall v | Met(s', v) ensures Reached(links, first, notified, v) {
      DeliveryReaches(links, first, notified, s, i, out, s', v);
    }
  }

  lemma {:induction false} InvRun(links: Links, first: set<Uuid>, notified: set<Uuid>, trace: seq<Net>)
    requires Run(links, trace) && Start(trace[0], first, notified)
    ensures FloodInv(links, first, notified, trace[|trace| - 1])
    decreases |trace|
  {
    var n := |trace| - 1;
    if n == 0 {
      InvStart(links, first, notified, trace[0]);
    } else {
      InvRun(links, first, notified, trace[..n]);
      InvStep(links, first, notified, trace[n - 1], trace[n]);
    }
  }

  lemma {:induction false} TrailHandled(links: Links, first: set<Uuid>, notified: set<Uuid>, s: Net, p: seq<Uuid>)
    requires FloodInv(links, first, notified, s) && s.inflight == [] && Trail(links, first, notified, p)
    ensures p[|p| - 1] in s.handled
    decreases |p|
  {
    var n := |p| - 1;
    if n == 0 {
      assert Met(s, p[0]);
    } else {
      TrailHandled(links, first, notified, s, p[..n]);
      assert Met(s, p[n]);
    }
  }

  /** Flood coverage, exactly: once no message is in flight the nodes that handled the broadcast
      are those reachable from the first destinations by a path that stays outside the initial
      notified set. */
  lemma FloodExact(links: Links, first: set<Uuid>, notified: set<Uuid>, trace: seq<Net>, node: Uuid)
    requires Run(links, trace) && Start(trace[0], first, notified) && trace[|trace| - 1].inflight == []
    ensures node in trace[|trace| - 1].handled <==> Reached(links, first, notified, node)
  {
    var s := trace[|trace| - 1];
    InvRun(links, first, notified, trace);
    if Reached(links, first, notified, node) {
      var p :| Trail(links, first, notified, p) && p[|p| - 1] == node;
      TrailHandled(links, first, notified, s, p);
    }
    if node in s.handled { assert Met(s, node); }
  }

  lemma {:induction false} ClosedHandles(links: Links, first: set<Uuid>, handled: set<Uuid>, p: seq<Uuid>)
    requires first <= handled && forall u, v :: u in handled && v in Peers(links, u) ==> v in handled
    requires Trail(links, first, {}, p)
    ensures p[|p| - 1] in handled
    decreases |p|
  {
    var n := |p| - 1;
    if n > 0 { ClosedHandles(links, first, handled, p[..n]); }
  }

  /** A link-state broadcast starts with the notified set equal to the first destinations:
      then every node connected to them handles it. */
  lemma LinkStateReachesComponent(links: Links, first: set<Uuid>, trace: seq<Net>, node: Uuid)
    requires Run(links, trace) && Start(trace[0], first, first) && trace[|trace| - 1].inflight == []
    ensures node in trace[|trace| - 1].handled <==> Reached(links, first, {}, node)
  {
    var s := trace[|trace| - 1];
    InvRun(links, first, first, trace);
    if Reached(links, first, {}, node) {
      var p :| Trail(links, first, {}, p) && p[|p| - 1] == node;
      forall v | v in first ensures v in s.handled { assert Met(s, v); }
      forall u, v | u in s.handled && v in Peers(links, u) ensures v in s.handled {
        assert v in first || Met(s, v);
      }
      ClosedHandles(links, first, s.handled, p);
    }
    FloodExact(links, first, first, trace, node);
    if node in s.handled {
      var p :| Trail(links, first, first, p) && p[|p| - 1] == node;
      TrailAvoidsLess(links, first, first, {}, p);
    }
  }

  /** A path that may cross the first destinations again can be cut at the last of them. */
  lemma {:induction false} CutAtLast(links: Links, first: set<Uuid>, avoid: set<Uuid>, p: seq<Uuid>)
    requires Trail(links, first, avoid, p)
    ensures Reached(links, first, avoid + first, p[|p| - 1])
    decreases |p|
  {
    var n := |p| - 1;
    if p[n] in first {
      assert Trail(links, first, avoid + first, [p[n]]);
    } else {
      CutAtLast(links, first, avoid, p[..n]);
      ReachedStep(links, first, avoid + first, p[n - 1], p[n]);
    }
  }

  /** A path that meets only reached nodes avoids what is not reached. */
  lemma {:induction false} AvoidsUnreached(
    links: Links, first: set<Uuid>, avoid: set<Uuid>, more: set<Uuid>, p: seq<Uuid>)
    requires Trail(links, first, avoid, p)
    requires forall v :: v in more ==> !Reached(links, first, avoid, v)
    ensures Trail(links, first, avoid + more, p)
    decreases |p|
  {
    var n := |p| - 1;
    if n > 0 { AvoidsUnreached(links, first, avoid, more, p[..n]); }
    assert Reached(links, first, avoid, p[n]);
  }

  /** The flood is handled by exactly the nodes reached from its destinations around `avoid`. */
  ghost predicate HandledAround(links: Links, first: set<Uuid>, avoid: set<Uuid>, handled: set<Uuid>) {
    forall v :: v in handled <==> Reached(links, first, avoid, v)
  }

  lemma SegmentCovered(
    links: Links, first: set<Uuid>, avoid: set<Uuid>, notified: set<Uuid>, trace: seq<Net>, node: Uuid)
    requires Run(links, trace) && Start(trace[0], first, notified) && trace[|trace| - 1].inflight == []
    requires avoid <= notified
    requires forall v :: v in notified - avoid - first ==> !Reached(links, first, avoid, v)
    ensures node in trace[|trace| - 1].handled <==> Reached(links, first, avoid, node)
  {
    FloodExact(links, first, notified, trace, node);
    var rest := notified - avoid - first;
    if Reached(links, first, avoid, node) {
      var p :| Trail(links, first, avoid, p) && p[|p| - 1] == node;
      AvoidsUnreached(links, first, avoid, rest, p);
      CutAtLast(links, first, avoid + rest, p);
      var q :| Trail(links, first, avoid + rest + first, q) && q[|q| - 1] == node;
      TrailAvoidsLess(links, first, avoid + rest + first, notified, q);
      assert Reached(links, first, notified, node);
    }
    if Reached(links, first, notified, node) {
      var p :| Trail(links, first, notified, p) && p[|p| - 1] == node;
      TrailAvoidsLess(links, first, notified, avoid, p);
      assert Reached(links, first, avoid, node);
    }
  }

  /** A flood around `avoid` reaches its whole segment exactly when no further notified node, which
      it passes over, belongs to the segment. */
  lemma SegmentIff(links: Links, first: set<Uuid>, avoid: set<Uuid>, notified: set<Uuid>, trace: seq<Net>)
    requires Run(links, trace) && Start(trace[0], first, notified) && trace[|trace| - 1].inflight == []
    requires avoid <= notified
    ensures HandledAround(links, first, avoid, trace[|trace| - 1].handled) <==>
      forall v :: v in notified - avoid - first ==> !Reached(links, first, avoid, v)
  {
    var handled := trace[|trace| - 1].handled;
    if forall v :: v in notified - avoid - first ==> !Reached(links, first, avoid, v) {
      forall v ensures v in handled <==> Reached(links, first, avoid, v) {
        SegmentCovered(links, first, avoid, notified, trace, v);
      }
    } else {
      var v :| v in notified - avoid - first && Reached(links, first, avoid, v);
      FloodExact(links, first, notified, trace, v);
      assert v !in handled;
    }
  }

  /** Topology synchronisation starts two floods from `self`, both with `self` and its peers already
      notified: one to the peers other than the gateway, with what the own segment lacks, and one to
      the gateway, with what the remote segment lacks. The first is handled by exactly the own segment
      exactly when the gateway is not in it; the second by exactly the gateway's segment exactly when
      no other peer of `self` is in it; segments are joined without `self`. In any case the two
      together reach the whole component. */
  lemma {:induction false} TopologySyncReachesComponent(links: Links, self: Uuid, gateway: Uuid,
                                                        near: seq<Net>, far: seq<Net>)
    requires var known := Peers(links, self) + {self};
      && Run(links, near) && Start(near[0], known - {self, gateway}, known) && near[|near| - 1].inflight == []
      && Run(links, far) && Start(far[0], {gateway}, known) && far[|far| - 1].inflight == []
    ensures var others := Peers(links, self) - {self, gateway};
      && (HandledAround(links, others, {self}, near[|near| - 1].handled) <==>
          !(gateway in Peers(links, self) - {self} && Reached(links, others, {self}, gateway)))
      && (HandledAround(links, {gateway}, {self}, far[|far| - 1].handled) <==>
          forall v :: v in others ==> !Reached(links, {gateway}, {self}, v))
    ensures forall node :: Reached(links, {self}, {}, node) && node != self ==>
      node in near[|near| - 1].handled || node in far[|far| - 1].handled
  {
    var known := Peers(links, self) + {self};
    var others := Peers(links, self) - {self, gateway};
    assert others == known - {self, gateway};
    SegmentIff(links, others, {self}, known, near);
    SegmentIff(links, {gateway}, {self}, known, far);
    assert known - {self} - {gateway} == others;
    assert forall v :: v in known - {self} - others <==> v == gateway && v in Peers(links, self) - {self};
    forall node | Reached(links, {self}, {}, node) && node != self
      ensures node in near[|near| - 1].handled || node in far[|far| - 1].handled
    {
      SyncReachesAll(links, self, gateway, near, far, node);
    }
  }

  lemma {:induction false} SyncReachesAll(links: Links, self: Uuid, gateway: Uuid, near: seq<Net>, far: seq<Net>,
                                          node: Uuid)
    requires var known := Peers(links, self) + {self};
      && Run(links, near) && Start(near[0], known - {self, gateway}, known) && near[|near| - 1].inflight == []
      && Run(links, far) && Start(far[0], {gateway}, known) && far[|far| - 1].inflight == []
    requires Reached(links, {self}, {}, node) && node != self
    ensures node in near[|near| - 1].handled || node in far[|far| - 1].handled
  {
    var known := Peers(links, self) + {self};
    var s, t := near[|near| - 1], far[|far| - 1];
    InvRun(links, known - {self, gateway}, known, near);
    InvRun(links, {gateway}, known, far);
    forall v | v in known - {self, gateway} ensures v in s.handled { assert Met(s, v); }
    assert Met(t, gateway);
    var all := s.handled + t.handled + {self};
    forall u, v | u in all && v in Peers(links, u) ensures v in all {
      if u in s.handled { assert v in known || Met(s, v); }
      else if u in t.handled { assert v in known || Met(t, v); }
    }
    var p :| Trail(links, {self}, {}, p) && p[|p| - 1] == node;
    ClosedHandles(links, {self}, all, p);
  }

  // ------------------------------------------------------------------ termination

  /** k copies of w added up. */
  function Times(k: nat, w: nat): nat { if k == 0 then 0 else w + Times(k - 1, w) }

  function Pow(b: nat, e: nat): (r: nat)
    ensures b > 0 ==> r > 0
  {
    if e == 0 then 1 else Times(b, Pow(b, e - 1))
  }

  function Weight(n: nat, m: Msg): nat
    requires |m.notified| <= n
  {
    Pow(n + 1, n - |m.notified|)
  }

  /** All messages stay within the given nodes. */
  ghost predicate Within(all: set<Uuid>, msgs: seq<Msg>) {
    forall k :: 0 <= k < |msgs| ==> Fits(all, msgs[k])
  }

  ghost predicate Fits(all: set<Uuid>, m: Msg) {
    m.to in all && m.notified <= all && |m.notified| <= |all|
  }

  ghost function Measure(all: set<Uuid>, msgs: seq<Msg>): nat
    requires Within(all, msgs)
  {
    if msgs == [] then 0 else Weight(|all|, msgs[0]) + Measure(all, msgs[1..])
  }

  lemma {:induction false} MeasureAppend(all: set<Uuid>, xs: seq<Msg>, ys: seq<Msg>)
    requires Within(all, xs) && Within(all, ys)
    ensures Within(all, xs + ys) && Measure(all, xs + ys) == Measure(all, xs) + Measure(all, ys)
    decreases |xs|
  {
    if xs == [] {
      assert xs + ys == ys;
    } else {
      assert (xs + ys)[1..] == xs[1..] + ys;
      MeasureAppend(all, xs[1..], ys);
    }
  }

  lemma SubsetSize(a: set<Uuid>, b: set<Uuid>)
    requires a <= b
    ensures |a| <= |b|
  {
    assert |b - a| == |b| - |a|;
  }

  lemma {:induction false} MeasureUniform(all: set<Uuid>, msgs: seq<Msg>, notified: set<Uuid>)
    requires Within(all, msgs) && |notified| <= |all| && forall k :: 0 <= k < |msgs| ==> msgs[k].notified == notified
    ensures Measure(all, msgs) == Times(|msgs|, Pow(|all| + 1, |all| - |notified|))
    decreases |msgs|
  {
    if msgs != [] {
      MeasureUniform(all, msgs[1..], notified);
      assert msgs[0].notified == notified;
    }
  }

  lemma {:induction false} TimesLess(a: nat, b: nat, c: nat, d: nat)
    requires a < b && c <= d && d > 0
    ensures Times(a, c) < Times(b, d)
    decreases b
  {
    if a > 0 { TimesLess(a - 1, b - 1, c, d); }
  }

  /** k messages that know k nodes more weigh less than one message. */
  lemma FewLighter(n: nat, k: nat, d: nat)
    requires k <= n && k <= d
    ensures Times(k, Pow(n + 1, d - k)) < Pow(n + 1, d)
  {
    if k > 0 {
      PowMonotone(n + 1, d - k, d - 1);
      TimesLess(k, n + 1, Pow(n + 1, d - k), Pow(n + 1, d - 1));
    }
  }

  lemma UnawareSize(all: set<Uuid>, notified: set<Uuid>, more: set<Uuid>)
    requires more <= all && notified <= all && more !! notified
    ensures |notified + more| == |notified| + |more| <= |all|
  {
    SubsetSize(notified + more, all);
  }

  lemma PostedWithin(all: set<Uuid>, out: seq<Msg>, peers: set<Uuid>, notified: set<Uuid>)
    requires Posted(out, peers, notified) && peers <= all && notified <= all
    ensures Within(all, out) && |notified| <= |all|
    ensures Measure(all, out) == Times(|peers|, Pow(|all| + 1, |all| - |notified|))
  {
    SubsetSize(notified, all);
    MeasureUniform(all, out, notified);
  }

  /** What a forward to the unaware peers adds weighs less than the message it consumes. */
  lemma ForwardWeighsLess(all: set<Uuid>, m: Msg, more: set<Uuid>, out: seq<Msg>)
    requires Fits(all, m) && more <= all && more !! m.notified && Posted(out, more, m.notified + more)
    ensures Within(all, out) && Measure(all, out) < Weight(|all|, m)
  {
    var n, d, k := |all|, |all| - |m.notified|, |more|;
    UnawareSize(all, m.notified, more);
    PostedWithin(all, out, more, m.notified + more);
    assert n - |m.notified + more| == d - k;
    FewLighter(n, k, d);
  }

  lemma {:induction false} PowMonotone(b: nat, e: nat, f: nat)
    requires b > 0 && e <= f
    ensures Pow(b, e) <= Pow(b, f)
    decreases f - e
  {
    if e < f {
      PowMonotone(b, e, f - 1);
    }
  }

  /** A run in which every delivery may see different peers, as long as they are among `all`. */
  ghost predicate FreeStep(all: set<Uuid>, s: Net, s': Net) {
    exists i: nat, peers, out :: peers <= all && Delivery(s, i, peers, out, s')
  }

  lemma MeasureSwap(all: set<Uuid>, before: seq<Msg>, m: Msg, after: seq<Msg>, out: seq<Msg>)
    requires Within(all, before) && Fits(all, m) && Within(all, after) && Within(all, out)
    requires Measure(all, out) < Weight(|all|, m)
    ensures Within(all, before + after + out) && Within(all, before + ([m] + after))
    ensures Measure(all, before + after + out) < Measure(all, before + ([m] + after))
  {
    assert [m][1..] == [] && Measure(all, [m]) == Weight(|all|, m);
    MeasureAppend(all, [m], after);
    MeasureAppend(all, before, [m] + after);
    MeasureAppend(all, before, after);
    MeasureAppend(all, before + after, out);
  }

  lemma MeasureDecreases(all: set<Uuid>, s: Net, s': Net)
    requires Within(all, s.inflight) && FreeStep(all, s, s')
    ensures Within(all, s'.inflight) && Measure(all, s'.inflight) < Measure(all, s.inflight)
  {
    var i: nat, peers, out :| peers <= all && Delivery(s, i, peers, out, s');
    DeliveryShrinks(all, s, i, peers, out, s');
  }

  lemma DeliveryShrinks(all: set<Uuid>, s: Net, i: nat, peers: set<Uuid>, out: seq<Msg>, s': Net)
    requires Within(all, s.inflight) && peers <= all && Delivery(s, i, peers, out, s')
    ensures Within(all, s'.inflight) && Measure(all, s'.inflight) < Measure(all, s.inflight)
  {
    var before, m, after := s.inflight[..i], s.inflight[i], s.inflight[i + 1..];
    assert Fits(all, m);
    ForwardWeighsLess(all, m, peers - m.notified, out);
    MeasureSwap(all, before, m, after, out);
    assert s.inflight == before + ([m] + after);
  }

  ghost predicate FreeRun(all: set<Uuid>, trace: seq<Net>)
    decreases |trace|
  {
    trace != [] && (|trace| > 1 ==> FreeStep(all, trace[0], trace[1]) && FreeRun(all, trace[1..]))
  }

  /** Flood termination: whatever the peers are at each delivery, a broadcast over the nodes `all`
      makes at most as many deliveries as its initial measure. */
  lemma {:induction false} FloodTerminates(all: set<Uuid>, trace: seq<Net>)
    requires FreeRun(all, trace) && Within(all, trace[0].inflight)
    ensures |trace| - 1 <= Measure(all, trace[0].inflight)
    decreases |trace|
  {
    if |trace| > 1 {
      MeasureDecreases(all, trace[0], trace[1]);
      FloodTerminates(all, trace[1..]);
    }
  }

  // ------------------------------------------------------------------ progress

  lemma {:induction false} CanPost(peers: set<Uuid>, notified: set<Uuid>) returns (out: seq<Msg>)
    ensures Posted(out, peers, notified)
    decreases peers
  {
    out := [];
    if peers != {} {
      var p :| p in peers;
      out := CanPost(peers - {p}, notified);
      PostedAppend(out, peers - {p}, notified, p);
      assert peers - {p} + {p} == peers;
      out := out + [Msg(p, notified)];
    }
  }

  /** Nothing blocks: any message in flight can be delivered next. */
  lemma CanDeliver(links: Links, s: Net) returns (s': Net)
    requires s.inflight != []
    ensures Step(links, s, s')
  {
    var m := s.inflight[0];
    var peers := Peers(links, m.to);
    var out := CanPost(peers - m.notified, m.notified + (peers - m.notified));
    s' := Net(s.inflight[..0] + s.inflight[1..] + out, s.handled + {m.to});
    assert Delivery(s, 0, peers, out, s');
  }
}
