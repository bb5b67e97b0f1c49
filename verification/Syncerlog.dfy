/**
 The transaction-log synchroniser of one (log, peer) pair, as a machine of interleaved
 atomic steps.

 Change events travel through the bus slot that `MDV_EVT_UNIQUE` gives to an event type;
 their handlers count requests; the first counted request asks the peer for its state; every
 state message runs one `mdv_syncerlog_schedule` loop, and any number of those loops race on
 `synced` and `requests`. A step is one atomic access (or one message) and any interleaving
 of enabled steps is a run.
 */
module Syncerlog {
  import opened Common

  /** `batch` is the datasync batch size; `otherLogs` says that other logs of this node
      publish change events on the same bus. */
  datatype Config = Config(batch: nat, otherLogs: bool)

  /** Log records [left, right). */
  datatype Range = Range(left: nat, right: nat)

  /** Who owns the single queued event of type MDV_EVT_TRLOG_CHANGED. */
  datatype Slot = Free | Mine | Foreign

  /** Program points of `mdv_syncerlog_schedule`; fields are its local variables. */
  datatype Loop =
    | Entered(pos: nat)
    | Loaded(pos: nat, requests: nat)
    | Reading(requests: nat, synced: nat)
    | Claiming(requests: nat, synced: nat, top: nat, right: nat)
    | Emitting(requests: nat, range: Range, top: nat)
    | Closing(requests: nat, synced: nat, top: nat)

  /**
   `announcing` appenders have raised the top and not yet published; `checking` handlers are
   about to test the log for emptiness, `counting` ones are about to count a request, `sending`
   ones are about to publish the sync message. `syncs` and `states` are messages in flight.
   `claims` (every range won by a CAS), `counted` (the top when a request was last counted)
   and `reported` (the largest top the peer ever reported) are history.
   */
  datatype State = State(
    top: nat, requests: nat, synced: nat,
    announcing: nat, slot: Slot,
    checking: nat, counting: nat, sending: nat,
    syncs: nat, states: multiset<nat>,
    loops: map<nat, Loop>, jobs: seq<Range>,
    claims: seq<Range>, counted: nat, reported: nat)

  datatype Action =
    | Append(records: nat)
    | Announce
    | ForeignAnnounce
    | ForeignPop
    | Pop
    | Check
    | Count
    | Send
    | Reply(peerTop: nat)
    | Report(peerTop: nat)
    | Enter(pos: nat, id: nat)
    | Run(id: nat, op: LoopOp)

  /** The atomic accesses of a schedule loop; the CAS on `synced` is weak. */
  datatype LoopOp = LoadRequests | LoadSynced | ReadTop | CasSynced(spurious: bool) | Emit | CasRequests

  function Max(a: nat, b: nat): nat { if a < b then b else a }

  /** After creation: nothing synchronised, and the creator is about to run the start check. */
  predicate Init(cfg: Config, s: State) {
    && s.requests == s.synced == s.counting == s.sending == s.syncs == 0
    && s.states == multiset{} && s.loops == map[] && s.jobs == s.claims == []
    && s.counted == s.reported == 0 && s.checking == 1
    && (s.slot.Foreign? ==> cfg.otherLogs)
  }

  /** One atomic step; None when the action is not enabled. */
  function Step(cfg: Config, s: State, a: Action): Option<State> {
    match a
    case Append(k) =>
      if k == 0 then None else Some(s.(top := s.top + k, announcing := s.announcing + 1))
    case Announce =>
      if s.announcing == 0 then None
      else Some(s.(announcing := s.announcing - 1, slot := if s.slot.Free? then Mine else s.slot))
    case ForeignAnnounce =>
      if cfg.otherLogs && s.slot.Free? then Some(s.(slot := Foreign)) else None
    case ForeignPop =>
      if s.slot.Foreign? then Some(s.(slot := Free)) else None
    case Pop =>
      if s.slot.Mine? then Some(s.(slot := Free, checking := s.checking + 1)) else None
    case Check =>
      if s.checking == 0 then None
      else if s.top == 0 then Some(s.(checking := s.checking - 1))
      else Some(s.(checking := s.checking - 1, counting := s.counting + 1))
    case Count =>
      if s.counting == 0 then None
      else Some(s.(counting := s.counting - 1, requests := s.requests + 1, counted := s.top,
                   sending := if s.requests == 0 then s.sending + 1 else s.sending))
    case Send =>
      if s.sending == 0 then None else Some(s.(sending := s.sending - 1, syncs := s.syncs + 1))
    case Reply(p) =>
      if s.syncs == 0 then None
      else Some(s.(syncs := s.syncs - 1, states := s.states + multiset{p}, reported := Max(s.reported, p)))
    case Report(p) =>
      Some(s.(states := s.states + multiset{p}, reported := Max(s.reported, p)))
    case Enter(p, id) =>
      if p in s.states && id !in s.loops
      then Some(s.(states := s.states - multiset{p}, loops := s.loops[id := Entered(p)])) else None
    case Run(id, op) => LoopStep(cfg, s, id, op)
  }

  /** A step of the schedule loop `id`. */
  function LoopStep(cfg: Config, s: State, id: nat, op: LoopOp): Option<State> {
    if id !in s.loops then None else
    match (op, s.loops[id])
    case (LoadRequests, Entered(p)) =>
      Some(s.(loops := s.loops[id := Loaded(p, s.requests)]))
    case (LoadSynced, Loaded(p, q)) =>
      Some(s.(loops := s.loops[id := Reading(q, Max(s.synced, p))]))
    case (ReadTop, Reading(q, y)) =>
      var right := if s.top > y + cfg.batch then y + cfg.batch else s.top;
      Some(s.(loops := s.loops[id := if y >= s.top then Closing(q, y, s.top) else Claiming(q, y, s.top, right)]))
    case (CasSynced(spurious), Claiming(q, y, t, right)) =>
      if s.synced == y && !spurious
      then Some(s.(synced := right, claims := s.claims + [Range(y, right)],
                   loops := s.loops[id := Emitting(q, Range(y, right), t)]))
      else Some(s.(loops := s.loops[id := Reading(q, s.synced)]))
    case (Emit, Emitting(q, range, t)) =>
      Some(s.(jobs := s.jobs + [range],
              loops := s.loops[id := if range.right < t then Reading(q, range.right) else Closing(q, range.right, t)]))
    case (CasRequests, Closing(q, y, t)) =>
      if s.requests == q
      then Some(s.(requests := 0, loops := s.loops - {id}))
      else Some(s.(loops := s.loops[id := Reading(s.requests, y)]))
    case (_, _) => None
  }

  /** The state after a sequence of actions; None when one of them is not enabled. */
  function Exec(cfg: Config, s: State, actions: seq<Action>): Option<State>
    decreases |actions|
  {
    if actions == [] then Some(s) else
    var next := Step(cfg, s, actions[0]);
    if next.None? then None else Exec(cfg, next.value, actions[1..])
  }

  ghost predicate Reachable(cfg: Config, s: State) {
    exists s0, actions :: Init(cfg, s0) && Exec(cfg, s0, actions) == Some(s)
  }

  // ------------------------------------------------------------------ what is promised

  function Horizon(s: State): nat { Max(s.synced, s.reported) }

  /** Someone has still to handle a change of this log. */
  predicate Notified(s: State) {
    s.announcing > 0 || s.slot.Mine? || s.checking > 0 || s.counting > 0
  }

  /** A sync or state message is on its way, so a new loop will start. */
  predicate Carried(s: State) {
    s.sending > 0 || s.syncs > 0 || s.states != multiset{}
  }

  /** The loop has `record` in view, or its next test of `requests` sends it back to the top. */
  predicate WillRead(s: State, l: Loop, record: nat) {
    match l
    case Entered(_) => true
    case Loaded(_, _) => true
    case Reading(_, _) => true
    case Claiming(q, _, t, _) => record < t || q != s.requests
    case Emitting(q, _, t) => record < t || q != s.requests
    case Closing(q, _, _) => q != s.requests
  }

  ghost predicate Covered(s: State, record: nat) {
    || record < s.synced
    || record < s.reported
    || Notified(s)
    || Carried(s)
    || exists id :: id in s.loops && WillRead(s, s.loops[id], record)
  }

  ghost predicate NothingLost(s: State) {
    forall record: nat :: record < s.top ==> Covered(s, record)
  }

  predicate Quiescent(s: State) {
    !Notified(s) && !Carried(s) && s.loops == map[]
  }

  // ------------------------------------------------------------------ claimed ranges

  /** The ranges follow each other from 0 to `end`, each one non-empty and at most a batch. */
  predicate Chain(batch: nat, claims: seq<Range>, end: nat) {
    && (forall i :: 0 <= i < |claims| ==> claims[i].left < claims[i].right <= claims[i].left + batch)
    && (forall i, j :: 0 <= i < |claims| && j == i + 1 < |claims| ==> claims[i].right == claims[j].left)
    && (claims != [] ==> claims[0].left == 0)
    && end == (if claims == [] then 0 else claims[|claims| - 1].right)
  }

  predicate LoopOk(cfg: Config, s: State, l: Loop) {
    match l
    case Entered(p) => p <= s.reported
    case Loaded(p, _) => p <= s.reported
    case Reading(_, y) => y <= Horizon(s)
    case Claiming(_, y, t, right) => y < right <= t <= s.top && right <= y + cfg.batch
    case Emitting(_, range, t) => range in s.claims && range !in s.jobs && range.right <= s.synced
    case Closing(_, y, t) => t <= y <= Horizon(s)
  }

  predicate Emits(l: Loop, range: Range) { l.Emitting? && l.range == range }

  /** Every claimed range is in exactly one job, or still in the hands of exactly one loop. */
  ghost predicate ClaimsSentOnce(s: State) {
    && (forall i, j :: 0 <= i < j < |s.jobs| ==> s.jobs[i] != s.jobs[j])
    && (forall range :: range in s.jobs ==> range in s.claims)
    && (forall range :: range in s.claims ==>
          range in s.jobs || exists id :: id in s.loops && Emits(s.loops[id], range))
    && (forall id, id' ::
          id in s.loops && id' in s.loops && id != id' && s.loops[id].Emitting? && s.loops[id'].Emitting?
          ==> s.loops[id].range != s.loops[id'].range)
  }

  ghost predicate RangeInv(cfg: Config, s: State) {
    && s.synced <= s.top
    && Chain(cfg.batch, s.claims, s.synced)
    && (forall p :: p in s.states ==> p <= s.reported)
    && (forall id :: id in s.loops ==> LoopOk(cfg, s, s.loops[id]))
    && ClaimsSentOnce(s)
  }

  lemma ChainInjective(batch: nat, claims: seq<Range>, end: nat, i: nat, j: nat)
    requires Chain(batch, claims, end) && i < j < |claims|
    ensures claims[i].right <= claims[j].left
    decreases j
  {
    if i + 1 < j { ChainInjective(batch, claims, end, i, j - 1); }
  }

  lemma ChainBelowEnd(batch: nat, claims: seq<Range>, end: nat, i: nat)
    requires Chain(batch, claims, end) && i < |claims|
    ensures claims[i].right <= end
  {
    if i < |claims| - 1 { ChainInjective(batch, claims, end, i, |claims| - 1); }
  }

  predicate InRange(claims: seq<Range>, record: nat) {
    exists i :: 0 <= i < |claims| && claims[i].left <= record < claims[i].right
  }

  /** Position `record` lies in some range of the chain. */
  lemma {:induction false} ChainCovers(batch: nat, claims: seq<Range>, end: nat, record: nat) returns (i: nat)
    requires Chain(batch, claims, end) && record < end
    ensures i < |claims| && claims[i].left <= record < claims[i].right
    decreases |claims|
  {
    var last := |claims| - 1;
    if claims[last].left <= record { return last; }
    var rest := claims[..last];
    i := ChainCovers(batch, rest, claims[last].left, record);
  }

  lemma ChainExtends(batch: nat, claims: seq<Range>, end: nat, right: nat)
    requires Chain(batch, claims, end) && end < right <= end + batch
    ensures Chain(batch, claims + [Range(end, right)], right)
    ensures Range(end, right) !in claims
  {
    forall i | 0 <= i < |claims| ensures claims[i] != Range(end, right) {
      ChainBelowEnd(batch, claims, end, i);
    }
  }

  /** A range just won is in the hands of the loop that won it. */
  lemma ClaimHeld(s: State, id: nat, range: Range, s': State)
    requires ClaimsSentOnce(s) && range !in s.claims
    requires id in s.loops && !s.loops[id].Emitting?
    requires s'.jobs == s.jobs && s'.claims == s.claims + [range]
    requires id in s'.loops && s'.loops == s.loops[id := s'.loops[id]] && Emits(s'.loops[id], range)
    requires forall k :: k in s.loops && s.loops[k].Emitting? ==> s.loops[k].range in s.claims
    ensures ClaimsSentOnce(s')
  {
    forall r | r in s'.claims
      ensures r in s'.jobs || exists k :: k in s'.loops && Emits(s'.loops[k], r)
    {
      if r == range {
        assert Emits(s'.loops[id], r);
      } else if r !in s.jobs {
        var k :| k in s.loops && Emits(s.loops[k], r);
        assert k in s'.loops && Emits(s'.loops[k], r);
      }
    }
  }

  lemma RangeInvCas(cfg: Config, s: State, id: nat, s': State)
    requires cfg.batch > 0 && RangeInv(cfg, s)
    requires id in s.loops && s.loops[id].Claiming? && s.synced == s.loops[id].synced
    requires LoopStep(cfg, s, id, CasSynced(false)) == Some(s')
    ensures RangeInv(cfg, s')
  {
    assert LoopOk(cfg, s, s.loops[id]);
    ChainExtends(cfg.batch, s.claims, s.synced, s'.synced);
    forall k | k in s.loops && s.loops[k].Emitting? ensures s.loops[k].range in s.claims {
      assert LoopOk(cfg, s, s.loops[k]);
    }
    ClaimHeld(s, id, Range(s.synced, s'.synced), s');
    forall k | k in s'.loops ensures LoopOk(cfg, s', s'.loops[k]) {
      if k != id { assert LoopOk(cfg, s, s.loops[k]); }
    }
  }

  lemma RangeInvEmit(cfg: Config, s: State, id: nat, s': State)
    requires RangeInv(cfg, s) && id in s.loops && s.loops[id].Emitting?
    requires LoopStep(cfg, s, id, Emit) == Some(s')
    ensures RangeInv(cfg, s')
  {
    var range := s.loops[id].range;
    assert LoopOk(cfg, s, s.loops[id]);
    forall r | r in s'.claims
      ensures r in s'.jobs || exists k :: k in s'.loops && Emits(s'.loops[k], r)
    {
      if r != range && r !in s.jobs {
        var k :| k in s.loops && Emits(s.loops[k], r);
        assert k in s'.loops && Emits(s'.loops[k], r);
      }
    }
    forall k | k in s'.loops ensures LoopOk(cfg, s', s'.loops[k]) {
      if k != id { assert LoopOk(cfg, s, s.loops[k]); }
    }
  }

  /** Steps that neither claim nor emit keep the ranges and the holders of ranges. */
  lemma RangeInvFrame(cfg: Config, s: State, s': State)
    requires RangeInv(cfg, s)
    requires s'.jobs == s.jobs && s'.claims == s.claims && s'.synced == s.synced
    requires s.top <= s'.top && s.reported <= s'.reported
    requires forall p :: p in s'.states ==> p <= s'.reported
    requires forall id :: id in s'.loops ==>
      (id in s.loops && s'.loops[id] == s.loops[id]) || (!s'.loops[id].Emitting? && LoopOk(cfg, s', s'.loops[id]))
    requires forall id :: id in s.loops && s.loops[id].Emitting? ==> id in s'.loops && s'.loops[id] == s.loops[id]
    ensures RangeInv(cfg, s')
  {
    forall id | id in s'.loops ensures LoopOk(cfg, s', s'.loops[id]) {
      if id in s.loops && s'.loops[id] == s.loops[id] { assert LoopOk(cfg, s, s.loops[id]); }
    }
    forall r | r in s'.claims
      ensures r in s'.jobs || exists k :: k in s'.loops && Emits(s'.loops[k], r)
    {
      if r !in s.jobs {
        var k :| k in s.loops && Emits(s.loops[k], r);
        assert k in s'.loops && Emits(s'.loops[k], r);
      }
    }
  }

  lemma RangeInvLoop(cfg: Config, s: State, id: nat, op: LoopOp, s': State)
    requires cfg.batch > 0 && RangeInv(cfg, s) && LoopStep(cfg, s, id, op) == Some(s')
    ensures RangeInv(cfg, s')
    ensures s.synced <= s'.synced && s.claims <= s'.claims
  {
    assert LoopOk(cfg, s, s.loops[id]);
    if op == Emit {
      RangeInvEmit(cfg, s, id, s');
    } else if op == CasSynced(false) && s.synced == s.loops[id].synced {
      RangeInvCas(cfg, s, id, s');
    } else {
      RangeInvFrame(cfg, s, s');
    }
  }

  lemma RangeInvStep(cfg: Config, s: State, a: Action, s': State)
    requires cfg.batch > 0 && RangeInv(cfg, s) && Step(cfg, s, a) == Some(s')
    ensures RangeInv(cfg, s')
    ensures s.synced <= s'.synced && s.claims <= s'.claims
  {
    if a.Run? {
      RangeInvLoop(cfg, s, a.id, a.op, s');
    } else {
      RangeInvFrame(cfg, s, s');
    }
  }

  // ------------------------------------------------------------------ request coalescing

  /** The loop cannot reset `requests` without having read a top of at least `counted`. */
  predicate Guards(s: State, l: Loop) {
    match l
    case Entered(_) => true
    case Loaded(_, q) => s.requests > 0 ==> 1 <= q <= s.requests
    case Reading(q, _) => s.requests > 0 ==> 1 <= q <= s.requests
    case Claiming(q, _, t, _) => (s.requests > 0 ==> 1 <= q <= s.requests) && (q == s.requests ==> s.counted <= t)
    case Emitting(q, _, t) => (s.requests > 0 ==> 1 <= q <= s.requests) && (q == s.requests ==> s.counted <= t)
    case Closing(q, _, t) => (s.requests > 0 ==> 1 <= q <= s.requests) && (q == s.requests ==> s.counted <= t)
  }

  ghost predicate Guarded(s: State) {
    exists id :: id in s.loops && Guards(s, s.loops[id])
  }

  /** What lets a stale reset of `requests` lose nothing: some message or some loop still
      answers for everything counted, unless it is all behind the horizon already. */
  ghost predicate CoalesceInv(s: State) {
    && s.counted <= s.top
    && (s.counted < s.top ==> Notified(s))
    && (Carried(s) || Guarded(s) || (s.requests == 0 && s.counted <= Horizon(s)))
  }

  /** What a step of a loop leaves as it was. */
  lemma LoopKeeps(cfg: Config, s: State, id: nat, op: LoopOp, s': State)
    requires RangeInv(cfg, s) && LoopStep(cfg, s, id, op) == Some(s')
    ensures s'.top == s.top && s'.counted == s.counted && Horizon(s) <= Horizon(s')
    ensures (Notified(s') <==> Notified(s)) && (Carried(s') <==> Carried(s))
    ensures s'.requests == s.requests || s'.requests == 0
  {
    assert LoopOk(cfg, s, s.loops[id]);
  }

  /** A guarding loop goes on guarding, or ends with everything counted behind the horizon. */
  lemma GuardKept(cfg: Config, s: State, id: nat, op: LoopOp, s': State, g: nat)
    requires RangeInv(cfg, s) && LoopStep(cfg, s, id, op) == Some(s') && s.counted <= s.top
    requires g in s.loops && Guards(s, s.loops[g])
    ensures if g in s'.loops then Guards(s', s'.loops[g]) else s'.requests == 0 && s'.counted <= Horizon(s')
  {
    assert LoopOk(cfg, s, s.loops[g]);
  }

  lemma CoalesceLoop(cfg: Config, s: State, id: nat, op: LoopOp, s': State)
    requires RangeInv(cfg, s) && CoalesceInv(s) && LoopStep(cfg, s, id, op) == Some(s')
    ensures CoalesceInv(s')
  {
    LoopKeeps(cfg, s, id, op, s');
    if !Carried(s) && Guarded(s) {
      var g :| g in s.loops && Guards(s, s.loops[g]);
      GuardKept(cfg, s, id, op, s', g);
    }
  }

  lemma CoalesceCount(s: State, s': State)
    requires CoalesceInv(s) && s.counting > 0
    requires s'.requests == s.requests + 1 && s'.counted == s'.top == s.top && s'.loops == s.loops
    requires s'.sending == if s.requests == 0 then s.sending + 1 else s.sending
    requires s'.syncs == s.syncs && s'.states == s.states
    ensures CoalesceInv(s')
  {
    if s.requests > 0 && !Carried(s) {
      var g :| g in s.loops && Guards(s, s.loops[g]);
      assert Guards(s', s'.loops[g]);
    }
  }

  /** Steps outside the loops that count nothing and do not consume a message. */
  lemma CoalesceFrame(s: State, s': State)
    requires CoalesceInv(s) && s'.requests == s.requests && s'.counted == s.counted && s'.loops == s.loops
    requires s.top <= s'.top && s'.synced == s.synced && s.reported <= s'.reported
    requires s'.counted < s'.top ==> Notified(s')
    requires Carried(s) ==> Carried(s')
    ensures CoalesceInv(s')
  {
    if !Carried(s) && Guarded(s) {
      var g :| g in s.loops && Guards(s, s.loops[g]);
      assert Guards(s', s'.loops[g]);
    }
  }

  /** What the steps outside the loops leave alone, unless they count or start a loop. An
      announcement that finds a foreign event in the slot is the one step that can drop the last
      notification. */
  lemma OuterStep(cfg: Config, s: State, a: Action, s': State)
    requires Step(cfg, s, a) == Some(s') && !a.Run? && !a.Enter? && !a.Count?
    requires a.Announce? ==> !s.slot.Foreign?
    ensures s'.requests == s.requests && s'.counted == s.counted && s'.loops == s.loops
    ensures s.top <= s'.top && s'.synced == s.synced && s.reported <= s'.reported
    ensures Notified(s) ==> Notified(s') || s'.top == 0
    ensures s.top < s'.top ==> Notified(s')
  {
  }

  lemma OuterCarries(cfg: Config, s: State, a: Action, s': State)
    requires Step(cfg, s, a) == Some(s') && !a.Run? && !a.Enter? && !a.Count? && Carried(s)
    ensures Carried(s')
  {
    if a.Reply? { assert a.peerTop in s'.states; }
    if a.Report? { assert a.peerTop in s'.states; }
  }

  lemma CoalesceEnter(cfg: Config, s: State, a: Action, s': State)
    requires CoalesceInv(s) && a.Enter? && Step(cfg, s, a) == Some(s')
    ensures CoalesceInv(s')
  {
    assert Guards(s', s'.loops[a.id]);
  }

  lemma CoalesceStep(cfg: Config, s: State, a: Action, s': State)
    requires a.Announce? ==> !s.slot.Foreign?
    requires RangeInv(cfg, s) && CoalesceInv(s) && Step(cfg, s, a) == Some(s')
    ensures CoalesceInv(s')
  {
    if a.Run? {
      CoalesceLoop(cfg, s, a.id, a.op, s');
    } else if a.Enter? {
      CoalesceEnter(cfg, s, a, s');
    } else if a.Count? {
      CoalesceCount(s, s');
    } else {
      OuterStep(cfg, s, a, s');
      if Carried(s) { OuterCarries(cfg, s, a, s'); }
      CoalesceFrame(s, s');
    }
  }

  lemma CoalesceCovers(cfg: Config, s: State)
    requires RangeInv(cfg, s) && CoalesceInv(s)
    ensures NothingLost(s)
  {
    forall record: nat | record < s.top ensures Covered(s, record) {
      if !Notified(s) && !Carried(s) && Guarded(s) {
        var g :| g in s.loops && Guards(s, s.loops[g]);
        assert LoopOk(cfg, s, s.loops[g]);
        assert WillRead(s, s.loops[g], record) || record < s.synced || record < s.reported;
      }
    }
  }

  // ------------------------------------------------------------------ whole runs

  lemma {:induction false} RangeInvRun(cfg: Config, s: State, actions: seq<Action>, s': State)
    requires cfg.batch > 0 && RangeInv(cfg, s) && Exec(cfg, s, actions) == Some(s')
    ensures RangeInv(cfg, s') && s.synced <= s'.synced && s.claims <= s'.claims
    decreases |actions|
  {
    if actions != [] {
      var next := Step(cfg, s, actions[0]).value;
      RangeInvStep(cfg, s, actions[0], next);
      RangeInvRun(cfg, next, actions[1..], s');
    }
  }

  /** No announcement of this log is made while a foreign event holds the slot. */
  predicate Unswallowed(cfg: Config, s: State, actions: seq<Action>)
    decreases |actions|
  {
    actions == [] ||
    (!(actions[0].Announce? && s.slot.Foreign?) &&
     var next := Step(cfg, s, actions[0]);
     next.Some? ==> Unswallowed(cfg, next.value, actions[1..]))
  }

  lemma {:induction false} CoalesceRun(cfg: Config, s: State, actions: seq<Action>, s': State)
    requires cfg.batch > 0 && Unswallowed(cfg, s, actions)
    requires RangeInv(cfg, s) && CoalesceInv(s) && Exec(cfg, s, actions) == Some(s')
    ensures RangeInv(cfg, s') && CoalesceInv(s')
    decreases |actions|
  {
    if actions != [] {
      var next := Step(cfg, s, actions[0]).value;
      RangeInvStep(cfg, s, actions[0], next);
      CoalesceStep(cfg, s, actions[0], next);
      CoalesceRun(cfg, next, actions[1..], s');
    }
  }

  lemma ReachableRanges(cfg: Config, s: State)
    requires cfg.batch > 0 && Reachable(cfg, s)
    ensures RangeInv(cfg, s)
  {
    var s0, actions :| Init(cfg, s0) && Exec(cfg, s0, actions) == Some(s);
    RangeInvRun(cfg, s0, actions, s);
  }

  /** Range partition: in every reachable state each position below `synced` is in exactly one
      claimed range, no position at or above it is in any, the ranges are non-empty and at most
      a batch long, and `synced` has not passed the top. */
  lemma RangePartition(cfg: Config, s: State)
    requires cfg.batch > 0 && Reachable(cfg, s)
    ensures s.synced <= s.top
    ensures forall i :: 0 <= i < |s.claims| ==> s.claims[i].left < s.claims[i].right <= s.claims[i].left + cfg.batch
    ensures forall i, j :: 0 <= i < j < |s.claims| ==> s.claims[i].right <= s.claims[j].left
    ensures forall record: nat :: record < s.synced <==> InRange(s.claims, record)
  {
    ReachableRanges(cfg, s);
    forall i, j | 0 <= i < j < |s.claims| ensures s.claims[i].right <= s.claims[j].left {
      ChainInjective(cfg.batch, s.claims, s.synced, i, j);
    }
    forall record: nat
      ensures record < s.synced <==> InRange(s.claims, record)
    {
      if record < s.synced {
        var i := ChainCovers(cfg.batch, s.claims, s.synced, record);
      } else {
        forall i | 0 <= i < |s.claims| ensures s.claims[i].right <= record {
          ChainBelowEnd(cfg.batch, s.claims, s.synced, i);
        }
      }
    }
  }

  /** `synced` and the list of claimed ranges only grow along a run. */
  lemma SyncedMonotone(cfg: Config, s: State, actions: seq<Action>, s': State)
    requires cfg.batch > 0 && Reachable(cfg, s) && Exec(cfg, s, actions) == Some(s')
    ensures s.synced <= s'.synced <= s'.top && s.claims <= s'.claims
  {
    ReachableRanges(cfg, s);
    RangeInvRun(cfg, s, actions, s');
  }

  /** Once every loop has ended, each claimed range has been pushed as exactly one send job. */
  lemma ClaimsBecomeJobs(cfg: Config, s: State)
    requires cfg.batch > 0 && Reachable(cfg, s) && s.loops == map[]
    ensures multiset(s.jobs) == multiset(s.claims)
  {
    ReachableRanges(cfg, s);
    forall i, j | 0 <= i < j < |s.claims| ensures s.claims[i] != s.claims[j] {
      ChainInjective(cfg.batch, s.claims, s.synced, i, j);
    }
    DistinctMultiset(s.jobs);
    DistinctMultiset(s.claims);
    forall r ensures multiset(s.jobs)[r] == multiset(s.claims)[r] {
      assert r in s.jobs <==> r in s.claims;
      assert (r in multiset(s.jobs) <==> r in s.jobs) && (r in multiset(s.claims) <==> r in s.claims);
    }
  }

  lemma {:induction false} DistinctMultiset(xs: seq<Range>)
    requires forall i, j :: 0 <= i < j < |xs| ==> xs[i] != xs[j]
    ensures forall r :: multiset(xs)[r] <= 1
    decreases |xs|
  {
    if xs != [] {
      var n := |xs| - 1;
      assert xs == xs[..n] + [xs[n]];
      DistinctMultiset(xs[..n]);
      assert xs[n] !in multiset(xs[..n]);
    }
  }

  /** No lost change: whatever other logs publish on the bus, in every run in which no announcement
      of this log finds a foreign event in the slot, each record below the top is claimed, held by
      the peer, or will still be read. */
  lemma NoLostChange(cfg: Config, s0: State, actions: seq<Action>, s: State)
    requires cfg.batch > 0 && Init(cfg, s0) && Exec(cfg, s0, actions) == Some(s)
    requires Unswallowed(cfg, s0, actions)
    ensures NothingLost(s)
  {
    CoalesceRun(cfg, s0, actions, s);
    CoalesceCovers(cfg, s);
  }

  /** When nothing is pending any more, every record was claimed or already held by the peer. */
  lemma QuiescentMeansSynced(cfg: Config, s0: State, actions: seq<Action>, s: State)
    requires cfg.batch > 0 && Init(cfg, s0) && Exec(cfg, s0, actions) == Some(s)
    requires Unswallowed(cfg, s0, actions) && Quiescent(s)
    ensures s.top <= Max(s.synced, s.reported)
  {
    NoLostChange(cfg, s0, actions, s);
    if s.top > Horizon(s) { assert Covered(s, s.top - 1); }
  }

  /** Nothing is pending but one announcement. */
  predicate OneAnnouncement(s: State) {
    && s.announcing == 1 && !s.slot.Mine? && s.checking == s.counting == 0
    && !Carried(s) && s.loops == map[]
  }

  /** The last announcement loses records exactly when it finds a foreign event in the slot and the
      peer lacks some. */
  lemma LastAnnouncementIff(cfg: Config, s: State)
    requires OneAnnouncement(s)
    ensures Step(cfg, s, Announce).Some?
    ensures NothingLost(Step(cfg, s, Announce).value) <==> !(s.slot.Foreign? && s.top > Horizon(s))
  {
    var s' := Step(cfg, s, Announce).value;
    if s.slot.Foreign? && s.top > Horizon(s) { assert !Covered(s', s.top - 1); }
  }

  /** Once lost it stays so: when the foreign event is handled, nothing is pending and nobody will
      send the records. */
  lemma SwallowedStaysLost(cfg: Config, s: State) returns (s': State)
    requires OneAnnouncement(s) && s.slot.Foreign? && s.top > Horizon(s)
    ensures Exec(cfg, s, [Announce, ForeignPop]) == Some(s') && Quiescent(s') && !NothingLost(s')
  {
    var s1 := Step(cfg, s, Announce).value;
    s' := Step(cfg, s1, ForeignPop).value;
    assert [Announce, ForeignPop][1..] == [ForeignPop] && [ForeignPop][1..] == [];
    assert Exec(cfg, s1, [ForeignPop]) == Some(s');
    assert !Covered(s', s.top - 1);
  }

  lemma {:induction false} AloneUnswallowed(cfg: Config, s: State, actions: seq<Action>)
    requires !cfg.otherLogs && !s.slot.Foreign?
    ensures Unswallowed(cfg, s, actions)
    decreases |actions|
  {
    if actions != [] {
      var next := Step(cfg, s, actions[0]);
      if next.Some? {
        AloneKeepsSlot(cfg, s, actions[0], next.value);
        AloneUnswallowed(cfg, next.value, actions[1..]);
      }
    }
  }

  lemma AloneKeepsSlot(cfg: Config, s: State, a: Action, s': State)
    requires !cfg.otherLogs && !s.slot.Foreign? && Step(cfg, s, a) == Some(s')
    ensures !s'.slot.Foreign?
  {
  }

  /** A second log on the bus can swallow the only event of this log. */
  function SwallowedChange(): (actions: seq<Action>) {
    [Check, ForeignAnnounce, Append(1), Announce, ForeignPop]
  }

  lemma OtherLogLosesChange(cfg: Config) returns (s: State)
    requires cfg.otherLogs
    ensures Reachable(cfg, s) && Quiescent(s) && !NothingLost(s)
  {
    var s0 := State(0, 0, 0, 0, Free, 1, 0, 0, 0, multiset{}, map[], [], [], 0, 0);
    var s1 := Step(cfg, s0, Check).value;
    var s2 := Step(cfg, s1, ForeignAnnounce).value;
    var s3 := Step(cfg, s2, Append(1)).value;
    var s4 := Step(cfg, s3, Announce).value;
    s := Step(cfg, s4, ForeignPop).value;
    var acts := SwallowedChange();
    assert acts[1..] == [ForeignAnnounce, Append(1), Announce, ForeignPop];
    assert acts[1..][1..] == [Append(1), Announce, ForeignPop];
    assert acts[1..][1..][1..] == [Announce, ForeignPop];
    assert acts[1..][1..][1..][1..] == [ForeignPop];
    assert Exec(cfg, s4, [ForeignPop]) == Some(s);
    assert Exec(cfg, s3, [Announce, ForeignPop]) == Some(s);
    assert Exec(cfg, s2, [Append(1), Announce, ForeignPop]) == Some(s);
    assert Exec(cfg, s1, acts[1..]) == Some(s);
    assert Exec(cfg, s0, acts) == Some(s);
    assert !Covered(s, 0);
  }

  /** No change is ever lost exactly when no other log shares the bus. */
  lemma NoLostChangeIff(cfg: Config)
    requires cfg.batch > 0
    ensures (forall s :: Reachable(cfg, s) ==> NothingLost(s)) <==> !cfg.otherLogs
  {
    if cfg.otherLogs {
      var s := OtherLogLosesChange(cfg);
    } else {
      forall s | Reachable(cfg, s) ensures NothingLost(s) {
        var s0, actions :| Init(cfg, s0) && Exec(cfg, s0, actions) == Some(s);
        AloneUnswallowed(cfg, s0, actions);
        NoLostChange(cfg, s0, actions, s);
      }
    }
  }

  // ------------------------------------------------------------------ one loop alone

  // ------------------------------------------------------------------ messages

  /** How many of the actions count a request while there is none: how often `requests` leaves 0. */
  function Firsts(cfg: Config, s: State, actions: seq<Action>): nat
    decreases |actions|
  {
    if actions == [] then 0 else
    var next := Step(cfg, s, actions[0]);
    if next.None? then 0
    else (if actions[0].Count? && s.requests == 0 then 1 else 0) + Firsts(cfg, next.value, actions[1..])
  }

  /** How many of the actions send a sync message, answer one, report unasked, and start a loop. */
  datatype Tally = Tally(sends: nat, replies: nat, reports: nat, enters: nat)

  function Tallied(actions: seq<Action>): Tally
    decreases |actions|
  {
    if actions == [] then Tally(0, 0, 0, 0) else
    var a, t := actions[0], Tallied(actions[1..]);
    Tally(t.sends + (if a.Send? then 1 else 0), t.replies + (if a.Reply? then 1 else 0),
          t.reports + (if a.Report? then 1 else 0), t.enters + (if a.Enter? then 1 else 0))
  }

  /** What one step does to the messages. */
  lemma StepMessages(cfg: Config, s: State, a: Action, s': State)
    requires Step(cfg, s, a) == Some(s')
    ensures (if a.Send? then 1 else 0) + s'.sending == s.sending + if a.Count? && s.requests == 0 then 1 else 0
    ensures (if a.Reply? then 1 else 0) + s'.syncs == s.syncs + if a.Send? then 1 else 0
    ensures (if a.Enter? then 1 else 0) + |s'.states| == |s.states| + if a.Reply? || a.Report? then 1 else 0
  {
  }

  /** Coalescing, counted: in every run one sync message is sent, or about to be, for each time
      `requests` leaves 0, and none for the changes counted in between; each message is answered once,
      and each answer or report starts one loop. */
  lemma {:induction false} MessagesConserved(cfg: Config, s: State, actions: seq<Action>, s': State)
    requires Exec(cfg, s, actions) == Some(s')
    ensures var t := Tallied(actions);
      && t.sends + s'.sending == s.sending + Firsts(cfg, s, actions)
      && t.replies + s'.syncs == s.syncs + t.sends
      && t.enters + |s'.states| == |s.states| + t.replies + t.reports
    decreases |actions|
  {
    if actions != [] {
      var next := Step(cfg, s, actions[0]).value;
      StepMessages(cfg, s, actions[0], next);
      MessagesConserved(cfg, next, actions[1..], s');
    }
  }

  /** A log that is empty asks for nothing. */
  predicate QuietIfEmpty(s: State) {
    s.top == 0 ==> s.requests == s.counting == s.sending == s.syncs == 0
  }

  lemma QuietStep(cfg: Config, s: State, a: Action, s': State)
    requires QuietIfEmpty(s) && Step(cfg, s, a) == Some(s')
    ensures QuietIfEmpty(s')
  {
  }

  lemma {:induction false} QuietRun(cfg: Config, s: State, actions: seq<Action>, s': State)
    requires QuietIfEmpty(s) && Exec(cfg, s, actions) == Some(s')
    ensures QuietIfEmpty(s')
    decreases |actions|
  {
    if actions != [] {
      var next := Step(cfg, s, actions[0]).value;
      QuietStep(cfg, s, actions[0], next);
      QuietRun(cfg, next, actions[1..], s');
    }
  }

  /** In every run, as long as the log is empty nothing is counted and no message is sent. */
  lemma EmptyLogQuiet(cfg: Config, s: State)
    requires Reachable(cfg, s)
    ensures QuietIfEmpty(s)
  {
    var s0, actions :| Init(cfg, s0) && Exec(cfg, s0, actions) == Some(s);
    QuietRun(cfg, s0, actions, s);
  }

  /** The ranges one undisturbed pass claims: batches from `left` up to `top`. */
  function Batches(left: nat, top: nat, batch: nat): seq<Range>
    requires batch > 0
    decreases top - left
  {
    if left >= top then [] else
    var right := if top > left + batch then left + batch else top;
    [Range(left, right)] + Batches(right, top, batch)
  }

  /** Batches tile [left, top): shifted to start at 0 they are one chain. */
  lemma {:induction false} BatchesTile(left: nat, top: nat, batch: nat)
    requires batch > 0 && left <= top
    ensures var bs := Batches(left, top, batch);
      && (forall i :: 0 <= i < |bs| ==> bs[i].left < bs[i].right <= bs[i].left + batch)
      && (forall i, j :: 0 <= i < |bs| && j == i + 1 < |bs| ==> bs[i].right == bs[j].left)
      && (if left == top then bs == [] else bs != [] && bs[0].left == left && bs[|bs| - 1].right == top)
      && (forall i :: 0 <= i < |bs| - 1 ==> bs[i].right == bs[i].left + batch)
    decreases top - left
  {
    if left < top {
      var right := if top > left + batch then left + batch else top;
      BatchesTile(right, top, batch);
    }
  }

  lemma {:induction false} ExecAppend(cfg: Config, s: State, xs: seq<Action>, ys: seq<Action>)
    requires Exec(cfg, s, xs).Some?
    ensures Exec(cfg, s, xs + ys) == Exec(cfg, Exec(cfg, s, xs).value, ys)
    decreases |xs|
  {
    if xs == [] {
      assert xs + ys == ys;
    } else {
      assert (xs + ys)[1..] == xs[1..] + ys;
      ExecAppend(cfg, Step(cfg, s, xs[0]).value, xs[1..], ys);
    }
  }

  lemma ExecThen(cfg: Config, s: State, a: Action, rest: seq<Action>)
    requires Step(cfg, s, a).Some?
    ensures Exec(cfg, s, [a] + rest) == Exec(cfg, Step(cfg, s, a).value, rest)
  {
    assert ([a] + rest)[1..] == rest;
  }

  /** The state of loop `id` after it alone has claimed up to the top and stands before the
      test of `requests`. */
  function Claimed(cfg: Config, s: State, id: nat, q: nat): State
    requires cfg.batch > 0 && s.synced <= s.top
  {
    var bs := Batches(s.synced, s.top, cfg.batch);
    s.(synced := s.top, claims := s.claims + bs, jobs := s.jobs + bs, loops := s.loops[id := Closing(q, s.top, s.top)])
  }

  lemma ClaimedStep(cfg: Config, s: State, id: nat, q: nat, s': State)
    requires cfg.batch > 0 && s.synced < s.top
    requires var right := if s.top > s.synced + cfg.batch then s.synced + cfg.batch else s.top;
      s' == s.(synced := right, claims := s.claims + [Range(s.synced, right)],
               jobs := s.jobs + [Range(s.synced, right)],
               loops := s.loops[id := if right < s.top then Reading(q, right) else Closing(q, right, s.top)])
    ensures Claimed(cfg, s', id, q) == Claimed(cfg, s, id, q)
    ensures s'.loops[id].Closing? ==> s' == Claimed(cfg, s, id, q)
  {
    var right := s'.synced;
    var tail := Batches(right, s.top, cfg.batch);
    assert Batches(s.synced, s.top, cfg.batch) == [Range(s.synced, right)] + tail;
    assert s.claims + ([Range(s.synced, right)] + tail) == s'.claims + tail;
    assert s.jobs + ([Range(s.synced, right)] + tail) == s'.jobs + tail;
    assert s.loops[id := Closing(q, s.top, s.top)] == s'.loops[id := Closing(q, s.top, s.top)];
    if right == s.top { assert tail == []; }
  }

  /** Only loop `id` moves. */
  predicate Solo(id: nat, actions: seq<Action>) {
    forall i :: 0 <= i < |actions| ==> actions[i].Run? && actions[i].id == id
  }

  lemma {:induction false} SoloClaims(cfg: Config, s: State, id: nat, q: nat) returns (actions: seq<Action>)
    requires cfg.batch > 0 && s.synced <= s.top
    requires id in s.loops && s.loops[id] == Reading(q, s.synced)
    ensures Exec(cfg, s, actions) == Some(Claimed(cfg, s, id, q))
    ensures Solo(id, actions)
    decreases s.top - s.synced
  {
    var s1 := Step(cfg, s, Run(id, ReadTop)).value;
    if s.synced == s.top {
      actions := [Run(id, ReadTop)];
      ExecThen(cfg, s, Run(id, ReadTop), []);
      assert s1 == Claimed(cfg, s, id, q);
    } else {
      var s2 := Step(cfg, s1, Run(id, CasSynced(false))).value;
      var s3 := Step(cfg, s2, Run(id, Emit)).value;
      assert s3.loops == s.loops[id := s3.loops[id]];
      ClaimedStep(cfg, s, id, q, s3);
      var rest := [];
      if s3.loops[id].Reading? {
        rest := SoloClaims(cfg, s3, id, q);
      }
      actions := [Run(id, ReadTop)] + ([Run(id, CasSynced(false))] + ([Run(id, Emit)] + rest));
      ExecThen(cfg, s2, Run(id, Emit), rest);
      ExecThen(cfg, s1, Run(id, CasSynced(false)), [Run(id, Emit)] + rest);
      ExecThen(cfg, s, Run(id, ReadTop), [Run(id, CasSynced(false))] + ([Run(id, Emit)] + rest));
    }
  }

  /** A loop before its test of `requests` that is left alone ends within three more steps. */
  lemma SoloCloses(cfg: Config, s: State, id: nat) returns (actions: seq<Action>)
    requires id in s.loops && s.loops[id].Closing? && s.loops[id].synced >= s.top
    ensures Exec(cfg, s, actions) == Some(s.(requests := 0, loops := s.loops - {id}))
    ensures Solo(id, actions)
  {
    var cas := Run(id, CasRequests);
    if s.requests == s.loops[id].requests {
      actions := [cas];
      ExecThen(cfg, s, cas, []);
    } else {
      var s1 := Step(cfg, s, cas).value;
      var s2 := Step(cfg, s1, Run(id, ReadTop)).value;
      actions := [cas] + ([Run(id, ReadTop)] + [cas]);
      assert s2.loops - {id} == s.loops - {id};
      ExecThen(cfg, s2, cas, []);
      ExecThen(cfg, s1, Run(id, ReadTop), [cas]);
      ExecThen(cfg, s, cas, [Run(id, ReadTop)] + [cas]);
    }
  }

  /** The outcome of `mdv_syncerlog_schedule` when nothing interferes. */
  function Scheduled(cfg: Config, s: State, id: nat, pos: nat): State
    requires cfg.batch > 0 && s.synced <= s.top
  {
    if Max(s.synced, pos) >= s.top then s.(requests := 0, loops := s.loops - {id})
    else var bs := Batches(s.synced, s.top, cfg.batch);
      s.(requests := 0, synced := s.top, claims := s.claims + bs, jobs := s.jobs + bs, loops := s.loops - {id})
  }

  /** Obstruction freedom: a loop that runs alone always ends, resets `requests`, and has claimed
      everything up to the top in batches counted from `synced`; a larger position reported by the
      peer moves no batch, it only ends the loop when it reaches the top. */
  lemma LoopAloneFinishes(cfg: Config, s: State, id: nat, pos: nat) returns (actions: seq<Action>)
    requires cfg.batch > 0 && s.synced <= s.top
    requires id in s.loops && s.loops[id] == Entered(pos)
    ensures Exec(cfg, s, actions) == Some(Scheduled(cfg, s, id, pos))
    ensures Solo(id, actions)
  {
    var load, loadSynced, read := Run(id, LoadRequests), Run(id, LoadSynced), Run(id, ReadTop);
    var s1 := Step(cfg, s, load).value;
    var s2 := Step(cfg, s1, loadSynced).value;
    var y := Max(s.synced, pos);
    var tail;
    if y >= s.top {
      var s3 := Step(cfg, s2, read).value;
      var close := SoloCloses(cfg, s3, id);
      tail := [read] + close;
      ExecThen(cfg, s2, read, close);
      assert s3.loops - {id} == s.loops - {id};
    } else if y != s.synced {
      var s3 := Step(cfg, s2, read).value;
      var s4 := Step(cfg, s3, Run(id, CasSynced(false))).value;
      var finish := SoloTail(cfg, s4, id, s.requests);
      tail := [read] + ([Run(id, CasSynced(false))] + finish);
      ExecThen(cfg, s3, Run(id, CasSynced(false)), finish);
      ExecThen(cfg, s2, read, [Run(id, CasSynced(false))] + finish);
      assert s4.loops - {id} == s.loops - {id};
    } else {
      tail := SoloTail(cfg, s2, id, s.requests);
      assert s2.loops - {id} == s.loops - {id};
    }
    actions := [load] + ([loadSynced] + tail);
    ExecThen(cfg, s1, loadSynced, tail);
    ExecThen(cfg, s, load, [loadSynced] + tail);
  }

  lemma SoloTail(cfg: Config, s: State, id: nat, q: nat) returns (actions: seq<Action>)
    requires cfg.batch > 0 && s.synced <= s.top
    requires id in s.loops && s.loops[id] == Reading(q, s.synced)
    ensures var bs := Batches(s.synced, s.top, cfg.batch);
      Exec(cfg, s, actions) == Some(s.(requests := 0, synced := s.top, claims := s.claims + bs, jobs := s.jobs + bs,
                                       loops := s.loops - {id}))
    ensures Solo(id, actions)
  {
    var claim := SoloClaims(cfg, s, id, q);
    var s' := Claimed(cfg, s, id, q);
    var close := SoloCloses(cfg, s', id);
    ExecAppend(cfg, s, claim, close);
    assert s'.loops - {id} == s.loops - {id};
    actions := claim + close;
  }

  /** The jobs, the range just claimed and the batches behind it are all jobs. */
  ghost predicate StillToEmit(jobs: seq<Range>, range: Range, top: nat, batch: nat, all: seq<Range>)
    requires batch > 0
  {
    jobs + ([range] + Batches(range.right, top, batch)) == all
  }

  lemma EmitNext(jobs: seq<Range>, range: Range, top: nat, batch: nat, all: seq<Range>)
    requires batch > 0 && StillToEmit(jobs, range, top, batch, all)
    ensures range.right >= top ==> jobs + [range] == all
    ensures range.right < top ==>
      var right := if top > range.right + batch then range.right + batch else top;
      StillToEmit(jobs + [range], Range(range.right, right), top, batch, all)
  {
    var rest := Batches(range.right, top, batch);
    assert jobs + ([range] + rest) == (jobs + [range]) + rest;
    if range.right >= top { assert (jobs + [range]) + [] == jobs + [range]; }
  }

  /** The shared fields of `mdv_syncerlog` and its schedule loops as written, run by one thread. */
  class Syncer {
    var requests: nat
    var synced: nat
    var jobs: seq<Range>

    constructor ()
      ensures requests == 0 && synced == 0 && jobs == []
    {
      requests, synced, jobs := 0, 0, [];
    }

    /** The innermost loop: claim one range of at most a batch, starting from what `synced`
        holds; a local position at or past the top claims nothing. */
    method ClaimOne(batch: nat, top: nat, local: nat) returns (claimed: bool, range: Range)
      requires batch > 0 && synced <= top && synced <= local
      modifies this`synced
      ensures claimed <==> local < top
      ensures !claimed ==> synced == old(synced)
      ensures claimed ==> range.left == old(synced) < range.right == synced <= top
      ensures claimed ==> range.right == if top > range.left + batch then range.left + batch else top
    {
      claimed, range := false, Range(local, local);
      var y := local;
      while !claimed && y < top
        invariant !claimed ==> synced == old(synced) <= y <= local && (local < top ==> y < top)
        invariant y < local ==> local < top
        invariant claimed ==> local < top && range.left == old(synced) < range.right == synced <= top
        invariant claimed ==> range.right == if top > range.left + batch then range.left + batch else top
        decreases !claimed, y
      {
        var right := if top > y + batch then y + batch else top;
        if synced == y {
          synced, claimed, range := right, true, Range(y, right);
        } else {
          y := synced;
        }
      }
    }

    /** `mdv_syncerlog_schedule` emits exactly the batches of the machine's undisturbed loop. */
    method Schedule(batch: nat, top: nat, pos: nat)
      requires batch > 0 && synced <= top
      modifies this
      ensures requests == 0
      ensures synced == if Max(old(synced), pos) >= top then old(synced) else top
      ensures jobs == old(jobs) + if Max(old(synced), pos) >= top then [] else Batches(old(synced), top, batch)
    {
      ghost var jobs0 := jobs;
      ghost var all := if Max(synced, pos) >= top then [] else Batches(synced, top, batch);
      var claimed, range := ClaimOne(batch, top, Max(synced, pos));
      while claimed
        invariant claimed ==> range.right == synced <= top && all != []
        invariant claimed ==> StillToEmit(jobs, range, top, batch, jobs0 + all)
        invariant !claimed ==> jobs == jobs0 + all && synced == if all == [] then old(synced) else top
        decreases claimed, top - synced
      {
        EmitNext(jobs, range, top, batch, jobs0 + all);
        jobs := jobs + [range];
        if range.right < top {
          claimed, range := ClaimOne(batch, top, range.right);
        } else {
          claimed := false;
        }
      }
      requests := 0;
    }
  }
}
