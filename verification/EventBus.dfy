/**
 Event-bus subscriber lists: lists are never changed but replaced under a mutex, a running dispatch
 keeps a reference to the list it started with, and unsubscribing waits for the list it replaced.
 */
module EventBus {
  import opened Common

  type Type = nat

  /** A subscriber: its argument and handler. */
  type Sub = nat

  type Id = nat

  /** A subscriber list and its reference counter. */
  datatype List = List(subs: seq<Sub>, refs: nat)

  /** A dispatch of an event: how many subscribers it has called, and what the list held when it
      started. */
  datatype Dispatch = Dispatch(typ: Type, next: nat, snapshot: seq<Sub>)

  /** An unsubscribe waiting for the dispatches that hold the list it replaced. */
  datatype Wait = Wait(typ: Type, sub: Sub)

  /** Who refers to a list: the table of handlers, a dispatch, or a waiting unsubscribe. */
  datatype Holder = InTable(t: Type) | ByDispatch(d: nat) | ByWait(w: nat)

  /** `held` is the list each holder refers to; `top` bounds the lists allocated so far. */
  datatype State = State(held: map<Holder, Id>, lists: map<Id, List>, dispatches: map<nat, Dispatch>,
                         waits: map<nat, Wait>, top: Id)

  const INIT := State(map[], map[], map[], map[], 0)

  datatype Action =
    | Subscribe(t: Type, x: Sub)
    | UnsubBegin(w: nat, t: Type, x: Sub)   // the part under the mutex
    | UnsubEnd(w: nat)                      // the wait is over and the call returns
    | Start(d: nat, t: Type)
    | Call(d: nat)
    | Finish(d: nat)

  // ------------------------------------------------------------------ steps

  function Erased(s: seq<Sub>, x: Sub): seq<Sub>
    requires x in s
  {
    s[..Position(s, x)] + s[Position(s, x) + 1..]
  }

  /** `s` is `rest` with x put in somewhere: the others keep their order. */
  ghost predicate Inserted(rest: seq<Sub>, x: Sub, s: seq<Sub>) {
    exists p :: 0 <= p <= |rest| && s == rest[..p] + [x] + rest[p..]
  }

  lemma ErasedIs(s: seq<Sub>, x: Sub)
    requires x in s && Distinct(s)
    ensures Distinct(Erased(s, x)) && x !in Erased(s, x)
    ensures forall y :: y in Erased(s, x) <==> y in s && y != x
  {
    var p := Position(s, x);
    forall y | y in s && y != x
      ensures y in Erased(s, x)
    {
      var i := Position(s, y);
      assert Erased(s, x)[if i < p then i else i - 1] == y;
    }
  }

  lemma ErasedKeepsOrder(s: seq<Sub>, x: Sub)
    requires x in s
    ensures Inserted(Erased(s, x), x, s)
  {
    var p, rest := Position(s, x), Erased(s, x);
    assert rest[..p] == s[..p] && rest[p..] == s[p + 1..];
    assert s == rest[..p] + [x] + rest[p..];
  }

  /** Holder h refers to a list. */
  predicate Refers(s: State, h: Holder) { h in s.held && s.held[h] in s.lists }

  function Of(s: State, h: Holder): List
    requires Refers(s, h)
  {
    s.lists[s.held[h]]
  }

  /** The subscribers of an event type. */
  function Subs(s: State, t: Type): seq<Sub> {
    if Refers(s, InTable(t)) then Of(s, InTable(t)).subs else []
  }

  /** Holder h gives its list up; a list nobody holds is freed. */
  function Released(s: State, h: Holder): State
    requires Refers(s, h)
  {
    var id, l := s.held[h], Of(s, h);
    s.(held := s.held - {h}, lists := if l.refs <= 1 then s.lists - {id} else s.lists[id := List(l.subs, l.refs - 1)])
  }

  /** Holder h, which holds nothing, refers to list id too. */
  function Retained(s: State, h: Holder, id: Id): State
    requires h !in s.held && id in s.lists
  {
    s.(held := s.held[h := id], lists := s.lists[id := List(s.lists[id].subs, s.lists[id].refs + 1)])
  }

  /** The reference of h is passed to g. */
  function Passed(s: State, h: Holder, g: Holder): State
    requires h in s.held && g !in s.held
  {
    s.(held := (s.held - {h})[g := s.held[h]])
  }

  /** Holder h gets a new list. */
  function Created(s: State, h: Holder, subs: seq<Sub>): State
    requires h !in s.held
  {
    s.(held := s.held[h := s.top], lists := s.lists[s.top := List(subs, 1)], top := s.top + 1)
  }

  predicate Enabled(s: State, a: Action) {
    match a
    case Subscribe(t, _) => InTable(t) in s.held ==> Refers(s, InTable(t))
    case UnsubBegin(w, t, _) => w !in s.waits && ByWait(w) !in s.held
    case UnsubEnd(w) => w in s.waits && Refers(s, ByWait(w)) && Of(s, ByWait(w)).refs <= 1
    case Start(d, t) =>
      d !in s.dispatches && ByDispatch(d) !in s.held && (InTable(t) in s.held ==> Refers(s, InTable(t)))
    case Call(d) => d in s.dispatches && Refers(s, ByDispatch(d)) && s.dispatches[d].next < |Of(s, ByDispatch(d)).subs|
    case Finish(d) =>
      d in s.dispatches && Refers(s, ByDispatch(d)) && s.dispatches[d].next >= |Of(s, ByDispatch(d)).subs|
  }

  function Step(s: State, a: Action): State
    requires Enabled(s, a)
  {
    match a
    case Subscribe(t, x) =>
      var h := InTable(t);
      if x in Subs(s, t) then s
      else if h !in s.held then Created(s, h, [x])
      else Created(Released(s, h), h, Subs(s, t) + [x])
    case UnsubBegin(w, t, x) =>
      var h := InTable(t);
      if x !in Subs(s, t) then s
      else Created(Passed(s, h, ByWait(w)), h, Erased(Subs(s, t), x)).(waits := s.waits[w := Wait(t, x)])
    case UnsubEnd(w) => Released(s, ByWait(w)).(waits := s.waits - {w})
    case Start(d, t) =>
      var h := InTable(t);
      if h !in s.held then s
      else Retained(s, ByDispatch(d), s.held[h]).(dispatches := s.dispatches[d := Dispatch(t, 0, Of(s, h).subs)])
    case Call(d) => s.(dispatches := s.dispatches[d := s.dispatches[d].(next := s.dispatches[d].next + 1)])
    case Finish(d) => Released(s, ByDispatch(d)).(dispatches := s.dispatches - {d})
  }

  /** The subscriber a dispatch calls in this step. */
  function Called(s: State, d: nat): Sub
    requires Enabled(s, Call(d))
  {
    Of(s, ByDispatch(d)).subs[s.dispatches[d].next]
  }

  // ------------------------------------------------------------------ reference counts

  function Holders(s: State, id: Id): set<Holder> { set h | h in s.held && s.held[h] == id }

  /** The counter of each list counts its holders, and what is held is allocated. */
  ghost predicate Counted(s: State) {
    && (forall h :: h in s.held ==> s.held[h] in s.lists)
    && (forall id :: id in s.lists ==> id < s.top && s.lists[id].refs == |Holders(s, id)| && s.lists[id].refs > 0)
  }

  /** Lists in the table or waited for are not shared. */
  ghost predicate Owned(s: State) {
    forall h, g :: h in s.held && g in s.held && h != g && s.held[h] == s.held[g] ==> h.ByDispatch? || g.ByDispatch?
  }

  ghost predicate Sound(s: State) {
    Counted(s) && Owned(s) && forall id :: id in s.lists ==> Distinct(s.lists[id].subs)
  }

  /** No list is changed, and a freed one does not come back. */
  ghost predicate Keeps(s: State, s': State) {
    && s.top <= s'.top
    && (forall id :: id in s.lists && id in s'.lists ==> s'.lists[id].subs == s.lists[id].subs)
    && (forall id :: id in s'.lists && id < s.top ==> id in s.lists)
  }

  lemma ReleasedSound(s: State, h: Holder)
    requires Sound(s) && Refers(s, h)
    ensures Sound(Released(s, h)) && Keeps(s, Released(s, h))
  {
    var s', id := Released(s, h), s.held[h];
    assert Holders(s', id) == Holders(s, id) - {h};
    assert h in Holders(s, id);
    forall k | k != id
      ensures Holders(s', k) == Holders(s, k)
    {
    }
    if s.lists[id].refs == 1 {
      assert |Holders(s', id)| == 0;
      forall g | g in s'.held
        ensures s'.held[g] != id
      {
        assert s'.held[g] == id ==> g in Holders(s', id);
      }
    }
  }

  lemma RetainedSound(s: State, d: nat, id: Id)
    requires Sound(s) && ByDispatch(d) !in s.held && id in s.lists
    ensures Sound(Retained(s, ByDispatch(d), id)) && Keeps(s, Retained(s, ByDispatch(d), id))
  {
    var s' := Retained(s, ByDispatch(d), id);
    assert Holders(s', id) == Holders(s, id) + {ByDispatch(d)};
    forall k | k != id
      ensures Holders(s', k) == Holders(s, k)
    {
    }
  }

  lemma PassedSound(s: State, h: Holder, g: Holder)
    requires Sound(s) && h in s.held && g !in s.held && !h.ByDispatch?
    ensures Sound(Passed(s, h, g)) && Keeps(s, Passed(s, h, g))
  {
    var s', id := Passed(s, h, g), s.held[h];
    assert Holders(s', id) == Holders(s, id) - {h} + {g};
    assert h in Holders(s, id) && g !in Holders(s, id);
    forall k | k != id
      ensures Holders(s', k) == Holders(s, k)
    {
    }
  }

  lemma CreatedSound(s: State, h: Holder, subs: seq<Sub>)
    requires Sound(s) && h !in s.held && Distinct(subs)
    ensures Sound(Created(s, h, subs)) && Keeps(s, Created(s, h, subs))
  {
    var s' := Created(s, h, subs);
    assert Holders(s', s.top) == {h};
    forall k | k != s.top
      ensures Holders(s', k) == Holders(s, k)
    {
    }
  }

  /** Only holder h, and any in `more`, changed its list. */
  predicate SameHeld(s: State, s': State, changed: set<Holder>) {
    && (forall h :: h in s.held && h !in changed ==> h in s'.held && s'.held[h] == s.held[h])
    && (forall h :: h in s'.held && h !in changed ==> h in s.held)
  }

  /** The holder an action works for. */
  function Changed(a: Action): set<Holder> {
    match a
    case Subscribe(t, _) => {InTable(t)}
    case UnsubBegin(w, t, _) => {InTable(t), ByWait(w)}
    case UnsubEnd(w) => {ByWait(w)}
    case Start(d, _) => {ByDispatch(d)}
    case Call(_) => {}
    case Finish(d) => {ByDispatch(d)}
  }

  lemma SubscribeSound(s: State, t: Type, x: Sub)
    requires Sound(s) && Enabled(s, Subscribe(t, x))
    ensures Sound(Step(s, Subscribe(t, x))) && Keeps(s, Step(s, Subscribe(t, x)))
  {
    var h := InTable(t);
    if x !in Subs(s, t) {
      if h in s.held {
        ReleasedSound(s, h);
        CreatedSound(Released(s, h), h, Subs(s, t) + [x]);
      } else {
        CreatedSound(s, h, [x]);
      }
    }
  }

  lemma UnsubBeginSound(s: State, w: nat, t: Type, x: Sub)
    requires Sound(s) && Enabled(s, UnsubBegin(w, t, x))
    ensures Sound(Step(s, UnsubBegin(w, t, x))) && Keeps(s, Step(s, UnsubBegin(w, t, x)))
  {
    var h := InTable(t);
    if x in Subs(s, t) {
      ErasedIs(Subs(s, t), x);
      PassedSound(s, h, ByWait(w));
      CreatedSound(Passed(s, h, ByWait(w)), h, Erased(Subs(s, t), x));
    }
  }

  lemma StepSound(s: State, a: Action)
    requires Sound(s) && Enabled(s, a)
    ensures Sound(Step(s, a)) && Keeps(s, Step(s, a))
  {
    match a
    case Subscribe(t, x) => SubscribeSound(s, t, x);
    case UnsubBegin(w, t, x) => UnsubBeginSound(s, w, t, x);
    case UnsubEnd(w) => ReleasedSound(s, ByWait(w));
    case Start(d, t) => if InTable(t) in s.held { RetainedSound(s, d, s.held[InTable(t)]); }
    case Call(d) =>
    case Finish(d) => ReleasedSound(s, ByDispatch(d));
  }

  lemma StepHeld(s: State, a: Action)
    requires Enabled(s, a)
    ensures SameHeld(s, Step(s, a), Changed(a))
  {
  }

  // ------------------------------------------------------------------ the invariant

  /** A dispatch iterates the list it started with, unchanged and without duplicates. */
  predicate Iterates(s: State, d: nat) {
    && d in s.dispatches && Refers(s, ByDispatch(d))
    && Of(s, ByDispatch(d)).subs == s.dispatches[d].snapshot
    && s.dispatches[d].next <= |s.dispatches[d].snapshot|
  }

  /** Running dispatches and waiting unsubscribes are those that hold lists. */
  ghost predicate Aligned(s: State) {
    && (forall d :: d in s.dispatches <==> ByDispatch(d) in s.held)
    && (forall w :: w in s.waits <==> ByWait(w) in s.held)
  }

  ghost predicate Inv(s: State) { Sound(s) && Aligned(s) && forall d :: d in s.dispatches ==> Iterates(s, d) }

  lemma StepAligned(s: State, a: Action)
    requires Aligned(s) && Enabled(s, a)
    ensures Aligned(Step(s, a))
  {
  }

  /** What a step does to a dispatch that was running: at most one more subscriber is called. */
  lemma StepDispatch(s: State, a: Action, d: nat)
    requires Enabled(s, a) && d in Step(s, a).dispatches && !(a.Start? && a.d == d)
    ensures d in s.dispatches
    ensures var p, q := s.dispatches[d], Step(s, a).dispatches[d];
      q.typ == p.typ && q.snapshot == p.snapshot && q.next == if a == Call(d) then p.next + 1 else p.next
  {
  }

  lemma IteratesKept(s: State, s': State, d: nat)
    requires Iterates(s, d) && Counted(s') && Keeps(s, s') && d in s'.dispatches
    requires ByDispatch(d) in s'.held && s'.held[ByDispatch(d)] == s.held[ByDispatch(d)]
    requires s'.dispatches[d].snapshot == s.dispatches[d].snapshot
    requires s'.dispatches[d].next <= |s.dispatches[d].snapshot|
    ensures Iterates(s', d)
  {
  }

  lemma StepIterates(s: State, a: Action, d: nat)
    requires (d in s.dispatches ==> Iterates(s, d)) && Enabled(s, a) && d in Step(s, a).dispatches
    requires Counted(Step(s, a)) && Keeps(s, Step(s, a)) && SameHeld(s, Step(s, a), Changed(a))
    ensures Iterates(Step(s, a), d)
  {
    if !(a.Start? && a.d == d) {
      StepDispatch(s, a, d);
      IteratesKept(s, Step(s, a), d);
    }
  }

  lemma StepInv(s: State, a: Action)
    requires Inv(s) && Enabled(s, a)
    ensures Inv(Step(s, a))
  {
    StepSound(s, a);
    StepHeld(s, a);
    StepAligned(s, a);
    forall d | d in Step(s, a).dispatches
      ensures Iterates(Step(s, a), d)
    {
      StepIterates(s, a, d);
    }
  }

  /** The state after a run from s; none when a step was not possible. */
  function Run(s: State, acts: seq<Action>): Option<State> {
    if acts == [] then Some(s) else
    var r := Run(s, acts[..|acts| - 1]);
    if r.Some? && Enabled(r.value, acts[|acts| - 1]) then Some(Step(r.value, acts[|acts| - 1])) else None
  }

  lemma {:induction false} RunInv(s: State, acts: seq<Action>)
    requires Inv(s) && Run(s, acts).Some?
    ensures Inv(Run(s, acts).value)
    decreases |acts|
  {
    if acts != [] {
      RunInv(s, acts[..|acts| - 1]);
      StepInv(Run(s, acts[..|acts| - 1]).value, acts[|acts| - 1]);
    }
  }

  /** In every run each call of a dispatch is the next subscriber of the list as it was when the
      dispatch started; that list has no duplicates. */
  lemma DispatchIteratesSnapshot(acts: seq<Action>, d: nat)
    requires Run(INIT, acts).Some? && Enabled(Run(INIT, acts).value, Call(d))
    ensures var s := Run(INIT, acts).value;
      && Distinct(s.dispatches[d].snapshot)
      && s.dispatches[d].next < |s.dispatches[d].snapshot|
      && Called(s, d) == s.dispatches[d].snapshot[s.dispatches[d].next]
      && Step(s, Call(d)).dispatches[d].snapshot == s.dispatches[d].snapshot
  {
    RunInv(INIT, acts);
    assert Iterates(Run(INIT, acts).value, d);
  }

  /** A dispatch starts with the subscribers of its type at that moment, all of them still to be
      called, and ends when every one of them was called. */
  lemma DispatchCallsAll(acts: seq<Action>, d: nat, t: Type)
    requires Run(INIT, acts).Some?
    ensures var s := Run(INIT, acts).value;
      && (Enabled(s, Start(d, t)) && InTable(t) in s.held ==>
            d in Step(s, Start(d, t)).dispatches && Step(s, Start(d, t)).dispatches[d] == Dispatch(t, 0, Subs(s, t)))
      && (Enabled(s, Finish(d)) <==> d in s.dispatches && s.dispatches[d].next == |s.dispatches[d].snapshot|)
  {
    RunInv(INIT, acts);
    var s := Run(INIT, acts).value;
    if d in s.dispatches { assert Iterates(s, d); }
  }

  /** When unsubscribe returns, no dispatch holds the list it replaced. */
  lemma ReplacedListDrained(acts: seq<Action>, w: nat, d: nat)
    requires Run(INIT, acts).Some? && Enabled(Run(INIT, acts).value, UnsubEnd(w))
    requires d in Run(INIT, acts).value.dispatches
    ensures var s := Run(INIT, acts).value;
      ByDispatch(d) in s.held && s.held[ByDispatch(d)] != s.held[ByWait(w)]
  {
    RunInv(INIT, acts);
    var s := Run(INIT, acts).value;
    assert Iterates(s, d);
    SoleHolder(s, ByWait(w), ByDispatch(d));
  }

  lemma SoleHolder(s: State, h: Holder, g: Holder)
    requires Counted(s) && Refers(s, h) && Of(s, h).refs <= 1 && g in s.held && g != h
    ensures s.held[g] != s.held[h]
  {
    var hs := Holders(s, s.held[h]);
    assert h in hs && |hs - {h}| == 0;
    assert g !in hs - {h};
  }

  // ------------------------------------------------------------------ after unsubscribing

  lemma SubsKept(s: State, s': State, t: Type)
    requires Counted(s) && Counted(s') && Keeps(s, s')
    requires InTable(t) in s.held <==> InTable(t) in s'.held
    requires InTable(t) in s.held ==> s'.held[InTable(t)] == s.held[InTable(t)]
    ensures Subs(s', t) == Subs(s, t)
  {
  }

  lemma SubsChanged(s: State, a: Action, t: Type, x: Sub)
    requires Sound(s) && Enabled(s, a) && InTable(t) in Changed(a) && a != Subscribe(t, x) && x !in Subs(s, t)
    ensures x !in Subs(Step(s, a), t)
  {
    if a.UnsubBegin? && a.x in Subs(s, t) { ErasedIs(Subs(s, t), a.x); }
  }

  lemma SubsStep(s: State, a: Action, t: Type, x: Sub)
    requires Sound(s) && Enabled(s, a) && a != Subscribe(t, x) && x !in Subs(s, t)
    ensures x !in Subs(Step(s, a), t)
  {
    if InTable(t) in Changed(a) {
      SubsChanged(s, a, t, x);
    } else {
      StepSound(s, a);
      StepHeld(s, a);
      SubsKept(s, Step(s, a), t);
    }
  }

  predicate NoSubscribe(acts: seq<Action>, t: Type, x: Sub) {
    forall i :: 0 <= i < |acts| ==> acts[i] != Subscribe(t, x)
  }

  /** A dispatch that started before s1, or one whose list never held x. */
  predicate OldOrClear(s1: State, s: State, x: Sub, d: nat)
    requires d in s.dispatches && ByDispatch(d) in s.held
  {
    if s.held[ByDispatch(d)] >= s1.top then x !in s.dispatches[d].snapshot
    else Old(s1, s, d)
  }

  predicate Old(s1: State, s: State, d: nat)
    requires d in s.dispatches && ByDispatch(d) in s.held
  {
    && d in s1.dispatches && ByDispatch(d) in s1.held && s1.held[ByDispatch(d)] == s.held[ByDispatch(d)]
    && s1.dispatches[d].typ == s.dispatches[d].typ && s1.dispatches[d].snapshot == s.dispatches[d].snapshot
    && s1.dispatches[d].next <= s.dispatches[d].next
  }

  /** State s follows an unsubscribe of x from t made in s1, with no subscription of x to t since. */
  ghost predicate Since(s1: State, s: State, t: Type, x: Sub) {
    && Inv(s) && s1.top <= s.top && x !in Subs(s, t)
    && (InTable(t) in s.held ==> s.held[InTable(t)] >= s1.top)
    && (forall d :: d in s.dispatches && s.dispatches[d].typ == t ==> OldOrClear(s1, s, x, d))
  }

  lemma SinceDispatch(s1: State, s: State, a: Action, t: Type, x: Sub, d: nat)
    requires Enabled(s, a) && Counted(s) && Aligned(s) && x !in Subs(s, t)
    requires InTable(t) in s.held ==> s.held[InTable(t)] >= s1.top
    requires d in s.dispatches && s.dispatches[d].typ == t ==> OldOrClear(s1, s, x, d)
    requires Aligned(Step(s, a)) && SameHeld(s, Step(s, a), Changed(a))
    requires d in Step(s, a).dispatches && Step(s, a).dispatches[d].typ == t
    ensures OldOrClear(s1, Step(s, a), x, d)
  {
    if !(a.Start? && a.d == d) { StepDispatch(s, a, d); }
  }

  lemma SinceTable(s1: State, s: State, a: Action, t: Type)
    requires Enabled(s, a) && s1.top <= s.top && SameHeld(s, Step(s, a), Changed(a))
    requires InTable(t) in s.held ==> s.held[InTable(t)] >= s1.top
    ensures InTable(t) in Step(s, a).held ==> Step(s, a).held[InTable(t)] >= s1.top
  {
  }

  lemma SinceStep(s1: State, s: State, a: Action, t: Type, x: Sub)
    requires Since(s1, s, t, x) && Enabled(s, a) && a != Subscribe(t, x)
    ensures Since(s1, Step(s, a), t, x)
  {
    var s' := Step(s, a);
    StepInv(s, a);
    assert s.top <= s'.top by { StepSound(s, a); }
    SubsStep(s, a, t, x);
    StepHeld(s, a);
    SinceTable(s1, s, a, t);
    forall d | d in s'.dispatches && s'.dispatches[d].typ == t
      ensures OldOrClear(s1, s', x, d)
    {
      SinceDispatch(s1, s, a, t, x, d);
    }
  }

  lemma {:induction false} SinceRun(s1: State, s: State, acts: seq<Action>, t: Type, x: Sub)
    requires Since(s1, s, t, x) && Run(s, acts).Some? && NoSubscribe(acts, t, x)
    ensures Since(s1, Run(s, acts).value, t, x)
    decreases |acts|
  {
    if acts != [] {
      SinceRun(s1, s, acts[..|acts| - 1], t, x);
      SinceStep(s1, Run(s, acts[..|acts| - 1]).value, acts[|acts| - 1], t, x);
    }
  }

  lemma SinceBegin(s1: State, w: nat, t: Type, x: Sub)
    requires Inv(s1) && Enabled(s1, UnsubBegin(w, t, x)) && x in Subs(s1, t)
    ensures Since(s1, Step(s1, UnsubBegin(w, t, x)), t, x)
  {
    StepInv(s1, UnsubBegin(w, t, x));
    ErasedIs(Subs(s1, t), x);
    var s := Step(s1, UnsubBegin(w, t, x));
    forall d | d in s.dispatches
      ensures Old(s1, s, d) && s.held[ByDispatch(d)] < s1.top
    {
      assert Iterates(s1, d);
    }
  }

  /** After an unsubscribe, a dispatch started later never calls the handler until it is subscribed
      again: a dispatch of that type that still has it in its list was running before. */
  lemma LaterDispatchesNeverCall(s1: State, w: nat, t: Type, x: Sub, acts: seq<Action>, d: nat)
    requires Inv(s1) && Enabled(s1, UnsubBegin(w, t, x)) && x in Subs(s1, t)
    requires NoSubscribe(acts, t, x) && Run(Step(s1, UnsubBegin(w, t, x)), acts).Some?
    requires var s := Run(Step(s1, UnsubBegin(w, t, x)), acts).value;
      Enabled(s, Call(d)) && s.dispatches[d].typ == t && Called(s, d) == x
    ensures Old(s1, Run(Step(s1, UnsubBegin(w, t, x)), acts).value, d)
  {
    var s0 := Step(s1, UnsubBegin(w, t, x));
    SinceBegin(s1, w, t, x);
    SinceRun(s1, s0, acts, t, x);
    var s := Run(s0, acts).value;
    assert Iterates(s, d);
    assert OldOrClear(s1, s, x, d);
  }

  // ------------------------------------------------------------------ dispatches of older lists

  /** A run in which the unsubscribe made in s1 returns and then dispatch d is about to call x. */
  predicate CallsLate(s1: State, w: nat, t: Type, x: Sub, acts: seq<Action>, more: seq<Action>, d: nat)
    requires Enabled(s1, UnsubBegin(w, t, x))
  {
    && NoSubscribe(acts, t, x) && NoSubscribe(more, t, x)
    && (forall i :: 0 <= i < |acts| ==> acts[i] != UnsubEnd(w))
    && var r := Run(Step(s1, UnsubBegin(w, t, x)), acts);
    && r.Some? && Enabled(r.value, UnsubEnd(w))
    && var q := Run(Step(r.value, UnsubEnd(w)), more);
    && q.Some? && Enabled(q.value, Call(d)) && q.value.dispatches[d].typ == t && Called(q.value, d) == x
  }

  /** A dispatch of that type holds a list that was replaced before and has x ahead. */
  predicate AheadElsewhere(s: State, t: Type, x: Sub, d: nat) {
    && d in s.dispatches && s.dispatches[d].typ == t && s.dispatches[d].next <= |s.dispatches[d].snapshot|
    && ByDispatch(d) in s.held && InTable(t) in s.held && s.held[ByDispatch(d)] != s.held[InTable(t)]
    && x in s.dispatches[d].snapshot[s.dispatches[d].next..]
  }

  lemma {:induction false} WaitStays(s: State, acts: seq<Action>, w: nat)
    requires Inv(s) && w in s.waits && Run(s, acts).Some? && forall i :: 0 <= i < |acts| ==> acts[i] != UnsubEnd(w)
    ensures var q := Run(s, acts).value;
      ByWait(w) in s.held && ByWait(w) in q.held && q.held[ByWait(w)] == s.held[ByWait(w)]
    decreases |acts|
  {
    if acts != [] {
      var init := acts[..|acts| - 1];
      WaitStays(s, init, w);
      RunInv(s, init);
      StepHeld(Run(s, init).value, acts[|acts| - 1]);
    }
  }

  lemma {:induction false} FreedStays(s: State, acts: seq<Action>, id: Id)
    requires Inv(s) && id < s.top && id !in s.lists && Run(s, acts).Some?
    ensures id < Run(s, acts).value.top && id !in Run(s, acts).value.lists
    decreases |acts|
  {
    if acts != [] {
      var init := acts[..|acts| - 1];
      FreedStays(s, init, id);
      RunInv(s, init);
      StepSound(Run(s, init).value, acts[|acts| - 1]);
    }
  }

  /** When the unsubscribe has returned, the list it replaced is gone. */
  lemma ReturnedSince(s1: State, w: nat, t: Type, x: Sub, acts: seq<Action>)
    requires Inv(s1) && Enabled(s1, UnsubBegin(w, t, x)) && x in Subs(s1, t)
    requires NoSubscribe(acts, t, x) && forall i :: 0 <= i < |acts| ==> acts[i] != UnsubEnd(w)
    requires var r := Run(Step(s1, UnsubBegin(w, t, x)), acts); r.Some? && Enabled(r.value, UnsubEnd(w))
    ensures var s := Step(Run(Step(s1, UnsubBegin(w, t, x)), acts).value, UnsubEnd(w));
      Since(s1, s, t, x) && s1.held[InTable(t)] !in s.lists && s1.held[InTable(t)] < s.top
  {
    var s0 := Step(s1, UnsubBegin(w, t, x));
    SinceBegin(s1, w, t, x);
    SinceRun(s1, s0, acts, t, x);
    WaitStays(s0, acts, w);
    SinceStep(s1, Run(s0, acts).value, UnsubEnd(w), t, x);
  }

  lemma CallerIsOld(s1: State, s: State, t: Type, x: Sub, d: nat)
    requires Since(s1, s, t, x) && InTable(t) in s1.held && s1.held[InTable(t)] !in s.lists
    requires Enabled(s, Call(d)) && s.dispatches[d].typ == t && Called(s, d) == x
    ensures AheadElsewhere(s1, t, x, d)
  {
    assert Iterates(s, d) && OldOrClear(s1, s, x, d);
    assert s1.dispatches[d].snapshot[s.dispatches[d].next] == x;
  }

  lemma LateCallerIsOld(s1: State, w: nat, t: Type, x: Sub, acts: seq<Action>, more: seq<Action>, d: nat)
    requires Inv(s1) && Enabled(s1, UnsubBegin(w, t, x)) && x in Subs(s1, t)
    requires CallsLate(s1, w, t, x, acts, more, d)
    ensures AheadElsewhere(s1, t, x, d)
  {
    ReturnedSince(s1, w, t, x, acts);
    var s := Step(Run(Step(s1, UnsubBegin(w, t, x)), acts).value, UnsubEnd(w));
    SinceRun(s1, s, more, t, x);
    FreedStays(s, more, s1.held[InTable(t)]);
    CallerIsOld(s1, Run(s, more).value, t, x, d);
  }

  lemma {:induction false} RunAppend(s: State, xs: seq<Action>, ys: seq<Action>)
    requires Run(s, xs).Some?
    ensures Run(s, xs + ys) == Run(Run(s, xs).value, ys)
    decreases |ys|
  {
    if ys == [] {
      assert xs + ys == xs;
    } else {
      RunAppend(s, xs, ys[..|ys| - 1]);
      assert (xs + ys)[..|xs + ys| - 1] == xs + ys[..|ys| - 1];
    }
  }

  lemma RunOne(s: State, a: Action)
    requires Enabled(s, a)
    ensures Run(s, [a]) == Some(Step(s, a))
  {
  }

  lemma RunCons(s: State, a: Action, acts: seq<Action>)
    requires Enabled(s, a)
    ensures Run(s, [a] + acts) == Run(Step(s, a), acts)
  {
    RunOne(s, a);
    RunAppend(s, [a], acts);
  }

  /** Steps of running dispatches only. */
  predicate Running(acts: seq<Action>) { forall i :: 0 <= i < |acts| ==> acts[i].Call? || acts[i].Finish? }

  /** A dispatch can call the subscribers up to position k. */
  lemma {:induction false} Advance(s: State, d: nat, k: nat) returns (acts: seq<Action>)
    requires Inv(s) && d in s.dispatches && s.dispatches[d].next <= k <= |s.dispatches[d].snapshot|
    ensures Running(acts) && Run(s, acts) == Some(s.(dispatches := s.dispatches[d := s.dispatches[d].(next := k)]))
    decreases k - s.dispatches[d].next
  {
    assert Iterates(s, d);
    if s.dispatches[d].next == k {
      acts := [];
      assert s.dispatches[d := s.dispatches[d].(next := k)] == s.dispatches;
    } else {
      StepInv(s, Call(d));
      var s' := Step(s, Call(d));
      var rest := Advance(s', d, k);
      RunCons(s, Call(d), rest);
      acts := [Call(d)] + rest;
      assert s'.dispatches[d := s'.dispatches[d].(next := k)] == s.dispatches[d := s.dispatches[d].(next := k)];
    }
  }

  /** What finishing dispatch d leaves as it was. */
  ghost predicate Finished(s: State, s': State, d: nat) {
    && Inv(s') && s'.held == s.held - {ByDispatch(d)} && s'.waits == s.waits && s'.dispatches == s.dispatches - {d}
  }

  lemma DrainOne(s: State, d: nat) returns (acts: seq<Action>)
    requires Inv(s) && d in s.dispatches
    ensures Running(acts) && Run(s, acts).Some? && Finished(s, Run(s, acts).value, d)
  {
    assert Iterates(s, d);
    var n := |s.dispatches[d].snapshot|;
    acts := Advance(s, d, n);
    RunInv(s, acts);
    var s' := Run(s, acts).value;
    assert Iterates(s', d);
    RunOne(s', Finish(d));
    RunAppend(s, acts, [Finish(d)]);
    acts := acts + [Finish(d)];
    StepInv(s', Finish(d));
    assert s'.dispatches - {d} == s.dispatches - {d};
  }

  /** State s' follows s with dispatch d and the wait w untouched. */
  ghost predicate Beside(s: State, s': State, w: nat, d: nat) {
    && Inv(s') && w in s'.waits && SameRef(s, s', ByWait(w)) && SameRef(s, s', ByDispatch(d))
    && d in s.dispatches && d in s'.dispatches && s'.dispatches[d] == s.dispatches[d]
  }

  predicate SameRef(s: State, s': State, h: Holder) { h in s.held && h in s'.held && s'.held[h] == s.held[h] }

  /** Another dispatch that holds the list waited for. */
  lemma OtherHolder(s: State, w: nat) returns (d: nat)
    requires Inv(s) && w in s.waits && Of(s, ByWait(w)).refs > 1
    ensures d in s.dispatches && s.held[ByDispatch(d)] == s.held[ByWait(w)]
  {
    var hs := Holders(s, s.held[ByWait(w)]);
    assert |hs - {ByWait(w)}| >= 1;
    var h :| h in hs - {ByWait(w)};
    d := h.d;
  }

  lemma {:induction false} Drain(s: State, w: nat, d: nat) returns (acts: seq<Action>)
    requires Inv(s) && w in s.waits && d in s.dispatches && s.held[ByDispatch(d)] != s.held[ByWait(w)]
    ensures Running(acts) && Run(s, acts).Some? && Beside(s, Run(s, acts).value, w, d)
    ensures Enabled(Run(s, acts).value, UnsubEnd(w))
    decreases |s.dispatches|
  {
    if Of(s, ByWait(w)).refs <= 1 {
      acts := [];
    } else {
      var e := OtherHolder(s, w);
      var first := DrainOne(s, e);
      var s' := Run(s, first).value;
      assert |s'.dispatches| < |s.dispatches| by { assert s'.dispatches.Keys == s.dispatches.Keys - {e}; }
      var rest := Drain(s', w, d);
      RunAppend(s, first, rest);
      acts := first + rest;
    }
  }

  /** A dispatch with x ahead can go on to call it. */
  lemma GoesOnToCall(s: State, d: nat, x: Sub) returns (more: seq<Action>)
    requires Inv(s) && d in s.dispatches && s.dispatches[d].next <= |s.dispatches[d].snapshot|
    requires x in s.dispatches[d].snapshot[s.dispatches[d].next..]
    ensures Running(more) && Run(s, more).Some? && Enabled(Run(s, more).value, Call(d))
    ensures var q := Run(s, more).value; Called(q, d) == x && q.dispatches[d].typ == s.dispatches[d].typ
  {
    var p := s.dispatches[d];
    var k := InSuffix(p.snapshot, p.next, x);
    more := Advance(s, d, k);
    RunInv(s, more);
    CallsNext(Run(s, more).value, d, p.(next := k));
  }

  lemma InSuffix(s: seq<Sub>, n: nat, x: Sub) returns (k: nat)
    requires n <= |s| && x in s[n..]
    ensures n <= k < |s| && s[k] == x
  {
    k := n + Position(s[n..], x);
  }

  lemma CallsNext(s: State, d: nat, p: Dispatch)
    requires Inv(s) && d in s.dispatches && s.dispatches[d] == p && p.next < |p.snapshot|
    ensures Enabled(s, Call(d)) && Called(s, d) == p.snapshot[p.next]
  {
    assert Iterates(s, d);
  }

  lemma BeginBeside(s1: State, w: nat, t: Type, x: Sub, d: nat)
    requires Inv(s1) && Enabled(s1, UnsubBegin(w, t, x)) && x in Subs(s1, t) && d in s1.dispatches
    ensures var s := Step(s1, UnsubBegin(w, t, x));
      && Inv(s) && w in s.waits && s.dispatches == s1.dispatches
      && SameRef(s1, s, ByDispatch(d)) && s.held[ByWait(w)] == s1.held[InTable(t)]
  {
    StepInv(s1, UnsubBegin(w, t, x));
    assert Iterates(s1, d);
  }

  /** The unsubscribe can return while dispatch d, which holds another list, stays where it is. */
  lemma ReturnsBeside(s1: State, w: nat, t: Type, x: Sub, d: nat) returns (acts: seq<Action>, s: State)
    requires Inv(s1) && Enabled(s1, UnsubBegin(w, t, x)) && x in Subs(s1, t) && d in s1.dispatches
    requires ByDispatch(d) in s1.held && s1.held[ByDispatch(d)] != s1.held[InTable(t)]
    ensures Running(acts)
    ensures var r := Run(Step(s1, UnsubBegin(w, t, x)), acts);
      r.Some? && Enabled(r.value, UnsubEnd(w)) && s == Step(r.value, UnsubEnd(w))
    ensures Inv(s) && d in s.dispatches && s.dispatches[d] == s1.dispatches[d]
  {
    var s0 := Step(s1, UnsubBegin(w, t, x));
    BeginBeside(s1, w, t, x, d);
    acts := Drain(s0, w, d);
    var r := Run(s0, acts).value;
    StepInv(r, UnsubEnd(w));
    s := Step(r, UnsubEnd(w));
  }

  /** An older list with the handler ahead lets it be called after unsubscribe has returned. */
  lemma OldCallerCalls(s1: State, w: nat, t: Type, x: Sub, d: nat)
    requires Inv(s1) && Enabled(s1, UnsubBegin(w, t, x)) && x in Subs(s1, t) && AheadElsewhere(s1, t, x, d)
    ensures exists acts, more :: CallsLate(s1, w, t, x, acts, more, d)
  {
    var acts, s := ReturnsBeside(s1, w, t, x, d);
    var more := GoesOnToCall(s, d, x);
    assert CallsLate(s1, w, t, x, acts, more, d);
  }

  ghost predicate LateCallPossible(s1: State, w: nat, t: Type, x: Sub)
    requires Enabled(s1, UnsubBegin(w, t, x))
  {
    exists acts, more, d :: CallsLate(s1, w, t, x, acts, more, d)
  }

  /** A handler can still be called after its unsubscribe has returned, with no new subscription,
      exactly when at the unsubscribe a dispatch holds an older list with that handler ahead. */
  lemma LateCallIff(s1: State, w: nat, t: Type, x: Sub)
    requires Inv(s1) && Enabled(s1, UnsubBegin(w, t, x)) && x in Subs(s1, t)
    ensures LateCallPossible(s1, w, t, x) <==> exists d :: AheadElsewhere(s1, t, x, d)
  {
    if LateCallPossible(s1, w, t, x) {
      var acts, more, d :| CallsLate(s1, w, t, x, acts, more, d);
      LateCallerIsOld(s1, w, t, x, acts, more, d);
    }
    if d :| AheadElsewhere(s1, t, x, d) {
      OldCallerCalls(s1, w, t, x, d);
    }
  }

  lemma {:induction false} Steps3(a: Action, b: Action, c: Action)
    requires Enabled(INIT, a) && Enabled(Step(INIT, a), b) && Enabled(Step(Step(INIT, a), b), c)
    ensures Run(INIT, [a, b, c]) == Some(Step(Step(Step(INIT, a), b), c))
  {
    assert [a, b, c][..2] == [a, b] && [a, b][..1] == [a];
    RunOne(INIT, a);
  }

  /** The simplest such run: a dispatch starts, another handler is subscribed, and the first one is
      unsubscribed: the call returns at once and the dispatch still calls it. */
  lemma LateCallExample()
    ensures var acts := [Subscribe(0, 1), Start(0, 0), Subscribe(0, 2)];
      Run(INIT, acts).Some? && Enabled(Run(INIT, acts).value, UnsubBegin(0, 0, 1))
      && LateCallPossible(Run(INIT, acts).value, 0, 0, 1)
  {
    var a, b, c := Subscribe(0, 1), Start(0, 0), Subscribe(0, 2);
    var s0 := Step(INIT, a);
    assert s0.held[InTable(0)] == 0 && s0.lists[0] == List([1], 1);
    var s1 := Step(s0, b);
    assert s1.held[InTable(0)] == 0 && s1.held[ByDispatch(0)] == 0 && s1.lists[0] == List([1], 2);
    var s2 := Step(s1, c);
    assert s2.held[InTable(0)] == 1 && s2.held[ByDispatch(0)] == 0 && s2.lists[1] == List([1, 2], 1);
    Steps3(a, b, c);
    RunInv(INIT, [a, b, c]);
    assert s2.dispatches[0].snapshot[0..] == [1];
    assert AheadElsewhere(s2, 0, 1, 0);
    LateCallIff(s2, 0, 0, 1);
  }

  // ------------------------------------------------------------------ the lists under the mutex

  /** A vector of subscribers with its reference counter. */
  class Vector {
    const subs: seq<Sub>
    var refs: nat

    constructor (subs: seq<Sub>)
      ensures this.subs == subs && refs == 1
    {
      this.subs, refs := subs, 1;
    }
  }

  /** The table's list for a type. */
  function Table(s: State, t: Type): Option<List> {
    if Refers(s, InTable(t)) then Some(Of(s, InTable(t))) else None
  }

  /** What the steps under the mutex do to the table. */
  lemma SubscribeTable(s: State, t: Type, x: Sub, u: Type)
    requires Sound(s)
    ensures Enabled(s, Subscribe(t, x))
    ensures Table(Step(s, Subscribe(t, x)), u) ==
      if u == t && x !in Subs(s, t) then Some(List(Subs(s, t) + [x], 1)) else Table(s, u)
  {
    if InTable(t) !in s.held { assert Subs(s, t) + [x] == [x]; }
  }

  lemma UnsubBeginTable(s: State, w: nat, t: Type, x: Sub, u: Type)
    requires Sound(s) && Enabled(s, UnsubBegin(w, t, x))
    ensures Table(Step(s, UnsubBegin(w, t, x)), u) ==
      if u == t && x in Subs(s, t) then Some(List(Erased(Subs(s, t), x), 1)) else Table(s, u)
  {
  }

  lemma StartTable(s: State, d: nat, t: Type, u: Type)
    requires Sound(s) && Enabled(s, Start(d, t))
    ensures var l := Table(s, u);
      Table(Step(s, Start(d, t)), u) ==
      if u == t && l.Some? then Some(List(l.value.subs, l.value.refs + 1)) else l
  {
  }

  class Bus {
    var handlers: map<Type, Vector>

    ghost predicate Valid()
      reads this
    {
      && (forall t :: t in handlers ==> Distinct(handlers[t].subs))
      && (forall t, u :: t in handlers && u in handlers && t != u ==> handlers[t] != handlers[u])
    }

    function Subscribers(t: Type): seq<Sub>
      reads this
    {
      if t in handlers then handlers[t].subs else []
    }

    ghost function Entry(t: Type): Option<List>
      reads this, if t in handlers then {handlers[t]} else {}
    {
      if t in handlers then Some(List(handlers[t].subs, handlers[t].refs)) else None
    }

    /** The table is that of a state of the step system. */
    ghost predicate Shows(s: State)
      reads this, handlers.Values
    {
      forall t :: Entry(t) == Table(s, t)
    }

    constructor ()
      ensures Valid() && handlers == map[] && Shows(INIT)
    {
      handlers := map[];
    }

    /** The list a dispatch is going to iterate, with one more reference. */
    method Retain(t: Type) returns (v: Vector?)
      modifies if t in handlers then {handlers[t]} else {}
      ensures if t in handlers then v == handlers[t] && v.refs == old(v.refs) + 1 else v == null
      ensures Valid() ==> forall s, d ::
        Sound(s) && Enabled(s, Start(d, t)) && old(Shows(s)) ==> Shows(Step(s, Start(d, t)))
    {
      v := null;
      if t in handlers {
        v := handlers[t];
        v.refs := v.refs + 1;
      }
      forall s, d | Valid() && Sound(s) && Enabled(s, Start(d, t)) && old(Shows(s))
        ensures Shows(Step(s, Start(d, t)))
      {
        forall u ensures Entry(u) == Table(Step(s, Start(d, t)), u) {
          assert old(Entry(u)) == Table(s, u);
          StartTable(s, d, t, u);
        }
      }
    }

    /** Adds a subscriber once, in a new list; the old one loses a reference and keeps its content. */
    method Subscribe(t: Type, x: Sub)
      requires Valid() && (t in handlers ==> handlers[t].refs > 0)
      modifies this, if t in handlers then {handlers[t]} else {}
      ensures Valid() && handlers.Keys == old(handlers).Keys + {t}
      ensures forall u :: u in old(handlers) && u != t ==> handlers[u] == old(handlers)[u]
      ensures x in old(Subscribers(t)) ==> handlers == old(handlers) && handlers[t].refs == old(handlers[t].refs)
      ensures x !in old(Subscribers(t)) ==>
        && Subscribers(t) == old(Subscribers(t)) + [x] && fresh(handlers[t]) && handlers[t].refs == 1
        && (t in old(handlers) ==> old(handlers)[t].refs == old(handlers[t].refs) - 1)
      ensures forall s :: Sound(s) && old(Shows(s)) ==>
        Enabled(s, Action.Subscribe(t, x)) && Shows(Step(s, Action.Subscribe(t, x)))
    {
      var subscribers := if t in handlers then handlers[t].subs else [];
      if x !in subscribers {
        if t in handlers { handlers[t].refs := handlers[t].refs - 1; }
        var v := new Vector(subscribers + [x]);
        handlers := handlers[t := v];
      }
      forall s | Sound(s) && old(Shows(s))
        ensures Enabled(s, Action.Subscribe(t, x)) && Shows(Step(s, Action.Subscribe(t, x)))
      {
        SubscribeTable(s, t, x, t);
        assert old(Entry(t)) == Table(s, t);
        forall u ensures Entry(u) == Table(Step(s, Action.Subscribe(t, x)), u) {
          assert old(Entry(u)) == Table(s, u);
          SubscribeTable(s, t, x, u);
        }
      }
    }

    /** Takes a subscriber off, in a new list; the replaced list is handed to the caller, who then
        owns the reference of the table. */
    method Unsubscribe(t: Type, x: Sub) returns (prev: Vector?)
      requires Valid()
      modifies this
      ensures Valid() && handlers.Keys == old(handlers).Keys
      ensures forall u :: u in old(handlers) && u != t ==> handlers[u] == old(handlers)[u]
      ensures x !in old(Subscribers(t)) ==> prev == null && handlers == old(handlers)
      ensures x in old(Subscribers(t)) ==>
        && prev == old(handlers)[t] && fresh(handlers[t]) && handlers[t].refs == 1
        && Subscribers(t) == Erased(old(Subscribers(t)), x) && x !in Subscribers(t)
      ensures forall s, w ::
        Sound(s) && Enabled(s, UnsubBegin(w, t, x)) && old(Shows(s)) ==> Shows(Step(s, UnsubBegin(w, t, x)))
    {
      prev := null;
      if t in handlers && x in handlers[t].subs {
        var v := handlers[t];
        ErasedIs(v.subs, x);
        var idx := Position(v.subs, x);
        var clone := new Vector(v.subs[..idx] + v.subs[idx + 1..]);
        handlers := handlers[t := clone];
        prev := v;
      }
      forall s, w | Sound(s) && Enabled(s, UnsubBegin(w, t, x)) && old(Shows(s))
        ensures Shows(Step(s, UnsubBegin(w, t, x)))
      {
        assert old(Entry(t)) == Table(s, t);
        forall u ensures Entry(u) == Table(Step(s, UnsubBegin(w, t, x)), u) {
          assert old(Entry(u)) == Table(s, u);
          UnsubBeginTable(s, w, t, x, u);
        }
      }
    }
  }
}
