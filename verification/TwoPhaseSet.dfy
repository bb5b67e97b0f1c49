/**
 The two-phase object set: objects are added once under their id, and an id in the removed set is
 never added. Replicas are compared after any deliveries, single or in batches.
 */
module TwoPhaseSet {
  import opened Common

  type Id = nat
  type Obj = nat

  datatype Item = Item(id: Id, obj: Obj)

  datatype Err = Ok | Failed

  type Objects = map<Id, Obj>

  // ------------------------------------------------------------------ the set

  /** Adds one object unless its id is taken or removed. */
  function Added(objects: Objects, removed: set<Id>, item: Item): Objects {
    if item.id in removed || item.id in objects then objects else objects[item.id := item.obj]
  }

  function AllAdded(objects: Objects, removed: set<Id>, items: seq<Item>): Objects {
    if items == [] then objects
    else Added(AllAdded(objects, removed, items[..|items| - 1]), removed, items[|items| - 1])
  }

  /** The position of the first removed id, |items| when there is none. */
  function FirstRemoved(removed: set<Id>, items: seq<Item>): (p: nat)
    ensures p <= |items|
    ensures forall i :: 0 <= i < p ==> items[i].id !in removed
    ensures p < |items| ==> items[p].id in removed
  {
    if items == [] then 0
    else if items[0].id in removed then 0
    else
      var p := FirstRemoved(removed, items[1..]);
      assert forall i :: 1 <= i < p + 1 ==> items[i] == items[1..][i - 1];
      p + 1
  }

  /** A batch as the code treats it: a removed id aborts the transaction, and everything is lost. */
  function BatchAdded(objects: Objects, removed: set<Id>, items: seq<Item>): Objects {
    if FirstRemoved(removed, items) < |items| then objects else AllAdded(objects, removed, items)
  }

  class Store {
    var objects: Objects
    const removed: set<Id>

    constructor (removed: set<Id>)
      ensures objects == map[] && this.removed == removed
    {
      objects := map[];
      this.removed := removed;
    }

    /** Delete has priority: nothing is added under a removed id, and that is no error. */
    method Add(item: Item) returns (err: Err)
      modifies this
      ensures err == Ok && objects == Added(old(objects), removed, item)
    {
      if item.id !in removed {
        if item.id !in objects { objects := objects[item.id := item.obj]; }
      }
      err := Ok;
    }

    /** Adds a batch in one transaction. The transaction is gone after the first removed id: later
        lookups and puts fail, and a commit, tried only if something had been put, fails too. */
    method AddBatch(items: seq<Item>) returns (err: Err)
      modifies this
      ensures objects == BatchAdded(old(objects), removed, items)
      ensures err == Failed <==>
        var p := FirstRemoved(removed, items);
        p < |items| && AllAdded(old(objects), removed, items[..p]) != old(objects)
    {
      ghost var p := FirstRemoved(removed, items);
      var txn, commit := Some(objects), false;
      for i := 0 to |items|
        invariant objects == old(objects)
        invariant txn.Some? <==> i <= p
        invariant txn.Some? ==> txn.value == AllAdded(objects, removed, items[..i])
        invariant commit <==> AllAdded(objects, removed, items[..if i <= p then i else p]) != objects
      {
        var item := items[i];
        assert items[..i + 1][..i] == items[..i];
        if txn.Some? && item.id in removed {
          txn := None;
        } else if txn.Some? && item.id !in txn.value {
          AllAddedKeeps(objects, removed, items[..i], item.id);
          txn, commit := Some(txn.value[item.id := item.obj]), true;
        }
      }
      assert items[..|items|] == items;
      err := Ok;
      if commit {
        if txn.None? { return Failed; }
        objects := txn.value;
      }
    }
  }

  lemma {:induction false} AllAddedKeeps(objects: Objects, removed: set<Id>, items: seq<Item>, id: Id)
    ensures id in objects ==> id in AllAdded(objects, removed, items)
    decreases |items|
  {
    if items != [] { AllAddedKeeps(objects, removed, items[..|items| - 1], id); }
  }

  // ------------------------------------------------------------------ deliveries

  datatype Delivery = Single(item: Item) | Batch(items: seq<Item>)

  function Deliver(objects: Objects, removed: set<Id>, d: Delivery): Objects {
    match d
    case Single(item) => Added(objects, removed, item)
    case Batch(items) => BatchAdded(objects, removed, items)
  }

  function Run(removed: set<Id>, ds: seq<Delivery>): Objects {
    if ds == [] then map[] else Deliver(Run(removed, ds[..|ds| - 1]), removed, ds[|ds| - 1])
  }

  /** Item x comes with delivery d. */
  predicate Brings(d: Delivery, x: Item) {
    match d
    case Single(item) => item == x
    case Batch(items) => x in items
  }

  /** Item x is among the items delivered. */
  predicate Offered(ds: seq<Delivery>, x: Item) { exists i :: 0 <= i < |ds| && Brings(ds[i], x) }

  /** A batch with a removed id brings nothing. */
  predicate Clean(removed: set<Id>, d: Delivery) { d.Single? || FirstRemoved(removed, d.items) == |d.items| }

  /** Item x is offered by a delivery that is not lost, under an id that is not removed. */
  predicate Effective(removed: set<Id>, ds: seq<Delivery>, x: Item) {
    x.id !in removed && exists i :: 0 <= i < |ds| && Clean(removed, ds[i]) && Brings(ds[i], x)
  }

  /** At most one object is offered under each id. */
  ghost predicate OneObject(ds: seq<Delivery>) {
    forall x, y :: Offered(ds, x) && Offered(ds, y) && x.id == y.id ==> x == y
  }

  predicate Holds(objects: Objects, x: Item) { x.id in objects && objects[x.id] == x.obj }

  /** What a list of additions makes of the set: it holds what it held and, of the new ids, one of
      the objects in the list. */
  lemma {:induction false} AllAddedIs(objects: Objects, removed: set<Id>, items: seq<Item>, x: Item)
    ensures Holds(objects, x) ==> Holds(AllAdded(objects, removed, items), x)
    ensures Holds(AllAdded(objects, removed, items), x) ==> Holds(objects, x) || (x in items && x.id !in removed)
    ensures x in items && x.id !in removed ==> x.id in AllAdded(objects, removed, items)
    decreases |items|
  {
    if items != [] {
      var init, last := items[..|items| - 1], items[|items| - 1];
      AllAddedIs(objects, removed, init, x);
      assert items == init + [last];
    }
  }

  lemma DeliverIs(objects: Objects, removed: set<Id>, d: Delivery, x: Item)
    ensures Holds(objects, x) ==> Holds(Deliver(objects, removed, d), x)
    ensures Holds(Deliver(objects, removed, d), x) ==>
      Holds(objects, x) || (x.id !in removed && Clean(removed, d) && Brings(d, x))
    ensures x.id !in removed && Clean(removed, d) && Brings(d, x) ==> x.id in Deliver(objects, removed, d)
  {
    match d
    case Single(item) =>
    case Batch(items) => AllAddedIs(objects, removed, items, x);
  }

  lemma EffectiveNext(removed: set<Id>, ds: seq<Delivery>, x: Item)
    requires ds != []
    ensures Effective(removed, ds, x) <==>
      (Effective(removed, ds[..|ds| - 1], x)
       || (x.id !in removed && Clean(removed, ds[|ds| - 1]) && Brings(ds[|ds| - 1], x)))
  {
    var init, last := ds[..|ds| - 1], ds[|ds| - 1];
    if Effective(removed, init, x) {
      var i :| 0 <= i < |init| && Clean(removed, init[i]) && Brings(init[i], x);
      assert ds[i] == init[i];
    }
    if Effective(removed, ds, x) {
      var i :| 0 <= i < |ds| && Clean(removed, ds[i]) && Brings(ds[i], x);
      assert i < |init| ==> init[i] == ds[i];
    }
  }

  /** What a store holds after any deliveries: only effective items, and an object for each of them. */
  lemma {:induction false} RunIs(removed: set<Id>, ds: seq<Delivery>, x: Item)
    ensures Holds(Run(removed, ds), x) ==> Effective(removed, ds, x)
    ensures Effective(removed, ds, x) ==> x.id in Run(removed, ds)
    decreases |ds|
  {
    if ds != [] {
      var init, last := ds[..|ds| - 1], ds[|ds| - 1];
      var before := Run(removed, init);
      RunIs(removed, init, x);
      DeliverIs(before, removed, last, x);
      EffectiveNext(removed, ds, x);
      if x.id in before { DeliverIs(before, removed, last, Item(x.id, before[x.id])); }
    }
  }

  lemma EffectiveOffered(removed: set<Id>, ds: seq<Delivery>, x: Item)
    requires Effective(removed, ds, x)
    ensures Offered(ds, x)
  {
    var i :| 0 <= i < |ds| && Clean(removed, ds[i]) && Brings(ds[i], x);
    assert Brings(ds[i], x);
  }

  /** With one object per id a store holds exactly the effective items. */
  lemma RunHolds(removed: set<Id>, ds: seq<Delivery>, x: Item)
    requires OneObject(ds)
    ensures Holds(Run(removed, ds), x) <==> Effective(removed, ds, x)
  {
    RunIs(removed, ds, x);
    if Effective(removed, ds, x) {
      var y := Item(x.id, Run(removed, ds)[x.id]);
      RunIs(removed, ds, y);
      EffectiveOffered(removed, ds, x);
      EffectiveOffered(removed, ds, y);
    }
  }

  ghost predicate SameEffect(removed: set<Id>, ds1: seq<Delivery>, ds2: seq<Delivery>) {
    forall x :: Effective(removed, ds1, x) <==> Effective(removed, ds2, x)
  }

  /** Two replicas with the same removed ids end equal exactly when the same items reached them in
      deliveries that were not lost. */
  lemma ConvergeIff(removed: set<Id>, ds1: seq<Delivery>, ds2: seq<Delivery>)
    requires OneObject(ds1) && OneObject(ds2)
    ensures Run(removed, ds1) == Run(removed, ds2) <==> SameEffect(removed, ds1, ds2)
  {
    var a, b := Run(removed, ds1), Run(removed, ds2);
    forall x
      ensures (Holds(a, x) <==> Effective(removed, ds1, x)) && (Holds(b, x) <==> Effective(removed, ds2, x))
    {
      RunHolds(removed, ds1, x);
      RunHolds(removed, ds2, x);
    }
    if SameEffect(removed, ds1, ds2) {
      forall id
        ensures id in a <==> id in b
        ensures id in a && id in b ==> a[id] == b[id]
      {
        if id in a { assert Holds(a, Item(id, a[id])); }
        if id in b { assert Holds(b, Item(id, b[id])); }
      }
    }
  }

  /** Replica convergence: the same items, in any order, with any repetition, singly or in batches
      without a removed id, make equal object maps. */
  lemma Converge(removed: set<Id>, ds1: seq<Delivery>, ds2: seq<Delivery>)
    requires OneObject(ds1)
    requires forall x :: Offered(ds1, x) <==> Offered(ds2, x)
    requires forall i :: 0 <= i < |ds1| ==> Clean(removed, ds1[i])
    requires forall i :: 0 <= i < |ds2| ==> Clean(removed, ds2[i])
    ensures Run(removed, ds1) == Run(removed, ds2)
  {
    forall x
      ensures Effective(removed, ds1, x) <==> Effective(removed, ds2, x)
    {
      assert Effective(removed, ds1, x) <==> x.id !in removed && Offered(ds1, x);
      assert Effective(removed, ds2, x) <==> x.id !in removed && Offered(ds2, x);
    }
    ConvergeIff(removed, ds1, ds2);
  }

  /** Singly an item survives next to a removed id; in one batch with it, it is lost. */
  lemma BatchWithRemovedDiverges()
    ensures var kept, dead := Item(1, 10), Item(2, 20);
      Run({2}, [Single(kept), Single(dead)]) == map[1 := 10] && Run({2}, [Batch([kept, dead])]) == map[]
  {
    var kept, dead := Item(1, 10), Item(2, 20);
    var ds := [Single(kept), Single(dead)];
    assert ds[..1] == [Single(kept)] && [Single(kept)][..0] == [];
    assert Run({2}, [Single(kept)]) == map[1 := 10];
    var batch := [Batch([kept, dead])];
    assert batch[..0] == [];
    assert [kept, dead][1].id in {2};
    assert FirstRemoved({2}, [kept, dead]) < 2;
  }
}
