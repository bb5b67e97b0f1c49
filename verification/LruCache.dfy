/**
 The LRU cache: a map from keys to list entries and a list of entries in order of use. It is proved
 against a list of items, and the list against the history of touches.
 */
module LruCache {
  import opened Common

  type Key = nat

  /** A cached item; data is a pointer, 0 is null. */
  datatype Item = Item(key: Key, data: nat)

  const NULL_ITEM := Item(0, 0)

  // ------------------------------------------------------------------ the cache as a list

  predicate Unique(s: seq<Item>) { forall i, j :: 0 <= i < j < |s| ==> s[i].key != s[j].key }

  predicate Has(s: seq<Item>, k: Key) { exists i :: 0 <= i < |s| && s[i].key == k }

  /** The position of key k, |s| when it is not there. */
  function Find(s: seq<Item>, k: Key): (p: nat)
    ensures p <= |s|
    ensures p < |s| <==> Has(s, k)
    ensures p < |s| ==> s[p].key == k
  {
    if s == [] then 0
    else if s[0].key == k then 0
    else
      assert Has(s[1..], k) ==> Has(s, k) by {
        if i :| 0 <= i < |s[1..]| && s[1..][i].key == k { assert s[i + 1].key == k; }
      }
      assert Has(s, k) ==> Has(s[1..], k) by {
        if i :| 0 <= i < |s| && s[i].key == k { assert s[1..][i - 1].key == k; }
      }
      1 + Find(s[1..], k)
  }

  function Without<T>(s: seq<T>, p: nat): seq<T>
    requires p < |s|
  {
    s[..p] + s[p + 1..]
  }

  /** Where element i of the list stood before element p went to the back. */
  function From(p: nat, n: nat, i: nat): nat
    requires p < n && i < n
  {
    if i < p then i else if i < n - 1 then i + 1 else p
  }

  lemma MovedAt<T>(s: seq<T>, p: nat, i: nat)
    requires p < |s| && i < |s|
    ensures (Without(s, p) + [s[p]])[i] == s[From(p, |s|, i)]
  {
  }

  /** Items handed back (at most one) and the new list of a put. */
  datatype PutResult = PutResult(list: seq<Item>, handed: seq<Item>)

  function AfterPut(capacity: nat, s: seq<Item>, item: Item): PutResult
    requires capacity > 0 && |s| <= capacity
  {
    var p := Find(s, item.key);
    if p < |s| then PutResult(Without(s, p) + [item], if s[p].data != item.data then [s[p]] else [])
    else if |s| < capacity then PutResult(s + [item], [])
    else PutResult(s[1..] + [item], [s[0]])
  }

  function AfterGet(s: seq<Item>, k: Key): seq<Item> {
    var p := Find(s, k);
    if p < |s| then Without(s, p) + [s[p]] else s
  }

  lemma PutKeeps(capacity: nat, s: seq<Item>, item: Item)
    requires capacity > 0 && |s| <= capacity && Unique(s)
    ensures Unique(AfterPut(capacity, s, item).list) && |AfterPut(capacity, s, item).list| <= capacity
  {
  }

  lemma GetKeeps(s: seq<Item>, k: Key)
    requires Unique(s)
    ensures Unique(AfterGet(s, k)) && |AfterGet(s, k)| == |s|
  {
  }

  // ------------------------------------------------------------------ traces

  datatype Op = OpPut(item: Item) | OpGet(key: Key)

  /** The list after a trace. */
  function Run(capacity: nat, ops: seq<Op>): (s: seq<Item>)
    requires capacity > 0
    ensures Unique(s) && |s| <= capacity
  {
    if ops == [] then [] else
    var s := Run(capacity, ops[..|ops| - 1]);
    match ops[|ops| - 1]
    case OpPut(item) => PutKeeps(capacity, s, item); AfterPut(capacity, s, item).list
    case OpGet(key) => GetKeeps(s, key); AfterGet(s, key)
  }

  /** Items handed back through `old`, in order. */
  function Handed(capacity: nat, ops: seq<Op>): seq<Item>
    requires capacity > 0
  {
    if ops == [] then [] else
    var init := ops[..|ops| - 1];
    match ops[|ops| - 1]
    case OpPut(item) => Handed(capacity, init) + AfterPut(capacity, Run(capacity, init), item).handed
    case OpGet(_) => Handed(capacity, init)
  }

  /** Items the cache took over: every put one but a re-put of the pointer already cached. */
  function Accepted(capacity: nat, ops: seq<Op>): seq<Item>
    requires capacity > 0
  {
    if ops == [] then [] else
    var init := ops[..|ops| - 1];
    match ops[|ops| - 1]
    case OpPut(item) => Accepted(capacity, init) + if item in Run(capacity, init) then [] else [item]
    case OpGet(_) => Accepted(capacity, init)
  }

  lemma WithoutMultiset<T>(s: seq<T>, p: nat)
    requires p < |s|
    ensures multiset(s) == multiset(Without(s, p)) + multiset{s[p]}
  {
    assert s == s[..p] + [s[p]] + s[p + 1..];
  }

  lemma UniqueMember(s: seq<Item>, item: Item)
    requires Unique(s)
    ensures item in s <==> Find(s, item.key) < |s| && s[Find(s, item.key)] == item
  {
    if item in s {
      var i :| 0 <= i < |s| && s[i] == item;
      assert s[i].key == item.key;
    }
  }

  /** One put: what was cached and the item accepted are what is cached and what is handed back. */
  lemma PutConserves(capacity: nat, s: seq<Item>, item: Item)
    requires capacity > 0 && |s| <= capacity && Unique(s)
    ensures var r := AfterPut(capacity, s, item);
      multiset(s) + multiset(if item in s then [] else [item]) == multiset(r.list) + multiset(r.handed)
  {
    UniqueMember(s, item);
    var p := Find(s, item.key);
    if p < |s| {
      WithoutMultiset(s, p);
    } else if |s| == capacity {
      assert s == [s[0]] + s[1..];
    }
  }

  lemma Balance(a: seq<Item>, more: seq<Item>, s: seq<Item>, s': seq<Item>, h: seq<Item>, back: seq<Item>)
    requires multiset(a) == multiset(s) + multiset(h)
    requires multiset(s) + multiset(more) == multiset(s') + multiset(back)
    ensures multiset(a + more) == multiset(s') + multiset(h + back)
  {
    assert multiset(a + more) == multiset(a) + multiset(more);
    assert multiset(h + back) == multiset(h) + multiset(back);
    forall x
      ensures multiset(a + more)[x] == (multiset(s') + multiset(h + back))[x]
    {
      assert (multiset(s) + multiset(more))[x] == (multiset(s') + multiset(back))[x];
    }
  }

  /** LRU conservation: over any trace, the accepted items are exactly those still cached and those
      handed back, each counted once. */
  lemma {:induction false} Conservation(capacity: nat, ops: seq<Op>)
    requires capacity > 0
    ensures multiset(Accepted(capacity, ops)) == multiset(Run(capacity, ops)) + multiset(Handed(capacity, ops))
    decreases |ops|
  {
    if ops != [] {
      var init := ops[..|ops| - 1];
      Conservation(capacity, init);
      var s := Run(capacity, init);
      match ops[|ops| - 1]
      case OpPut(item) =>
        PutConserves(capacity, s, item);
        var r := AfterPut(capacity, s, item);
        Balance(Accepted(capacity, init), if item in s then [] else [item], s, r.list,
                Handed(capacity, init), r.handed);
      case OpGet(key) =>
        if Find(s, key) < |s| { WithoutMultiset(s, Find(s, key)); }
        assert multiset(AfterGet(s, key)) == multiset(s);
    }
  }

  // ------------------------------------------------------------------ recency

  /** The keys touched, in order: a put touches its key, a get only when it hits. */
  function Touches(capacity: nat, ops: seq<Op>): seq<Key>
    requires capacity > 0
  {
    if ops == [] then [] else
    var init := ops[..|ops| - 1];
    match ops[|ops| - 1]
    case OpPut(item) => Touches(capacity, init) + [item.key]
    case OpGet(key) => Touches(capacity, init) + if Has(Run(capacity, init), key) then [key] else []
  }

  function LastIndex(t: seq<Key>, k: Key): (i: nat)
    requires k in t
    ensures i < |t| && t[i] == k && forall j :: i < j < |t| ==> t[j] != k
  {
    var n := |t| - 1;
    if t[n] == k then n else LastIndex(t[..n], k)
  }

  /** The different keys touched after the last touch of k. */
  function After(t: seq<Key>, k: Key): set<Key>
    requires k in t
  {
    set j | LastIndex(t, k) < j < |t| :: t[j]
  }

  /** Keys `ks` are exactly those with fewer than n different keys touched after them, in order of
      last touch. */
  ghost predicate MostRecent(ks: seq<Key>, t: seq<Key>, n: nat) {
    && (forall k :: k in ks <==> k in t && |After(t, k)| < n)
    && (forall a, b :: 0 <= a < b < |ks| ==> LastIndex(t, ks[a]) < LastIndex(t, ks[b]))
  }

  /** Move-to-back. */
  function Touch(r: seq<Key>, k: Key): seq<Key> {
    if k in r then Without(r, Position(r, k)) + [k] else r + [k]
  }

  lemma TouchHas(r: seq<Key>, k: Key, x: Key)
    ensures x in Touch(r, k) <==> x in r || x == k
  {
    if k in r && x in r && x != k {
      var i, p := Position(r, x), Position(r, k);
      assert Without(r, p)[if i < p then i else i - 1] == x;
    }
  }

  lemma TouchKeeps(r: seq<Key>, k: Key)
    requires Distinct(r)
    ensures Distinct(Touch(r, k)) && forall x :: x in Touch(r, k) <==> x in r || x == k
  {
    forall x ensures x in Touch(r, k) <==> x in r || x == k { TouchHas(r, k, x); }
    if k in r { MovedDistinct(r, Position(r, k)); }
  }

  lemma MovedDistinct(r: seq<Key>, p: nat)
    requires Distinct(r) && p < |r|
    ensures Distinct(Without(r, p) + [r[p]])
  {
    forall i, j | 0 <= i < j < |r| ensures (Without(r, p) + [r[p]])[i] != (Without(r, p) + [r[p]])[j] {
      MovedAt(r, p, i);
      MovedAt(r, p, j);
    }
  }

  /** All keys touched, in order of last touch. */
  function Recent(t: seq<Key>): (r: seq<Key>)
    ensures Distinct(r)
    ensures forall k :: k in r <==> k in t
  {
    if t == [] then [] else
    var init, k := t[..|t| - 1], t[|t| - 1];
    TouchKeeps(Recent(init), k);
    assert forall x :: x in t <==> x in init || x == k by { assert t == init + [k]; }
    Touch(Recent(init), k)
  }

  /** The last n elements. */
  /** How many of `len` keys precede the last n. */
  function Skip(len: nat, n: nat): (from: nat)
    ensures from <= len
  {
    if len <= n then 0 else len - n
  }

  function Suffix(r: seq<Key>, n: nat): seq<Key> {
    r[Skip(|r|, n)..]
  }

  lemma AfterStep(t: seq<Key>, k: Key, x: Key)
    requires x in t && x != k
    ensures x in t + [k] && LastIndex(t + [k], x) == LastIndex(t, x)
    ensures After(t + [k], x) == After(t, x) + {k}
  {
    assert (t + [k])[..|t|] == t;
    assert (t + [k])[LastIndex(t, x)] == x;
    var after := After(t + [k], x);
    assert k in after by { assert (t + [k])[|t|] == k; }
    forall y | y in After(t, x)
      ensures y in after
    {
      var j :| LastIndex(t, x) < j < |t| && t[j] == y;
      assert (t + [k])[j] == y;
    }
  }

  /** In the list of recent keys the ones behind r[a] are the ones touched after it. */
  ghost predicate Behind(r: seq<Key>, t: seq<Key>, a: nat)
    requires a < |r|
  {
    && r[a] in t
    && (forall b :: 0 <= b < |r| ==> (r[b] in After(t, r[a]) <==> a < b))
    && (forall x :: x in After(t, r[a]) ==> x in r)
  }

  ghost predicate InOrder(r: seq<Key>, t: seq<Key>) { forall a :: 0 <= a < |r| ==> Behind(r, t, a) }

  /** Where key r'[a] of the touched list, other than the touched one, stood before. */
  lemma TouchFrom(r: seq<Key>, k: Key, a: nat) returns (oa: nat)
    requires a < |Touch(r, k)| - 1
    ensures oa < |r| && r[oa] == Touch(r, k)[a]
    ensures oa == if k in r && a >= Position(r, k) then a + 1 else a
  {
    oa := if k in r && a >= Position(r, k) then a + 1 else a;
  }

  lemma LastTouched(t: seq<Key>, k: Key)
    ensures After(t + [k], k) == {}
  {
    assert (t + [k])[|t|] == k;
  }

  lemma TouchInOrder(t: seq<Key>, r: seq<Key>, k: Key, a: nat)
    requires Distinct(r) && InOrder(r, t) && (forall x :: x in r <==> x in t)
    requires a < |Touch(r, k)|
    ensures Behind(Touch(r, k), t + [k], a)
  {
    var r' := Touch(r, k);
    TouchKeeps(r, k);
    if a == |r'| - 1 {
      LastTouched(t, k);
    } else {
      var oa := TouchFrom(r, k, a);
      assert Behind(r, t, oa) && r'[a] != r'[|r'| - 1];
      AfterStep(t, k, r'[a]);
      forall b | 0 <= b < |r'|
        ensures r'[b] in After(t + [k], r'[a]) <==> a < b
      {
        if b < |r'| - 1 {
          var ob := TouchFrom(r, k, b);
          assert r'[b] != r'[|r'| - 1];
        }
      }
    }
  }

  lemma {:induction false} RecentInOrder(t: seq<Key>)
    ensures InOrder(Recent(t), t)
    decreases |t|
  {
    if t != [] {
      var init, k := t[..|t| - 1], t[|t| - 1];
      RecentInOrder(init);
      assert t == init + [k];
      forall a | 0 <= a < |Recent(t)|
        ensures Behind(Recent(t), t, a)
      {
        TouchInOrder(init, Recent(init), k, a);
      }
    }
  }

  lemma {:induction false} DistinctSize(r: seq<Key>, s: set<Key>)
    requires Distinct(r) && forall x :: x in r <==> x in s
    ensures |s| == |r|
    decreases |r|
  {
    if r != [] {
      DistinctSize(r[1..], s - {r[0]});
    } else {
      assert s == {};
    }
  }

  lemma AfterSize(r: seq<Key>, t: seq<Key>, a: nat)
    requires Distinct(r) && a < |r| && Behind(r, t, a)
    ensures |After(t, r[a])| == |r| - 1 - a
  {
    forall x | x in After(t, r[a])
      ensures x in r[a + 1..]
    {
      var b := Position(r, x);
      assert r[a + 1..][b - a - 1] == x;
    }
    DistinctSize(r[a + 1..], After(t, r[a]));
  }

  /** A key is among the last n of the list exactly when fewer than n were touched after it. */
  lemma SuffixMember(t: seq<Key>, n: nat, k: Key)
    requires InOrder(Recent(t), t)
    ensures k in Suffix(Recent(t), n) <==> k in t && |After(t, k)| < n
  {
    var r := Recent(t);
    var ks := Suffix(r, n);
    var from := |r| - |ks|;
    if k in ks {
      var b :| 0 <= b < |ks| && ks[b] == k;
      assert r[from + b] == k;
    }
    if k in t {
      var a := Position(r, k);
      AfterSize(r, t, a);
      if a >= from { assert ks[a - from] == k; }
    }
  }

  /** The last n keys of the move-to-back list are the n most recently touched ones. */
  lemma SuffixMostRecent(t: seq<Key>, n: nat)
    ensures MostRecent(Suffix(Recent(t), n), t, n)
  {
    var r := Recent(t);
    RecentInOrder(t);
    var ks := Suffix(r, n);
    var from := |r| - |ks|;
    forall k
      ensures k in ks <==> k in t && |After(t, k)| < n
    {
      SuffixMember(t, n, k);
    }
    forall a, b | 0 <= a < b < |ks|
      ensures LastIndex(t, ks[a]) < LastIndex(t, ks[b])
    {
      assert Behind(r, t, from + a);
      assert r[from + b] in After(t, r[from + a]);
    }
  }

  // ------------------------------------------------------------------ the cached keys

  function Keys(s: seq<Item>): (ks: seq<Key>)
    ensures |ks| == |s| && forall i :: 0 <= i < |s| ==> ks[i] == s[i].key
  {
    seq(|s|, i requires 0 <= i < |s| => s[i].key)
  }

  lemma DropBehind<T>(s: seq<T>, p: nat, from: nat)
    requires p < from < |s|
    ensures |Without(s, p) + [s[p]]| == |s| && (Without(s, p) + [s[p]])[from..] == s[from..][1..] + [s[p]]
  {
  }

  lemma DropBefore<T>(s: seq<T>, p: nat, from: nat)
    requires from <= p < |s|
    ensures |Without(s, p) + [s[p]]| == |s|
    ensures (Without(s, p) + [s[p]])[from..] == Without(s[from..], p - from) + [s[p]]
  {
  }

  lemma MovedSuffix(r: seq<Key>, p: nat, n: nat, t: seq<Key>, u: seq<Key>)
    requires Skip(|r|, n) <= p < |r| && t == Without(r, p) + [r[p]]
    requires u == Without(Suffix(r, n), p - Skip(|r|, n)) + [r[p]]
    ensures Suffix(t, n) == u
  {
    DropBefore(r, p, Skip(|r|, n));
  }

  lemma NewSuffix(r: seq<Key>, k: Key, n: nat)
    requires n > 0
    ensures var ks := Suffix(r, n);
      Suffix(r + [k], n) == if |ks| < n then ks + [k] else ks[1..] + [k]
  {
  }

  lemma SuffixIn(r: seq<Key>, n: nat, k: Key)
    requires k in Suffix(r, n)
    ensures k in r
  {
  }

  /** Key k put, or moved, to the back of `ks`; a new key pushes the first one out when ks is full. */
  function Pushed(ks: seq<Key>, k: Key, n: nat): seq<Key> {
    if k in ks then Without(ks, Position(ks, k)) + [k]
    else if |ks| < n || ks == [] then ks + [k]
    else ks[1..] + [k]
  }

  lemma PushedAt(ks: seq<Key>, n: nat, p: nat)
    requires Distinct(ks) && p < |ks|
    ensures Pushed(ks, ks[p], n) == Without(ks, p) + [ks[p]]
  {
  }

  lemma TouchAt(r: seq<Key>, p: nat)
    requires Distinct(r) && p < |r|
    ensures Touch(r, r[p]) == Without(r, p) + [r[p]]
  {
  }

  /** Touching a key that is not among the last n. */
  lemma TouchOutside(r: seq<Key>, p: nat, n: nat)
    requires Distinct(r) && n > 0 && p < Skip(|r|, n)
    ensures Suffix(Touch(r, r[p]), n) == Pushed(Suffix(r, n), r[p], n)
  {
    TouchAt(r, p);
    DropBehind(r, p, Skip(|r|, n));
    SuffixDistinct(r, n);
  }

  /** Touching one of the last n keys. */
  lemma TouchInside(r: seq<Key>, p: nat, n: nat)
    requires Distinct(r) && n > 0 && Skip(|r|, n) <= p < |r|
    ensures Suffix(Touch(r, r[p]), n) == Pushed(Suffix(r, n), r[p], n)
  {
    TouchAt(r, p);
    SuffixDistinct(r, n);
    PushedAt(Suffix(r, n), n, p - Skip(|r|, n));
    MovedSuffix(r, p, n, Touch(r, r[p]), Pushed(Suffix(r, n), r[p], n));
  }

  lemma SuffixDistinct(r: seq<Key>, n: nat)
    requires Distinct(r)
    ensures Distinct(Suffix(r, n)) && forall i :: 0 <= i < Skip(|r|, n) ==> r[i] !in Suffix(r, n)
  {
  }

  /** What a touch does to the last n keys. */
  lemma TouchSuffix(r: seq<Key>, k: Key, n: nat)
    requires Distinct(r) && n > 0
    ensures Suffix(Touch(r, k), n) == Pushed(Suffix(r, n), k, n)
  {
    if k in r {
      var p := Position(r, k);
      if p < Skip(|r|, n) { TouchOutside(r, p, n); } else { TouchInside(r, p, n); }
    } else {
      NewSuffix(r, k, n);
      if k in Suffix(r, n) { SuffixIn(r, n, k); }
    }
  }

  lemma HasKey(s: seq<Item>, k: Key)
    requires Unique(s)
    ensures Has(s, k) <==> k in Keys(s)
    ensures Has(s, k) ==> Position(Keys(s), k) == Find(s, k)
  {
    if Has(s, k) {
      assert Keys(s)[Find(s, k)] == k;
    }
    if k in Keys(s) {
      assert s[Position(Keys(s), k)].key == k;
    }
  }

  lemma KeysMoved(s: seq<Item>, p: nat, item: Item)
    requires p < |s|
    ensures Keys(Without(s, p) + [item]) == Without(Keys(s), p) + [item.key]
  {
  }

  lemma KeysMore(s: seq<Item>, item: Item)
    ensures Keys(s + [item]) == Keys(s) + [item.key]
    ensures s != [] ==> Keys(s[1..]) == Keys(s)[1..]
  {
  }

  lemma StepKeys(capacity: nat, s: seq<Item>, item: Item)
    requires capacity > 0 && |s| <= capacity && Unique(s)
    ensures Keys(AfterPut(capacity, s, item).list) == Pushed(Keys(s), item.key, capacity)
    ensures Keys(AfterGet(s, item.key)) == if item.key in Keys(s) then Pushed(Keys(s), item.key, capacity) else Keys(s)
  {
    HasKey(s, item.key);
    var p := Find(s, item.key);
    if p < |s| {
      KeysMoved(s, p, item);
      KeysMoved(s, p, s[p]);
    } else {
      KeysMore(s, item);
      if s != [] { KeysMore(s[1..], item); }
    }
  }

  lemma {:induction false} KeysAreSuffix(capacity: nat, ops: seq<Op>)
    requires capacity > 0
    ensures Keys(Run(capacity, ops)) == Suffix(Recent(Touches(capacity, ops)), capacity)
    decreases |ops|
  {
    if ops != [] {
      var init := ops[..|ops| - 1];
      KeysAreSuffix(capacity, init);
      var s, t := Run(capacity, init), Touches(capacity, init);
      var item := match ops[|ops| - 1] case OpPut(item) => item case OpGet(key) => Item(key, 0);
      StepKeys(capacity, s, item);
      HasKey(s, item.key);
      TouchSuffix(Recent(t), item.key, capacity);
      assert (t + [item.key])[..|t|] == t;
      assert t + [] == t;
    }
  }

  /** LRU recency: after any trace the cached keys, in list order, are exactly the `capacity` most
      recently touched ones. */
  lemma Recency(capacity: nat, ops: seq<Op>)
    requires capacity > 0
    ensures MostRecent(Keys(Run(capacity, ops)), Touches(capacity, ops), capacity)
  {
    KeysAreSuffix(capacity, ops);
    SuffixMostRecent(Touches(capacity, ops), capacity);
  }

  // ------------------------------------------------------------------ the cache

  /** An entry of the list of values. */
  class Entry {
    var key: Key
    var data: nat

    constructor (key: Key, data: nat)
      ensures this.key == key && this.data == data
    {
      this.key, this.data := key, data;
    }
  }

  /** Map and list agree: every listed entry is found under its own key, and nothing else is. */
  ghost predicate Agree(keys: map<Key, Entry>, values: seq<Entry>, items: seq<Item>) {
    && |items| == |values| && Unique(items)
    && (forall i :: 0 <= i < |items| ==> items[i].key in keys && keys[items[i].key] == values[i])
    && (forall k :: k in keys ==> Has(items, k))
  }

  lemma {:induction false} AgreeSize(keys: map<Key, Entry>, values: seq<Entry>, items: seq<Item>)
    requires Agree(keys, values, items)
    ensures |keys| == |values|
  {
    HasKeys(items);
    forall k
      ensures k in Keys(items) <==> k in keys.Keys
    {
      HasKey(items, k);
    }
    DistinctSize(Keys(items), keys.Keys);
  }

  lemma HasKeys(items: seq<Item>)
    requires Unique(items)
    ensures Distinct(Keys(items))
  {
  }

  /** Moving an entry to the back. */
  lemma MoveAgrees(keys: map<Key, Entry>, values: seq<Entry>, items: seq<Item>, p: nat)
    requires Agree(keys, values, items) && p < |values|
    ensures Agree(keys, Without(values, p) + [values[p]], Without(items, p) + [items[p]])
  {
    var values', items' := Without(values, p) + [values[p]], Without(items, p) + [items[p]];
    forall i | 0 <= i < |items'|
      ensures items'[i].key in keys && keys[items'[i].key] == values'[i]
    {
      MovedAt(values, p, i);
      MovedAt(items, p, i);
    }
    forall i, j | 0 <= i < j < |items'|
      ensures items'[i].key != items'[j].key
    {
      MovedAt(items, p, i);
      MovedAt(items, p, j);
    }
    forall k | k in keys
      ensures Has(items', k)
    {
      MovedHas(items, p, k);
    }
  }

  lemma MovedHas(items: seq<Item>, p: nat, k: Key)
    requires p < |items| && Has(items, k)
    ensures Has(Without(items, p) + [items[p]], k)
  {
    var i := Find(items, k);
    var j := if i < p then i else if i == p then |items| - 1 else i - 1;
    MovedAt(items, p, j);
    assert (Without(items, p) + [items[p]])[j].key == k;
  }

  lemma MoveFilled(values: seq<Entry>, items: seq<Item>, p: nat)
    requires Filled(values, items) && p < |values|
    ensures Filled(Without(values, p) + [values[p]], Without(items, p) + [items[p]])
  {
    var values', items' := Without(values, p) + [values[p]], Without(items, p) + [items[p]];
    forall i | 0 <= i < |values'|
      ensures items'[i] == Item(values'[i].key, values'[i].data)
    {
      MovedAt(values, p, i);
      MovedAt(items, p, i);
    }
  }

  lemma FindIs(items: seq<Item>, p: nat)
    requires Unique(items) && p < |items|
    ensures Find(items, items[p].key) == p
  {
    assert Has(items, items[p].key);
  }

  /** Appending an entry under a new key. */
  lemma AppendAgrees(keys: map<Key, Entry>, values: seq<Entry>, items: seq<Item>, entry: Entry, item: Item)
    requires Agree(keys, values, items) && item.key !in keys
    ensures Agree(keys[item.key := entry], values + [entry], items + [item])
  {
    var items' := items + [item];
    forall k | k in keys[item.key := entry]
      ensures Has(items', k)
    {
      if k in keys { assert items'[Find(items, k)].key == k; } else { assert items'[|items|].key == k; }
    }
  }

  lemma OtherEntries(values: seq<Entry>, items: seq<Item>)
    requires Filled(values, items) && Unique(items) && values != []
    ensures forall i :: 0 <= i < |values| - 1 ==> values[i] != values[|values| - 1]
  {
  }

  /** A put on a cached key moves its item to the back and replaces it there. */
  lemma PutOnHit(capacity: nat, s: seq<Item>, item: Item)
    requires 0 < capacity && |s| <= capacity && Has(s, item.key)
    ensures var moved, was, r := AfterGet(s, item.key), s[Find(s, item.key)], AfterPut(capacity, s, item);
      && |moved| == |s| > 0 && moved[|s| - 1] == was && was.key == item.key
      && r.list == moved[|s| - 1 := item]
      && r.handed == (if was.data != item.data then [was] else [])
      && (was.data == item.data ==> r.list == moved)
  {
  }

  /** Giving the last entry another item under the same key. */
  lemma LastAgrees(keys: map<Key, Entry>, values: seq<Entry>, items: seq<Item>, item: Item)
    requires Agree(keys, values, items) && items != [] && items[|items| - 1].key == item.key
    ensures Agree(keys, values, items[|items| - 1 := item])
  {
    forall k | k in keys
      ensures Has(items[|items| - 1 := item], k)
    {
      assert items[|items| - 1 := item][Find(items, k)].key == k;
    }
  }

  /** Dropping the oldest entry. */
  lemma TailAgrees(keys: map<Key, Entry>, values: seq<Entry>, items: seq<Item>)
    requires Agree(keys, values, items) && values != []
    ensures Agree(keys - {items[0].key}, values[1..], items[1..])
  {
    forall k | k in keys && k != items[0].key
      ensures Has(items[1..], k)
    {
      assert items[1..][Find(items, k) - 1].key == k;
    }
  }

  /** Using the oldest entry again, under a new key. */
  lemma EvictAgrees(keys: map<Key, Entry>, values: seq<Entry>, items: seq<Item>, item: Item)
    requires Agree(keys, values, items) && values != [] && item.key !in keys
    ensures Agree(keys[item.key := values[0]] - {items[0].key}, values[1..] + [values[0]], items[1..] + [item])
  {
    TailAgrees(keys, values, items);
    AppendAgrees(keys - {items[0].key}, values[1..], items[1..], values[0], item);
    assert keys[item.key := values[0]] - {items[0].key} == (keys - {items[0].key})[item.key := values[0]];
  }

  lemma LaterEntries(values: seq<Entry>, items: seq<Item>)
    requires Filled(values, items) && Unique(items) && values != []
    ensures forall i :: 0 <= i < |values[1..]| ==> values[1..][i] != values[0]
    ensures Filled(values[1..], items[1..])
  {
  }

  lemma FilledMore(values: seq<Entry>, items: seq<Item>, entry: Entry, item: Item)
    requires Filled(values, items) && item == Item(entry.key, entry.data)
    ensures Filled(values + [entry], items + [item])
  {
  }

  lemma MovedMembers<T>(s: seq<T>, p: nat)
    requires p < |s|
    ensures forall x :: x in Without(s, p) + [s[p]] ==> x in s
  {
  }

  /** The entry filed under a key holds its item. */
  lemma EntryOf(keys: map<Key, Entry>, values: seq<Entry>, items: seq<Item>, k: Key)
    requires Agree(keys, values, items) && Filled(values, items) && k in keys
    ensures Has(items, k) && keys[k] in values && items[Find(items, k)] == Item(keys[k].key, keys[k].data)
    ensures keys[k].key == k
  {
    assert values[Find(items, k)] == keys[k];
  }

  /** The fields of each entry hold its item. */
  ghost predicate Filled(values: seq<Entry>, items: seq<Item>)
    reads values
  {
    |items| == |values| && forall i :: 0 <= i < |values| ==> items[i] == Item(values[i].key, values[i].data)
  }

  class Cache {
    const capacity: nat
    var keys: map<Key, Entry>
    /** Entries in order of use, the oldest first. */
    var values: seq<Entry>
    /** The items the entries hold. */
    ghost var items: seq<Item>

    ghost predicate Valid()
      reads this, values
    {
      && capacity > 0 && |values| <= capacity
      && Agree(keys, values, items)
      && Filled(values, items)
    }

    constructor (capacity: nat)
      requires capacity > 0
      ensures Valid() && items == [] && this.capacity == capacity
    {
      this.capacity := capacity;
      keys, values, items := map[], [], [];
    }

    /** Excludes an entry from the list and puts it at the back. */
    method MoveToBack(entry: Entry)
      requires Valid() && entry in values
      modifies this`values, this`items
      ensures Valid() && items == AfterGet(old(items), entry.key)
      ensures values != [] && values[|values| - 1] == entry
      ensures forall e :: e in values ==> e in old(values)
    {
      var p :| 0 <= p < |values| && values[p] == entry;
      MoveAgrees(keys, values, items, p);
      MoveFilled(values, items, p);
      FindIs(items, p);
      MovedMembers(values, p);
      values := Without(values, p) + [values[p]];
      items := Without(items, p) + [items[p]];
    }

    /** A hit moves the entry to the back of the list. */
    method Get(key: Key) returns (data: nat)
      requires Valid()
      modifies this`values, this`items
      ensures Valid() && items == AfterGet(old(items), key)
      ensures data == if Has(old(items), key) then old(items)[Find(old(items), key)].data else 0
      ensures forall e :: e in values ==> e in old(values)
    {
      if key !in keys {
        assert !Has(items, key);
        return 0;
      }
      var entry := keys[key];
      assert values[Find(items, key)] == entry;
      MoveToBack(entry);
      data := entry.data;
    }

    /** Puts an item. What it displaces is handed back, a null item when nothing is. */
    method Put(item: Item) returns (back: Item)
      requires Valid()
      modifies this, values
      ensures Valid() && items == AfterPut(capacity, old(items), item).list
      ensures var handed := AfterPut(capacity, old(items), item).handed;
        back == if handed == [] then NULL_ITEM else handed[0]
      ensures forall e :: e in values ==> e in old(values) || fresh(e)
    {
      AgreeSize(keys, values, items);
      if item.key in keys {
        back := Replace(item);
      } else if |keys| < capacity {
        assert !Has(items, item.key);
        back := NULL_ITEM;
        var entry := new Entry(item.key, item.data);
        AppendAgrees(keys, values, items, entry, item);
        keys, values, items := keys[item.key := entry], values + [entry], items + [item];
      } else {
        assert !Has(items, item.key);
        back := Evict(item);
      }
    }

    /** A put on a cached key. */
    method Replace(item: Item) returns (back: Item)
      requires Valid() && item.key in keys
      modifies this`values, this`items, values
      ensures Valid() && items == AfterPut(capacity, old(items), item).list
      ensures var handed := AfterPut(capacity, old(items), item).handed;
        back == if handed == [] then NULL_ITEM else handed[0]
      ensures forall e :: e in values ==> e in old(values)
    {
      back := NULL_ITEM;
      var entry := keys[item.key];
      EntryOf(keys, values, items, item.key);
      PutOnHit(capacity, items, item);
      MoveToBack(entry);
      if entry.data != item.data {
        back := Item(item.key, entry.data);
        SetData(entry, item.data);
      }
    }

    /** Changes the data of the entry at the back. */
    method SetData(entry: Entry, data: nat)
      requires Valid() && values != [] && entry == values[|values| - 1]
      modifies this`items, entry`data
      ensures Valid() && items == old(items)[|values| - 1 := Item(entry.key, data)]
    {
      var n := |values| - 1;
      LastAgrees(keys, values, items, Item(entry.key, data));
      OtherEntries(values, items);
      entry.data := data;
      items := items[n := Item(entry.key, data)];
    }

    /** A put on a new key when the cache is full: the oldest entry is used again. */
    method Evict(item: Item) returns (back: Item)
      requires Valid() && item.key !in keys && |values| == capacity
      modifies this, values
      ensures Valid() && items == old(items)[1..] + [item] && back == old(items)[0]
      ensures forall e :: e in values ==> e in old(values)
    {
      var entry := values[0];
      back := Item(entry.key, entry.data);
      EvictAgrees(keys, values, items, item);
      LaterEntries(values, items);
      entry.key, entry.data := item.key, item.data;
      FilledMore(values[1..], items[1..], entry, item);
      keys := keys[item.key := entry];
      values := values[1..] + [entry];
      keys := keys - {back.key};
      items := items[1..] + [item];
    }
  }
}
