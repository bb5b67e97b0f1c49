/**
 Paged row views: each fetch reads the next page of an ordered store after the remembered key. Pages
 are proved against one full scan, with rows inserted between the fetches.
 */
module Rowdata {
  import opened Common

  /** Row identifiers in the order of the store. */
  type Key = nat

  /** A stored row: undecodable, or a row with the verdict of the filter (1 accept, 0 skip, other: error). */
  datatype Record = Bad | Row(data: nat, verdict: int)

  datatype Entry = Entry(key: Key, rec: Record)

  predicate Ordered(s: seq<Entry>) { forall i, j :: 0 <= i < j < |s| ==> s[i].key < s[j].key }

  predicate Accepted(e: Entry) { e.rec.Row? && e.rec.verdict == 1 }

  /** The accepted rows of a stretch of the store. */
  function Taken(s: seq<Entry>): seq<Entry> {
    if s == [] then [] else
    var e := s[|s| - 1];
    Taken(s[..|s| - 1]) + if Accepted(e) then [e] else []
  }

  lemma TakenNext(s: seq<Entry>, p: nat, k: nat)
    requires p <= k < |s|
    ensures Taken(s[p..k + 1]) == Taken(s[p..k]) + if Accepted(s[k]) then [s[k]] else []
  {
    assert s[p..k + 1][..k - p] == s[p..k];
  }

  // ------------------------------------------------------------------ one fetch

  /** Where the loop started at p stops: after `count` accepted rows, at an undecodable row, behind
      a row the filter fails on, or at the end. */
  function Upto(s: seq<Entry>, p: nat, count: nat): (u: nat)
    requires p <= |s|
    ensures p <= u <= |s|
    decreases |s| - p
  {
    if count == 0 || p == |s| || s[p].rec.Bad? then p
    else if s[p].rec.verdict == 1 then Upto(s, p + 1, count - 1)
    else if s[p].rec.verdict == 0 then Upto(s, p + 1, count)
    else p + 1
  }

  predicate Fails(e: Entry) { e.rec.Row? && e.rec.verdict != 0 && e.rec.verdict != 1 }

  /** The loop has no further row to read at u. */
  predicate Ended(s: seq<Entry>, p: nat, u: nat)
    requires p <= u <= |s|
  {
    u == |s| || s[u].rec.Bad? || (u > p && Fails(s[u - 1]))
  }

  /** [p, u) is a page of at most `count` accepted rows: it holds decodable rows, only the last of
      which may fail the filter; it ends with its `count`-th accepted row, or has fewer and there is
      no further row to read. */
  ghost predicate IsPage(s: seq<Entry>, p: nat, u: nat, count: nat) {
    && p <= u <= |s|
    && (forall i :: p <= i < u ==> s[i].rec.Row?)
    && (forall i :: p <= i < u - 1 ==> !Fails(s[i]))
    && var n := |Taken(s[p..u])|;
       if n < count then Ended(s, p, u) else n == count && (u == p || Accepted(s[u - 1]))
  }

  lemma {:induction false} TakenFirst(s: seq<Entry>, p: nat, u: nat)
    requires p < u <= |s|
    ensures Taken(s[p..u]) == (if Accepted(s[p]) then [s[p]] else []) + Taken(s[p + 1..u])
    decreases u
  {
    TakenNext(s, p, u - 1);
    if u > p + 1 {
      TakenFirst(s, p, u - 1);
      TakenNext(s, p + 1, u - 1);
      var first, last := if Accepted(s[p]) then [s[p]] else [], if Accepted(s[u - 1]) then [s[u - 1]] else [];
      Joined(first, Taken(s[p + 1..u - 1]), last);
    } else {
      assert s[p..p] == [] && s[p + 1..u] == [];
    }
  }

  lemma Joined(a: seq<Entry>, b: seq<Entry>, c: seq<Entry>)
    ensures (a + b) + c == a + (b + c)
  {
  }

  /** A page that starts with a row the filter does not fail on, from the page behind that row. */
  lemma PageStep(s: seq<Entry>, p: nat, u: nat, count: nat)
    requires p < |s| && s[p].rec.Row? && !Fails(s[p]) && count > 0
    ensures IsPage(s, p, u, count) <==> IsPage(s, p + 1, u, if Accepted(s[p]) then count - 1 else count)
  {
    if p < u <= |s| { TakenFirst(s, p, u); } else if u == p { assert s[p..u] == []; }
    if u == p + 1 { assert s[p + 1..u] == []; }
  }

  /** The loop stops exactly where the page ends. */
  lemma {:induction false} UptoIff(s: seq<Entry>, p: nat, u: nat, count: nat)
    requires p <= |s|
    ensures u == Upto(s, p, count) <==> IsPage(s, p, u, count)
    decreases |s| - p
  {
    assert s[p..p] == [];
    if count == 0 || p == |s| || s[p].rec.Bad? || Fails(s[p]) {
      UptoHere(s, p, u, count);
    } else {
      PageStep(s, p, u, count);
      UptoIff(s, p + 1, u, if Accepted(s[p]) then count - 1 else count);
    }
  }

  lemma UptoHere(s: seq<Entry>, p: nat, u: nat, count: nat)
    requires p <= |s| && (count == 0 || p == |s| || s[p].rec.Bad? || Fails(s[p]))
    ensures u == Upto(s, p, count) <==> IsPage(s, p, u, count)
  {
    assert s[p..p] == [];
    if p < u <= |s| { TakenFirst(s, p, u); }
    if u == p + 1 <= |s| { assert s[p + 1..u] == []; }
    if count == 0 && p < u <= |s| && IsPage(s, p, u, count) { LastTaken(s, p, u); }
  }

  lemma LastTaken(s: seq<Entry>, p: nat, u: nat)
    requires p < u <= |s| && Accepted(s[u - 1])
    ensures |Taken(s[p..u])| > 0
  {
    TakenNext(s, p, u - 1);
  }

  /** The first position whose key is greater than rowid. */
  function After(s: seq<Entry>, rowid: Key): (p: nat)
    ensures p <= |s|
    ensures forall i :: 0 <= i < p ==> s[i].key <= rowid
    ensures p < |s| ==> s[p].key > rowid
  {
    if s == [] || s[0].key > rowid then 0
    else
      var p := After(s[1..], rowid);
      assert forall i :: 1 <= i < p + 1 ==> s[i] == s[1..][i - 1];
      p + 1
  }

  lemma AfterIs(s: seq<Entry>, rowid: Key, p: nat)
    requires p <= |s| && Ordered(s)
    requires forall i :: 0 <= i < p ==> s[i].key <= rowid
    requires p < |s| ==> s[p].key > rowid
    ensures After(s, rowid) == p
  {
  }

  /** The cursor of a view; the first fetch starts at the beginning and ignores rowid. */
  datatype Cursor = Cursor(fromBegin: bool, rowid: Key)

  datatype Fetched = Fetched(cursor: Cursor, page: Option<seq<Entry>>)

  function Start(s: seq<Entry>, c: Cursor): (p: nat)
    ensures p <= |s|
  {
    if c.fromBegin then 0 else After(s, c.rowid)
  }

  /** One fetch: nothing when no row follows, else a page; the cursor moves to the last row read. */
  function FetchPage(s: seq<Entry>, c: Cursor, count: nat): Fetched {
    var p := Start(s, c);
    var u := Upto(s, p, count);
    Fetched(Cursor(false, if u > p then s[u - 1].key else c.rowid),
            if p == |s| then None else Some(Taken(s[p..u])))
  }

  /** The rows are the accepted ones of the page at p. */
  ghost predicate HoldsPage(s: seq<Entry>, p: nat, count: nat, rows: seq<Entry>) {
    exists u: nat :: IsPage(s, p, u, count) && rows == Taken(s[p..u])
  }

  /** What a fetch returns, and where it leaves the cursor: at the last row read. */
  lemma FetchedPage(s: seq<Entry>, c: Cursor, count: nat)
    ensures var p, f := Start(s, c), FetchPage(s, c, count);
      && (f.page.None? <==> p == |s|)
      && (f.page.Some? ==> |f.page.value| <= count && HoldsPage(s, p, count, f.page.value))
      && forall u: nat :: IsPage(s, p, u, count) ==> f.cursor.rowid == if u > p then s[u - 1].key else c.rowid
  {
    var p := Start(s, c);
    forall u: nat ensures u == Upto(s, p, count) <==> IsPage(s, p, u, count) { UptoIff(s, p, u, count); }
    assert IsPage(s, p, Upto(s, p, count), count);
  }

  /** The first position whose key is not below `key`. */
  method SetRange(s: seq<Entry>, key: Key) returns (p: nat)
    ensures p <= |s| && forall i :: 0 <= i < p ==> s[i].key < key
    ensures p < |s| ==> s[p].key >= key
  {
    p := 0;
    while p < |s| && s[p].key < key
      invariant p <= |s| && forall i :: 0 <= i < p ==> s[i].key < key
    {
      p := p + 1;
    }
  }

  /** The first position behind rowid: the cursor is set at the first key not below it and skips an
      equal one. */
  method Behind(s: seq<Entry>, rowid: Key) returns (p: nat)
    requires Ordered(s)
    ensures p == After(s, rowid)
  {
    p := SetRange(s, rowid);
    if p < |s| && s[p].key == rowid { p := p + 1; }
    AfterIs(s, rowid, p);
  }

  // ------------------------------------------------------------------ the view

  class View {
    var fetchFromBegin: bool
    var rowid: Key

    ghost function At(): Cursor
      reads this
    {
      Cursor(fetchFromBegin, rowid)
    }

    /** A new view; its rowid holds whatever was in the allocated memory. */
    constructor (garbage: Key)
      ensures At() == Cursor(true, garbage)
    {
      fetchFromBegin, rowid := true, garbage;
    }

    /** Reads rows from position p on. */
    method SliceImpl(s: seq<Entry>, p: nat, count: nat) returns (rows: seq<Entry>)
      requires p < |s|
      modifies this`rowid
      ensures var u := Upto(s, p, count);
        rows == Taken(s[p..u]) && rowid == if u > p then s[u - 1].key else old(rowid)
      ensures |rows| <= count && HoldsPage(s, p, count, rows)
    {
      UptoIff(s, p, Upto(s, p, count), count);
      rows := [];
      var i, k := 0, p;
      while i < count
        invariant p <= k < |s| && |rows| == i <= count
        invariant rows == Taken(s[p..k])
        invariant rowid == if k > p then s[k - 1].key else old(rowid)
        invariant Upto(s, p, count) == Upto(s, k, count - i)
        decreases |s| - k
      {
        var entry := s[k];
        if entry.rec.Bad? { break; }
        rowid := entry.key;
        TakenNext(s, p, k);
        k := k + 1;
        if entry.rec.verdict == 1 {
          rows := rows + [entry];
          i := i + 1;
        } else if entry.rec.verdict != 0 {
          break;
        }
        if k == |s| { break; }
      }
    }

    /** A page from the beginning, nothing when the store is empty. */
    method SliceFromBegin(s: seq<Entry>, count: nat) returns (page: Option<seq<Entry>>)
      modifies this`rowid
      ensures Fetched(Cursor(false, rowid), page) == FetchPage(s, Cursor(true, old(rowid)), count)
    {
      if s == [] { return None; }
      var rows := SliceImpl(s, 0, count);
      page := Some(rows);
    }

    /** A page after rowid, nothing when no key follows. */
    method Slice(s: seq<Entry>, count: nat) returns (page: Option<seq<Entry>>)
      requires Ordered(s)
      modifies this`rowid
      ensures Fetched(Cursor(false, rowid), page) == FetchPage(s, Cursor(false, old(rowid)), count)
    {
      var p := Behind(s, rowid);
      if p == |s| { return None; }
      var rows := SliceImpl(s, p, count);
      page := Some(rows);
    }

    method Fetch(s: seq<Entry>, count: nat) returns (page: Option<seq<Entry>>)
      requires Ordered(s)
      modifies this
      ensures Fetched(At(), page) == FetchPage(s, old(At()), count)
      ensures page.Some? ==> |page.value| <= count && HoldsPage(s, Start(s, old(At())), count, page.value)
    {
      FetchedPage(s, At(), count);
      if fetchFromBegin {
        fetchFromBegin := false;
        page := SliceFromBegin(s, count);
      } else {
        page := Slice(s, count);
      }
    }
  }

  // ------------------------------------------------------------------ whole scans

  /** One fetch of a scan: the store as it is then, and the page size. */
  datatype Call = Call(store: seq<Entry>, count: nat)

  /** Between fetches rows are only added: they are never changed or removed. */
  ghost predicate Growing(calls: seq<Call>) {
    && (forall i :: 0 <= i < |calls| ==> Ordered(calls[i].store))
    && (forall i, j, e :: 0 <= i < j < |calls| && e in calls[i].store ==> e in calls[j].store)
  }

  function Scan(calls: seq<Call>, garbage: Key): Cursor {
    if calls == [] then Cursor(true, garbage) else
    var last := calls[|calls| - 1];
    FetchPage(last.store, Scan(calls[..|calls| - 1], garbage), last.count).cursor
  }

  function LastPage(calls: seq<Call>, garbage: Key): Option<seq<Entry>>
    requires calls != []
  {
    var last := calls[|calls| - 1];
    FetchPage(last.store, Scan(calls[..|calls| - 1], garbage), last.count).page
  }

  function Rows(page: Option<seq<Entry>>): seq<Entry> { if page.None? then [] else page.value }

  /** All rows of all pages. */
  function Collected(calls: seq<Call>, garbage: Key): seq<Entry> {
    if calls == [] then [] else Collected(calls[..|calls| - 1], garbage) + Rows(LastPage(calls, garbage))
  }

  lemma {:induction false} TakenIs(s: seq<Entry>)
    requires Ordered(s)
    ensures Ordered(Taken(s))
    ensures forall e :: e in Taken(s) <==> e in s && Accepted(e)
    decreases |s|
  {
    if s != [] {
      var init, e := s[..|s| - 1], s[|s| - 1];
      TakenIs(init);
      assert s == init + [e];
      forall x | x in Taken(init)
        ensures x.key < e.key
      {
        assert x in init;
      }
    }
  }

  lemma Stretch(s: seq<Entry>, p: nat, u: nat, e: Entry) returns (i: nat)
    requires Ordered(s) && p <= u <= |s| && e in Taken(s[p..u])
    ensures p <= i < u && s[i] == e && Accepted(e)
  {
    TakenIs(s[p..u]);
    var j :| 0 <= j < u - p && s[p..u][j] == e;
    i := p + j;
  }

  /** The rows of a page: accepted rows between the cursor before and after the fetch. */
  lemma PageIs(s: seq<Entry>, c: Cursor, count: nat)
    requires Ordered(s)
    ensures var f := FetchPage(s, c, count);
      && !f.cursor.fromBegin && Ordered(Rows(f.page))
      && (!c.fromBegin ==> c.rowid <= f.cursor.rowid)
      && (forall e :: e in Rows(f.page) ==>
            e in s && Accepted(e) && e.key <= f.cursor.rowid && (!c.fromBegin ==> c.rowid < e.key))
  {
    var p := Start(s, c);
    var u := Upto(s, p, count);
    TakenIs(s[p..u]);
    forall e | e in Taken(s[p..u])
      ensures e in s && Accepted(e) && e.key <= s[u - 1].key && (!c.fromBegin ==> c.rowid < e.key)
    {
      var i := Stretch(s, p, u, e);
    }
  }

  /** No accepted row between the two cursors is left out. */
  lemma PageHas(s: seq<Entry>, c: Cursor, count: nat, e: Entry)
    requires Ordered(s) && e in s && Accepted(e)
    requires c.fromBegin ==> Upto(s, 0, count) > 0
    requires c.fromBegin || c.rowid < e.key
    requires e.key <= FetchPage(s, c, count).cursor.rowid
    ensures e in Rows(FetchPage(s, c, count).page)
  {
    var i :| 0 <= i < |s| && s[i] == e;
    var p := Start(s, c);
    var u := Upto(s, p, count);
    InPage(s, c, count, i);
    TakenIs(s[p..u]);
    assert s[p..u][i - p] == e;
  }

  lemma InPage(s: seq<Entry>, c: Cursor, count: nat, i: nat)
    requires Ordered(s) && i < |s|
    requires c.fromBegin ==> Upto(s, 0, count) > 0
    requires c.fromBegin || c.rowid < s[i].key
    requires s[i].key <= FetchPage(s, c, count).cursor.rowid
    ensures Start(s, c) <= i < Upto(s, Start(s, c), count)
  {
  }

  /** The first fetch reads a row, or finds the store empty. */
  predicate Starts(call: Call) {
    call.store == [] || (call.count > 0 && !call.store[0].rec.Bad?)
  }

  lemma {:induction false} StepCollected(calls: seq<Call>, garbage: Key)
    requires Growing(calls) && calls != []
    requires Ordered(Collected(calls[..|calls| - 1], garbage))
    requires forall e :: e in Collected(calls[..|calls| - 1], garbage) ==>
      !Scan(calls[..|calls| - 1], garbage).fromBegin && e.key <= Scan(calls[..|calls| - 1], garbage).rowid
    ensures Ordered(Collected(calls, garbage))
    ensures forall e :: e in Collected(calls, garbage) ==>
      !Scan(calls, garbage).fromBegin && e.key <= Scan(calls, garbage).rowid
  {
    var last, c := calls[|calls| - 1], Scan(calls[..|calls| - 1], garbage);
    PageIs(last.store, c, last.count);
  }

  /** Keys strictly increase across all pages, whatever is inserted between the fetches. */
  lemma {:induction false} PagesIncrease(calls: seq<Call>, garbage: Key)
    requires Growing(calls)
    ensures Ordered(Collected(calls, garbage))
    ensures forall e :: e in Collected(calls, garbage) ==>
      !Scan(calls, garbage).fromBegin && e.key <= Scan(calls, garbage).rowid
    decreases |calls|
  {
    if calls != [] {
      PagesIncrease(calls[..|calls| - 1], garbage);
      StepCollected(calls, garbage);
    }
  }

  /** Every row returned is an accepted row of the store it was read from. */
  lemma {:induction false} PagesAccepted(calls: seq<Call>, garbage: Key, e: Entry)
    requires Growing(calls) && e in Collected(calls, garbage)
    ensures calls != [] && Accepted(e) && e in calls[|calls| - 1].store
    decreases |calls|
  {
    var init := calls[..|calls| - 1];
    if e in Collected(init, garbage) {
      PagesAccepted(init, garbage, e);
    } else {
      PageIs(calls[|calls| - 1].store, Scan(init, garbage), calls[|calls| - 1].count);
    }
  }

  /** Rows of the first store up to the cursor have been returned. */
  lemma {:induction false} PagesCover(calls: seq<Call>, garbage: Key, e: Entry)
    requires Growing(calls) && calls != [] && Starts(calls[0])
    requires e in calls[0].store && Accepted(e)
    requires e.key <= Scan(calls, garbage).rowid
    ensures e in Collected(calls, garbage)
    decreases |calls|
  {
    var init, last := calls[..|calls| - 1], calls[|calls| - 1];
    var c := Scan(init, garbage);
    if |calls| == 1 {
      assert Upto(last.store, 0, last.count) > 0;
      PageHas(last.store, c, last.count, e);
    } else {
      PageIs(init[|init| - 1].store, Scan(init[..|init| - 1], garbage), init[|init| - 1].count);
      assert !c.fromBegin;
      if e.key <= c.rowid {
        PagesCover(init, garbage, e);
      } else {
        PageHas(last.store, c, last.count, e);
      }
    }
  }

  /** Paged scan equals full scan: when a fetch finds nothing, every accepted row that was there at
      the first fetch has been returned (exactly once, as keys strictly increase). */
  lemma PagedScan(calls: seq<Call>, garbage: Key)
    requires Growing(calls) && calls != [] && Starts(calls[0])
    requires LastPage(calls, garbage).None?
    ensures Ordered(Collected(calls, garbage))
    ensures forall e :: e in calls[0].store && Accepted(e) ==> e in Collected(calls, garbage)
  {
    PagesIncrease(calls, garbage);
    var last, c := calls[|calls| - 1], Scan(calls[..|calls| - 1], garbage);
    forall e | e in calls[0].store && Accepted(e)
      ensures e in Collected(calls, garbage)
    {
      assert e in last.store;
      PagesCover(calls, garbage, e);
    }
  }

  /** Every scan that starts with this first fetch and ends with a fetch that finds nothing returns
      all accepted rows of the first store. */
  ghost predicate Complete(first: Call) {
    forall calls: seq<Call>, garbage: Key :: Growing([first] + calls) && LastPage([first] + calls, garbage).None? ==>
      Covers([first] + calls, garbage)
  }

  ghost predicate Covers(calls: seq<Call>, garbage: Key)
    requires calls != []
  {
    forall e :: e in calls[0].store && Accepted(e) ==> e in Collected(calls, garbage)
  }

  /** A view starts with an uninitialised rowid, and the first fetch leaves it so when it reads no
      row: the scan is complete exactly when the first fetch reads a row or there is none to return. */
  lemma CompleteIff(first: Call)
    requires Ordered(first.store)
    ensures Complete(first) <==> Starts(first) || forall e :: e in first.store ==> !Accepted(e)
  {
    if Starts(first) {
      forall calls: seq<Call>, garbage: Key
        | Growing([first] + calls) && LastPage([first] + calls, garbage).None?
        ensures Covers([first] + calls, garbage)
      {
        PagedScan([first] + calls, garbage);
      }
    } else if e :| e in first.store && Accepted(e) {
      LosesRows(first, e);
    }
  }

  /** The rows are lost when the uninitialised rowid is behind them. */
  lemma LosesRows(first: Call, e: Entry)
    requires Ordered(first.store) && !Starts(first) && e in first.store && Accepted(e)
    ensures !Complete(first)
  {
    var s := first.store;
    var garbage := s[|s| - 1].key;
    var calls := [first, first];
    assert calls == [first] + [first] && calls[..1] == [first] && [first][..0] == [];
    assert Scan([first], garbage) == Cursor(false, garbage);
    AfterIs(s, garbage, |s|);
    assert s[0..0] == [];
    assert LastPage(calls, garbage).None? && Growing(calls);
    assert Rows(LastPage([first], garbage)) == Taken(s[0..0]) == [];
    assert Collected([first], garbage) == Collected([], garbage) + [] == [];
    assert Collected(calls, garbage) == Collected([first], garbage) + [];
    assert !Covers([first] + [first], garbage);
  }

  // ------------------------------------------------------------------ one store

  lemma {:induction false} TakenSplit(s: seq<Entry>, p: nat, u: nat)
    requires p <= u <= |s|
    ensures Taken(s[..u]) == Taken(s[..p]) + Taken(s[p..u])
    decreases u
  {
    if u > p {
      TakenSplit(s, p, u - 1);
      TakenNext(s, p, u - 1);
      assert s[..u][..u - 1] == s[..u - 1];
    } else {
      assert s[p..u] == [];
    }
  }

  /** Fetches of sizes `counts` from a store that does not change. */
  function Same(s: seq<Entry>, counts: seq<nat>): (calls: seq<Call>)
    ensures |calls| == |counts|
  {
    if counts == [] then [] else Same(s, counts[..|counts| - 1]) + [Call(s, counts[|counts| - 1])]
  }

  /** How many entries the scan has passed. */
  function Passed(s: seq<Entry>, counts: seq<nat>, garbage: Key): nat { Start(s, Scan(Same(s, counts), garbage)) }

  /** After a fetch that leaves rowid on the last row read, the next one starts behind that row. */
  lemma FetchMoves(s: seq<Entry>, c: Cursor, n: nat)
    requires Ordered(s)
    requires c.fromBegin ==> Starts(Call(s, n))
    ensures Start(s, FetchPage(s, c, n).cursor) == Upto(s, Start(s, c), n)
  {
    var p := Start(s, c);
    var u := Upto(s, p, n);
    if u > p { AfterIs(s, s[u - 1].key, u); }
  }

  lemma SameNext(s: seq<Entry>, counts: seq<nat>, n: nat)
    ensures var calls := Same(s, counts + [n]);
      |calls| == |counts| + 1 && calls[|counts|] == Call(s, n) && calls[..|counts|] == Same(s, counts)
  {
    assert (counts + [n])[..|counts|] == counts;
  }

  lemma PassedNext(s: seq<Entry>, counts: seq<nat>, n: nat, garbage: Key)
    requires Ordered(s)
    requires counts == [] ==> Starts(Call(s, n))
    ensures Passed(s, counts + [n], garbage) == Upto(s, Passed(s, counts, garbage), n)
    ensures LastPage(Same(s, counts + [n]), garbage) == FetchPage(s, Scan(Same(s, counts), garbage), n).page
    ensures Collected(Same(s, counts + [n]), garbage) ==
      Collected(Same(s, counts), garbage) + Rows(LastPage(Same(s, counts + [n]), garbage))
  {
    SameNext(s, counts, n);
    NotFromBegin(Same(s, counts), garbage);
    FetchMoves(s, Scan(Same(s, counts), garbage), n);
  }

  lemma NotFromBegin(calls: seq<Call>, garbage: Key)
    ensures Scan(calls, garbage).fromBegin <==> calls == []
  {
  }

  /** From one store the pages together are the accepted rows passed so far; so when a fetch finds
      nothing, they are one full scan. */
  lemma {:induction false} PagesAreScan(s: seq<Entry>, counts: seq<nat>, garbage: Key)
    requires Ordered(s) && counts != [] && Starts(Call(s, counts[0]))
    ensures Collected(Same(s, counts), garbage) == Taken(s[..Passed(s, counts, garbage)])
    ensures LastPage(Same(s, counts), garbage).None? ==> Collected(Same(s, counts), garbage) == Taken(s)
    decreases |counts|
  {
    var init, n := counts[..|counts| - 1], counts[|counts| - 1];
    assert counts == init + [n];
    if init != [] { PagesAreScan(s, init, garbage); } else { NothingPassed(s, garbage); }
    PassedNext(s, init, n, garbage);
    PageTaken(s, Scan(Same(s, init), garbage), n);
  }

  lemma NothingPassed(s: seq<Entry>, garbage: Key)
    ensures Collected(Same(s, []), garbage) == Taken(s[..Passed(s, [], garbage)])
  {
    assert s[..0] == [];
  }

  /** A page is what it adds to the accepted rows passed; without one the scan is at the end. */
  lemma PageTaken(s: seq<Entry>, c: Cursor, n: nat)
    ensures var p := Start(s, c);
      Taken(s[..Upto(s, p, n)]) == Taken(s[..p]) + Rows(FetchPage(s, c, n).page)
    ensures FetchPage(s, c, n).page.None? ==> Upto(s, Start(s, c), n) == |s| && s[..|s|] == s
  {
    var p := Start(s, c);
    TakenSplit(s, p, Upto(s, p, n));
  }

  /** An undecodable row is never passed. */
  lemma {:induction false} UptoBad(s: seq<Entry>, p: nat, count: nat, b: nat)
    requires p <= b < |s| && s[b].rec.Bad?
    ensures Upto(s, p, count) <= b
    decreases b - p
  {
    if count > 0 && !s[p].rec.Bad? {
      if s[p].rec.verdict == 1 { UptoBad(s, p + 1, count - 1, b); }
      else if s[p].rec.verdict == 0 { UptoBad(s, p + 1, count, b); }
    }
  }

  lemma {:induction false} BadStops(s: seq<Entry>, counts: seq<nat>, garbage: Key, b: nat)
    requires Ordered(s) && b < |s| && s[b].rec.Bad?
    requires counts != [] ==> Starts(Call(s, counts[0]))
    ensures Passed(s, counts, garbage) <= b
    decreases |counts|
  {
    if counts != [] {
      var init, n := counts[..|counts| - 1], counts[|counts| - 1];
      assert counts == init + [n];
      BadStops(s, init, garbage, b);
      PassedNext(s, init, n, garbage);
      UptoBad(s, Passed(s, init, garbage), n, b);
    }
  }

  predicate Decodable(s: seq<Entry>) { forall i :: 0 <= i < |s| ==> !s[i].rec.Bad? }

  function Times(n: nat, k: nat): (counts: seq<nat>)
    ensures |counts| == k
    ensures k > 0 ==> counts[0] == n
  {
    if k == 0 then [] else Times(n, k - 1) + [n]
  }

  lemma UptoMoves(s: seq<Entry>, p: nat, n: nat)
    requires p < |s| && n > 0 && !s[p].rec.Bad?
    ensures Upto(s, p, n) > p
  {
  }

  lemma {:induction false} Advances(s: seq<Entry>, n: nat, k: nat, garbage: Key)
    requires Ordered(s) && Decodable(s) && n > 0
    ensures Passed(s, Times(n, k), garbage) == |s| || Passed(s, Times(n, k), garbage) >= k
    decreases k
  {
    if k > 0 {
      Advances(s, n, k - 1, garbage);
      PassedNext(s, Times(n, k - 1), n, garbage);
      var p := Passed(s, Times(n, k - 1), garbage);
      if p < |s| { UptoMoves(s, p, n); }
    }
  }

  /** Fetch number k finds nothing. */
  predicate Ends(s: seq<Entry>, n: nat, garbage: Key, k: nat) {
    LastPage(Same(s, Times(n, k) + [n]), garbage).None?
  }

  lemma EndsAt(s: seq<Entry>, n: nat, garbage: Key, k: nat)
    requires Ordered(s) && n > 0 && Starts(Call(s, n))
    ensures Ends(s, n, garbage, k) <==> Passed(s, Times(n, k), garbage) == |s|
  {
    PassedNext(s, Times(n, k), n, garbage);
  }

  /** Repeated fetches of one size come to a fetch that finds nothing exactly when every row of the
      store decodes; an undecodable row stalls the scan for ever. */
  lemma ScanEndsIff(s: seq<Entry>, n: nat, garbage: Key)
    requires Ordered(s) && n > 0 && Starts(Call(s, n))
    ensures (exists k: nat :: Ends(s, n, garbage, k)) <==> Decodable(s)
  {
    if Decodable(s) {
      Advances(s, n, |s|, garbage);
      EndsAt(s, n, garbage, |s|);
    } else {
      var b :| 0 <= b < |s| && s[b].rec.Bad?;
      forall k: nat
        ensures !Ends(s, n, garbage, k)
      {
        BadStops(s, Times(n, k), garbage, b);
        EndsAt(s, n, garbage, k);
      }
    }
  }
}
