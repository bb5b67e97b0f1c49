/**
 The loops of the row codec: serializing a row, measuring a serialized one, and reading it into one
 block of memory; and the table descriptor copied under a mask into one block of strings.
 */
module RowBuffer {
  import opened Common
  import opened Bytes
  import opened RowCodec

  // ------------------------------------------------------------------ serializing

  /** `items` are the items in the first `at` bytes. */
  ghost predicate Added(c: Codec, b: seq<Byte>, at: nat, items: seq<Binn>)
    requires c.size > 0 && at <= |b|
  {
    items == AddAll(c, Chunks(c.size, b[..at]))
  }

  /** One more item. */
  lemma AddedNext(c: Codec, b: seq<Byte>, at: nat, items: seq<Binn>)
    requires c.size > 0 && at + c.size <= |b| && Added(c, b, at, items)
    ensures Added(c, b, at + c.size, items + [c.add(b[at..at + c.size])])
  {
    var item := b[at..at + c.size];
    assert b[..at + c.size] == b[..at] + item;
    ChunksNext(c.size, b[..at], item);
    ListNext(c, Chunks(c.size, b[..at]), item);
  }

  lemma AddedAll(c: Codec, b: seq<Byte>, items: seq<Binn>)
    requires c.size > 0
    ensures Added(c, b, 0, [])
    ensures Added(c, b, |b|, items) ==> items == AddAll(c, Chunks(c.size, b))
  {
    assert b[..0] == [] && b[..|b|] == b;
  }

  method BinnItems(c: Codec, b: seq<Byte>) returns (items: seq<Binn>)
    requires c.size > 0 && Whole(c.size, |b|)
    ensures items == AddAll(c, Chunks(c.size, b))
  {
    items := [];
    var at := 0;
    AddedAll(c, b, items);
    while at < |b|
      invariant at <= |b| && Whole(c.size, |b| - at) && Added(c, b, at, items)
    {
      AddedNext(c, b, at, items);
      items := items + [c.add(b[at..at + c.size])];
      at := at + c.size;
    }
    AddedAll(c, b, items);
  }

  method BinnField(f: Field, b: seq<Byte>) returns (v: Option<Binn>)
    requires f.limit == 1 ==> b != []
    ensures v == EncField(f, b) && (v.Some? <==> Serializable(f, b))
  {
    SerializedIff(f, b);
    var n := TypeSize(f.typ);
    if n == 0 { return None; }
    if |b| % n != 0 { return None; }
    if f.limit != 0 && f.limit < |b| / n { return None; }
    if f.limit == 1 {
      OneItem(n, b);
      return Some(AddItem(f.typ, b));
    }
    if n == 1 { return Some(Blob(b)); }
    WholeIff(n, |b|);
    var items := BinnItems(CodecOf(f.typ), b);
    v := Some(Items(items));
  }

  lemma OneItem(n: nat, b: seq<Byte>)
    requires (n == 1 || n == 2 || n == 4 || n == 8) && |b| % n == 0 && |b| / n <= 1 && b != []
    ensures |b| == n
  {
  }

  lemma EncRowNext(cols: seq<Column>, row: seq<seq<Byte>>, n: nat)
    requires |cols| == |row| && n < |cols|
    ensures var init, v := EncRow(cols[..n], row[..n]), cols[n].enc(row[n]);
      EncRow(cols[..n + 1], row[..n + 1]) == if init.None? || v.None? then None else Some(init.value + [v.value])
  {
    assert cols[..n + 1][..n] == cols[..n] && row[..n + 1][..n] == row[..n];
  }

  lemma {:induction false} EncRowStops(cols: seq<Column>, row: seq<seq<Byte>>, k: nat)
    requires |cols| == |row| && k <= |cols| && EncRow(cols[..k], row[..k]).None?
    ensures EncRow(cols, row).None?
    decreases |cols| - k
  {
    if k < |cols| {
      EncRowNext(cols, row, k);
      EncRowStops(cols, row, k + 1);
    } else {
      assert cols[..k] == cols && row[..k] == row;
    }
  }

  /** Serializes a row field by field; the first field that is refused ends it. */
  method BinnRow(fs: seq<Field>, row: seq<seq<Byte>>) returns (list: Option<seq<Binn>>)
    requires |fs| == |row| && forall i :: 0 <= i < |fs| && fs[i].limit == 1 ==> row[i] != []
    ensures list == EncRow(Columns(fs), row)
    ensures list.Some? <==> forall i :: 0 <= i < |fs| ==> Serializable(fs[i], row[i])
  {
    RowSerializedIff(fs, row);
    ghost var cols := Columns(fs);
    var vs := [];
    for i := 0 to |fs|
      invariant EncRow(cols[..i], row[..i]) == Some(vs)
    {
      EncRowNext(cols, row, i);
      assert cols[i] == ColumnOf(fs[i]);
      var v := BinnField(fs[i], row[i]);
      if v.None? {
        EncRowStops(cols, row, i + 1);
        return None;
      }
      vs := vs + [v.value];
    }
    assert cols[..|fs|] == cols && row[..|fs|] == row;
    list := Some(vs);
  }

  // ------------------------------------------------------------------ reading

  method CalcFieldSize(f: Field, v: Binn) returns (size: nat)
    requires Shaped(f, v)
    ensures size == FieldSize(f, v)
  {
    var n := TypeSize(f.typ);
    if f.limit == 1 { return n; }
    if n == 1 { return |v.bytes|; }
    TimesIs(|v.items|, n);
    size := n * |v.items|;
  }

  /** The bytes and the number of fields a decoded row needs. */
  method CalcRowSize(fs: seq<Field>, vs: seq<Binn>, mask: Mask) returns (size: nat, count: nat)
    requires |vs| <= |fs| && forall i :: 0 <= i < |vs| ==> Shaped(fs[i], vs[i])
    ensures size == RowSize(Columns(fs), vs, mask) && count == |Project(vs, mask)|
  {
    ghost var cols := Columns(fs);
    size, count := 0, 0;
    for n := 0 to |vs|
      invariant size == RowSize(cols, vs[..n], mask) && count == |Project(vs[..n], mask)|
    {
      DecRowNext(cols, vs, mask, n);
      ProjectNext(vs, mask, n);
      assert cols[n] == ColumnOf(fs[n]);
      if Selected(mask, n) {
        var field := CalcFieldSize(fs[n], vs[n]);
        size := size + field;
        count := count + 1;
      }
    }
    assert vs[..|vs|] == vs;
  }

  method Fill(data: array<Byte>, at: nat, b: seq<Byte>)
    requires at + |b| <= data.Length
    modifies data
    ensures data[..at] == old(data[..at]) && data[at..at + |b|] == b
  {
    for i := 0 to |b|
      invariant data[..at] == old(data[..at]) && data[at..at + i] == b[..i]
    {
      data[at + i] := b[i];
    }
  }

  method Append(data: array<Byte>, used: nat, b: seq<Byte>)
    requires used + |b| <= data.Length
    modifies data
    ensures data[..used + |b|] == old(data[..used]) + b
  {
    Fill(data, used, b);
    assert data[..used + |b|] == data[..used] + data[used..used + |b|];
  }

  lemma BehindBoth(before: seq<Byte>, got: seq<Byte>, b: seq<Byte>)
    ensures (before + got) + b == before + (got + b)
  {
  }

  lemma Parts(data: array<Byte>, before: seq<Byte>, got: seq<Byte>)
    requires before + got <= data[..]
    ensures data[..|before|] == before && data[|before|..|before| + |got|] == got
  {
    var all := data[..|before| + |got|];
    assert all == data[..][..|before| + |got|] == before + got;
    assert all[..|before|] == before && all[|before|..] == got;
  }

  lemma GetAllNext(c: Codec, vs: seq<Binn>, k: nat)
    requires k < |vs|
    ensures var init, last := GetAll(c, vs[..k]), c.get(vs[k]);
      GetAll(c, vs[..k + 1]) == if init.None? || last.None? then None else Some(init.value + last.value)
  {
    assert vs[..k + 1][..k] == vs[..k];
  }

  lemma {:induction false} GetAllStops(c: Codec, vs: seq<Binn>, k: nat)
    requires k <= |vs| && GetAll(c, vs[..k]).None?
    ensures GetAll(c, vs).None?
    decreases |vs| - k
  {
    if k < |vs| {
      GetAllNext(c, vs, k);
      GetAllStops(c, vs, k + 1);
    } else {
      assert vs[..k] == vs;
    }
  }

  /** The first j items are read: `got` are their bytes. */
  ghost predicate Got(c: Codec, vs: seq<Binn>, j: nat, got: seq<Byte>)
    requires j <= |vs|
  {
    GetAll(c, vs[..j]) == Some(got)
  }

  /** What reading item j adds. */
  lemma GotNext(c: Codec, vs: seq<Binn>, j: nat, got: seq<Byte>)
    requires Reads(c) && j < |vs| && Got(c, vs, j, got)
    ensures var item := c.get(vs[j]);
      if item.None? then GetAll(c, vs).None? else |item.value| == c.size && Got(c, vs, j + 1, got + item.value)
  {
    GetAllNext(c, vs, j);
    if c.get(vs[j]).None? { GetAllStops(c, vs, j + 1); }
  }

  lemma GotAll(c: Codec, vs: seq<Binn>, got: seq<Byte>)
    ensures Got(c, vs, |vs|, got) <==> GetAll(c, vs) == Some(got)
    ensures Got(c, vs, 0, [])
  {
    assert vs[..|vs|] == vs && vs[..0] == [];
  }

  /** The block starts with `before` and the first j items. */
  ghost predicate Holds(c: Codec, vs: seq<Binn>, j: nat, data: seq<Byte>, before: seq<Byte>, got: seq<Byte>)
    requires j <= |vs|
  {
    Got(c, vs, j, got) && before + got <= data
  }

  /** Reads item j behind the others. */
  method ReadItem(c: Codec, vs: seq<Binn>, j: nat, data: array<Byte>, used: nat, ghost before: seq<Byte>,
                  ghost got: seq<Byte>)
    returns (ok: bool, ghost more: seq<Byte>)
    requires Reads(c) && j < |vs| && Holds(c, vs, j, data[..], before, got)
    requires used == |before| + |got| && used + c.size <= data.Length
    modifies data
    ensures ok ==> |more| == |got| + c.size && Holds(c, vs, j + 1, data[..], before, more)
    ensures !ok ==> GetAll(c, vs).None? && data[..] == old(data[..])
  {
    GotNext(c, vs, j, got);
    var item := c.get(vs[j]);
    ok, more := item.Some?, got;
    if ok {
      more := got + item.value;
      assert data[..used] == before + got;
      Append(data, used, item.value);
      BehindBoth(before, got, item.value);
      assert data[..used + c.size] == before + more;
    }
  }

  /** Reads the items of a list one behind the other. */
  method ReadItems(c: Codec, vs: seq<Binn>, data: array<Byte>, at: nat) returns (ok: bool, len: nat)
    requires Reads(c) && at + TimesByte(|vs|, c.size) <= data.Length
    modifies data
    ensures data[..at] == old(data[..at]) && ok == GetAll(c, vs).Some?
    ensures ok ==> at + len <= data.Length && data[at..at + len] == GetAll(c, vs).value
  {
    len := 0;
    var j := 0;
    ghost var before, got: seq<Byte> := data[..at], [];
    GotAll(c, vs, got);
    assert before + got == before;
    while j < |vs|
      invariant j <= |vs| && at + len + TimesByte(|vs| - j, c.size) <= data.Length
      invariant len == |got| && Holds(c, vs, j, data[..], before, got)
    {
      ghost var more;
      ok, more := ReadItem(c, vs, j, data, at + len, before, got);
      if !ok {
        Parts(data, before, got);
        return;
      }
      len, j, got := len + c.size, j + 1, more;
    }
    Parts(data, before, got);
    GotAll(c, vs, got);
    ok := true;
  }

  lemma DecodesTo(f: Field, v: Binn)
    requires Shaped(f, v)
    ensures f.limit == 1 ==> DecField(f, v) == GetItem(f.typ, v) && FieldSize(f, v) == TypeSize(f.typ)
    ensures f.limit != 1 && TypeSize(f.typ) == 1 ==> DecField(f, v) == Some(v.bytes) && FieldSize(f, v) == |v.bytes|
    ensures f.limit != 1 && TypeSize(f.typ) != 1 ==>
      && DecField(f, v) == GetAll(CodecOf(f.typ), v.items) && Reads(CodecOf(f.typ))
      && FieldSize(f, v) == TimesByte(|v.items|, CodecOf(f.typ).size)
    ensures DecField(f, v).Some? ==> |DecField(f, v).value| == FieldSize(f, v)
  {
    if DecField(f, v).Some? { DecSize(f, v); }
    if f.limit != 1 && TypeSize(f.typ) != 1 { CodecReads(f.typ); }
  }

  /** Reads one field to where the free space starts. */
  method ReadField(f: Field, v: Binn, data: array<Byte>, at: nat) returns (ok: bool, len: nat)
    requires Shaped(f, v) && at + FieldSize(f, v) <= data.Length
    modifies data
    ensures data[..at] == old(data[..at]) && ok == DecField(f, v).Some?
    ensures ok ==> len == FieldSize(f, v) && data[at..at + len] == DecField(f, v).value
  {
    DecodesTo(f, v);
    if f.limit == 1 {
      var item := GetItem(f.typ, v);
      if item.None? { return false, 0; }
      Fill(data, at, item.value);
      return true, TypeSize(f.typ);
    }
    if TypeSize(f.typ) == 1 {
      Fill(data, at, v.bytes);
      return true, |v.bytes|;
    }
    ok, len := ReadItems(CodecOf(f.typ), v.items, data, at);
  }

  /** Where a field lies in the block of its row. */
  datatype Slot = Slot(at: nat, size: nat)

  /** Slot j starts where the fields before it end, and holds field j. */
  predicate SlotHolds(data: seq<Byte>, slots: seq<Slot>, row: seq<seq<Byte>>, j: nat) {
    && j < |slots| && j < |row|
    && slots[j].at == TotalSize(row[..j]) && slots[j].size == |row[j]|
    && slots[j].at + slots[j].size <= |data| && data[slots[j].at..slots[j].at + slots[j].size] == row[j]
  }

  /** The slots hold the fields, one behind the other from the start of the block up to `used`. */
  ghost predicate Views(data: seq<Byte>, slots: seq<Slot>, row: seq<seq<Byte>>, used: nat) {
    && |slots| == |row| && used == TotalSize(row) && used <= |data|
    && forall j: nat :: j < |slots| ==> SlotHolds(data[..used], slots, row, j)
  }

  lemma SlotKept(data: seq<Byte>, slots: seq<Slot>, row: seq<seq<Byte>>, data': seq<Byte>, s: Slot, b: seq<Byte>,
                 j: nat)
    requires data <= data' && SlotHolds(data, slots, row, j)
    ensures SlotHolds(data', slots + [s], row + [b], j)
  {
    var lo, hi := slots[j].at, slots[j].at + slots[j].size;
    assert (row + [b])[..j] == row[..j];
    assert data'[lo..hi] == data'[..|data|][lo..hi];
  }

  lemma SlotNew(data: seq<Byte>, slots: seq<Slot>, row: seq<seq<Byte>>, b: seq<Byte>)
    requires |slots| == |row| && |data| == TotalSize(row) + |b| && data[TotalSize(row)..] == b
    ensures SlotHolds(data, slots + [Slot(TotalSize(row), |b|)], row + [b], |row|)
  {
    assert (row + [b])[..|row|] == row;
  }

  lemma ViewsNext(data: seq<Byte>, slots: seq<Slot>, row: seq<seq<Byte>>, used: nat, data': seq<Byte>, b: seq<Byte>)
    requires Views(data, slots, row, used) && |data'| == |data| && data'[..used] == data[..used]
    requires used + |b| <= |data| && data'[used..used + |b|] == b
    ensures Views(data', slots + [Slot(used, |b|)], row + [b], used + |b|)
  {
    var s, all := Slot(used, |b|), data'[..used + |b|];
    TotalNext(row, b);
    assert all[..used] == data[..used] && all[used..] == b;
    SlotNew(all, slots, row, b);
    forall j: nat | j < |slots| ensures SlotHolds(all, slots + [s], row + [b], j) {
      SlotKept(data[..used], slots, row, all, s, b, j);
    }
  }

  lemma {:induction false} DecRowStops(cols: seq<Column>, vs: seq<Binn>, mask: Mask, k: nat)
    requires k <= |vs| <= |cols|
    ensures DecRow(cols, vs[..k], mask).None? ==> DecRow(cols, vs, mask).None?
    ensures RowSize(cols, vs[..k], mask) <= RowSize(cols, vs, mask)
    decreases |vs| - k
  {
    if k < |vs| {
      DecRowNext(cols, vs, mask, k);
      DecRowStops(cols, vs, mask, k + 1);
    } else {
      assert vs[..k] == vs;
    }
  }

  /** What reading field n adds. */
  lemma FieldNext(f: Field, cols: seq<Column>, vs: seq<Binn>, mask: Mask, n: nat)
    requires n < |vs| <= |cols| && cols[n] == ColumnOf(f)
    ensures var now, next := DecRow(cols, vs[..n], mask), DecRow(cols, vs[..n + 1], mask);
      && next == (if Selected(mask, n) then Extended(now, DecField(f, vs[n])) else now)
      && (next.None? ==> DecRow(cols, vs, mask).None?)
    ensures var size := RowSize(cols, vs[..n + 1], mask);
      && size == RowSize(cols, vs[..n], mask) + (if Selected(mask, n) then FieldSize(f, vs[n]) else 0)
      && size <= RowSize(cols, vs, mask)
  {
    DecRowNext(cols, vs, mask, n);
    DecRowStops(cols, vs, mask, n + 1);
  }

  /** Reads one more field behind those already there. */
  method ReadNext(f: Field, v: Binn, data: array<Byte>, used: nat, slots: seq<Slot>, ghost row: seq<seq<Byte>>)
    returns (ok: bool, more: seq<Slot>, next: nat)
    requires Shaped(f, v) && used + FieldSize(f, v) <= data.Length && Views(data[..], slots, row, used)
    modifies data
    ensures ok <==> DecField(f, v).Some?
    ensures ok ==> next == used + FieldSize(f, v) && Views(data[..], more, row + [DecField(f, v).value], next)
  {
    ghost var before := data[..];
    assert before[..used] == data[..used];
    var len;
    more, next := slots, used;
    ok, len := ReadField(f, v, data, used);
    if ok {
      ReadKept(before, data, used, len);
      ViewsNext(before, slots, row, used, data[..], DecField(f, v).value);
      more, next := slots + [Slot(used, len)], used + len;
    }
  }

  /** The first n fields are read. */
  ghost predicate ReadUpto(cols: seq<Column>, vs: seq<Binn>, mask: Mask, n: nat, row: seq<seq<Byte>>, used: nat)
    requires n <= |vs| <= |cols|
  {
    DecRow(cols, vs[..n], mask) == Some(row) && used == RowSize(cols, vs[..n], mask)
  }

  lemma ReadUptoNext(f: Field, cols: seq<Column>, vs: seq<Binn>, mask: Mask, n: nat, row: seq<seq<Byte>>, used: nat)
    requires n < |vs| <= |cols| && cols[n] == ColumnOf(f) && ReadUpto(cols, vs, mask, n, row, used)
    ensures !Selected(mask, n) ==> ReadUpto(cols, vs, mask, n + 1, row, used)
    ensures var b := DecField(f, vs[n]); Selected(mask, n) ==>
      && used + FieldSize(f, vs[n]) <= RowSize(cols, vs, mask)
      && if b.None? then DecRow(cols, vs, mask).None?
         else ReadUpto(cols, vs, mask, n + 1, row + [b.value], used + FieldSize(f, vs[n]))
  {
    FieldNext(f, cols, vs, mask, n);
  }

  /** The first n fields are read and the slots hold them. */
  ghost predicate Upto(cols: seq<Column>, vs: seq<Binn>, mask: Mask, n: nat, row: seq<seq<Byte>>,
                       data: seq<Byte>, slots: seq<Slot>, used: nat)
    requires n <= |vs| <= |cols|
  {
    ReadUpto(cols, vs, mask, n, row, used) && Views(data, slots, row, used)
  }

  /** Reads field n, if it is selected. */
  method ReadColumn(f: Field, ghost cols: seq<Column>, vs: seq<Binn>, mask: Mask, n: nat, data: array<Byte>,
                    slots: seq<Slot>, used: nat, ghost row: seq<seq<Byte>>)
    returns (ok: bool, more: seq<Slot>, next: nat, ghost longer: seq<seq<Byte>>)
    requires n < |vs| <= |cols| && cols[n] == ColumnOf(f) && Shaped(f, vs[n])
    requires data.Length == RowSize(cols, vs, mask) && Upto(cols, vs, mask, n, row, data[..], slots, used)
    modifies data
    ensures ok ==> Upto(cols, vs, mask, n + 1, longer, data[..], more, next)
    ensures !ok ==> DecRow(cols, vs, mask).None?
  {
    ReadUptoNext(f, cols, vs, mask, n, row, used);
    ok, more, next, longer := true, slots, used, row;
    if Selected(mask, n) {
      ok, more, next := ReadNext(f, vs[n], data, used, slots, row);
      if ok { longer := row + [DecField(f, vs[n]).value]; }
    }
  }

  /** Reads the selected fields of a serialized row into one block. The block is as long as was
      calculated before, and the fields fill it from its start to its end. */
  method UnbinnRowSlice(fs: seq<Field>, vs: seq<Binn>, mask: Mask)
    returns (ok: bool, data: array<Byte>, slots: seq<Slot>)
    requires |vs| <= |fs| && forall i :: 0 <= i < |vs| ==> Shaped(fs[i], vs[i])
    ensures ok <==> DecRow(Columns(fs), vs, mask).Some?
    ensures ok ==> data.Length == RowSize(Columns(fs), vs, mask)
    ensures ok ==> Views(data[..], slots, DecRow(Columns(fs), vs, mask).value, data.Length)
    ensures ok ==> DecodesPicked(Columns(fs), vs, mask, DecRow(Columns(fs), vs, mask).value)
  {
    ghost var cols := Columns(fs);
    var size, count := CalcRowSize(fs, vs, mask);
    data := new Byte[size](_ => 0);
    slots := [];
    var used, n := 0, 0;
    ghost var row: seq<seq<Byte>> := [];
    assert vs[..0] == [];
    while n < |vs|
      invariant n <= |vs| && Upto(cols, vs, mask, n, row, data[..], slots, used)
    {
      ok, slots, used, row := ReadColumn(fs[n], cols, vs, mask, n, data, slots, used, row);
      if !ok { return; }
      n := n + 1;
    }
    assert vs[..|vs|] == vs;
    DecRowPicks(cols, vs, mask);
    ok := true;
  }

  lemma ReadKept(before: seq<Byte>, data: array<Byte>, used: nat, len: nat)
    requires used + len <= data.Length == |before| && data[..used] == before[..used]
    ensures data[..][..used] == before[..used] && data[..][used..used + len] == data[used..used + len]
  {
  }

  // ------------------------------------------------------------------ the sliced table

  /** A field of a table whose name lies in the block of strings. */
  datatype FieldRef = FieldRef(typ: FieldType, limit: nat, name: nat)

  /** Names in the block, each ended by a null character. */
  function Names(fs: seq<Field>): string {
    if fs == [] then "" else Names(fs[..|fs| - 1]) + fs[|fs| - 1].name + "\0"
  }

  lemma NamesNext(fs: seq<Field>, f: Field)
    ensures Names(fs + [f]) == Names(fs) + f.name + "\0"
  {
    assert (fs + [f])[..|fs|] == fs;
  }

  /** The characters the name of the table and the names of the selected fields need. */
  method TableSize(name: string, fs: seq<Field>, mask: Mask) returns (size: nat, count: nat)
    ensures count == |Project(fs, mask)| && size == |name| + 1 + |Names(Project(fs, mask))|
  {
    size, count := 0, 0;
    for i := 0 to |fs|
      invariant count == |Project(fs[..i], mask)| && size == |Names(Project(fs[..i], mask))|
    {
      ProjectNext(fs, mask, i);
      if Selected(mask, i) {
        NamesNext(Project(fs[..i], mask), fs[i]);
        size := size + |fs[i].name| + 1;
        count := count + 1;
      }
    }
    assert fs[..|fs|] == fs;
    size := size + |name| + 1;
  }

  method Copy(strings: array<char>, at: nat, s: string)
    requires at + |s| <= strings.Length
    modifies strings
    ensures strings[..at + |s|] == old(strings[..at]) + s
  {
    for i := 0 to |s|
      invariant strings[..at] == old(strings[..at]) && strings[at..at + i] == s[..i]
    {
      strings[at + i] := s[i];
    }
  }

  lemma {:induction false} NamesGrow(fs: seq<Field>, mask: Mask, k: nat)
    requires k <= |fs|
    ensures |Names(Project(fs[..k], mask))| <= |Names(Project(fs, mask))|
    decreases |fs| - k
  {
    if k < |fs| {
      ProjectNext(fs, mask, k);
      if Selected(mask, k) { NamesNext(Project(fs[..k], mask), fs[k]); }
      NamesGrow(fs, mask, k + 1);
    } else {
      assert fs[..k] == fs;
    }
  }

  /** Fields with their names one behind the other from position `base` on. */
  function RefsOf(fs: seq<Field>, base: nat): seq<FieldRef> {
    if fs == [] then [] else
    var init, f := fs[..|fs| - 1], fs[|fs| - 1];
    RefsOf(init, base) + [FieldRef(f.typ, f.limit, base + |Names(init)|)]
  }

  lemma RefsNext(fs: seq<Field>, base: nat, f: Field)
    ensures RefsOf(fs + [f], base) == RefsOf(fs, base) + [FieldRef(f.typ, f.limit, base + |Names(fs)|)]
  {
    assert (fs + [f])[..|fs|] == fs;
  }

  /** The reference describes the field: same type and limit, and its name with the null character
      starts at `name` in the block. */
  predicate Describes(r: FieldRef, strings: string, f: Field) {
    && r.typ == f.typ && r.limit == f.limit && r.name + |f.name| < |strings|
    && strings[r.name..r.name + |f.name| + 1] == f.name + "\0"
  }

  lemma NameAt(head: string, names: string, name: string, rest: string)
    ensures (head + (names + name + "\0") + rest)[|head| + |names|..|head| + |names| + |name| + 1] == name + "\0"
  {
    assert head + (names + name + "\0") + rest == (head + names) + (name + "\0") + rest;
  }

  lemma NamesMoved(head: string, names: string, name: string, rest: string)
    ensures head + names + (name + "\0" + rest) == head + (names + name + "\0") + rest
  {
  }

  lemma {:induction false} RefsDescribe(fs: seq<Field>, head: string, rest: string, i: nat)
    requires i < |fs|
    ensures |RefsOf(fs, |head|)| == |fs| && Describes(RefsOf(fs, |head|)[i], head + Names(fs) + rest, fs[i])
    decreases |fs|
  {
    var init, f := fs[..|fs| - 1], fs[|fs| - 1];
    RefsLength(init, |head|);
    if i == |init| {
      NameAt(head, Names(init), f.name, rest);
    } else {
      RefsDescribe(init, head, f.name + "\0" + rest, i);
      NamesMoved(head, Names(init), f.name, rest);
    }
  }

  lemma {:induction false} RefsLength(fs: seq<Field>, base: nat)
    ensures |RefsOf(fs, base)| == |fs|
    decreases |fs|
  {
    if fs != [] { RefsLength(fs[..|fs| - 1], base); }
  }

  lemma Behind(head: string, names: string, name: string)
    ensures (head + names) + (name + "\0") == head + (names + name + "\0")
  {
  }

  /** Copies the descriptor of a table under a mask: the selected fields in order, with the name of
      the table first in a block of strings that is filled exactly. */
  method SliceTable(name: string, fs: seq<Field>, mask: Mask) returns (refs: seq<FieldRef>, strings: array<char>)
    ensures strings[..] == (name + "\0") + Names(Project(fs, mask))
    ensures |refs| == |Project(fs, mask)|
    ensures forall i :: 0 <= i < |refs| ==> Describes(refs[i], strings[..], Project(fs, mask)[i])
    ensures Picks(fs, mask, Project(fs, mask))
  {
    ProjectPicks(fs, mask);
    var size, count := TableSize(name, fs, mask);
    strings := new char[size](_ => ' ');
    ghost var head := name + "\0";
    refs := FillTable(name, fs, mask, strings);
    forall i | 0 <= i < |Project(fs, mask)|
      ensures |refs| == |Project(fs, mask)| && Describes(refs[i], strings[..], Project(fs, mask)[i])
    {
      RefsDescribe(Project(fs, mask), head, "", i);
      assert strings[..] + "" == strings[..];
    }
    RefsLength(Project(fs, mask), |head|);
  }

  /** The head and the names of the fields are in the block, and the references point there. */
  ghost predicate Filled(strings: string, head: string, fs: seq<Field>, refs: seq<FieldRef>) {
    strings == head + Names(fs) && refs == RefsOf(fs, |head|)
  }

  lemma FilledNext(strings: string, head: string, fs: seq<Field>, refs: seq<FieldRef>, f: Field)
    requires Filled(strings, head, fs, refs)
    ensures Filled(strings + (f.name + "\0"), head, fs + [f], refs + [FieldRef(f.typ, f.limit, |strings|)])
  {
    NamesNext(fs, f);
    RefsNext(fs, |head|, f);
    Behind(head, Names(fs), f.name);
  }

  /** Adds one field and its name behind those already there. */
  method AddField(f: Field, strings: array<char>, used: nat, refs: seq<FieldRef>, ghost head: string,
                  ghost fs: seq<Field>)
    returns (more: seq<FieldRef>)
    requires used + |f.name| < strings.Length && Filled(strings[..used], head, fs, refs)
    modifies strings
    ensures Filled(strings[..used + |f.name| + 1], head, fs + [f], more)
  {
    FilledNext(strings[..used], head, fs, refs, f);
    Copy(strings, used, f.name + "\0");
    more := refs + [FieldRef(f.typ, f.limit, used)];
  }

  lemma FilledLength(strings: string, head: string, fs: seq<Field>, refs: seq<FieldRef>)
    requires Filled(strings, head, fs, refs)
    ensures |strings| == |head| + |Names(fs)|
  {
  }

  /** The state of the loop: the selected ones of the first i fields are in the block. */
  ghost predicate FilledUpto(fs: seq<Field>, mask: Mask, i: nat, strings: string, head: string, refs: seq<FieldRef>)
    requires i <= |fs|
  {
    Filled(strings, head, Project(fs[..i], mask), refs)
  }

  lemma SkipField(fs: seq<Field>, mask: Mask, i: nat, strings: string, head: string, refs: seq<FieldRef>)
    requires i < |fs| && !Selected(mask, i) && FilledUpto(fs, mask, i, strings, head, refs)
    ensures FilledUpto(fs, mask, i + 1, strings, head, refs)
  {
    ProjectNext(fs, mask, i);
  }

  lemma AddedField(fs: seq<Field>, mask: Mask, i: nat, strings: string, head: string, refs: seq<FieldRef>)
    requires i < |fs| && Selected(mask, i) && Filled(strings, head, Project(fs[..i], mask) + [fs[i]], refs)
    ensures FilledUpto(fs, mask, i + 1, strings, head, refs)
  {
    ProjectNext(fs, mask, i);
  }

  /** There is room for the next name. */
  lemma RoomForNext(fs: seq<Field>, mask: Mask, i: nat, strings: string, head: string, refs: seq<FieldRef>)
    requires i < |fs| && Selected(mask, i) && FilledUpto(fs, mask, i, strings, head, refs)
    ensures |strings| + |fs[i].name| + 1 <= |head| + |Names(Project(fs, mask))|
  {
    var sofar := Project(fs[..i], mask);
    FilledLength(strings, head, sofar, refs);
    ProjectNext(fs, mask, i);
    NamesNext(sofar, fs[i]);
    NamesGrow(fs, mask, i + 1);
  }

  /** Adds field i, if it is selected. */
  method FillField(fs: seq<Field>, mask: Mask, i: nat, strings: array<char>, used: nat, refs: seq<FieldRef>,
                   ghost head: string)
    returns (more: seq<FieldRef>, next: nat)
    requires i < |fs| && used <= strings.Length == |head| + |Names(Project(fs, mask))|
    requires FilledUpto(fs, mask, i, strings[..used], head, refs)
    modifies strings
    ensures next <= strings.Length && FilledUpto(fs, mask, i + 1, strings[..next], head, more)
  {
    if Selected(mask, i) {
      RoomForNext(fs, mask, i, strings[..used], head, refs);
      more := AddField(fs[i], strings, used, refs, head, Project(fs[..i], mask));
      next := used + |fs[i].name| + 1;
      AddedField(fs, mask, i, strings[..next], head, more);
    } else {
      more, next := refs, used;
      SkipField(fs, mask, i, strings[..used], head, refs);
    }
  }

  method FillTable(name: string, fs: seq<Field>, mask: Mask, strings: array<char>) returns (refs: seq<FieldRef>)
    requires strings.Length == |name| + 1 + |Names(Project(fs, mask))|
    modifies strings
    ensures strings[..] == (name + "\0") + Names(Project(fs, mask)) && refs == RefsOf(Project(fs, mask), |name| + 1)
  {
    ghost var head := name + "\0";
    refs := [];
    Copy(strings, 0, name + "\0");
    var used: nat := |name| + 1;
    var i := 0;
    assert fs[..0] == [] && strings[..used] == head + "";
    while i < |fs|
      invariant i <= |fs| && used <= strings.Length
      invariant FilledUpto(fs, mask, i, strings[..used], head, refs)
    {
      refs, used := FillField(fs, mask, i, strings, used, refs, head);
      i := i + 1;
    }
    assert fs[..|fs|] == fs;
    FilledLength(strings[..used], head, Project(fs, mask), refs);
  }
}
