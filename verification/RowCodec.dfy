/**
 Rows and their serialized form: encoding of typed fields, decoding under a mask of columns into one
 block of precomputed size, and the table sliced by the same mask.
 */
module RowCodec {
  import opened Common
  import opened Bytes

  datatype FieldType =
    | TBool | TChar | TByte | TInt8 | TUint8 | TInt16 | TUint16 | TInt32 | TUint32 | TInt64 | TUint64
    | TFloat | TDouble | TUnknown(code: nat)

  /** `limit` 0 is any number of items, 1 a single one. */
  datatype Field = Field(typ: FieldType, limit: nat, name: string)

  /** Floating-point numbers are kept as their bytes. */
  type Bits32 = b: seq<Byte> | |b| == 4 witness [0, 0, 0, 0]
  type Bits64 = b: seq<Byte> | |b| == 8 witness [0, 0, 0, 0, 0, 0, 0, 0]

  /** A serialized value. */
  datatype Binn =
    | Bool(b: bool) | Int(v: int) | Float(f: Bits32) | Double(d: Bits64)
    | Blob(bytes: seq<Byte>) | Items(items: seq<Binn>)

  function TypeSize(t: FieldType): nat {
    match t
    case TBool => 1 case TChar => 1 case TByte => 1 case TInt8 => 1 case TUint8 => 1
    case TInt16 => 2 case TUint16 => 2
    case TInt32 => 4 case TUint32 => 4 case TFloat => 4
    case TInt64 => 8 case TUint64 => 8 case TDouble => 8
    case TUnknown(_) => 0
  }

  const INT32_MIN: int := -2147483648
  const INT32_MAX: int := 2147483647
  const INT64_MAX: int := 9223372036854775807

  // ------------------------------------------------------------------ numbers in memory

  /** Little-endian bytes as an unsigned number. */
  function Unsigned(b: seq<Byte>): nat { if b == [] then 0 else (b[0] as nat) + 256 * Unsigned(b[1..]) }

  function Pow256(k: nat): nat { if k == 0 then 1 else 256 * Pow256(k - 1) }

  /** The same in two's complement. */
  function Signed(b: seq<Byte>): int
    requires b != []
  {
    if b[|b| - 1] < 128 then Unsigned(b) else Unsigned(b) - Pow256(|b|)
  }

  /** The low k bytes of a number, as a cast stores them. */
  function Stored(v: int, k: nat): (b: seq<Byte>)
    ensures |b| == k
    decreases k
  {
    if k == 0 then [] else [v % 256] + Stored(v / 256, k - 1)
  }

  lemma {:induction false} StoredUnsigned(b: seq<Byte>)
    ensures Stored(Unsigned(b), |b|) == b
    decreases |b|
  {
    if b != [] {
      StoredUnsigned(b[1..]);
      var u := Unsigned(b[1..]);
      assert Unsigned(b) % 256 == b[0] && Unsigned(b) / 256 == u;
    }
  }

  lemma {:induction false} StoredWraps(v: int, k: nat)
    ensures Stored(v - Pow256(k), k) == Stored(v, k)
    decreases k
  {
    if k > 0 {
      var p := Pow256(k - 1);
      assert (v - 256 * p) % 256 == v % 256 && (v - 256 * p) / 256 == v / 256 - p;
      StoredWraps(v / 256, k - 1);
    }
  }

  lemma WrapsTo(u: nat, k: nat, b: seq<Byte>)
    requires Stored(u, k) == b
    ensures Stored(u - Pow256(k), k) == b
  {
    StoredWraps(u, k);
  }

  lemma StoredSigned(b: seq<Byte>, k: nat)
    requires b != [] && k == |b|
    ensures Stored(Signed(b), k) == b
  {
    StoredUnsigned(b);
    if b[k - 1] >= 128 { WrapsTo(Unsigned(b), k, b); }
  }

  /** The top byte decides the size. */
  lemma {:induction false} UnsignedBounds(b: seq<Byte>)
    requires b != []
    ensures var top: nat, p := b[|b| - 1], Pow256(|b| - 1);
      TimesByte(top, p) <= Unsigned(b) < TimesByte(top + 1, p)
    decreases |b|
  {
    if |b| == 1 {
      assert b[1..] == [];
      TimesOne(b[0]);
      TimesOne((b[0] as nat) + 1);
    } else {
      UnsignedBounds(b[1..]);
      var top: nat, p := b[|b| - 1], Pow256(|b| - 2);
      Times256(top, p);
      Times256(top + 1, p);
    }
  }

  /** n * p, by addition. */
  function TimesByte(n: nat, p: nat): nat { if n == 0 then 0 else p + TimesByte(n - 1, p) }

  lemma {:induction false} TimesOne(n: nat)
    ensures TimesByte(n, 1) == n
  {
    if n > 0 { TimesOne(n - 1); }
  }

  lemma {:induction false} Times256(n: nat, p: nat)
    ensures TimesByte(n, 256 * p) == 256 * TimesByte(n, p)
  {
    if n > 0 { Times256(n - 1, p); }
  }

  lemma {:induction false} TimesIs(n: nat, p: nat)
    ensures TimesByte(n, p) == n * p
  {
    if n > 0 { TimesIs(n - 1, p); }
  }

  // ------------------------------------------------------------------ single items

  /** An item as it is added to a list. */
  function AddItem(t: FieldType, b: seq<Byte>): Binn
    requires !t.TUnknown? && |b| == TypeSize(t)
  {
    match t
    case TBool => Bool(b[0] != 0)
    case TUint8 => Int(Unsigned(b)) case TUint16 => Int(Unsigned(b))
    case TUint32 => Int(Unsigned(b)) case TUint64 => Int(Unsigned(b))
    case TFloat => Float(b)
    case TDouble => Double(b)
    case _ => Int(Signed(b))
  }

  /** Integers come back through a signed 32-bit or 64-bit variable, and out of its range not at all. */
  function GetInt(v: Binn, lo: int, hi: int): Option<int> {
    match v
    case Int(i) => if lo <= i <= hi then Some(i) else None
    case Bool(b) => Some(if b then 1 else 0)
    case _ => None
  }

  const INT64_MIN: int := -9223372036854775808

  function Cast(r: Option<int>, k: nat): Option<seq<Byte>> { if r.None? then None else Some(Stored(r.value, k)) }

  /** An item read back into memory. */
  function GetItem(t: FieldType, v: Binn): Option<seq<Byte>>
    requires !t.TUnknown?
  {
    match t
    case TBool => (match v case Bool(b) => Some([if b then 1 else 0]) case _ => None)
    case TFloat => (match v case Float(f) => Some(f) case _ => None)
    case TDouble => (match v case Double(d) => Some(d) case _ => None)
    case TUint32 => Cast(GetInt(v, INT64_MIN, INT64_MAX), TypeSize(t))
    case TInt64 => Cast(GetInt(v, INT64_MIN, INT64_MAX), TypeSize(t))
    case TUint64 => Cast(GetInt(v, INT64_MIN, INT64_MAX), TypeSize(t))
    case _ => Cast(GetInt(v, INT32_MIN, INT32_MAX), TypeSize(t))
  }

  /** Items that survive: a truth value is 0 or 1, and an unsigned 64-bit number is below 2^63. */
  predicate Faithful(t: FieldType, b: seq<Byte>)
    requires !t.TUnknown? && |b| == TypeSize(t)
  {
    (t.TBool? ==> b[0] <= 1) && (t.TUint64? ==> b[7] < 128)
  }

  /** The powers that bound 1, 2, 4 and 8 bytes. */
  lemma Powers()
    ensures Pow256(0) == 1 && Pow256(1) == 256 && Pow256(2) == 65536 && Pow256(3) == 16777216
    ensures Pow256(4) == 4294967296 && Pow256(7) == 72057594037927936 && Pow256(8) == 18446744073709551616
  {
    assert Pow256(5) == 1099511627776 && Pow256(6) == 281474976710656;
  }

  lemma UnsignedSpan(b: seq<Byte>, p: nat)
    requires b != [] && p == Pow256(|b| - 1)
    ensures var top: nat := b[|b| - 1]; top * p <= Unsigned(b) < (top + 1) * p
  {
    UnsignedBounds(b);
    TimesIs(b[|b| - 1], p);
    TimesIs((b[|b| - 1] as nat) + 1, p);
  }

  lemma UnsignedRange(b: seq<Byte>)
    requires 1 <= |b| <= 8
    ensures |b| == 1 ==> Unsigned(b) <= 255
    ensures |b| == 2 ==> Unsigned(b) <= 65535
    ensures |b| == 4 ==> Unsigned(b) <= 4294967295 && (b[3] < 128 <==> Unsigned(b) <= INT32_MAX)
    ensures |b| == 8 ==> Unsigned(b) <= 18446744073709551615 && (b[7] < 128 <==> Unsigned(b) <= INT64_MAX)
  {
    Powers();
    UnsignedSpan(b, Pow256(|b| - 1));
  }

  lemma SignedRange(b: seq<Byte>)
    requires |b| == 1 || |b| == 2 || |b| == 4 || |b| == 8
    ensures |b| <= 4 ==> INT32_MIN <= Signed(b) <= INT32_MAX
    ensures INT64_MIN <= Signed(b) <= INT64_MAX
  {
    UnsignedRange(b);
    Powers();
  }

  predicate IsSigned(t: FieldType) { t.TChar? || t.TByte? || t.TInt8? || t.TInt16? || t.TInt32? || t.TInt64? }

  lemma SignedItem(t: FieldType, b: seq<Byte>)
    requires IsSigned(t) && |b| == TypeSize(t)
    ensures GetItem(t, AddItem(t, b)) == Some(b)
  {
    var i, k := Signed(b), TypeSize(t);
    StoredSigned(b, k);
    SignedRange(b);
    if t.TInt64? { CastBack(i, INT64_MIN, INT64_MAX, k, b); } else { CastBack(i, INT32_MIN, INT32_MAX, k, b); }
  }

  /** A number in range is read back into the bytes it was stored as. */
  lemma CastBack(i: int, lo: int, hi: int, k: nat, b: seq<Byte>)
    requires lo <= i <= hi && Stored(i, k) == b
    ensures Cast(GetInt(Int(i), lo, hi), k) == Some(b)
  {
  }

  lemma UnsignedItem(t: FieldType, b: seq<Byte>)
    requires (t.TUint8? || t.TUint16? || t.TUint32? || t.TUint64?) && |b| == TypeSize(t)
    ensures GetItem(t, AddItem(t, b)) == if Faithful(t, b) then Some(b) else None
  {
    StoredUnsigned(b);
    UnsignedRange(b);
  }

  /** An item comes back as it was exactly when it is faithful. */
  lemma ItemRoundTripIff(t: FieldType, b: seq<Byte>)
    requires !t.TUnknown? && |b| == TypeSize(t)
    ensures GetItem(t, AddItem(t, b)) == Some(b) <==> Faithful(t, b)
    ensures !t.TBool? && !Faithful(t, b) ==> GetItem(t, AddItem(t, b)).None?
  {
    if IsSigned(t) {
      SignedItem(t, b);
    } else if t.TUint8? || t.TUint16? || t.TUint32? || t.TUint64? {
      UnsignedItem(t, b);
    } else if t.TBool? {
      assert b == [b[0]];
    }
  }

  /** 2^63 as an unsigned number is serialized and cannot be read back. */
  lemma LargeUnsignedLost()
    ensures GetItem(TUint64, AddItem(TUint64, [0, 0, 0, 0, 0, 0, 0, 128])).None?
  {
    UnsignedItem(TUint64, [0, 0, 0, 0, 0, 0, 0, 128]);
  }

  /** The numbers a type of integers holds. */
  function Range(t: FieldType): (int, int)
    requires IsSigned(t) || IsUnsigned(t)
  {
    match t
    case TUint8 => (0, 0xFF) case TUint16 => (0, 0xFFFF) case TUint32 => (0, 0xFFFF_FFFF)
    case TUint64 => (0, 0xFFFF_FFFF_FFFF_FFFF)
    case TInt16 => (-0x8000, 0x7FFF) case TInt32 => (-0x8000_0000, 0x7FFF_FFFF)
    case TInt64 => (-0x8000_0000_0000_0000, 0x7FFF_FFFF_FFFF_FFFF)
    case _ => (-0x80, 0x7F)
  }

  predicate IsUnsigned(t: FieldType) { t.TUint8? || t.TUint16? || t.TUint32? || t.TUint64? }

  lemma DivUnique(v: int, d: nat, q: int, r: nat)
    requires r < d && v == q * d + r
    ensures v / d == q
  {
    assert v == (v / d) * d + v % d;
    assert (v / d - q) * d == r - v % d;
    SmallMultiple(v / d - q, d);
  }

  lemma SmallMultiple(e: int, d: nat)
    ensures e > 0 ==> e * d >= d
    ensures e < 0 ==> e * d <= 0 - d
  {
  }

  lemma DivTwice(v: int, p: nat)
    requires p > 0
    ensures v / 256 / p == v / (256 * p)
  {
    var q, r, s := v / 256 / p, v / 256 % p, v % 256;
    assert v / 256 == q * p + r;
    assert 256 * (q * p) == q * (256 * p);
    DivUnique(v, 256 * p, q, 256 * r + s);
  }

  /** Byte i of a stored number is its i-th digit to base 256, the least significant first. */
  lemma {:induction false} StoredByte(v: int, k: nat, i: nat)
    requires i < k
    ensures Pow256(i) > 0 && Stored(v, k)[i] == v / Pow256(i) % 256
    decreases k
  {
    if i > 0 {
      StoredByte(v / 256, k - 1, i - 1);
      DivTwice(v, Pow256(i - 1));
    }
  }

  lemma {:induction false} UnsignedStored(v: nat, k: nat)
    requires v < Pow256(k)
    ensures Unsigned(Stored(v, k)) == v
    decreases k
  {
    if k > 0 {
      UnsignedStored(v / 256, k - 1);
      assert Stored(v, k)[1..] == Stored(v / 256, k - 1);
    }
  }

  lemma Monotone(a: nat, b: nat, p: nat)
    requires a <= b
    ensures a * p <= b * p
  {
  }

  /** The sign bit splits the numbers of k bytes in two halves. */
  lemma HalfSpan(b: seq<Byte>, p: nat)
    requires b != [] && p == Pow256(|b| - 1)
    ensures Unsigned(b) < 256 * p && (b[|b| - 1] < 128 <==> Unsigned(b) < 128 * p)
  {
    UnsignedSpan(b, p);
    var top: nat := b[|b| - 1];
    Monotone(top + 1, 256, p);
    if top < 128 { Monotone(top + 1, 128, p); } else { Monotone(128, top, p); }
  }

  /** Bytes whose unsigned number is known. */
  lemma SignedIs(b: seq<Byte>, u: nat, p: nat)
    requires b != [] && p == Pow256(|b| - 1) && Unsigned(b) == u
    ensures Signed(b) == if u < 128 * p then u else u - 256 * p
  {
    HalfSpan(b, p);
  }

  lemma SignedStored(v: int, k: nat, p: nat)
    requires k > 0 && p == Pow256(k - 1) && -128 * p <= v < 128 * p
    ensures Signed(Stored(v, k)) == v
  {
    var u := if v < 0 then v + 256 * p else v;
    if v < 0 { StoredWraps(u, k); }
    UnsignedStored(u, k);
    SignedIs(Stored(u, k), u, p);
  }

  lemma RangeIs(t: FieldType)
    requires IsSigned(t) || IsUnsigned(t)
    ensures var k := TypeSize(t);
      k > 0 && Range(t) == if IsUnsigned(t) then (0, Pow256(k) - 1) else (-128 * Pow256(k - 1), 128 * Pow256(k - 1) - 1)
  {
    Powers();
  }

  /** A field of integers is serialized as numbers of its range, and every number of the range is the
      serialized form of some item. */
  lemma ItemRange(t: FieldType, b: seq<Byte>, v: int)
    requires (IsSigned(t) || IsUnsigned(t)) && |b| == TypeSize(t)
    ensures AddItem(t, b).Int? && Range(t).0 <= AddItem(t, b).v <= Range(t).1
    ensures Range(t).0 <= v <= Range(t).1 ==> AddItem(t, Stored(v, TypeSize(t))) == Int(v)
  {
    var k := TypeSize(t);
    RangeIs(t);
    HalfSpan(b, Pow256(k - 1));
    if Range(t).0 <= v <= Range(t).1 {
      if IsUnsigned(t) { UnsignedStored(v, k); } else { SignedStored(v, k, Pow256(k - 1)); }
    }
  }

  // ------------------------------------------------------------------ items of a list

  /** The items of a field. */
  function Chunks(n: nat, b: seq<Byte>): (cs: seq<seq<Byte>>)
    requires n > 0
    ensures forall i :: 0 <= i < |cs| ==> |cs[i]| == n
    decreases |b|
  {
    if |b| < n then [] else Chunks(n, b[..|b| - n]) + [b[|b| - n..]]
  }

  lemma DivStep(m: nat, n: nat)
    requires m >= n && (n == 1 || n == 2 || n == 4 || n == 8)
    ensures m / n == (m - n) / n + 1 && m % n == (m - n) % n
  {
  }

  /** A number of bytes that is some number of items of n bytes. */
  predicate Whole(n: nat, m: nat)
    requires n > 0
    decreases m
  {
    m == 0 || (m >= n && Whole(n, m - n))
  }

  lemma {:induction false} WholeIff(n: nat, m: nat)
    requires n == 1 || n == 2 || n == 4 || n == 8
    ensures Whole(n, m) <==> m % n == 0
    decreases m
  {
    if m >= n {
      DivStep(m, n);
      WholeIff(n, m - n);
    }
  }

  lemma ChunksNext(n: nat, init: seq<Byte>, c: seq<Byte>)
    requires n > 0 && |c| == n
    ensures Chunks(n, init + c) == Chunks(n, init) + [c]
  {
    var b := init + c;
    assert b[..|b| - n] == init && b[|b| - n..] == c;
  }

  lemma {:induction false} ChunkCount(n: nat, b: seq<Byte>)
    requires n == 1 || n == 2 || n == 4 || n == 8
    ensures |Chunks(n, b)| == |b| / n
    decreases |b|
  {
    if |b| >= n {
      ChunkCount(n, b[..|b| - n]);
      DivStep(|b|, n);
    }
  }

  /** How items of one type are added to a list and read from it; `ok` tells those that are read
      back as they were. */
  datatype Codec = Codec(size: nat, add: seq<Byte> -> Binn, get: Binn -> Option<seq<Byte>>, ok: seq<Byte> -> bool)

  function CodecOf(t: FieldType): (c: Codec)
    requires !t.TUnknown?
    ensures c.size == TypeSize(t) > 0
  {
    Codec(TypeSize(t),
          (b: seq<Byte>) => if |b| == TypeSize(t) then AddItem(t, b) else Blob(b),
          (v: Binn) => GetItem(t, v),
          (b: seq<Byte>) => |b| == TypeSize(t) && Faithful(t, b))
  }

  /** All items of a list. */
  function AddAll(c: Codec, cs: seq<seq<Byte>>): (vs: seq<Binn>)
    ensures |vs| == |cs|
  {
    if cs == [] then [] else AddAll(c, cs[..|cs| - 1]) + [c.add(cs[|cs| - 1])]
  }

  function GetAll(c: Codec, vs: seq<Binn>): Option<seq<Byte>> {
    if vs == [] then Some([]) else
    var init, last := GetAll(c, vs[..|vs| - 1]), c.get(vs[|vs| - 1]);
    if init.None? || last.None? then None else Some(init.value + last.value)
  }

  predicate AllOk(c: Codec, cs: seq<seq<Byte>>) { forall i :: 0 <= i < |cs| ==> c.ok(cs[i]) }

  /** Items are read back as they were or not at all. */
  ghost predicate Reads(c: Codec) {
    && c.size > 0
    && (forall b: seq<Byte> :: |b| == c.size ==> c.get(c.add(b)) == if c.ok(b) then Some(b) else None)
    && (forall v: Binn :: c.get(v).Some? ==> |c.get(v).value| == c.size)
  }

  lemma CodecReads(t: FieldType)
    requires !t.TUnknown? && !t.TBool?
    ensures Reads(CodecOf(t))
  {
    var c := CodecOf(t);
    forall b: seq<Byte> | |b| == c.size
      ensures c.get(c.add(b)) == if c.ok(b) then Some(b) else None
    {
      ItemRoundTripIff(t, b);
    }
  }

  /** The items of an encoded list are read back, all of them or not at all. */
  lemma {:induction false} ItemsRoundTripIff(c: Codec, b: seq<Byte>)
    requires Reads(c) && Whole(c.size, |b|)
    ensures GetAll(c, AddAll(c, Chunks(c.size, b))) == if AllOk(c, Chunks(c.size, b)) then Some(b) else None
    decreases |b|
  {
    if b != [] {
      var init, last := b[..|b| - c.size], b[|b| - c.size..];
      ItemsRoundTripIff(c, init);
      assert b == init + last;
      ChunksNext(c.size, init, last);
      ListNext(c, Chunks(c.size, init), last);
    }
  }

  lemma ListNext(c: Codec, cs: seq<seq<Byte>>, x: seq<Byte>)
    ensures AddAll(c, cs + [x]) == AddAll(c, cs) + [c.add(x)]
    ensures AllOk(c, cs + [x]) <==> AllOk(c, cs) && c.ok(x)
    ensures var init, last := GetAll(c, AddAll(c, cs)), c.get(c.add(x));
      GetAll(c, AddAll(c, cs + [x])) == if init.None? || last.None? then None else Some(init.value + last.value)
  {
    assert (cs + [x])[..|cs|] == cs;
    var vs := AddAll(c, cs);
    assert (vs + [c.add(x)])[..|vs|] == vs;
    if AllOk(c, cs + [x]) {
      assert c.ok((cs + [x])[|cs|]);
      forall i | 0 <= i < |cs| ensures c.ok(cs[i]) { assert c.ok((cs + [x])[i]); }
    }
  }

  lemma {:induction false} GetAllSize(c: Codec, vs: seq<Binn>)
    requires Reads(c) && GetAll(c, vs).Some?
    ensures |GetAll(c, vs).value| == TimesByte(|vs|, c.size)
    decreases |vs|
  {
    if vs != [] { GetAllSize(c, vs[..|vs| - 1]); }
  }

  // ------------------------------------------------------------------ fields

  /** A field as it is serialized: refused when its type is unknown, its size no multiple of the
      item size, or its items too many. A single-item field must hold its item. */
  function EncField(f: Field, b: seq<Byte>): Option<Binn> {
    var n := TypeSize(f.typ);
    if n == 0 || |b| % n != 0 || (f.limit != 0 && f.limit < |b| / n) then None
    else if f.limit == 1 then (if |b| == n then Some(AddItem(f.typ, b)) else None)
    else if n == 1 then Some(Blob(b))
    else Some(Items(AddAll(CodecOf(f.typ), Chunks(n, b))))
  }

  /** The shape a field of this type is serialized to. */
  predicate Shaped(f: Field, v: Binn) {
    !f.typ.TUnknown? && (f.limit != 1 ==> if TypeSize(f.typ) == 1 then v.Blob? else v.Items?)
  }

  function DecField(f: Field, v: Binn): Option<seq<Byte>> {
    if !Shaped(f, v) then None
    else if f.limit == 1 then GetItem(f.typ, v)
    else if TypeSize(f.typ) == 1 then Some(v.bytes)
    else GetAll(CodecOf(f.typ), v.items)
  }

  /** Bytes reserved for a field. */
  function FieldSize(f: Field, v: Binn): nat {
    if !Shaped(f, v) then 0
    else if f.limit == 1 then TypeSize(f.typ)
    else if TypeSize(f.typ) == 1 then |v.bytes|
    else TimesByte(|v.items|, TypeSize(f.typ))
  }

  /** Every item of the field is faithful; fields kept as a blob always are. */
  predicate FaithfulField(f: Field, b: seq<Byte>) {
    if f.typ.TUnknown? then true
    else if f.limit == 1 then |b| == TypeSize(f.typ) && Faithful(f.typ, b)
    else if TypeSize(f.typ) == 1 then true
    else AllOk(CodecOf(f.typ), Chunks(TypeSize(f.typ), b))
  }

  lemma DivMul(m: nat, n: nat)
    requires (n == 1 || n == 2 || n == 4 || n == 8) && m % n == 0
    ensures (m / n) * n == m
  {
  }

  /** A field that can be serialized takes exactly the bytes reserved for it. */
  lemma FieldFits(f: Field, b: seq<Byte>)
    requires EncField(f, b).Some?
    ensures var v := EncField(f, b).value; Shaped(f, v) && FieldSize(f, v) == |b|
  {
    var n := TypeSize(f.typ);
    if f.limit != 1 && n > 1 {
      ChunkCount(n, b);
      DivMul(|b|, n);
      TimesIs(|b| / n, n);
    }
  }

  /** The bytes are k items of the field's type, and the field may hold k items. */
  predicate HoldsItems(f: Field, b: seq<Byte>, k: nat) {
    |b| == TimesByte(k, TypeSize(f.typ)) && (f.limit == 0 || k <= f.limit) && (f.limit == 1 ==> k == 1)
  }

  ghost predicate Serializable(f: Field, b: seq<Byte>) {
    !f.typ.TUnknown? && exists k: nat :: HoldsItems(f, b, k)
  }

  lemma MulDiv(m: nat, k: nat, n: nat)
    requires (n == 1 || n == 2 || n == 4 || n == 8) && m == k * n
    ensures m % n == 0 && m / n == k
  {
  }

  lemma DivHolds(m: nat, n: nat) returns (k: nat)
    requires (n == 1 || n == 2 || n == 4 || n == 8) && m % n == 0
    ensures m == TimesByte(k, n) && k == m / n
  {
    k := m / n;
    DivMul(m, n);
    TimesIs(k, n);
  }

  lemma SerializedHolds(f: Field, b: seq<Byte>) returns (k: nat)
    requires EncField(f, b).Some?
    ensures HoldsItems(f, b, k)
  {
    k := DivHolds(|b|, TypeSize(f.typ));
    if f.limit == 1 { assert |b| == TypeSize(f.typ); }
  }

  lemma HoldsSerialized(f: Field, b: seq<Byte>, k: nat)
    requires !f.typ.TUnknown? && HoldsItems(f, b, k)
    ensures EncField(f, b).Some?
  {
    TimesIs(k, TypeSize(f.typ));
    MulDiv(|b|, k, TypeSize(f.typ));
  }

  /** A field is serialized exactly when its type is known, its bytes are whole items, and these are
      as many as it may hold. */
  lemma SerializedIff(f: Field, b: seq<Byte>)
    ensures EncField(f, b).Some? <==> Serializable(f, b)
  {
    if EncField(f, b).Some? { var k := SerializedHolds(f, b); }
    if Serializable(f, b) {
      var k: nat :| HoldsItems(f, b, k);
      HoldsSerialized(f, b, k);
    }
  }

  lemma {:induction false} ChunksSize(n: nat, b: seq<Byte>)
    requires n > 0 && Whole(n, |b|)
    ensures TimesByte(|Chunks(n, b)|, n) == |b|
    decreases |b|
  {
    if b != [] { ChunksSize(n, b[..|b| - n]); }
  }

  lemma {:induction false} TimesLess(i: nat, k: nat, n: nat)
    requires i < k
    ensures TimesByte(i, n) + n <= TimesByte(k, n)
    decreases k
  {
    if i < k - 1 { TimesLess(i, k - 1, n); }
  }

  /** Item i of a field lies behind i items. */
  lemma {:induction false} ChunkAt(n: nat, b: seq<Byte>, i: nat)
    requires n > 0 && Whole(n, |b|) && i < |Chunks(n, b)|
    ensures TimesByte(i, n) + n <= |b| && Chunks(n, b)[i] == b[TimesByte(i, n)..TimesByte(i, n) + n]
    decreases |b|
  {
    var init := b[..|b| - n];
    ChunksSize(n, init);
    if i < |Chunks(n, init)| {
      ChunkAt(n, init, i);
      var at := TimesByte(i, n);
      assert init[at..at + n] == b[at..at + n];
    }
  }

  lemma {:induction false} AddAllAt(c: Codec, cs: seq<seq<Byte>>, i: nat)
    requires i < |cs|
    ensures AddAll(c, cs)[i] == c.add(cs[i])
    decreases |cs|
  {
    if i < |cs| - 1 { AddAllAt(c, cs[..|cs| - 1], i); }
  }

  /** What a serialized field holds: its single item, its bytes, or its items in order. */
  lemma SerializedAs(f: Field, b: seq<Byte>, i: nat)
    requires EncField(f, b).Some?
    ensures var v, n := EncField(f, b).value, TypeSize(f.typ);
      if f.limit == 1 then |b| == n && v == AddItem(f.typ, b)
      else if n == 1 then v == Blob(b)
      else v.Items? && TimesByte(|v.items|, n) == |b| && (i < |v.items| ==>
        TimesByte(i, n) + n <= |b| && v.items[i] == AddItem(f.typ, b[TimesByte(i, n)..TimesByte(i, n) + n]))
  {
    var n := TypeSize(f.typ);
    if f.limit != 1 && n > 1 {
      WholeIff(n, |b|);
      ChunksSize(n, b);
      if i < |Chunks(n, b)| {
        ChunkAt(n, b, i);
        AddAllAt(CodecOf(f.typ), Chunks(n, b), i);
      }
    }
  }

  lemma ListRoundTripIff(t: FieldType, b: seq<Byte>)
    requires !t.TUnknown? && TypeSize(t) > 1 && |b| % TypeSize(t) == 0
    ensures var c, cs := CodecOf(t), Chunks(TypeSize(t), b);
      GetAll(c, AddAll(c, cs)) == if AllOk(c, cs) then Some(b) else None
  {
    WholeIff(TypeSize(t), |b|);
    CodecReads(t);
    ItemsRoundTripIff(CodecOf(t), b);
  }

  /** It is read back unchanged exactly when it is faithful. */
  lemma FieldRoundTripIff(f: Field, b: seq<Byte>)
    requires EncField(f, b).Some?
    ensures DecField(f, EncField(f, b).value) == Some(b) <==> FaithfulField(f, b)
  {
    if f.limit == 1 {
      ItemRoundTripIff(f.typ, b);
    } else if TypeSize(f.typ) > 1 {
      ListRoundTripIff(f.typ, b);
    }
  }

  /** What is read is as long as reserved. */
  lemma DecSize(f: Field, v: Binn)
    requires DecField(f, v).Some?
    ensures |DecField(f, v).value| == FieldSize(f, v)
  {
    if f.limit != 1 && TypeSize(f.typ) > 1 {
      CodecReads(f.typ);
      GetAllSize(CodecOf(f.typ), v.items);
    }
  }

  // ------------------------------------------------------------------ rows

  /** How the fields of one column are serialized, read back and measured; `ok` tells those that are
      read back as they were. */
  datatype Column = Column(enc: seq<Byte> -> Option<Binn>, dec: Binn -> Option<seq<Byte>>, size: Binn -> nat,
                           ok: seq<Byte> -> bool)

  function ColumnOf(f: Field): Column {
    Column((b: seq<Byte>) => EncField(f, b), (v: Binn) => DecField(f, v), (v: Binn) => FieldSize(f, v),
           (b: seq<Byte>) => FaithfulField(f, b))
  }

  function Columns(fs: seq<Field>): (cols: seq<Column>)
    ensures |cols| == |fs| && forall i :: 0 <= i < |fs| ==> cols[i] == ColumnOf(fs[i])
  {
    if fs == [] then [] else Columns(fs[..|fs| - 1]) + [ColumnOf(fs[|fs| - 1])]
  }

  ghost predicate Sound(c: Column) {
    && (forall b: seq<Byte> :: c.enc(b).Some? ==>
          c.size(c.enc(b).value) == |b| && (c.dec(c.enc(b).value) == Some(b) <==> c.ok(b)))
    && (forall v: Binn :: c.dec(v).Some? ==> |c.dec(v).value| == c.size(v))
  }

  ghost predicate AllSound(cols: seq<Column>) { forall i :: 0 <= i < |cols| ==> Sound(cols[i]) }

  lemma ColumnSound(f: Field)
    ensures Sound(ColumnOf(f))
  {
    var c := ColumnOf(f);
    forall b: seq<Byte> | c.enc(b).Some?
      ensures c.size(c.enc(b).value) == |b| && (c.dec(c.enc(b).value) == Some(b) <==> c.ok(b))
    {
      FieldFits(f, b);
      FieldRoundTripIff(f, b);
    }
    forall v: Binn | c.dec(v).Some?
      ensures |c.dec(v).value| == c.size(v)
    {
      DecSize(f, v);
    }
  }

  lemma ColumnsSound(fs: seq<Field>)
    ensures AllSound(Columns(fs))
  {
    forall i | 0 <= i < |fs| ensures Sound(Columns(fs)[i]) { ColumnSound(fs[i]); }
  }

  /** A mask of columns; without one all are selected. */
  type Mask = Option<set<nat>>

  predicate Selected(mask: Mask, i: nat) { mask.None? || i in mask.value }

  /** The selected elements, in order. */
  function Project<T>(xs: seq<T>, mask: Mask): seq<T> {
    if xs == [] then [] else
    var n := |xs| - 1;
    Project(xs[..n], mask) + if Selected(mask, n) then [xs[n]] else []
  }

  /** The columns below n that a mask selects. */
  function Picked(n: nat, mask: Mask): (idx: seq<nat>) {
    if n == 0 then []
    else if Selected(mask, n - 1) then Picked(n - 1, mask) + [n - 1]
    else Picked(n - 1, mask)
  }

  /** They are in increasing order, and exactly those in the mask, or all without a mask. */
  lemma {:induction false} PickedIs(n: nat, mask: Mask)
    ensures forall i: nat :: i in Picked(n, mask) <==> i < n && (mask.None? || i in mask.value)
    ensures forall i, j :: 0 <= i < j < |Picked(n, mask)| ==> Picked(n, mask)[i] < Picked(n, mask)[j]
    decreases n
  {
    if n > 0 {
      PickedIs(n - 1, mask);
      var idx := Picked(n - 1, mask);
      assert forall j :: 0 <= j < |idx| ==> idx[j] in idx;
    }
  }

  /** A projection consists of the elements at the picked places, in order. */
  ghost predicate Picks<T(!new)>(xs: seq<T>, mask: Mask, ys: seq<T>) {
    var idx := Picked(|xs|, mask);
    |ys| == |idx| && forall j :: 0 <= j < |idx| ==> idx[j] < |xs| && ys[j] == xs[idx[j]]
  }

  lemma {:induction false} ProjectAt<T>(xs: seq<T>, mask: Mask, j: nat)
    ensures var ys, idx := Project(xs, mask), Picked(|xs|, mask);
      |ys| == |idx| && (j < |idx| ==> idx[j] < |xs| && ys[j] == xs[idx[j]])
    decreases |xs|
  {
    if xs != [] { ProjectAt(xs[..|xs| - 1], mask, j); }
  }

  lemma ProjectPicks<T(!new)>(xs: seq<T>, mask: Mask)
    ensures Picks(xs, mask, Project(xs, mask))
  {
    var ys, idx := Project(xs, mask), Picked(|xs|, mask);
    ProjectAt(xs, mask, 0);
    forall j | 0 <= j < |idx| ensures idx[j] < |xs| && ys[j] == xs[idx[j]] { ProjectAt(xs, mask, j); }
  }

  /** Without a mask nothing is left out. */
  lemma {:induction false} ProjectAll<T>(xs: seq<T>)
    ensures Project(xs, None) == xs
    decreases |xs|
  {
    if xs != [] {
      ProjectAll(xs[..|xs| - 1]);
      assert xs == xs[..|xs| - 1] + [xs[|xs| - 1]];
    }
  }

  function EncRow(cols: seq<Column>, row: seq<seq<Byte>>): Option<seq<Binn>>
    requires |cols| == |row|
  {
    if cols == [] then Some([]) else
    var n := |cols| - 1;
    var init, v := EncRow(cols[..n], row[..n]), cols[n].enc(row[n]);
    if init.None? || v.None? then None else Some(init.value + [v.value])
  }

  /** A list extended by a field that may have failed. */
  function Extended(init: Option<seq<seq<Byte>>>, b: Option<seq<Byte>>): Option<seq<seq<Byte>>> {
    if init.None? || b.None? then None else Some(init.value + [b.value])
  }

  /** The selected fields of a serialized row. */
  function DecRow(cols: seq<Column>, vs: seq<Binn>, mask: Mask): Option<seq<seq<Byte>>>
    requires |vs| <= |cols|
    decreases |vs|
  {
    if vs == [] then Some([]) else
    var n := |vs| - 1;
    var init := DecRow(cols, vs[..n], mask);
    if Selected(mask, n) then Extended(init, cols[n].dec(vs[n])) else init
  }

  /** Bytes reserved for the selected fields. */
  function RowSize(cols: seq<Column>, vs: seq<Binn>, mask: Mask): nat
    requires |vs| <= |cols|
    decreases |vs|
  {
    if vs == [] then 0 else
    var n := |vs| - 1;
    RowSize(cols, vs[..n], mask) + if Selected(mask, n) then cols[n].size(vs[n]) else 0
  }

  function TotalSize(row: seq<seq<Byte>>): nat {
    if row == [] then 0 else TotalSize(row[..|row| - 1]) + |row[|row| - 1]|
  }

  /** Values vs are the serialized fields of the row. */
  predicate Serialized(cols: seq<Column>, row: seq<seq<Byte>>, vs: seq<Binn>) {
    |cols| == |row| == |vs| && forall i :: 0 <= i < |cols| ==> cols[i].enc(row[i]) == Some(vs[i])
  }

  lemma {:induction false} EncRowIff(cols: seq<Column>, row: seq<seq<Byte>>, vs: seq<Binn>)
    requires |cols| == |row|
    ensures EncRow(cols, row) == Some(vs) <==> Serialized(cols, row, vs)
    decreases |cols|
  {
    if cols != [] && |vs| == |cols| {
      var n := |cols| - 1;
      EncRowIff(cols[..n], row[..n], vs[..n]);
      assert vs == vs[..n] + [vs[n]];
      if EncRow(cols, row) == Some(vs) {
        var init, v := EncRow(cols[..n], row[..n]).value, cols[n].enc(row[n]).value;
        assert init == (init + [v])[..|init|] && (init + [v])[|init|] == v && |init| == n;
      }
    } else if cols != [] {
      EncRowLength(cols, row);
    }
  }

  lemma {:induction false} EncRowLength(cols: seq<Column>, row: seq<seq<Byte>>)
    requires |cols| == |row|
    ensures EncRow(cols, row).Some? ==> |EncRow(cols, row).value| == |cols|
    decreases |cols|
  {
    if cols != [] { EncRowLength(cols[..|cols| - 1], row[..|cols| - 1]); }
  }

  /** A row is serialized exactly when each of its fields is. */
  lemma {:induction false} EncRowSome(cols: seq<Column>, row: seq<seq<Byte>>)
    requires |cols| == |row|
    ensures EncRow(cols, row).Some? <==> forall i :: 0 <= i < |cols| ==> cols[i].enc(row[i]).Some?
    decreases |cols|
  {
    if cols != [] { EncRowSome(cols[..|cols| - 1], row[..|cols| - 1]); }
  }

  lemma RowSerializedIff(fs: seq<Field>, row: seq<seq<Byte>>)
    requires |fs| == |row|
    ensures EncRow(Columns(fs), row).Some? <==> forall i :: 0 <= i < |fs| ==> Serializable(fs[i], row[i])
  {
    EncRowSome(Columns(fs), row);
    forall i | 0 <= i < |fs| ensures Columns(fs)[i].enc(row[i]).Some? <==> Serializable(fs[i], row[i]) {
      SerializedIff(fs[i], row[i]);
    }
  }

  /** The fields a mask picks, decoded: each one separately, in order; one that cannot be read spoils
      the row. */
  ghost predicate DecodesPicked(cols: seq<Column>, vs: seq<Binn>, mask: Mask, row: seq<seq<Byte>>)
    requires |vs| <= |cols|
  {
    var idx := Picked(|vs|, mask);
    |row| == |idx| && forall j :: 0 <= j < |idx| ==> idx[j] < |vs| && cols[idx[j]].dec(vs[idx[j]]) == Some(row[j])
  }

  lemma {:induction false} DecRowPicks(cols: seq<Column>, vs: seq<Binn>, mask: Mask)
    requires |vs| <= |cols|
    ensures DecRow(cols, vs, mask).Some? ==> DecodesPicked(cols, vs, mask, DecRow(cols, vs, mask).value)
    ensures DecRow(cols, vs, mask).None? ==>
      exists i :: 0 <= i < |vs| && (mask.None? || i in mask.value) && cols[i].dec(vs[i]).None?
    decreases |vs|
  {
    if vs != [] {
      var init := vs[..|vs| - 1];
      DecRowPicks(cols, init, mask);
      if DecRow(cols, init, mask).None? {
        var i :| 0 <= i < |init| && (mask.None? || i in mask.value) && cols[i].dec(init[i]).None?;
        assert vs[i] == init[i];
      }
    }
  }

  /** The selected ones of the first k fields are read back as they were. */
  predicate OkUpto(cols: seq<Column>, row: seq<seq<Byte>>, mask: Mask, k: nat)
    requires k <= |cols| == |row|
  {
    k == 0 || (OkUpto(cols, row, mask, k - 1) && (Selected(mask, k - 1) ==> cols[k - 1].ok(row[k - 1])))
  }

  lemma {:induction false} OkAll(cols: seq<Column>, row: seq<seq<Byte>>, mask: Mask, k: nat)
    requires k <= |cols| == |row|
    ensures OkUpto(cols, row, mask, k) <==> forall i :: 0 <= i < k && Selected(mask, i) ==> cols[i].ok(row[i])
    decreases k
  {
    if k > 0 { OkAll(cols, row, mask, k - 1); }
  }

  lemma ProjectNext<T>(xs: seq<T>, mask: Mask, n: nat)
    requires n < |xs|
    ensures Project(xs[..n + 1], mask) ==
      if Selected(mask, n) then Project(xs[..n], mask) + [xs[n]] else Project(xs[..n], mask)
  {
    assert xs[..n + 1][..n] == xs[..n];
  }

  lemma DecRowNext(cols: seq<Column>, vs: seq<Binn>, mask: Mask, n: nat)
    requires n < |vs| <= |cols|
    ensures DecRow(cols, vs[..n + 1], mask) ==
      if Selected(mask, n) then Extended(DecRow(cols, vs[..n], mask), cols[n].dec(vs[n]))
      else DecRow(cols, vs[..n], mask)
    ensures RowSize(cols, vs[..n + 1], mask) ==
      RowSize(cols, vs[..n], mask) + if Selected(mask, n) then cols[n].size(vs[n]) else 0
  {
    assert vs[..n + 1][..n] == vs[..n];
  }

  lemma ExtendedIff(init: Option<seq<seq<Byte>>>, b: Option<seq<Byte>>, row: seq<seq<Byte>>, x: seq<Byte>)
    ensures Extended(init, b) == Some(row + [x]) <==> init == Some(row) && b == Some(x)
  {
    if init.Some? && b.Some? && init.value + [b.value] == row + [x] {
      assert init.value == (init.value + [b.value])[..|init.value|] && row == (row + [x])[..|row|];
      assert b.value == (init.value + [b.value])[|init.value|] && x == (row + [x])[|row|];
    }
  }

  lemma {:induction false} DecRowIff(cols: seq<Column>, row: seq<seq<Byte>>, vs: seq<Binn>, mask: Mask, k: nat)
    requires AllSound(cols) && Serialized(cols, row, vs) && k <= |cols|
    ensures DecRow(cols, vs[..k], mask) == Some(Project(row[..k], mask)) <==> OkUpto(cols, row, mask, k)
    decreases k
  {
    if k > 0 {
      var n := k - 1;
      DecRowIff(cols, row, vs, mask, n);
      DecRowNext(cols, vs, mask, n);
      ProjectNext(row, mask, n);
      assert Sound(cols[n]) && cols[n].enc(row[n]) == Some(vs[n]);
      ExtendedIff(DecRow(cols, vs[..n], mask), cols[n].dec(vs[n]), Project(row[..n], mask), row[n]);
    }
  }

  /** Decoding an encoded row under a mask gives the masked fields in order exactly when the masked
      fields are read back as they were. */
  lemma DecodesIff(cols: seq<Column>, row: seq<seq<Byte>>, vs: seq<Binn>, mask: Mask)
    requires AllSound(cols) && Serialized(cols, row, vs)
    ensures DecRow(cols, vs, mask) == Some(Project(row, mask)) <==>
      forall i :: 0 <= i < |cols| && Selected(mask, i) ==> cols[i].ok(row[i])
  {
    DecRowIff(cols, row, vs, mask, |cols|);
    OkAll(cols, row, mask, |cols|);
    assert vs[..|vs|] == vs && row[..|row|] == row;
  }

  lemma SerializedNext(cols: seq<Column>, row: seq<seq<Byte>>, vs: seq<Binn>, c: Column, b: seq<Byte>, v: Binn)
    requires Serialized(cols, row, vs) && c.enc(b) == Some(v)
    ensures Serialized(cols + [c], row + [b], vs + [v])
  {
  }

  lemma {:induction false} ProjectSerialized(cols: seq<Column>, row: seq<seq<Byte>>, vs: seq<Binn>, mask: Mask, k: nat)
    requires Serialized(cols, row, vs) && k <= |cols|
    ensures Serialized(Project(cols[..k], mask), Project(row[..k], mask), Project(vs[..k], mask))
    decreases k
  {
    if k > 0 {
      var n := k - 1;
      ProjectSerialized(cols, row, vs, mask, n);
      ProjectNext(cols, mask, n);
      ProjectNext(row, mask, n);
      ProjectNext(vs, mask, n);
      SerializedNext(Project(cols[..n], mask), Project(row[..n], mask), Project(vs[..n], mask), cols[n], row[n], vs[n]);
    }
  }

  lemma TotalNext(row: seq<seq<Byte>>, b: seq<Byte>)
    ensures TotalSize(row + [b]) == TotalSize(row) + |b|
  {
    assert (row + [b])[..|row|] == row;
  }

  lemma {:induction false} SizeUpto(cols: seq<Column>, row: seq<seq<Byte>>, vs: seq<Binn>, mask: Mask, k: nat)
    requires AllSound(cols) && Serialized(cols, row, vs) && k <= |cols|
    ensures RowSize(cols, vs[..k], mask) == TotalSize(Project(row[..k], mask))
    decreases k
  {
    if k > 0 {
      var n := k - 1;
      SizeUpto(cols, row, vs, mask, n);
      DecRowNext(cols, vs, mask, n);
      ProjectNext(row, mask, n);
      assert Sound(cols[n]) && cols[n].enc(row[n]) == Some(vs[n]);
      TotalNext(Project(row[..n], mask), row[n]);
    }
  }

  lemma {:induction false} ProjectColumns(fs: seq<Field>, mask: Mask, k: nat)
    requires k <= |fs|
    ensures Project(Columns(fs)[..k], mask) == Columns(Project(fs[..k], mask))
    decreases k
  {
    if k > 0 {
      var n := k - 1;
      ProjectColumns(fs, mask, n);
      ProjectNext(Columns(fs), mask, n);
      ProjectNext(fs, mask, n);
      ColumnsMore(Project(fs[..n], mask), fs[n]);
    }
  }

  lemma ColumnsMore(fs: seq<Field>, f: Field)
    ensures Columns(fs + [f]) == Columns(fs) + [ColumnOf(f)]
  {
    assert (fs + [f])[..|fs|] == fs;
  }

  lemma ColumnsCommute(cols: seq<Column>, row: seq<seq<Byte>>, mask: Mask)
    requires AllSound(cols) && |cols| == |row| && EncRow(cols, row).Some?
    ensures var vs := EncRow(cols, row).value;
      && |vs| == |cols| == |row| && |Project(row, mask)| == |Project(cols, mask)|
      && (DecRow(cols, vs, mask) == Some(Project(row, mask)) <==>
          forall i :: 0 <= i < |cols| && Selected(mask, i) ==> cols[i].ok(row[i]))
      && EncRow(Project(cols, mask), Project(row, mask)) == Some(Project(vs, mask))
      && RowSize(cols, vs, mask) == TotalSize(Project(row, mask))
  {
    var vs := EncRow(cols, row).value;
    EncRowIff(cols, row, vs);
    DecodesIff(cols, row, vs, mask);
    SizeUpto(cols, row, vs, mask, |cols|);
    ProjectSerialized(cols, row, vs, mask, |cols|);
    assert cols[..|cols|] == cols && row[..|cols|] == row && vs[..|cols|] == vs;
    EncRowIff(Project(cols, mask), Project(row, mask), Project(vs, mask));
  }

  /** Row codec commutes with projection: a row that can be serialized decodes under a mask to the
      masked fields in order, exactly when the masked fields are faithful; the masked fields
      serialize again under the sliced table, to the masked values; and the bytes reserved are
      exactly theirs. */
  lemma ProjectionCommutes(fs: seq<Field>, row: seq<seq<Byte>>, mask: Mask)
    requires |fs| == |row| && EncRow(Columns(fs), row).Some?
    ensures var cols := Columns(fs);
      var vs, row', fs' := EncRow(cols, row).value, Project(row, mask), Project(fs, mask);
      && |vs| == |fs| && |row'| == |fs'|
      && (DecRow(cols, vs, mask) == Some(row') <==> FaithfulRow(fs, row, mask))
      && EncRow(Columns(fs'), row') == Some(Project(vs, mask))
      && RowSize(cols, vs, mask) == TotalSize(row')
      && Picks(row, mask, row') && Picks(fs, mask, fs')
  {
    ProjectPicks(row, mask);
    ProjectPicks(fs, mask);
    var cols := Columns(fs);
    ColumnsSound(fs);
    ColumnsCommute(cols, row, mask);
    FaithfulColumns(fs, row, mask);
    SliceColumns(fs, mask);
  }

  lemma SliceColumns(fs: seq<Field>, mask: Mask)
    ensures Project(Columns(fs), mask) == Columns(Project(fs, mask))
    ensures |Project(Columns(fs), mask)| == |Project(fs, mask)|
  {
    ProjectColumns(fs, mask, |fs|);
    assert Columns(fs)[..|fs|] == Columns(fs) && fs[..|fs|] == fs;
  }

  /** The masked fields are faithful. */
  predicate FaithfulRow(fs: seq<Field>, row: seq<seq<Byte>>, mask: Mask)
    requires |fs| == |row|
  {
    forall i :: 0 <= i < |fs| && Selected(mask, i) ==> FaithfulField(fs[i], row[i])
  }

  lemma FaithfulColumns(fs: seq<Field>, row: seq<seq<Byte>>, mask: Mask)
    requires |fs| == |row|
    ensures FaithfulRow(fs, row, mask) <==>
      forall i :: 0 <= i < |Columns(fs)| && Selected(mask, i) ==> Columns(fs)[i].ok(row[i])
  {
    forall i | 0 <= i < |fs|
      ensures Columns(fs)[i].ok(row[i]) == FaithfulField(fs[i], row[i])
    {
      assert Columns(fs)[i] == ColumnOf(fs[i]);
    }
  }
}
