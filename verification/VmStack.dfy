/**
 The stack machine on bytes: values are pushed on a byte array as payload, size and flag, programs
 are byte strings. Every member is tied to the machine on values (module Vm).
 */
module VmStack {
  import opened Bytes
  import opened Common
  import opened Vm

  // ------------------------------------------------------------------ encodings

  predicate Sized(v: Value) { |v| < LIMIT32 }

  predicate AllSized(vs: seq<Value>) { forall k :: 0 <= k < |vs| ==> Sized(vs[k]) }

  /** An inline value on the stack: payload, size, flag 0. */
  function Enc(v: Value): (r: Value)
    requires Sized(v)
    ensures |r| == |v| + 5
  {
    v + Le32(|v|) + [0]
  }

  function EncAll(vs: seq<Value>): (r: Value)
    requires AllSized(vs)
    ensures |r| == Used(vs)
  {
    if vs == [] then [] else EncAll(vs[..|vs| - 1]) + Enc(vs[|vs| - 1])
  }

  lemma EncAllPush(vs: seq<Value>, v: Value)
    requires AllSized(vs) && Sized(v)
    ensures AllSized(vs + [v]) && EncAll(vs + [v]) == EncAll(vs) + Enc(v)
  {
    assert (vs + [v])[..|vs|] == vs;
  }

  /** The parts of `below + v + size + [0]`. */
  lemma Layers(below: Value, v: Value, size: Value)
    requires |size| == 4
    ensures var s, n := below + v + size + [0], |below|;
      && s[..n] == below && s[n..n + |v|] == v
      && s[n + |v|..n + |v| + 4] == size && s[n + |v| + 4] == 0
  {
  }

  lemma Joined(below: Value, v: Value)
    requires Sized(v)
    ensures below + v + Le32(|v|) + [0] == below + Enc(v)
  {
  }

  const END: Byte := 0xFF

  predicate Encodable(i: Instr) {
    match i
    case Nop => true
    case Push(v) => Sized(v)
    case Call(id) => id < 65536
    case Bad(code) => 2 < code < 255
  }

  function EncInstr(i: Instr): (r: Value)
    requires Encodable(i)
    ensures r != []
  {
    match i
    case Nop => [0]
    case Push(v) => [1, 0] + Le32(|v|) + v
    case Call(id) => [2] + Le16(id)
    case Bad(code) => [code]
  }

  predicate AllEncodable(code: seq<Instr>) { forall k :: 0 <= k < |code| ==> Encodable(code[k]) }

  /** A program: its instructions and the end mark. */
  function EncProgram(code: seq<Instr>): (r: Value)
    requires AllEncodable(code)
    decreases |code|
  {
    if code == [] then [END] else EncInstr(code[0]) + EncProgram(code[1..])
  }

  /** The bytes `q` start with the program `code`; what follows is never read. */
  predicate Encodes(q: Value, code: seq<Instr>)
    decreases |code|
  {
    if code == [] then q != [] && q[0] == END
    else Encodable(code[0]) && EncInstr(code[0]) <= q && Encodes(q[|EncInstr(code[0])|..], code[1..])
  }

  lemma {:induction false} ProgramEncodes(code: seq<Instr>, tail: Value)
    requires AllEncodable(code)
    ensures Encodes(EncProgram(code) + tail, code)
    decreases |code|
  {
    if code != [] {
      ProgramEncodes(code[1..], tail);
      var e := EncInstr(code[0]);
      assert EncProgram(code) + tail == e + (EncProgram(code[1..]) + tail);
      assert (EncProgram(code) + tail)[|e|..] == EncProgram(code[1..]) + tail;
    }
  }

  /** The bytes of each instruction: opcode, then flag, size and payload, or the function. */
  lemma InstrBytes(v: Value, id: nat, code: Byte)
    requires Sized(v) && id < 65536 && 2 < code < 255
    ensures EncInstr(Nop) == [0] && EncInstr(Bad(code)) == [code]
    ensures var e, n := EncInstr(Push(v)), |v|;
      |e| == n + 6 && e[0] == 1 && e[1] == 0 && e[6..] == v
      && n == e[2] as nat + 0x100 * e[3] as nat + 0x10000 * e[4] as nat + 0x1000000 * e[5] as nat
    ensures var e := EncInstr(Call(id)); |e| == 3 && e[0] == 2 && id == e[1] as nat + 0x100 * e[2] as nat
  {
    Le32RoundTrip(|v|);
    var e := EncInstr(Push(v));
    assert e[2..6] == Le32(|v|);
  }

  /** The bytes of a value on the stack: payload, size, flag. */
  lemma ValueBytes(v: Value)
    requires Sized(v)
    ensures var e, n := Enc(v), |v|;
      |e| == n + 5 && e[..n] == v && e[n + 4] == 0
      && n == e[n] as nat + 0x100 * e[n + 1] as nat + 0x10000 * e[n + 2] as nat + 0x1000000 * e[n + 3] as nat
  {
    Le32RoundTrip(|v|);
    var e, n := Enc(v), |v|;
    assert e[n..n + 4] == Le32(n);
  }

  /** The function a byte program calls for an operator, as `MDV_PREDICATE_FNS` numbers them. */
  lemma OperatorBytes(op: Op)
    ensures var k := match op
        case Equal => 0 case NotEqual => 1 case Greater => 2 case GreaterOrEqual => 3 case Less => 4
        case LessOrEqual => 5 case And => 6 case Or => 7 case Not => 8;
      EncInstr(Call(OpId(op))) == [2, k, 0] && OPS[k] == op
  {
  }

  /** `MDV_EMPTY_PREDICATE` is the code of the constant TRUE. */
  lemma EmptyPredicate()
    ensures EncProgram(Code(Const([TRUE]))) == [1, 0, 1, 0, 0, 0, 0xFF, 0xFF]
  {
    var code := [Push([TRUE])];
    assert code[1..] == [] && EncProgram([]) == [END];
    assert Le32(1) == [1, 0, 0, 0];
  }

  // ------------------------------------------------------------------ results of the operators

  /** The test each comparison makes on the result of memcmp and the two sizes. */
  predicate Test(op: Op, cmp: int, n0: nat, n1: nat)
    requires !op.And? && !op.Or? && !op.Not?
  {
    match op
    case Equal => n0 == n1 && cmp == 0
    case NotEqual => n0 != n1 || cmp != 0
    case Greater => cmp > 0 || (cmp == 0 && n0 > n1)
    case GreaterOrEqual => cmp > 0 || (cmp == 0 && n0 >= n1)
    case Less => cmp < 0 || (cmp == 0 && n0 < n1)
    case LessOrEqual => cmp < 0 || (cmp == 0 && n0 <= n1)
  }

  /** The six tests decide equality and one total order of byte strings. */
  lemma TestHolds(op: Op, a: Value, b: Value)
    requires !op.And? && !op.Or? && !op.Not?
    ensures Test(op, MemCmp(a, b, Min(|a|, |b|)), |a|, |b|) == Holds(op, a, b) == Relates(op, a, b)
  {
    CompareOrders(a, b);
    HoldsMeans(op, a, b);
  }

  method Bits(op: Op, a: Value, b: Value) returns (r: Value)
    requires (op.And? || op.Or?) && |a| == |b|
    ensures r == Binary(op, a, b).1
  {
    r := [];
    for i := 0 to |a|
      invariant |r| == i
      invariant forall k :: 0 <= k < i ==> r[k] == if op.And? then BitAnd(a[k], b[k]) else BitOr(a[k], b[k])
    {
      r := r + [if op.And? then BitAnd(a[i], b[i]) else BitOr(a[i], b[i])];
    }
    assert r == Binary(op, a, b).1;
  }

  lemma Within(a: array<Byte>, size: nat, lo: nat, hi: nat)
    requires lo <= hi <= size <= a.Length
    ensures a[lo..hi] == a[..size][lo..hi]
  {
  }

  lemma PrefixTrans(a: Value, b: Value, c: Value)
    requires a <= b <= c
    ensures a <= c
  {
  }

  // ------------------------------------------------------------------ the byte stack

  /** A datum on the stack: where its bytes lie, how many it has, and whether a pointer to them lies
      there in their place. */
  datatype Datum = Datum(at: nat, size: nat, external: bool)

  const NO_DATUM := Datum(0, 0, false)

  const POINTER_SIZE := 8

  /** The datum on top of any bytes; none when the bytes are too few for what they say. */
  function TopDatum(b: Value): Option<Datum> {
    if |b| < 5 then None else
    var external, n := b[|b| - 1] != 0, Read32(b[|b| - 5..|b| - 1]);
    var bytes := if external then POINTER_SIZE else n;
    if bytes + 5 > |b| then None else Some(Datum(|b| - 5 - bytes, n, external))
  }

  /** The bytes left by a failed pop: flag and size are gone, as far as they were there. */
  function AfterFailedPop(size: nat): nat {
    if size == 0 then 0 else if size < 5 then size - 1 else size - 5
  }

  /** Value v is the top datum, and `below` the bytes under it. */
  predicate Tops(s: Value, below: Value, v: Value) {
    && |s| == |below| + |v| + 5 && TopDatum(s) == Some(Datum(|below|, |v|, false))
    && s[..|below|] == below && s[|below|..|below| + |v|] == v
  }

  lemma TopOf(s: Value, n: nat, m: nat, size: Value)
    requires |s| == n + m + 5 && |size| == 4 && s[n + m..n + m + 4] == size && s[n + m + 4] == 0
    requires Read32(size) == m
    ensures TopDatum(s) == Some(Datum(n, m, false))
  {
  }

  lemma EncTops(below: Value, v: Value)
    requires Sized(v)
    ensures Tops(below + Enc(v), below, v)
  {
    var size := Le32(|v|);
    Joined(below, v);
    Layers(below, v, size);
    Le32RoundTrip(|v|);
    TopOf(below + v + size + [0], |below|, |v|, size);
  }

  /** On encoded values the top datum is the last value. */
  lemma TopOfEncoded(vs: seq<Value>)
    requires AllSized(vs) && vs != []
    ensures Tops(EncAll(vs), EncAll(vs[..|vs| - 1]), vs[|vs| - 1])
  {
    EncTops(EncAll(vs[..|vs| - 1]), vs[|vs| - 1]);
  }

  class ByteStack {
    const data: array<Byte>
    var size: nat
    /** The values the bytes stand for. */
    ghost var vs: seq<Value>

    ghost predicate Valid()
      reads this, data
    {
      && size <= data.Length
      && AllSized(vs)
      && data[..size] == EncAll(vs)
    }

    constructor (capacity: nat)
      ensures Valid() && data.Length == capacity && vs == [] && fresh(data)
    {
      data := new Byte[capacity](_ => 0);
      size, vs := 0, [];
    }

    method PushBytes(bytes: Value) returns (ok: bool)
      requires size <= data.Length
      modifies this`size, data
      ensures size <= data.Length && old(data[..size]) <= data[..size]
      ensures ok <==> old(size) + |bytes| <= data.Length
      ensures ok ==> size == old(size) + |bytes| && data[..size] == old(data[..size]) + bytes
      ensures !ok ==> size == old(size) && data[..] == old(data[..])
    {
      ok := size + |bytes| <= data.Length;
      if ok {
        for i := 0 to |bytes|
          invariant size == old(size) && size + |bytes| <= data.Length
          invariant data[..size] == old(data[..size])
          invariant data[size..size + i] == bytes[..i]
        {
          data[size + i] := bytes[i];
        }
        size := size + |bytes|;
      }
    }

    method PopBytes(n: nat) returns (ok: bool, at: nat)
      requires size <= data.Length
      modifies this`size
      ensures ok <==> old(size) >= n
      ensures ok ==> at == size == old(size) - n
      ensures !ok ==> size == old(size)
    {
      ok, at := size >= n, 0;
      if ok {
        size := size - n;
        at := size;
      }
    }

    /** A push that does not fit fails; bytes written before the failing part stay. */
    method Push(v: Value) returns (err: Err)
      requires Valid() && Sized(v)
      modifies this, data
      ensures err == PushStep(v, old(vs), data.Length).err
      ensures err == Ok ==> Valid() && vs == old(vs) + [v]
      ensures old(size) <= size <= data.Length && data[..old(size)] == old(data[..size])
    {
      var ok := PushDatum(v);
      Within(data, size, 0, old(size));
      if ok {
        EncAllPush(vs, v);
        Joined(EncAll(vs), v);
        vs := vs + [v];
        err := Ok;
      } else {
        err := StackOverflow;
      }
    }

    /** Pushes payload, size and flag, as far as they fit. */
    method PushDatum(v: Value) returns (ok: bool)
      requires size <= data.Length && Sized(v)
      modifies this`size, data
      ensures size <= data.Length && old(data[..size]) <= data[..size]
      ensures ok <==> old(size) + |v| + 5 <= data.Length
      ensures ok ==> data[..size] == old(data[..size]) + v + Le32(|v|) + [0]
    {
      ghost var s0 := data[..size];
      ok := PushBytes(v);
      ghost var s1 := data[..size];
      if ok { ok := PushBytes(Le32(|v|)); }
      ghost var s2 := data[..size];
      PrefixTrans(s0, s1, s2);
      if ok { ok := PushBytes([0]); }
      PrefixTrans(s0, s2, data[..size]);
    }

    /** Reads the top datum of any bytes and leaves it. */
    method Top() returns (err: Err, d: Datum)
      requires size <= data.Length
      ensures err == if TopDatum(data[..size]).None? then Failed else Ok
      ensures err == Ok ==> TopDatum(data[..size]) == Some(d)
      ensures Valid() ==> err == if vs == [] then Failed else Ok
      ensures Valid() && err == Ok ==>
        && d.at + d.size + 5 == size && !d.external
        && data[d.at..d.at + d.size] == vs[|vs| - 1] && d.size == |vs[|vs| - 1]|
    {
      TopIsLast();
      if size < 5 { return Failed, NO_DATUM; }
      var external, n := data[size - 1] != 0, Read32(data[size - 5..size - 1]);
      var bytes := if external then POINTER_SIZE else n;
      Within(data, size, size - 5, size - 1);
      if bytes + 5 > size { return Failed, NO_DATUM; }
      d := Datum(size - 5 - bytes, n, external);
      err := Ok;
    }

    /** On a stack of encoded values the top datum is the last value. */
    lemma TopIsLast()
      ensures Valid() && vs == [] ==> TopDatum(data[..size]) == None
      ensures Valid() && vs != [] ==> Tops(data[..size], EncAll(vs[..|vs| - 1]), vs[|vs| - 1])
      ensures Valid() && vs != [] ==> var v, n := vs[|vs| - 1], Used(vs[..|vs| - 1]);
        data[..n] == EncAll(vs[..|vs| - 1]) && data[n..n + |v|] == v
    {
      if Valid() && vs != [] {
        TopOfEncoded(vs);
        var v, n := vs[|vs| - 1], Used(vs[..|vs| - 1]);
        Within(data, size, 0, n);
        Within(data, size, n, n + |v|);
      }
    }

    /** Takes the top datum off any bytes; its bytes stay where they were. */
    method PopDatum() returns (err: Err, d: Datum)
      requires size <= data.Length
      modifies this`size
      ensures var top := TopDatum(old(data[..size]));
        if top.None? then err == Failed && size == AfterFailedPop(old(size))
        else err == Ok && d == top.value && size == d.at
    {
      ghost var was := size;
      var ok, flagAt := PopBytes(1);
      if !ok { return Failed, NO_DATUM; }
      var sizeAt: nat;
      ok, sizeAt := PopBytes(4);
      if !ok { return Failed, NO_DATUM; }
      Within(data, was, sizeAt, sizeAt + 4);
      var external, n := data[flagAt] != 0, Read32(data[sizeAt..sizeAt + 4]);
      var at: nat;
      ok, at := PopBytes(if external then POINTER_SIZE else n);
      if !ok { return Failed, NO_DATUM; }
      return Ok, Datum(at, n, external);
    }

    /** The same; a stack of encoded values loses its last one. */
    method Pop() returns (err: Err, d: Datum)
      requires size <= data.Length
      modifies this
      ensures var top := TopDatum(old(data[..size]));
        if top.None? then err == Failed && size == AfterFailedPop(old(size))
        else err == Ok && d == top.value && size == d.at
      ensures old(Valid()) ==> err == if old(vs) == [] then Failed else Ok
      ensures old(Valid()) && err == Ok ==>
        && Valid() && vs == old(vs)[..|old(vs)| - 1] && d.at + d.size + 5 == old(size)
        && data[d.at..d.at + d.size] == old(vs)[|old(vs)| - 1]
    {
      TopIsLast();
      err, d := PopDatum();
      if vs != [] { vs := vs[..|vs| - 1]; }
    }

    /** Takes two values off, the second operand first. */
    method PopPair() returns (err: Err, d0: Datum, d1: Datum)
      requires Valid()
      modifies this
      ensures err == if |old(vs)| < 2 then Failed else Ok
      ensures err == Ok ==> Valid() && vs == old(vs)[..|old(vs)| - 2]
      ensures err == Ok ==> size == d0.at && d0.at + d0.size + d1.size + 10 == old(size)
      ensures err == Ok ==> d1.at + d1.size <= data.Length
      ensures err == Ok ==> data[d0.at..d0.at + d0.size] == old(vs)[|old(vs)| - 2]
      ensures err == Ok ==> data[d1.at..d1.at + d1.size] == old(vs)[|old(vs)| - 1]
    {
      d0 := NO_DATUM;
      err, d1 := Pop();
      if err != Ok { return; }
      err, d0 := Pop();
    }

    /** The six comparisons. */
    method Compare2(op: Op) returns (err: Err)
      requires Valid() && !op.And? && !op.Or? && !op.Not?
      modifies this, data
      ensures err == OpStep(op, old(vs)).err == if |old(vs)| < 2 then Failed else Ok
      ensures err == Ok ==> Valid() && vs == OpStep(op, old(vs)).stack
      ensures err == Ok ==> var n := |old(vs)|;
        vs == old(vs)[..n - 2] + [[if Relates(op, old(vs)[n - 2], old(vs)[n - 1]) then TRUE else FALSE]]
    {
      var d0, d1;
      err, d0, d1 := PopPair();
      if err != Ok { return; }
      var a, b := data[d0.at..d0.at + d0.size], data[d1.at..d1.at + d1.size];
      var res := Test(op, MemCmp(a, b, Min(|a|, |b|)), |a|, |b|);
      TestHolds(op, a, b);
      err := Push(Bool(res));
    }

    /** The two bitwise operators, on operands of one size. */
    method Bitwise(op: Op) returns (err: Err)
      requires Valid() && (op.And? || op.Or?)
      modifies this, data
      ensures err == OpStep(op, old(vs)).err
      ensures err == Ok ==> Valid() && vs == OpStep(op, old(vs)).stack
    {
      var d0, d1;
      err, d0, d1 := PopPair();
      if err != Ok { return; }
      if d0.size != d1.size { return InvalidArg; }
      var res := Bits(op, data[d0.at..d0.at + d0.size], data[d1.at..d1.at + d1.size]);
      assert |res| == d0.size;
      err := Push(res);
    }

    method FlipBytes(at: nat, n: nat)
      requires at + n <= size <= data.Length
      modifies data
      ensures forall k :: 0 <= k < size ==>
        data[..size][k] == if at <= k < at + n then BitNot(old(data[..size])[k]) else old(data[..size])[k]
    {
      for i := 0 to n
        invariant forall k :: 0 <= k < size ==>
          data[k] == if at <= k < at + i then BitNot(old(data[k])) else old(data[k])
      {
        data[at + i] := BitNot(data[at + i]);
      }
    }

    /** Flips the bytes of the top value where they lie. */
    method Not() returns (err: Err)
      requires Valid()
      modifies this`vs, data
      ensures err == OpStep(Op.Not, old(vs)).err
      ensures err == Ok ==> Valid() && vs == OpStep(Op.Not, old(vs)).stack
    {
      var d;
      err, d := Top();
      if err != Ok { return; }
      FlipBytes(d.at, d.size);
      Flipped(vs, data[..size]);
      vs := vs[..|vs| - 1] + [MapNot(vs[|vs| - 1])];
    }

    /** Calls operator `op` on the stack. */
    method Apply(op: Op) returns (err: Err)
      requires Valid()
      modifies this, data
      ensures err == OpStep(op, old(vs)).err
      ensures err == Ok ==> Valid() && vs == OpStep(op, old(vs)).stack
    {
      match op
      case Not => err := Not();
      case And => err := Bitwise(op);
      case Or => err := Bitwise(op);
      case _ => err := Compare2(op);
    }

    /** The top value as a truth value; it must be one byte long. */
    method ResultAsBool() returns (err: Err, res: bool)
      requires Valid()
      ensures err == if vs == [] then Failed else if |vs[|vs| - 1]| != 1 then InvalidType else Ok
      ensures err == Ok ==> res == (vs[|vs| - 1] != Bool(false))
    {
      res := false;
      var d;
      err, d := Top();
      if err != Ok { return; }
      if d.size != 1 { return InvalidType, res; }
      assert data[d.at] == data[d.at..d.at + d.size][0];
      res := data[d.at] != FALSE;
    }

    /** One turn of the loop: the instruction at `ip`, and where the next one starts. */
    method Turn(program: Value, ip: nat, table: seq<Op>, ghost i: Instr) returns (err: Err, next: nat)
      requires Valid() && Encodable(i) && ip <= |program|
      requires EncInstr(i) <= program[ip..]
      modifies this, data
      ensures err == Step(i, table, old(vs), data.Length).err
      ensures err == Ok ==> Valid() && vs == Step(i, table, old(vs), data.Length).stack
      ensures err == Ok ==> next == ip + |EncInstr(i)|
    {
      var q := program[ip..];
      InstrParts(q, i);
      err, next := Ok, ip + 1;
      match q[0] {
        case 0 =>
        case 1 =>
          var n := Read32(q[2..6]);
          next := ip + 6 + n;
          err := Push(q[6..6 + n]);
        case 2 =>
          var id := Read16(q[1..3]);
          next := ip + 3;
          if id >= |table| { return NoImpl, next; }
          err := Apply(table[id]);
        case _ =>
          err := Failed;
      }
    }

    /** One turn, on the way to the outcome of the machine on values. */
    method Advance(program: Value, ip: nat, table: seq<Op>, ghost rest: seq<Instr>, ghost out: Outcome)
      returns (err: Err, next: nat)
      requires Valid() && ip < |program| && program[ip] != END
      requires At(program, ip, rest) && Leads(rest, table, vs, data.Length, out)
      modifies this, data
      ensures err == Ok ==> Valid() && ip < next < |program| && rest != []
      ensures err == Ok ==> At(program, next, rest[1..]) && Leads(rest[1..], table, vs, data.Length, out)
      ensures err != Ok ==> err == out.err
    {
      ghost var behind := AtNext(program, ip, rest);
      LeadsNext(rest, table, vs, data.Length, out);
      err, next := Turn(program, ip, table, rest[0]);
      assert err == Ok ==> next == behind;
    }

    /** Runs a program of instructions `code` and refines the machine on values: same verdict, and
        on success the bytes encode the same stack. */
    method Run(program: Value, table: seq<Op>, ghost code: seq<Instr>) returns (err: Err)
      requires Valid() && Encodes(program, code)
      modifies this, data
      ensures err == Exec(code, table, old(vs), data.Length).err
      ensures err == Ok ==> Valid() && vs == Exec(code, table, old(vs), data.Length).stack
    {
      var ip: nat := 0;
      ghost var rest, out := code, Exec(code, table, vs, data.Length);
      assert program[0..] == program;
      err := Ok;
      while program[ip] != END
        invariant ip < |program| && At(program, ip, rest)
        invariant err == Ok && Valid() && Leads(rest, table, vs, data.Length, out)
        decreases |program| - ip
      {
        err, ip := Advance(program, ip, table, rest, out);
        if err != Ok { return; }
        rest := rest[1..];
      }
      AtEnd(program, ip, rest);
    }
  }

  /** The program `code` starts at `ip`. */
  predicate At(program: Value, ip: nat, code: seq<Instr>) {
    ip <= |program| && Encodes(program[ip..], code)
  }

  predicate Leads(code: seq<Instr>, table: seq<Op>, vs: seq<Value>, cap: nat, out: Outcome) {
    Exec(code, table, vs, cap) == out
  }

  /** The first instruction of the program at `ip`, and the program behind it. */
  lemma AtNext(program: Value, ip: nat, code: seq<Instr>) returns (next: nat)
    requires At(program, ip, code) && ip < |program| && program[ip] != END
    ensures code != [] && Encodable(code[0]) && EncInstr(code[0]) <= program[ip..]
    ensures next == ip + |EncInstr(code[0])| && next < |program| && At(program, next, code[1..])
  {
    var q, n := program[ip..], |EncInstr(code[0])|;
    next := ip + n;
    assert program[next..] == q[n..];
    EncodesSome(q[n..], code[1..]);
  }

  lemma AtEnd(program: Value, ip: nat, code: seq<Instr>)
    requires At(program, ip, code) && ip < |program|
    ensures program[ip] == END <==> code == []
  {
    if code != [] { assert program[ip..][0] == EncInstr(code[0])[0]; }
  }

  lemma EncodesSome(q: Value, code: seq<Instr>)
    requires Encodes(q, code)
    ensures q != []
  {
  }

  lemma LeadsNext(code: seq<Instr>, table: seq<Op>, vs: seq<Value>, cap: nat, out: Outcome)
    requires code != [] && Leads(code, table, vs, cap, out)
    ensures var r := Step(code[0], table, vs, cap);
      if r.err == Ok then Leads(code[1..], table, r.stack, cap, out) else r == out
  {
  }

  /** Constants whose size fits its 4 bytes. */
  predicate SizedConsts(e: Expr) {
    match e
    case Const(v) => Sized(v)
    case Bin(_, l, r) => SizedConsts(l) && SizedConsts(r)
    case Neg(e1) => SizedConsts(e1)
  }

  lemma {:induction false} CodeEncodable(e: Expr)
    requires SizedConsts(e)
    ensures AllEncodable(Code(e))
    decreases e
  {
    match e
    case Const(_) =>
    case Bin(_, l, r) =>
      CodeEncodable(l);
      CodeEncodable(r);
    case Neg(e1) =>
      CodeEncodable(e1);
  }

  /** The bytecode of an expression, run on a byte stack: it returns OK exactly when the expression
      has a value and the stack has room for its evaluation, and then leaves the old bytes plus the
      encoding of that value. */
  method RunExpression(s: ByteStack, e: Expr) returns (err: Err)
    requires s.Valid() && WellFormed(e) && SizedConsts(e)
    modifies s, s.data
    ensures err == Ok <==> Eval(e).Value? && old(s.size) + Room(e) <= s.data.Length
    ensures err == Ok ==> s.Valid() && s.vs == old(s.vs) + [Eval(e).value] && Sized(Eval(e).value)
    ensures err == Ok ==> s.data[..s.size] == old(s.data[..s.size]) + Enc(Eval(e).value)
  {
    CodeEncodable(e);
    ProgramEncodes(Code(e), []);
    assert EncProgram(Code(e)) + [] == EncProgram(Code(e));
    ProgramReturnsValue(e, s.vs, s.data.Length);
    err := s.Run(EncProgram(Code(e)), OPS, Code(e));
    if err == Ok {
      assert s.vs[|s.vs| - 1] == Eval(e).value;
      EncAllPush(old(s.vs), Eval(e).value);
    }
  }

  /** A filter expression decides its truth value. */
  method Decide(s: ByteStack, e: Expr) returns (err: Err, res: bool)
    requires s.Valid() && Logical(e) && WellFormed(e) && SizedConsts(e)
    modifies s, s.data
    ensures err == Ok <==> old(s.size) + Room(e) <= s.data.Length
    ensures err == Ok ==> res == Truth(e)
  {
    LogicalMeansTruth(e);
    res := false;
    err := RunExpression(s, e);
    if err == Ok {
      err, res := s.ResultAsBool();
    }
  }

  /** Flipping the payload bytes of the last value flips that value. */
  lemma Flipped(vs: seq<Value>, now: Value)
    requires AllSized(vs) && vs != [] && |now| == Used(vs)
    requires var was := EncAll(vs); var at := |was| - 5 - |vs[|vs| - 1]|;
      forall k :: 0 <= k < |now| ==> now[k] == if at <= k < |now| - 5 then BitNot(was[k]) else was[k]
    ensures AllSized(vs[..|vs| - 1] + [MapNot(vs[|vs| - 1])])
    ensures now == EncAll(vs[..|vs| - 1] + [MapNot(vs[|vs| - 1])])
  {
    var v := vs[|vs| - 1];
    var below := EncAll(vs[..|vs| - 1]);
    EncAllPush(vs[..|vs| - 1], MapNot(v));
    FlippedParts(below, v, Le32(|v|), now);
    assert below + Enc(v) == below + (v + Le32(|v|) + [0]);
    assert below + Enc(MapNot(v)) == below + (MapNot(v) + Le32(|v|) + [0]);
  }

  lemma FlippedParts(below: Value, v: Value, size: Value, now: Value)
    requires |size| == 4 && |now| == |below| + |v| + 5
    requires var was := below + (v + size + [0]);
      forall k :: 0 <= k < |now| ==> now[k] == if |below| <= k < |now| - 5 then BitNot(was[k]) else was[k]
    ensures now == below + (MapNot(v) + size + [0])
  {
  }

  lemma InstrParts(q: Value, i: Instr)
    requires Encodable(i) && EncInstr(i) <= q
    ensures match i
      case Nop => q[0] == 0
      case Push(v) => q[0] == 1 && |EncInstr(i)| == 6 + |v| && Read32(q[2..6]) == |v| && q[6..6 + |v|] == v
      case Call(id) => q[0] == 2 && |EncInstr(i)| == 3 && Read16(q[1..3]) == id
      case Bad(c) => q[0] == c && 2 < c
  {
    var e := EncInstr(i);
    assert q[0] == e[0];
    match i
    case Push(v) =>
      Le32RoundTrip(|v|);
      assert q[2..6] == e[2..6] == Le32(|v|);
      assert q[6..6 + |v|] == e[6..] == v;
    case Call(id) =>
      assert q[1..3] == e[1..3] == Le16(id);
    case _ =>
  }
}
