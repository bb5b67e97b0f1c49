/**
 The stack machine on values: byte strings on a stack of limited room, instructions, expressions
 and the programs compiled from them. The byte-level machine is proved against this one.
 */
module Vm {
  import opened Bytes

  type Value = seq<Byte>

  datatype Err = Ok | StackOverflow | Failed | InvalidArg | InvalidType | NoImpl

  const TRUE: Byte := 0xFF
  const FALSE: Byte := 0

  datatype Op = Equal | NotEqual | Greater | GreaterOrEqual | Less | LessOrEqual | And | Or | Not

  /** One instruction; `Bad` is any byte that is no opcode. */
  datatype Instr = Nop | Push(value: Value) | Call(id: nat) | Bad(code: Byte)

  // ------------------------------------------------------------------ byte strings

  function Min(a: nat, b: nat): nat { if a < b then a else b }

  /** `memcmp` of the first n bytes. */
  function MemCmp(a: Value, b: Value, n: nat): (r: int)
    requires n <= |a| && n <= |b|
  {
    if n == 0 then 0
    else if a[0] < b[0] then -1
    else if a[0] > b[0] then 1
    else MemCmp(a[1..], b[1..], n - 1)
  }

  /** The order the comparison operators use: bytes first, then length. */
  function Compare(a: Value, b: Value): int {
    var c := MemCmp(a, b, Min(|a|, |b|));
    if c != 0 then c else if |a| < |b| then -1 else if |a| > |b| then 1 else 0
  }

  lemma {:induction false} MemCmpEqual(a: Value, b: Value, n: nat)
    requires n <= |a| && n <= |b|
    ensures MemCmp(a, b, n) == 0 <==> a[..n] == b[..n]
    ensures MemCmp(a, b, n) == -MemCmp(b, a, n)
    decreases n
  {
    if n > 0 {
      MemCmpEqual(a[1..], b[1..], n - 1);
      assert a[..n] == [a[0]] + a[1..][..n - 1] && b[..n] == [b[0]] + b[1..][..n - 1];
    }
  }

  /** Compare is 0 exactly on equal strings and changes sign when its arguments are swapped. */
  lemma CompareOrders(a: Value, b: Value)
    ensures Compare(a, b) == 0 <==> a == b
    ensures Compare(a, b) == -Compare(b, a)
  {
    MemCmpEqual(a, b, Min(|a|, |b|));
    assert a[..|a|] == a && b[..|b|] == b;
  }

  /** First position where the two strings differ decides. */
  lemma {:induction false} CompareTransitive(a: Value, b: Value, c: Value)
    requires Compare(a, b) <= 0 && Compare(b, c) <= 0
    ensures Compare(a, c) <= 0
    decreases |a|
  {
    if a != [] && b != [] && c != [] && a[0] == b[0] == c[0] {
      CompareTransitive(a[1..], b[1..], c[1..]);
    }
  }

  /** At position k, where both agreed before, `a` ends or has the smaller byte. */
  predicate SmallerAt(a: Value, b: Value, k: nat) {
    k <= |a| && k < |b| && a[..k] == b[..k] && (k == |a| || a[k] < b[k])
  }

  /** The lexicographic order of byte strings. */
  ghost predicate Precedes(a: Value, b: Value) { exists k: nat :: SmallerAt(a, b, k) }

  lemma SmallerTail(a: Value, b: Value, k: nat)
    requires k > 0 && SmallerAt(a, b, k)
    ensures a != [] && a[0] == b[0] && SmallerAt(a[1..], b[1..], k - 1)
  {
    assert a[..k][0] == b[..k][0];
    assert a[1..][..k - 1] == a[..k][1..] && b[1..][..k - 1] == b[..k][1..];
  }

  lemma {:induction false} SmallerCompares(a: Value, b: Value, k: nat)
    requires SmallerAt(a, b, k)
    ensures Compare(a, b) < 0
    decreases k
  {
    if k > 0 {
      SmallerTail(a, b, k);
      SmallerCompares(a[1..], b[1..], k - 1);
    }
  }

  /** Two different strings differ somewhere first. */
  lemma {:induction false} DifferAt(a: Value, b: Value) returns (k: nat)
    requires a != b
    ensures SmallerAt(a, b, k) || SmallerAt(b, a, k)
    decreases |a|
  {
    k := 0;
    if a != [] && b != [] && a[0] == b[0] {
      assert a == [a[0]] + a[1..] && b == [b[0]] + b[1..];
      var j := DifferAt(a[1..], b[1..]);
      k := j + 1;
      assert a[..k] == [a[0]] + a[1..][..j] && b[..k] == [b[0]] + b[1..][..j];
    }
  }

  /** The comparison is the lexicographic order. */
  lemma CompareMeans(a: Value, b: Value)
    ensures Compare(a, b) < 0 <==> Precedes(a, b)
    ensures Compare(a, b) > 0 <==> Precedes(b, a)
  {
    CompareOrders(a, b);
    if Precedes(a, b) { var k: nat :| SmallerAt(a, b, k); SmallerCompares(a, b, k); }
    if Precedes(b, a) { var k: nat :| SmallerAt(b, a, k); SmallerCompares(b, a, k); }
    if a != b { var k := DifferAt(a, b); }
  }

  /** Bit i of a number, counted from the least significant one. */
  predicate Bit(x: nat, i: nat)
    decreases i
  {
    if i == 0 then x % 2 == 1 else Bit(x / 2, i - 1)
  }

  function Pow2(k: nat): nat { if k == 0 then 1 else 2 * Pow2(k - 1) }

  /** The bits that both numbers have. */
  function BothBits(x: nat, y: nat): (z: nat)
    ensures z <= x
  {
    if x == 0 then 0
    else (if x % 2 == 1 && y % 2 == 1 then 1 else 0) + 2 * BothBits(x / 2, y / 2)
  }

  /** The bits that at least one number has. */
  function AnyBits(x: nat, y: nat): nat
    decreases x + y
  {
    if x == 0 && y == 0 then 0
    else (if x % 2 == 1 || y % 2 == 1 then 1 else 0) + 2 * AnyBits(x / 2, y / 2)
  }

  lemma {:induction false} AnyBitsBelow(x: nat, y: nat, k: nat)
    requires x < Pow2(k) && y < Pow2(k)
    ensures AnyBits(x, y) < Pow2(k)
    decreases k
  {
    if k > 0 { AnyBitsBelow(x / 2, y / 2, k - 1); }
  }

  function BitAnd(x: Byte, y: Byte): Byte { BothBits(x, y) }

  function BitOr(x: Byte, y: Byte): Byte {
    AnyBitsBelow(x, y, 8);
    AnyBits(x, y)
  }

  function BitNot(x: Byte): Byte { 255 - x }

  lemma {:induction false} BothBitsAt(x: nat, y: nat, i: nat)
    ensures Bit(BothBits(x, y), i) <==> Bit(x, i) && Bit(y, i)
    decreases i
  {
    if x == 0 {
      ZeroBits(i);
    } else if i > 0 {
      BothBitsAt(x / 2, y / 2, i - 1);
    }
  }

  lemma {:induction false} ZeroBits(i: nat)
    ensures !Bit(0, i)
    decreases i
  {
    if i > 0 { ZeroBits(i - 1); }
  }

  lemma {:induction false} AnyBitsAt(x: nat, y: nat, i: nat)
    ensures Bit(AnyBits(x, y), i) <==> Bit(x, i) || Bit(y, i)
    decreases i
  {
    if x == 0 && y == 0 {
      ZeroBits(i);
    } else if i > 0 {
      AnyBitsAt(x / 2, y / 2, i - 1);
    }
  }

  lemma {:induction false} FlippedBitsAt(x: nat, k: nat, i: nat)
    requires x < Pow2(k) && i < k
    ensures Bit(Pow2(k) - 1 - x, i) <==> !Bit(x, i)
    decreases i
  {
    if i > 0 {
      FlippedBitsAt(x / 2, k - 1, i - 1);
      assert (Pow2(k) - 1 - x) / 2 == Pow2(k - 1) - 1 - x / 2;
    }
  }

  /** The three operators on bytes, bit by bit. */
  lemma BitByBit(x: Byte, y: Byte, i: nat)
    requires i < 8
    ensures Bit(BitAnd(x, y), i) <==> Bit(x, i) && Bit(y, i)
    ensures Bit(BitOr(x, y), i) <==> Bit(x, i) || Bit(y, i)
    ensures Bit(BitNot(x), i) <==> !Bit(x, i)
  {
    BothBitsAt(x, y, i);
    AnyBitsAt(x, y, i);
    assert Pow2(8) == 256;
    FlippedBitsAt(x, 8, i);
  }

  function MapAnd(a: Value, b: Value): (r: Value)
    requires |a| == |b|
    ensures |r| == |a|
  {
    seq(|a|, i requires 0 <= i < |a| => BitAnd(a[i], b[i]))
  }

  function MapOr(a: Value, b: Value): (r: Value)
    requires |a| == |b|
    ensures |r| == |a|
  {
    seq(|a|, i requires 0 <= i < |a| => BitOr(a[i], b[i]))
  }

  function MapNot(a: Value): (r: Value)
    ensures |r| == |a|
  {
    seq(|a|, i requires 0 <= i < |a| => BitNot(a[i]))
  }

  function Bool(b: bool): Value { [if b then TRUE else FALSE] }

  predicate Holds(op: Op, a: Value, b: Value)
    requires !op.And? && !op.Or? && !op.Not?
  {
    match op
    case Equal => a == b
    case NotEqual => a != b
    case Greater => Compare(a, b) > 0
    case GreaterOrEqual => Compare(a, b) >= 0
    case Less => Compare(a, b) < 0
    case LessOrEqual => Compare(a, b) <= 0
  }

  // ------------------------------------------------------------------ the machine on values

  datatype Outcome = Outcome(err: Err, stack: seq<Value>)

  /** Bytes an encoded stack takes: payload, 4 bytes of size, 1 byte of flag per value. */
  function Used(vs: seq<Value>): nat {
    if vs == [] then 0 else Used(vs[..|vs| - 1]) + |vs[|vs| - 1]| + 5
  }

  /** The result of a binary operator on values. */
  function Binary(op: Op, a: Value, b: Value): (Err, Value)
    requires !op.Not?
  {
    if (op.And? || op.Or?) && |a| != |b| then (InvalidArg, [])
    else if op.And? then (Ok, MapAnd(a, b))
    else if op.Or? then (Ok, MapOr(a, b))
    else (Ok, Bool(Holds(op, a, b)))
  }

  /** An operator on the stack. On an error the stack is of no further interest. */
  function OpStep(op: Op, vs: seq<Value>): Outcome {
    var n := |vs|;
    if op.Not? then
      if n == 0 then Outcome(Failed, vs) else Outcome(Ok, vs[..n - 1] + [MapNot(vs[n - 1])])
    else if n < 2 then Outcome(Failed, vs)
    else
      var (err, r) := Binary(op, vs[n - 2], vs[n - 1]);
      if err == Ok then Outcome(Ok, vs[..n - 2] + [r]) else Outcome(err, vs)
  }

  /** What a comparison is to answer, said by the order of the strings. */
  ghost predicate Relates(op: Op, a: Value, b: Value)
    requires !op.And? && !op.Or? && !op.Not?
  {
    match op
    case Equal => a == b
    case NotEqual => a != b
    case Greater => Precedes(b, a)
    case GreaterOrEqual => !Precedes(a, b)
    case Less => Precedes(a, b)
    case LessOrEqual => !Precedes(b, a)
  }

  lemma HoldsMeans(op: Op, a: Value, b: Value)
    requires !op.And? && !op.Or? && !op.Not?
    ensures Holds(op, a, b) <==> Relates(op, a, b)
  {
    CompareMeans(a, b);
  }

  /** A comparison replaces its operands, the first one pushed on the left, by its answer. */
  lemma ComparisonMeans(op: Op, vs: seq<Value>, a: Value, b: Value)
    requires !op.And? && !op.Or? && !op.Not?
    ensures OpStep(op, vs + [a] + [b]) == Outcome(Ok, vs + [[if Relates(op, a, b) then TRUE else FALSE]])
  {
    var stack := vs + [a] + [b];
    assert stack[..|vs|] == vs && stack[|vs|] == a && stack[|vs| + 1] == b;
    HoldsMeans(op, a, b);
  }

  /** `and`, `or` and `not` work on every bit of every byte. */
  lemma BitwiseMeans(vs: seq<Value>, a: Value, b: Value, j: nat, i: nat)
    requires |a| == |b| && j < |b| && i < 8
    ensures var r := OpStep(And, vs + [a] + [b]);
      r.err == Ok && |r.stack| == |vs| + 1 && r.stack[..|vs|] == vs && |r.stack[|vs|]| == |a|
      && (Bit(r.stack[|vs|][j], i) <==> Bit(a[j], i) && Bit(b[j], i))
    ensures var r := OpStep(Or, vs + [a] + [b]);
      r.err == Ok && |r.stack| == |vs| + 1 && r.stack[..|vs|] == vs && |r.stack[|vs|]| == |a|
      && (Bit(r.stack[|vs|][j], i) <==> Bit(a[j], i) || Bit(b[j], i))
    ensures var r := OpStep(Not, vs + [b]);
      r.err == Ok && |r.stack| == |vs| + 1 && r.stack[..|vs|] == vs && |r.stack[|vs|]| == |b|
      && (Bit(r.stack[|vs|][j], i) <==> !Bit(b[j], i))
  {
    BitByBit(a[j], b[j], i);
    BitByBit(b[j], b[j], i);
    BinaryOnTop(And, vs, a, b);
    BinaryOnTop(Or, vs, a, b);
    NotOnTop(vs, b);
  }

  function PushStep(v: Value, vs: seq<Value>, cap: nat): Outcome {
    if Used(vs) + |v| + 5 <= cap then Outcome(Ok, vs + [v]) else Outcome(StackOverflow, vs)
  }

  function Step(i: Instr, table: seq<Op>, vs: seq<Value>, cap: nat): Outcome {
    match i
    case Nop => Outcome(Ok, vs)
    case Push(v) => PushStep(v, vs, cap)
    case Call(id) => if id >= |table| then Outcome(NoImpl, vs) else OpStep(table[id], vs)
    case Bad(_) => Outcome(Failed, vs)
  }

  /** The errors of one instruction, each with its exact cause. */
  lemma StepErrors(i: Instr, table: seq<Op>, vs: seq<Value>, cap: nat)
    ensures var err, n := Step(i, table, vs, cap).err, |vs|;
      && (err == StackOverflow <==> i.Push? && Used(vs) + |i.value| + 5 > cap)
      && (err == NoImpl <==> i.Call? && i.id >= |table|)
      && (err == Failed <==> i.Bad? || (i.Call? && i.id < |table| && n < if table[i.id].Not? then 1 else 2))
      && (err == InvalidArg <==>
            i.Call? && i.id < |table| && (table[i.id].And? || table[i.id].Or?) && n >= 2 && |vs[n - 2]| != |vs[n - 1]|)
      && err != InvalidType
  {
  }

  /** A whole program, up to its END or its first error. */
  function Exec(code: seq<Instr>, table: seq<Op>, vs: seq<Value>, cap: nat): Outcome
    decreases |code|
  {
    if code == [] then Outcome(Ok, vs) else
    var r := Step(code[0], table, vs, cap);
    if r.err != Ok then r else Exec(code[1..], table, r.stack, cap)
  }

  // ------------------------------------------------------------------ expressions

  datatype Expr = Const(value: Value) | Bin(op: Op, l: Expr, r: Expr) | Neg(e: Expr)

  /** The operators as the machine's function table. */
  const OPS: seq<Op> := [Equal, NotEqual, Greater, GreaterOrEqual, Less, LessOrEqual, And, Or, Not]

  function OpId(op: Op): (id: nat)
    ensures id < |OPS| && OPS[id] == op
  {
    match op
    case Equal => 0 case NotEqual => 1 case Greater => 2 case GreaterOrEqual => 3 case Less => 4
    case LessOrEqual => 5 case And => 6 case Or => 7 case Not => 8
  }

  /** `Not` is unary, everything else joins two expressions. */
  predicate WellFormed(e: Expr) {
    match e
    case Const(_) => true
    case Bin(op, l, r) => !op.Not? && WellFormed(l) && WellFormed(r)
    case Neg(e1) => WellFormed(e1)
  }

  /** Postfix code. */
  function Code(e: Expr): seq<Instr> {
    match e
    case Const(v) => [Push(v)]
    case Bin(op, l, r) => Code(l) + (Code(r) + [Call(OpId(op))])
    case Neg(e1) => Code(e1) + [Call(OpId(Not))]
  }

  datatype Result = Value(value: Value) | Error(err: Err)

  /** The result of a binary operator on the results of its operands: the first error, if any. */
  function BinResult(op: Op, a: Result, b: Result): Result
    requires !op.Not?
  {
    if a.Error? then a
    else if b.Error? then b
    else
      var (err, v) := Binary(op, a.value, b.value);
      if err == Ok then Value(v) else Error(err)
  }

  /** The value of an expression; bitwise operators on strings of different length have none. */
  function Eval(e: Expr): Result
    requires WellFormed(e)
  {
    match e
    case Const(v) => Value(v)
    case Bin(op, l, r) => BinResult(op, Eval(l), Eval(r))
    case Neg(e1) =>
      var a := Eval(e1);
      if a.Error? then a else Value(MapNot(a.value))
  }

  /** The same with `used` bytes of `cap` already taken: what the machine does with the room. */
  function EvalIn(e: Expr, used: nat, cap: nat): Result
    requires WellFormed(e)
  {
    match e
    case Const(v) => if used + |v| + 5 <= cap then Value(v) else Error(StackOverflow)
    case Bin(op, l, r) =>
      var a := EvalIn(l, used, cap);
      if a.Error? then a else BinResult(op, a, EvalIn(r, used + |a.value| + 5, cap))
    case Neg(e1) =>
      var a := EvalIn(e1, used, cap);
      if a.Error? then a else Value(MapNot(a.value))
  }

  lemma UsedPush(vs: seq<Value>, v: Value)
    ensures Used(vs + [v]) == Used(vs) + |v| + 5
  {
    assert (vs + [v])[..|vs|] == vs;
  }

  /** Running one piece of code after another; the second is not run after an error. */
  function Then(r: Outcome, code: seq<Instr>, cap: nat): Outcome {
    if r.err != Ok then r else Exec(code, OPS, r.stack, cap)
  }

  lemma {:induction false} ExecAppend(xs: seq<Instr>, ys: seq<Instr>, vs: seq<Value>, cap: nat)
    ensures Exec(xs + ys, OPS, vs, cap) == Then(Exec(xs, OPS, vs, cap), ys, cap)
    decreases |xs|
  {
    if xs == [] {
      assert xs + ys == ys;
    } else {
      assert (xs + ys)[1..] == xs[1..] + ys;
      var r := Step(xs[0], OPS, vs, cap);
      if r.err == Ok { ExecAppend(xs[1..], ys, r.stack, cap); }
    }
  }

  lemma ExecCall(op: Op, vs: seq<Value>, cap: nat)
    ensures Exec([Call(OpId(op))], OPS, vs, cap) == OpStep(op, vs)
  {
    var code := [Call(OpId(op))];
    assert code[1..] == [] && Step(code[0], OPS, vs, cap) == OpStep(op, vs);
    var r := OpStep(op, vs);
    assert r.err == Ok ==> Exec([], OPS, r.stack, cap) == r;
  }

  lemma BinaryOnTop(op: Op, vs: seq<Value>, a: Value, b: Value)
    requires !op.Not?
    ensures OpStep(op, vs + [a] + [b]).err == Binary(op, a, b).0
    ensures Binary(op, a, b).0 == Ok ==> OpStep(op, vs + [a] + [b]).stack == vs + [Binary(op, a, b).1]
  {
    var stack := vs + [a] + [b];
    assert stack[..|vs|] == vs && stack[|vs|] == a && stack[|vs| + 1] == b;
  }

  lemma NotOnTop(vs: seq<Value>, a: Value)
    ensures OpStep(Not, vs + [a]) == Outcome(Ok, vs + [MapNot(a)])
  {
    assert (vs + [a])[..|vs|] == vs;
  }

  /** What a run from `vs` leaves when evaluation gives `r`. */
  predicate Leaves(run: Outcome, vs: seq<Value>, r: Result) {
    match r
    case Value(v) => run == Outcome(Ok, vs + [v])
    case Error(err) => err != Ok && run.err == err
  }

  /** VM evaluation: running the postfix code of an expression does exactly what evaluating it
      does: on success its value is pushed on the old stack, on failure the run stops with the
      same error. */
  lemma {:induction false} CodeEvaluates(e: Expr, vs: seq<Value>, cap: nat)
    requires WellFormed(e)
    ensures Leaves(Exec(Code(e), OPS, vs, cap), vs, EvalIn(e, Used(vs), cap))
    decreases e
  {
    match e
    case Const(v) =>
      assert [Push(v)][1..] == [];
      assert Exec([], OPS, vs + [v], cap) == Outcome(Ok, vs + [v]);
    case Bin(op, l, r) =>
      CodeEvaluates(l, vs, cap);
      var a := EvalIn(l, Used(vs), cap);
      if a.Value? {
        UsedPush(vs, a.value);
        CodeEvaluates(r, vs + [a.value], cap);
      }
      BinEvaluates(e, vs, cap);
    case Neg(e1) =>
      CodeEvaluates(e1, vs, cap);
      ExecAppend(Code(e1), [Call(OpId(Not))], vs, cap);
      var a := EvalIn(e1, Used(vs), cap);
      if a.Value? {
        ExecCall(Not, vs + [a.value], cap);
        NotOnTop(vs, a.value);
      }
  }

  /** Two pieces of code and an operator behind them. */
  lemma BinRuns(l: seq<Instr>, r: seq<Instr>, op: Op, vs: seq<Value>, cap: nat)
    ensures var x := Exec(l, OPS, vs, cap); var y := Exec(r, OPS, x.stack, cap);
      Exec(l + (r + [Call(OpId(op))]), OPS, vs, cap) ==
      if x.err != Ok then x else if y.err != Ok then y else OpStep(op, y.stack)
  {
    var call := [Call(OpId(op))];
    var x := Exec(l, OPS, vs, cap);
    var y := Exec(r, OPS, x.stack, cap);
    ExecAppend(l, r + call, vs, cap);
    ExecAppend(r, call, x.stack, cap);
    ExecCall(op, y.stack, cap);
  }

  /** What the operator leaves, from what its operands left. */
  lemma BinLeaves(op: Op, vs: seq<Value>, x: Outcome, a: Result, y: Outcome, b: Result, out: Outcome)
    requires !op.Not? && Leaves(x, vs, a) && (a.Value? ==> Leaves(y, vs + [a.value], b))
    requires out == if x.err != Ok then x else if y.err != Ok then y else OpStep(op, y.stack)
    ensures Leaves(out, vs, BinResult(op, a, b))
  {
    if a.Value? && b.Value? { BinaryOnTop(op, vs, a.value, b.value); }
  }

  lemma BinCode(op: Op, l: seq<Instr>, r: seq<Instr>, vs: seq<Value>, cap: nat, a: Result, b: Result)
    requires !op.Not? && Leaves(Exec(l, OPS, vs, cap), vs, a)
    requires a.Value? ==> Leaves(Exec(r, OPS, vs + [a.value], cap), vs + [a.value], b)
    ensures Leaves(Exec(l + (r + [Call(OpId(op))]), OPS, vs, cap), vs, BinResult(op, a, b))
  {
    var x := Exec(l, OPS, vs, cap);
    BinRuns(l, r, op, vs, cap);
    BinLeaves(op, vs, x, a, Exec(r, OPS, x.stack, cap), b, Exec(l + (r + [Call(OpId(op))]), OPS, vs, cap));
  }

  /** A binary expression from its two halves. */
  lemma BinEvaluates(e: Expr, vs: seq<Value>, cap: nat)
    requires WellFormed(e) && e.Bin?
    requires Leaves(Exec(Code(e.l), OPS, vs, cap), vs, EvalIn(e.l, Used(vs), cap))
    requires var a := EvalIn(e.l, Used(vs), cap); a.Value? ==>
      Leaves(Exec(Code(e.r), OPS, vs + [a.value], cap), vs + [a.value], EvalIn(e.r, Used(vs) + |a.value| + 5, cap))
    ensures Leaves(Exec(Code(e), OPS, vs, cap), vs, EvalIn(e, Used(vs), cap))
  {
    var a := EvalIn(e.l, Used(vs), cap);
    var b := if a.Value? then EvalIn(e.r, Used(vs) + |a.value| + 5, cap) else a;
    BinCode(e.op, Code(e.l), Code(e.r), vs, cap, a, b);
  }

  /** Room an expression needs on the stack while it is evaluated. */
  function Room(e: Expr): nat
    requires WellFormed(e)
  {
    match e
    case Const(v) => |v| + 5
    case Bin(_, l, r) =>
      var below := if Eval(l).Value? then |Eval(l).value| + 5 + Room(r) else 0;
      if Room(l) < below then below else Room(l)
    case Neg(e1) => Room(e1)
  }

  /** Evaluation succeeds exactly when the expression has a value and its room fits, and then the
      room does not change the value. */
  lemma {:induction false} EvalInIff(e: Expr, used: nat, cap: nat)
    requires WellFormed(e)
    ensures EvalIn(e, used, cap).Value? <==> Eval(e).Value? && used + Room(e) <= cap
    ensures EvalIn(e, used, cap).Value? ==> EvalIn(e, used, cap) == Eval(e)
    decreases e
  {
    match e
    case Const(_) =>
    case Bin(op, l, r) =>
      EvalInIff(l, used, cap);
      if Eval(l).Value? { EvalInIff(r, used + |Eval(l).value| + 5, cap); }
    case Neg(e1) => EvalInIff(e1, used, cap);
  }

  /** A program made of one expression returns OK exactly when the expression has a value and the
      stack has room for it, and then leaves the old stack plus that value. */
  lemma ProgramReturnsValue(e: Expr, vs: seq<Value>, cap: nat)
    requires WellFormed(e)
    ensures Exec(Code(e), OPS, vs, cap).err == Ok <==> Eval(e).Value? && Used(vs) + Room(e) <= cap
    ensures Exec(Code(e), OPS, vs, cap).err == Ok ==> Exec(Code(e), OPS, vs, cap).stack == vs + [Eval(e).value]
  {
    CodeEvaluates(e, vs, cap);
    EvalInIff(e, Used(vs), cap);
  }

  // ------------------------------------------------------------------ truth

  /** Comparisons of expressions that have values, joined by the bitwise operators. */
  predicate Logical(e: Expr) {
    match e
    case Const(v) => v == Bool(true) || v == Bool(false)
    case Bin(op, l, r) =>
      !op.Not? && if op.And? || op.Or? then Logical(l) && Logical(r)
                  else WellFormed(l) && WellFormed(r) && Eval(l).Value? && Eval(r).Value?
    case Neg(e1) => Logical(e1)
  }

  ghost predicate Truth(e: Expr)
    requires Logical(e)
  {
    match e
    case Const(v) => v == Bool(true)
    case Bin(op, l, r) =>
      if op.And? then Truth(l) && Truth(r)
      else if op.Or? then Truth(l) || Truth(r)
      else Relates(op, Eval(l).value, Eval(r).value)
    case Neg(e1) => !Truth(e1)
  }

  lemma {:induction false} SameBits(x: nat)
    ensures BothBits(x, x) == x && AnyBits(x, x) == x
    ensures BothBits(x, 0) == 0 && AnyBits(x, 0) == x && AnyBits(0, x) == x
  {
    if x > 0 { SameBits(x / 2); }
  }

  lemma BitsOfBooleans()
    ensures BitAnd(TRUE, TRUE) == TRUE && BitAnd(TRUE, FALSE) == BitAnd(FALSE, TRUE) == BitAnd(FALSE, FALSE) == FALSE
    ensures BitOr(FALSE, FALSE) == FALSE && BitOr(TRUE, FALSE) == BitOr(FALSE, TRUE) == BitOr(TRUE, TRUE) == TRUE
  {
    SameBits(TRUE);
    SameBits(FALSE);
  }

  /** The operators on one-byte strings. */
  lemma SingleBytes(x: Byte, y: Byte)
    ensures MapAnd([x], [y]) == [BitAnd(x, y)] && MapOr([x], [y]) == [BitOr(x, y)] && MapNot([x]) == [BitNot(x)]
  {
  }

  lemma TruthValues(p: bool, q: bool)
    ensures MapAnd(Bool(p), Bool(q)) == Bool(p && q) && MapOr(Bool(p), Bool(q)) == Bool(p || q)
    ensures MapNot(Bool(p)) == Bool(!p)
  {
    BitsOfBooleans();
    SingleBytes(if p then TRUE else FALSE, if q then TRUE else FALSE);
  }

  /** On truth values the byte operators are the logical ones. */
  lemma {:induction false} LogicalMeansTruth(e: Expr)
    requires Logical(e)
    ensures WellFormed(e) && Eval(e) == Value(Bool(Truth(e)))
    decreases e
  {
    match e
    case Const(_) =>
    case Bin(op, l, r) =>
      if op.And? || op.Or? {
        LogicalMeansTruth(l);
        LogicalMeansTruth(r);
        TruthValues(Truth(l), Truth(r));
      } else {
        HoldsMeans(op, Eval(l).value, Eval(r).value);
      }
    case Neg(e1) =>
      LogicalMeansTruth(e1);
      TruthValues(Truth(e1), true);
  }
}
