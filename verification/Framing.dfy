/**
 Message framing: writers that share a descriptor under a mutex, a byte stream cut into arbitrary
 pieces, and a reader that resumes where it stopped.
 */
module Framing {
  import opened Common
  import opened Bytes

  const HDR: nat := 8
  const MSG_SIZE_MAX: nat := 104857600

  datatype Msg = Msg(id: nat, number: nat, payload: seq<Byte>)

  datatype Err = Ok | Again | Closed | Failed

  /** Header fields fit their width. */
  predicate Fits(m: Msg) { m.id < 65536 && m.number < 65536 && |m.payload| < LIMIT32 }

  predicate Sendable(m: Msg) { Fits(m) && |m.payload| <= MSG_SIZE_MAX }

  // ------------------------------------------------------------------ the wire format

  function Header(m: Msg): (b: seq<Byte>)
    requires Fits(m)
    ensures |b| == HDR
  {
    Be16(m.id) + Be16(m.number) + Be32(|m.payload|)
  }

  function Enc(m: Msg): (b: seq<Byte>)
    requires Fits(m)
    ensures |b| == HDR + |m.payload|
  {
    Header(m) + m.payload
  }

  predicate AllSendable(ms: seq<Msg>) { forall i :: 0 <= i < |ms| ==> Sendable(ms[i]) }

  function EncAll(ms: seq<Msg>): seq<Byte>
    requires AllSendable(ms)
  {
    if ms == [] then [] else Enc(ms[0]) + EncAll(ms[1..])
  }

  function SizeOf(h: seq<Byte>): (n: nat)
    requires |h| == HDR
    ensures n < LIMIT32
  {
    ReadBe32(h[4..])
  }

  function MsgOf(h: seq<Byte>, payload: seq<Byte>): Msg
    requires |h| == HDR
  {
    Msg(ReadBe16(h[..2]), ReadBe16(h[2..4]), payload)
  }

  /** The eight bytes of a header, the most significant byte of each field first. */
  lemma HeaderBytes(m: Msg)
    requires Fits(m)
    ensures var h := Header(m);
      && m.id == 0x100 * h[0] as nat + h[1] as nat
      && m.number == 0x100 * h[2] as nat + h[3] as nat
      && |m.payload| == 0x1000000 * h[4] as nat + 0x10000 * h[5] as nat + 0x100 * h[6] as nat + h[7] as nat
  {
    Be16RoundTrip(m.id);
    Be16RoundTrip(m.number);
    Le32RoundTrip(|m.payload|);
    var h, l := Header(m), Le32(|m.payload|);
    assert h[..2] == Be16(m.id) && h[2..4] == Be16(m.number) && h[4..] == [l[3], l[2], l[1], l[0]];
    assert h[4] == h[4..][0] && h[5] == h[4..][1] && h[6] == h[4..][2] && h[7] == h[4..][3];
  }

  lemma HeaderRead(m: Msg)
    requires Fits(m)
    ensures SizeOf(Header(m)) == |m.payload| && MsgOf(Header(m), m.payload) == m
  {
    Be16RoundTrip(m.id);
    Be16RoundTrip(m.number);
    Be32RoundTrip(|m.payload|);
    var h := Header(m);
    assert h[..2] == Be16(m.id) && h[2..4] == Be16(m.number) && h[4..] == Be32(|m.payload|);
  }

  // ------------------------------------------------------------------ receiving a message

  /** What is kept between two reads: no whole message, and no header over the limit. */
  predicate Unfinished(part: seq<Byte>) {
    |part| >= HDR ==> SizeOf(part[..HDR]) <= MSG_SIZE_MAX && |part| < HDR + SizeOf(part[..HDR])
  }

  /** Bytes the unfinished message needs: the rest of its header or of its payload. Reads never ask
      for more. */
  function Need(part: seq<Byte>): nat
    requires Unfinished(part)
  {
    if |part| < HDR then HDR - |part| else HDR + SizeOf(part[..HDR]) - |part|
  }

  /** A message that is all there, and the bytes kept for an unfinished one. */
  datatype Cut = Cut(msgs: seq<Msg>, part: seq<Byte>)

  /** What to make of the bytes received for one message: they are kept, or they are the message. A
      header with a size over the limit is thrown away. */
  function Whole(b: seq<Byte>): (c: Cut)
    ensures Unfinished(c.part)
  {
    if |b| < HDR then Cut([], b)
    else if SizeOf(b[..HDR]) > MSG_SIZE_MAX then Cut([], [])
    else if |b| < HDR + SizeOf(b[..HDR]) then Cut([], b)
    else Cut([MsgOf(b[..HDR], b[HDR..])], [])
  }

  /** The first bytes of a stream that starts with m tell the header of m. */
  lemma FirstHeader(m: Msg, rest: seq<Byte>, b: seq<Byte>, more: seq<Byte>)
    requires Sendable(m) && b + more == Enc(m) + rest && |b| >= HDR
    ensures b[..HDR] == Header(m) && SizeOf(b[..HDR]) == |m.payload|
  {
    HeaderRead(m);
    assert b[..HDR] == (b + more)[..HDR];
    assert (Enc(m) + rest)[..HDR] == Header(m);
  }

  /** The first bytes of a stream that starts with m are kept until they are exactly m. */
  lemma WholeMsg(m: Msg, rest: seq<Byte>, b: seq<Byte>, more: seq<Byte>)
    requires Sendable(m) && b + more == Enc(m) + rest && |b| <= |Enc(m)|
    ensures Whole(b) == if |b| < |Enc(m)| then Cut([], b) else Cut([m], [])
    ensures |b| == |Enc(m)| ==> more == rest
  {
    if |b| >= HDR { FirstHeader(m, rest, b, more); }
    if |b| == |Enc(m)| {
      SplitAt(b, more, Enc(m), rest);
      HeaderRead(m);
      assert b[HDR..] == m.payload;
    }
  }

  lemma SplitAt<T>(a: seq<T>, b: seq<T>, c: seq<T>, d: seq<T>)
    requires a + b == c + d && |a| == |c|
    ensures a == c && b == d
  {
    assert a == (a + b)[..|a|] && c == (c + d)[..|c|];
    assert b == (a + b)[|a|..] && d == (c + d)[|c|..];
  }

  /** A read of the needed bytes stays within the message. */
  lemma NeedWithin(m: Msg, rest: seq<Byte>, part: seq<Byte>, more: seq<Byte>)
    requires Sendable(m) && part + more == Enc(m) + rest && Unfinished(part)
    ensures |part| + Need(part) <= |Enc(m)|
  {
    if |part| >= HDR { FirstHeader(m, rest, part, more); }
  }

  // ------------------------------------------------------------------ all interleavings

  /** The message under way: how many of its bytes the holder of the mutex has written. */
  datatype Writing = Writing(msg: Msg, pos: nat)

  /** `order` are the messages in the order their writers took the mutex, `unread` the bytes written
      and not read yet. */
  datatype State = State(order: seq<Msg>, writing: Option<Writing>, unread: seq<Byte>,
                         part: seq<Byte>, delivered: seq<Msg>)

  datatype Action =
    | Lock(msg: Msg)      // a writer takes the mutex; a message over the limit is refused
    | Write(n: nat)       // a partial write
    | Unlock              // the whole message is written
    | Read(n: nat)        // a partial read
    | Pause               // EAGAIN on either side

  const INIT := State([], None, [], [], [])

  /** The bytes still to be written by the holder of the mutex. */
  function Todo(s: State): seq<Byte> {
    if s.writing.Some? && Fits(s.writing.value.msg) && s.writing.value.pos <= |Enc(s.writing.value.msg)|
    then Enc(s.writing.value.msg)[s.writing.value.pos..] else []
  }

  predicate Enabled(s: State, a: Action) {
    match a
    case Lock(msg) => s.writing.None? && Fits(msg)
    case Write(n) => s.writing.Some? && 0 < n <= |Todo(s)|
    case Unlock => s.writing.Some? && Todo(s) == []
    case Read(n) => Unfinished(s.part) && 0 < n <= Need(s.part) && n <= |s.unread|
    case Pause => true
  }

  function Step(s: State, a: Action): State
    requires Enabled(s, a)
  {
    match a
    case Lock(msg) =>
      if |msg.payload| > MSG_SIZE_MAX then s else s.(order := s.order + [msg], writing := Some(Writing(msg, 0)))
    case Write(n) =>
      var w := s.writing.value;
      s.(unread := s.unread + Todo(s)[..n], writing := Some(Writing(w.msg, w.pos + n)))
    case Unlock => s.(writing := None)
    case Read(n) =>
      var c := Whole(s.part + s.unread[..n]);
      s.(unread := s.unread[n..], part := c.part, delivered := s.delivered + c.msgs)
    case Pause => s
  }

  /** The state after a run; none when a step was not possible. */
  function Run(acts: seq<Action>): Option<State> {
    if acts == [] then Some(INIT) else
    var s := Run(acts[..|acts| - 1]);
    if s.Some? && Enabled(s.value, acts[|acts| - 1]) then Some(Step(s.value, acts[|acts| - 1])) else None
  }

  /** Messages whose writers took the mutex and that are not delivered. */
  function Pending(s: State): seq<Msg>
    requires s.delivered <= s.order
  {
    s.order[|s.delivered|..]
  }

  /** What was delivered is the first messages in order; the bytes kept, the bytes unread and the
      bytes to be written are the others. */
  ghost predicate Inv(s: State) {
    && AllSendable(s.order) && s.delivered <= s.order
    && (s.writing.Some? ==> Sendable(s.writing.value.msg) && s.writing.value.pos <= |Enc(s.writing.value.msg)|)
    && Unfinished(s.part)
    && s.part + s.unread + Todo(s) == EncAll(Pending(s))
  }

  lemma Assoc(a: seq<Byte>, b: seq<Byte>, c: seq<Byte>)
    ensures a + (b + c) == a + b + c
  {
  }

  lemma {:induction false} EncAllMore(ms: seq<Msg>, m: Msg)
    requires AllSendable(ms) && Sendable(m)
    ensures AllSendable(ms + [m]) && EncAll(ms + [m]) == EncAll(ms) + Enc(m)
    decreases |ms|
  {
    if ms == [] {
      assert [m][1..] == [];
    } else {
      EncAllMore(ms[1..], m);
      assert (ms + [m])[1..] == ms[1..] + [m];
      Assoc(Enc(ms[0]), EncAll(ms[1..]), Enc(m));
    }
  }

  lemma LockInv(s: State, msg: Msg)
    requires Inv(s) && Enabled(s, Lock(msg))
    ensures Inv(Step(s, Lock(msg)))
  {
    if |msg.payload| <= MSG_SIZE_MAX {
      PendingMore(s.delivered, s.order, msg);
      AllSendableMore(s.order, msg);
      BytesMore(s.part + s.unread, Pending(s), msg);
    }
  }

  lemma BytesMore(bytes: seq<Byte>, pending: seq<Msg>, msg: Msg)
    requires AllSendable(pending) && Sendable(msg) && bytes + [] == EncAll(pending)
    ensures AllSendable(pending + [msg]) && bytes + Enc(msg)[0..] == EncAll(pending + [msg])
  {
    assert bytes + [] == bytes && Enc(msg)[0..] == Enc(msg);
    EncAllMore(pending, msg);
  }

  lemma PendingMore(delivered: seq<Msg>, order: seq<Msg>, msg: Msg)
    requires delivered <= order
    ensures delivered <= order + [msg] && (order + [msg])[|delivered|..] == order[|delivered|..] + [msg]
  {
  }

  lemma AllSendableMore(ms: seq<Msg>, m: Msg)
    requires AllSendable(ms) && Sendable(m)
    ensures AllSendable(ms + [m])
  {
  }

  lemma WriteInv(s: State, n: nat)
    requires Inv(s) && Enabled(s, Write(n))
    ensures Inv(Step(s, Write(n)))
  {
    var s', w := Step(s, Write(n)), s.writing.value;
    Dropped(Enc(w.msg), w.pos, n);
    assert Todo(s') == Todo(s)[n..];
    Shifted(s.part, s.unread, Todo(s), n);
  }

  lemma Dropped(b: seq<Byte>, i: nat, n: nat)
    requires i + n <= |b|
    ensures b[i..][n..] == b[i + n..]
  {
  }

  lemma Shifted(part: seq<Byte>, unread: seq<Byte>, todo: seq<Byte>, n: nat)
    requires n <= |todo|
    ensures part + (unread + todo[..n]) + todo[n..] == part + unread + todo
  {
    assert todo == todo[..n] + todo[n..];
  }

  lemma ReadInv(s: State, n: nat)
    requires Inv(s) && Enabled(s, Read(n))
    ensures Inv(Step(s, Read(n)))
  {
    var pending, b, more := Pending(s), s.part + s.unread[..n], s.unread[n..] + Todo(s);
    Regroup(s.part, s.unread, n, Todo(s));
    assert pending != [];
    var m, rest := pending[0], EncAll(pending[1..]);
    NeedWithin(m, rest, s.part, s.unread + Todo(s));
    WholeMsg(m, rest, b, more);
    var s' := Step(s, Read(n));
    assert Todo(s') == Todo(s);
    if |b| == |Enc(m)| {
      assert s'.delivered == s.delivered + [m] && Pending(s') == pending[1..];
      assert [] + s'.unread == s'.unread;
    } else {
      assert s'.delivered == s.delivered && s'.part == b;
      Regroup(b, s.unread[n..], 0, Todo(s));
    }
  }

  lemma Regroup(part: seq<Byte>, unread: seq<Byte>, n: nat, todo: seq<Byte>)
    requires n <= |unread|
    ensures part + unread + todo == (part + unread[..n]) + (unread[n..] + todo)
    ensures part + unread + todo == part + (unread + todo)
  {
    assert unread == unread[..n] + unread[n..];
  }

  lemma {:induction false} RunInv(acts: seq<Action>)
    requires Run(acts).Some?
    ensures Inv(Run(acts).value)
    decreases |acts|
  {
    if acts != [] {
      var a := acts[|acts| - 1];
      RunInv(acts[..|acts| - 1]);
      var s0 := Run(acts[..|acts| - 1]).value;
      match a
      case Lock(msg) => LockInv(s0, msg);
      case Write(n) => WriteInv(s0, n);
      case Unlock =>
      case Read(n) => ReadInv(s0, n);
      case Pause =>
    }
  }

  /** Framing: in every interleaving of writers, partial writes, partial reads and pauses, what was
      delivered is the first messages in the order the writers took the mutex; once nothing is being
      written and every byte was read, it is all of them. */
  lemma Delivered(s: State, acts: seq<Action>)
    requires Run(acts) == Some(s)
    ensures s.delivered <= s.order
    ensures s.writing.None? && s.unread == [] ==> s.delivered == s.order && s.part == []
  {
    RunInv(acts);
    if s.writing.None? && s.unread == [] && Pending(s) != [] {
      var m, rest := Pending(s)[0], EncAll(Pending(s)[1..]);
      assert s.part + [] == s.part == Enc(m) + rest;
      FirstHeader(m, rest, s.part, []);
    }
  }

  /** The reader never stops for good while bytes are left: a read is possible. */
  lemma CanRead(s: State, acts: seq<Action>)
    requires Run(acts) == Some(s) && s.unread != []
    ensures Enabled(s, Read(1))
  {
    RunInv(acts);
  }

  // ------------------------------------------------------------------ writing and reading

  /** A descriptor to write to: it takes any part of what it is given, or pauses, finitely often. */
  class Sink {
    var wire: seq<Byte>
    var pauses: nat

    method Write(data: seq<Byte>) returns (err: Err, n: nat)
      requires data != []
      modifies this
      ensures err == Ok ==> 0 < n <= |data| && wire == old(wire) + data[..n] && pauses == old(pauses)
      ensures err == Again ==> wire == old(wire) && pauses < old(pauses)
      ensures err != Ok ==> wire == old(wire)
    {
      n := 0;
      if
      case true => err := Closed;
      case pauses > 0 => err, pauses := Again, pauses - 1;
      case true =>
        n :| 0 < n <= |data|;
        err, wire := Ok, wire + data[..n];
    }

    /** Writes everything, in as many parts as it takes; on an error a part may have been written. */
    method WriteAll(data: seq<Byte>) returns (err: Err)
      modifies this
      ensures err == Ok ==> wire == old(wire) + data
      ensures old(wire) <= wire <= old(wire) + data && err != Again
    {
      var total := 0;
      while total < |data|
        invariant total <= |data| && wire == old(wire) + data[..total]
        decreases pauses + |data| - total
      {
        var n;
        err, n := Write(data[total..]);
        match err {
          case Again =>
          case Ok =>
            assert data[..total] + data[total..][..n] == data[..total + n];
            total := total + n;
          case _ => return;
        }
      }
      err := Ok;
    }

    /** Writes a message; one over the size limit is refused and nothing is written. */
    method WriteMsg(m: Msg) returns (err: Err)
      requires Fits(m)
      modifies this
      ensures !Sendable(m) ==> err == Failed && wire == old(wire)
      ensures err == Ok ==> wire == old(wire) + Enc(m)
      ensures old(wire) <= wire <= old(wire) + Enc(m)
    {
      if |m.payload| > MSG_SIZE_MAX { return Failed; }
      err := WriteAll(Header(m));
      if err != Ok { return; }
      assert wire == old(wire) + Header(m);
      err := WriteAll(m.payload);
    }
  }

  /** A descriptor to read from: any part of what is there, a pause, or the end. */
  class Source {
    var incoming: seq<Byte>

    method Read(len: nat) returns (err: Err, bytes: seq<Byte>)
      requires len > 0
      modifies this
      ensures err == Ok ==> 0 < |bytes| <= len && old(incoming) == bytes + incoming
      ensures err != Ok ==> incoming == old(incoming) && bytes == []
      ensures err == Ok || err == Again || err == Closed
    {
      bytes := [];
      if
      case true => err := Again;
      case incoming == [] => err := Closed;
      case incoming != [] =>
        var n :| 0 < n <= len && n <= |incoming|;
        err, bytes, incoming := Ok, incoming[..n], incoming[n..];
    }
  }

  /** The reading side of a dispatcher: the message being received. */
  class Receiver {
    const hdr: array<Byte>
    var payload: array<Byte>
    var available: nat
    /** The messages handed on. */
    ghost var delivered: seq<Msg>

    ghost predicate Shape()
      reads this, hdr, payload
    {
      && hdr.Length == HDR && hdr != payload
      && (available >= HDR ==>
            payload.Length == SizeOf(hdr[..]) <= MSG_SIZE_MAX && available <= HDR + payload.Length)
    }

    /** Between calls no message is complete. */
    ghost predicate Valid()
      reads this, hdr, payload
    {
      Shape() && (available >= HDR ==> available < HDR + payload.Length)
    }

    /** The bytes received so far. */
    ghost function Part(): seq<Byte>
      reads this, hdr, payload
      requires Shape()
    {
      if available <= HDR then hdr[..available] else hdr[..] + payload[..available - HDR]
    }

    constructor ()
      ensures Valid() && Part() == [] && delivered == []
    {
      hdr := new Byte[HDR](_ => 0);
      payload := new Byte[0](_ => 0);
      available, delivered := 0, [];
    }

    /** One read of header bytes. */
    method ReadSome(fd: Source) returns (err: Err, bytes: seq<Byte>)
      requires hdr.Length == HDR && available < HDR
      modifies this`available, hdr, fd
      ensures old(fd.incoming) == bytes + fd.incoming && (err == Ok || err == Again || err == Closed)
      ensures available == old(available) + |bytes| <= HDR && (err == Ok <==> bytes != [])
      ensures hdr[..available] == old(hdr[..available]) + bytes
    {
      err, bytes := fd.Read(HDR - available);
      CopyInto(hdr, available, bytes);
      available := available + |bytes|;
    }

    /** The header is complete: makes room for the payload. A size over the limit clears the message. */
    method MakeRoom() returns (err: Err)
      requires hdr.Length == HDR == available && hdr != payload
      modifies this`available, this`payload
      ensures Shape() && err == if SizeOf(hdr[..]) > MSG_SIZE_MAX then Failed else Ok
      ensures err == Ok ==> available == HDR && fresh(payload)
      ensures err == Failed ==> available == 0 && payload == old(payload)
    {
      var size := SizeOf(hdr[..]);
      if size > MSG_SIZE_MAX {
        available := 0;
        return Failed;
      }
      payload := new Byte[size](_ => 0);
      err := Ok;
    }

    /** Reads the rest of the header. A size over the limit fails and clears the message. */
    method ReadHeader(fd: Source) returns (err: Err, ghost got: seq<Byte>)
      requires Valid() && available < HDR
      modifies this`available, this`payload, hdr, fd
      ensures Shape() && old(fd.incoming) == got + fd.incoming
      ensures payload == old(payload) || fresh(payload)
      ensures err == Ok ==> available == HDR && old(Part()) + got == hdr[..]
      ensures err == Failed ==>
        available == 0 && |old(Part()) + got| == HDR && SizeOf(old(Part()) + got) > MSG_SIZE_MAX
      ensures err == Again || err == Closed ==> Valid() && Part() == old(Part()) + got
    {
      got := [];
      ghost var part := Part();
      err := Ok;
      while available < HDR
        invariant hdr.Length == HDR && hdr != payload && available <= HDR && payload == old(payload)
        invariant hdr[..available] == part + got && old(fd.incoming) == got + fd.incoming
        decreases HDR - available
      {
        ghost var before := got;
        var bytes;
        err, bytes := ReadSome(fd);
        Extend(part, before, bytes, old(fd.incoming), fd.incoming);
        got := got + bytes;
        if err != Ok {
          assert got == before;
          return;
        }
      }
      assert hdr[..] == hdr[..available];
      err := MakeRoom();
    }

    /** One read of payload bytes. */
    method ReadMore(fd: Source) returns (err: Err, bytes: seq<Byte>)
      requires Shape() && HDR <= available < HDR + payload.Length
      modifies this`available, payload, fd
      ensures old(fd.incoming) == bytes + fd.incoming && err != Failed && (err == Ok <==> bytes != [])
      ensures available == old(available) + |bytes| && Shape() && hdr[..] == old(hdr[..])
      ensures payload[..available - HDR] == old(payload[..available - HDR]) + bytes
    {
      err, bytes := fd.Read(payload.Length - (available - HDR));
      CopyInto(payload, available - HDR, bytes);
      available := available + |bytes|;
    }

    /** Reads the rest of the payload. */
    method ReadPayload(fd: Source) returns (err: Err, ghost got: seq<Byte>)
      requires Shape() && available >= HDR
      modifies this`available, payload, fd
      ensures Shape() && old(fd.incoming) == got + fd.incoming && err != Failed
      ensures hdr[..] == old(hdr[..]) && Part() == old(Part()) + got
      ensures err == Ok ==> available == HDR + payload.Length
      ensures err != Ok ==> Valid()
    {
      got := [];
      ghost var h, p := hdr[..], payload[..available - HDR];
      assert Part() == h + p;
      err := Ok;
      while available - HDR < payload.Length && err == Ok
        invariant Shape() && available >= HDR && hdr[..] == h && err != Failed
        invariant payload[..available - HDR] == p + got && old(fd.incoming) == got + fd.incoming
        invariant err != Ok ==> available < HDR + payload.Length
        decreases HDR + payload.Length - available, err == Ok
      {
        var bytes;
        err, bytes := ReadMore(fd);
        Extend(p, got, bytes, old(fd.incoming), fd.incoming);
        got := got + bytes;
      }
      assert Part() == h + (p + got) by {
        if available == HDR {
          assert p == [] && got == [];
          assert hdr[..available] == h + (p + got);
        }
      }
      Assoc(h, p, got);
    }

    /** Reads one message, resuming where the last call stopped: on OK the bytes kept before and the
        bytes read now are exactly its header and payload; on a pause they are kept. */
    method ReadMsg(fd: Source) returns (err: Err, ghost got: seq<Byte>)
      requires Valid()
      modifies this`available, this`payload, hdr, payload, fd
      ensures Shape() && old(fd.incoming) == got + fd.incoming
      ensures payload == old(payload) || fresh(payload)
      ensures err == Ok ==> available == HDR + payload.Length && old(Part()) + got == hdr[..] + payload[..]
      ensures err == Failed ==> available == 0 && |old(Part()) + got| == HDR && SizeOf(old(Part()) + got) > MSG_SIZE_MAX
      ensures err == Again || err == Closed ==> Valid() && Part() == old(Part()) + got
    {
      got := [];
      if available < HDR {
        err, got := ReadHeader(fd);
        if err != Ok { return; }
      }
      ghost var more;
      ghost var part := Part();
      err, more := ReadPayload(fd);
      assert old(Part()) + got == part;
      Extend(old(Part()), got, more, old(fd.incoming), fd.incoming);
      got := got + more;
      assert payload[..payload.Length] == payload[..];
      assert err == Ok ==> Part() == hdr[..] + payload[..];
    }

    /** Reads a message, hands it on and clears it for the next one. The verdict on a message that was
        handed on is that of its handler. */
    method Read(fd: Source, handle: Msg -> Err) returns (err: Err, ghost got: seq<Byte>)
      requires Valid()
      modifies this, hdr, payload, fd
      ensures Valid() && old(fd.incoming) == got + fd.incoming
      ensures payload == old(payload) || fresh(payload)
      ensures var c := Whole(old(Part()) + got);
        && delivered == old(delivered) + c.msgs && Part() == c.part
        && if c.msgs == [] then err != Ok else c.msgs == [c.msgs[0]] && err == handle(c.msgs[0])
      ensures Exact(old(Part()) + got)
    {
      err, got := ReadMsg(fd);
      ghost var b := old(Part()) + got;
      if err == Ok {
        assert b[..HDR] == hdr[..] && b[HDR..] == payload[..];
        var m := MsgOf(hdr[..], payload[..]);
        err := handle(m);
        delivered := delivered + [m];
        available := 0;
      } else {
        PartKept(b);
      }
    }

    lemma PartKept(b: seq<Byte>)
      requires Valid() && (Part() == b || (Part() == [] && |b| == HDR && SizeOf(b) > MSG_SIZE_MAX))
      ensures Whole(b) == Cut([], Part()) && Exact(b)
    {
      assert |b| == HDR ==> b[..HDR] == b;
      if available > HDR { assert (hdr[..] + payload[..available - HDR])[..HDR] == hdr[..]; }
    }
  }

  lemma Extend(part: seq<Byte>, got: seq<Byte>, more: seq<Byte>, was: seq<Byte>, left: seq<Byte>)
    requires was == got + (more + left)
    ensures part + (got + more) == part + got + more && was == got + more + left
  {
  }

  /** No byte behind the message is ever read. */
  predicate Exact(b: seq<Byte>) {
    |b| >= HDR ==> if SizeOf(b[..HDR]) > MSG_SIZE_MAX then |b| == HDR else |b| <= HDR + SizeOf(b[..HDR])
  }

  /** A read from a stream that starts with message m hands on m and leaves the rest, or keeps what
      it has: the next read goes on with the same stream. */
  lemma ReadExact(m: Msg, rest: seq<Byte>, b: seq<Byte>, more: seq<Byte>)
    requires Sendable(m) && b + more == Enc(m) + rest && Exact(b)
    ensures Whole(b).msgs == [] ==> Whole(b).part + more == Enc(m) + rest
    ensures Whole(b).msgs != [] ==> Whole(b).msgs == [m] && Whole(b).part + more == rest
  {
    if |b| >= HDR { FirstHeader(m, rest, b, more); }
    WholeMsg(m, rest, b, more);
    assert [] + rest == rest;
  }

  method CopyInto(a: array<Byte>, at: nat, bytes: seq<Byte>)
    requires at + |bytes| <= a.Length
    modifies a
    ensures a[..at + |bytes|] == old(a[..at]) + bytes
  {
    for i := 0 to |bytes|
      invariant a[..at] == old(a[..at]) && a[at..at + i] == bytes[..i]
    {
      a[at + i] := bytes[i];
    }
  }
}
