/** The control protocol: control.c serializes the allocation table and sends it in pieces,
    wackatrl.c reads it back. */
module Control {
  import opened Tables
  import opened Bytes

  const MAX_DEP_IF := 30
  const IFNAMSIZ := 16
  const IFACES := 32
  const IFACE_SIZE := 28
  const ROW_SIZE := 900

  lemma Sizes(n: nat)
    ensures IFACES == MAX_DEP_IF + 2 && IFACE_SIZE == IFNAMSIZ + 3 * 4
    ensures n * (4 + (IFNAMSIZ + 3 * 4) * (MAX_DEP_IF + 2)) == ROW_SIZE * n
  {}

  /** The part of struct interface that is sent: a name of fixed size and three addresses. */
  datatype Iface = Iface(name: seq<Byte>, ipaddr: Word, bcast: Word, netmask: Word)

  /** One table entry: its priority, then the real interface, the virtual one, the others. */
  datatype Row = Row(claim: int, ifs: seq<Iface>)

  predicate FitIface(f: Iface) { |f.name| == IFNAMSIZ }

  predicate FitRow(r: Row) { Small(r.claim) && |r.ifs| == IFACES && forall j | 0 <= j < IFACES :: FitIface(r.ifs[j]) }

  predicate Fit(rows: seq<Row>) { |rows| <= MAX_PSEUDO && forall i | 0 <= i < |rows| :: FitRow(rows[i]) }

  // ----- the bytes -----

  /** Addresses are copied as they lie in memory, in the machine's order. */
  function IfaceBytes(o: Order, f: Iface): (b: seq<Byte>)
    requires FitIface(f)
    ensures |b| == IFACE_SIZE
  {
    f.name + Put(o, f.ipaddr) + Put(o, f.bcast) + Put(o, f.netmask)
  }

  /** Chunks of bytes one after the other. */
  function Flat(c: seq<seq<Byte>>): seq<Byte> {
    if c == [] then [] else Flat(c[..|c| - 1]) + c[|c| - 1]
  }

  predicate Uniform(c: seq<seq<Byte>>, w: nat) { forall i | 0 <= i < |c| :: |c[i]| == w }

  function IfaceChunks(o: Order, ifs: seq<Iface>): (c: seq<seq<Byte>>)
    requires forall j | 0 <= j < |ifs| :: FitIface(ifs[j])
    ensures |c| == |ifs| && Uniform(c, IFACE_SIZE)
  {
    seq(|ifs|, j requires 0 <= j < |ifs| => IfaceBytes(o, ifs[j]))
  }

  function RowBytes(o: Order, r: Row): (b: seq<Byte>)
    requires FitRow(r)
  {
    Put(Big, Unsigned(r.claim)) + Flat(IfaceChunks(o, r.ifs))
  }

  function RowChunks(o: Order, rows: seq<Row>): (c: seq<seq<Byte>>)
    requires forall i | 0 <= i < |rows| :: FitRow(rows[i])
    ensures |c| == |rows|
  {
    seq(|rows|, i requires 0 <= i < |rows| => RowBytes(o, rows[i]))
  }

  /** The whole reply: its length without the length word itself, in network order, then the
      rows. */
  function Image(o: Order, rows: seq<Row>): (b: seq<Byte>)
    requires Fit(rows)
  {
    Put(Big, ROW_SIZE * |rows|) + Flat(RowChunks(o, rows))
  }

  lemma {:induction false} FlatLength(c: seq<seq<Byte>>, w: nat)
    requires Uniform(c, w)
    ensures |Flat(c)| == w * |c|
  {
    if c != [] {
      FlatLength(c[..|c| - 1], w);
      assert w * |c| == w * (|c| - 1) + w;
    }
  }

  /** Chunk i lies where the reader looks for it. */
  lemma {:induction false} FlatAt(c: seq<seq<Byte>>, w: nat, i: nat, at: nat)
    requires Uniform(c, w) && i < |c| && at == w * i
    ensures at + w <= |Flat(c)| && Flat(c)[at..at + w] == c[i]
  {
    var n := |c| - 1;
    FlatLength(c[..n], w);
    if i == n {
      SliceRight(Flat(c[..n]), c[n]);
    } else {
      FlatAt(c[..n], w, i, at);
      SliceLeft(Flat(c[..n]), c[n], at, at + w);
    }
  }

  lemma FlatSnoc(a: seq<Byte>, c: seq<seq<Byte>>, i: nat)
    requires i < |c|
    ensures a + Flat(c[..i + 1]) == a + Flat(c[..i]) + c[i]
  {
    assert c[..i + 1][..i] == c[..i];
    assert a + (Flat(c[..i]) + c[i]) == a + Flat(c[..i]) + c[i];
  }

  lemma SliceLeft(a: seq<Byte>, b: seq<Byte>, lo: nat, hi: nat)
    requires lo <= hi <= |a|
    ensures (a + b)[lo..hi] == a[lo..hi]
  {}

  lemma SliceRight(a: seq<Byte>, b: seq<Byte>)
    ensures (a + b)[|a|..|a| + |b|] == b
  {}

  lemma SliceOfSlice(b: seq<Byte>, at: nat, len: nat, lo: nat, hi: nat)
    requires lo <= hi <= len && at + len <= |b|
    ensures b[at..at + len][lo..hi] == b[at + lo..at + hi]
  {
    var (x, y) := (b[at..at + len][lo..hi], b[at + lo..at + hi]);
    assert forall k | 0 <= k < |x| :: x[k] == b[at + lo + k] == y[k];
  }

  lemma RowLength(o: Order, r: Row)
    requires FitRow(r)
    ensures |RowBytes(o, r)| == ROW_SIZE
  {
    FlatLength(IfaceChunks(o, r.ifs), IFACE_SIZE);
  }

  lemma RowsUniform(o: Order, rows: seq<Row>)
    requires Fit(rows)
    ensures Uniform(RowChunks(o, rows), ROW_SIZE) && |Image(o, rows)| == 4 + ROW_SIZE * |rows|
  {
    forall i | 0 <= i < |rows| ensures |RowChunks(o, rows)[i]| == ROW_SIZE { RowLength(o, rows[i]); }
    FlatLength(RowChunks(o, rows), ROW_SIZE);
  }

  /** memcpy to the cursor. */
  method Copy(buffer: array<Byte>, at: nat, b: seq<Byte>) returns (next: nat)
    requires at + |b| <= buffer.Length
    modifies buffer
    ensures next == at + |b| && buffer[..next] == old(buffer[..at]) + b
  {
    forall k | 0 <= k < |b| { buffer[at + k] := b[k]; }
    next := at + |b|;
  }

  /** The macro sprintif. */
  method CopyIface(buffer: array<Byte>, at: nat, o: Order, f: Iface) returns (next: nat)
    requires FitIface(f) && at + IFACE_SIZE <= buffer.Length
    modifies buffer
    ensures next == at + IFACE_SIZE && buffer[..next] == old(buffer[..at]) + IfaceBytes(o, f)
  {
    next := Copy(buffer, at, f.name);
    next := Copy(buffer, next, Put(o, f.ipaddr));
    next := Copy(buffer, next, Put(o, f.bcast));
    next := Copy(buffer, next, Put(o, f.netmask));
  }

  method CopyRow(buffer: array<Byte>, at: nat, o: Order, r: Row) returns (next: nat)
    requires FitRow(r) && at + ROW_SIZE <= buffer.Length
    modifies buffer
    ensures next == at + ROW_SIZE && buffer[..next] == old(buffer[..at]) + RowBytes(o, r)
  {
    ghost var c := IfaceChunks(o, r.ifs);
    next := Copy(buffer, at, Put(Big, Unsigned(r.claim)));
    ghost var was := buffer[..next];
    var j := 0;
    assert was + Flat(c[..0]) == was;
    while j < IFACES
      invariant j <= IFACES && next == at + 4 + IFACE_SIZE * j && buffer[..next] == was + Flat(c[..j])
    {
      assert FitIface(r.ifs[j]);
      FlatSnoc(was, c, j);
      next := CopyIface(buffer, next, o, r.ifs[j]);
      j := j + 1;
    }
    assert c[..j] == c;
    assert was + Flat(c) == old(buffer[..at]) + RowBytes(o, r);
  }

  /** set_state_wack_state: the buffer has the computed size, and exactly that many bytes are
      filled. */
  method FillState(o: Order, rows: seq<Row>) returns (buffer: array<Byte>, len: nat)
    requires Fit(rows)
    ensures fresh(buffer) && len == buffer.Length == 4 + |rows| * (4 + (IFNAMSIZ + 3 * 4) * (MAX_DEP_IF + 2))
    ensures buffer[..] == Image(o, rows)
  {
    Sizes(|rows|);
    var size := 4 + |rows| * (4 + (IFNAMSIZ + 3 * 4) * (MAX_DEP_IF + 2));
    buffer := new Byte[size];
    len := Copy(buffer, 0, Put(Big, size - 4));
    len := FillRows(buffer, len, o, rows);
    assert buffer[..len] == buffer[..];
  }

  method FillRows(buffer: array<Byte>, at: nat, o: Order, rows: seq<Row>) returns (len: nat)
    requires Fit(rows) && at + ROW_SIZE * |rows| <= buffer.Length
    modifies buffer
    ensures len == at + ROW_SIZE * |rows| && buffer[..len] == old(buffer[..at]) + Flat(RowChunks(o, rows))
  {
    len := at;
    ghost var (head, c) := (buffer[..at], RowChunks(o, rows));
    var i := 0;
    assert head + Flat(c[..0]) == head;
    while i < |rows|
      invariant i <= |rows| && len == at + ROW_SIZE * i && buffer[..len] == head + Flat(c[..i])
    {
      assert FitRow(rows[i]) && len + ROW_SIZE <= buffer.Length;
      FlatSnoc(head, c, i);
      len := CopyRow(buffer, len, o, rows[i]);
      i := i + 1;
    }
    assert c[..i] == c;
  }

  // ----- the session -----

  const GET_WACK_STATE: Byte := 0
  const WACK_SERVICE_FAILURE: Byte := 1
  const WACK_SERVICE_SUCCESS: Byte := 2
  const READ_COMMAND: Byte := 100

  datatype Direction = READ_FD | WRITE_FD

  /** A control session: waiting for a command, sending the state, sending a four-byte
      answer, or closed. */
  datatype Session =
    | Session(operation: Byte, state: Direction, buffer: seq<Byte>, written: nat, answer: seq<Byte>)
    | Closed

  /** What the one system call of a handler run returns: `ret` bytes, or an error that is
      `again` if the call would have blocked; `input` is the byte that a read delivers. */
  datatype Io = Io(ret: int, again: bool, input: Byte)

  function Idle(s: Session): Session
    requires s.Session?
  {
    s.(operation := READ_COMMAND, state := READ_FD)
  }

  /** How many bytes the handler asks for in this state. */
  function Asked(s: Session): nat {
    if s.Closed? then 0
    else if s.state.READ_FD? then 1
    else if s.operation == GET_WACK_STATE then (if s.written <= |s.buffer| then |s.buffer| - s.written else 0)
    else 4
  }

  predicate Possible(s: Session, io: Io) { io.ret <= Asked(s) }

  /** new_command on a byte that has just been read: `image` is what a state reply would
      be now, `answer` the result of a service command. */
  function NewCommand(s: Session, op: Byte, image: seq<Byte>, answer: seq<Byte>): Session
    requires s.Session?
  {
    if op == GET_WACK_STATE then s.(operation := op, state := WRITE_FD, buffer := image, written := 0)
    else if op == WACK_SERVICE_FAILURE || op == WACK_SERVICE_SUCCESS then
      s.(operation := op, state := WRITE_FD, answer := answer)
    else Closed
  }

  /** handle_control_session: the next state and the bytes that reach the client. */
  function Handle(s: Session, io: Io, image: seq<Byte>, answer: seq<Byte>): (r: (Session, seq<Byte>))
    requires Possible(s, io) && |answer| == 4 && (s.Session? ==> s.written <= |s.buffer| && |s.answer| == 4)
    ensures r.0.Session? ==> r.0.written <= |r.0.buffer| && |r.0.answer| == 4
  {
    if s.Closed? then (s, [])
    else if s.state.READ_FD? && s.operation != READ_COMMAND then (Closed, [])
    else if s.state.WRITE_FD? && s.operation !in {GET_WACK_STATE, WACK_SERVICE_FAILURE, WACK_SERVICE_SUCCESS} then
      (Closed, [])
    else if io.ret < 0 then (if io.again then s else Closed, [])
    else if io.ret == 0 then (Closed, [])
    else if s.state.READ_FD? then (NewCommand(s, io.input, image, answer), [])
    else if s.operation == GET_WACK_STATE then
      var w := s.written + io.ret;
      (if w == |s.buffer| then Idle(s.(written := w)) else s.(written := w), s.buffer[s.written..w])
    else (if io.ret == 4 then Idle(s) else Closed, s.answer[..io.ret])
  }

  /** A session object that the handler updates in place, with everything it sent. */
  class ControlSession {
    var sess: Session
    ghost var sent: seq<Byte>

    constructor ()
      ensures sess == Session(READ_COMMAND, READ_FD, [], 0, [0, 0, 0, 0]) && sent == []
    {
      sess, sent := Session(READ_COMMAND, READ_FD, [], 0, [0, 0, 0, 0]), [];
    }

    /** handle_control_session: one run, with the outcome io of its system call. */
    method HandleControlSession(io: Io, o: Order, rows: seq<Row>, answer: seq<Byte>)
      requires Possible(sess, io) && |answer| == 4 && Fit(rows)
      requires sess.Session? ==> sess.written <= |sess.buffer| && |sess.answer| == 4
      modifies this
      ensures var r := Handle(old(sess), io, Image(o, rows), answer);
        sess == r.0 && sent == old(sent) + r.1
    {
      if sess.Closed? { return; }
      if sess.state == READ_FD {
        if sess.operation != READ_COMMAND { sess := Closed; return; }
        if io.ret == 0 { sess := Closed; return; }
        if io.ret < 0 {
          if io.again { return; }
          sess := Closed;
          return;
        }
        if io.input == GET_WACK_STATE {
          var buffer, _ := FillState(o, rows);
          sess := sess.(operation := io.input, state := WRITE_FD, buffer := buffer[..], written := 0);
        } else if io.input == WACK_SERVICE_FAILURE || io.input == WACK_SERVICE_SUCCESS {
          sess := sess.(operation := io.input, state := WRITE_FD, answer := answer);
        } else {
          sess := Closed;
        }
      } else if sess.operation == GET_WACK_STATE {
        if io.ret == 0 { sess := Closed; return; }
        if io.ret < 0 {
          if io.again { return; }
          sess := Closed;
          return;
        }
        sent := sent + sess.buffer[sess.written..sess.written + io.ret];
        sess := sess.(written := sess.written + io.ret);
        if sess.written == |sess.buffer| { sess := sess.(operation := READ_COMMAND, state := READ_FD); }
      } else if sess.operation == WACK_SERVICE_FAILURE || sess.operation == WACK_SERVICE_SUCCESS {
        if io.ret == 0 { sess := Closed; return; }
        if io.ret < 0 {
          if io.again { return; }
          sess := Closed;
          return;
        }
        sent := sent + sess.answer[..io.ret];
        if io.ret != 4 { sess := Closed; return; }
        sess := sess.(operation := READ_COMMAND, state := READ_FD);
      } else {
        sess := Closed;
      }
    }
  }

  // ----- any schedule of partial writes -----

  predicate Sending(s: Session) { s.Session? && s.operation == GET_WACK_STATE && s.state.WRITE_FD? && |s.answer| == 4 }

  /** A schedule of positive partial writes and of writes to be retried. */
  predicate Progressing(ios: seq<Io>) {
    forall k | 0 <= k < |ios| :: ios[k].ret > 0 || (ios[k].ret < 0 && ios[k].again)
  }

  function Accepted(ios: seq<Io>): nat {
    if ios == [] then 0
    else Accepted(ios[..|ios| - 1]) + (if ios[|ios| - 1].ret > 0 then ios[|ios| - 1].ret else 0)
  }

  /** The session and its output after a schedule of system calls. */
  function Drive(s: Session, ios: seq<Io>, image: seq<Byte>, answer: seq<Byte>): Option<(Session, seq<Byte>)>
    requires |answer| == 4 && (s.Session? ==> s.written <= |s.buffer| && |s.answer| == 4)
    ensures var r := Drive(s, ios, image, answer);
      r.Some? && r.value.0.Session? ==> r.value.0.written <= |r.value.0.buffer| && |r.value.0.answer| == 4
  {
    if ios == [] then Some((s, []))
    else
      var n := |ios| - 1;
      match Drive(s, ios[..n], image, answer)
      case None => None
      case Some((t, out)) =>
        if !Possible(t, ios[n]) then None
        else
          var (u, more) := Handle(t, ios[n], image, answer);
          Some((u, out + more))
  }

  /** As long as less than the rest of the buffer has been accepted, the session goes on
      sending from where it is, and the client has got exactly the bytes accepted. */
  lemma {:induction false} StillSending(s: Session, ios: seq<Io>, image: seq<Byte>, answer: seq<Byte>)
    requires Sending(s) && |answer| == 4 && Progressing(ios) && s.written + Accepted(ios) < |s.buffer|
    ensures Drive(s, ios, image, answer)
      == Some((s.(written := s.written + Accepted(ios)), s.buffer[s.written..s.written + Accepted(ios)]))
  {
    if ios == [] {
      assert s.buffer[s.written..s.written] == [];
    } else {
      var n := |ios| - 1;
      StillSending(s, ios[..n], image, answer);
      var (a, b) := (s.written + Accepted(ios[..n]), s.written + Accepted(ios));
      SendsSome(s.(written := a), ios[n], image, answer);
      DriveOn(s, ios, image, answer, s.(written := a), s.buffer[s.written..a], s.(written := b), s.buffer[a..b]);
      Adjacent(s.buffer, s.written, a, b);
    }
  }

  lemma Adjacent(s: seq<Byte>, i: nat, k: nat, j: nat)
    requires i <= k <= j <= |s|
    ensures s[i..k] + s[k..j] == s[i..j]
  {}

  /** One more system call. */
  lemma DriveOn(s: Session, ios: seq<Io>, image: seq<Byte>, answer: seq<Byte>, t: Session, out: seq<Byte>, u: Session,
          more: seq<Byte>)
    requires |answer| == 4 && (s.Session? ==> s.written <= |s.buffer| && |s.answer| == 4) && ios != []
    requires t.Session? ==> t.written <= |t.buffer| && |t.answer| == 4
    requires Drive(s, ios[..|ios| - 1], image, answer) == Some((t, out)) && Possible(t, ios[|ios| - 1])
    requires Handle(t, ios[|ios| - 1], image, answer) == (u, more)
    ensures Drive(s, ios, image, answer) == Some((u, out + more))
  {}

  lemma SendsSome(s: Session, io: Io, image: seq<Byte>, answer: seq<Byte>)
    requires Sending(s) && |answer| == 4 && (io.ret > 0 || (io.ret < 0 && io.again))
    requires s.written + (if io.ret > 0 then io.ret else 0) < |s.buffer|
    ensures var w := s.written + (if io.ret > 0 then io.ret else 0);
      Possible(s, io) && Handle(s, io, image, answer) == (s.(written := w), s.buffer[s.written..w])
  {
    assert s.buffer[s.written..s.written] == [];
  }

  /** When the last write completes the buffer, the client has got all of it once, in order,
      and the session waits for the next command. */
  lemma SendsAllOnce(s: Session, ios: seq<Io>, image: seq<Byte>, answer: seq<Byte>)
    requires Sending(s) && |answer| == 4 && Progressing(ios) && ios != [] && ios[|ios| - 1].ret > 0
    requires s.written + Accepted(ios) == |s.buffer|
    ensures Drive(s, ios, image, answer) == Some((Idle(s.(written := |s.buffer|)), s.buffer[s.written..]))
  {
    var n := |ios| - 1;
    StillSending(s, ios[..n], image, answer);
    var a := s.written + Accepted(ios[..n]);
    SendsRest(s.(written := a), ios[n], image, answer);
    DriveOn(s, ios, image, answer, s.(written := a), s.buffer[s.written..a], Idle(s.(written := |s.buffer|)),
            s.buffer[a..]);
    assert s.buffer[s.written..a] + s.buffer[a..] == s.buffer[s.written..];
  }

  lemma SendsRest(s: Session, io: Io, image: seq<Byte>, answer: seq<Byte>)
    requires Sending(s) && |answer| == 4 && io.ret > 0 && s.written + io.ret == |s.buffer|
    ensures Possible(s, io) && Handle(s, io, image, answer) == (Idle(s.(written := |s.buffer|)), s.buffer[s.written..])
  {
    assert s.buffer[s.written..|s.buffer|] == s.buffer[s.written..];
  }

  /** The whole exchange: the command byte, then any schedule of partial writes; the client
      gets the image of the table. */
  lemma StateTransfer(s: Session, o: Order, rows: seq<Row>, ios: seq<Io>, answer: seq<Byte>)
    requires s.Session? && s.operation == READ_COMMAND && s.state == READ_FD && s.written <= |s.buffer|
    requires |s.answer| == 4 && |answer| == 4 && Fit(rows) && Progressing(ios) && ios != [] && ios[|ios| - 1].ret > 0
    requires Accepted(ios) == |Image(o, rows)|
    ensures var image := Image(o, rows);
      var t := Handle(s, Io(1, false, GET_WACK_STATE), image, answer).0;
      Sending(t) && Drive(t, ios, image, answer) == Some((Idle(t.(written := |image|)), image))
  {
    var t := Handle(s, Io(1, false, GET_WACK_STATE), Image(o, rows), answer).0;
    SendsAllOnce(t, ios, Image(o, rows), answer);
  }

  // ----- the reader -----

  /** One interface taken out of the buffer: the inverse of sprintif. */
  function TakeIface(o: Order, b: seq<Byte>): (f: Iface)
    requires |b| == IFACE_SIZE
    ensures FitIface(f)
  {
    Iface(b[..IFNAMSIZ], Get(o, b[IFNAMSIZ..IFNAMSIZ + 4]), Get(o, b[IFNAMSIZ + 4..IFNAMSIZ + 8]),
          Get(o, b[IFNAMSIZ + 8..]))
  }

  /** An interface is read back as sprintif wrote it. */
  lemma TakeInvertsCopy(o: Order, f: Iface)
    requires FitIface(f)
    ensures TakeIface(o, IfaceBytes(o, f)) == f
  {
    var b := IfaceBytes(o, f);
    assert b[..IFNAMSIZ] == f.name && b[IFNAMSIZ..IFNAMSIZ + 4] == Put(o, f.ipaddr);
    assert b[IFNAMSIZ + 4..IFNAMSIZ + 8] == Put(o, f.bcast) && b[IFNAMSIZ + 8..] == Put(o, f.netmask);
    GetPut(o, f.ipaddr);
    GetPut(o, f.bcast);
    GetPut(o, f.netmask);
  }

  /** The interface at an offset of the buffer. */
  predicate Lies(o: Order, b: seq<Byte>, at: nat, f: Iface) {
    at + IFACE_SIZE <= |b| && TakeIface(o, b[at..at + IFACE_SIZE]) == f
  }

  lemma FieldOfChunk(c: seq<seq<Byte>>, w: nat, i: nat, at: nat, lo: nat, hi: nat)
    requires Uniform(c, w) && i < |c| && lo <= hi <= w && at == w * i
    ensures at + hi <= |Flat(c)| && Flat(c)[at + lo..at + hi] == c[i][lo..hi]
  {
    FlatAt(c, w, i, at);
    SliceOfSlice(Flat(c), at, w, lo, hi);
  }

  lemma ChunkInRow(o: Order, r: Row, j: nat)
    requires FitRow(r) && j < IFACES
    ensures FitIface(r.ifs[j]) && |RowBytes(o, r)| == ROW_SIZE
    ensures RowBytes(o, r)[4 + IFACE_SIZE * j..4 + IFACE_SIZE * j + IFACE_SIZE] == IfaceBytes(o, r.ifs[j])
  {
    var (head, c) := (Put(Big, Unsigned(r.claim)), IfaceChunks(o, r.ifs));
    var (lo, hi) := (IFACE_SIZE * j, IFACE_SIZE * j + IFACE_SIZE);
    assert FitIface(r.ifs[j]);
    RowLength(o, r);
    FlatAt(c, IFACE_SIZE, j, lo);
    SliceBehind(head, Flat(c), lo, hi);
  }

  lemma IfaceInRow(o: Order, r: Row, j: nat)
    requires FitRow(r) && j < IFACES
    ensures Lies(o, RowBytes(o, r), 4 + IFACE_SIZE * j, r.ifs[j])
  {
    ChunkInRow(o, r, j);
    TakeInvertsCopy(o, r.ifs[j]);
  }

  lemma SliceBehind(a: seq<Byte>, b: seq<Byte>, lo: nat, hi: nat)
    requires lo <= hi <= |b|
    ensures (a + b)[|a| + lo..|a| + hi] == b[lo..hi]
  {}

  lemma IfaceInImage(o: Order, rows: seq<Row>, i: nat, j: nat)
    requires Fit(rows) && i < |rows| && j < IFACES
    ensures FitRow(rows[i]) && Lies(o, Flat(RowChunks(o, rows)), ROW_SIZE * i + (4 + IFACE_SIZE * j), rows[i].ifs[j])
  {
    var e := 4 + IFACE_SIZE * j;
    RowsUniform(o, rows);
    FieldOfChunk(RowChunks(o, rows), ROW_SIZE, i, ROW_SIZE * i, e, e + IFACE_SIZE);
    assert FitRow(rows[i]);
    IfaceInRow(o, rows[i], j);
  }

  function Total(pieces: seq<nat>): nat { if pieces == [] then 0 else pieces[0] + Total(pieces[1..]) }

  /** The reading loop of get_state: whatever positive pieces the reads deliver, it stops
      with all the bytes. */
  method ReadAll(stream: seq<Byte>, pieces: seq<nat>) returns (buffer: seq<Byte>)
    requires Total(pieces) == |stream| && forall k | 0 <= k < |pieces| :: pieces[k] > 0
    ensures buffer == stream
  {
    buffer := [];
    var toread, k := |stream|, 0;
    assert pieces[0..] == pieces;
    while toread > 0
      invariant 0 <= toread <= |stream| && k <= |pieces| && Total(pieces[k..]) == toread
      invariant buffer == stream[..|stream| - toread]
    {
      assert pieces[k..][1..] == pieces[k + 1..];
      var ret := pieces[k];
      buffer := buffer + stream[|stream| - toread..|stream| - toread + ret];
      toread := toread - ret;
      k := k + 1;
    }
  }

  /** The inner loop of get_state. */
  method TakeRow(o: Order, buffer: seq<Byte>, at: nat, ghost rows: seq<Row>, ghost i: nat) returns (ifs: seq<Iface>,
          next: nat)
    requires Fit(rows) && i < |rows| && buffer == Flat(RowChunks(o, rows)) && at == ROW_SIZE * i + 4
    ensures ifs == rows[i].ifs && next == ROW_SIZE * i + ROW_SIZE
  {
    assert FitRow(rows[i]);
    ifs, next := [], at;
    var j := 0;
    while j < IFACES
      invariant j <= IFACES && next == at + IFACE_SIZE * j && ifs == rows[i].ifs[..j]
    {
      IfaceInImage(o, rows, i, j);
      ifs := ifs + [TakeIface(o, buffer[next..next + IFACE_SIZE])];
      next := next + IFACE_SIZE;
      j := j + 1;
    }
  }

  lemma ImageParts(o: Order, rows: seq<Row>, image: seq<Byte>)
    requires Fit(rows) && image == Image(o, rows)
    ensures |image| >= 4 && Get(Big, image[..4]) == ROW_SIZE * |rows| && image[4..] == Flat(RowChunks(o, rows))
  {
    assert image[..4] == Put(Big, ROW_SIZE * |rows|);
    GetPut(Big, ROW_SIZE * |rows|);
  }

  predicate ClaimAt(b: seq<Byte>, at: nat, claim: int) { at + 4 <= |b| && Signed(Get(Big, b[at..at + 4])) == claim }

  predicate IfaceAt(o: Order, b: seq<Byte>, at: nat, f: Iface) {
    && at + 28 <= |b| && b[at..at + 16] == f.name && Get(o, b[at + 16..at + 20]) == f.ipaddr
    && Get(o, b[at + 20..at + 24]) == f.bcast && Get(o, b[at + 24..at + 28]) == f.netmask
  }

  /** Where everything lies in the reply: its own length less four, in network order; and for
      each row of 900 bytes the claim priority, in network order, and 28 bytes per interface. */
  lemma ImageLayout(o: Order, rows: seq<Row>, i: nat, j: nat)
    requires Fit(rows) && i < |rows| && j < 32
    ensures FitRow(rows[i])
    ensures var b := Image(o, rows);
      && |b| == 4 + 900 * |rows| && Get(Big, b[..4]) == |b| - 4
      && ClaimAt(b, 4 + 900 * i, rows[i].claim) && IfaceAt(o, b, 4 + 900 * i + 4 + 28 * j, rows[i].ifs[j])
  {
    var b := Image(o, rows);
    RowsUniform(o, rows);
    ImageParts(o, rows, b);
    assert b == b[..4] + b[4..];
    ClaimInImage(o, rows, i, b[..4], b[4..]);
    IfaceLies(o, rows, i, j, b, 4 + 900 * i + 4 + 28 * j);
  }

  lemma ClaimInImage(o: Order, rows: seq<Row>, i: nat, head: seq<Byte>, flat: seq<Byte>)
    requires Fit(rows) && i < |rows| && |head| == 4 && flat == Flat(RowChunks(o, rows))
    ensures FitRow(rows[i]) && ClaimAt(head + flat, 4 + 900 * i, rows[i].claim)
  {
    ClaimLies(o, rows, i, 900 * i);
    SliceBehind(head, flat, 900 * i, 900 * i + 4);
  }

  lemma ClaimLies(o: Order, rows: seq<Row>, i: nat, at: nat)
    requires Fit(rows) && i < |rows| && at == 900 * i
    ensures FitRow(rows[i]) && ClaimAt(Flat(RowChunks(o, rows)), at, rows[i].claim)
  {
    assert FitRow(rows[i]);
    RowsUniform(o, rows);
    FirstOfChunk(RowChunks(o, rows), i, at, RowBytes(o, rows[i]));
    ClaimFirst(o, rows[i]);
  }

  lemma FirstOfChunk(c: seq<seq<Byte>>, i: nat, at: nat, chunk: seq<Byte>)
    requires Uniform(c, 900) && i < |c| && at == 900 * i && chunk == c[i]
    ensures at + 4 <= |Flat(c)| && |chunk| == 900 && Flat(c)[at..at + 4] == chunk[0..4]
  {
    FieldOfChunk(c, 900, i, at, 0, 4);
  }

  lemma ClaimFirst(o: Order, r: Row)
    requires FitRow(r)
    ensures |RowBytes(o, r)| >= 4 && Signed(Get(Big, RowBytes(o, r)[0..4])) == r.claim
  {
    assert RowBytes(o, r)[0..4] == Put(Big, Unsigned(r.claim));
    GetPut(Big, Unsigned(r.claim));
  }

  lemma ChunkLies(o: Order, rows: seq<Row>, i: nat, j: nat)
    requires Fit(rows) && i < |rows| && j < 32
    ensures FitRow(rows[i]) && FitIface(rows[i].ifs[j])
    ensures var (flat, e) := (Flat(RowChunks(o, rows)), 900 * i + (4 + 28 * j));
      e + 28 <= |flat| && flat[e..e + 28] == IfaceBytes(o, rows[i].ifs[j])
  {
    assert FitRow(rows[i]) && FitIface(rows[i].ifs[j]);
    RowsUniform(o, rows);
    ChunkInRow(o, rows[i], j);
    FieldOfChunk(RowChunks(o, rows), 900, i, 900 * i, 4 + 28 * j, 4 + 28 * j + 28);
  }

  lemma IfaceLies(o: Order, rows: seq<Row>, i: nat, j: nat, b: seq<Byte>, at: nat)
    requires Fit(rows) && i < |rows| && j < 32 && b == Image(o, rows) && at == 4 + 900 * i + 4 + 28 * j
    ensures FitRow(rows[i]) && IfaceAt(o, b, at, rows[i].ifs[j])
  {
    ChunkLies(o, rows, i, j);
    var e := 900 * i + (4 + 28 * j);
    SliceBehind(Put(Big, ROW_SIZE * |rows|), Flat(RowChunks(o, rows)), e, e + 28);
    FieldsOf(o, rows[i].ifs[j], b, at);
  }

  lemma FieldsOf(o: Order, f: Iface, b: seq<Byte>, at: nat)
    requires FitIface(f) && at + 28 <= |b| && b[at..at + 28] == IfaceBytes(o, f)
    ensures IfaceAt(o, b, at, f)
  {
    SliceOfSlice(b, at, 28, 0, 16);
    SliceOfSlice(b, at, 28, 16, 20);
    SliceOfSlice(b, at, 28, 20, 24);
    SliceOfSlice(b, at, 28, 24, 28);
    FieldsInChunk(o, f, IfaceBytes(o, f));
  }

  lemma FieldsInChunk(o: Order, f: Iface, c: seq<Byte>)
    requires FitIface(f) && c == IfaceBytes(o, f)
    ensures c[0..16] == f.name && Get(o, c[16..20]) == f.ipaddr && Get(o, c[20..24]) == f.bcast
    ensures Get(o, c[24..28]) == f.netmask
  {
    assert c[0..16] == f.name && c[16..20] == Put(o, f.ipaddr) && c[20..24] == Put(o, f.bcast);
    assert c[24..28] == Put(o, f.netmask);
    GetPut(o, f.ipaddr);
    GetPut(o, f.bcast);
    GetPut(o, f.netmask);
  }

  /** get_state: from the image of a table with at least one and at most MAX_PSEUDO rows it
      rebuilds the interfaces of every row, and stops there. */
  method GetState(o: Order, stream: seq<Byte>, pieces: seq<nat>, ghost rows: seq<Row>) returns (table: seq<seq<Iface>>)
    requires Fit(rows) && 1 <= |rows| && stream == Image(o, rows)
    requires Total(pieces) == |stream| - 4 && forall k | 0 <= k < |pieces| :: pieces[k] > 0
    ensures |table| == |rows| && forall i | 0 <= i < |rows| :: table[i] == rows[i].ifs
  {
    ImageParts(o, rows, stream);
    var size := Get(Big, stream[..4]);
    var buffer := ReadAll(stream[4..], pieces);
    var i, toread := 0, 0;
    table := [];
    while i < MAX_PSEUDO
      invariant i < |rows| && |table| == i && toread == ROW_SIZE * i
      invariant forall k | 0 <= k < i :: table[k] == rows[k].ifs
    {
      assert ROW_SIZE * i + ROW_SIZE <= ROW_SIZE * |rows|;
      toread := toread + 4;
      var ifs;
      ifs, toread := TakeRow(o, buffer, toread, rows, i);
      table := table + [ifs];
      i := i + 1;
      if toread >= size { break; }
    }
  }
}
