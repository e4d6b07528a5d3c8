/** A control connection over time: any number of commands, one after the other, each with
    retries and partial writes; and what closes it. */
module Dialog {
  import opened Bytes
  import opened Control
  import opened Tables

  /** The session waits for a command byte. */
  predicate Waiting(s: Session) {
    && s.Session? && s.operation == READ_COMMAND && s.state == READ_FD
    && s.written <= |s.buffer| && |s.answer| == 4
  }

  /** It has a four-byte answer to a service command to send. */
  predicate Answering(s: Session) {
    && s.Session? && (s.operation == WACK_SERVICE_FAILURE || s.operation == WACK_SERVICE_SUCCESS)
    && s.state == WRITE_FD && s.written <= |s.buffer| && |s.answer| == 4
  }

  /** It has a part of the state to send. */
  predicate Transferring(s: Session) { Sending(s) && s.written < |s.buffer| }

  predicate Live(s: Session) { Waiting(s) || Answering(s) || Transferring(s) }

  /** What closes a live session: an end or an error other than "try again", an unknown command,
      or a partly written answer; everything else keeps it alive. A closed one stays closed and
      sends nothing. */
  lemma ClosesIff(s: Session, io: Io, image: seq<Byte>, answer: seq<Byte>)
    requires (Live(s) || s.Closed?) && Possible(s, io) && |answer| == 4 && image != []
    ensures var t := Handle(s, io, image, answer).0;
      && (t.Closed? <==> s.Closed? || Fatal(s, io))
      && (!t.Closed? ==> Live(t))
    ensures s.Closed? ==> Handle(s, io, image, answer).1 == []
  {}

  predicate Fatal(s: Session, io: Io) {
    || io.ret == 0
    || (io.ret < 0 && !io.again)
    || (Waiting(s) && io.ret > 0 && io.input != 0 && io.input != 1 && io.input != 2)
    || (Answering(s) && 0 < io.ret < 4)
  }

  // ----- one system call after the other -----

  predicate Fine(s: Session) { s.Session? ==> s.written <= |s.buffer| && |s.answer| == 4 }

  lemma DriveBack(s: Session, ios: seq<Io>, image: seq<Byte>, answer: seq<Byte>) returns (t: Session, out: seq<Byte>)
    requires |answer| == 4 && Fine(s) && ios != [] && Drive(s, ios, image, answer).Some?
    ensures Fine(t) && Drive(s, ios[..|ios| - 1], image, answer) == Some((t, out)) && Possible(t, ios[|ios| - 1])
    ensures var (u, more) := Handle(t, ios[|ios| - 1], image, answer);
      Drive(s, ios, image, answer) == Some((u, out + more))
  {
    var r := Drive(s, ios[..|ios| - 1], image, answer).value;
    t, out := r.0, r.1;
  }

  /** First some calls and then others. */
  lemma {:induction false} DriveInTwo(s: Session, a: seq<Io>, b: seq<Io>, image: seq<Byte>, answer: seq<Byte>,
          t: Session, out: seq<Byte>, u: Session, more: seq<Byte>)
    requires |answer| == 4 && Fine(s) && Fine(t)
    requires Drive(s, a, image, answer) == Some((t, out)) && Drive(t, b, image, answer) == Some((u, more))
    ensures Drive(s, a + b, image, answer) == Some((u, out + more))
  {
    if b == [] {
      assert a + b == a && out + more == out;
    } else {
      var n := |b| - 1;
      var v, part := DriveBack(t, b, image, answer);
      DriveInTwo(s, a, b[..n], image, answer, t, out, v, part);
      var last := Handle(v, b[n], image, answer).1;
      LastOfBoth(a, b);
      DriveOn(s, a + b, image, answer, v, out + part, u, last);
      Concatenated(out, part, last);
    }
  }

  lemma LastOfBoth(a: seq<Io>, b: seq<Io>)
    requires b != []
    ensures var c := a + b;
      c != [] && c[..|c| - 1] == a + b[..|b| - 1] && c[|c| - 1] == b[|b| - 1]
  {}

  lemma Concatenated(a: seq<Byte>, b: seq<Byte>, c: seq<Byte>)
    ensures a + (b + c) == a + b + c
  {}

  // ----- one exchange -----

  predicate Retry(io: Io) { io.ret < 0 && io.again }

  predicate Retries(ios: seq<Io>) { forall k | 0 <= k < |ios| :: Retry(ios[k]) }

  lemma {:induction false} RetriesWait(s: Session, ios: seq<Io>, image: seq<Byte>, answer: seq<Byte>)
    requires Live(s) && |answer| == 4 && Retries(ios)
    ensures Drive(s, ios, image, answer) == Some((s, []))
  {
    if ios != [] {
      RetriesWait(s, ios[..|ios| - 1], image, answer);
      DriveOn(s, ios, image, answer, s, [], s, []);
      NothingFirst([]);
    }
  }

  lemma NothingFirst(b: seq<Byte>)
    ensures [] + b == b
  {}

  /** A command and what it takes: reads that come too early, the command byte, the writes; the
      image of the table and the answer at that time. */
  datatype Exchange = Exchange(early: seq<Io>, op: Byte, writes: seq<Io>, image: seq<Byte>, answer: seq<Byte>)

  /** Command 0 asks for the state, which is written in any pieces; 1 and 2 are the service
      commands, whose answer is written at once. Each write may be retried. */
  predicate Proper(x: Exchange) {
    && Retries(x.early) && |x.answer| == 4 && x.writes != []
    && var last := x.writes[|x.writes| - 1];
       if x.op == 0 then Progressing(x.writes) && last.ret > 0 && Accepted(x.writes) == |x.image|
       else (x.op == 1 || x.op == 2) && Retries(x.writes[..|x.writes| - 1]) && last.ret == 4
  }

  function Calls(x: Exchange): seq<Io> { x.early + [Io(1, false, x.op)] + x.writes }

  function Reply(x: Exchange): seq<Byte> { if x.op == 0 then x.image else x.answer }

  lemma Commanded(s: Session, x: Exchange)
    requires Waiting(s) && Proper(x)
    ensures var t := NewCommand(s, x.op, x.image, x.answer);
      && Fine(t) && Drive(s, x.early + [Io(1, false, x.op)], x.image, x.answer) == Some((t, []))
      && (if x.op == 0 then Sending(t) && t.buffer == x.image && t.written == 0
          else Answering(t) && t.answer == x.answer)
  {
    var io := Io(1, false, x.op);
    RetriesWait(s, x.early, x.image, x.answer);
    assert (x.early + [io])[..|x.early|] == x.early;
    DriveOn(s, x.early + [io], x.image, x.answer, s, [], NewCommand(s, x.op, x.image, x.answer), []);
    NothingFirst([]);
  }

  lemma Answered(s: Session, ios: seq<Io>, image: seq<Byte>, answer: seq<Byte>)
    requires Answering(s) && |answer| == 4 && ios != [] && Retries(ios[..|ios| - 1]) && ios[|ios| - 1].ret == 4
    ensures Drive(s, ios, image, answer) == Some((Idle(s), s.answer))
  {
    RetriesWait(s, ios[..|ios| - 1], image, answer);
    assert s.answer[..4] == s.answer;
    DriveOn(s, ios, image, answer, s, [], Idle(s), s.answer);
    NothingFirst(s.answer);
  }

  /** After one exchange the client has got the reply, the whole of it and nothing else, and
      the session waits for the next command. */
  lemma Exchanged(s: Session, x: Exchange)
    requires Waiting(s) && Proper(x)
    ensures var r := Drive(s, Calls(x), x.image, x.answer);
      r.Some? && Waiting(r.value.0) && r.value.1 == Reply(x)
  {
    Commanded(s, x);
    var t := NewCommand(s, x.op, x.image, x.answer);
    var u := if x.op == 0 then Idle(t.(written := |t.buffer|)) else Idle(t);
    if x.op == 0 {
      SendsAllOnce(t, x.writes, x.image, x.answer);
      assert t.buffer[0..] == x.image;
    } else {
      Answered(t, x.writes, x.image, x.answer);
    }
    DriveInTwo(s, x.early + [Io(1, false, x.op)], x.writes, x.image, x.answer, t, [], u, Reply(x));
    NothingFirst(Reply(x));
  }

  // ----- a whole conversation -----

  /** The session and everything the client has got after the exchanges. */
  function Converse(s: Session, xs: seq<Exchange>): Option<(Session, seq<Byte>)>
    requires Fine(s)
    ensures var r := Converse(s, xs);
      r.Some? ==> Fine(r.value.0)
  {
    if xs == [] then Some((s, []))
    else
      var x := xs[|xs| - 1];
      match Converse(s, xs[..|xs| - 1])
      case None => None
      case Some((t, out)) =>
        if |x.answer| != 4 then None
        else
          match Drive(t, Calls(x), x.image, x.answer)
          case None => None
          case Some((u, more)) => Some((u, out + more))
  }

  function Replies(xs: seq<Exchange>): seq<Byte> {
    if xs == [] then [] else Replies(xs[..|xs| - 1]) + Reply(xs[|xs| - 1])
  }

  /** Over one connection the client gets the reply to each of its commands, in their order, and
      nothing else; the session is never closed and waits for the next one. */
  lemma {:induction false} Conversation(s: Session, xs: seq<Exchange>)
    requires Waiting(s) && forall k | 0 <= k < |xs| :: Proper(xs[k])
    ensures var r := Converse(s, xs);
      r.Some? && Waiting(r.value.0) && r.value.1 == Replies(xs)
  {
    if xs != [] {
      var n := |xs| - 1;
      Conversation(s, xs[..n]);
      Exchanged(Converse(s, xs[..n]).value.0, xs[n]);
    }
  }
}
