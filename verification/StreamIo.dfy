// The buffered stream of src/libmemcached/io.cc with the purge of purge.cc, as functions of the state
// and of what the operating system will answer.  Module Instance holds the same as methods on buffers.
module StreamIo {
  import opened Octets

  const MAX_BUFFER: nat := 8196

  // Answers of send: at most n bytes taken, ENOBUFS, EAGAIN, or a fatal error.
  datatype SendAnswer = Sent(n: nat) | NoBuffers | WouldBlock | Broken

  // Answers of recv: at most n bytes, EINTR, EAGAIN, or a fatal error.
  datatype RecvAnswer = Received(n: nat) | Interrupted | NotReady | Failed

  // Answers of memcached_io_poll: ready, MEMCACHED_TIMEOUT, or another error, which closes the
  // connection if it is a hang-up.
  datatype PollAnswer = Ready | TimedOut | PollFailed(hangup: bool)

  // What memcached_read_one_response says of a reply: not fatal, fatal, or one of the three fatal codes
  // that a purge reports.
  datatype ReplyCode = Fine | Fatal | OutOfSync

  // A reply of length bytes; more says that it announces another one (VALUE, STAT, ITEM, GETKQ).
  datatype Reply = Reply(length: nat, more: bool, code: ReplyCode)

  // Everything outside the client: the answers still to come (a call beyond the last one fails), the
  // replies, and the bytes not yet received.
  datatype Env = Env(sends: seq<SendAnswer>, recvs: seq<RecvAnswer>, polls: seq<PollAnswer>,
                     replies: seq<Reply>, incoming: Bytes)

  datatype Io = Io(
    // write_buffer[..write_buffer_offset], and the unread part of read_buffer
    wbuf: Bytes, rbuf: Bytes,
    // io_bytes_sent, the response count, is_purging, poll_timeout, and whether fd is valid
    bytesSent: nat, pending: nat, purging: bool, timeout: int, open: bool,
    // io_msg_watermark and io_bytes_watermark
    msgMark: nat, byteMark: nat,
    env: Env,
    // bytes on the wire, bytes handed to readers, and how often a purge ran inside a send loop
    wire: Bytes, consumed: Bytes, replays: nat)

  function Min(x: nat, y: nat): nat { if x < y then x else y }

  // memcached_quit_server: close_socket drops both buffers and all expectations.
  function Close(s: Io): Io {
    s.(wbuf := [], rbuf := [], bytesSent := 0, pending := 0, open := false)
  }

  // ---------------------------------------------------------------- receiving

  function PopRecv(s: Io): Io
    requires s.env.recvs != []
  {
    s.(env := s.env.(recvs := s.env.recvs[1..]))
  }

  // How many bytes the next recv into room bytes delivers.
  function Delivered(s: Io, room: nat): (m: nat)
    requires s.env.recvs != [] && s.env.recvs[0].Received?
    ensures m <= room && m <= |s.env.incoming|
  {
    Min(s.env.recvs[0].n, Min(room, |s.env.incoming|))
  }

  function Take(s: Io, m: nat): Io
    requires m <= |s.env.incoming|
  {
    s.(rbuf := s.rbuf + s.env.incoming[..m], env := s.env.(incoming := s.env.incoming[m..]))
  }

  // repack_input_buffer: one attempt to receive more, with no retry even when interrupted.
  function Repack(s: Io): (r: (Io, bool))
    ensures |r.0.env.sends| == |s.env.sends|
  {
    if |s.rbuf| >= MAX_BUFFER || s.env.recvs == [] then (s, false)
    else if s.env.recvs[0].Received? then
      var m := Delivered(s, MAX_BUFFER - |s.rbuf|);
      (Take(PopRecv(s), m), m > 0)
    else (PopRecv(s), false)
  }

  // memcached_io_poll after EAGAIN: with poll_timeout zero it does not even poll.
  function Poll(s: Io): (r: (Io, PollAnswer))
    ensures |r.0.env.sends| == |s.env.sends|
  {
    if s.timeout == 0 || s.env.polls == [] then (s, TimedOut)
    else
      var s0 := s.(env := s.env.(polls := s.env.polls[1..]));
      (if s.env.polls[0] == PollFailed(true) then Close(s0) else s0, s.env.polls[0])
  }

  // _io_fill, on an empty read buffer.
  function Fill(s: Io): (r: (Io, bool))
    ensures |r.0.env.sends| == |s.env.sends| && r.0.consumed == s.consumed
    ensures r.1 ==> r.0.bytesSent == 0
    decreases |s.env.recvs|
  {
    if s.env.recvs == [] then (Close(s), false)
    else match s.env.recvs[0]
         case Received(_) =>
           var m := Delivered(s, MAX_BUFFER);
           if m == 0 then (Close(PopRecv(s)), false)
           else (Take(PopRecv(s), m).(bytesSent := 0), true)
         case Interrupted => Fill(PopRecv(s))
         case NotReady =>
           var (s1, answer) := Poll(PopRecv(s));
           if answer == Ready then Fill(s1) else (s1, false)
         case Failed => (Close(PopRecv(s)), false)
  }

  // Hand the first m unread bytes to the reader.
  function Consume(s: Io, m: nat): Io
    requires m <= |s.rbuf|
  {
    s.(rbuf := s.rbuf[m..], consumed := s.consumed + s.rbuf[..m])
  }

  // memcached_io_read of length bytes, and memcached_safe_read, which repeats it until all are there.
  function Read(s: Io, length: nat): (r: (Io, bool))
    ensures |r.0.env.sends| == |s.env.sends| && s.consumed <= r.0.consumed
    ensures r.1 ==> |r.0.consumed| == |s.consumed| + length
    decreases length
  {
    if length == 0 then (s, true)
    else if !s.open then (s, false)
    else
      var (s1, ok) := if s.rbuf == [] then Fill(s) else (s, true);
      if !ok || s1.rbuf == [] then (s1, false)
      else
        var m := Min(length, |s1.rbuf|);
        Read(Consume(s1, m), length - m)
  }

  const NEWLINE: Byte := 10

  datatype LineOutcome = Complete | TooLong | ReadFailed

  function NextByte(s: Io): (r: (Io, bool))
    ensures r.1 ==> r.0.consumed != []
  {
    if s.rbuf == [] then Read(s, 1) else (Consume(s, 1), true)
  }

  // memcached_io_readline with got already in a buffer of size bytes.
  function ReadLine(s: Io, got: Bytes, size: nat): (r: (Io, Bytes, LineOutcome))
    requires |got| < size
    decreases size - |got|, 0
  {
    var (s1, ok) := NextByte(s);
    if !ok then (s1, got, ReadFailed) else AfterByte(s1, got + [s1.consumed[|s1.consumed| - 1]], size)
  }

  // A line that fills the buffer is refused, even a complete one.
  function AfterByte(s: Io, got: Bytes, size: nat): (r: (Io, Bytes, LineOutcome))
    requires 0 < |got| <= size
    decreases size - |got|, 1
  {
    if |got| == size then (s, got, TooLong)
    else if got[|got| - 1] == NEWLINE then (s, got, Complete)
    else ReadLine(s, got, size)
  }

  function PopReply(s: Io): Io
    requires s.env.replies != []
  {
    s.(env := s.env.(replies := s.env.replies[1..]), pending := if s.pending > 0 then s.pending - 1 else 0)
  }

  // memcached_read_one_response: one fewer reply is expected, or as many as before if it announces
  // another; a failed read or a fatal code closes the connection, and nothing is read from a closed one.
  // The flag says that a purge has nothing to report.
  function ReadReply(s: Io): (r: (Io, bool))
    ensures |r.0.env.sends| == |s.env.sends|
  {
    if s.env.replies == [] then (Close(s), true)
    else
      var reply := s.env.replies[0];
      var (s1, ok) := Read(PopReply(s), reply.length);
      if !ok || !s1.open || reply.code != Fine then (Close(s1), reply.code != OutOfSync)
      else (s1.(pending := s1.pending + if reply.more then 1 else 0), true)
  }

  // The loop of memcached_purge: it goes on after a failure and reports it at the end.
  function ReadReplies(s: Io, n: nat): (r: (Io, bool))
    ensures |r.0.env.sends| == |s.env.sends|
    decreases n
  {
    if n == 0 then (s, true)
    else
      var (s1, ok1) := ReadReply(s);
      var (s2, ok2) := ReadReplies(s1, n - 1);
      (s2, ok1 && ok2)
  }

  // ---------------------------------------------------------------- sending

  function PopSend(s: Io): (r: Io)
    requires s.env.sends != []
    ensures r.env.sends == s.env.sends[1..]
  {
    s.(env := s.env.(sends := s.env.sends[1..]))
  }

  function PutOnWire(s: Io, data: Bytes): (r: Io)
    ensures r.env == s.env
  {
    s.(wire := s.wire + data, bytesSent := s.bytesSent + |data|)
  }

  // memcached_purge has something to do.
  predicate Due(s: Io) {
    !s.purging
    && !(s.pending < s.msgMark && s.bytesSent < s.byteMark)
    && !(s.bytesSent >= s.byteMark && s.pending < 2)
  }

  // memcached_purge.  The guards set is_purging and poll_timeout on the way in and restore both on the
  // way out; while is_purging is set every other purge is skipped.
  function Purge(s: Io): (r: (Io, bool))
    ensures |r.0.env.sends| <= |s.env.sends|
    decreases |s.env.sends|, 1
  {
    if !Due(s) then (s, true)
    else
      var (s1, flushed) := SendLoop(s.(purging := true), s.wbuf);
      if !flushed then (Close(s1).(purging := false), false)
      else if s1.pending <= 1 then (s1.(purging := false), true)
      else
        var (s2, ok) := ReadReplies(s1.(timeout := 50), s1.pending - 1);
        (s2.(purging := false, timeout := s.timeout), ok)
  }

  // io_wait for POLLOUT: it purges before it polls.
  function Wait(s: Io): (r: (Io, PollAnswer))
    ensures |r.0.env.sends| <= |s.env.sends|
    decreases |s.env.sends|, 2
  {
    var (s1, purged) := Purge(s);
    var s2 := if Due(s) then s1.(replays := s1.replays + 1) else s1;
    if !purged || !s2.open then (s2, PollFailed(true)) else Poll(s2)
  }

  // The loop of io_flush, with rest still to be sent; write_buffer_offset changes only at its end.
  function SendLoop(s: Io, rest: Bytes): (r: (Io, bool))
    ensures |r.0.env.sends| <= |s.env.sends|
    ensures r.1 ==> r.0.wbuf == []
    decreases |s.env.sends|, 0
  {
    if rest == [] then (s.(wbuf := []), true)
    else if !s.open || s.env.sends == [] then (Close(s), false)
    else
      var s0 := PopSend(s);
      match s.env.sends[0]
      case Sent(n) =>
        var m := Min(n, |rest|);
        SendLoop(PutOnWire(s0, rest[..m]), rest[m..])
      case NoBuffers => SendLoop(s0, rest)
      case WouldBlock =>
        var (s1, got) := Repack(s0);
        if got then SendLoop(s1, rest)
        else
          var (s2, answer) := Wait(s1);
          if answer == Ready then SendLoop(s2, rest)
          else (if answer == TimedOut then s2 else Close(s2), false)
      case Broken => (Close(s0), false)
  }

  // One round of the loop, so that proofs need not look further into it.

  lemma SendEnds(s: Io, rest: Bytes)
    ensures rest == [] ==> SendLoop(s, rest) == (s.(wbuf := []), true)
    ensures rest != [] && (!s.open || s.env.sends == []) ==> SendLoop(s, rest) == (Close(s), false)
    ensures rest != [] && s.open && s.env.sends != [] && s.env.sends[0] == Broken ==>
              SendLoop(s, rest) == (Close(PopSend(s)), false)
  {
  }

  lemma SendSome(s: Io, rest: Bytes)
    requires rest != [] && s.open && s.env.sends != []
    ensures s.env.sends[0] == NoBuffers ==> SendLoop(s, rest) == SendLoop(PopSend(s), rest)
    ensures s.env.sends[0].Sent? ==>
              var m := Min(s.env.sends[0].n, |rest|);
              SendLoop(s, rest) == SendLoop(PutOnWire(PopSend(s), rest[..m]), rest[m..])
  {
    hide Repack, Wait, PopSend, PutOnWire;
  }

  lemma SendBlocked(s: Io, rest: Bytes)
    requires rest != [] && s.open && s.env.sends != [] && s.env.sends[0] == WouldBlock
    ensures var (s1, got) := Repack(PopSend(s));
            SendLoop(s, rest) ==
            if got then SendLoop(s1, rest)
            else var (s2, answer) := Wait(s1);
                 if answer == Ready then SendLoop(s2, rest) else (if answer == TimedOut then s2 else Close(s2), false)
  {
    hide Repack, Wait, PopSend;
  }

  // io_flush: the purge comes first, and only then is the buffer looked at.
  function Flush(s: Io): (r: (Io, bool))
    ensures |r.0.env.sends| <= |s.env.sends|
    ensures r.1 ==> r.0.wbuf == []
  {
    var (s1, purged) := Purge(s);
    if !purged then (s1, false) else SendLoop(s1, s1.wbuf)
  }

  // _io_write: fill the buffer, flushing it whenever it is full and at the end if asked to.
  function Write(s: Io, data: Bytes, withFlush: bool): (r: (Io, bool))
    requires |s.wbuf| <= MAX_BUFFER
    ensures r.1 ==> |r.0.wbuf| <= MAX_BUFFER
    decreases |data|, |s.wbuf|
  {
    if data == [] then if withFlush then Flush(s) else (s, true)
    else
      var take := Min(MAX_BUFFER - |s.wbuf|, |data|);
      var s1 := s.(wbuf := s.wbuf + data[..take]);
      if |s1.wbuf| < MAX_BUFFER then Write(s1, data[take..], withFlush)
      else
        var (s2, ok) := Flush(s1);
        if ok then Write(s2, data[take..], withFlush) else (s2, false)
  }

  // memcached_io_writev.
  function Writev(s: Io, vector: seq<Bytes>, withFlush: bool): (r: (Io, bool))
    requires |s.wbuf| <= MAX_BUFFER
    ensures r.1 ==> |r.0.wbuf| <= MAX_BUFFER
    decreases |vector|
  {
    if vector == [] then if withFlush then Write(s, [], true) else (s, true)
    else
      var (s1, ok) := Write(s, vector[0], false);
      if ok then Writev(s1, vector[1..], withFlush) else (s1, false)
  }

  // ---------------------------------------------------------------- the read side

  // Bytes handed out, waiting in the buffer and still to come: while the connection is open, their
  // concatenation never changes.
  ghost function Stream(s: Io): Bytes {
    s.consumed + s.rbuf + s.env.incoming
  }

  // What receiving leaves alone, and what it conserves.
  ghost predicate ReadOnly(a: Io, b: Io) {
    && b.wire == a.wire && b.replays == a.replays && b.env.sends == a.env.sends
    && b.purging == a.purging && b.timeout == a.timeout && b.msgMark == a.msgMark && b.byteMark == a.byteMark
    && (b.wbuf == a.wbuf || b.wbuf == [])
    && (b.open ==> a.open && b.wbuf == a.wbuf && Stream(b) == Stream(a))
  }

  lemma TakeConserves(s: Io, m: nat)
    requires m <= |s.env.incoming|
    ensures Stream(Take(s, m)) == Stream(s)
  {
    assert s.env.incoming == s.env.incoming[..m] + s.env.incoming[m..];
  }

  lemma ConsumeConserves(s: Io, m: nat)
    requires m <= |s.rbuf|
    ensures Stream(Consume(s, m)) == Stream(s)
  {
    assert s.rbuf == s.rbuf[..m] + s.rbuf[m..];
  }

  lemma RepackConserves(s: Io)
    ensures ReadOnly(s, Repack(s).0)
    ensures var r := Repack(s).0; r.open == s.open && r.pending == s.pending && r.bytesSent == s.bytesSent
    ensures |s.rbuf| <= MAX_BUFFER ==> |Repack(s).0.rbuf| <= MAX_BUFFER
  {
    if |s.rbuf| < MAX_BUFFER && s.env.recvs != [] && s.env.recvs[0].Received? {
      TakeConserves(PopRecv(s), Delivered(s, MAX_BUFFER - |s.rbuf|));
    }
  }

  lemma {:induction false} FillConserves(s: Io)
    requires s.rbuf == []
    ensures ReadOnly(s, Fill(s).0)
    ensures Fill(s).0.open ==> Fill(s).0.pending == s.pending
    ensures Fill(s).1 ==> Fill(s).0.open == s.open && 0 < |Fill(s).0.rbuf|
    ensures |Fill(s).0.rbuf| <= MAX_BUFFER && Fill(s).0.env.replies == s.env.replies
    decreases |s.env.recvs|
  {
    hide ReadOnly;
    if s.env.recvs == [] {
      SameStream(s, Close(s));
    } else {
      var s0, r := PopRecv(s), Fill(s).0;
      SameStream(s, s0);
      SameStream(s, Close(s0));
      match s.env.recvs[0]
      case Received(_) =>
        var m := Delivered(s, MAX_BUFFER);
        TakeConserves(s0, m);
        if m > 0 {
          SameStream(s, r);
        }
      case Interrupted =>
        FillConserves(s0);
        SameStreamThen(s, s0, r);
      case NotReady =>
        var (s1, answer) := Poll(s0);
        SameStream(s, s1);
        if answer == Ready {
          FillConserves(s1);
          SameStreamThen(s, s1, r);
        }
      case Failed =>
    }
  }

  lemma SameStream(a: Io, b: Io)
    requires b == a.(rbuf := b.rbuf, env := b.env, bytesSent := b.bytesSent) || b == Close(a).(env := b.env)
    requires b.env.sends == a.env.sends && (b.open ==> Stream(b) == Stream(a))
    ensures ReadOnly(a, b)
  {
  }

  lemma SameStreamThen(a: Io, b: Io, c: Io)
    requires ReadOnly(a, b) && ReadOnly(b, c)
    ensures ReadOnly(a, c)
  {
  }

  // A successful read hands out exactly the next length bytes of the stream.
  lemma {:induction false} ReadExact(s: Io, length: nat)
    requires |s.rbuf| <= MAX_BUFFER
    ensures var (r, ok) := Read(s, length);
            && ReadOnly(s, r)
            && (r.open ==> r.pending == s.pending) && r.env.replies == s.env.replies
            && (ok ==> r.open == s.open) && |r.rbuf| <= MAX_BUFFER
    decreases length
  {
    if length > 0 && s.open {
      if s.rbuf == [] {
        FillConserves(s);
      }
      var (s1, ok) := if s.rbuf == [] then Fill(s) else (s, true);
      if ok && s1.rbuf != [] {
        var m := Min(length, |s1.rbuf|);
        ConsumeConserves(s1, m);
        ReadExact(Consume(s1, m), length - m);
      }
    }
  }

  lemma ReadGives(s: Io, length: nat)
    requires |s.rbuf| <= MAX_BUFFER && s.open && Read(s, length).1
    ensures |s.consumed| + length <= |Stream(s)|
    ensures Read(s, length).0.consumed == Stream(s)[..|s.consumed| + length]
  {
    ReadExact(s, length);
    var r := Read(s, length).0;
    assert r.consumed <= Stream(r);
  }

  // What was handed out as a line: bytes of the stream, in order, up to the first newline, which is the
  // last of them just when the line is complete or fills the buffer.
  ghost predicate IsLine(line: Bytes, size: nat, outcome: LineOutcome) {
    match outcome
    case Complete => 0 < |line| < size && line[|line| - 1] == NEWLINE && NEWLINE !in line[..|line| - 1]
    case TooLong => |line| == size > 0 && NEWLINE !in line[..size - 1]
    case ReadFailed => |line| < size && NEWLINE !in line
  }

  lemma {:induction false} LineExact(s: Io, got: Bytes, size: nat)
    requires |s.rbuf| <= MAX_BUFFER && |got| < size && NEWLINE !in got
    ensures var (r, line, outcome) := ReadLine(s, got, size);
            ReadOnly(s, r) && got <= line && IsLine(line, size, outcome)
            && (outcome != ReadFailed ==> r.open == s.open && r.consumed == s.consumed + line[|got|..])
    decreases size - |got|
  {
    hide NextByte, ReadOnly;
    ByteExact(s);
    var (s1, ok) := NextByte(s);
    if ok {
      var b := s1.consumed[|s1.consumed| - 1];
      var got1 := got + [b];
      assert got1[..|got|] == got;
      if |got1| < size && b != NEWLINE {
        LineExact(s1, got1, size);
        assert ReadLine(s, got, size) == AfterByte(s1, got1, size) == ReadLine(s1, got1, size);
        SameStreamThen(s, s1, ReadLine(s1, got1, size).0);
      }
    }
  }

  lemma ByteExact(s: Io)
    requires |s.rbuf| <= MAX_BUFFER
    ensures var (r, ok) := NextByte(s);
            ReadOnly(s, r) && |r.rbuf| <= MAX_BUFFER
            && (ok ==> r.open == s.open && r.consumed == s.consumed + [r.consumed[|r.consumed| - 1]])
  {
    hide Read;
    if s.rbuf == [] {
      ReadExact(s, 1);
    } else {
      ConsumeConserves(s, 1);
    }
  }

  // How many of the first n replies announce another one.
  function More(replies: seq<Reply>, n: nat): nat {
    if n == 0 || replies == [] then 0
    else More(replies[1..], n - 1) + if replies[0].more then 1 else 0
  }

  lemma {:induction false} RepliesRead(s: Io, n: nat)
    requires |s.rbuf| <= MAX_BUFFER && (s.open ==> n <= s.pending)
    ensures var r := ReadReplies(s, n).0;
            && ReadOnly(s, r) && |r.rbuf| <= MAX_BUFFER
            && (r.open ==> r.pending == s.pending - n + More(s.env.replies, n))
    decreases n
  {
    hide Read;
    if n > 0 {
      OneReplyRead(s);
      RepliesRead(ReadReply(s).0, n - 1);
    }
  }

  lemma OneReplyRead(s: Io)
    requires |s.rbuf| <= MAX_BUFFER
    ensures var r := ReadReply(s).0;
            && ReadOnly(s, r) && |r.rbuf| <= MAX_BUFFER
            && (r.open ==> s.env.replies != [] && r.env.replies == s.env.replies[1..])
            && (r.open && s.pending > 0 ==> r.pending == s.pending - 1 + More(s.env.replies, 1))
  {
    hide Read;
    if s.env.replies != [] {
      ReadExact(PopReply(s), s.env.replies[0].length);
    }
  }

  // ---------------------------------------------------------------- the write side

  // What every operation leaves as it was, and what it conserves on the read side.
  ghost predicate Frame(a: Io, b: Io) {
    && b.purging == a.purging && b.timeout == a.timeout && b.msgMark == a.msgMark && b.byteMark == a.byteMark
    && |b.rbuf| <= MAX_BUFFER && b.replays >= a.replays
    && (b.open ==> a.open && Stream(b) == Stream(a))
  }

  // rest with w sent once more after its first k bytes.
  function Resent(rest: Bytes, w: Bytes, k: nat): Bytes
    requires k <= |rest|
  {
    rest[..k] + w + rest[k..]
  }

  lemma ResentLater(before: Bytes, rest: Bytes, w: Bytes, m: nat, k: nat)
    requires m + k <= |rest|
    ensures before + Resent(rest, w, m + k) == before + rest[..m] + Resent(rest[m..], w, k)
  {
    assert rest[..m + k] == rest[..m] + rest[m..][..k] && rest[m + k..] == rest[m..][k..];
  }

  // A purge ran inside the loop: somewhere in rest the buffer was sent as well.
  ghost predicate Replayed(s: Io, rest: Bytes, r: Io, ok: bool) {
    exists k: nat :: k <= |rest|
      && r.wire <= s.wire + Resent(rest, s.wbuf, k) && (ok ==> r.wire == s.wire + Resent(rest, s.wbuf, k))
  }

  // A send loop from s over rest ended in r.
  ghost predicate Looped(s: Io, rest: Bytes, r: Io, ok: bool) {
    && Frame(s, r)
    && (s.purging ==> r.replays == s.replays)
    && (s.purging && ok ==> r.pending == s.pending && r.env.replies == s.env.replies)
    && (ok ==> r.wbuf == [] && (rest != [] ==> r.open))
    && (r.replays == s.replays ==> s.wire <= r.wire <= s.wire + rest && (ok ==> r.wire == s.wire + rest))
    && (r.replays > s.replays ==> Replayed(s, rest, r, ok))
  }

  // Replies expected after a purge: all but one are read, but some announce others.
  ghost function Outstanding(s: Io): nat {
    if s.pending <= 1 then s.pending else 1 + More(s.env.replies, s.pending - 1)
  }

  // A purge from s ended in r.
  ghost predicate Purged(s: Io, r: Io, ok: bool) {
    && Frame(s, r) && r.replays == s.replays
    && (if Due(s) then s.wire <= r.wire <= s.wire + s.wbuf else r == s && ok)
    && (Due(s) && ok ==> r.wire == s.wire + s.wbuf && r.wbuf == [] && (r.open ==> r.pending == Outstanding(s)))
  }

  lemma {:induction false} PurgeLaw(s: Io)
    requires |s.rbuf| <= MAX_BUFFER
    ensures Purged(s, Purge(s).0, Purge(s).1)
    decreases |s.env.sends|, 1
  {
    hide SendLoop, ReadReplies;
    if Due(s) {
      var s0 := s.(purging := true);
      SendLoopLaw(s0, s.wbuf);
      var (s1, flushed) := SendLoop(s0, s.wbuf);
      if flushed && s1.pending > 1 {
        RepliesRead(s1.(timeout := 50), s1.pending - 1);
      }
    }
  }

  lemma {:induction false} SendLoopLaw(s: Io, rest: Bytes)
    requires |s.rbuf| <= MAX_BUFFER
    ensures Looped(s, rest, SendLoop(s, rest).0, SendLoop(s, rest).1)
    decreases |s.env.sends|, 0
  {
    hide SendLoop, Looped;
    SendEnds(s, rest);
    if rest == [] {
      LoopedNothing(s);
    } else if !s.open || s.env.sends == [] {
      LoopStopped(s, rest, Close(s));
    } else {
      var s0 := PopSend(s);
      var (r, ok) := SendLoop(s, rest);
      match s.env.sends[0]
      case Sent(n) =>
        var m := Min(n, |rest|);
        SendSome(s, rest);
        SendLoopLaw(PutOnWire(s0, rest[..m]), rest[m..]);
        SendEnds(PutOnWire(s0, rest[..m]), rest[m..]);
        LoopedSent(s, rest, m, r, ok);
      case NoBuffers =>
        SendSome(s, rest);
        SendLoopLaw(s0, rest);
        LoopedFrom(s, s0, rest, r, ok);
      case WouldBlock =>
        BlockedLaw(s, s0, rest);
      case Broken =>
        LoopStopped(s, rest, Close(s0));
    }
  }

  lemma LoopedNothing(s: Io)
    requires |s.rbuf| <= MAX_BUFFER
    ensures Looped(s, [], s.(wbuf := []), true)
  {
  }

  lemma LoopedSent(s: Io, rest: Bytes, m: nat, r: Io, ok: bool)
    requires m <= |rest| && s.env.sends != [] && s.open && rest != []
    requires Looped(PutOnWire(PopSend(s), rest[..m]), rest[m..], r, ok)
    requires rest[m..] == [] && ok ==> r.open
    ensures Looped(s, rest, r, ok)
  {
    assert rest == rest[..m] + rest[m..];
    var s' := PutOnWire(PopSend(s), rest[..m]);
    if r.replays > s.replays {
      var k: nat :|
        && k <= |rest[m..]| && r.wire <= s'.wire + Resent(rest[m..], s.wbuf, k)
        && (ok ==> r.wire == s'.wire + Resent(rest[m..], s.wbuf, k));
      ResentLater(s.wire, rest, s.wbuf, m, k);
    }
  }

  // The wait for the socket purged, or did not; then nothing else changed.
  ghost predicate Waited(s: Io, r: Io, ready: bool) {
    && Frame(s, r)
    && (if r.replays == s.replays then
          && r.wire == s.wire
          && (ready ==> r.open && r.wbuf == s.wbuf && r.pending == s.pending && r.env.replies == s.env.replies)
        else
          && r.replays == s.replays + 1 && !s.purging && s.wire <= r.wire <= s.wire + s.wbuf
          && (ready ==> r.open && r.wire == s.wire + s.wbuf && r.wbuf == []))
  }

  lemma WaitLaw(s: Io)
    requires |s.rbuf| <= MAX_BUFFER && s.open
    ensures Waited(s, Wait(s).0, Wait(s).1 == Ready)
    decreases |s.env.sends|, 2
  {
    hide Purge, Poll, Due, Outstanding;
    PurgeLaw(s);
    var s1 := Purge(s).0;
    Polled(if Due(s) then s1.(replays := s1.replays + 1) else s1);
    if Due(s) {
      OutsidePurge(s);
    }
  }

  lemma Polled(s: Io)
    requires |s.rbuf| <= MAX_BUFFER
    ensures var (r, answer) := Poll(s);
            && Frame(s, r) && r.replays == s.replays && r.wire == s.wire
            && (answer == Ready ==> r.open == s.open && r.wbuf == s.wbuf && r.pending == s.pending
                                    && r.env.replies == s.env.replies)
  {
  }

  lemma OutsidePurge(s: Io)
    requires Due(s)
    ensures !s.purging
  {
  }

  lemma {:induction false} BlockedLaw(s: Io, s0: Io, rest: Bytes)
    requires s.open && |s.rbuf| <= MAX_BUFFER && rest != [] && s.env.sends != [] && s.env.sends[0] == WouldBlock
    requires s0 == PopSend(s)
    ensures Looped(s, rest, SendLoop(s, rest).0, SendLoop(s, rest).1)
    decreases |s0.env.sends|, 3
  {
    hide Wait, Looped, SendLoop;
    SendBlocked(s, rest);
    var (s1, got) := Repack(s0);
    RepackConserves(s0);
    var (r, ok) := SendLoop(s, rest);
    if got {
      SendLoopLaw(s1, rest);
      LoopedFrom(s, s1, rest, r, ok);
    } else {
      WaitLaw(s1);
      var (s2, answer) := Wait(s1);
      if answer != Ready {
        LoopStopped(s, rest, r);
      } else {
        SendLoopLaw(s2, rest);
        if s2.replays > s1.replays {
          LoopedAfterResend(s, s2, rest, r, ok);
        } else {
          LoopedFrom(s, s2, rest, r, ok);
        }
      }
    }
  }

  lemma LoopedFrom(s: Io, s': Io, rest: Bytes, r: Io, ok: bool)
    requires Frame(s, s') && s'.open && s'.wire == s.wire && s'.wbuf == s.wbuf && s'.replays == s.replays
    requires s.purging ==> s'.pending == s.pending && s'.env.replies == s.env.replies
    requires Looped(s', rest, r, ok)
    ensures Looped(s, rest, r, ok)
  {
    if r.replays > s.replays {
      var k: nat :| k <= |rest|
        && r.wire <= s'.wire + Resent(rest, s'.wbuf, k) && (ok ==> r.wire == s'.wire + Resent(rest, s'.wbuf, k));
      assert s.wire + Resent(rest, s.wbuf, k) == s'.wire + Resent(rest, s'.wbuf, k);
    }
  }

  lemma LoopedAfterResend(s: Io, s': Io, rest: Bytes, r: Io, ok: bool)
    requires Frame(s, s') && s'.open && s'.wire == s.wire + s.wbuf && s'.wbuf == [] && s'.replays == s.replays + 1
    requires !s.purging && Looped(s', rest, r, ok)
    ensures Looped(s, rest, r, ok)
  {
    hide Replayed;
    ReplayedAfter(s, s', rest, r, ok);
  }

  lemma ReplayedAfter(s: Io, s': Io, rest: Bytes, r: Io, ok: bool)
    requires s'.wire == s.wire + s.wbuf && s'.wbuf == []
    requires (r.wire <= s'.wire + rest && (ok ==> r.wire == s'.wire + rest)) || Replayed(s', rest, r, ok)
    ensures Replayed(s, rest, r, ok)
  {
    assert Resent(rest, s.wbuf, 0) == s.wbuf + rest && s.wire + (s.wbuf + rest) == s'.wire + rest;
    if Replayed(s', rest, r, ok) {
      var k: nat :| k <= |rest|
        && r.wire <= s'.wire + Resent(rest, [], k) && (ok ==> r.wire == s'.wire + Resent(rest, [], k));
      assert Resent(rest, [], k) == rest;
    }
  }

  lemma LoopStopped(s: Io, rest: Bytes, r: Io)
    requires Frame(s, r)
    requires if r.replays == s.replays then r.wire == s.wire else !s.purging && s.wire <= r.wire <= s.wire + s.wbuf
    ensures Looped(s, rest, r, false)
  {
    assert s.wire + Resent(rest, s.wbuf, 0) == s.wire + s.wbuf + rest;
  }

  // ---------------------------------------------------------------- repeated bytes

  function Stuttered(p: Bytes, w: Bytes, t: Bytes, k: nat): Bytes
    requires k <= |w|
  {
    p + Resent(w, w, k) + t
  }

  // b is a with one stretch of it, no longer than a buffer, sent once more in its own middle.
  ghost predicate Stammer(a: Bytes, b: Bytes) {
    exists p: Bytes, w: Bytes, t: Bytes, k: nat ::
      k <= |w| <= MAX_BUFFER && a == p + w + t && b == Stuttered(p, w, t, k)
  }

  // n times over.
  ghost predicate Repeats(a: Bytes, b: Bytes, n: nat)
    decreases n
  {
    if n == 0 then a == b else exists m :: Repeats(a, m, n - 1) && Stammer(m, b)
  }

  lemma StammerSelf(a: Bytes)
    ensures Stammer(a, a)
  {
    assert a == a + [] + [] == Stuttered(a, [], [], 0);
  }

  lemma StammerMore(a: Bytes, b: Bytes, more: Bytes)
    requires Stammer(a, b)
    ensures Stammer(a + more, b + more)
  {
    var p: Bytes, w: Bytes, t: Bytes, k: nat :| k <= |w| <= MAX_BUFFER && a == p + w + t && b == Stuttered(p, w, t, k);
    assert a + more == p + w + (t + more) && b + more == Stuttered(p, w, t + more, k);
  }

  lemma {:induction false} RepeatsMore(a: Bytes, b: Bytes, n: nat, more: Bytes)
    requires Repeats(a, b, n)
    ensures Repeats(a + more, b + more, n)
    decreases n
  {
    if n > 0 {
      var m :| Repeats(a, m, n - 1) && Stammer(m, b);
      RepeatsMore(a, m, n - 1, more);
      StammerMore(m, b, more);
    }
  }

  lemma {:induction false} RepeatsThen(a: Bytes, b: Bytes, n: nat, c: Bytes, k: nat)
    requires Repeats(a, b, n) && Repeats(b, c, k)
    ensures Repeats(a, c, n + k)
    decreases k
  {
    if k > 0 {
      var m :| Repeats(b, m, k - 1) && Stammer(m, c);
      RepeatsThen(a, b, n, m, k - 1);
    }
  }

  lemma {:induction false} RepeatsOnce(a: Bytes, b: Bytes, n: nat)
    requires n > 0 && Stammer(a, b)
    ensures Repeats(a, b, n)
  {
    if n > 1 {
      RepeatsOnce(a, b, n - 1);
      StammerSelf(b);
    } else {
      assert Repeats(a, a, 0);
    }
  }

  // ---- what repetition keeps

  // at gives each byte of a its place in b.
  ghost predicate Places(at: seq<nat>, a: Bytes, b: Bytes) {
    && |at| == |a| && (forall i, j :: 0 <= i < j < |at| ==> at[i] < at[j])
    && forall i :: 0 <= i < |at| ==> at[i] < |b| && b[at[i]] == a[i]
  }

  // b holds all bytes of a in order, perhaps with others between them.
  ghost predicate Subsequence(a: Bytes, b: Bytes) {
    exists at :: Places(at, a, b)
  }

  lemma InsertedPlaces(u: Bytes, w: Bytes, v: Bytes)
    ensures Places(seq(|u + v|, i requires 0 <= i => if i < |u| then i else i + |w|), u + v, u + w + v)
  {
  }

  lemma StutteredInserts(p: Bytes, w: Bytes, t: Bytes, k: nat)
    requires k <= |w|
    ensures p + w + t == p + w[..k] + (w[k..] + t) && Stuttered(p, w, t, k) == p + w[..k] + w + (w[k..] + t)
  {
    assert w == w[..k] + w[k..];
  }

  lemma StammerKeeps(a: Bytes, b: Bytes)
    requires Stammer(a, b)
    ensures Subsequence(a, b)
  {
    var p: Bytes, w: Bytes, t: Bytes, k: nat :| k <= |w| <= MAX_BUFFER && a == p + w + t && b == Stuttered(p, w, t, k);
    hide Stuttered, Places;
    StutteredInserts(p, w, t, k);
    InsertedPlaces(p + w[..k], w, w[k..] + t);
  }

  lemma PlacesThen(f: seq<nat>, a: Bytes, b: Bytes, g: seq<nat>, c: Bytes)
    requires Places(f, a, b) && Places(g, b, c)
    ensures Places(seq(|f|, i requires 0 <= i < |f| => g[f[i]]), a, c)
  {
  }

  lemma {:induction false} RepeatsKeeps(a: Bytes, b: Bytes, n: nat)
    requires Repeats(a, b, n)
    ensures Subsequence(a, b) && |a| <= |b|
    decreases n
  {
    if n == 0 {
      StammerSelf(a);
      StammerKeeps(a, a);
    } else {
      var m :| Repeats(a, m, n - 1) && Stammer(m, b);
      RepeatsKeeps(a, m, n - 1);
      StammerKeeps(m, b);
      var f, g :| Places(f, a, m) && Places(g, m, b);
      PlacesThen(f, a, m, g, b);
    }
  }

  // ---------------------------------------------------------------- accepted bytes

  // Of a, with n repetitions, the wire of r holds a first part; it and the buffer hold all of it if ok.
  ghost predicate Holds(a: Bytes, n: nat, r: Io, ok: bool) {
    exists b :: Repeats(a, b, n) && r.wire <= b && (ok ==> b == r.wire + r.wbuf)
  }

  // data was accepted between s and r: wire and buffer hold the accepted bytes in order, with one stretch
  // repeated for each replay, and more than the accepted bytes if there was one.
  ghost predicate Accepts(s: Io, data: Bytes, r: Io, ok: bool) {
    && Frame(s, r)
    && (ok ==> |r.wbuf| <= MAX_BUFFER)
    && Holds(s.wire + s.wbuf + data, r.replays - s.replays, r, ok)
    && (r.replays > s.replays && ok ==> |r.wire| + |r.wbuf| > |s.wire| + |s.wbuf| + |data|)
  }

  lemma HoldsExactly(a: Bytes, r: Io, ok: bool)
    requires r.wire <= a && (ok ==> a == r.wire + r.wbuf)
    ensures Holds(a, 0, r, ok)
  {
    assert Repeats(a, a, 0);
  }

  lemma HoldsAll(a: Bytes, n: nat, r: Io)
    requires Holds(a, n, r, true)
    ensures Subsequence(a, r.wire + r.wbuf) && (n == 0 ==> a == r.wire + r.wbuf)
  {
    RepeatsKeeps(a, r.wire + r.wbuf, n);
  }

  lemma FlushAccepts(s: Io)
    requires |s.rbuf| <= MAX_BUFFER && |s.wbuf| <= MAX_BUFFER
    ensures Accepts(s, [], Flush(s).0, Flush(s).1)
  {
    hide Purge, SendLoop, Holds;
    PurgeLaw(s);
    var (s1, purged) := Purge(s);
    var (r, ok) := Flush(s);
    var a := s.wire + s.wbuf + [];
    assert a == s.wire + s.wbuf;
    if !purged {
      HoldsExactly(a, r, ok);
    } else {
      SendLoopLaw(s1, s1.wbuf);
      if s1.wbuf == [] {
        SendEnds(s1, []);
      }
      if r.replays == s.replays {
        HoldsExactly(a, r, ok);
      } else {
        FlushRepeats(s, r, ok);
      }
    }
  }

  // A purge inside the loop of a flush repeats the buffer.
  lemma FlushRepeats(s: Io, r: Io, ok: bool)
    requires |s.wbuf| <= MAX_BUFFER
    requires r.replays > s.replays && Replayed(s, s.wbuf, r, ok) && (ok ==> r.wbuf == [])
    ensures Holds(s.wire + s.wbuf + [], r.replays - s.replays, r, ok)
    ensures ok ==> |r.wire| == |s.wire| + 2 * |s.wbuf|
  {
    var w := s.wbuf;
    var k: nat :| k <= |w| && r.wire <= s.wire + Resent(w, w, k) && (ok ==> r.wire == s.wire + Resent(w, w, k));
    var b := s.wire + Resent(w, w, k);
    assert s.wire + w + [] == s.wire + w && b == Stuttered(s.wire, w, [], k);
    RepeatsOnce(s.wire + w + [], b, r.replays - s.replays);
    assert ok ==> b == r.wire + r.wbuf;
  }

  lemma HoldsThen(all: Bytes, n: nat, m: Io, b: Bytes, k: nat, r: Io, ok: bool)
    requires Holds(all, n, m, true) && Holds(m.wire + m.wbuf + b, k, r, ok)
    ensures Holds(all + b, n + k, r, ok)
    ensures |m.wire| + |m.wbuf| >= |all| && (ok ==> |r.wire| + |r.wbuf| >= |m.wire| + |m.wbuf| + |b|)
  {
    var mid := m.wire + m.wbuf;
    RepeatsMore(all, mid, n, b);
    var c :| Repeats(mid + b, c, k) && r.wire <= c && (ok ==> c == r.wire + r.wbuf);
    RepeatsThen(all + b, mid + b, n, c, k);
    RepeatsKeeps(all, mid, n);
    RepeatsKeeps(mid + b, c, k);
  }

  lemma AcceptsThen(s: Io, a: Bytes, m: Io, b: Bytes, r: Io, ok: bool)
    requires Accepts(s, a, m, true) && Accepts(m, b, r, ok)
    ensures Accepts(s, a + b, r, ok)
  {
    hide Holds, Repeats;
    HoldsThen(s.wire + s.wbuf + a, m.replays - s.replays, m, b, r.replays - m.replays, r, ok);
    assert s.wire + s.wbuf + a + b == s.wire + s.wbuf + (a + b);
  }

  // Moving data into the buffer first changes nothing.
  lemma AcceptsBuffered(s: Io, data: Bytes, more: Bytes, r: Io, ok: bool)
    requires |s.rbuf| <= MAX_BUFFER && Accepts(s.(wbuf := s.wbuf + data), more, r, ok)
    ensures Accepts(s, data + more, r, ok)
  {
    assert s.wire + (s.wbuf + data) + more == s.wire + s.wbuf + (data + more);
  }

  lemma AcceptsNothing(s: Io)
    requires |s.rbuf| <= MAX_BUFFER && |s.wbuf| <= MAX_BUFFER
    ensures Accepts(s, [], s, true)
  {
    assert s.wire + s.wbuf + [] == s.wire + s.wbuf;
    HoldsExactly(s.wire + s.wbuf + [], s, true);
  }

  lemma {:induction false} WriteAccepts(s: Io, data: Bytes, withFlush: bool)
    requires |s.rbuf| <= MAX_BUFFER && |s.wbuf| <= MAX_BUFFER
    ensures Accepts(s, data, Write(s, data, withFlush).0, Write(s, data, withFlush).1)
    decreases |data|, |s.wbuf|
  {
    hide Flush, Accepts;
    if data == [] {
      FlushAccepts(s);
      AcceptsNothing(s);
    } else {
      var take := Min(MAX_BUFFER - |s.wbuf|, |data|);
      var chunk, left := data[..take], data[take..];
      assert data == chunk + left;
      var s1 := s.(wbuf := s.wbuf + chunk);
      var (r, ok) := Write(s, data, withFlush);
      if |s1.wbuf| < MAX_BUFFER {
        WriteAccepts(s1, left, withFlush);
        AcceptsBuffered(s, chunk, left, r, ok);
      } else {
        FlushAccepts(s1);
        var (s2, flushed) := Flush(s1);
        AcceptsBuffered(s, chunk, [], s2, flushed);
        assert chunk + [] == chunk;
        if flushed {
          AcceptsReady(s, chunk, s2);
          WriteAccepts(s2, left, withFlush);
          AcceptsThen(s, chunk, s2, left, r, ok);
        } else {
          AcceptsPart(s, chunk, left, s2);
        }
      }
    }
  }

  lemma AcceptsReady(s: Io, data: Bytes, r: Io)
    requires Accepts(s, data, r, true)
    ensures |r.rbuf| <= MAX_BUFFER && |r.wbuf| <= MAX_BUFFER
  {
  }

  lemma AcceptsFailed(s: Io, data: Bytes, r: Io, ok: bool)
    requires Accepts(s, data, r, ok)
    ensures Accepts(s, data, r, false)
  {
  }

  lemma AcceptsPart(s: Io, data: Bytes, more: Bytes, r: Io)
    requires Accepts(s, data, r, false)
    ensures Accepts(s, data + more, r, false)
  {
    var a, n := s.wire + s.wbuf + data, r.replays - s.replays;
    var b :| Repeats(a, b, n) && r.wire <= b;
    RepeatsMore(a, b, n, more);
    assert s.wire + s.wbuf + (data + more) == a + more;
  }

  function Join(vector: seq<Bytes>): Bytes {
    if vector == [] then [] else vector[0] + Join(vector[1..])
  }

  lemma {:induction false} WritevAccepts(s: Io, vector: seq<Bytes>, withFlush: bool)
    requires |s.rbuf| <= MAX_BUFFER && |s.wbuf| <= MAX_BUFFER
    ensures Accepts(s, Join(vector), Writev(s, vector, withFlush).0, Writev(s, vector, withFlush).1)
    decreases |vector|
  {
    if vector == [] {
      WriteAccepts(s, [], withFlush);
    } else {
      hide Accepts, Write;
      WriteAccepts(s, vector[0], false);
      var (s1, ok) := Write(s, vector[0], false);
      if ok {
        AcceptsReady(s, vector[0], s1);
        WritevAccepts(s1, vector[1..], withFlush);
        var (r, done) := Writev(s1, vector[1..], withFlush);
        AcceptsThen(s, vector[0], s1, Join(vector[1..]), r, done);
      } else {
        AcceptsPart(s, vector[0], Join(vector[1..]), s1);
      }
    }
  }

  // ---------------------------------------------------------------- runs

  // What a client does with an instance: write, expect one more reply, read one.
  datatype Op = OpWrite(data: Bytes, flush: bool) | OpWritev(vector: seq<Bytes>, flush: bool) | OpExpect | OpReply

  function Do(s: Io, op: Op): (r: (Io, bool))
    requires |s.wbuf| <= MAX_BUFFER
  {
    match op
    case OpWrite(data, flush) => Write(s, data, flush)
    case OpWritev(vector, flush) => Writev(s, vector, flush)
    case OpExpect => (s.(pending := s.pending + 1), true)
    case OpReply =>
      var (s1, ok) := ReadReply(s);
      (s1, ok && s1.open)
  }

  function Given(op: Op): Bytes {
    match op
    case OpWrite(data, _) => data
    case OpWritev(vector, _) => Join(vector)
    case _ => []
  }

  lemma DoAccepts(s: Io, op: Op)
    requires |s.rbuf| <= MAX_BUFFER && |s.wbuf| <= MAX_BUFFER
    ensures Accepts(s, Given(op), Do(s, op).0, Do(s, op).1)
  {
    match op
    case OpWrite(data, flush) => WriteAccepts(s, data, flush);
    case OpWritev(vector, flush) => WritevAccepts(s, vector, flush);
    case OpExpect => AcceptsNothing(s);
    case OpReply =>
      OneReplyRead(s);
      assert s.wire + s.wbuf + [] == s.wire + s.wbuf;
      HoldsExactly(s.wire + s.wbuf + [], Do(s, op).0, Do(s, op).1);
  }

  // A run stops at the first failure, or when the connection is gone.
  function Run(s: Io, ops: seq<Op>): (r: (Io, bool))
    requires |s.wbuf| <= MAX_BUFFER
    decreases |ops|
  {
    if ops == [] then (s, true)
    else
      var (s1, ok) := Do(s, ops[0]);
      if ok && s1.open && |s1.wbuf| <= MAX_BUFFER then Run(s1, ops[1..]) else (s1, false)
  }

  function GivenAll(ops: seq<Op>): Bytes {
    if ops == [] then [] else Given(ops[0]) + GivenAll(ops[1..])
  }

  lemma {:induction false} RunAccepts(s: Io, ops: seq<Op>)
    requires |s.rbuf| <= MAX_BUFFER && |s.wbuf| <= MAX_BUFFER
    ensures Accepts(s, GivenAll(ops), Run(s, ops).0, Run(s, ops).1)
    decreases |ops|
  {
    hide Accepts, Do;
    if ops == [] {
      AcceptsNothing(s);
    } else {
      DoAccepts(s, ops[0]);
      var (s1, ok) := Do(s, ops[0]);
      if ok && s1.open {
        AcceptsReady(s, Given(ops[0]), s1);
        RunAccepts(s1, ops[1..]);
        var (r, done) := Run(s1, ops[1..]);
        AcceptsThen(s, Given(ops[0]), s1, GivenAll(ops[1..]), r, done);
      } else {
        AcceptsFailed(s, Given(ops[0]), s1, ok);
        AcceptsPart(s, Given(ops[0]), GivenAll(ops[1..]), s1);
      }
    }
  }

  // After any successful run, with any answers from the operating system, wire and buffer together are
  // the accepted bytes in order exactly when no purge ran inside a send loop.  The read side is
  // conserved either way, no accepted byte is lost or reordered, and no run leaves is_purging or
  // poll_timeout changed.
  lemma RunConserves(s: Io, ops: seq<Op>)
    requires |s.rbuf| <= MAX_BUFFER && |s.wbuf| <= MAX_BUFFER
    ensures var (r, ok) := Run(s, ops);
            && r.purging == s.purging && r.timeout == s.timeout
            && (r.open ==> Stream(r) == Stream(s))
            && r.replays >= s.replays && Holds(s.wire + s.wbuf + GivenAll(ops), r.replays - s.replays, r, ok)
            && (ok ==> Subsequence(s.wire + s.wbuf + GivenAll(ops), r.wire + r.wbuf))
            && (ok ==> (r.wire + r.wbuf == s.wire + s.wbuf + GivenAll(ops) <==> r.replays == s.replays))
  {
    hide Run, GivenAll, Holds, Subsequence, Stream;
    RunAccepts(s, ops);
    var (r, ok) := Run(s, ops);
    if ok {
      HoldsAll(s.wire + s.wbuf + GivenAll(ops), r.replays - s.replays, r);
      if r.replays > s.replays {
        assert |r.wire + r.wbuf| > |s.wire + s.wbuf + GivenAll(ops)|;
      }
    }
  }

  // ---------------------------------------------------------------- the purge at flush entry

  // Outside a purge the send loop is entered only with fewer replies pending than the message
  // watermark, or with at most one besides those announced by the replies just read.
  lemma FewPending(s: Io)
    requires |s.rbuf| <= MAX_BUFFER && !s.purging && Purge(s).1 && Purge(s).0.open
    ensures var r := Purge(s).0;
            r.pending < r.msgMark || r.pending <= 1 + More(s.env.replies, s.pending)
  {
    PurgeLaw(s);
    if s.pending > 1 {
      MoreGrows(s.env.replies, s.pending - 1);
    }
  }

  lemma {:induction false} MoreGrows(replies: seq<Reply>, n: nat)
    ensures More(replies, n) <= More(replies, n + 1)
  {
    if n > 0 && replies != [] {
      MoreGrows(replies[1..], n - 1);
    }
  }

  // ---------------------------------------------------------------- the purge inside the send loop

  // No purge can become due before everything in the buffer is sent: the one at flush entry empties the
  // buffer, at most one reply is pending, or the byte watermark is not reached by all but the last byte.
  predicate Quiet(s: Io) {
    s.purging || Due(s) || s.pending < 2 || s.bytesSent + |s.wbuf| <= s.byteMark
  }

  ghost predicate NeverDue(s: Io, rest: Bytes) {
    s.purging || (!Due(s) && (s.pending < 2 || s.bytesSent + |rest| <= s.byteMark))
  }

  lemma {:induction false} QuietLoop(s: Io, rest: Bytes)
    requires |s.rbuf| <= MAX_BUFFER && NeverDue(s, rest)
    ensures SendLoop(s, rest).0.replays == s.replays
    decreases |s.env.sends|
  {
    hide Wait, Repack;
    if rest != [] && s.open && s.env.sends != [] {
      var s0 := PopSend(s);
      match s.env.sends[0]
      case Sent(n) =>
        var m := Min(n, |rest|);
        if m < |rest| {
          QuietLoop(PutOnWire(s0, rest[..m]), rest[m..]);
        }
      case NoBuffers =>
        QuietLoop(s0, rest);
      case WouldBlock =>
        RepackConserves(s0);
        var (s1, got) := Repack(s0);
        if got {
          QuietLoop(s1, rest);
        } else {
          WaitOnlyPolls(s1);
          if Poll(s1).1 == Ready {
            QuietLoop(Poll(s1).0, rest);
          }
        }
      case Broken =>
    }
  }

  lemma WaitOnlyPolls(s: Io)
    requires s.open && !Due(s)
    ensures Wait(s) == Poll(s)
  {
    assert Purge(s) == (s, true);
  }

  lemma QuietFlush(s: Io)
    requires |s.rbuf| <= MAX_BUFFER && |s.wbuf| <= MAX_BUFFER && Quiet(s)
    ensures Flush(s).0.replays == s.replays
  {
    hide SendLoop;
    PurgeLaw(s);
    var (s1, purged) := Purge(s);
    if purged {
      if Due(s) {
        SendNothing(s1);
      } else {
        QuietLoop(s1, s1.wbuf);
      }
    }
  }

  lemma SendNothing(s: Io)
    ensures SendLoop(s, []).0.replays == s.replays
  {
  }

  // Answers that make a flush repeat itself: all but the last byte is taken, the next send would
  // block, nothing is received at once, and all pending replies but one arrive.
  function RepeatingEnv(s: Io): Env
    requires s.pending >= 2 && s.wbuf != []
  {
    var n := s.pending - 1;
    Env([Sent(|s.wbuf| - 1), WouldBlock, Sent(|s.wbuf|), Sent(1)],
        [Interrupted] + seq(n, _ => Received(1)), [Ready], seq(n, _ => Reply(1, false, Fine)), seq(n, _ => 0))
  }

  // n replies of one byte can be read: received one at a time, if not already there.
  ghost predicate Deliverable(s: Io, n: nat) {
    && Receivable(s, n) && s.pending >= n
    && |s.env.replies| >= n && (forall i :: 0 <= i < |s.env.replies| ==> s.env.replies[i] == Reply(1, false, Fine))
  }

  ghost predicate Receivable(s: Io, n: nat) {
    && s.open && |s.env.incoming| >= n && Deliveries(s.env.recvs) >= n
    && forall i :: 0 <= i < |s.env.recvs| ==> s.env.recvs[i] in {Interrupted, Received(1)}
  }

  ghost function Deliveries(recvs: seq<RecvAnswer>): nat {
    if recvs == [] then 0 else Deliveries(recvs[1..]) + if recvs[0] == Received(1) then 1 else 0
  }

  // Reading leaves the sending side and the answers to polls as they are.
  ghost predicate SameSide(a: Io, b: Io) {
    b.env.polls == a.env.polls && b.env.sends == a.env.sends && b.wbuf == a.wbuf && b.purging == a.purging
    && b.replays == a.replays && b.wire == a.wire
  }

  lemma {:induction false} DeliveriesOf(n: nat)
    ensures Deliveries(seq(n, _ => Received(1))) == n
  {
    if n > 0 {
      assert seq(n, _ => Received(1))[1..] == seq(n - 1, _ => Received(1));
      DeliveriesOf(n - 1);
    }
  }

  lemma {:induction false} FillDelivers(s: Io, n: nat)
    requires s.rbuf == [] && n > 0 && Receivable(s, n)
    ensures var (r, ok) := Fill(s);
            ok && |r.rbuf| == 1 && Receivable(r, n - 1)
            && r.env.replies == s.env.replies && r.pending == s.pending && SameSide(s, r)
    decreases |s.env.recvs|
  {
    if s.env.recvs[0] == Interrupted {
      FillDelivers(PopRecv(s), n);
    }
  }

  lemma {:induction false} RepliesDelivered(s: Io, n: nat)
    requires Deliverable(s, n)
    ensures var (r, ok) := ReadReplies(s, n);
            ok && r.open && SameSide(s, r)
    decreases n
  {
    if n > 0 {
      hide ReadReply, Deliverable, SameSide;
      ReplyDelivered(s, n);
      RepliesDelivered(ReadReply(s).0, n - 1);
      SameSideThen(s, ReadReply(s).0, ReadReplies(s, n).0);
    } else {
      assert Receivable(s, 0);
    }
  }

  lemma ReplyDelivered(s: Io, n: nat)
    requires n > 0 && Deliverable(s, n)
    ensures var (r, ok) := ReadReply(s);
            ok && Deliverable(r, n - 1) && SameSide(s, r)
  {
    hide Fill;
    var s0 := PopReply(s);
    if s.rbuf == [] {
      FillDelivers(s0, n);
    }
    var s1 := if s.rbuf == [] then Fill(s0).0 else s0;
    assert Read(s0, 1) == (Consume(s1, 1), true);
  }

  lemma SameSideThen(a: Io, b: Io, c: Io)
    requires SameSide(a, b) && SameSide(b, c)
    ensures SameSide(a, c)
  {
  }

  // Then the buffer goes out twice: once from the purge inside the loop, once from the loop itself.
  lemma RepeatingFlush(s: Io)
    requires |s.rbuf| <= MAX_BUFFER && s.open && s.wbuf != [] && !Quiet(s) && s.timeout != 0
    ensures var (r, ok) := Flush(s.(env := RepeatingEnv(s)));
            ok && r.replays > s.replays
  {
    hide Repack, Poll;
    var n, e := |s.wbuf|, RepeatingEnv(s);
    var a, last := s.(env := e), s.wbuf[n - 1..];
    assert n >= 2 && Purge(a) == (a, true);
    var b := a.(env := e.(sends := e.sends[1..]), wire := a.wire + s.wbuf[..n - 1], bytesSent := a.bytesSent + (n - 1));
    assert SendLoop(a, a.wbuf) == SendLoop(b, last);
    BlockedByLast(s, b, last);
  }

  // From the would-block answer on.
  lemma BlockedByLast(s: Io, b: Io, last: Bytes)
    requires |s.rbuf| <= MAX_BUFFER && s.wbuf != [] && s.pending >= 2 && |last| == 1 && b.timeout != 0
    requires b.open && b.wbuf == s.wbuf && b.pending == s.pending && Due(b)
    requires b.env == RepeatingEnv(s).(sends := RepeatingEnv(s).sends[1..])
    ensures var (r, ok) := SendLoop(b, last);
            ok && r.replays > b.replays
  {
    hide Fill, ReadReplies, Purge, SendLoop;
    SendBlocked(b, last);
    var b0 := b.(env := b.env.(sends := b.env.sends[1..]));
    assert b.env.sends[0] == WouldBlock && b0.env.sends == [Sent(|s.wbuf|), Sent(1)];
    var c := Repack(b0).0;
    assert !Repack(b0).1 && Due(c);
    InnerPurge(s, c);
    var d := Purge(c).0;
    var f := Poll(d.(replays := d.replays + 1)).0;
    assert SendLoop(b, last) == SendLoop(f, last);
    SendLast(f, last);
  }

  lemma SendLast(f: Io, last: Bytes)
    requires f.open && |last| == 1 && f.env.sends == [Sent(1)]
    ensures SendLoop(f, last).1 && SendLoop(f, last).0.replays == f.replays
  {
    assert last[1..] == [];
  }

  lemma InnerPurge(s: Io, c: Io)
    requires s.wbuf != [] && s.pending >= 2
    requires c.open && c.wbuf == s.wbuf && c.pending == s.pending && Due(c)
    requires c.env.sends == [Sent(|s.wbuf|), Sent(1)] && c.env.polls == [Ready]
    requires c.env.replies == RepeatingEnv(s).replies && c.env.incoming == RepeatingEnv(s).incoming
    requires c.env.recvs == RepeatingEnv(s).recvs || c.env.recvs == RepeatingEnv(s).recvs[1..]
    ensures var (d, ok) := Purge(c);
            && ok && d.open && d.env.sends == [Sent(1)] && d.env.polls == [Ready]
            && d.replays == c.replays && d.timeout == c.timeout
  {
    hide Fill, ReadReplies;
    var c0 := c.(purging := true);
    assert s.wbuf[|s.wbuf|..] == [];
    var c1 := c0.(env := c0.env.(sends := c0.env.sends[1..]), wire := c0.wire + s.wbuf,
                  bytesSent := c0.bytesSent + |s.wbuf|);
    assert s.wbuf[..|s.wbuf|] == s.wbuf;
    assert SendLoop(c0, s.wbuf) == SendLoop(c1, []) == (c1.(wbuf := []), true);
    var c2 := c1.(wbuf := [], timeout := 50);
    DeliveriesOf(s.pending - 1);
    assert RepeatingEnv(s).recvs[1..] == seq(s.pending - 1, _ => Received(1));
    RepliesDelivered(c2, s.pending - 1);
  }

  // With poll_timeout zero no send loop succeeds after the purge inside it.
  lemma {:induction false} ZeroTimeout(s: Io, rest: Bytes)
    requires |s.rbuf| <= MAX_BUFFER && s.timeout == 0 && SendLoop(s, rest).1
    ensures SendLoop(s, rest).0.replays == s.replays
    decreases |s.env.sends|
  {
    hide Purge;
    if rest != [] {
      var s0 := PopSend(s);
      match s.env.sends[0]
      case Sent(n) =>
        var m := Min(n, |rest|);
        ZeroTimeout(PutOnWire(s0, rest[..m]), rest[m..]);
      case NoBuffers =>
        ZeroTimeout(s0, rest);
      case WouldBlock =>
        RepackConserves(s0);
        var (s1, got) := Repack(s0);
        if got {
          ZeroTimeout(s1, rest);
        } else {
          PurgeLaw(s1);
        }
      case Broken =>
    }
  }

  lemma ZeroTimeoutFlush(s: Io)
    requires |s.rbuf| <= MAX_BUFFER && s.timeout == 0 && Flush(s).1
    ensures Flush(s).0.replays == s.replays
  {
    hide Purge, SendLoop;
    PurgeLaw(s);
    ZeroTimeout(Purge(s).0, Purge(s).0.wbuf);
  }

  // A flush that succeeds has sent the buffer once, whatever the operating system answered, exactly when
  // the instance is quiet or never waits.
  lemma FlushExact(s: Io)
    requires s.open && |s.rbuf| <= MAX_BUFFER && 0 < |s.wbuf| <= MAX_BUFFER
    ensures Quiet(s) || s.timeout == 0 <==>
            forall e: Env :: var (r, ok) := Flush(s.(env := e)); ok ==> r.wire == s.wire + s.wbuf && r.wbuf == []
  {
    if Quiet(s) || s.timeout == 0 {
      forall e: Env
        ensures var (r, ok) := Flush(s.(env := e)); ok ==> r.wire == s.wire + s.wbuf && r.wbuf == []
      {
        var a := s.(env := e);
        if Flush(a).1 {
          if Quiet(s) {
            QuietFlush(a);
          } else {
            ZeroTimeoutFlush(a);
          }
          FlushAccepts(a);
        }
      }
    } else {
      var a := s.(env := RepeatingEnv(s));
      RepeatingFlush(s);
      FlushAccepts(a);
      assert |Flush(a).0.wire| + |Flush(a).0.wbuf| > |s.wire| + |s.wbuf|;
    }
  }

  // ---------------------------------------------------------------- whole runs

  // The settings under which no flush of any run repeats the buffer: it never waits, a second pending
  // reply already makes a purge due, or the first byte sent does.
  predicate Calm(timeout: int, msgMark: nat, byteMark: nat) {
    timeout == 0 || msgMark <= 2 || byteMark == 0
  }

  ghost predicate CalmOutside(s: Io) {
    && !s.purging && Calm(s.timeout, s.msgMark, s.byteMark)
    && |s.rbuf| <= MAX_BUFFER && |s.wbuf| <= MAX_BUFFER
  }

  lemma CalmFlush(s: Io)
    requires CalmOutside(s) && Flush(s).1
    ensures Flush(s).0.replays == s.replays && CalmOutside(Flush(s).0)
  {
    hide Flush;
    FlushAccepts(s);
    if s.timeout == 0 {
      ZeroTimeoutFlush(s);
    } else {
      QuietFlush(s);
    }
  }

  lemma {:induction false} CalmWrite(s: Io, data: Bytes, withFlush: bool)
    requires CalmOutside(s) && Write(s, data, withFlush).1
    ensures var r := Write(s, data, withFlush).0; r.replays == s.replays && CalmOutside(r)
    decreases |data|, |s.wbuf|
  {
    hide Flush;
    if data == [] {
      if withFlush {
        CalmFlush(s);
      }
    } else {
      var take := Min(MAX_BUFFER - |s.wbuf|, |data|);
      var s1 := s.(wbuf := s.wbuf + data[..take]);
      if |s1.wbuf| < MAX_BUFFER {
        CalmWrite(s1, data[take..], withFlush);
      } else {
        CalmFlush(s1);
        CalmWrite(Flush(s1).0, data[take..], withFlush);
      }
    }
  }

  lemma {:induction false} CalmWritev(s: Io, vector: seq<Bytes>, withFlush: bool)
    requires CalmOutside(s) && Writev(s, vector, withFlush).1
    ensures var r := Writev(s, vector, withFlush).0; r.replays == s.replays && CalmOutside(r)
    decreases |vector|
  {
    hide Write, CalmOutside;
    assert |s.wbuf| <= MAX_BUFFER by { CalmBuffers(s); }
    if vector == [] {
      if withFlush {
        CalmWrite(s, [], true);
      }
    } else {
      CalmWrite(s, vector[0], false);
      CalmWritev(Write(s, vector[0], false).0, vector[1..], withFlush);
    }
  }

  lemma CalmBuffers(s: Io)
    requires CalmOutside(s)
    ensures |s.wbuf| <= MAX_BUFFER
  {
  }

  lemma CalmDo(s: Io, op: Op)
    requires CalmOutside(s) && Do(s, op).1
    ensures var r := Do(s, op).0; r.replays == s.replays && CalmOutside(r)
  {
    hide Write, Writev, ReadReply;
    match op
    case OpWrite(data, flush) => CalmWrite(s, data, flush);
    case OpWritev(vector, flush) => CalmWritev(s, vector, flush);
    case OpExpect =>
    case OpReply => OneReplyRead(s);
  }

  lemma {:induction false} CalmRun(s: Io, ops: seq<Op>)
    requires CalmOutside(s) && Run(s, ops).1
    ensures Run(s, ops).0.replays == s.replays
    decreases |ops|
  {
    hide Do, CalmOutside;
    CalmBuffers(s);
    if ops != [] {
      CalmDo(s, ops[0]);
      CalmRun(Do(s, ops[0]).0, ops[1..]);
    }
  }

  // A connection just opened.
  function Opened(timeout: int, msgMark: nat, byteMark: nat, env: Env): Io {
    Io([], [], 0, 0, false, timeout, true, msgMark, byteMark, env, [], [], 0)
  }

  // Single bytes, each flushed at once, with no reply expected.
  function Bytewise(n: nat): seq<Op> {
    seq(n, _ => OpWrite([0], true))
  }

  lemma OneByteSent(s: Io)
    requires s.open && !s.purging && s.wbuf == [] && s.pending == 0 && s.msgMark > 0
    requires s.env.sends != [] && s.env.sends[0] == Sent(1)
    ensures Do(s, OpWrite([0], true)) == (PutOnWire(PopSend(s), [0]), true)
  {
    hide SendLoop;
    var b: Bytes := [0];
    var s1 := s.(wbuf := b);
    assert b[..1] == b && s.wbuf + b == b && b[1..] == [];
    assert Write(s, b, true) == Write(s1, [], true) == Flush(s1);
    assert Purge(s1) == (s1, true);
    assert Flush(s1) == SendLoop(s1, b);
    SendSome(s1, b);
    var s2 := PutOnWire(PopSend(s1), b);
    SendEnds(s2, []);
    assert s2.(wbuf := []) == PutOnWire(PopSend(s), b);
  }

  lemma {:induction false} BytesSent(s: Io, n: nat, tail: seq<SendAnswer>, rest: seq<Op>) returns (r: Io)
    requires s.open && !s.purging && s.wbuf == [] && s.pending == 0 && s.msgMark > 0
    requires s.env.sends == seq(n, _ => Sent(1)) + tail
    ensures r == s.(wire := r.wire, bytesSent := s.bytesSent + n, env := s.env.(sends := tail))
    ensures Run(s, Bytewise(n) + rest) == Run(r, rest)
    decreases n
  {
    if n == 0 {
      assert Bytewise(0) + rest == rest && s.env.sends == tail;
      r := s;
    } else {
      hide Do;
      OneByteSent(s);
      var s1 := PutOnWire(PopSend(s), [0]);
      assert s1.env.sends == seq(n - 1, _ => Sent(1)) + tail;
      var ops := Bytewise(n) + rest;
      assert ops[1..] == Bytewise(n - 1) + rest;
      r := BytesSent(s1, n - 1, tail, rest);
    }
  }

  // Two replies are expected, byteMark - 1 bytes are sent, and two more bytes are written.
  function RepeatingRun(byteMark: nat): seq<Op>
    requires byteMark > 0
  {
    Bytewise(byteMark - 1) + [OpExpect, OpExpect, OpWrite([0, 0], true)]
  }

  function RepeatingAnswers(byteMark: nat): Env
    requires byteMark > 0
  {
    var e := RepeatingEnv(Opened(0, 0, 0, Env([], [], [], [], [])).(pending := 2, wbuf := [0, 0]));
    e.(sends := seq(byteMark - 1, _ => Sent(1)) + e.sends)
  }

  lemma RepeatingRunRepeats(timeout: int, msgMark: nat, byteMark: nat)
    requires !Calm(timeout, msgMark, byteMark)
    ensures var (r, ok) := Run(Opened(timeout, msgMark, byteMark, RepeatingAnswers(byteMark)), RepeatingRun(byteMark));
            ok && r.replays > 0
  {
    hide RepeatingEnv, Run, Do;
    var e0 := RepeatingEnv(Opened(0, 0, 0, Env([], [], [], [], [])).(pending := 2, wbuf := [0, 0]));
    var s := Opened(timeout, msgMark, byteMark, RepeatingAnswers(byteMark));
    var last := [OpExpect, OpExpect, OpWrite([0, 0], true)];
    var s1 := BytesSent(s, byteMark - 1, e0.sends, last);
    LastWriteRepeats(s1);
  }

  lemma LastWriteRepeats(s: Io)
    requires s.open && !s.purging && s.wbuf == [] && s.rbuf == [] && s.pending == 0
    requires s.timeout != 0 && s.msgMark > 2 && s.bytesSent + 1 == s.byteMark
    requires s.env == RepeatingEnv(Opened(0, 0, 0, Env([], [], [], [], [])).(pending := 2, wbuf := [0, 0]))
    ensures var (r, ok) := Run(s, [OpExpect, OpExpect, OpWrite([0, 0], true)]);
            ok && r.replays > s.replays
  {
    hide Flush, RepeatingEnv;
    var s2 := s.(pending := 2);
    var s3 := s2.(wbuf := [0, 0]);
    assert RepeatingEnv(s3) == s.env by { SameRepeatingEnv(s3); }
    RepeatingFlush(s3);
    assert s3.(env := s.env) == s3;
    assert Do(s, OpExpect) == (s.(pending := 1), true) && Do(s.(pending := 1), OpExpect) == (s2, true);
    var b: Bytes := [0, 0];
    assert b[..2] == b && s2.wbuf + b == b && b[2..] == [];
    assert Write(s2, b, true) == Write(s3, [], true) == Flush(s3);
    FlushAccepts(s3);
    FlushedOpen(s3);
    var (r, ok) := Flush(s3);
    var ops := [OpExpect, OpExpect, OpWrite(b, true)];
    assert ops[1..] == [OpExpect, OpWrite(b, true)] && ops[1..][1..] == [OpWrite(b, true)] && ops[1..][1..][1..] == [];
    assert Do(s2, OpWrite(b, true)) == (r, true) && Run(r, []) == (r, true);
    assert Run(s2, [OpWrite(b, true)]) == (r, true);
    assert Run(s.(pending := 1), ops[1..]) == (r, true);
  }

  lemma FlushedOpen(s: Io)
    requires s.open && |s.rbuf| <= MAX_BUFFER && !Due(s) && Flush(s).1
    ensures Flush(s).0.open
  {
    hide SendLoop;
    assert Purge(s) == (s, true);
    LoopStaysOpen(s, s.wbuf);
  }

  lemma SameRepeatingEnv(s: Io)
    requires s.pending == 2 && s.wbuf == [0, 0]
    ensures RepeatingEnv(s) == RepeatingEnv(Opened(0, 0, 0, Env([], [], [], [], [])).(pending := 2, wbuf := [0, 0]))
  {
  }

  // On a connection just opened, every successful run has put on the wire or into the buffer exactly the
  // accepted bytes in order, whatever the operating system answers, exactly with those settings.
  lemma RunExact(timeout: int, msgMark: nat, byteMark: nat)
    ensures Calm(timeout, msgMark, byteMark) <==>
            forall e: Env, ops: seq<Op> ::
              var (r, ok) := Run(Opened(timeout, msgMark, byteMark, e), ops); ok ==> r.wire + r.wbuf == GivenAll(ops)
  {
    hide Run, GivenAll;
    if Calm(timeout, msgMark, byteMark) {
      forall e: Env, ops: seq<Op>
        ensures var (r, ok) := Run(Opened(timeout, msgMark, byteMark, e), ops); ok ==> r.wire + r.wbuf == GivenAll(ops)
      {
        var s := Opened(timeout, msgMark, byteMark, e);
        if Run(s, ops).1 {
          CalmRun(s, ops);
          RunConserves(s, ops);
          assert s.wire + s.wbuf + GivenAll(ops) == GivenAll(ops);
        }
      }
    } else {
      var s, ops := Opened(timeout, msgMark, byteMark, RepeatingAnswers(byteMark)), RepeatingRun(byteMark);
      RepeatingRunRepeats(timeout, msgMark, byteMark);
      RunConserves(s, ops);
      assert s.wire + s.wbuf + GivenAll(ops) == GivenAll(ops);
    }
  }

  // ---------------------------------------------------------------- a connection lost in a purge

  lemma LoopStaysOpen(s: Io, rest: Bytes)
    requires s.open && |s.rbuf| <= MAX_BUFFER && SendLoop(s, rest).1
    ensures SendLoop(s, rest).0.open
  {
    SendLoopLaw(s, rest);
  }

  lemma {:induction false} NoReplies(s: Io, n: nat)
    requires n > 0 && s.env.replies == []
    ensures var (r, ok) := ReadReplies(s, n); ok && !r.open && r.wbuf == []
    decreases n
  {
    if n > 1 {
      NoReplies(Close(s), n - 1);
    }
  }

  lemma LostInPurge(s: Io)
    requires s.open && Due(s) && s.pending > 1
    ensures var (r, ok) := Flush(s.(env := Env([Sent(|s.wbuf|)], [], [], [], []))); ok && !r.open
  {
    hide ReadReplies;
    var a := s.(env := Env([Sent(|s.wbuf|)], [], [], [], []), purging := true);
    var a1 := a.(env := a.env.(sends := []), wire := a.wire + s.wbuf, bytesSent := a.bytesSent + |s.wbuf|);
    assert a.env.sends[1..] == [] && s.wbuf[..|s.wbuf|] == s.wbuf && s.wbuf[|s.wbuf|..] == [];
    assert s.wbuf != [] ==> SendLoop(a, s.wbuf) == SendLoop(a1, []) == (a1.(wbuf := []), true);
    var (b, sent) := SendLoop(a, s.wbuf);
    assert sent && b.pending == s.pending && b.env.replies == [];
    NoReplies(b.(timeout := 50), s.pending - 1);
  }

  // A purge reports neither a lost connection nor a timeout.  So a flush can succeed on a connection that
  // it has just closed, exactly when a purge with replies to read is due.
  lemma FlushStaysOpen(s: Io)
    requires s.open && |s.rbuf| <= MAX_BUFFER
    ensures !Due(s) || s.pending <= 1 <==> forall e: Env :: var (r, ok) := Flush(s.(env := e)); ok ==> r.open
  {
    if !Due(s) || s.pending <= 1 {
      forall e: Env
        ensures var (r, ok) := Flush(s.(env := e)); ok ==> r.open
      {
        hide SendLoop;
        var a := s.(env := e);
        if Flush(a).1 {
          PurgeLaw(a);
          if Due(s) {
            LoopStaysOpen(a.(purging := true), a.wbuf);
            SendLoopLaw(a.(purging := true), a.wbuf);
          }
          LoopStaysOpen(Purge(a).0, Purge(a).0.wbuf);
        }
      }
    } else {
      LostInPurge(s);
    }
  }
}
