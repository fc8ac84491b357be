// When the operations of module StreamIo succeed, and what they then have done: the other half of the laws there,
// which hold for any outcome.  Numbers of the source are written out.
module Progress {
  import opened Octets
  import opened StreamIo

  // ---------------------------------------------------------------- the guard of a purge

  // Below both watermarks, or with fewer than two replies pending beyond the byte watermark, nothing happens.
  // Otherwise the buffer is sent and all replies but one are read.
  lemma PurgeGuard(s: Io)
    requires |s.rbuf| <= 8196
    ensures s.purging || (s.pending < s.msgMark && s.bytesSent < s.byteMark)
            || (s.bytesSent >= s.byteMark && s.pending < 2) ==>
              Purge(s) == (s, true)
    ensures !s.purging && (s.pending >= s.msgMark || s.bytesSent >= s.byteMark)
            && (s.pending >= 2 || s.bytesSent < s.byteMark) && Purge(s).1 ==>
              var r := Purge(s).0;
              && r.wire == s.wire + s.wbuf && r.wbuf == []
              && (r.open ==> r.pending == if s.pending <= 1 then s.pending else 1 + More(s.env.replies, s.pending - 1))
  {
    hide Purge, SendLoop, ReadReplies, More, Frame, Flush, Wait;
    PurgeLaw(s);
    PurgeNotDue(s);
  }

  lemma PurgeNotDue(s: Io)
    ensures !Due(s) ==> Purge(s) == (s, true)
  {
    hide SendLoop, ReadReplies, Due;
  }

  // ---------------------------------------------------------------- sending

  // Every answer takes bytes or asks to try again.
  predicate Takes(sends: seq<SendAnswer>) {
    forall a :: a in sends ==> a.Sent? || a.NoBuffers?
  }

  function Total(sends: seq<SendAnswer>): nat {
    if sends == [] then 0 else Total(sends[1..]) + if sends[0].Sent? then sends[0].n else 0
  }

  // How many answers take at least one byte.
  function Takings(sends: seq<SendAnswer>): (n: nat)
    ensures n <= Total(sends)
  {
    if sends == [] then 0 else Takings(sends[1..]) + if sends[0].Sent? && sends[0].n > 0 then 1 else 0
  }

  // s once data is on the wire and some answers are used up.
  ghost predicate HasSent(s: Io, data: Bytes, r: Io) {
    && r == s.(env := s.env.(sends := r.env.sends), wire := s.wire + data, wbuf := [],
               bytesSent := s.bytesSent + |data|)
    && Takes(r.env.sends) && Takings(s.env.sends) <= Takings(r.env.sends) + |data|
  }

  ghost predicate Outcome(s: Io, rest: Bytes, r: Io, ok: bool) {
    && (ok <==> |rest| <= Total(s.env.sends))
    && (if ok then HasSent(s, rest, r) else !r.open && r.wire == s.wire + rest[..Total(s.env.sends)])
  }

  // The loop succeeds exactly when the answers take enough.
  lemma {:induction false} SendExact(s: Io, rest: Bytes)
    requires s.open && Takes(s.env.sends)
    ensures Outcome(s, rest, SendLoop(s, rest).0, SendLoop(s, rest).1)
    decreases |s.env.sends|
  {
    hide SendLoop, Outcome, Takes;
    SendEnds(s, rest);
    if rest == [] {
      OutcomeOfNothing(s);
    } else if s.env.sends == [] {
      OutcomeOfNone(s, rest);
    } else {
      SendSome(s, rest);
      TakesRest(s.env.sends);
      var s0 := PopSend(s);
      var (r, ok) := SendLoop(s, rest);
      if s.env.sends[0].Sent? {
        var m := Min(s.env.sends[0].n, |rest|);
        SendExact(PutOnWire(s0, rest[..m]), rest[m..]);
        OutcomeSent(s, rest, m, r, ok);
      } else {
        SendExact(s0, rest);
        OutcomeRetried(s, rest, r, ok);
      }
    }
  }

  lemma TakesRest(sends: seq<SendAnswer>)
    requires sends != [] && Takes(sends)
    ensures Takes(sends[1..]) && (sends[0].Sent? || sends[0].NoBuffers?)
  {
    assert sends[0] in sends && forall a :: a in sends[1..] ==> a in sends;
  }

  lemma OutcomeOfNothing(s: Io)
    requires Takes(s.env.sends)
    ensures Outcome(s, [], s.(wbuf := []), true)
  {
    assert s.wire + [] == s.wire;
  }

  lemma OutcomeOfNone(s: Io, rest: Bytes)
    requires rest != [] && s.env.sends == []
    ensures Outcome(s, rest, Close(s), false)
  {
    assert s.wire + rest[..0] == s.wire;
  }

  lemma OutcomeSent(s: Io, rest: Bytes, m: nat, r: Io, ok: bool)
    requires rest != [] && s.env.sends != [] && s.env.sends[0].Sent? && m == Min(s.env.sends[0].n, |rest|)
    requires Outcome(PutOnWire(PopSend(s), rest[..m]), rest[m..], r, ok)
    ensures Outcome(s, rest, r, ok)
  {
    hide HasSent, Total, Takings, Takes;
    TotalNext(s.env.sends);
    if ok {
      HasSentThen(s, rest, m, r);
    } else {
      PrefixOn(s.wire, rest, m, Total(s.env.sends[1..]));
    }
  }

  lemma PrefixOn(wire: Bytes, rest: Bytes, m: nat, t: nat)
    requires m + t <= |rest|
    ensures (wire + rest[..m]) + rest[m..][..t] == wire + rest[..m + t]
  {
  }

  lemma TotalNext(sends: seq<SendAnswer>)
    requires sends != [] && sends[0].Sent?
    ensures Total(sends) == Total(sends[1..]) + sends[0].n
    ensures Takings(sends) == Takings(sends[1..]) + if sends[0].n > 0 then 1 else 0
  {
  }

  lemma HasSentThen(s: Io, rest: Bytes, m: nat, r: Io)
    requires rest != [] && s.env.sends != [] && s.env.sends[0].Sent? && m == Min(s.env.sends[0].n, |rest|)
    requires HasSent(PutOnWire(PopSend(s), rest[..m]), rest[m..], r)
    ensures HasSent(s, rest, r)
  {
    hide Total, Takings, Takes;
    TotalNext(s.env.sends);
    assert (s.wire + rest[..m]) + rest[m..] == s.wire + rest;
  }

  lemma OutcomeRetried(s: Io, rest: Bytes, r: Io, ok: bool)
    requires s.env.sends != [] && !s.env.sends[0].Sent?
    requires Outcome(PopSend(s), rest, r, ok)
    ensures Outcome(s, rest, r, ok)
  {
  }

  // ---- the socket is not ready for more

  // With nothing to receive and no purge due, the loop goes on when the socket is ready, stops when it is not in
  // time, and gives the connection up on any other answer.
  lemma Blocked(s: Io, rest: Bytes)
    requires rest != [] && s.open && s.env.sends != [] && s.env.sends[0] == WouldBlock && s.env.recvs == []
    requires s.purging || (s.pending < s.msgMark && s.bytesSent < s.byteMark)
    requires s.timeout != 0 && s.env.polls != []
    ensures var s' := s.(env := s.env.(sends := s.env.sends[1..], polls := s.env.polls[1..]));
            match s.env.polls[0]
            case Ready => SendLoop(s, rest) == SendLoop(s', rest)
            case TimedOut => SendLoop(s, rest) == (s', false)
            case PollFailed(_) => !SendLoop(s, rest).1 && !SendLoop(s, rest).0.open
  {
    SendBlocked(s, rest);
    hide SendLoop;
  }

  // If there is something to receive, and room for it, it is received and the loop goes on without waiting.
  lemma BlockedReceives(s: Io, rest: Bytes)
    requires rest != [] && s.open && s.env.sends != [] && s.env.sends[0] == WouldBlock
    requires s.env.recvs != [] && s.env.recvs[0].Received? && s.env.recvs[0].n > 0
    requires |s.rbuf| < 8196 && s.env.incoming != []
    ensures exists m: nat :: 0 < m <= |s.env.incoming|
              && SendLoop(s, rest) == SendLoop(Take(PopRecv(PopSend(s)), m), rest)
  {
    SendBlocked(s, rest);
    var m := Delivered(s, 8196 - |s.rbuf|);
    hide SendLoop, Wait;
    assert SendLoop(s, rest) == SendLoop(Take(PopRecv(PopSend(s)), m), rest);
  }

  // ---------------------------------------------------------------- writing

  // Open, with no purge due now or later, and answers that take bytes.
  ghost predicate Sending(s: Io) {
    s.open && s.pending == 0 && s.msgMark > 0 && Takes(s.env.sends)
  }

  lemma FlushSends(s: Io)
    requires Sending(s) && |s.wbuf| <= Takings(s.env.sends)
    ensures Flush(s).1 && HasSent(s, s.wbuf, Flush(s).0)
  {
    hide SendLoop;
    SendExact(s, s.wbuf);
  }

  // Whole buffers of 8196 bytes go out as they fill up, the rest stays in the buffer unless a flush is asked for.
  ghost predicate Written(s: Io, data: Bytes, withFlush: bool, r: Io) {
    var all := s.wbuf + data;
    var q := Going(|all|, withFlush);
    r.wire == s.wire + all[..q] && r.wbuf == all[q..]
  }

  function Going(n: nat, withFlush: bool): (q: nat)
    ensures q <= n
  {
    if withFlush then n else n - n % 8196
  }

  lemma OneBufferMore(n: nat, withFlush: bool)
    ensures Going(8196 + n, withFlush) == 8196 + Going(n, withFlush)
  {
  }

  lemma {:induction false} WriteExact(s: Io, data: Bytes, withFlush: bool)
    requires Sending(s) && |s.wbuf| < 8196 && |s.wbuf| + |data| <= Takings(s.env.sends)
    ensures Write(s, data, withFlush).1 && Written(s, data, withFlush, Write(s, data, withFlush).0)
    decreases |data|
  {
    if data == [] {
      if withFlush {
        FlushSends(s);
      }
      WrittenNothing(s, withFlush);
    } else {
      WriteStep(s, data, withFlush);
      hide Flush, Write, Written, Takes, Takings;
      var take := Min(8196 - |s.wbuf|, |data|);
      var s1 := s.(wbuf := s.wbuf + data[..take]);
      var r := Write(s, data, withFlush).0;
      if |s1.wbuf| < 8196 {
        WriteExact(s1, data[take..], withFlush);
        WrittenBuffered(s, data, take, withFlush, r);
      } else {
        FlushSends(s1);
        var s2 := Flush(s1).0;
        WriteExact(s2, data[take..], withFlush);
        WrittenFlushed(s, data, take, withFlush, s2, r);
      }
    }
  }

  lemma WriteStep(s: Io, data: Bytes, withFlush: bool)
    requires data != [] && |s.wbuf| <= 8196
    ensures var take := Min(8196 - |s.wbuf|, |data|);
            var s1 := s.(wbuf := s.wbuf + data[..take]);
            var (s2, ok) := Flush(s1);
            Write(s, data, withFlush) == if |s1.wbuf| < 8196 then Write(s1, data[take..], withFlush)
                                         else if ok then Write(s2, data[take..], withFlush) else (s2, false)
  {
    hide Flush;
  }

  lemma WrittenNothing(s: Io, withFlush: bool)
    requires |s.wbuf| < 8196
    ensures !withFlush ==> Written(s, [], false, s)
    ensures withFlush && Flush(s).1 && HasSent(s, s.wbuf, Flush(s).0) ==> Written(s, [], true, Flush(s).0)
  {
    hide Flush;
    assert s.wbuf + [] == s.wbuf && s.wire + s.wbuf[..0] == s.wire;
  }

  lemma WrittenBuffered(s: Io, data: Bytes, take: nat, withFlush: bool, r: Io)
    requires take <= |data| && Written(s.(wbuf := s.wbuf + data[..take]), data[take..], withFlush, r)
    ensures Written(s, data, withFlush, r)
  {
    assert s.wbuf + data[..take] + data[take..] == s.wbuf + data;
  }

  lemma WrittenFlushed(s: Io, data: Bytes, take: nat, withFlush: bool, m: Io, r: Io)
    requires take <= |data| && |s.wbuf| + take == 8196 && m.wbuf == [] && m.wire == s.wire + (s.wbuf + data[..take])
    requires Written(m, data[take..], withFlush, r)
    ensures Written(s, data, withFlush, r)
  {
    var w, rest := s.wbuf + data[..take], data[take..];
    OneBufferMore(|rest|, withFlush);
    hide Going;
    Joined(s.wbuf, data, take);
    Joined([], rest, 0);
    CutLater(s.wire, w, rest, Going(|rest|, withFlush));
  }

  lemma Joined(a: Bytes, b: Bytes, k: nat)
    requires k <= |b|
    ensures (a + b[..k]) + b[k..] == a + b && [] + b == b
  {
  }

  lemma CutLater(wire: Bytes, w: Bytes, rest: Bytes, q: nat)
    requires q <= |rest|
    ensures (w + rest)[..|w| + q] == w + rest[..q] && (w + rest)[|w| + q..] == rest[q..]
    ensures (wire + w) + rest[..q] == wire + (w + rest[..q])
  {
  }

  // Writing two pieces is writing them in one, whatever the answers.
  lemma {:induction false} WriteSplits(s: Io, a: Bytes, b: Bytes, withFlush: bool)
    requires |s.wbuf| <= MAX_BUFFER
    ensures var (m, ok) := Write(s, a, false);
            Write(s, a + b, withFlush) == if ok then Write(m, b, withFlush) else (m, false)
    decreases |a|, |s.wbuf|
  {
    hide Flush;
    var room := MAX_BUFFER - |s.wbuf|;
    if a == [] {
      assert a + b == b;
    } else if |a| < room {
      WriteFits(s, a, b, withFlush);
      WriteFits(s, a, [], false);
      assert a + [] == a;
    } else {
      assert (a + b)[..room] == a[..room] && (a + b)[room..] == a[room..] + b;
      var (s2, ok) := Flush(s.(wbuf := s.wbuf + a[..room]));
      if ok {
        WriteSplits(s2, a[room..], b, withFlush);
      }
    }
  }

  // What fits is only buffered.
  lemma WriteFits(s: Io, a: Bytes, b: Bytes, withFlush: bool)
    requires |s.wbuf| + |a| < MAX_BUFFER
    ensures Write(s, a + b, withFlush) == Write(s.(wbuf := s.wbuf + a), b, withFlush)
  {
    hide Flush;
    var s' := s.(wbuf := s.wbuf + a);
    if a == [] {
      assert a + b == b && s.wbuf + a == s.wbuf;
    } else if b == [] {
      assert a + b == a && a[..|a|] == a && a[|a|..] == [];
    } else {
      var take := Min(MAX_BUFFER - |s'.wbuf|, |b|);
      assert (a + b)[..|a| + take] == a + b[..take] && (a + b)[|a| + take..] == b[take..];
      assert s.wbuf + (a + b[..take]) == s'.wbuf + b[..take];
    }
  }

  lemma {:induction false} WritevIsWrite(s: Io, vector: seq<Bytes>, withFlush: bool)
    requires |s.wbuf| <= MAX_BUFFER
    ensures Writev(s, vector, withFlush) == Write(s, Join(vector), withFlush)
    decreases |vector|
  {
    hide Write;
    if vector == [] {
      WriteNothing(s);
    } else {
      var (m, ok) := Write(s, vector[0], false);
      WriteSplits(s, vector[0], Join(vector[1..]), withFlush);
      if ok {
        WritevIsWrite(m, vector[1..], withFlush);
      }
    }
  }

  lemma WriteNothing(s: Io)
    requires |s.wbuf| <= MAX_BUFFER
    ensures Write(s, [], false) == (s, true)
  {
  }

  // ---------------------------------------------------------------- receiving

  function Waits(recvs: seq<RecvAnswer>): nat {
    if recvs == [] then 0 else Waits(recvs[1..]) + if recvs[0].NotReady? then 1 else 0
  }

  function Receipts(recvs: seq<RecvAnswer>): nat {
    if recvs == [] then 0 else Receipts(recvs[1..]) + if recvs[0].Received? then 1 else 0
  }

  // No receive fails, each that delivers has room for a byte, and every wait ends with the socket ready.
  ghost predicate Gives(env: Env) {
    && (forall a :: a in env.recvs ==> !a.Failed? && (a.Received? ==> a.n > 0))
    && (forall p :: p in env.polls ==> p == Ready) && Waits(env.recvs) <= |env.polls|
  }

  // Open, and at least n more receives that deliver what there is.
  ghost predicate Receiving(s: Io, n: int) {
    s.open && s.timeout != 0 && |s.rbuf| <= MAX_BUFFER && Gives(s.env) && n <= Receipts(s.env.recvs)
  }

  lemma GivesNext(env: Env)
    requires Gives(env) && env.recvs != []
    ensures !env.recvs[0].Failed? && (env.recvs[0].Received? ==> env.recvs[0].n > 0)
    ensures Gives(env.(recvs := env.recvs[1..]))
    ensures env.recvs[0].NotReady? ==>
              && env.polls != [] && env.polls[0] == Ready
              && Gives(env.(recvs := env.recvs[1..], polls := env.polls[1..]))
  {
    assert env.recvs[0] in env.recvs && forall a :: a in env.recvs[1..] ==> a in env.recvs;
    if env.recvs[0].NotReady? {
      assert env.polls[0] in env.polls && forall p :: p in env.polls[1..] ==> p in env.polls;
    }
  }

  // One fill uses up one receive; at the end of the stream it closes the connection.
  lemma {:induction false} FillGives(s: Io, n: nat)
    requires s.rbuf == [] && n > 0 && Receiving(s, n)
    ensures var (r, ok) := Fill(s);
            && (ok <==> s.env.incoming != []) && (ok <==> r.open)
            && (ok ==> Receiving(r, n - 1) && r.rbuf != [] && r.consumed == s.consumed
                       && r.rbuf + r.env.incoming == s.env.incoming)
    decreases |s.env.recvs|
  {
    hide Gives;
    GivesNext(s.env);
    var s0 := PopRecv(s);
    match s.env.recvs[0]
    case Received(_) =>
      GivenBy(s, n);
    case Interrupted => FillGives(s0, n);
    case NotReady => FillGives(Poll(s0).0, n);
  }

  lemma GivenBy(s: Io, n: nat)
    requires s.rbuf == [] && n > 0 && Receiving(s, n) && s.env.recvs[0].Received?
    ensures var (r, ok) := Fill(s);
            && (ok <==> s.env.incoming != []) && (ok <==> r.open)
            && (ok ==> Receiving(r, n - 1) && r.rbuf != [] && r.consumed == s.consumed
                       && r.rbuf + r.env.incoming == s.env.incoming)
  {
    hide Gives;
    GivesNext(s.env);
    var m := Delivered(s, MAX_BUFFER);
    var u := s.env.incoming;
    assert u[..m] + u[m..] == u && [] + u[..m] == u[..m];
    GivesSame(PopRecv(s).env, Take(PopRecv(s), m).env);
  }

  lemma GivesSame(a: Env, b: Env)
    requires Gives(a) && b.recvs == a.recvs && b.polls == a.polls
    ensures Gives(b)
  {
  }

  // The bytes not yet read, in the buffer or still to come.
  function Unread(s: Io): Bytes {
    s.rbuf + s.env.incoming
  }

  // A read of length bytes, with n receives to come, ended in r.
  ghost predicate ReadOutcome(s: Io, length: nat, n: nat, r: Io, ok: bool) {
    && (ok <==> length <= |Unread(s)|) && (ok <==> r.open)
    && (ok ==> Receiving(r, n - length) && Unread(r) == Unread(s)[length..])
  }

  // A read succeeds exactly when there are as many bytes, and then leaves the others.
  lemma {:induction false} ReadSucceeds(s: Io, length: nat, n: nat)
    requires Receiving(s, n) && length <= n
    ensures ReadOutcome(s, length, n, Read(s, length).0, Read(s, length).1)
    decreases length
  {
    if length == 0 {
      assert Unread(s)[0..] == Unread(s);
    } else {
      Filled(s, n);
      hide ReadOutcome, Fill, Receiving;
      var (s1, ok) := if s.rbuf == [] then Fill(s) else (s, true);
      if ok {
        var m := Min(length, |s1.rbuf|);
        Consumed(s1, m, n);
        ReadSucceeds(Consume(s1, m), length - m, n - m);
        OutcomeConsumed(s, Consume(s1, m), m, length, n, Read(s, length).0, Read(s, length).1);
      } else {
        OutcomeAtEnd(s, length, n, s1);
      }
    }
  }

  // The first part of a read: fill an empty buffer.
  lemma Filled(s: Io, n: nat)
    requires Receiving(s, n) && n > 0
    ensures var (r, ok) := if s.rbuf == [] then Fill(s) else (s, true);
            && s.open && (ok <==> Unread(s) != []) && (ok <==> r.open)
            && (ok ==> r.rbuf != [] && Unread(r) == Unread(s) && Receiving(r, n - 1))
  {
    hide Fill, Gives;
    if s.rbuf == [] {
      FillGives(s, n);
      assert Unread(s) == s.env.incoming;
    }
  }

  lemma Consumed(s: Io, m: nat, n: nat)
    requires 0 < m <= |s.rbuf| && m <= n && Receiving(s, n - 1)
    ensures Receiving(Consume(s, m), n - m) && Unread(Consume(s, m)) == Unread(s)[m..] && m <= |Unread(s)|
  {
    hide Gives;
  }

  lemma OutcomeAtEnd(s: Io, length: nat, n: nat, r: Io)
    requires length > 0 && Unread(s) == [] && !r.open
    ensures ReadOutcome(s, length, n, r, false)
  {
  }

  lemma OutcomeConsumed(s: Io, s1: Io, m: nat, length: nat, n: nat, r: Io, ok: bool)
    requires m <= length <= n && m <= |Unread(s)| && Unread(s1) == Unread(s)[m..]
    requires ReadOutcome(s1, length - m, n - m, r, ok)
    ensures ReadOutcome(s, length, n, r, ok)
  {
    hide Unread, Receiving;
  }

  // With room for more bytes of a line and u to be read: it is complete if there is a newline before the last place
  // in the buffer, refused if the buffer fills up, and lost with the connection otherwise.
  ghost predicate LineIs(u: Bytes, got: Bytes, room: nat, line: Bytes, outcome: LineOutcome)
    requires room > 0
  {
    && (outcome == Complete <==> 10 in u[..Min(room - 1, |u|)])
    && (outcome == TooLong <==> |u| >= room && 10 !in u[..room - 1])
    && (outcome != ReadFailed ==> exists k: nat :: k <= |u| && line == got + u[..k])
  }

  // With enough receives, what becomes of a line depends on the stream alone.
  lemma {:induction false} LineOutcomeExact(s: Io, got: Bytes, size: nat, n: nat)
    requires |got| < size && size - |got| <= n && Receiving(s, n)
    ensures var (r, line, outcome) := ReadLine(s, got, size);
            LineIs(Unread(s), got, size - |got|, line, outcome)
    decreases size - |got|
  {
    hide NextByte, Receiving, LineIs;
    var (s1, ok) := NextByte(s);
    var u := Unread(s);
    NextByteIs(s, n);
    if !ok {
      LineLost(got, size - |got|);
    } else if |got| + 1 == size || u[0] == NEWLINE {
      LineDone(u, got, size - |got|);
    } else {
      var got1 := got + [u[0]];
      LineOutcomeExact(s1, got1, size, n - 1);
      assert Unread(s1) == u[1..] && size - |got1| == size - |got| - 1;
      assert ReadLine(s, got, size) == ReadLine(s1, got1, size);
      LineOn(u, got, size - |got|, ReadLine(s, got, size).1, ReadLine(s, got, size).2);
    }
  }

  lemma LineLost(got: Bytes, room: nat)
    requires room > 0
    ensures LineIs([], got, room, got, ReadFailed)
  {
  }

  lemma LineDone(u: Bytes, got: Bytes, room: nat)
    requires room > 0 && u != []
    ensures room == 1 ==> LineIs(u, got, room, got + [u[0]], TooLong)
    ensures room > 1 && u[0] == NEWLINE ==> LineIs(u, got, room, got + [u[0]], Complete)
  {
    assert u[..1] == [u[0]];
    if room > 1 && u[0] == NEWLINE {
      assert u[..Min(room - 1, |u|)][0] == 10;
      assert |u| >= room ==> u[..room - 1][0] == 10;
    }
  }

  lemma LineOn(u: Bytes, got: Bytes, room: nat, line: Bytes, outcome: LineOutcome)
    requires room > 1 && u != [] && u[0] != NEWLINE && LineIs(u[1..], got + [u[0]], room - 1, line, outcome)
    ensures LineIs(u, got, room, line, outcome)
  {
    LineFurther(u, room);
    if outcome != ReadFailed {
      var k: nat :| k <= |u[1..]| && line == got + [u[0]] + u[1..][..k];
      OneByteMore(got, u, k);
    }
  }

  lemma OneByteMore(got: Bytes, u: Bytes, k: nat)
    requires k < |u|
    ensures got + [u[0]] + u[1..][..k] == got + u[..k + 1]
  {
  }

  lemma LineFurther(u: Bytes, room: nat)
    requires u != [] && room > 1 && u[0] != NEWLINE
    ensures NEWLINE in u[..Min(room - 1, |u|)] <==> NEWLINE in u[1..][..Min(room - 2, |u| - 1)]
    ensures |u| >= room ==> (NEWLINE in u[..room - 1] <==> NEWLINE in u[1..][..room - 2])
  {
    var k := Min(room - 1, |u|);
    assert u[..k] == [u[0]] + u[1..][..k - 1];
    if |u| >= room {
      assert u[..room - 1] == [u[0]] + u[1..][..room - 2];
    }
  }

  lemma NextByteIs(s: Io, n: nat)
    requires Receiving(s, n) && n > 0
    ensures var (r, ok) := NextByte(s);
            && (ok <==> Unread(s) != [])
            && (ok ==> Receiving(r, n - 1) && Unread(r) == Unread(s)[1..]
                       && r.consumed == s.consumed + [Unread(s)[0]])
  {
    hide Gives;
    if s.rbuf == [] {
      ReadSucceeds(s, 1, n);
      hide Read;
      if Read(s, 1).1 {
        ReadGives(s, 1);
        assert Stream(s) == s.consumed + Unread(s);
      }
    }
  }

  // ---------------------------------------------------------------- replies

  // A purge reports exactly the replies whose code is one of the three.
  lemma {:induction false} ReportsExact(s: Io, n: nat)
    ensures ReadReplies(s, n).1 <==>
            forall i :: 0 <= i < n && i < |s.env.replies| ==> s.env.replies[i].code != OutOfSync
    decreases n
  {
    if n > 0 {
      hide Read;
      ReplyTaken(s);
      var s1 := ReadReply(s).0;
      ReportsExact(s1, n - 1);
      hide ReadReply;
      if s.env.replies != [] {
        assert forall i :: 0 <= i < |s1.env.replies| ==> s1.env.replies[i] == s.env.replies[i + 1];
        if ReadReplies(s, n).1 {
          forall i | 0 <= i < n && i < |s.env.replies|
            ensures s.env.replies[i].code != OutOfSync
          {
            if i > 0 {
              assert s1.env.replies[i - 1].code != OutOfSync;
            }
          }
        }
      }
    }
  }

  lemma ReplyTaken(s: Io)
    ensures s.env.replies == [] ==> ReadReply(s).1 && ReadReply(s).0.env.replies == []
    ensures s.env.replies != [] ==> ReadReply(s).0.env.replies == s.env.replies[1..]
    ensures s.env.replies != [] ==> (ReadReply(s).1 <==> s.env.replies[0].code != OutOfSync)
  {
    if s.env.replies != [] {
      ReadKeepsReplies(PopReply(s), s.env.replies[0].length);
    }
  }

  lemma {:induction false} ReadKeepsReplies(s: Io, length: nat)
    ensures Read(s, length).0.env.replies == s.env.replies
    decreases length
  {
    if length > 0 && s.open {
      if s.rbuf == [] {
        FillKeepsReplies(s);
      }
      hide Fill;
      var (s1, ok) := if s.rbuf == [] then Fill(s) else (s, true);
      if ok && s1.rbuf != [] {
        var m := Min(length, |s1.rbuf|);
        ReadKeepsReplies(Consume(s1, m), length - m);
      }
    }
  }

  lemma {:induction false} FillKeepsReplies(s: Io)
    ensures Fill(s).0.env.replies == s.env.replies
    decreases |s.env.recvs|
  {
    if s.env.recvs != [] {
      var s0 := PopRecv(s);
      match s.env.recvs[0]
      case Received(_) =>
      case Interrupted => FillKeepsReplies(s0);
      case NotReady => FillKeepsReplies(Poll(s0).0);
      case Failed =>
    }
  }

  function Lengths(replies: seq<Reply>, n: nat): nat {
    if n == 0 || replies == [] then 0 else replies[0].length + Lengths(replies[1..], n - 1)
  }

  // n replies that are there, none of them fatal.
  ghost predicate Arriving(s: Io, n: nat) {
    && n <= |s.env.replies| && (forall i :: 0 <= i < n ==> s.env.replies[i].code == Fine)
    && Lengths(s.env.replies, n) <= |Unread(s)|
  }

  lemma {:induction false} RepliesArrive(s: Io, n: nat, k: nat)
    requires Arriving(s, n) && Receiving(s, k) && Lengths(s.env.replies, n) <= k
    ensures ReadReplies(s, n).1 && ReadReplies(s, n).0.open
    decreases n
  {
    hide Gives;
    if n > 0 {
      var reply := s.env.replies[0];
      GivesSame(s.env, PopReply(s).env);
      ReadSucceeds(PopReply(s), reply.length, k);
      ReplyTaken(s);
      hide Read;
      RepliesArrive(ReadReply(s).0, n - 1, k - reply.length);
    }
  }

  // A purge that is due succeeds if its bytes are taken and its replies arrive, even with poll_timeout zero.
  lemma PurgeSucceeds(s: Io)
    requires !s.purging && s.pending >= 2 && (s.pending >= s.msgMark || s.bytesSent >= s.byteMark)
    requires Takes(s.env.sends) && |s.wbuf| <= Total(s.env.sends)
    requires Arriving(s, s.pending - 1) && Receiving(s.(timeout := 50), Lengths(s.env.replies, s.pending - 1))
    ensures Purge(s).1 && Purge(s).0.open && Purge(s).0.wire == s.wire + s.wbuf
  {
    hide Purge, SendLoop, ReadReplies, Gives, More, Lengths, Takes, Takings, Total, Due;
    var s0, n := s.(purging := true), s.pending - 1;
    SendExact(s0, s.wbuf);
    var s1 := SendLoop(s0, s.wbuf).0.(timeout := 50);
    GivesSame(s.env, s1.env);
    RepliesArrive(s1, n, Lengths(s.env.replies, n));
    DueByMarks(s);
    PurgeReads(s);
    PurgeGuard(s);
  }

  lemma DueByMarks(s: Io)
    requires !s.purging && s.pending >= 2 && (s.pending >= s.msgMark || s.bytesSent >= s.byteMark)
    ensures Due(s)
  {
  }

  lemma PurgeReads(s: Io)
    requires Due(s)
    ensures var (s1, flushed) := SendLoop(s.(purging := true), s.wbuf);
            flushed && s1.pending > 1 ==>
              var (s2, ok) := ReadReplies(s1.(timeout := 50), s1.pending - 1);
              Purge(s).1 == ok && Purge(s).0.open == s2.open
  {
    hide SendLoop, ReadReplies, Due;
  }
}
