// What is left of a connection that is given up, and which failures give it up.
module Closing {
  import opened Octets
  import opened StreamIo
  import opened Progress

  // ---------------------------------------------------------------- nothing outlives the connection

  // Closed, with both buffers empty, nothing counted as sent and no reply expected.
  predicate Emptied(s: Io) {
    !s.open && s.wbuf == [] && s.rbuf == [] && s.bytesSent == 0 && s.pending == 0
  }

  predicate Settled(s: Io) {
    s.open || Emptied(s)
  }

  lemma {:induction false} FillSettles(s: Io)
    requires s.open
    ensures Settled(Fill(s).0)
    decreases |s.env.recvs|
  {
    if s.env.recvs != [] {
      var s0 := PopRecv(s);
      match s.env.recvs[0]
      case Received(_) =>
      case Interrupted => FillSettles(s0);
      case NotReady =>
        if Poll(s0).1 == Ready {
          FillSettles(Poll(s0).0);
        }
      case Failed =>
    }
  }

  lemma {:induction false} ReadSettles(s: Io, length: nat)
    requires Settled(s)
    ensures Settled(Read(s, length).0)
    decreases length
  {
    if length > 0 && s.open {
      if s.rbuf == [] {
        FillSettles(s);
      }
      hide Fill;
      var (s1, ok) := if s.rbuf == [] then Fill(s) else (s, true);
      if ok && s1.rbuf != [] {
        var m := Min(length, |s1.rbuf|);
        ReadSettles(Consume(s1, m), length - m);
      }
    }
  }

  lemma ReplySettles(s: Io)
    requires Settled(s)
    ensures Settled(ReadReply(s).0)
  {
    hide Read;
    if s.env.replies != [] {
      ReadSettles(PopReply(s), s.env.replies[0].length);
    }
  }

  lemma {:induction false} RepliesSettle(s: Io, n: nat)
    requires Settled(s)
    ensures Settled(ReadReplies(s, n).0)
    decreases n
  {
    if n > 0 {
      hide ReadReply;
      ReplySettles(s);
      RepliesSettle(ReadReply(s).0, n - 1);
    }
  }

  lemma {:induction false} SendSettles(s: Io, rest: Bytes)
    requires Settled(s)
    ensures Settled(SendLoop(s, rest).0)
    decreases |s.env.sends|, 0
  {
    hide SendLoop, Repack, Wait;
    SendEnds(s, rest);
    if rest != [] && s.open && s.env.sends != [] {
      match s.env.sends[0]
      case Sent(n) =>
        var m := Min(n, |rest|);
        SendSome(s, rest);
        SendSettles(PutOnWire(PopSend(s), rest[..m]), rest[m..]);
      case NoBuffers =>
        SendSome(s, rest);
        SendSettles(PopSend(s), rest);
      case WouldBlock =>
        SendBlocked(s, rest);
        var (s1, got) := Repack(PopSend(s));
        RepackConserves(PopSend(s));
        if got {
          SendSettles(s1, rest);
        } else {
          WaitSettles(s1);
          var (s2, answer) := Wait(s1);
          if answer == Ready {
            SendSettles(s2, rest);
          }
        }
      case Broken =>
    }
  }

  lemma {:induction false} PurgeSettles(s: Io)
    requires Settled(s)
    ensures Settled(Purge(s).0)
    decreases |s.env.sends|, 1
  {
    hide SendLoop, ReadReplies;
    var s0 := s.(purging := true);
    SendSettles(s0, s.wbuf);
    var s1 := SendLoop(s0, s.wbuf).0;
    if s1.pending > 1 {
      RepliesSettle(s1.(timeout := 50), s1.pending - 1);
    }
  }

  lemma {:induction false} WaitSettles(s: Io)
    requires Settled(s)
    ensures Settled(Wait(s).0)
    decreases |s.env.sends|, 2
  {
    hide Purge;
    PurgeSettles(s);
  }

  lemma FlushSettles(s: Io)
    requires Settled(s)
    ensures Settled(Flush(s).0)
  {
    hide Purge, SendLoop;
    PurgeSettles(s);
    SendSettles(Purge(s).0, Purge(s).0.wbuf);
  }

  // A write may go on after a flush that succeeded on a connection it closed; then only the bytes it was given since
  // are there.
  predicate Drained(s: Io) {
    s.open || (s.rbuf == [] && s.bytesSent == 0 && s.pending == 0)
  }

  lemma {:induction false} SendDrains(s: Io, rest: Bytes)
    requires !s.open && Drained(s)
    ensures Drained(SendLoop(s, rest).0) && (SendLoop(s, rest).1 ==> rest == [])
    ensures !SendLoop(s, rest).1 ==> Emptied(SendLoop(s, rest).0)
  {
    hide SendLoop;
    SendEnds(s, rest);
  }

  lemma PurgeDrains(s: Io)
    requires !s.open && Drained(s)
    ensures Drained(Purge(s).0) && !Purge(s).0.open && (!Purge(s).1 ==> Emptied(Purge(s).0))
  {
    hide SendLoop, ReadReplies;
    SendEnds(s.(purging := true), s.wbuf);
  }

  // A flush leaves the connection open or drained, and emptied if it fails on one that it leaves closed.
  lemma FlushDrains(s: Io)
    requires Drained(s)
    ensures var (r, ok) := Flush(s); Drained(r) && (!ok ==> Settled(r))
  {
    hide Purge, SendLoop, Emptied;
    if s.open {
      FlushSettles(s);
      SettledIsDrained(Flush(s).0);
    } else {
      PurgeDrains(s);
      if Purge(s).1 {
        SendDrains(Purge(s).0, Purge(s).0.wbuf);
      }
    }
  }

  lemma SettledIsDrained(s: Io)
    requires Settled(s)
    ensures Drained(s)
  {
  }

  lemma {:induction false} WriteDrains(s: Io, data: Bytes, withFlush: bool)
    requires Drained(s) && |s.wbuf| <= MAX_BUFFER
    ensures var (r, ok) := Write(s, data, withFlush); Drained(r) && (!ok ==> Settled(r))
    decreases |data|, |s.wbuf|
  {
    if data == [] {
      hide Flush, Emptied;
      FlushDrains(s);
    } else {
      WriteStep(s, data, withFlush);
      hide Flush, Write, Emptied;
      var take := Min(8196 - |s.wbuf|, |data|);
      var s1 := s.(wbuf := s.wbuf + data[..take]);
      if |s1.wbuf| < 8196 {
        WriteDrains(s1, data[take..], withFlush);
      } else {
        FlushDrains(s1);
        if Flush(s1).1 {
          WriteDrains(Flush(s1).0, data[take..], withFlush);
        }
      }
    }
  }

  lemma {:induction false} WritevDrains(s: Io, vector: seq<Bytes>, withFlush: bool)
    requires Drained(s) && |s.wbuf| <= MAX_BUFFER
    ensures var (r, ok) := Writev(s, vector, withFlush); Drained(r) && (!ok ==> Settled(r))
    decreases |vector|
  {
    hide Write, Emptied;
    if vector == [] {
      WriteDrains(s, [], true);
    } else {
      WriteDrains(s, vector[0], false);
      if Write(s, vector[0], false).1 {
        WritevDrains(Write(s, vector[0], false).0, vector[1..], withFlush);
      }
    }
  }

  // Any run on an open connection ends with it open, or with no byte unread, none counted and no reply expected.
  lemma {:induction false} RunDrains(s: Io, ops: seq<Op>)
    requires s.open && |s.wbuf| <= MAX_BUFFER
    ensures Drained(Run(s, ops).0)
    decreases |ops|
  {
    hide Write, Writev, ReadReply, Emptied;
    if ops != [] {
      DoDrains(s, ops[0]);
      hide Do;
      var (s1, ok) := Do(s, ops[0]);
      if ok && s1.open && |s1.wbuf| <= MAX_BUFFER {
        RunDrains(s1, ops[1..]);
      }
    }
  }

  // After an operation that failed there is nothing in the write buffer either.
  lemma DoDrains(s: Io, op: Op)
    requires s.open && |s.wbuf| <= MAX_BUFFER
    ensures var (r, ok) := Do(s, op); Drained(r) && (!ok ==> Settled(r))
  {
    hide Write, Writev, ReadReply, Emptied;
    match op
    case OpWrite(data, flush) => WriteDrains(s, data, flush);
    case OpWritev(vector, flush) => WritevDrains(s, vector, flush);
    case OpExpect =>
    case OpReply =>
      ReplySettles(s);
      SettledIsDrained(ReadReply(s).0);
  }

  // Nothing is read from a connection that was given up.
  lemma NothingReadAfter(s: Io, length: nat, size: nat)
    requires Emptied(s) && length > 0 && size > 0
    ensures !Read(s, length).1 && ReadLine(s, [], size).2 == ReadFailed
  {
  }

  // ---------------------------------------------------------------- which failures give it up

  // A receive that fails gives the connection up, one that is interrupted is repeated, and one that has to wait goes on
  // when the socket is ready, stops with nothing lost when it is not in time, and gives the connection up on a hang-up
  // but not on another error.
  lemma FillAnswers(s: Io)
    requires s.open && s.rbuf == [] && s.env.recvs != []
    ensures s.env.recvs[0] == Failed ==> !Fill(s).1 && Emptied(Fill(s).0)
    ensures s.env.recvs[0] == Interrupted ==> Fill(s) == Fill(s.(env := s.env.(recvs := s.env.recvs[1..])))
    ensures s.env.recvs[0] == NotReady && s.timeout != 0 && s.env.polls != [] ==>
              var s' := s.(env := s.env.(recvs := s.env.recvs[1..], polls := s.env.polls[1..]));
              match s.env.polls[0]
              case Ready => Fill(s) == Fill(s')
              case TimedOut => Fill(s) == (s', false)
              case PollFailed(hangup) => !Fill(s).1 && if hangup then Emptied(Fill(s).0) else Fill(s).0 == s'
    ensures s.env.recvs[0] == NotReady && s.timeout == 0 ==>
              Fill(s) == (s.(env := s.env.(recvs := s.env.recvs[1..])), false)
  {
  }

  // A reply leaves the connection open exactly when all of it arrives and its code is not a fatal one.
  lemma ReplyOutcome(s: Io, k: nat)
    requires Receiving(s, k) && s.env.replies != [] && s.env.replies[0].length <= k
    ensures var r, reply := ReadReply(s).0, s.env.replies[0];
            && (r.open <==> reply.code == Fine && reply.length <= |Unread(s)|)
            && (r.open ==> Unread(r) == Unread(s)[reply.length..]) && (!r.open ==> Emptied(r))
  {
    hide Read, Gives;
    var reply := s.env.replies[0];
    GivesSame(s.env, PopReply(s).env);
    ReadSucceeds(PopReply(s), reply.length, k);
    ReplySettles(s);
  }

  // A purge that is due, and whose bytes are taken, succeeds exactly when none of the replies it reads has one of the
  // three codes; and then so does the flush that it comes before.
  ghost predicate InSync(s: Io) {
    forall i :: 0 <= i < s.pending - 1 && i < |s.env.replies| ==> s.env.replies[i].code != OutOfSync
  }

  lemma PurgeOutcome(s: Io)
    requires s.open && !s.purging && s.pending >= 2 && (s.pending >= s.msgMark || s.bytesSent >= s.byteMark)
    requires Takes(s.env.sends) && |s.wbuf| <= Total(s.env.sends)
    ensures Purge(s).1 <==> InSync(s)
    ensures Flush(s).1 <==> InSync(s)
  {
    hide Purge, SendLoop, ReadReplies, Takes, Takings, Total, Due;
    var s0 := s.(purging := true);
    SendExact(s0, s.wbuf);
    var s1 := SendLoop(s0, s.wbuf).0.(timeout := 50);
    ReportsExact(s1, s.pending - 1);
    DueByMarks(s);
    PurgeReads(s);
    FlushAfterPurge(s);
  }

  // A send that blocks with a purge due, and nothing to receive, purges before it polls: the connection is given up if
  // the purge fails or loses it, and only otherwise does the socket decide whether the loop goes on.
  lemma BlockedPurges(s: Io, rest: Bytes)
    requires rest != [] && s.open && s.env.sends != [] && s.env.sends[0] == WouldBlock && s.env.recvs == []
    requires !s.purging && s.pending >= 2 && (s.pending >= s.msgMark || s.bytesSent >= s.byteMark)
    ensures var (p, ok) := Purge(s.(env := s.env.(sends := s.env.sends[1..])));
            var (r, sent) := SendLoop(s, rest);
            if !ok || !p.open then !sent && Emptied(r)
            else p.timeout != 0 && p.env.polls != [] ==>
                   var p' := p.(replays := p.replays + 1, env := p.env.(polls := p.env.polls[1..]));
                   match p.env.polls[0]
                   case Ready => SendLoop(s, rest) == SendLoop(p', rest)
                   case TimedOut => SendLoop(s, rest) == (p', false)
                   case PollFailed(_) => !sent && Emptied(r)
  {
    hide SendLoop, Purge;
    SendBlocked(s, rest);
  }

  lemma FlushAfterPurge(s: Io)
    requires Due(s)
    ensures Flush(s).1 <==> Purge(s).1
  {
    hide SendLoop, ReadReplies, Due;
    if Purge(s).1 {
      PurgeLeavesNothing(s);
      SendEnds(Purge(s).0, []);
    }
  }

  lemma PurgeLeavesNothing(s: Io)
    requires Due(s) && Purge(s).1
    ensures Purge(s).0.wbuf == []
  {
    hide SendLoop, ReadReplies, Due;
    var s1 := SendLoop(s.(purging := true), s.wbuf).0;
    if s1.pending > 1 {
      RepliesKeepEmpty(s1.(timeout := 50), s1.pending - 1);
    }
  }

  lemma {:induction false} RepliesKeepEmpty(s: Io, n: nat)
    requires s.wbuf == []
    ensures ReadReplies(s, n).0.wbuf == []
    decreases n
  {
    if n > 0 {
      ReplyKeepsEmpty(s);
      hide ReadReply;
      RepliesKeepEmpty(ReadReply(s).0, n - 1);
    }
  }

  lemma ReplyKeepsEmpty(s: Io)
    requires s.wbuf == []
    ensures ReadReply(s).0.wbuf == []
  {
    hide Read;
    if s.env.replies != [] {
      ReadKeepsEmpty(PopReply(s), s.env.replies[0].length);
    }
  }

  lemma {:induction false} ReadKeepsEmpty(s: Io, length: nat)
    requires s.wbuf == []
    ensures Read(s, length).0.wbuf == []
    decreases length
  {
    if length > 0 && s.open {
      if s.rbuf == [] {
        FillConserves(s);
      }
      hide Fill;
      var (s1, ok) := if s.rbuf == [] then Fill(s) else (s, true);
      if ok && s1.rbuf != [] {
        var m := Min(length, |s1.rbuf|);
        ReadKeepsEmpty(Consume(s1, m), length - m);
      }
    }
  }
}
