// memcached_instance_st with its two fixed buffers: the methods of src/libmemcached/io.cc and purge.cc,
// each doing to the buffers what module StreamIo says of the byte streams.
module Instance {
  import opened Octets
  import opened StreamIo

  class Instance {
    const writeBuffer: array<Byte>
    var writeBufferOffset: nat
    const readBuffer: array<Byte>
    var readPtr: nat
    var readBufferLength: nat
    var ioBytesSent: nat
    var responseCount: nat
    var isOpen: bool
    // of the root
    var isPurging: bool
    var pollTimeout: int
    const msgMark: nat
    const byteMark: nat
    // the operating system
    var env: Env
    ghost var wire: Bytes
    ghost var consumed: Bytes
    ghost var replays: nat

    ghost predicate Valid()
      reads this
    {
      && writeBuffer.Length == readBuffer.Length == MAX_BUFFER && writeBuffer != readBuffer
      && writeBufferOffset <= MAX_BUFFER && readPtr + readBufferLength <= MAX_BUFFER
    }

    ghost function Abs(): (s: Io)
      requires Valid()
      reads this, writeBuffer, readBuffer
      ensures s.env == env && s.open == isOpen && s.purging == isPurging && s.timeout == pollTimeout
      ensures s.bytesSent == ioBytesSent && s.pending == responseCount && s.msgMark == msgMark && s.byteMark == byteMark
      ensures s.wire == wire && s.consumed == consumed && s.replays == replays
      ensures |s.wbuf| == writeBufferOffset && |s.rbuf| == readBufferLength
    {
      Io(writeBuffer[..writeBufferOffset], readBuffer[readPtr..readPtr + readBufferLength],
         ioBytesSent, responseCount, isPurging, pollTimeout, isOpen, msgMark, byteMark, env, wire, consumed, replays)
    }

    constructor (msgMark: nat, byteMark: nat, pollTimeout: int, env: Env)
      ensures Valid() && Abs() == Io([], [], 0, 0, false, pollTimeout, true, msgMark, byteMark, env, [], [], 0)
      ensures fresh(writeBuffer) && fresh(readBuffer)
    {
      writeBuffer := new Byte[MAX_BUFFER](_ => 0);
      readBuffer := new Byte[MAX_BUFFER](_ => 0);
      writeBufferOffset, readPtr, readBufferLength, ioBytesSent, responseCount := 0, 0, 0, 0, 0;
      isOpen, isPurging := true, false;
      this.pollTimeout, this.msgMark, this.byteMark, this.env := pollTimeout, msgMark, byteMark, env;
      wire, consumed, replays := [], [], 0;
    }

    // memcached_quit_server and close_socket.
    method CloseSocket()
      requires Valid()
      modifies this`isOpen, this`ioBytesSent, this`writeBufferOffset
      modifies this`readBufferLength, this`readPtr, this`responseCount
      ensures Valid() && Abs() == Close(old(Abs()))
      ensures !isOpen && writeBufferOffset == readBufferLength == ioBytesSent == responseCount == 0
    {
      isOpen := false;
      ioBytesSent := 0;
      writeBufferOffset := 0;
      readBufferLength := 0;
      readPtr := 0;
      responseCount := 0;
      assert writeBuffer[..0] == [] && readBuffer[0..0] == [];
    }

    // ::recv into the read buffer behind the unread bytes.
    method Recv(room: nat) returns (nr: nat)
      requires Valid() && readPtr + readBufferLength + room <= MAX_BUFFER
      requires env.recvs != [] && env.recvs[0].Received?
      modifies this`env, this`readBufferLength, readBuffer
      ensures Valid() && nr == Delivered(old(Abs()), room)
      ensures Abs() == Take(PopRecv(old(Abs())), nr)
    {
      nr := Min(env.recvs[0].n, Min(room, |env.incoming|));
      var at := readPtr + readBufferLength;
      forall k | 0 <= k < nr {
        readBuffer[at + k] := env.incoming[k];
      }
      env := env.(recvs := env.recvs[1..], incoming := env.incoming[nr..]);
      readBufferLength := readBufferLength + nr;
      assert readBuffer[readPtr..readPtr + readBufferLength]
             == old(readBuffer[readPtr..readPtr + readBufferLength]) + old(env.incoming)[..nr];
    }

    // repack_input_buffer.
    method RepackInputBuffer() returns (got: bool)
      requires Valid()
      modifies this, readBuffer
      ensures Valid() && (Abs(), got) == Repack(old(Abs()))
    {
      if readPtr != 0 {
        MoveToFront();
      }
      if readBufferLength != MAX_BUFFER {
        if env.recvs != [] {
          if env.recvs[0].Received? {
            var nr := Recv(MAX_BUFFER - readBufferLength);
            return nr > 0;
          }
          env := env.(recvs := env.recvs[1..]);
        }
      }
      return false;
    }

    method MoveToFront()
      requires Valid()
      modifies this`readPtr, readBuffer
      ensures Valid() && readPtr == 0 && Abs() == old(Abs())
    {
      forall k | 0 <= k < readBufferLength {
        readBuffer[k] := readBuffer[readPtr + k];
      }
      readPtr := 0;
      assert readBuffer[..readBufferLength] == old(readBuffer[readPtr..readPtr + readBufferLength]);
    }

    // memcached_io_poll.
    method IoPoll() returns (answer: PollAnswer)
      requires Valid()
      modifies this
      ensures Valid() && (Abs(), answer) == Poll(old(Abs()))
    {
      hide Close;
      if pollTimeout == 0 || env.polls == [] {
        return TimedOut;
      }
      answer := env.polls[0];
      env := env.(polls := env.polls[1..]);
      if answer == PollFailed(true) {
        CloseSocket();
      }
    }

    // Single steps, each as a function of the state.

    method NextRecv()
      requires Valid() && env.recvs != []
      modifies this`env
      ensures Valid() && Abs() == PopRecv(old(Abs()))
    {
      env := env.(recvs := env.recvs[1..]);
    }

    method NextSend()
      requires Valid() && env.sends != []
      modifies this`env
      ensures Valid() && Abs() == PopSend(old(Abs()))
    {
      env := env.(sends := env.sends[1..]);
    }

    method NextReply() returns (reply: Reply)
      requires Valid() && env.replies != []
      modifies this`env, this`responseCount
      ensures Valid() && reply == old(env).replies[0] && Abs() == PopReply(old(Abs()))
    {
      reply := env.replies[0];
      env := env.(replies := env.replies[1..]);
      if responseCount > 0 {
        responseCount := responseCount - 1;
      }
    }

    method SetBytesSent(n: nat)
      requires Valid()
      modifies this`ioBytesSent
      ensures Valid() && Abs() == old(Abs()).(bytesSent := n)
    {
      ioBytesSent := n;
    }

    method SetResponseCount(n: nat)
      requires Valid()
      modifies this`responseCount
      ensures Valid() && Abs() == old(Abs()).(pending := n)
    {
      responseCount := n;
    }

    method SetPurging(on: bool)
      requires Valid()
      modifies this`isPurging
      ensures Valid() && Abs() == old(Abs()).(purging := on)
    {
      isPurging := on;
    }

    method SetPollTimeout(timeout: int)
      requires Valid()
      modifies this`pollTimeout
      ensures Valid() && Abs() == old(Abs()).(timeout := timeout)
    {
      pollTimeout := timeout;
    }

    ghost method CountReplay()
      requires Valid()
      modifies this`replays
      ensures Valid() && Abs() == old(Abs()).(replays := old(replays) + 1)
    {
      replays := replays + 1;
    }

    method ResetReadPtr()
      requires Valid() && readBufferLength == 0
      modifies this`readPtr
      ensures Valid() && readPtr == 0 && Abs() == old(Abs())
    {
      readPtr := 0;
    }

    method ResetWriteBuffer()
      requires Valid()
      modifies this`writeBufferOffset
      ensures Valid() && Abs() == old(Abs()).(wbuf := [])
    {
      writeBufferOffset := 0;
      assert writeBuffer[..0] == [];
    }

    // memcpy out of the read buffer.
    method CopyOut(out: array<Byte>, at: nat, m: nat)
      requires Valid() && m <= readBufferLength && at + m <= out.Length
      requires out != readBuffer && out != writeBuffer
      modifies out
      ensures out[..at + m] == old(out[..at]) + Abs().rbuf[..m]
    {
      forall k | 0 <= k < m {
        out[at + k] := readBuffer[readPtr + k];
      }
    }

    method Advance(m: nat)
      requires Valid() && m <= readBufferLength
      modifies this`readPtr, this`readBufferLength, this`consumed
      ensures Valid() && Abs() == Consume(old(Abs()), m)
    {
      consumed := consumed + readBuffer[readPtr..readPtr + m];
      assert readBuffer[readPtr..readPtr + m] == Abs().rbuf[..m];
      readPtr := readPtr + m;
      readBufferLength := readBufferLength - m;
      assert Abs().rbuf == old(Abs()).rbuf[m..];
    }

    // ::send of m bytes of the write buffer.
    method Send(ptr: nat, m: nat)
      requires Valid() && ptr + m <= MAX_BUFFER && env.sends != []
      modifies this`env, this`wire, this`ioBytesSent
      ensures Valid() && Abs() == PutOnWire(PopSend(old(Abs())), writeBuffer[ptr..ptr + m])
    {
      env := env.(sends := env.sends[1..]);
      wire := wire + writeBuffer[ptr..ptr + m];
      ioBytesSent := ioBytesSent + m;
    }

    // memcpy into the write buffer.
    method CopyIn(data: Bytes)
      requires Valid() && writeBufferOffset + |data| <= MAX_BUFFER
      modifies this`writeBufferOffset, writeBuffer
      ensures Valid() && Abs() == old(Abs()).(wbuf := old(Abs()).wbuf + data)
    {
      forall k | 0 <= k < |data| {
        writeBuffer[writeBufferOffset + k] := data[k];
      }
      writeBufferOffset := writeBufferOffset + |data|;
      assert Abs().wbuf == old(Abs()).wbuf + data;
    }

    // ---------------------------------------------------------------- receiving

    // _io_fill.
    method IoFill() returns (ok: bool)
      requires Valid() && readBufferLength == 0
      modifies this, readBuffer
      ensures Valid() && (Abs(), ok) == Fill(old(Abs()))
    {
      hide Abs, Fill, Close, Delivered, Poll, Take;
      while true
        invariant Valid() && readBufferLength == 0
        invariant Fill(Abs()) == Fill(old(Abs()))
        decreases |env.recvs|
      {
        FillUnfold(Abs());
        if env.recvs == [] {
          CloseSocket();
          return false;
        }
        match env.recvs[0]
        case Received(_) =>
          ResetReadPtr();
          var nr := Recv(MAX_BUFFER);
          if nr == 0 {
            CloseSocket();
            return false;
          }
          SetBytesSent(0);
          return true;
        case Interrupted =>
          NextRecv();
        case NotReady =>
          NextRecv();
          PollKeeps(Abs());
          var answer := IoPoll();
          if answer != Ready {
            return false;
          }
        case Failed =>
          NextRecv();
          CloseSocket();
          return false;
      }
    }

    // One round of the loop of memcached_io_read: at least one byte, or a failure.
    method ReadSome(out: array<Byte>, at: nat, length: nat) returns (m: nat, ghost chunk: Bytes)
      requires Valid() && isOpen && 0 < length && at + length <= out.Length && out != readBuffer && out != writeBuffer
      modifies this, readBuffer, out
      ensures Valid() && m == |chunk| <= length
      ensures out[..at + m] == old(out[..at]) + chunk && (m > 0 ==> consumed == old(consumed) + chunk)
      ensures m == 0 ==> Read(old(Abs()), length) == (Abs(), false)
      ensures m > 0 ==> isOpen && Read(old(Abs()), length) == Read(Abs(), length - m)
    {
      hide Abs, Read, Consume, Fill;
      ReadUnfold(Abs(), length);
      if readBufferLength == 0 {
        FillConserves(Abs());
        var filled := IoFill();
        if !filled {
          return 0, [];
        }
      }
      m, chunk := Min(length, readBufferLength), Abs().rbuf[..Min(length, readBufferLength)];
      ConsumeAppends(Abs(), m);
      CopyOut(out, at, m);
      Advance(m);
    }

    // memcached_io_read: all of length bytes, or a failure.
    method IoRead(out: array<Byte>, at: nat, length: nat) returns (ok: bool)
      requires Valid() && at + length <= out.Length && out != readBuffer && out != writeBuffer
      modifies this, readBuffer, out
      ensures Valid()
      ensures (Abs(), ok) == if old(isOpen) then Read(old(Abs()), length) else (old(Abs()), false)
      ensures ok ==> consumed == old(consumed) + out[at..at + length]
      ensures out[..at] == old(out[..at])
    {
      hide *;
      if !isOpen {
        return false;
      }
      ghost var kept, got := out[..at], [];
      var done: nat := 0;
      while done < length
        invariant Valid() && isOpen && done == |got| <= length
        invariant Read(Abs(), length - done) == Read(old(Abs()), length)
        invariant out[..at + done] == kept + got && consumed == old(consumed) + got
      {
        ghost var chunk;
        var m;
        m, chunk := ReadSome(out, at + done, length - done);
        Appended(kept, got, chunk);
        got := got + chunk;
        done := done + m;
        if m == 0 {
          PrefixKept(out, kept, got);
          return false;
        }
      }
      PrefixKept(out, kept, got);
      ReadUnfold(Abs(), 0);
      return true;
    }

    // memcached_safe_read.
    method SafeRead(out: array<Byte>, size: nat) returns (ok: bool)
      requires Valid() && size <= out.Length && out != readBuffer && out != writeBuffer
      modifies this, readBuffer, out
      ensures Valid() && (Abs(), ok) == Read(old(Abs()), size)
      ensures ok ==> consumed == old(consumed) + out[..size]
      ensures ReadOnly(old(Abs()), Abs())
    {
      hide Abs, Read, ReadOnly;
      ReadExact(Abs(), size);
      ReadUnfold(Abs(), size);
      if size == 0 {
        return true;
      }
      ok := IoRead(out, 0, size);
      assert out[0..size] == out[..size];
    }

    // memcached_io_readline.
    method IoReadline(out: array<Byte>, size: nat) returns (total: nat, outcome: LineOutcome)
      requires Valid() && 0 < size <= out.Length && out != readBuffer && out != writeBuffer
      modifies this, readBuffer, out
      ensures Valid() && total <= size && (Abs(), out[..total], outcome) == ReadLine(old(Abs()), [], size)
      ensures IsLine(out[..total], size, outcome)
    {
      hide Abs, ReadLine, AfterByte, NextByte, IsLine;
      LineExact(Abs(), [], size);
      total := 0;
      assert out[..0] == [];
      while total == 0 || out[total - 1] != NEWLINE
        invariant Valid() && total < size
        invariant ReadLine(old(Abs()), [], size) ==
                  if total == 0 then ReadLine(Abs(), out[..0], size) else AfterByte(Abs(), out[..total], size)
        decreases size - total
      {
        LineUnfold(Abs(), out[..total], size);
        ghost var before := out[..total];
        var ok := ReadByte(out, total);
        if !ok {
          return total, ReadFailed;
        }
        assert out[..total + 1] == before + [out[total]];
        total := total + 1;
        LineUnfold(Abs(), out[..total], size);
        if total == size {
          return total, TooLong;
        }
      }
      LineUnfold(Abs(), out[..total], size);
      return total, Complete;
    }

    // One byte of a line, from the read buffer if there is one in it.
    method ReadByte(out: array<Byte>, at: nat) returns (ok: bool)
      requires Valid() && at < out.Length && out != readBuffer && out != writeBuffer
      modifies this, readBuffer, out
      ensures Valid() && (Abs(), ok) == NextByte(old(Abs())) && out[..at] == old(out[..at])
      ensures ok ==> consumed == old(consumed) + [out[at]]
    {
      hide Abs, Read, Consume;
      if readBufferLength == 0 {
        ReadUnfold(Abs(), 1);
        ok := IoRead(out, at, 1);
        assert ok ==> out[at..at + 1] == [out[at]];
      } else {
        ConsumeAppends(Abs(), 1);
        ghost var first := Abs().rbuf[..1];
        ghost var kept := out[..at];
        CopyOut(out, at, 1);
        assert out[..at + 1] == kept + first && out[..at] == out[..at + 1][..at] && [out[at]] == first;
        Advance(1);
        ok := true;
      }
    }

    // memcached_read_one_response, as far as the stream is concerned.
    method ReadOneResponse() returns (inSync: bool)
      requires Valid()
      modifies this, readBuffer
      ensures Valid() && (Abs(), inSync) == ReadReply(old(Abs()))
    {
      hide Abs, Read, Close;
      if env.replies == [] {
        CloseSocket();
        return true;
      }
      var reply := NextReply();
      var value := new Byte[reply.length];
      var ok := SafeRead(value, reply.length);
      if !ok || !isOpen || reply.code != Fine {
        CloseSocket();
        return reply.code != OutOfSync;
      }
      if reply.more {
        SetResponseCount(responseCount + 1);
      }
      return true;
    }

    // ---------------------------------------------------------------- sending

    // memcached_purge.
    method MemcachedPurge() returns (ok: bool)
      requires Valid()
      modifies this, readBuffer
      ensures Valid() && (Abs(), ok) == Purge(old(Abs()))
      ensures Purged(old(Abs()), Abs(), ok)
      decreases |env.sends|, if isPurging then 0 else 1, 0
    {
      hide Abs, Purge, Flush, SendLoop, ReadReplies, Close, Purged;
      PurgeLaw(Abs());
      PurgeUnfold(Abs());
      if isPurging || (responseCount < msgMark && ioBytesSent < byteMark)
         || (ioBytesSent >= byteMark && responseCount < 2)
      {
        return true;
      }
      SetPurging(true);
      FlushInPurge(Abs());
      SendLoopLaw(Abs(), Abs().wbuf);
      ok := IoFlush();
      if !ok {
        CloseSocket();
        SetPurging(false);
        return;
      }
      if responseCount > 1 {
        var timeout := pollTimeout;
        SetPollTimeout(50);
        ok := ReadResponses(responseCount - 1);
        SetPollTimeout(timeout);
      }
      SetPurging(false);
    }

    // The loop of memcached_purge.
    method ReadResponses(n: nat) returns (ok: bool)
      requires Valid()
      modifies this, readBuffer
      ensures Valid() && (Abs(), ok) == ReadReplies(old(Abs()), n)
    {
      hide Abs, ReadReplies, ReadReply;
      ok := true;
      for x := 0 to n
        invariant Valid()
        invariant ReadReplies(old(Abs()), n) == (ReadReplies(Abs(), n - x).0, ok && ReadReplies(Abs(), n - x).1)
      {
        RepliesUnfold(Abs(), n - x);
        var inSync := ReadOneResponse();
        if !inSync {
          ok := false;
        }
      }
      RepliesUnfold(Abs(), 0);
    }

    // io_wait for POLLOUT.
    method IoWait() returns (answer: PollAnswer)
      requires Valid()
      modifies this, readBuffer
      ensures Valid() && (Abs(), answer) == Wait(old(Abs()))
      decreases |env.sends|, if isPurging then 0 else 1, 1
    {
      hide Abs, Purge, Poll;
      ghost var due := Due(Abs());
      var purged := MemcachedPurge();
      if due {
        CountReplay();
      }
      if !purged || !isOpen {
        return PollFailed(true);
      }
      answer := IoPoll();
    }

    // EAGAIN in io_flush: whether to try again to send rest.
    method TryAgain(ghost rest: Bytes) returns (again: bool)
      requires Valid() && isOpen && env.sends != [] && env.sends[0] == WouldBlock && rest != []
      modifies this, readBuffer
      ensures Valid() && |env.sends| < |old(env).sends|
      ensures SendLoop(old(Abs()), rest) == if again then SendLoop(Abs(), rest) else (Abs(), false)
      decreases |env.sends| - 1, 1, 2
    {
      hide Abs, SendLoop, Close, Repack, Wait, PopSend;
      SendBlocked(Abs(), rest);
      NextSend();
      var got := RepackInputBuffer();
      if got {
        return true;
      }
      var answer := IoWait();
      if answer.PollFailed? {
        CloseSocket();
      }
      return answer == Ready;
    }

    // io_flush.
    method IoFlush() returns (ok: bool)
      requires Valid()
      modifies this, readBuffer
      ensures Valid() && (Abs(), ok) == Flush(old(Abs()))
      decreases |env.sends|, if isPurging then 0 else 1, 2
    {
      hide Abs, Purge, SendLoop;
      ok := MemcachedPurge();
      if !ok {
        return;
      }
      ok := SendAll();
    }

    // The loop of io_flush.
    method SendAll() returns (ok: bool)
      requires Valid()
      modifies this, readBuffer
      ensures Valid() && (Abs(), ok) == SendLoop(old(Abs()), old(Abs()).wbuf)
      decreases |env.sends|, 0, 1
    {
      hide Abs, SendLoop, Close, PopSend, PutOnWire;
      var ptr: nat, left: nat := 0, writeBufferOffset;
      WriteBufferIs();
      while left > 0
        invariant Valid() && ptr + left <= MAX_BUFFER
        invariant SendLoop(Abs(), writeBuffer[ptr..ptr + left]) == SendLoop(old(Abs()), old(Abs()).wbuf)
        invariant |env.sends| <= |old(env).sends|
        decreases |env.sends|
      {
        ghost var rest := writeBuffer[ptr..ptr + left];
        SendEnds(Abs(), rest);
        if !isOpen || env.sends == [] {
          CloseSocket();
          return false;
        }
        match env.sends[0]
        case Sent(n) =>
          SendSome(Abs(), rest);
          var m := Min(n, left);
          SlicesOf(writeBuffer, ptr, m, left);
          Send(ptr, m);
          ptr, left := ptr + m, left - m;
        case NoBuffers =>
          SendSome(Abs(), rest);
          NextSend();
        case WouldBlock =>
          var again := TryAgain(rest);
          if !again {
            return false;
          }
        case Broken =>
          NextSend();
          CloseSocket();
          return false;
      }
      SendEnds(Abs(), []);
      assert writeBuffer[ptr..ptr] == [];
      ResetWriteBuffer();
      return true;
    }

    lemma WriteBufferIs()
      requires Valid()
      ensures writeBuffer[0..writeBufferOffset] == Abs().wbuf
    {
    }

    // _io_write.
    method IoWrite(data: Bytes, withFlush: bool) returns (ok: bool)
      requires Valid()
      modifies this, readBuffer, writeBuffer
      ensures Valid() && (Abs(), ok) == Write(old(Abs()), data, withFlush)
      ensures Accepts(old(Abs()), data, Abs(), ok)
    {
      hide Abs, Write, Flush, Accepts;
      WriteAccepts(Abs(), data, withFlush);
      var done := 0;
      while done < |data|
        invariant Valid() && done <= |data|
        invariant Write(Abs(), data[done..], withFlush) == Write(old(Abs()), data, withFlush)
        decreases |data| - done, writeBufferOffset
      {
        WriteUnfold(Abs(), data[done..], withFlush);
        var take := Min(MAX_BUFFER - writeBufferOffset, |data| - done);
        assert data[done..][..take] == data[done..done + take] && data[done..][take..] == data[done + take..];
        CopyIn(data[done..done + take]);
        done := done + take;
        if writeBufferOffset == MAX_BUFFER {
          ok := IoFlush();
          if !ok {
            return;
          }
        }
      }
      WriteUnfold(Abs(), [], withFlush);
      assert data[done..] == [];
      if withFlush {
        ok := IoFlush();
        return;
      }
      return true;
    }

    // memcached_io_writev.
    method IoWritev(vector: seq<Bytes>, withFlush: bool) returns (ok: bool)
      requires Valid()
      modifies this, readBuffer, writeBuffer
      ensures Valid() && (Abs(), ok) == Writev(old(Abs()), vector, withFlush)
      ensures Accepts(old(Abs()), Join(vector), Abs(), ok)
    {
      hide Abs, Write, Writev, Accepts;
      WritevAccepts(Abs(), vector, withFlush);
      for x := 0 to |vector|
        invariant Valid()
        invariant Writev(Abs(), vector[x..], withFlush) == Writev(old(Abs()), vector, withFlush)
      {
        WritevUnfold(Abs(), vector[x..], withFlush);
        assert vector[x..][1..] == vector[x + 1..];
        if vector[x] != [] {
          ok := IoWrite(vector[x], false);
          if !ok {
            return;
          }
        } else {
          WriteUnfold(Abs(), [], false);
        }
      }
      WritevUnfold(Abs(), [], withFlush);
      assert vector[|vector|..] == [];
      if withFlush {
        ok := IoWrite([], true);
        return;
      }
      return true;
    }

    // ---------------------------------------------------------------- runs

    // Any operation of a client on this connection.
    method Perform(op: Op) returns (ok: bool)
      requires Valid()
      modifies this, readBuffer, writeBuffer
      ensures Valid() && (Abs(), ok) == Do(old(Abs()), op)
    {
      hide Abs, Write, Writev, ReadReply, Accepts;
      match op
      case OpWrite(data, flush) =>
        ok := IoWrite(data, flush);
      case OpWritev(vector, flush) =>
        ok := IoWritev(vector, flush);
      case OpExpect =>
        SetResponseCount(responseCount + 1);
        ok := true;
      case OpReply =>
        ok := ReadOneResponse();
        ok := ok && isOpen;
    }

    // Any run of them, up to the first failure or the end of the connection.
    method PerformAll(ops: seq<Op>) returns (ok: bool)
      requires Valid()
      modifies this, readBuffer, writeBuffer
      ensures Valid() && (Abs(), ok) == Run(old(Abs()), ops)
      ensures isPurging == old(isPurging) && pollTimeout == old(pollTimeout)
      ensures isOpen ==> Stream(Abs()) == Stream(old(Abs()))
      ensures ok ==> Subsequence(old(wire + Abs().wbuf) + GivenAll(ops), wire + Abs().wbuf)
      ensures ok ==> (wire + Abs().wbuf == old(wire + Abs().wbuf) + GivenAll(ops) <==> replays == old(replays))
      ensures ok && !old(isPurging) && Calm(old(pollTimeout), msgMark, byteMark) ==>
                wire + Abs().wbuf == old(wire + Abs().wbuf) + GivenAll(ops)
    {
      hide Abs, Do, Run, Stream, GivenAll, Subsequence, Holds;
      RunConserves(Abs(), ops);
      if Run(Abs(), ops).1 && !isPurging && Calm(pollTimeout, msgMark, byteMark) {
        CalmRun(Abs(), ops);
      }
      for i := 0 to |ops|
        invariant Valid()
        invariant Run(Abs(), ops[i..]) == Run(old(Abs()), ops)
      {
        RunUnfold(Abs(), ops[i..]);
        assert ops[i..][1..] == ops[i + 1..];
        ok := Perform(ops[i]);
        if !ok || !isOpen {
          return false;
        }
      }
      RunUnfold(Abs(), ops[|ops|..]);
      return true;
    }
  }

  // One round of each loop, so that the methods need not look further into the functions.

  lemma FillUnfold(s: Io)
    requires s.rbuf == []
    ensures s.env.recvs == [] ==> Fill(s) == (Close(s), false)
    ensures s.env.recvs != [] ==>
              match s.env.recvs[0]
              case Received(_) =>
                var m := Delivered(s, MAX_BUFFER);
                Fill(s) == if m == 0 then (Close(Take(PopRecv(s), 0)), false)
                           else (Take(PopRecv(s), m).(bytesSent := 0), true)
              case Interrupted => Fill(s) == Fill(PopRecv(s))
              case NotReady =>
                var (s1, answer) := Poll(PopRecv(s));
                Fill(s) == if answer == Ready then Fill(s1) else (s1, false)
              case Failed => Fill(s) == (Close(PopRecv(s)), false)
  {
    if s.env.recvs != [] {
      assert Take(PopRecv(s), 0) == PopRecv(s);
    }
  }

  lemma PollKeeps(s: Io)
    ensures var r := Poll(s).0; |r.rbuf| <= |s.rbuf| && r.env.recvs == s.env.recvs
  {
  }

  lemma ReadUnfold(s: Io, length: nat)
    ensures length == 0 ==> Read(s, length) == (s, true)
    ensures length > 0 && !s.open ==> Read(s, length) == (s, false)
    ensures length > 0 && s.open ==>
              var (s1, ok) := if s.rbuf == [] then Fill(s) else (s, true);
              if !ok || s1.rbuf == [] then Read(s, length) == (s1, false)
              else var m := Min(length, |s1.rbuf|); Read(s, length) == Read(Consume(s1, m), length - m)
  {
  }

  lemma LineUnfold(s: Io, got: Bytes, size: nat)
    requires |got| <= size
    ensures |got| < size ==>
              var (s1, ok) := NextByte(s);
              ReadLine(s, got, size) ==
              if !ok then (s1, got, ReadFailed) else AfterByte(s1, got + [s1.consumed[|s1.consumed| - 1]], size)
    ensures got != [] ==>
              AfterByte(s, got, size) ==
              if |got| == size then (s, got, TooLong)
              else if got[|got| - 1] == NEWLINE then (s, got, Complete)
              else ReadLine(s, got, size)
  {
  }

  lemma SlicesOf(a: array<Byte>, ptr: nat, m: nat, left: nat)
    requires m <= left && ptr + left <= a.Length
    ensures a[ptr..ptr + left][..m] == a[ptr..ptr + m]
    ensures a[ptr..ptr + left][m..] == a[ptr + m..ptr + m + (left - m)]
  {
  }

  lemma Appended(kept: Bytes, got: Bytes, chunk: Bytes)
    ensures kept + got + chunk == kept + (got + chunk)
  {
  }

  lemma PrefixKept(out: array<Byte>, kept: Bytes, got: Bytes)
    requires |kept| + |got| <= out.Length && out[..|kept| + |got|] == kept + got
    ensures out[..|kept|] == kept && out[|kept|..|kept| + |got|] == got
  {
    var whole := out[..|kept| + |got|];
    assert out[..|kept|] == whole[..|kept|] && out[|kept|..|kept| + |got|] == whole[|kept|..];
  }

  lemma ConsumeAppends(s: Io, m: nat)
    requires m <= |s.rbuf|
    ensures Consume(s, m).consumed == s.consumed + s.rbuf[..m] && Consume(s, m).open == s.open
  {
  }

  lemma RepliesUnfold(s: Io, n: nat)
    ensures n == 0 ==> ReadReplies(s, n) == (s, true)
    ensures n > 0 ==> var (s1, ok1) := ReadReply(s);
                      var (s2, ok2) := ReadReplies(s1, n - 1);
                      ReadReplies(s, n) == (s2, ok1 && ok2)
  {
  }

  lemma PurgeUnfold(s: Io)
    ensures !Due(s) ==> Purge(s) == (s, true)
    ensures Due(s) ==>
              var (s1, flushed) := SendLoop(s.(purging := true), s.wbuf);
              if !flushed then Purge(s) == (Close(s1).(purging := false), false)
              else if s1.pending <= 1 then Purge(s) == (s1.(purging := false), true)
              else var (s2, ok) := ReadReplies(s1.(timeout := 50), s1.pending - 1);
                   Purge(s) == (s2.(purging := false, timeout := s.timeout), ok)
  {
  }

  lemma FlushInPurge(s: Io)
    requires s.purging
    ensures Flush(s) == SendLoop(s, s.wbuf)
  {
  }

  lemma WriteUnfold(s: Io, data: Bytes, withFlush: bool)
    requires |s.wbuf| <= MAX_BUFFER
    ensures data == [] ==> Write(s, data, withFlush) == if withFlush then Flush(s) else (s, true)
    ensures data != [] ==>
              var take := Min(MAX_BUFFER - |s.wbuf|, |data|);
              var s1 := s.(wbuf := s.wbuf + data[..take]);
              if |s1.wbuf| < MAX_BUFFER then Write(s, data, withFlush) == Write(s1, data[take..], withFlush)
              else var (s2, ok) := Flush(s1);
                   Write(s, data, withFlush) == if ok then Write(s2, data[take..], withFlush) else (s2, false)
  {
  }

  lemma RunUnfold(s: Io, ops: seq<Op>)
    requires |s.wbuf| <= MAX_BUFFER
    ensures ops == [] ==> Run(s, ops) == (s, true)
    ensures ops != [] ==>
              var (s1, ok) := Do(s, ops[0]);
              Run(s, ops) == if ok && s1.open && |s1.wbuf| <= MAX_BUFFER then Run(s1, ops[1..]) else (s1, false)
  {
  }

  lemma WritevUnfold(s: Io, vector: seq<Bytes>, withFlush: bool)
    requires |s.wbuf| <= MAX_BUFFER
    ensures vector == [] ==> Writev(s, vector, withFlush) == if withFlush then Write(s, [], true) else (s, true)
    ensures vector != [] ==>
              var (s1, ok) := Write(s, vector[0], false);
              Writev(s, vector, withFlush) == if ok then Writev(s1, vector[1..], withFlush) else (s1, false)
  {
  }
}
