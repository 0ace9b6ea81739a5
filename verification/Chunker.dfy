/** The keymaster's response chunker: send_response cuts a response into messages
    that fit the client's buffer and marks the last one. */
module Chunker {
  import opened Trusty
  import opened CallLog

  type byte = bv8
  newtype uint32 = x: int | 0 <= x < 0x1_0000_0000

  /** The 32-bit command word, taken apart: KEYMASTER_RESP_BIT is its bit 0,
      KEYMASTER_STOP_BIT its bit 1, and the command lies above them. */
  datatype Word = Word(op: nat, stop: bool, resp: bool)

  function DecodeWord(n: nat): Word {
    Word(n / 4, n / 2 % 2 == 1, n % 2 == 1)
  }

  function EncodeWord(w: Word): nat {
    w.op * 4 + (if w.stop then 2 else 0) + (if w.resp then 1 else 0)
  }

  /** No information is lost; and setting a flag, as the bitwise or does, adds its
      bit to the word if it is not there yet, and nothing else. */
  lemma WordsAreNumbers(n: nat, w: Word)
    ensures EncodeWord(DecodeWord(n)) == n && DecodeWord(EncodeWord(w)) == w
    ensures EncodeWord(w.(resp := true)) == EncodeWord(w) + if w.resp then 0 else 1
    ensures EncodeWord(w.(stop := true)) == EncodeWord(w) + if w.stop then 0 else 2
  {
    assert n == n / 2 * 2 + n % 2 && n / 2 == n / 4 * 2 + n / 2 % 2;
  }

  const MAX_BUFFER_LENGTH: nat := 4096
  /** sizeof(struct keymaster_message) */
  const HEADER_SIZE: nat := 4
  const MAX_MSG_SIZE: nat := MAX_BUFFER_LENGTH - 64

  datatype Message = Message(cmd: Word, payload: seq<byte>)

  predicate HasStop(m: Message) { m.cmd.stop }

  // ---- what is to be sent ----

  /** The messages for a response, in order. */
  function Chunks(cmd: Word, data: seq<byte>): (ms: seq<Message>)
    ensures |ms| > 0
    decreases |data|
  {
    if |data| <= MAX_MSG_SIZE then [Message(cmd.(resp := true, stop := true), data)]
    else [Message(cmd.(resp := true), data[..MAX_MSG_SIZE])] + Chunks(cmd, data[MAX_MSG_SIZE..])
  }

  function Payloads(ms: seq<Message>): seq<byte> {
    if ms == [] then [] else ms[0].payload + Payloads(ms[1..])
  }

  /** A receiver that takes messages until one carries STOP; None while it still waits. */
  function Receive(ms: seq<Message>): Option<seq<byte>> {
    if ms == [] then None
    else if HasStop(ms[0]) then Some(ms[0].payload)
    else
      match Receive(ms[1..])
      case None => None
      case Some(rest) => Some(ms[0].payload + rest)
  }

  /** The payloads put together are the response. */
  lemma {:induction false} ChunksCarryAll(cmd: Word, data: seq<byte>)
    ensures Payloads(Chunks(cmd, data)) == data
    decreases |data|
  {
    var ms := Chunks(cmd, data);
    if |data| <= MAX_MSG_SIZE {
      assert ms[1..] == [] && Payloads(ms) == data + Payloads([]);
    } else {
      ChunksCarryAll(cmd, data[MAX_MSG_SIZE..]);
      assert ms[1..] == Chunks(cmd, data[MAX_MSG_SIZE..]);
    }
  }

  /** There are max(1, ceil(size / 4032)) messages. */
  lemma {:induction false} ChunksCount(cmd: Word, data: seq<byte>)
    ensures |Chunks(cmd, data)| == Max(1, (|data| + 4032 - 1) / 4032)
    decreases |data|
  {
    if |data| <= MAX_MSG_SIZE {
    } else {
      ChunksCount(cmd, data[MAX_MSG_SIZE..]);
      var n := |data| + MAX_MSG_SIZE - 1;
      assert n / MAX_MSG_SIZE == (n - MAX_MSG_SIZE) / MAX_MSG_SIZE + 1;
    }
  }

  /** Every message fits in 4096 bytes and is full unless it is the last one; the
      last one, and no other, is given the STOP bit. */
  lemma {:induction false} ChunksShape(cmd: Word, data: seq<byte>, k: nat)
    requires k < |Chunks(cmd, data)|
    ensures var m := Chunks(cmd, data)[k]; var last := k == |Chunks(cmd, data)| - 1;
      && 4 + |m.payload| <= 4096
      && (!last ==> |m.payload| == 4032) && (last ==> |m.payload| <= 4032)
      && m.cmd == if last then cmd.(resp := true, stop := true) else cmd.(resp := true)
    decreases |data|
  {
    if |data| <= MAX_MSG_SIZE || k == 0 {
    } else {
      ChunksShape(cmd, data[MAX_MSG_SIZE..], k - 1);
    }
  }

  /** Every message answers cmd and carries RESP. */
  lemma ChunksAnswer(cmd: Word, data: seq<byte>, k: nat)
    requires k < |Chunks(cmd, data)|
    ensures Chunks(cmd, data)[k].cmd.resp
    ensures Chunks(cmd, data)[k].cmd.op == cmd.op
  {
    ChunksShape(cmd, data, k);
  }

  /** The command does not have STOP itself, or the response is a single message. */
  predicate StopsAtEnd(cmd: Word, data: seq<byte>) {
    !cmd.stop || |data| <= 4032
  }

  /** STOP is on the last message, and on no other exactly when the command does
      not have that bit itself or there is only one message. */
  lemma StopOnlyOnLast(cmd: Word, data: seq<byte>)
    ensures HasStop(Chunks(cmd, data)[|Chunks(cmd, data)| - 1])
    ensures (forall k :: 0 <= k < |Chunks(cmd, data)| - 1 ==> !HasStop(Chunks(cmd, data)[k])) <==>
      StopsAtEnd(cmd, data)
  {
    var n := |Chunks(cmd, data)| - 1;
    forall k | 0 <= k < n
      ensures HasStop(Chunks(cmd, data)[k]) <==> cmd.stop
    {
      ChunksShape(cmd, data, k);
    }
    ChunksShape(cmd, data, n);
    if |data| > MAX_MSG_SIZE {
      assert n >= 1 && (HasStop(Chunks(cmd, data)[0]) <==> cmd.stop);
    }
  }

  lemma {:induction false} ReceiverGetsAll(cmd: Word, data: seq<byte>, later: seq<Message>)
    requires StopsAtEnd(cmd, data)
    ensures Receive(Chunks(cmd, data) + later) == Some(data)
    decreases |data|
  {
    var ms := Chunks(cmd, data) + later;
    if |data| <= MAX_MSG_SIZE {
    } else {
      assert ms[1..] == Chunks(cmd, data[MAX_MSG_SIZE..]) + later;
      ReceiverGetsAll(cmd, data[MAX_MSG_SIZE..], later);
      assert ms[0].payload + data[MAX_MSG_SIZE..] == data;
    }
  }

  /** A receiver gets exactly the response, and no later message changes that, if
      and only if STOP comes at the end only. */
  lemma ReceiverGetsResponse(cmd: Word, data: seq<byte>, later: seq<Message>)
    ensures Receive(Chunks(cmd, data) + later) == Some(data) <==> StopsAtEnd(cmd, data)
  {
    if StopsAtEnd(cmd, data) {
      ReceiverGetsAll(cmd, data, later);
    } else {
      var ms := Chunks(cmd, data) + later;
      assert HasStop(ms[0]) && |ms[0].payload| < |data|;
    }
  }

  lemma {:induction false} NoStopNoResult(ms: seq<Message>)
    requires forall k :: 0 <= k < |ms| ==> !HasStop(ms[k])
    ensures Receive(ms) == None
  {
    if ms == [] {
    } else {
      NoStopNoResult(ms[1..]);
    }
  }

  // ---- sending, call by call ----

  /** The log is exactly what sending these messages in order does, given the
      kernel's answers, and rc is its result: an exchange for each, up to the first
      that fails. */
  predicate Sends(ms: seq<Message>, log: seq<Call<Message>>, rc: int) {
    if ms == [] then log == [] && rc == NO_ERROR
    else
      match Exchange(ms[0], log)
      case None => false
      case Some((n, r)) =>
        n <= |log| && (if r < 0 then n == |log| && rc == r else Sends(ms[1..], log[n..], rc))
  }

  /** Messages sent one batch after the other. */
  lemma {:induction false} SendsAppend(ms: seq<Message>, xs: seq<Call<Message>>, ns: seq<Message>,
                                       ys: seq<Call<Message>>, rc: int)
    requires Sends(ms, xs, NO_ERROR) && Sends(ns, ys, rc)
    ensures Sends(ms + ns, xs + ys, rc)
  {
    if ms == [] {
      assert ms + ns == ns && xs + ys == ys;
    } else {
      var n := Exchange(ms[0], xs).value.0;
      ExchangePrefix(ms[0], xs, ys);
      assert (ms + ns)[1..] == ms[1..] + ns && (xs + ys)[n..] == xs[n..] + ys;
      SendsAppend(ms[1..], xs[n..], ns, ys, rc);
    }
  }

  lemma {:induction false} SendsCode(ms: seq<Message>, log: seq<Call<Message>>, rc: int)
    requires Sends(ms, log, rc)
    ensures rc <= NO_ERROR
  {
    if ms == [] {
    } else {
      var (n, r) := Exchange(ms[0], log).value;
      if r >= 0 {
        SendsCode(ms[1..], log[n..], rc);
      }
    }
  }

  /** In the log of a response, each first send that finds no room is followed at
      once by a wait, each wait that reports SEND_UNBLOCKED by a send of the same
      message, and the result is the one failure there is, at the end, if there is
      one: of a send, of a wait, ERR_BUSY or ERR_CHANNEL_CLOSED. */
  lemma {:induction false} SendsRetry(ms: seq<Message>, log: seq<Call<Message>>, rc: int)
    requires Sends(ms, log, rc)
    ensures WellRetried(log) && (log != [] ==> log[0].SendMsg?)
    ensures rc == if log == [] then NO_ERROR else FailureAt(log, |log| - 1)
  {
    if ms == [] {
    } else {
      var (n, r) := Exchange(ms[0], log).value;
      var head, tail := log[..n], log[n..];
      ExchangeCut(ms[0], log, n);
      ExchangeRetries(ms[0], head);
      assert log == head + tail;
      if r < 0 {
        assert log == head;
      } else {
        SendsRetry(ms[1..], tail, rc);
        if tail == [] {
          assert log == head;
        } else {
          RetriesJoin(head, tail);
        }
      }
    }
  }

  /** The first exchange of the log and the rest of it. */
  lemma FirstExchange(m: Message, log: seq<Call<Message>>, n: nat)
    requires Exchange(m, log).Some? && n == Exchange(m, log).value.0 <= |log|
    ensures var rest := log[n..]; var first := Exchange(m, log).value.1 >= 0 && !AnySilent(log[..n]);
      && Sent(log) == (if first then [m] else []) + Sent(rest)
      && (AnySilent(log) <==> AnySilent(log[..n]) || AnySilent(rest))
      && (AnySilent(log[..n]) ==> Exchange(m, log).value.1 >= 0)
  {
    assert log == log[..n] + log[n..];
    ExchangeCut(m, log, n);
    ExchangeSends(m, log[..n]);
    SentAppend(log[..n], log[n..]);
    SilentAppend(log[..n], log[n..]);
  }

  /** A response reported as sent: the receiver gets at most as many bytes, and all
      of them exactly when no wait was silent. */
  lemma {:induction false} SuccessfulSend(cmd: Word, data: seq<byte>, log: seq<Call<Message>>)
    requires StopsAtEnd(cmd, data) && Sends(Chunks(cmd, data), log, NO_ERROR)
    ensures var r := Receive(Sent(log));
      && (!AnySilent(log) ==> r == Some(data))
      && (AnySilent(log) ==> r == None || |r.value| < |data|)
    decreases |data|
  {
    var ms := Chunks(cmd, data);
    var (n, r) := Exchange(ms[0], log).value;
    FirstExchange(ms[0], log, n);
    if |data| <= MAX_MSG_SIZE {
      assert Sends([], log[n..], NO_ERROR) && Sent(log[n..]) == [];
      assert Sent(log) == if AnySilent(log) then [] else [ms[0]];
    } else {
      var rest := data[MAX_MSG_SIZE..];
      assert ms[1..] == Chunks(cmd, rest);
      SuccessfulSend(cmd, rest, log[n..]);
      assert data == ms[0].payload + rest;
      if !AnySilent(log[..n]) {
        assert Sent(log)[1..] == Sent(log[n..]);
      } else {
        assert Sent(log) == Sent(log[n..]);
      }
    }
  }

  /** A response reported as failed: whatever was sent of it, the receiver does not
      take for complete; and it is a strict prefix if no wait was silent. */
  lemma {:induction false} FailedSend(cmd: Word, data: seq<byte>, log: seq<Call<Message>>, rc: int) returns (k: nat)
    requires StopsAtEnd(cmd, data) && Sends(Chunks(cmd, data), log, rc) && rc < 0
    ensures Receive(Sent(log)) == None
    ensures forall m :: m in Sent(log) ==> !HasStop(m)
    ensures k < |Chunks(cmd, data)| && (!AnySilent(log) ==> Sent(log) == Chunks(cmd, data)[..k])
    decreases |data|
  {
    var ms := Chunks(cmd, data);
    var (n, r) := Exchange(ms[0], log).value;
    FirstExchange(ms[0], log, n);
    if r < 0 {
      k := 0;
      assert Sent(log[n..]) == [];
    } else {
      var rest := data[MAX_MSG_SIZE..];
      assert ms[1..] == Chunks(cmd, rest);
      var j := FailedSend(cmd, rest, log[n..], rc);
      k := j + 1;
      assert ms[..k] == [ms[0]] + ms[1..][..j];
      if !AnySilent(log[..n]) {
        assert Sent(log)[1..] == Sent(log[n..]);
      } else {
        assert Sent(log) == Sent(log[n..]);
      }
    }
  }

  /** If the command has STOP itself, a receiver takes the first message it gets
      for the whole response. */
  lemma {:induction false} FirstMessageStops(cmd: Word, data: seq<byte>, log: seq<Call<Message>>, rc: int)
    requires cmd.stop && Sends(Chunks(cmd, data), log, rc)
    ensures Sent(log) != [] ==> HasStop(Sent(log)[0]) && |Sent(log)[0].payload| <= MAX_MSG_SIZE
    decreases |data|
  {
    var ms := Chunks(cmd, data);
    var (n, r) := Exchange(ms[0], log).value;
    FirstExchange(ms[0], log, n);
    if r < 0 || |data| <= MAX_MSG_SIZE {
      assert Sent(log[n..]) == [];
    } else {
      assert ms[1..] == Chunks(cmd, data[MAX_MSG_SIZE..]);
      FirstMessageStops(cmd, data[MAX_MSG_SIZE..], log[n..], rc);
    }
  }

  /** send_response reports success for a response that the receiver gets exactly
      when STOP comes at the end only and no `wait` on the way was silent: when each
      that succeeded reported SEND_UNBLOCKED, MSG or HUP. */
  lemma ReceivedExactlyWhenNoSilentWait(cmd: Word, data: seq<byte>, log: seq<Call<Message>>)
    requires Sends(Chunks(cmd, data), log, NO_ERROR)
    ensures Receive(Sent(log)) == Some(data) <==> StopsAtEnd(cmd, data) && !AnySilent(log)
  {
    if StopsAtEnd(cmd, data) {
      SuccessfulSend(cmd, data, log);
    } else {
      FirstMessageStops(cmd, data, log, NO_ERROR);
    }
  }

  /** A response reported as failed is never received. */
  lemma FailedNotReceived(cmd: Word, data: seq<byte>, log: seq<Call<Message>>, rc: int)
    requires Sends(Chunks(cmd, data), log, rc) && rc < 0
    ensures Receive(Sent(log)) != Some(data)
    ensures StopsAtEnd(cmd, data) ==> Receive(Sent(log)) == None
  {
    if StopsAtEnd(cmd, data) {
      var k := FailedSend(cmd, data, log, rc);
    } else {
      FirstMessageStops(cmd, data, log, rc);
    }
  }

  /** Without silent waits a response reported as sent went out whole and in order. */
  lemma {:induction false} AllSentInOrder(ms: seq<Message>, log: seq<Call<Message>>)
    requires Sends(ms, log, NO_ERROR) && !AnySilent(log)
    ensures Sent(log) == ms
  {
    if ms == [] {
    } else {
      var n := Exchange(ms[0], log).value.0;
      FirstExchange(ms[0], log, n);
      AllSentInOrder(ms[1..], log[n..]);
    }
  }

  // ---- send_response ----

  /** The n-th message, given that the rest of the messages carry the data from `from` on. */
  lemma NthChunk(cmd: Word, data: seq<byte>, all: seq<Message>, n: nat, from: nat, size: nat)
    requires n < |all| && from <= |data| && all[n..] == Chunks(cmd, data[from..])
    requires size == Min(MAX_MSG_SIZE, |data| - from)
    ensures var last := from + size == |data|;
      && all[n].cmd == (if last then cmd.(resp := true, stop := true) else cmd.(resp := true))
      && all[n].payload == data[from..from + size]
      && (last <==> n + 1 == |all|)
      && (!last ==> all[n + 1..] == Chunks(cmd, data[from + size..]))
  {
    var rest := data[from..];
    assert all[n] == all[n..][0] && |all[n..]| == |all| - n;
    if |rest| > MAX_MSG_SIZE {
      assert all[n + 1..] == all[n..][1..];
      assert rest[size..] == data[from + size..] && rest[..size] == data[from..from + size];
    } else {
      assert rest == data[from..from + size];
    }
  }

  /** The server's end of a channel, with the calls made on it. */
  class Channel {
    ghost var log: seq<Call<Message>>

    constructor ()
      ensures log == []
    {
      log := [];
    }

    /** send_msg with the header and n bytes of buf: an error, or they are on their way. */
    method SendMsg(cmd: Word, buf: array<byte>, start: uint32, n: uint32) returns (rc: int)
      requires start as int + n as int <= buf.Length
      modifies this
      ensures log == old(log) + [Call.SendMsg(Message(cmd, buf[start..start as int + n as int]), rc)]
    {
      rc := *;
      if rc >= 0 {
        rc := HEADER_SIZE + n as int;
      }
      log := log + [Call.SendMsg(Message(cmd, buf[start..start as int + n as int]), rc)];
    }

    /** wait: an error, or any event. */
    method Wait() returns (rc: int, ev: Event)
      modifies this
      ensures rc <= NO_ERROR && log == old(log) + [Call.Wait(rc, ev)]
    {
      rc :| rc <= NO_ERROR;
      ev := *;
      log := log + [Call.Wait(rc, ev)];
    }

    /** wait_to_send: send again on SEND_UNBLOCKED, ERR_BUSY on MSG,
        ERR_CHANNEL_CLOSED on HUP, and the code of `wait` otherwise. */
    method WaitToSend(cmd: Word, buf: array<byte>, start: uint32, n: uint32)
      returns (rc: int, ghost calls: seq<Call<Message>>)
      requires start as int + n as int <= buf.Length
      modifies this
      ensures log == old(log) + calls
      ensures Retry(Message(cmd, buf[start..start as int + n as int]), calls) == Some((|calls|, rc))
    {
      var ev;
      rc, ev := Wait();
      calls := [Call.Wait(rc, ev)];
      if rc < 0 {
        return;
      }
      if ev.sendUnblocked {
        rc := SendMsg(cmd, buf, start, n);
        calls := calls + [Call.SendMsg(Message(cmd, buf[start..start as int + n as int]), rc)];
        return;
      }
      if ev.msg {
        return ERR_BUSY, calls;
      }
      if ev.hup {
        return ERR_CHANNEL_CLOSED, calls;
      }
    }

    /** One message of the response, with the retry. */
    method SendOne(cmd: Word, buf: array<byte>, start: uint32, n: uint32)
      returns (rc: int, ghost calls: seq<Call<Message>>)
      requires start as int + n as int <= buf.Length
      modifies this
      ensures log == old(log) + calls
      ensures Exchange(Message(cmd, buf[start..start as int + n as int]), calls) == Some((|calls|, rc))
    {
      rc := SendMsg(cmd, buf, start, n);
      ghost var first := Call.SendMsg(Message(cmd, buf[start..start as int + n as int]), rc);
      calls := [first];
      if rc == ERR_NOT_ENOUGH_BUFFER {
        rc, calls := WaitToSend(cmd, buf, start, n);
        calls := [first] + calls;
        assert calls[1..] == calls[1..|calls|];
      }
    }

    /** The loop of send_response: it sends the chunks of the response, call by
        call. All arithmetic is on 32-bit unsigned numbers. */
    method SendChunks(cmd: Word, outBuf: array<byte>, outBufSize: uint32)
      returns (rc: int, ghost calls: seq<Call<Message>>)
      requires outBufSize as int <= outBuf.Length
      modifies this
      ensures log == old(log) + calls
      ensures Sends(Chunks(cmd, outBuf[..outBufSize]), calls, rc)
    {
      ghost var data := outBuf[..outBufSize];
      ghost var all := Chunks(cmd, data);
      ghost var n := 0;
      calls := [];
      var kmCmd := cmd.(resp := true);
      var bytesRemaining: uint32 := outBufSize;
      var bytesSent: uint32 := 0;
      var maxMsgSize: uint32 := MAX_MSG_SIZE as uint32;
      assert data[0..] == data && all[0..] == all && all[..0] == [];
      while true
        invariant bytesSent as int + bytesRemaining as int == outBufSize as int
        invariant kmCmd == cmd.(resp := true)
        invariant n < |all| && all[n..] == Chunks(cmd, data[bytesSent..])
        invariant log == old(log) + calls
        invariant Sends(all[..n], calls, NO_ERROR)
        decreases bytesRemaining
      {
        var msgSize := if maxMsgSize < bytesRemaining then maxMsgSize else bytesRemaining;
        NthChunk(cmd, data, all, n, bytesSent as int, msgSize as int);
        if msgSize == bytesRemaining {
          kmCmd := kmCmd.(stop := true);
        }
        ghost var end := bytesSent as int + msgSize as int;
        assert data[bytesSent..end] == outBuf[bytesSent..end];
        ghost var these;
        rc, these := SendOne(kmCmd, outBuf, bytesSent, msgSize);
        NextExchange(all, n, calls, these, rc);
        Associative(old(log), calls, these);
        calls := calls + these;
        if rc < 0 {
          return;
        }
        n := n + 1;
        bytesRemaining := bytesRemaining - msgSize;
        bytesSent := bytesSent + msgSize;
        if bytesRemaining == 0 {
          break;
        }
      }
      rc := NO_ERROR;
      assert all[..n] == all;
    }

    /** send_response. A response reported as sent reaches the receiver exactly when
        STOP comes at the end only and no wait was silent; one reported as failed
        never reaches it, nor looks complete unless STOP came early. */
    method SendResponse(cmd: Word, outBuf: array<byte>, outBufSize: uint32)
      returns (rc: int, ghost calls: seq<Call<Message>>)
      requires outBufSize as int <= outBuf.Length
      modifies this
      ensures log == old(log) + calls
      ensures Sends(Chunks(cmd, outBuf[..outBufSize]), calls, rc) && rc <= NO_ERROR
      ensures rc == NO_ERROR ==>
        (Receive(Sent(calls)) == Some(outBuf[..outBufSize]) <==>
          StopsAtEnd(cmd, outBuf[..outBufSize]) && !AnySilent(calls))
      ensures rc < 0 ==> Receive(Sent(calls)) != Some(outBuf[..outBufSize])
      ensures rc < 0 && StopsAtEnd(cmd, outBuf[..outBufSize]) ==> Receive(Sent(calls)) == None
      ensures calls != [] && WellRetried(calls) && rc == FailureAt(calls, |calls| - 1)
    {
      rc, calls := SendChunks(cmd, outBuf, outBufSize);
      ResponseOutcome(cmd, outBuf[..outBufSize], calls, rc);
    }
  }

  /** After n messages, one more exchange: the end if it failed. */
  lemma NextExchange(all: seq<Message>, n: nat, calls: seq<Call<Message>>, these: seq<Call<Message>>, rc: int)
    requires n < |all| && Sends(all[..n], calls, NO_ERROR)
    requires Exchange(all[n], these) == Some((|these|, rc))
    ensures if rc < 0 then Sends(all, calls + these, rc) else Sends(all[..n + 1], calls + these, NO_ERROR)
  {
    assert these[|these|..] == [];
    if rc < 0 {
      assert all == all[..n] + all[n..];
      SendsAppend(all[..n], calls, all[n..], these, rc);
    } else {
      assert [all[n]][1..] == [] && all[..n + 1] == all[..n] + [all[n]];
      SendsAppend(all[..n], calls, [all[n]], these, NO_ERROR);
    }
  }

  lemma ResponseOutcome(cmd: Word, data: seq<byte>, calls: seq<Call<Message>>, rc: int)
    requires Sends(Chunks(cmd, data), calls, rc)
    ensures rc <= NO_ERROR
    ensures rc == NO_ERROR ==> (Receive(Sent(calls)) == Some(data) <==> StopsAtEnd(cmd, data) && !AnySilent(calls))
    ensures rc < 0 ==> Receive(Sent(calls)) != Some(data)
    ensures rc < 0 && StopsAtEnd(cmd, data) ==> Receive(Sent(calls)) == None
    ensures calls != [] && WellRetried(calls) && rc == FailureAt(calls, |calls| - 1)
  {
    SendsRetry(Chunks(cmd, data), calls, rc);
    SendsCode(Chunks(cmd, data), calls, rc);
    if rc < 0 {
      FailedNotReceived(cmd, data, calls, rc);
    } else {
      ReceivedExactlyWhenNoSilentWait(cmd, data, calls);
    }
  }
}
