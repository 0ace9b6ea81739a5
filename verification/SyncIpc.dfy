/** sync_ipc_send_msg: send a request on a session and wait for the response. */
module SyncIpc {
  import opened Trusty
  import opened CallLog
  import FlatSpec
  import opened Syscalls

  /** Messages are the lengths of their buffers. */
  type Lengths = seq<nat>

  // ---- what the function does, call by call ----

  /** The log is exactly what sync_ipc_send_msg does for a request tx and receive
      buffers rx (empty if the caller passes none), given the kernel's answers, and
      rc is its result. */
  predicate Conforms(tx: Lengths, rx: Lengths, log: seq<Call<Lengths>>, rc: int) {
    match Exchange(tx, log)
    case None => false
    case Some((n, r)) =>
      n <= |log| &&
      if r < 0 then n == |log| && rc == r
      else if rx == [] then n == |log| && rc == NO_ERROR
      else Awaits(rx, log[n..], rc)
  }

  /** The part after the request is sent: wait, get_msg, and what the announced length demands. */
  predicate Awaits(rx: Lengths, log: seq<Call<Lengths>>, rc: int)
    requires rx != []
  {
    && log != [] && log[0].Wait?
    && if log[0].rc != NO_ERROR then |log| == 1 && rc == log[0].rc < NO_ERROR
       else
         && |log| > 1 && log[1].GetMsg?
         && if log[1].rc != NO_ERROR then |log| == 2 && rc == log[1].rc < NO_ERROR
            else Takes(log[1].id, log[1].len, rx, log[2..], rc)
  }

  predicate LengthRefused(len: nat, rx: Lengths)
    requires rx != []
  {
    len < rx[0] || Sum(rx) % TWO_64 < len
  }

  /** What read_msg may answer for a message of len bytes: an error code, which is
      an `int`, or a count of at most len. */
  predicate CanAnswer(len: nat, n: int) {
    -INT_MAX - 1 <= n <= len
  }

  /** The result when read_msg answers n. read_response returns n as an `int`. */
  function ReadRc(len: nat, n: int): int {
    if AsInt32(n) < 0 then AsInt32(n)
    else if AsInt32(n) != len then ERR_IO
    else len
  }

  /** A message whose length is refused is retired; any other is read, and retired
      twice. The answer of read_msg decides about the result. */
  predicate Takes(id: nat, len: nat, rx: Lengths, log: seq<Call<Lengths>>, rc: int)
    requires rx != []
  {
    if LengthRefused(len, rx) then
      && |log| == 1 && log[0].PutMsg? && log[0].id == id
      && rc == if len < rx[0] then ERR_NOT_VALID else ERR_BAD_LEN
    else
      && |log| == 3 && log[0].ReadMsg? && log[0].id == id && log[0].lens == rx
      && log[1].PutMsg? && log[1].id == id && log[2].PutMsg? && log[2].id == id
      && CanAnswer(len, log[0].rc) && rc == ReadRc(len, log[0].rc)
  }

  /** wait_to_send returned without having sent, and without an error. */
  predicate GaveUp(tx: Lengths, log: seq<Call<Lengths>>) {
    Exchange(tx, log).Some? && Exchange(tx, log).value.0 <= |log| && AnySilent(log[..Exchange(tx, log).value.0])
  }

  lemma TailSendsNothing(rx: Lengths, log: seq<Call<Lengths>>, rc: int)
    requires rx != [] && Awaits(rx, log, rc)
    ensures Sent(log) == []
  {
    forall k | 0 <= k < |log|
      ensures !log[k].SendMsg?
    {
      if k >= 2 {
        assert log[k] == log[2..][k - 2];
      }
    }
    NothingSent(log);
  }

  /** Unless it fails, the request is sent, once, exactly when wait_to_send did not
      give up on it silently. */
  lemma RequestSent(tx: Lengths, rx: Lengths, log: seq<Call<Lengths>>, rc: int)
    requires Conforms(tx, rx, log, rc) && rc >= 0
    ensures Sent(log) == if GaveUp(tx, log) then [] else [tx]
  {
    var n := Exchange(tx, log).value.0;
    assert log == log[..n] + log[n..];
    ExchangeCut(tx, log, n);
    ExchangeSends(tx, log[..n]);
    SentAppend(log[..n], log[n..]);
    if rx != [] {
      TailSendsNothing(rx, log[n..], rc);
    }
  }

  lemma ExchangeTakesNoMessage(tx: Lengths, log: seq<Call<Lengths>>)
    requires Exchange(tx, log).Some? && Exchange(tx, log).value.0 == |log|
    ensures Announced(log) == [] && Retired(log) == []
  {
    forall k | 0 <= k < |log|
      ensures !log[k].GetMsg? && !log[k].PutMsg?
    {
      if k >= 1 {
        assert log[k] == log[1..][k - 1];
      }
    }
    NothingTaken(log);
  }

  lemma TakesRetires(id: nat, len: nat, rx: Lengths, log: seq<Call<Lengths>>, rc: int)
    requires rx != [] && Takes(id, len, rx, log, rc)
    ensures Announced(log) == [] && Retired(log) == if LengthRefused(len, rx) then [id] else [id, id]
  {
    LogStep(log);
    if |log| == 3 {
      LogStep(log[1..]);
      LogStep(log[1..][1..]);
    }
  }

  lemma TailRetires(rx: Lengths, log: seq<Call<Lengths>>, rc: int)
    requires rx != [] && Awaits(rx, log, rc)
    ensures if |log| > 1 && log[1].rc == NO_ERROR
            then Announced(log) == [log[1].id]
                 && Retired(log) == if LengthRefused(log[1].len, rx) then [log[1].id] else [log[1].id, log[1].id]
            else Announced(log) == [] && Retired(log) == []
  {
    LogStep(log);
    if |log| > 1 {
      LogStep(log[1..]);
      assert log[1..][1..] == log[2..] && log[1..][0] == log[1];
      if log[1].rc == NO_ERROR {
        TakesRetires(log[1].id, log[1].len, rx, log[2..], rc);
      }
    }
  }

  /** Only what follows the exchange of the request takes messages. */
  lemma TailTakes(tx: Lengths, log: seq<Call<Lengths>>, n: nat)
    requires Exchange(tx, log).Some? && n == Exchange(tx, log).value.0 <= |log|
    ensures Announced(log) == Announced(log[n..]) && Retired(log) == Retired(log[n..])
  {
    ExchangeCut(tx, log, n);
    ExchangeTakesNoMessage(tx, log[..n]);
    assert log == log[..n] + log[n..];
    LogAppend(log[..n], log[n..]);
  }

  /** The length in the answer of get_msg, which follows the exchange and a wait. */
  function AnnouncedLength(tx: Lengths, log: seq<Call<Lengths>>): nat {
    match Exchange(tx, log)
    case None => 0
    case Some((n, _)) => if n + 1 < |log| && log[n + 1].GetMsg? then log[n + 1].len else 0
  }

  /** On every path at most one message is announced, and an announced one is
      retired, under its own id: once if its length is refused, twice if it is read. */
  lemma AnnouncedIsRetired(tx: Lengths, rx: Lengths, log: seq<Call<Lengths>>, rc: int)
    requires Conforms(tx, rx, log, rc)
    ensures |Announced(log)| <= 1
    ensures Announced(log) == [] ==> Retired(log) == []
    ensures Announced(log) != [] ==> rx != [] && var ids := Announced(log);
      Retired(log) == if LengthRefused(AnnouncedLength(tx, log), rx) then ids else ids + ids
  {
    var n := Exchange(tx, log).value.0;
    TailTakes(tx, log, n);
    if n < |log| {
      TailRetires(rx, log[n..], rc);
      assert n + 1 < |log| ==> log[n..][1] == log[n + 1];
    } else {
      assert log[n..] == [];
    }
  }

  /** The answer of read_msg, which follows get_msg. */
  function ReadAnswer(tx: Lengths, log: seq<Call<Lengths>>): int {
    match Exchange(tx, log)
    case None => 0
    case Some((n, _)) => if n + 2 < |log| && log[n + 2].ReadMsg? then log[n + 2].rc else 0
  }

  /** A result that is not negative means a complete read: it is the answer of
      read_msg, which covers the whole message. */
  lemma ReadIsComplete(len: nat, n: int)
    requires CanAnswer(len, n)
    ensures ReadRc(len, n) >= 0 <==> n == len <= INT_MAX
    ensures ReadRc(len, n) >= 0 ==> ReadRc(len, n) == len == n
  {
  }

  /** ERR_IO means a count that is short, or too large for an `int`, unless
      read_msg itself answers that code. */
  lemma ReadIsShort(len: nat, n: int)
    requires CanAnswer(len, n)
    ensures ReadRc(len, n) == ERR_IO <==>
      AsInt32(n) == ERR_IO || (AsInt32(n) >= 0 && (n < len || len > INT_MAX))
  {
    ReadIsComplete(len, n);
  }

  /** A result that is not negative, when a response is wanted, is the length of the
      one message that was announced, and the count that read_msg answered; it is an
      `int`, and lies between the length of the first buffer and that of all. */
  lemma ResultIsAnnouncedLength(tx: Lengths, rx: Lengths, log: seq<Call<Lengths>>, rc: int)
    requires Conforms(tx, rx, log, rc) && rc >= 0 && rx != []
    ensures |Announced(log)| == 1 && rc == AnnouncedLength(tx, log) == ReadAnswer(tx, log)
    ensures rc <= INT_MAX && rx[0] <= rc <= Sum(rx)
  {
    var n := Exchange(tx, log).value.0;
    var tail := log[n..];
    assert tail[1] == log[n + 1] && tail[2..][0] == log[n + 2];
    ReadIsComplete(tail[1].len, tail[2..][0].rc);
    TailTakes(tx, log, n);
    TailRetires(rx, tail, rc);
  }

  // ---- the result, read off the log ----

  /** The result that the last call of a log stands for. For put_msg it depends on
      the length that get_msg announced, and on the answer of read_msg if the message
      was read. */
  function LogResult(rx: Lengths, log: seq<Call<Lengths>>): int
    requires log != []
  {
    var n := |log| - 1;
    match log[n]
    case PutMsg(_, _) =>
      if n > 0 && log[n - 1].GetMsg? then
        if rx != [] && log[n - 1].len < rx[0] then ERR_NOT_VALID else ERR_BAD_LEN
      else if n > 2 && log[n - 2].ReadMsg? && log[n - 3].GetMsg? then
        var len, count := log[n - 3].len, AsInt32(log[n - 2].rc);
        if count < 0 then count else if count != len then ERR_IO else count
      else NO_ERROR
    case GetMsg(rc, _, _) => rc
    case _ => FailureAt(log, n)
  }

  lemma ResultOfRequest(tx: Lengths, log: seq<Call<Lengths>>)
    requires Exchange(tx, log).Some? && Exchange(tx, log).value.0 == |log|
    ensures log != [] && (log[|log| - 1].SendMsg? || log[|log| - 1].Wait?)
    ensures FailureAt(log, |log| - 1) == if Exchange(tx, log).value.1 < 0 then Exchange(tx, log).value.1 else NO_ERROR
  {
    ExchangeRetries(tx, log);
    if |log| > 1 {
      assert log[1..][0] == log[1];
      if |log| > 2 {
        assert log[1..][1] == log[2];
      }
    }
  }

  lemma ResultOfTail(rx: Lengths, log: seq<Call<Lengths>>, tail: seq<Call<Lengths>>, n: nat, rc: int)
    requires 0 < n < |log| && tail == log[n..] && rx != [] && Awaits(rx, tail, rc)
    ensures rc == LogResult(rx, log)
  {
    assert |log| == n + |tail| && forall k :: 0 <= k < |tail| ==> tail[k] == log[n + k];
    if tail[0].rc == NO_ERROR && tail[1].rc == NO_ERROR {
      assert forall k :: 0 <= k < |tail| - 2 ==> tail[2..][k] == log[n + 2 + k];
    }
  }

  /** The result is what the last call says, whatever the kernel answered. */
  lemma ResultIsLogged(tx: Lengths, rx: Lengths, log: seq<Call<Lengths>>, rc: int)
    requires Conforms(tx, rx, log, rc)
    ensures log != [] && rc == LogResult(rx, log)
  {
    var (n, r) := Exchange(tx, log).value;
    if r < 0 || rx == [] {
      assert log[..n] == log;
      ResultOfRequest(tx, log);
    } else {
      ResultOfTail(rx, log, log[n..], n, rc);
    }
  }

  /** Without receive buffers the result is NO_ERROR or a failure: exactly when the
      last call, a send or the wait of wait_to_send, failed. */
  lemma ResultWithoutBuffers(tx: Lengths, log: seq<Call<Lengths>>, rc: int)
    requires Conforms(tx, [], log, rc)
    ensures log != [] && rc <= NO_ERROR && rc == FailureAt(log, |log| - 1)
    ensures log[|log| - 1].SendMsg? ==> (rc == NO_ERROR <==> log[|log| - 1].rc >= 0)
  {
    var (n, r) := Exchange(tx, log).value;
    assert log[..n] == log;
    ResultOfRequest(tx, log);
    ExchangeRetries(tx, log);
    assert RetriesAt(log, |log| - 1);
  }

  /** The request comes first. Without room for it there is a wait, and when that
      reports SEND_UNBLOCKED the request is sent again. Nothing else is ever sent. */
  lemma RequestRetried(tx: Lengths, rx: Lengths, log: seq<Call<Lengths>>, rc: int)
    requires Conforms(tx, rx, log, rc)
    ensures log != [] && log[0].SendMsg? && log[0].msg == tx
    ensures log[0].rc == ERR_NOT_ENOUGH_BUFFER ==> |log| > 1 && log[1].Wait?
    ensures log[0].rc == ERR_NOT_ENOUGH_BUFFER && log[1].rc >= 0 && log[1].ev.sendUnblocked ==>
      |log| > 2 && log[2].SendMsg? && log[2].msg == tx
    ensures forall k :: 0 < k < |log| && log[k].SendMsg? ==>
      k == 2 && log[0].rc == ERR_NOT_ENOUGH_BUFFER && IsRetry(log, k)
  {
    var n := Exchange(tx, log).value.0;
    if n > 1 {
      assert log[1..][0] == log[1];
      if n > 2 {
        assert log[1..][1] == log[2];
      }
    }
    forall k | n <= k < |log|
      ensures !log[k].SendMsg?
    {
      assert log[k] == log[n..][k - n];
      assert k >= n + 2 ==> log[k] == log[n..][2..][k - n - 2];
    }
  }

  // ---- the session ----

  /** One end of a session: its pending message, and the calls made on it. */
  class Session {
    var msgId: nat
    var msgLen: nat
    ghost var log: seq<Call<Lengths>>

    constructor ()
      ensures log == []
    {
      msgId, msgLen, log := INVALID_IPC_MSG_ID, 0, [];
    }

    /** send_msg: an error, or the request is on its way. The code of a success is
        not negative as long as the lengths add up to less than 2^63, as they do for
        buffers in memory. */
    method SendMsg(lens: Lengths) returns (rc: int)
      requires Sum(lens) < TWO_63
      modifies this`log
      ensures log == old(log) + [Call.SendMsg(lens, rc)]
    {
      rc := *;
      if rc >= 0 {
        rc := AsInt64(Sum(lens));
      }
      log := log + [Call.SendMsg(lens, rc)];
    }

    /** wait: an error, or any event; with MSG there is a new message. */
    method Wait() returns (rc: int, ev: Event)
      modifies this
      ensures rc <= NO_ERROR && log == old(log) + [Call.Wait(rc, ev)]
      ensures rc < NO_ERROR || !ev.msg ==> msgId == old(msgId) && msgLen == old(msgLen)
      ensures rc == NO_ERROR && ev.msg ==> msgId != INVALID_IPC_MSG_ID
    {
      rc :| rc <= NO_ERROR;
      ev := *;
      if rc == NO_ERROR && ev.msg {
        var id: nat, len: nat :| id > INVALID_IPC_MSG_ID;
        msgId, msgLen := id, len;
      }
      log := log + [Call.Wait(rc, ev)];
    }

    method GetMsg() returns (rc: int, id: nat, len: nat)
      modifies this`log
      ensures rc <= NO_ERROR && log == old(log) + [Call.GetMsg(rc, id, len)]
      ensures id == msgId && len == msgLen
      ensures rc == NO_ERROR ==> id != INVALID_IPC_MSG_ID
    {
      id, len := msgId, msgLen;
      rc := *;
      rc := if rc < NO_ERROR then rc else if id != INVALID_IPC_MSG_ID then NO_ERROR else ERR_GENERIC;
      log := log + [Call.GetMsg(rc, id, len)];
    }

    /** read_msg at offset 0 fills the buffers in order, any number of them, as far
        as the message goes. It may also fail, or stop earlier. */
    method ReadMsg(id: nat, lens: Lengths) returns (rc: int)
      modifies this`log
      ensures log == old(log) + [Call.ReadMsg(id, lens, rc)]
      ensures CanAnswer(Min(msgLen, Sum(lens)), rc) && (msgId != id ==> rc < 0)
    {
      if msgId != id {
        rc :| -INT_MAX - 1 <= rc < 0;
      } else {
        var rest, count, i := msgLen, 0, 0;
        assert lens[0..] == lens;
        while i < |lens|
          invariant 0 <= i <= |lens| && rest >= 0 && count >= 0 && count + rest == msgLen
          invariant count + Min(rest, Sum(lens[i..])) == Min(msgLen, Sum(lens))
        {
          assert lens[i..][0] == lens[i] && lens[i..][1..] == lens[i + 1..];
          var n := Min(rest, lens[i]);
          rest, count, i := rest - n, count + n, i + 1;
        }
        rc :| CanAnswer(count, rc);
      }
      log := log + [Call.ReadMsg(id, lens, rc)];
    }

    method PutMsg(id: nat) returns (rc: int)
      modifies this`msgId, this`log
      ensures log == old(log) + [Call.PutMsg(id, rc)]
    {
      rc := *;
      if rc >= NO_ERROR {
        msgId := INVALID_IPC_MSG_ID;
      }
      log := log + [Call.PutMsg(id, rc)];
    }

    /** read_response reads and retires, and returns the count as an `int`. */
    method ReadResponse(id: nat, lens: Lengths) returns (rc: int, ghost calls: seq<Call<Lengths>>)
      modifies this`msgId, this`log
      ensures log == old(log) + calls
      ensures |calls| == 2 && calls[0].ReadMsg? && calls[0].id == id && calls[0].lens == lens
      ensures calls[1].PutMsg? && calls[1].id == id
      ensures CanAnswer(Min(old(msgLen), Sum(lens)), calls[0].rc) && rc == AsInt32(calls[0].rc)
    {
      var n := ReadMsg(id, lens);
      var ignored := PutMsg(id);
      calls := [Call.ReadMsg(id, lens, n), Call.PutMsg(id, ignored)];
      rc := AsInt32(n);
    }

    /** await_response */
    method AwaitResponse() returns (rc: int, id: nat, len: nat, ghost calls: seq<Call<Lengths>>)
      modifies this
      ensures log == old(log) + calls && rc <= NO_ERROR
      ensures calls != [] && calls[0].Wait?
      ensures if calls[0].rc != NO_ERROR then |calls| == 1 && rc == calls[0].rc
              else |calls| == 2 && calls[1] == Call.GetMsg(rc, id, len)
      ensures rc == NO_ERROR ==> id == msgId && len == msgLen
    {
      id, len := 0, 0;
      var ev;
      rc, ev := Wait();
      calls := [Call.Wait(rc, ev)];
      if rc != NO_ERROR {
        return;
      }
      rc, id, len := GetMsg();
      calls := calls + [Call.GetMsg(rc, id, len)];
    }

    /** wait_to_send: send on SEND_UNBLOCKED, ERR_BUSY on MSG, ERR_CHANNEL_CLOSED on
        HUP, and the code of `wait` otherwise. */
    method WaitToSend(lens: Lengths) returns (rc: int, ghost calls: seq<Call<Lengths>>)
      requires Sum(lens) < TWO_63
      modifies this
      ensures log == old(log) + calls && Retry(lens, calls) == Some((|calls|, rc))
    {
      var ev;
      rc, ev := Wait();
      calls := [Call.Wait(rc, ev)];
      if rc < 0 {
        return;
      }
      if ev.sendUnblocked {
        rc := SendMsg(lens);
        calls := calls + [Call.SendMsg(lens, rc)];
        return;
      }
      if ev.msg {
        return ERR_BUSY, calls;
      }
      if ev.hup {
        return ERR_CHANNEL_CLOSED, calls;
      }
    }

    /** The request: send_msg, with wait_to_send if there is no room. */
    method SendRequest(tx: Lengths) returns (rc: int, ghost calls: seq<Call<Lengths>>)
      requires Sum(tx) < TWO_63
      modifies this
      ensures log == old(log) + calls && Exchange(tx, calls) == Some((|calls|, rc))
    {
      rc := SendMsg(tx);
      ghost var first := Call.SendMsg(tx, rc);
      calls := [first];
      if rc == ERR_NOT_ENOUGH_BUFFER {
        rc, calls := WaitToSend(tx);
        calls := [first] + calls;
        assert calls[1..] == calls[1..|calls|];
      }
    }

    /** The loop that adds up the lengths of the receive buffers, in `size_t`. */
    method TotalLength(rx: Lengths) returns (respSize: nat)
      ensures respSize == Sum(rx) % TWO_64
    {
      respSize := 0;
      var i := 0;
      ghost var total: nat := 0;
      while i < |rx|
        invariant 0 <= i <= |rx|
        invariant total + Sum(rx[i..]) == Sum(rx)
        invariant respSize == total % TWO_64
      {
        assert rx[i..][0] == rx[i] && rx[i..][1..] == rx[i + 1..];
        AddModulo(total, rx[i]);
        respSize := (respSize + rx[i]) % TWO_64;
        total := total + rx[i];
        i := i + 1;
      }
    }

    /** The checks of an announced message, and its retirement. */
    method TakeResponse(id: nat, len: nat, rx: Lengths) returns (rc: int, ghost calls: seq<Call<Lengths>>)
      requires rx != [] && id == msgId && len == msgLen
      modifies this`msgId, this`log
      ensures log == old(log) + calls
      ensures Takes(id, len, rx, calls, rc)
    {
      var ignored;
      if len < rx[0] {
        ignored := PutMsg(id);
        calls := [Call.PutMsg(id, ignored)];
        rc := ERR_NOT_VALID;
        return;
      }
      var respSize := TotalLength(rx);
      if respSize < len {
        ignored := PutMsg(id);
        calls := [Call.PutMsg(id, ignored)];
        rc := ERR_BAD_LEN;
        return;
      }
      rc, calls := ReadResponse(id, rx);
      ignored := PutMsg(id);
      calls := calls + [Call.PutMsg(id, ignored)];
      if rc < 0 {
        return;
      }
      if rc != len {
        rc := ERR_IO;
      }
    }

    /** The body of sync_ipc_send_msg. */
    method RequestAndResponse(tx: Lengths, rx: Lengths) returns (rc: int, ghost calls: seq<Call<Lengths>>)
      requires Sum(tx) < TWO_63
      modifies this
      ensures log == old(log) + calls && Conforms(tx, rx, calls, rc)
    {
      ghost var request;
      rc, request := SendRequest(tx);
      calls := request;
      if rc < 0 {
        return;
      }
      if |rx| == 0 {
        rc := NO_ERROR;
        return;
      }
      var id, len;
      ghost var await, take;
      rc, id, len, await := AwaitResponse();
      Associative(old(log), request, await);
      calls := request + await;
      assert calls[|request|..] == await;
      ExchangePrefix(tx, request, await);
      if rc < 0 {
        return;
      }
      rc, take := TakeResponse(id, len, rx);
      Associative(old(log), request + await, take);
      Associative(request, await, take);
      calls := request + (await + take);
      assert calls[|request|..] == await + take && (await + take)[2..] == take;
      ExchangePrefix(tx, request, await + take);
    }

    /** sync_ipc_send_msg, with its result read off the calls. */
    method SyncIpcSendMsg(tx: Lengths, rx: Lengths) returns (rc: int, ghost calls: seq<Call<Lengths>>)
      requires Sum(tx) < TWO_63
      modifies this
      ensures log == old(log) + calls && Conforms(tx, rx, calls, rc)
      ensures calls != [] && rc == LogResult(rx, calls)
    {
      rc, calls := RequestAndResponse(tx, rx);
      ResultIsLogged(tx, rx, calls, rc);
    }
  }

  // ---- the result of a response ----

  lemma AddModulo(a: nat, b: nat)
    ensures (a % TWO_64 + b) % TWO_64 == (a + b) % TWO_64
  {
  }

  lemma {:induction false} AddMultiple(x: int, k: nat)
    ensures (x + k * TWO_32) % TWO_32 == x % TWO_32
  {
    if k == 0 {
    } else {
      AddMultiple(x, k - 1);
    }
  }

  /** The low 32 bits survive the way through `ssize_t`. */
  lemma Truncated(len: nat)
    ensures AsInt32(AsInt64(len)) == AsInt32(len)
  {
    var q := len / TWO_64 + if len % TWO_64 < TWO_63 then 0 else 1;
    assert len == AsInt64(len) + (q * TWO_32) * TWO_32;
    AddMultiple(AsInt64(len), q * TWO_32);
  }

  /** The result for an announced length and an answer of read_msg. */
  function ResponseRc(len: nat, n: int, rx: seq<nat>): int
    requires rx != []
  {
    if len < rx[0] then ERR_NOT_VALID
    else if Sum(rx) % TWO_64 < len then ERR_BAD_LEN
    else ReadRc(len, n)
  }

  lemma TakesRc(id: nat, len: nat, rx: Lengths, log: seq<Call<Lengths>>, rc: int)
    requires rx != [] && Takes(id, len, rx, log, rc)
    ensures rc == ResponseRc(len, log[0].rc, rx)
  {
  }

  /** The response is accepted exactly when it was read completely, is not shorter
      than the first buffer and not longer than all of them, counted in `size_t`, and
      its length is an `int`. */
  lemma ResponseAccepted(len: nat, n: int, rx: seq<nat>)
    requires rx != [] && CanAnswer(len, n)
    ensures ResponseRc(len, n, rx) >= 0 <==> n == len <= INT_MAX && rx[0] <= len <= Sum(rx) % TWO_64
  {
    ReadIsComplete(len, n);
  }

  /** The read_msg that stands in for the kernel never fails or stops early on a
      pending message that is not empty. Over it the branch that returns ERR_IO is
      never taken for a length up to INT_MAX: it is exactly when the length is
      otherwise acceptable but loses its high bits on the way through `int`. */
  lemma StandInNeverShort<K>(t: FlatSpec.Table<K>, h: int, rx: seq<nat>)
    requires rx != [] && t.GetMsgLen(h) > 0 && !LengthRefused(t.GetMsgLen(h), rx)
    ensures var len := t.GetMsgLen(h); var n := ReadMsgRc(t, h, t.GetMsgId(h), 0, rx);
      && AsInt32(n) == AsInt32(len)
      && (AsInt32(len) >= 0 ==> (ReadRc(len, n) == ERR_IO <==> len > INT_MAX))
      && (len <= INT_MAX ==> ReadRc(len, n) == len)
  {
    FillIsMin(t.GetMsgLen(h), rx);
    Truncated(t.GetMsgLen(h));
  }
}
