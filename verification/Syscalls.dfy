/** The system calls over the flat handle table: what they return and do, as
    functions on the table's value, and as methods that work on the table. */
module Syscalls {
  import opened Trusty
  import opened FlatSpec
  import FlatTable

  // ---- scatter and gather ----

  function Sum(lens: seq<nat>): nat {
    if lens == [] then 0 else lens[0] + Sum(lens[1..])
  }

  /** The bytes stored when len bytes are scattered over buffers of these lengths, in order. */
  function Fill(len: nat, lens: seq<nat>): nat {
    if lens == [] then 0
    else var n := Min(len, lens[0]); n + Fill(len - n, lens[1..])
  }

  lemma {:induction false} FillIsMin(len: nat, lens: seq<nat>)
    ensures Fill(len, lens) == Min(len, Sum(lens))
  {
    if lens == [] {
    } else {
      FillIsMin(len - Min(len, lens[0]), lens[1..]);
    }
  }

  lemma SumShort(lens: seq<nat>)
    requires 1 <= |lens| <= 2
    ensures Sum(lens) == lens[0] + if |lens| == 1 then 0 else lens[1]
  {
  }

  /** The memory that _trusty_read_msg writes, as pairs of a buffer and the number of
      bytes from its start. When the message fills both buffers, the second write
      starts at the first buffer again. */
  function Written(msgLen: nat, lens: seq<nat>): seq<(nat, nat)>
    requires 1 <= |lens| <= 2
  {
    if msgLen < lens[0] then [(0, msgLen)]
    else if |lens| == 1 then [(0, lens[0])]
    else if msgLen - lens[0] < lens[1] then [(0, lens[0]), (1, msgLen - lens[0])]
    else [(0, lens[0]), (0, lens[1])]
  }

  predicate Inside(writes: seq<(nat, nat)>, lens: seq<nat>) {
    forall k :: 0 <= k < |writes| ==> writes[k].0 < |lens| && writes[k].1 <= lens[writes[k].0]
  }

  /** The last byte that is written of a buffer, plus one. */
  function Reach(writes: seq<(nat, nat)>, buffer: nat): nat {
    if writes == [] then 0
    else Max(if writes[0].0 == buffer then writes[0].1 else 0, Reach(writes[1..], buffer))
  }

  lemma ReachOfOne(w: (nat, nat), buffer: nat)
    ensures Reach([w], buffer) == if w.0 == buffer then w.1 else 0
  {
    assert [w][1..] == [];
  }

  lemma ReachOfTwo(w: (nat, nat), x: (nat, nat), buffer: nat)
    ensures Reach([w, x], buffer) == Max(if w.0 == buffer then w.1 else 0, if x.0 == buffer then x.1 else 0)
  {
    assert [w, x][1..] == [x];
    ReachOfOne(x, buffer);
  }

  lemma ReadReach(msgLen: nat, lens: seq<nat>, buffer: nat)
    requires 1 <= |lens| <= 2 && buffer < |lens|
    ensures Reach(Written(msgLen, lens), buffer) ==
      if |lens| == 2 && Sum(lens) <= msgLen then if buffer == 0 then Max(lens[0], lens[1]) else 0
      else if buffer == 0 then Min(msgLen, lens[0]) else Min(msgLen - Min(msgLen, lens[0]), lens[1])
  {
    SumShort(lens);
    var writes := Written(msgLen, lens);
    if |writes| == 1 {
      ReachOfOne(writes[0], buffer);
    } else {
      ReachOfTwo(writes[0], writes[1], buffer);
    }
  }

  lemma ReadInside(msgLen: nat, lens: seq<nat>)
    requires 1 <= |lens| <= 2
    ensures Inside(Written(msgLen, lens), lens) <==> !(|lens| == 2 && Sum(lens) <= msgLen && lens[0] < lens[1])
  {
    SumShort(lens);
    var writes := Written(msgLen, lens);
    assert Inside(writes, lens) <==> writes[0].1 <= lens[0] && (|writes| == 2 ==> writes[1].1 <= lens[writes[1].0]);
  }

  /** The read stays inside its buffers except when the message fills two of them
      and the second is longer than the first. Exactly one of the two buffers
      misses its part of the message when both are full: the second, unless it is
      empty. In all other cases each buffer gets what is left for it. */
  lemma ReadWrites(msgLen: nat, lens: seq<nat>)
    requires 1 <= |lens| <= 2
    ensures var full := |lens| == 2 && Sum(lens) <= msgLen;
      && (Inside(Written(msgLen, lens), lens) <==> !(full && lens[0] < lens[1]))
      && (Reach(Written(msgLen, lens), 0) == Min(msgLen, lens[0]) <==> !(full && lens[0] < lens[1]))
      && (|lens| == 2 ==>
            (Reach(Written(msgLen, lens), 1) == Min(msgLen - Min(msgLen, lens[0]), lens[1]) <==>
              !(full && lens[1] > 0)))
  {
    SumShort(lens);
    ReadInside(msgLen, lens);
    ReadReach(msgLen, lens, 0);
    if |lens| == 2 {
      ReadReach(msgLen, lens, 1);
    }
  }

  /** The branch cascade of _trusty_read_msg for one or two buffers, with the
      subtractions from msg_len in place, and a record of what it writes. */
  method ReadCascade(msgLen: nat, lens: seq<nat>) returns (numBytesRead: nat, writes: seq<(nat, nat)>)
    requires 1 <= |lens| <= 2
    ensures numBytesRead == Fill(msgLen, lens) && writes == Written(msgLen, lens)
  {
    FillIsMin(msgLen, lens);
    SumShort(lens);
    if msgLen < lens[0] {
      numBytesRead, writes := msgLen, [(0, msgLen)];
      return;
    }
    numBytesRead, writes := lens[0], [(0, lens[0])];
    if |lens| == 1 {
      return;
    }
    var rest := msgLen - numBytesRead;
    if rest < lens[1] {
      writes := writes + [(1, rest)];
      numBytesRead := numBytesRead + rest;
      return;
    }
    writes := writes + [(0, lens[1])];
    numBytesRead := numBytesRead + lens[1];
  }

  // ---- results ----

  /** The return code of get_msg; err stands for the environment's error, if below 0. */
  function GetMsgRc<K>(t: Table<K>, h: int, err: int): int {
    if err < NO_ERROR then err
    else if t.GetMsgId(h) != INVALID_IPC_MSG_ID then NO_ERROR
    else ERR_GENERIC
  }

  function ReadMsgRc<K>(t: Table<K>, h: int, id: nat, offset: nat, lens: seq<nat>): int
    requires t.GetMsgId(h) == id && t.GetMsgLen(h) != 0 ==> offset <= t.GetMsgLen(h)
  {
    if t.GetMsgId(h) != id || t.GetMsgLen(h) == 0 then ERR_GENERIC
    else AsInt64(Fill(t.GetMsgLen(h) - offset, lens))
  }

  /** With a matching id and a message that is not empty, read_msg returns the
      smaller of what is left of the message and what the buffers hold; otherwise it
      fails. */
  lemma ReadMsgCount<K>(t: Table<K>, h: int, id: nat, offset: nat, lens: seq<nat>)
    requires t.GetMsgId(h) == id && t.GetMsgLen(h) != 0 ==> offset <= t.GetMsgLen(h) < TWO_63
    ensures ReadMsgRc(t, h, id, offset, lens) ==
      if t.GetMsgId(h) != id || t.GetMsgLen(h) == 0 then ERR_GENERIC
      else Min(t.GetMsgLen(h) - offset, Sum(lens))
  {
    if t.GetMsgId(h) == id && t.GetMsgLen(h) != 0 {
      var left := t.GetMsgLen(h) - offset;
      FillIsMin(left, lens);
      Int64Fits(Fill(left, lens));
    }
  }

  function SendMsgRc(lens: seq<nat>, err: int): int {
    if err < NO_ERROR then err else AsInt64(Sum(lens))
  }

  /** send_msg adds the lengths in `size_t` and returns an `ssize_t`: on success the
      result is the number of bytes offered exactly when that is below 2^63. */
  lemma SendMsgCount(lens: seq<nat>, err: int)
    ensures err < 0 ==> SendMsgRc(lens, err) == err
    ensures err >= 0 ==> (SendMsgRc(lens, err) == Sum(lens) <==> Sum(lens) < TWO_63)
  {
  }

  // ---- ports ----

  /** A port is secure if only the non-secure world may connect to it. */
  function SecureFlag(flags: bv32): bool {
    flags & IPC_PORT_ALLOW_NS_CONNECT != 0 && flags & IPC_PORT_ALLOW_TA_CONNECT == 0
  }

  /** Bits 0 and 1 decide: bit 1 alone makes a port secure. */
  lemma SecureBits(flags: bv32)
    ensures SecureFlag(flags) <==> flags & 3 == 2
  {
  }

  function PortCreateResult<K>(t: Table<K>, path: Option<string>, flags: bv32): int
    requires t.Valid()
  {
    if path.None? then ERR_BAD_PATH else Result(t, NewPort(SecureFlag(flags), path.value))
  }

  function PortCreateNext<K>(t: Table<K>, path: Option<string>, flags: bv32): Table<K>
    requires t.Valid()
  {
    if path.None? then t else Next(t, NewPort(SecureFlag(flags), path.value))
  }

  /** Callers test the result of port_create against INVALID_IPC_HANDLE only. It is
      then a newly opened port exactly when a path was given and a slot of the
      right parity was free; without a path it is an error code that passes for a
      handle. */
  lemma PortCreateGivesPort<K>(t: Table<K>, path: Option<string>, flags: bv32)
    requires t.Valid()
    ensures var r := PortCreateResult(t, path, flags);
      (r != INVALID_IPC_HANDLE && PortCreateNext(t, path, flags).IsActivePort(r)) <==>
        path.Some? && exists g :: t.IsPort(g) && PortFits(t, g, SecureFlag(flags))
    ensures var r := PortCreateResult(t, path, flags);
      path.Some? && r != INVALID_IPC_HANDLE ==> (r % 2 == 1 <==> flags & 3 == 2)
    ensures path.None? ==> PortCreateResult(t, path, flags) != INVALID_IPC_HANDLE
                           && !t.IsPort(PortCreateResult(t, path, flags)) && PortCreateNext(t, path, flags) == t
  {
    FirstPortIsLeast(t, SecureFlag(flags), 1);
    SecureBits(flags);
  }

  // ---- the life of a message ----

  /** Any of the calls, with what the environment chooses for it. */
  datatype SysCall<K> =
    | PortCreate(path: Option<string>, flags: bv32)
    | Accept
    | Close(h: int)
    | SetCookie(h: int, cookie: K)
    | Wait(h: int, msg: Option<(nat, nat)>)   // wait or wait_any; Some if it reports MSG
    | GetMsg(h: int, err: int)
    | ReadMsg(h: int, id: nat)
    | PutMsg(h: int, id: nat, err: int)
    | SendMsg(h: int, err: int)

  function After<K>(t: Table<K>, c: SysCall<K>): (u: Table<K>)
    requires t.Valid()
    ensures u.Valid()
  {
    match c
    case PortCreate(path, flags) => PortCreateNext(t, path, flags)
    case Accept => Next(t, NewChannel)
    case Close(h) => Next(t, Free(h))
    case SetCookie(h, k) => Next(t, FlatSpec.SetCookie(h, k))
    case Wait(h, msg) => if msg.Some? then Next(t, NewMsg(h, msg.value.0, msg.value.1)) else t
    case PutMsg(h, _, err) => if err < NO_ERROR then t else Next(t, SetMsgId(h, INVALID_IPC_MSG_ID))
    case GetMsg(_, _) => t
    case ReadMsg(_, _) => t
    case SendMsg(_, _) => t
  }

  function AfterAll<K>(t: Table<K>, cs: seq<SysCall<K>>): (u: Table<K>)
    requires t.Valid()
    ensures u.Valid()
    decreases |cs|
  {
    if cs == [] then t else AfterAll(After(t, cs[0]), cs[1..])
  }

  predicate BringsMessage<K>(c: SysCall<K>, h: int) { c.Wait? && c.h == h && c.msg.Some? }

  lemma StaysRetired<K>(t: Table<K>, c: SysCall<K>, h: int)
    requires t.Valid() && t.GetMsgId(h) == INVALID_IPC_MSG_ID && !BringsMessage(c, h)
    ensures After(t, c).GetMsgId(h) == INVALID_IPC_MSG_ID
    ensures After(t, c).GetMsgLen(h) == t.GetMsgLen(h)
  {
  }

  lemma {:induction false} RetiredUntilNextMessage<K>(t: Table<K>, cs: seq<SysCall<K>>, h: int)
    requires t.Valid() && t.GetMsgId(h) == INVALID_IPC_MSG_ID
    requires forall c :: c in cs ==> !BringsMessage(c, h)
    ensures AfterAll(t, cs).GetMsgId(h) == INVALID_IPC_MSG_ID
    ensures AfterAll(t, cs).GetMsgLen(h) == t.GetMsgLen(h)
    decreases |cs|
  {
    if cs == [] {
    } else {
      StaysRetired(t, cs[0], h);
      RetiredUntilNextMessage(After(t, cs[0]), cs[1..], h);
    }
  }

  /** Once put_msg succeeds on a channel, and whatever id it was given, get_msg on
      that channel fails and read_msg with any id but 0 fails, at any offset, through
      any further calls on any handles, until a wait on that channel reports MSG. A
      read with id 0 still gets the retired message, unless that was empty. */
  lemma PutRetires<K>(t: Table<K>, h: int, id: nat, err: int, cs: seq<SysCall<K>>,
                      getErr: int, readId: nat, offset: nat, lens: seq<nat>)
    requires t.Valid() && err >= NO_ERROR
    requires forall c :: c in cs ==> !BringsMessage(c, h)
    requires readId == INVALID_IPC_MSG_ID ==> offset <= t.GetMsgLen(h)
    ensures var u := AfterAll(After(t, PutMsg(h, id, err)), cs);
      && u.GetMsgId(h) == INVALID_IPC_MSG_ID && u.GetMsgLen(h) == t.GetMsgLen(h)
      && GetMsgRc(u, h, getErr) < NO_ERROR
      && (ReadMsgRc(u, h, readId, offset, lens) == ERR_GENERIC || (readId == 0 && t.GetMsgLen(h) > 0))
      && (readId == 0 && 0 < t.GetMsgLen(h) < TWO_63 ==>
           ReadMsgRc(u, h, readId, offset, lens) == Min(t.GetMsgLen(h) - offset, Sum(lens)))
  {
    RetiredUntilNextMessage(After(t, PutMsg(h, id, err)), cs, h);
    if readId == INVALID_IPC_MSG_ID && 0 < t.GetMsgLen(h) < TWO_63 {
      ReadMsgCount(AfterAll(After(t, PutMsg(h, id, err)), cs), h, readId, offset, lens);
    }
  }

  /** get_msg succeeds exactly when the environment has no error and the id is not
      0. It reports an error of the environment as it is. */
  lemma GetMsgGivesId<K>(t: Table<K>, h: int, err: int)
    ensures GetMsgRc(t, h, err) == NO_ERROR <==> err >= 0 && t.GetMsgId(h) != 0
    ensures err < 0 ==> GetMsgRc(t, h, err) == err
    ensures GetMsgRc(t, h, err) <= NO_ERROR
  {
  }

  // ---- the calls ----

  method SysPortCreate<K>(t: FlatTable.HandleTable<K>, path: Option<string>, flags: bv32) returns (h: int)
    requires t.Valid()
    modifies t, t.ports
    ensures t.Valid()
    ensures h == PortCreateResult(old(t.View()), path, flags)
    ensures t.View() == After(old(t.View()), PortCreate(path, flags))
  {
    if path.None? {
      return ERR_BAD_PATH;
    }
    h := t.NewPort(SecureFlag(flags), path.value);
  }

  /** The uuid that accept leaves in the caller's memory when it opened a channel:
      zero, unless the port is secure; arbitrary numbers then. The rest of the memory
      stays as it is. */
  predicate PeerUuid(secure: bool, peer: Uuid, uuid: Uuid) {
    uuid.node == peer.node && (!secure ==> uuid.timeLow == uuid.timeMid == uuid.timeHi == 0)
  }

  /** Over the flat table a port is secure if bit 0 of its handle is set. */
  predicate AcceptUuid(port: int, peer: Uuid, uuid: Uuid) {
    PeerUuid(IsSecure(port), peer, uuid)
  }

  /** accept; peer is what the caller's memory for the uuid holds before. */
  method SysAccept<K>(t: FlatTable.HandleTable<K>, port: int, peer: Uuid) returns (h: int, uuid: Uuid)
    requires t.Valid()
    modifies t, t.chans
    ensures t.Valid()
    ensures h == Result(old(t.View()), NewChannel)
    ensures if h == INVALID_IPC_HANDLE then uuid == peer else AcceptUuid(port, peer, uuid)
    ensures t.View() == After(old(t.View()), Accept)
  {
    h := t.NewChannel();
    uuid := peer;
    if h != INVALID_IPC_HANDLE {
      if port % 2 == 0 {
        uuid := peer.(timeLow := 0, timeMid := 0, timeHi := 0);
      } else {
        var low: nat, mid: nat, hi: nat := *, *, *;
        uuid := peer.(timeLow := low, timeMid := mid, timeHi := hi);
      }
    }
  }

  method SysClose<K>(t: FlatTable.HandleTable<K>, h: int) returns (rc: int)
    requires t.Valid()
    modifies t, t.ports, t.chans
    ensures t.Valid() && rc == NO_ERROR
    ensures t.View() == After(old(t.View()), Close(h))
  {
    t.Free(h);
    rc := NO_ERROR;
  }

  method SysSetCookie<K>(t: FlatTable.HandleTable<K>, h: int, cookie: K) returns (rc: int)
    requires t.Valid()
    modifies t.ports, t.chans
    ensures t.Valid() && rc == NO_ERROR
    ensures t.View() == After(old(t.View()), SysCall.SetCookie(h, cookie))
  {
    t.SetCookie(h, cookie);
    rc := NO_ERROR;
  }

  /** wait: any error, or any event; with MSG the channel gets a new message. */
  method SysWait<K>(t: FlatTable.HandleTable<K>, h: int)
    returns (rc: int, event: Event, cookie: K, ghost msg: Option<(nat, nat)>)
    requires t.Valid()
    modifies t.chans
    ensures t.Valid() && rc <= NO_ERROR
    ensures msg.Some? <==> rc == NO_ERROR && event.msg
    ensures msg.Some? ==> msg.value.0 != INVALID_IPC_MSG_ID
    ensures rc == NO_ERROR ==> cookie == old(t.View()).GetCookie(h, t.noCookie)
    ensures t.View() == After(old(t.View()), Wait(h, msg))
  {
    rc :| rc <= NO_ERROR;
    event := *;
    cookie := t.noCookie;
    msg := None;
    if rc < NO_ERROR {
      return;
    }
    cookie := t.GetCookie(h);
    if event.msg {
      var id: nat, len: nat :| id > INVALID_IPC_MSG_ID;
      t.NewMsg(h, id, len);
      msg := Some((id, len));
    }
  }

  /** wait_any: the same for any active handle. It waits for ever if there is none,
      unless the environment reports an error. */
  method SysWaitAny<K>(t: FlatTable.HandleTable<K>)
    returns (blocked: bool, rc: int, h: int, event: Event, cookie: K, ghost msg: Option<(nat, nat)>)
    requires t.Valid()
    modifies t.chans
    ensures t.Valid() && rc <= NO_ERROR
    ensures blocked ==> forall g :: !old(t.View()).IsActive(g)
    ensures !blocked && rc == NO_ERROR ==> old(t.View()).IsActive(h)
    ensures msg.Some? <==> !blocked && rc == NO_ERROR && event.msg
    ensures msg.Some? ==> msg.value.0 != INVALID_IPC_MSG_ID
    ensures !blocked && rc == NO_ERROR ==> cookie == old(t.View()).GetCookie(h, t.noCookie)
    ensures t.View() == After(old(t.View()), Wait(h, msg))
  {
    blocked, h, event, cookie, msg := false, *, *, t.noCookie, None;
    rc :| rc <= NO_ERROR;
    if rc < NO_ERROR {
      return;
    }
    if !(t.layout.IsPort(h) && t.ports[h - 1].active)
       && !(t.layout.IsChan(h) && t.chans[h - t.layout.chanMin].active) {
      h := t.AnyActive();
      blocked := h == INVALID_IPC_HANDLE;
    }
    if !blocked {
      rc, event, cookie, msg := SysWait(t, h);
    }
  }

  method SysGetMsg<K>(t: FlatTable.HandleTable<K>, h: int) returns (rc: int, id: nat, len: nat, ghost err: int)
    requires t.Valid()
    ensures rc == GetMsgRc(t.View(), h, err)
    ensures rc == NO_ERROR ==> id == t.View().GetMsgId(h) && len == t.View().GetMsgLen(h)
  {
    id, len := 0, 0;
    rc := *;
    err := rc;
    if rc < NO_ERROR {
      return;
    }
    id := t.GetMsgId(h);
    len := t.GetMsgLen(h);
    rc := if id != INVALID_IPC_MSG_ID then NO_ERROR else ERR_GENERIC;
  }

  /** The assertions that the call makes about its arguments are its preconditions. */
  method SysReadMsg<K>(t: FlatTable.HandleTable<K>, h: int, id: nat, offset: nat, lens: seq<nat>)
    returns (rc: int, writes: seq<(nat, nat)>)
    requires t.Valid()
    requires t.View().GetMsgId(h) == id && t.View().GetMsgLen(h) != 0 ==>
      offset <= t.View().GetMsgLen(h) && 1 <= |lens| <= 2
    ensures rc == ReadMsgRc(t.View(), h, id, offset, lens)
    ensures writes == if t.View().GetMsgId(h) != id || t.View().GetMsgLen(h) == 0 then []
                      else Written(t.View().GetMsgLen(h) - offset, lens)
  {
    var cur := t.GetMsgId(h);
    var len := t.GetMsgLen(h);
    if cur != id || len == 0 {
      return ERR_GENERIC, [];
    }
    var n;
    n, writes := ReadCascade(len - offset, lens);
    rc := AsInt64(n);
  }

  /** The bytes that read_msg stores at offset 0 in one buffer of len bytes. */
  function Stored<K>(t: Table<K>, h: int, id: nat, len: nat): nat {
    if t.GetMsgId(h) != id then 0 else Min(len, t.GetMsgLen(h))
  }

  /** Their number is the result, unless that is an error. */
  lemma StoredCount<K>(t: Table<K>, h: int, id: nat, len: nat)
    requires len < TWO_63
    ensures Stored(t, h, id, len) == Max(ReadMsgRc(t, h, id, 0, [len]), 0)
    ensures ReadMsgRc(t, h, id, 0, [len]) <= len
  {
    FillIsMin(t.GetMsgLen(h), [len]);
    SumShort([len]);
  }

  /** read_msg at offset 0 into one buffer that is said to have len bytes and is
      really the array buf, or null. If the bytes stored fit into that, the rest of
      the array stays as it is; if not, the call runs over its end. */
  method SysReadMsgInto<K>(t: FlatTable.HandleTable<K>, h: int, id: nat, buf: array?<bv8>, len: nat)
    returns (rc: int, fits: bool)
    requires t.Valid()
    requires buf as object? != t.ports && buf as object? != t.chans
    modifies buf
    ensures rc == ReadMsgRc(t.View(), h, id, 0, [len])
    ensures t.Valid() && t.View() == old(t.View())
    ensures fits <==> Stored(t.View(), h, id, len) <= if buf == null then 0 else buf.Length
    ensures fits && buf != null ==>
      forall k :: Stored(t.View(), h, id, len) <= k < buf.Length ==> buf[k] == old(buf[k])
  {
    var writes;
    rc, writes := SysReadMsg(t, h, id, 0, [len]);
    var count := if writes == [] then 0 else writes[0].1;
    fits := count <= if buf == null then 0 else buf.Length;
    if buf != null {
      var k := 0;
      while k < count && k < buf.Length
        invariant 0 <= k <= count && k <= buf.Length
        invariant forall j :: count <= j < buf.Length ==> buf[j] == old(buf[j])
      {
        buf[k] := *;
        k := k + 1;
      }
    }
  }

  method SysPutMsg<K>(t: FlatTable.HandleTable<K>, h: int, id: nat) returns (rc: int, ghost err: int)
    requires t.Valid()
    modifies t.chans
    ensures t.Valid() && rc == (if err < NO_ERROR then err else NO_ERROR)
    ensures t.View() == After(old(t.View()), PutMsg(h, id, err))
  {
    rc := *;
    err := rc;
    if rc < NO_ERROR {
      return;
    }
    t.SetMsgId(h, INVALID_IPC_MSG_ID);
    rc := NO_ERROR;
  }

  method SysSendMsg(lens: seq<nat>) returns (rc: int, ghost err: int)
    requires 1 <= |lens| <= 2
    ensures rc == SendMsgRc(lens, err)
  {
    SumShort(lens);
    rc := *;
    err := rc;
    if rc < NO_ERROR {
      return;
    }
    if |lens| == 1 {
      rc := AsInt64(lens[0]);
    } else {
      rc := AsInt64((lens[0] + lens[1]) % TWO_64);
    }
  }
}
