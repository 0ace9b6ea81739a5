/** The storage server as the C code has it: contexts are objects whose fields are
    updated in place, the handle table is the flat table, and the message buffer is
    an array. A ghost field holds the same state as a value of `StorageSpec`; every
    method is proved to take it where the specification's function does, so the
    theorems of `StorageProofs` hold of this server's runs.

    What the kernel and the callbacks choose is chosen here by `*` and `:|`, and
    returned as a ghost result. */
module StorageServer {
  import opened Trusty
  import CallLog
  import opened ServerLog
  import opened FlatSpec
  import FlatProofs
  import FlatTable
  import FlatService
  import opened Syscalls
  import S = StorageSpec
  import StorageCalls
  import StorageProofs

  /** struct ipc_port_context; the list head is the sequence of linked contexts. */
  class PortContext {
    var handler: S.Handler
    var handle: int
    var channels: seq<ChannelContext>

    constructor () {
      handler, handle, channels := S.NoHandler, INVALID_IPC_HANDLE, [];
    }
  }

  /** struct ipc_channel_context; `list` is the port in whose list the node is. */
  class ChannelContext {
    var handler: S.Handler
    var handle: int
    var hasMsgHandler: bool
    var list: PortContext?

    constructor (hasMsgHandler: bool)
      ensures this.hasMsgHandler == hasMsgHandler && list == null
    {
      handler, handle, list := S.NoHandler, INVALID_IPC_HANDLE, null;
      this.hasMsgHandler := hasMsgHandler;
    }
  }

  type Ctx = S.Cookie<PortContext, ChannelContext>
  type State = S.State<int, PortContext, ChannelContext>
  type Input = S.Input<int, PortContext, ChannelContext>
  type Attempt = S.Accept<int, PortContext, ChannelContext>
  type Outcome = S.Outcome<State>

  /** What the kernel, the allocator or the application is asked and answers, besides
      the calls for messages. wait_any answers with the event and, for MSG, the new
      message; None if it fails or waits for ever. */
  datatype Answer =
    | WaitAny(event: Option<(int, Event, nat, nat)>)
    | Accept(port: int, chan: Option<int>)
    | OnConnect(h: int, context: Option<(ChannelContext, bool)>)
    | SetCookie(h: int, ok: bool)
    | OnHandleMsg(c: ChannelContext, len: nat, rc: int, idAfter: nat, lenAfter: nat)
    | PortCreate(handle: Option<int>)
    | Realloc(size: nat, ok: bool)

  type KernelCall = Entry<Answer>

  /** What on_connect gave: a context, and whether it comes with on_handle_msg. */
  function Given(c: ChannelContext?): Option<(ChannelContext, bool)>
    reads c
  {
    if c == null then None else
      var d: ChannelContext := c;
      Some((d, d.hasMsgHandler))
  }

  ghost predicate TableMatches(m: State, t: Table<Ctx>) {
    FlatService.Matches(m.ports, m.chans, t)
  }

  ghost predicate SamePort(p: PortContext, k: S.PortContext<int, ChannelContext>)
    reads p
  {
    p.handler == k.handler && p.handle == k.handle && p.channels == k.channels
  }

  ghost predicate SameChannel(c: ChannelContext, k: S.ChanContext<int, PortContext>)
    reads c
  {
    && c.handler == k.handler && c.handle == k.handle && c.hasMsgHandler == k.hasMsgHandler
    && (c.list == null <==> k.link.None?) && (k.link.Some? ==> c.list == k.link.value)
  }

  // ---- the table and the specification step together ----

  lemma ClosedMatches(m: State, t: Table<Ctx>, h: int)
    requires TableMatches(m, t) && (h in m.ports || h in m.chans)
    ensures S.Close(m, h).Running?
    ensures TableMatches(S.Close(m, h).state, Next(t, Free(h)))
  {
    FlatProofs.StepKeepsCounters(t, Free(h));
  }

  lemma AcceptedMatches(m: State, t: Table<Ctx>, p: PortContext, stale: S.Slot<PortContext, ChannelContext>)
    requires TableMatches(m, t) && Result(t, NewChannel) != INVALID_IPC_HANDLE
    ensures var ch := Result(t, NewChannel);
      && ch !in m.ports && ch !in m.chans && t.IsChan(ch)
      && (FlatService.InSlot(stale, t.Chan(ch)) ==> TableMatches(S.Accepted(m, p, ch, stale), Next(t, NewChannel)))
  {
    FlatProofs.NewChannelIsFirstFit(t);
    FlatProofs.StepKeepsCounters(t, NewChannel);
  }

  lemma ChanCookieMatches(m: State, t: Table<Ctx>, ch: int, c: ChannelContext)
    requires TableMatches(m, t) && ch in m.chans
    ensures TableMatches(S.SetChanCookie(m, ch, c), Next(t, FlatSpec.SetCookie(ch, S.ChanCookie(c))))
  {
    FlatProofs.StepKeepsCounters(t, FlatSpec.SetCookie(ch, S.ChanCookie(c)));
  }

  lemma NewMsgMatches(m: State, t: Table<Ctx>, h: int, id: nat, len: nat)
    requires TableMatches(m, t)
    ensures TableMatches(S.NewMsg(m, h, id, len), Next(t, NewMsg(h, id, len)))
  {
    FlatProofs.StepKeepsCounters(t, NewMsg(h, id, len));
  }

  lemma PutMsgMatches(m: State, t: Table<Ctx>, h: int)
    requires TableMatches(m, t)
    ensures TableMatches(S.PutMsg(m, h, true), Next(t, SetMsgId(h, INVALID_IPC_MSG_ID)))
  {
    FlatProofs.StepKeepsCounters(t, SetMsgId(h, INVALID_IPC_MSG_ID));
  }

  lemma PortOpenedMatches(m: State, t: Table<Ctx>, secure: bool, path: string)
    requires TableMatches(m, t) && Result(t, NewPort(secure, path)) != INVALID_IPC_HANDLE
    ensures var h := Result(t, NewPort(secure, path));
      && h !in m.ports && h !in m.chans && t.IsPort(h)
      && TableMatches(m.(ports := m.ports[h := t.Port(h).cookie]), Next(t, NewPort(secure, path)))
  {
    FlatProofs.NewPortIsFirstFit(t, secure, path);
    FlatProofs.StepKeepsCounters(t, NewPort(secure, path));
  }

  lemma PortCookieMatches(m: State, t: Table<Ctx>, h: int, cookie: Ctx)
    requires TableMatches(m, t) && h in m.ports
    ensures TableMatches(m.(ports := m.ports[h := cookie]), Next(t, FlatSpec.SetCookie(h, cookie)))
  {
    FlatProofs.StepKeepsCounters(t, FlatSpec.SetCookie(h, cookie));
  }

  /** port_create, set_cookie or realloc fails. */
  ghost predicate CannotCreate(m: State, i: Input)
    requires i.Create?
  {
    i.handle.None? || !i.setCookieOk || (i.maxBuf > m.bufSize && !i.reallocOk)
  }

  lemma CreateFails(m: State, i: Input)
    requires m.bufAlloc == m.bufSize && i.Create? && S.Allowed(m, i) && CannotCreate(m, i)
    ensures S.Step(m, i) == S.Running(m)
  {
    StorageProofs.CreateAllOrNothing(m, i.p, i.handle, i.setCookieOk, i.maxBuf, i.reallocOk);
  }

  /** wait_any changes pending messages only. */
  lemma ReadyAfterWait(m0: State, m: State, h: int, ev: Event, id: nat, len: nat)
    requires StorageProofs.Inv(m0)
    requires m == (if ev.msg then S.NewMsg(m0, h, id, len) else m0) && (h in m.ports || h in m.chans)
    ensures CanDispatch(m, h)
  {
    StorageProofs.NewMsgInv(m0, h, id, len);
    InvCanDispatch(m, h);
  }

  // ---- what the calls have to be ----

  /** The calls of do_connect for a READY event: accept, on_connect if there is a
      connection, set_cookie if there is a context. */
  function ConnectCalls(port: int, a: Attempt): seq<KernelCall> {
    [Ask(Answer.Accept(port, a.chan))] + if a.chan.None? then [] else WelcomeCalls(a.chan.value, a)
  }

  function WelcomeCalls(ch: int, a: Attempt): seq<KernelCall> {
    [Ask(Answer.OnConnect(ch, if a.ctx.Some? then Some((a.ctx.value, a.hasMsgHandler)) else None))]
    + if a.ctx.None? then [] else [Ask(Answer.SetCookie(ch, a.setCookieOk))]
  }

  function PortCalls(port: int, ev: Event, a: Attempt): seq<KernelCall> {
    if ev.error || ev.hup || ev.msg || ev.sendUnblocked || !ev.ready then [] else ConnectCalls(port, a)
  }

  /** The calls of do_handle_msg: get_msg alone if it fails; get_msg and put_msg for
      a message that is too long; otherwise get_msg, read_msg, put_msg, and
      on_handle_msg if the message was read completely and without an overrun. */
  ghost predicate HandlesMsg(slot: S.Slot<PortContext, ChannelContext>, size: nat, c: ChannelContext, r: S.Receive,
                             calls: seq<KernelCall>) {
    && calls != [] && calls[0].Msg? && calls[0].call.GetMsg? && calls[0].call.rc == S.GetMsg(slot, r.getErr)
    && if calls[0].call.rc != NO_ERROR then |calls| == 1
       else calls[0].call.id == slot.msgId && calls[0].call.len == slot.msgLen && TakesMsg(slot, size, c, r, calls[1..])
  }

  ghost predicate TakesMsg(slot: S.Slot<PortContext, ChannelContext>, size: nat, c: ChannelContext, r: S.Receive,
                           calls: seq<KernelCall>) {
    if slot.msgLen > S.MSG_BUF_MAX_SIZE then |calls| == 1 && Retires(slot, r, calls[0])
    else ReadsMsg(slot.msgId, slot.msgLen, size, c, r, calls)
  }

  ghost predicate Retires(slot: S.Slot<PortContext, ChannelContext>, r: S.Receive, call: KernelCall) {
    call.Msg? && call.call.PutMsg? && call.call.id == slot.msgId && (r.putOk <==> call.call.rc >= NO_ERROR)
  }

  ghost predicate ReadsMsg(id: nat, len: nat, size: nat, c: ChannelContext, r: S.Receive, calls: seq<KernelCall>) {
    && |calls| >= 2 && calls[0] == Msg(MsgCall.ReadMsg(id, [len], r.readRc))
    && calls[1].Msg? && calls[1].call.PutMsg? && calls[1].call.id == id && (r.putOk <==> calls[1].call.rc >= NO_ERROR)
    && calls[2..] == if len <= r.readRc <= size
                     then [Ask(Answer.OnHandleMsg(c, len, r.handlerRc, r.idAfter, r.lenAfter))] else []
  }

  /** The calls of handle_channel. */
  ghost predicate ChannelCalls(m: State, c: ChannelContext, h: int, ev: Event, r: S.Receive, calls: seq<KernelCall>)
    requires c in m.chanCtx && h in m.chans
  {
    if ev.msg && !ev.error && !ev.ready && m.chanCtx[c].hasMsgHandler
    then HandlesMsg(m.chans[h], m.bufAlloc, c, r, calls)
    else calls == []
  }

  /** The calls of dispatch_event; m is the state after wait_any. */
  ghost predicate Dispatched(m: State, h: int, ev: Event, a: Attempt, r: S.Receive, calls: seq<KernelCall>) {
    if h in m.ports then calls == PortCalls(h, ev, a)
    else if h in m.chans && m.chans[h].cookie.ChanCookie? && m.chans[h].cookie.chan in m.chanCtx
    then ChannelCalls(m, m.chans[h].cookie.chan, h, ev, r, calls)
    else calls == []
  }

  /** The calls of one round are those that its input records, with their answers. */
  ghost predicate Stands(m: State, i: Input, calls: seq<KernelCall>)
    requires i.Wait?
  {
    && calls != [] && calls[0] == Ask(Answer.WaitAny(Some((i.h, i.ev, i.msgId, i.msgLen))))
    && Dispatched(StorageCalls.AfterWait(m, i), i.h, i.ev, i.accept, i.receive, calls[1..])
  }

  /** The calls of ipc_port_create, when the buffer has bufSize bytes. */
  function CreateCalls(bufSize: nat, i: Input): seq<KernelCall>
    requires i.Create?
  {
    OpenCalls(i.handle, i.setCookieOk)
    + if i.handle.Some? && i.setCookieOk then GrowCalls(bufSize, i.maxBuf, i.reallocOk) else []
  }

  function OpenCalls(port: Option<int>, setCookieOk: bool): seq<KernelCall> {
    [Ask(Answer.PortCreate(port))] + if port.None? then [] else [Ask(Answer.SetCookie(port.value, setCookieOk))]
  }

  function GrowCalls(bufSize: nat, size: nat, ok: bool): seq<KernelCall> {
    if size > bufSize then [Ask(Answer.Realloc(size, ok))] else []
  }

  /** A connection on a port, call by call: wait_any, accept, on_connect if there is a
      connection, set_cookie if there is a context; each with the answer that the
      input records. */
  lemma PortRound(m: State, i: Input, calls: seq<KernelCall>)
    requires i.Wait? && Stands(m, i, calls) && i.h in m.ports && i.h !in m.chans
    ensures calls[0] == Ask(Answer.WaitAny(Some((i.h, i.ev, i.msgId, i.msgLen))))
    ensures var a := i.accept;
      var attempt := i.ev.ready && !i.ev.error && !i.ev.hup && !i.ev.msg && !i.ev.sendUnblocked;
      var accepted := attempt && a.chan.Some?;
      && |calls| == 1 + (if attempt then 1 else 0) + (if accepted then 1 else 0)
           + (if accepted && a.ctx.Some? then 1 else 0)
      && (attempt ==> calls[1] == Ask(Answer.Accept(i.h, a.chan)))
      && (accepted ==>
           calls[2] == Ask(Answer.OnConnect(a.chan.value,
                                            if a.ctx.Some? then Some((a.ctx.value, a.hasMsgHandler)) else None)))
      && (accepted && a.ctx.Some? ==> calls[3] == Ask(Answer.SetCookie(a.chan.value, a.setCookieOk)))
  {
    assert calls == [calls[0]] + calls[1..];
  }

  /** An event on a channel: wait_any, and for a MSG on a channel that takes messages
      get_msg; if that succeeds, put_msg, after read_msg unless the message is too long;
      and on_handle_msg exactly for a message that was read completely. */
  lemma ChannelRound(m: State, i: Input, calls: seq<KernelCall>, c: ChannelContext)
    requires i.Wait? && Stands(m, i, calls) && i.h !in m.ports && i.h in m.chans
    requires m.chans[i.h].cookie == S.ChanCookie(c) && c in m.chanCtx
    ensures calls[0] == Ask(Answer.WaitAny(Some((i.h, i.ev, i.msgId, i.msgLen))))
    ensures !i.ev.msg || i.ev.error || i.ev.ready || !m.chanCtx[c].hasMsgHandler ==> |calls| == 1
    ensures i.ev.msg && !i.ev.error && !i.ev.ready && m.chanCtx[c].hasMsgHandler ==>
      var r := i.receive;
      && |calls| > 1 && calls[1].Msg? && calls[1].call.GetMsg?
      && (calls[1].call.rc == NO_ERROR <==> r.getErr >= 0 && i.msgId != 0)
      && if calls[1].call.rc != NO_ERROR then |calls| == 2
         else
           && calls[1].call.id == i.msgId && calls[1].call.len == i.msgLen
           && var put := if i.msgLen > 4096 then 2 else 3;
              && |calls| == put + 1 + (if i.msgLen <= 4096 && i.msgLen <= r.readRc <= m.bufAlloc then 1 else 0)
              && (put == 3 ==> calls[2] == Msg(MsgCall.ReadMsg(i.msgId, [i.msgLen], r.readRc)))
              && calls[put].Msg? && calls[put].call.PutMsg? && calls[put].call.id == i.msgId
              && (|calls| == 5 ==>
                   calls[4] == Ask(Answer.OnHandleMsg(c, i.msgLen, r.handlerRc, r.idAfter, r.lenAfter)))
  {
    var rest := calls[1..];
    assert calls == [calls[0]] + rest;
    if i.ev.msg && !i.ev.error && !i.ev.ready && m.chanCtx[c].hasMsgHandler && rest[0].call.rc == NO_ERROR {
      assert rest == [rest[0]] + rest[1..];
      if i.msgLen <= 4096 {
        assert rest[1..] == [rest[1..][0], rest[1..][1]] + rest[1..][2..];
      }
    }
  }

  /** The creation of a port, call by call: port_create, set_cookie if it gave a handle,
      realloc if the buffer is smaller than this port asks for. */
  lemma CreateRound(bufSize: nat, i: Input)
    requires i.Create?
    ensures var calls := CreateCalls(bufSize, i);
      var got := i.handle.Some?;
      var grows := got && i.setCookieOk && i.maxBuf > bufSize;
      && |calls| == 1 + (if got then 1 else 0) + (if grows then 1 else 0)
      && calls[0] == Ask(Answer.PortCreate(i.handle))
      && (got ==> calls[1] == Ask(Answer.SetCookie(i.handle.value, i.setCookieOk)))
      && (grows ==> calls[2] == Ask(Answer.Realloc(i.maxBuf, i.reallocOk)))
  {
  }

  lemma CreateBalanced(bufSize: nat, i: Input)
    requires i.Create?
    ensures Balanced(CreateCalls(bufSize, i))
  {
    AsksBalanced(CreateCalls(bufSize, i));
  }

  lemma MsgBalanced(slot: S.Slot<PortContext, ChannelContext>, size: nat, c: ChannelContext, r: S.Receive,
                    calls: seq<KernelCall>)
    requires HandlesMsg(slot, size, c, r, calls)
    ensures Balanced(calls)
  {
    if calls[0].call.rc != NO_ERROR {
      TakenIsBalanced(calls);
    } else if slot.msgLen > S.MSG_BUF_MAX_SIZE {
      assert calls[1] == calls[1..][0];
      TakenIsBalanced(calls);
    } else {
      var rest := calls[1..];
      assert rest[0] == calls[1] && rest[1] == calls[2] && rest[2..] == calls[3..];
      TakenIsBalanced(calls[..3]);
      AsksBalanced(calls[3..]);
      BalancedAppend(calls[..3], calls[3..]);
      assert calls == calls[..3] + calls[3..];
    }
  }

  /** In every round the message that was got, if any, is retired once. */
  lemma RoundRetires(m: State, i: Input, calls: seq<KernelCall>)
    requires i.Wait? && Stands(m, i, calls)
    ensures Balanced(calls)
  {
    var rest := calls[1..];
    var m1 := StorageCalls.AfterWait(m, i);
    assert calls == [calls[0]] + rest;
    AsksBalanced([calls[0]]);
    if rest != [] && rest[0].Msg? {
      var c := m1.chans[i.h].cookie.chan;
      MsgBalanced(m1.chans[i.h], m1.bufAlloc, c, i.receive, rest);
    } else {
      AsksBalanced(rest);
    }
    BalancedAppend([calls[0]], rest);
  }

  /** The calls of round k are those of its input, which meets the state that the
      rounds before lead to. */
  ghost predicate StandsAt(m0: State, trace: seq<Input>, rounds: seq<seq<KernelCall>>, k: nat)
    requires k < |trace| == |rounds|
  {
    && trace[k].Wait? && S.Run(m0, trace[..k]).Running?
    && Stands(S.Run(m0, trace[..k]).state, trace[k], rounds[k])
  }

  ghost predicate AllStand(m0: State, trace: seq<Input>, rounds: seq<seq<KernelCall>>) {
    |rounds| == |trace| && forall k :: 0 <= k < |trace| ==> StandsAt(m0, trace, rounds, k)
  }

  lemma AllStandNext(m0: State, trace: seq<Input>, rounds: seq<seq<KernelCall>>, m: State, i: Input,
                     made: seq<KernelCall>)
    requires AllStand(m0, trace, rounds) && S.Run(m0, trace) == S.Running(m) && i.Wait? && Stands(m, i, made)
    ensures AllStand(m0, trace + [i], rounds + [made])
  {
    forall k | 0 <= k < |trace| + 1
      ensures StandsAt(m0, trace + [i], rounds + [made], k)
    {
      assert (trace + [i])[..k] == trace[..k];
      if k < |trace| {
        assert StandsAt(m0, trace, rounds, k);
      } else {
        assert trace[..k] == trace;
      }
    }
  }

  /** What a loop from state m0 has done: one input for each event of wait_any, in
      order, with the calls it stands for. */
  ghost predicate LoopDid(m0: State, trace: seq<Input>, calls: seq<seq<KernelCall>>, o: Outcome) {
    S.AllowedRun(m0, trace) && S.Run(m0, trace) == o && AllStand(m0, trace, calls)
  }

  /** The wait_any that ends a loop, if one did. */
  function LastWait(failed: bool): seq<KernelCall> {
    if failed then [Ask(Answer.WaitAny(None))] else []
  }

  lemma NothingDid(m0: State, log0: seq<KernelCall>)
    ensures LoopDid(m0, [], [], S.Running(m0))
    ensures log0 == log0 + CallLog.Concat([]) + LastWait(false)
  {
  }

  lemma NextLooped(m0: State, log0: seq<KernelCall>, trace: seq<Input>, calls: seq<seq<KernelCall>>, m: State,
                   i: Input, made: seq<KernelCall>, o: Outcome, t: State)
    requires LoopDid(m0, trace, calls, S.Running(m)) && StorageProofs.Inv(m)
    requires i.Wait? && S.Allowed(m, i) && S.Step(m, i) == o && Stands(m, i, made)
    ensures LoopDid(m0, trace + [i], calls + [made], o)
    ensures o == S.Running(t) ==> StorageProofs.Inv(t)
    ensures (log0 + CallLog.Concat(calls)) + made == log0 + CallLog.Concat(calls + [made]) + LastWait(false)
  {
    StorageProofs.RunExtend(m0, trace, i);
    StorageProofs.StepInv(m, i);
    AllStandNext(m0, trace, calls, m, i, made);
    CallLog.ConcatLast(calls, made);
    CallLog.Associative(log0, CallLog.Concat(calls), made);
  }

  lemma LoopRetires(m0: State, log0: seq<KernelCall>, trace: seq<Input>, calls: seq<seq<KernelCall>>,
                    failed: bool, log: seq<KernelCall>)
    requires AllStand(m0, trace, calls) && Balanced(log0)
    requires log == log0 + CallLog.Concat(calls) + LastWait(failed)
    ensures Balanced(log)
  {
    forall k | 0 <= k < |calls|
      ensures Balanced(calls[k])
    {
      assert StandsAt(m0, trace, calls, k);
      RoundRetires(S.Run(m0, trace[..k]).state, trace[k], calls[k]);
    }
    ConcatBalanced(calls);
    BalancedAppend(log0, CallLog.Concat(calls));
    AsksBalanced(LastWait(failed));
    BalancedAppend(log0 + CallLog.Concat(calls), LastWait(failed));
  }

  /** m is m0 with the port p open on h, and a buffer of at least maxBuf bytes. */
  ghost predicate Created(m0: State, m: State, p: PortContext, h: int, maxBuf: nat) {
    && h !in m0.ports && h !in m0.chans
    && m.ports == m0.ports[h := S.PortCookie(p)]
    && m.portCtx == m0.portCtx[p := S.PortContext(S.HandlePort, h, [])]
    && m.chans == m0.chans && m.chanCtx == m0.chanCtx && m.sessions == m0.sessions && m.delivered == m0.delivered
    && m.bufSize == m.bufAlloc == Max(m0.bufSize, maxBuf) && m.grows == m0.grows + [maxBuf]
  }

  lemma CreateSucceeds(m: State, i: Input)
    requires m.bufAlloc == m.bufSize && i.Create? && S.Allowed(m, i)
    requires i.handle.Some? && i.setCookieOk && (i.maxBuf <= m.bufSize || i.reallocOk)
    ensures S.Step(m, i).Running?
    ensures Created(m, S.Step(m, i).state, i.p, i.handle.value, i.maxBuf)
  {
  }

  lemma Rebound<K, V>(m: map<K, V>, k: K, u: V, v: V)
    ensures m[k := u][k := v] == m[k := v]
  {
  }

  // ---- what the invariant gives a handler ----

  /** The connection of c on h can be ended. */
  ghost predicate CanHandle(m: State, c: ChannelContext, h: int) {
    && c in m.chanCtx && m.chanCtx[c].handle == h && m.chanCtx[c].handler == S.HandleChannel
    && h in m.chans && h !in m.ports
    && m.chanCtx[c].link.Some? && m.chanCtx[c].link.value in m.portCtx
  }

  lemma CanDisconnect(m: State, c: ChannelContext, h: int)
    requires CanHandle(m, c, h)
    ensures S.DoDisconnect(m, c, h).Running?
  {
    StorageProofs.DisconnectIs(m, c, h, m.chanCtx[c].link.value);
  }

  /** The cookie of h is the context of h, of the right kind. */
  ghost predicate CanDispatch(m: State, h: int) {
    if h in m.ports then
      m.ports[h].PortCookie? && m.ports[h].port in m.portCtx
      && m.portCtx[m.ports[h].port].handle == h && m.portCtx[m.ports[h].port].handler == S.HandlePort
    else
      h in m.chans && m.chans[h].cookie.ChanCookie? && CanHandle(m, m.chans[h].cookie.chan, h)
  }

  lemma InvCanDispatch(m: State, h: int)
    requires StorageProofs.Inv(m) && (h in m.ports || h in m.chans)
    ensures CanDispatch(m, h)
  {
    if h in m.chans {
      var c := m.chans[h].cookie.chan;
      assert h !in m.ports && m.chanCtx[c].handler == S.HandleChannel;
      StorageProofs.LiveContext(m, c, {});
    }
  }

  /** do_handle_msg leaves the connection as it is. */
  lemma StillHandles(m: State, c: ChannelContext, h: int, r: S.Receive)
    requires CanHandle(m, c, h) && S.DoHandleMsg(m, c, h, r).Running?
    ensures CanHandle(S.DoHandleMsg(m, c, h, r).state.0, c, h)
  {
  }

  /** The connection of c on h ends, or nothing happens. */
  ghost function EndedIf(m: State, c: ChannelContext, h: int, end: bool): Outcome {
    if end then S.DoDisconnect(m, c, h) else S.Running(m)
  }

  /** handle_channel after do_handle_msg, which had the outcome o. */
  ghost function AfterMessage(o: S.Outcome<(State, int)>, c: ChannelContext, h: int, hup: bool): Outcome {
    if !o.Running? then S.Fault(S.BufferOverrun) else EndedIf(o.state.0, c, h, o.state.1 < 0 || hup)
  }

  lemma MessageTaken(m: State, c: ChannelContext, h: int, hup: bool, r: S.Receive, o: S.Outcome<(State, int)>)
    requires c in m.chanCtx && m.chanCtx[c].hasMsgHandler
    requires S.DoHandleMsg(m, c, h, r) == o && (o.Running? || o == S.Fault(S.BufferOverrun))
    ensures S.HandleMessageEvent(m, c, h, hup, r) == AfterMessage(o, c, h, hup)
  {
  }

  class Server {
    const table: FlatTable.HandleTable<Ctx>
    var msgBuf: array?<bv8>
    var msgBufSize: nat
    /** abort() was called. */
    var aborted: bool
    /** read_msg stored more than msg_buf holds; the check stands for the memory
        safety of the C code. */
    var overrun: bool
    ghost var model: State
    /** The calls made, with their answers. */
    ghost var log: seq<KernelCall>

    /** What happened, as an outcome of the specification. */
    ghost function Result(): Outcome
      reads this
    {
      if overrun then S.Fault(S.BufferOverrun) else if aborted then S.Aborted else S.Running(model)
    }

    /** The objects, the table and the buffer are in the state that `model` describes. */
    ghost predicate Coupled()
      reads this, table, table.ports, table.chans, model.portCtx.Keys, model.chanCtx.Keys
    {
      && table.Valid()
      && TableMatches(model, table.View())
      && (forall p :: p in model.portCtx ==> SamePort(p, model.portCtx[p]))
      && (forall c :: c in model.chanCtx ==> SameChannel(c, model.chanCtx[c]))
      && msgBufSize == model.bufSize
      && model.bufAlloc == (if msgBuf == null then 0 else msgBuf.Length)
      && msgBuf as object? != table.ports && msgBuf as object? != table.chans
    }

    ghost predicate Valid()
      reads this, table, table.ports, table.chans, model.portCtx.Keys, model.chanCtx.Keys
    {
      Coupled() && StorageProofs.Inv(model)
    }

    constructor (layout: Layout)
      requires layout.Valid() && layout.portMax < TWO_32 && layout.chanMax - layout.chanMin + 1 < TWO_32
      ensures Valid() && Result() == S.Running(S.Init()) && msgBuf == null && log == []
      ensures fresh(table) && fresh(table.ports) && fresh(table.chans)
    {
      table := new FlatTable.HandleTable(layout, S.NullCookie);
      msgBuf, msgBufSize, aborted, overrun := null, 0, false, false;
      model, log := S.Init(), [];
      new;
      FlatProofs.NoneActive(table.View());
      StorageProofs.InitInv<int, PortContext, ChannelContext>();
    }

    // ---- kernel calls ----

    /** close */
    method Close(h: int)
      requires Coupled() && (h in model.ports || h in model.chans)
      modifies this`model, table, table.ports, table.chans
      ensures Coupled() && S.Close(old(model), h) == S.Running(model)
      ensures model.portCtx.Keys == old(model).portCtx.Keys
      ensures model.chanCtx == old(model).chanCtx
    {
      ClosedMatches(model, table.View(), h);
      var rc := SysClose(table, h);
      model := S.Close(model, h).state;
    }

    /** set_cookie may fail; the flat table's never does. */
    method SetChanCookie(h: int, c: ChannelContext) returns (rc: int)
      requires Coupled() && h in model.chans
      modifies this`model, this`log, table.ports, table.chans
      ensures Coupled() && log == old(log) + [Ask(Answer.SetCookie(h, rc >= 0))]
      ensures model == if rc < 0 then old(model) else S.SetChanCookie(old(model), h, c)
    {
      rc := *;
      if rc >= 0 {
        ChanCookieMatches(model, table.View(), h, c);
        rc := SysSetCookie(table, h, S.ChanCookie(c));
        model := S.SetChanCookie(model, h, c);
      }
      log := log + [Ask(Answer.SetCookie(h, rc >= 0))];
    }

    method GetMsg(h: int) returns (rc: int, id: nat, len: nat)
      requires Coupled() && h in model.chans
      modifies this`log
      ensures Coupled() && log == old(log) + [Msg(MsgCall.GetMsg(rc, id, len))]
      ensures exists err: int {:trigger S.GetMsg(model.chans[h], err)} :: rc == S.GetMsg(model.chans[h], err)
      ensures rc == NO_ERROR ==> id == model.chans[h].msgId && len == model.chans[h].msgLen
    {
      ghost var err;
      rc, id, len, err := SysGetMsg(table, h);
      log := log + [Msg(MsgCall.GetMsg(rc, id, len))];
      assert rc == S.GetMsg(model.chans[h], err);
    }

    method PutMsg(h: int, id: nat) returns (rc: int)
      requires Coupled()
      modifies this`model, this`log, table.chans
      ensures Coupled() && log == old(log) + [Msg(MsgCall.PutMsg(id, rc))]
      ensures model == S.PutMsg(old(model), h, rc >= NO_ERROR)
    {
      PutMsgMatches(model, table.View(), h);
      ghost var err;
      rc, err := SysPutMsg(table, h, id);
      log := log + [Msg(MsgCall.PutMsg(id, rc))];
      model := S.PutMsg(model, h, rc >= NO_ERROR);
    }

    /** read_msg at offset 0 into msg_buf, which is said to have len bytes. It may also
        fail, or store fewer bytes than that. */
    method ReadMsg(h: int, id: nat, len: nat) returns (rc: int)
      requires Coupled() && !overrun && len < TWO_63
      modifies this`log, this`overrun, msgBuf
      ensures Coupled() && log == old(log) + [Msg(MsgCall.ReadMsg(id, [len], rc))]
      ensures rc <= len && (overrun <==> rc > model.bufAlloc)
      ensures !overrun && msgBuf != null ==> forall k :: len <= k < msgBuf.Length ==> msgBuf[k] == old(msgBuf[k])
    {
      if * {
        rc :| rc < NO_ERROR;
      } else {
        var n: nat :| n <= len;
        var fits;
        rc, fits := SysReadMsgInto(table, h, id, msgBuf, n);
        StoredCount(table.View(), h, id, n);
        overrun := !fits;
      }
      log := log + [Msg(MsgCall.ReadMsg(id, [len], rc))];
    }

    // ---- lists ----

    method RemoveFromList(p: PortContext, c: ChannelContext)
      requires Coupled() && p in model.portCtx
      modifies this`model, p
      ensures Coupled()
      ensures model == old(model).(portCtx := old(model).portCtx[p :=
        old(model).portCtx[p].(channels := S.Without(old(model).portCtx[p].channels, c))])
    {
      p.channels := S.Without(p.channels, c);
      model := model.(portCtx := model.portCtx[p :=
        model.portCtx[p].(channels := S.Without(model.portCtx[p].channels, c))]);
    }

    method SetLink(c: ChannelContext, p: PortContext?)
      requires Coupled() && c in model.chanCtx
      modifies this`model, c
      ensures Coupled()
      ensures model == old(model).(chanCtx := old(model).chanCtx[c :=
        old(model).chanCtx[c].(link := if p == null then None else Some(p))])
    {
      c.list := p;
      model := model.(chanCtx := model.chanCtx[c := model.chanCtx[c].(link := if p == null then None else Some(p))]);
    }

    /** list_delete */
    method ListDelete(c: ChannelContext)
      requires Coupled() && S.ListDelete(model, c).Running?
      requires c in model.chanCtx && c.list != null && c.list in model.portCtx
      modifies this`model, c, c.list
      ensures Coupled() && S.ListDelete(old(model), c) == S.Running(model)
      ensures model.chanCtx.Keys == old(model).chanCtx.Keys
      ensures model.portCtx.Keys == old(model).portCtx.Keys
    {
      RemoveFromList(c.list, c);
      SetLink(c, null);
    }

    /** list_add_tail */
    method ListAddTail(p: PortContext, c: ChannelContext)
      requires Coupled() && p in model.portCtx && c in model.chanCtx
      modifies this`model, p, c
      ensures Coupled() && S.AddTail(old(model), p, c) == S.Running(model)
      ensures model.portCtx.Keys == old(model).portCtx.Keys
    {
      p.channels := p.channels + [c];
      model := model.(portCtx := model.portCtx[p := model.portCtx[p].(channels := model.portCtx[p].channels + [c])]);
      SetLink(c, p);
    }

    // ---- ipc.c ----

    /** on_disconnect: the application is done with the context, which is not used again. */
    method OnDisconnect(c: ChannelContext)
      requires Coupled() && c in model.chanCtx
      modifies this`model, c
      ensures Coupled() && model == S.Disconnected(old(model), c)
      ensures model.portCtx.Keys == old(model).portCtx.Keys
      ensures model.chanCtx.Keys <= old(model).chanCtx.Keys
    {
      c.list := null;
      model := S.Disconnected(model, c);
    }

    /** do_disconnect */
    method DoDisconnect(c: ChannelContext, h: int)
      requires Coupled() && S.DoDisconnect(model, c, h).Running?
      modifies this`model, table, table.ports, table.chans, model.portCtx.Keys, c
      ensures Coupled() && S.DoDisconnect(old(model), c, h) == S.Running(model)
      ensures model.portCtx.Keys == old(model).portCtx.Keys
      ensures model.chanCtx.Keys <= old(model).chanCtx.Keys
    {
      ListDelete(c);
      OnDisconnect(c);
      Close(h);
    }

    /** accept may fail; it succeeds only when the table has a free slot. */
    method AcceptConnection(ghost p: PortContext, port: int)
      returns (ch: int, ghost stale: S.Slot<PortContext, ChannelContext>)
      requires Coupled()
      modifies this`model, this`log, table, table.chans
      ensures Coupled()
      ensures log == old(log) + [Ask(Answer.Accept(port, if ch == INVALID_IPC_HANDLE then None else Some(ch)))]
      ensures if ch == INVALID_IPC_HANDLE then model == old(model)
              else ch !in old(model).ports && ch !in old(model).chans
                   && model == S.Accepted(old(model), p, ch, stale)
    {
      ch, stale := INVALID_IPC_HANDLE, S.Slot(S.NullCookie, 0, 0, 0);
      if * {
        ghost var t := table.View();
        FlatProofs.NewChannelIsFirstFit(t);
        var peer: Uuid := *;
        ch, peer := SysAccept(table, port, peer);
        if ch != INVALID_IPC_HANDLE {
          stale := S.Slot(t.Chan(ch).cookie, t.Chan(ch).msgId, t.Chan(ch).msgLen, 0);
          AcceptedMatches(model, t, p, stale);
          model := S.Accepted(model, p, ch, stale);
        }
      }
      log := log + [Ask(Answer.Accept(port, if ch == INVALID_IPC_HANDLE then None else Some(ch)))];
    }

    /** on_connect gives no context, or a fresh one. */
    method OnConnect(ch: int) returns (c: ChannelContext?)
      modifies this`log
      ensures c != null ==> fresh(c) && c.list == null
      ensures log == old(log) + [Ask(Answer.OnConnect(ch, Given(c)))]
    {
      c := null;
      if * {
        var hasMsgHandler: bool := *;
        c := new ChannelContext(hasMsgHandler);
      }
      log := log + [Ask(Answer.OnConnect(ch, Given(c)))];
    }

    /** The handler and handle of a new context are filled in. */
    method FillIn(c: ChannelContext, ch: int)
      requires Coupled() && |model.sessions| > 0 && c !in model.chanCtx && c.list == null
      modifies this`model, c
      ensures Coupled() && c.hasMsgHandler == old(c.hasMsgHandler)
      ensures model == S.Connected(old(model), ch, c, c.hasMsgHandler)
    {
      c.handler := S.HandleChannel;
      c.handle := ch;
      model := S.Connected(model, ch, c, c.hasMsgHandler);
    }

    /** on_connect, and what becomes of the context it gives, if any. */
    method Greet(ch: int) returns (c: ChannelContext?)
      requires Coupled() && |model.sessions| > 0
      modifies this`model, this`log
      ensures Coupled() && log == old(log) + [Ask(Answer.OnConnect(ch, Given(c)))]
      ensures c != null ==> fresh(c) && c !in old(model).chanCtx
      ensures model == if c == null then old(model) else S.Connected(old(model), ch, c, c.hasMsgHandler)
    {
      c := OnConnect(ch);
      if c != null {
        FillIn(c, ch);
      }
    }

    /** The end of a new connection whose cookie could not be set. */
    method Refuse(ch: int, c: ChannelContext)
      requires Coupled() && c in model.chanCtx && (ch in model.ports || ch in model.chans)
      modifies this`model, table, table.ports, table.chans, c
      ensures Coupled() && S.Close(S.Disconnected(old(model), c), ch) == S.Running(model)
      ensures model.portCtx.Keys == old(model).portCtx.Keys
      ensures model.chanCtx.Keys <= old(model).chanCtx.Keys
    {
      OnDisconnect(c);
      Close(ch);
    }

    method Establish(p: PortContext, ch: int, c: ChannelContext) returns (rc: int)
      requires Coupled() && p in model.portCtx && c in model.chanCtx && ch in model.chans && ch !in model.ports
      modifies this`model, this`log, table, table.ports, table.chans, p, c
      ensures Coupled() && S.Establish(old(model), p, ch, c, rc >= 0) == S.Running(model)
      ensures log == old(log) + [Ask(Answer.SetCookie(ch, rc >= 0))]
      ensures model.portCtx.Keys == old(model).portCtx.Keys
      ensures model.chanCtx.Keys <= old(model).chanCtx.Keys
    {
      rc := SetChanCookie(ch, c);
      if rc < 0 {
        Refuse(ch, c);
        return;
      }
      ListAddTail(p, c);
      rc := NO_ERROR;
    }

    method Welcome(p: PortContext, ch: int, ghost a0: Attempt)
      returns (rc: int, ghost a: Attempt)
      requires Coupled() && p in model.portCtx && ch in model.chans && ch !in model.ports && |model.sessions| > 0
      modifies this`model, this`log, table, table.ports, table.chans, p
      ensures Coupled() && S.Welcome(old(model), p, ch, a) == S.Running(model)
      ensures log == old(log) + WelcomeCalls(ch, a)
      ensures model.portCtx.Keys == old(model).portCtx.Keys
      ensures a.chan == a0.chan && a.stale == a0.stale
      ensures a.ctx.Some? ==> fresh(a.ctx.value) && a.ctx.value !in old(model).chanCtx
      ensures forall c :: c in model.chanCtx ==> c in old(model).chanCtx || fresh(c)
    {
      a := a0.(ctx := None);
      var c := Greet(ch);
      if c == null {
        rc := ERR_GENERIC;
        Close(ch);
        assert WelcomeCalls(ch, a) == [Ask(Answer.OnConnect(ch, None))];
        return;
      }
      a := a0.(ctx := Some(c), hasMsgHandler := c.hasMsgHandler);
      rc := Establish(p, ch, c);
      a := a.(setCookieOk := rc >= 0);
      CallLog.Associative(old(log), [Ask(Answer.OnConnect(ch, Some((c, a.hasMsgHandler))))],
                          [Ask(Answer.SetCookie(ch, a.setCookieOk))]);
    }

    /** do_connect */
    method DoConnect(p: PortContext, ev: Event) returns (rc: int, ghost a: Attempt)
      requires Coupled() && p in model.portCtx
      modifies this`model, this`log, table, table.ports, table.chans, p
      ensures Coupled() && S.DoConnect(old(model), p, ev, a) == S.Running(model)
      ensures log == old(log) + if ev.ready then ConnectCalls(old(p.handle), a) else []
      ensures model.portCtx.Keys == old(model).portCtx.Keys
      ensures a.chan.Some? ==> a.chan.value !in old(model).ports && a.chan.value !in old(model).chans
      ensures a.ctx.Some? ==> fresh(a.ctx.value) && a.ctx.value !in old(model).chanCtx
      ensures forall c :: c in model.chanCtx ==> c in old(model).chanCtx || fresh(c)
    {
      a := S.Accept(None, S.Slot(S.NullCookie, 0, 0, 0), None, false, false);
      rc := NO_ERROR;
      if ev.ready {
        var ch, stale := AcceptConnection(p, p.handle);
        if ch == INVALID_IPC_HANDLE {
          rc := *;    // rc is returned before it is set
          assert ConnectCalls(old(p.handle), a) == [Ask(Answer.Accept(old(p.handle), None))];
          return;
        }
        rc, a := Welcome(p, ch, a.(chan := Some(ch), stale := stale));
        CallLog.Associative(old(log), [Ask(Answer.Accept(old(p.handle), Some(ch)))], WelcomeCalls(ch, a));
      } else {
        assert old(log) + [] == old(log);
      }
    }

    /** on_handle_msg: gets the message, returns anything, may leave any message pending. */
    method OnHandleMsg(c: ChannelContext, h: int, len: nat, ghost read: int)
      returns (rc: int, ghost idAfter: nat, ghost lenAfter: nat)
      requires Coupled() && c in model.chanCtx
      modifies this`model, this`log, table.chans
      ensures Coupled() && log == old(log) + [Ask(Answer.OnHandleMsg(c, len, rc, idAfter, lenAfter))]
      ensures var d := S.Delivery(old(model).chanCtx[c].sid, len, read);
        model == S.NewMsg(old(model).(delivered := old(model).delivered + [d]), h, idAfter, lenAfter)
    {
      var id: nat, n: nat := *, *;
      rc, idAfter, lenAfter := *, id, n;
      model := model.(delivered := model.delivered + [S.Delivery(model.chanCtx[c].sid, len, read)]);
      NewMsgMatches(model, table.View(), h, id, n);
      table.NewMsg(h, id, n);
      model := S.NewMsg(model, h, id, n);
      log := log + [Ask(Answer.OnHandleMsg(c, len, rc, idAfter, lenAfter))];
    }

    /** read_msg, and put_msg whatever it returned. */
    method ReadAndPut(h: int, id: nat, len: nat) returns (rc: int, put: int, ghost calls: seq<KernelCall>)
      requires Coupled() && !overrun && len < TWO_63
      modifies this`model, this`log, this`overrun, table.chans, msgBuf
      ensures Coupled() && model == S.PutMsg(old(model), h, put >= NO_ERROR)
      ensures rc <= len && (overrun <==> rc > model.bufAlloc)
      ensures log == old(log) + calls
      ensures calls == [Msg(MsgCall.ReadMsg(id, [len], rc)), Msg(MsgCall.PutMsg(id, put))]
    {
      rc := ReadMsg(h, id, len);
      put := PutMsg(h, id);
      var x, y := Msg(MsgCall.ReadMsg(id, [len], rc)), Msg(MsgCall.PutMsg(id, put));
      CallLog.Associative(old(log), [x], [y]);
      calls := [x] + [y];
    }

    /** What do_handle_msg did, as an outcome of the specification. */
    ghost function Handled(rc: int): S.Outcome<(State, int)>
      reads this
    {
      if overrun then S.Fault(S.BufferOverrun) else S.Running((model, rc))
    }

    /** do_handle_msg after put_msg; read is what read_msg returned. */
    method HandleIfWhole(c: ChannelContext, h: int, len: nat, read: int, ghost r0: S.Receive)
      returns (rc: int, ghost r: S.Receive, ghost last: seq<KernelCall>)
      requires Coupled() && c in model.chanCtx
      modifies this`model, this`log, table.chans
      ensures Coupled() && log == old(log) + last
      ensures r == r0.(handlerRc := r.handlerRc, idAfter := r.idAfter, lenAfter := r.lenAfter)
      ensures model.portCtx == old(model).portCtx && model.chanCtx == old(model).chanCtx
      ensures if read < len then last == [] && rc == (if read < 0 then read else ERR_NOT_VALID) && model == old(model)
              else
                && last == [Ask(Answer.OnHandleMsg(c, len, rc, r.idAfter, r.lenAfter))] && rc == r.handlerRc
                && var d := S.Delivery(old(model).chanCtx[c].sid, len, read);
                   model == S.NewMsg(old(model).(delivered := old(model).delivered + [d]), h, r.idAfter, r.lenAfter)
    {
      r, last := r0, [];
      if read < len {
        rc := if read < 0 then read else ERR_NOT_VALID;
        assert old(log) + [] == old(log);
        return;
      }
      ghost var idAfter, lenAfter;
      rc, idAfter, lenAfter := OnHandleMsg(c, h, len, read);
      r := r0.(handlerRc := rc, idAfter := idAfter, lenAfter := lenAfter);
      last := [Ask(Answer.OnHandleMsg(c, len, rc, idAfter, lenAfter))];
    }

    /** do_handle_msg from read_msg on. After an overrun there is nothing left to say
        but that the message is retired all the same. */
    method ReadAndHandle(c: ChannelContext, h: int, id: nat, len: nat, ghost getErr: int)
      returns (rc: int, ghost r: S.Receive, ghost calls: seq<KernelCall>)
      requires Coupled() && !overrun && c in model.chanCtx && len < TWO_63
      modifies this`model, this`log, this`overrun, table.chans, msgBuf
      ensures Coupled() && S.ReadAndHandle(old(model), c, h, len, r) == Handled(rc)
      ensures log == old(log) + calls && ReadsMsg(id, len, old(model).bufAlloc, c, r, calls)
      ensures r.readRc <= len && r.getErr == getErr
      ensures model.portCtx == old(model).portCtx && model.chanCtx == old(model).chanCtx
    {
      var put;
      rc, put, calls := ReadAndPut(h, id, len);
      r := S.Receive(getErr, rc, put >= NO_ERROR, 0, 0, 0);
      assert calls[2..] == [];
      if !overrun {
        ghost var last;
        assert model == S.PutMsg(old(model), h, r.putOk) && r.readRc <= old(model).bufAlloc;
        rc, r, last := HandleIfWhole(c, h, len, rc, r);
        CallLog.Associative(old(log), calls, last);
        calls := calls + last;
        assert calls[2..] == last;
      }
    }

    /** do_handle_msg. The length is compared with 4096, not with the size of the
        buffer. A message that get_msg announced is retired once, whether it is read
        or too long. */
    method DoHandleMsg(c: ChannelContext, h: int) returns (rc: int, ghost r: S.Receive, ghost calls: seq<KernelCall>)
      requires Coupled() && !overrun && c in model.chanCtx && h in model.chans
      modifies this`model, this`log, this`overrun, table.chans, msgBuf
      ensures Coupled() && S.DoHandleMsg(old(model), c, h, r) == Handled(rc)
      ensures log == old(log) + calls && HandlesMsg(old(model).chans[h], old(model).bufAlloc, c, r, calls)
      ensures r.readRc <= old(model).chans[h].msgLen
      ensures model.portCtx == old(model).portCtx && model.chanCtx == old(model).chanCtx
    {
      r := S.Receive(0, 0, false, 0, 0, 0);
      var id, len;
      rc, id, len := GetMsg(h);
      calls := [Msg(MsgCall.GetMsg(rc, id, len))];
      ghost var err :| rc == S.GetMsg(model.chans[h], err);
      r := r.(getErr := err);
      if rc == ERR_NO_MSG {
        rc := NO_ERROR;
        return;
      }
      if rc != NO_ERROR {
        return;
      }
      ghost var more;
      if len > S.MSG_BUF_MAX_SIZE {
        var put := PutMsg(h, id);
        rc, r, more := ERR_NOT_ENOUGH_BUFFER, r.(putOk := put >= NO_ERROR), [Msg(MsgCall.PutMsg(id, put))];
      } else {
        rc, r, more := ReadAndHandle(c, h, id, len, err);
      }
      CallLog.Associative(old(log), calls, more);
      calls := calls + more;
      assert calls[1..] == more;
    }

    method EndIf(c: ChannelContext, h: int, end: bool)
      requires Coupled() && CanHandle(model, c, h)
      modifies this`model, table, table.ports, table.chans, model.portCtx.Keys, c
      ensures Coupled() && EndedIf(old(model), c, h, end) == S.Running(model)
      ensures model.portCtx.Keys == old(model).portCtx.Keys
      ensures model.chanCtx.Keys <= old(model).chanCtx.Keys
    {
      if end {
        CanDisconnect(model, c, h);
        DoDisconnect(c, h);
      }
    }

    /** handle_channel after do_handle_msg, which had the outcome o. */
    method EndAfter(c: ChannelContext, h: int, rc: int, hup: bool, ghost o: S.Outcome<(State, int)>)
      requires Coupled() && !aborted
      requires if overrun then o == S.Fault(S.BufferOverrun) else o == S.Running((model, rc)) && CanHandle(model, c, h)
      modifies this`model, table, table.ports, table.chans, model.portCtx.Keys, c
      ensures Coupled() && AfterMessage(o, c, h, hup) == Result()
      ensures model.portCtx.Keys == old(model).portCtx.Keys
      ensures model.chanCtx.Keys <= old(model).chanCtx.Keys
    {
      if !overrun {
        EndIf(c, h, rc < 0 || hup);
      }
    }

    /** handle_channel, for an event with MSG on a channel that takes messages; o is
        what do_handle_msg did. */
    method HandleMessage(c: ChannelContext, h: int, hup: bool)
      returns (ghost r: S.Receive, ghost o: S.Outcome<(State, int)>, ghost calls: seq<KernelCall>)
      requires Coupled() && !aborted && !overrun && CanHandle(model, c, h)
      modifies this`model, this`log, this`overrun, table, table.ports, table.chans, model.portCtx.Keys, c, msgBuf
      ensures Coupled() && model.chanCtx.Keys <= old(model).chanCtx.Keys
      ensures S.DoHandleMsg(old(model), c, h, r) == o && (o.Running? || o == S.Fault(S.BufferOverrun))
      ensures AfterMessage(o, c, h, hup) == Result()
      ensures log == old(log) + calls && HandlesMsg(old(model).chans[h], old(model).bufAlloc, c, r, calls)
      ensures model.portCtx.Keys == old(model).portCtx.Keys
      ensures r.readRc <= old(model).chans[h].msgLen
    {
      var rc;
      rc, r, calls := DoHandleMsg(c, h);
      o := Handled(rc);
      if !overrun {
        StillHandles(old(model), c, h, r);
      }
      EndAfter(c, h, rc, hup, o);
    }

    /** handle_channel, for any event with MSG. */
    method HandleMessageEvent(c: ChannelContext, h: int, hup: bool)
      returns (ghost r: S.Receive, ghost calls: seq<KernelCall>)
      requires Coupled() && !aborted && !overrun && CanHandle(model, c, h)
      modifies this`model, this`log, this`overrun, table, table.ports, table.chans, model.portCtx.Keys, c, msgBuf
      ensures Coupled() && model.chanCtx.Keys <= old(model).chanCtx.Keys
      ensures S.HandleMessageEvent(old(model), c, h, hup, r) == Result()
      ensures log == old(log) + calls
      ensures if old(model).chanCtx[c].hasMsgHandler
              then HandlesMsg(old(model).chans[h], old(model).bufAlloc, c, r, calls) else calls == []
      ensures model.portCtx.Keys == old(model).portCtx.Keys
      ensures r.readRc <= old(model).chans[h].msgLen
    {
      r, calls := S.Receive(0, 0, false, 0, 0, 0), [];
      if c.hasMsgHandler {
        ghost var o;
        r, o, calls := HandleMessage(c, h, hup);
        MessageTaken(old(model), c, h, hup, r, o);
      } else {
        EndIf(c, h, true);
      }
    }

    /** handle_channel */
    method HandleChannel(c: ChannelContext, h: int, ev: Event)
      returns (ghost r: S.Receive, ghost calls: seq<KernelCall>)
      requires Coupled() && !aborted && !overrun && CanHandle(model, c, h)
      modifies this`model, this`log, this`aborted, this`overrun, table, table.ports, table.chans, model.portCtx.Keys, c,
               msgBuf
      ensures Coupled()
      ensures S.HandleChannelEvent(old(model), c, h, ev, r) == Result()
      ensures log == old(log) + calls && ChannelCalls(old(model), c, h, ev, r, calls)
      ensures model.portCtx.Keys == old(model).portCtx.Keys
      ensures forall d :: d in model.chanCtx ==> d in old(model).chanCtx
      ensures r.readRc <= old(model).chans[h].msgLen
    {
      r, calls := S.Receive(0, 0, false, 0, 0, 0), [];
      if ev.error || ev.ready {
        aborted := true;
      } else if ev.msg {
        r, calls := HandleMessageEvent(c, h, ev.hup);
      } else {
        EndIf(c, h, ev.hup);
      }
    }

    /** handle_port; what do_connect returns is ignored. */
    method HandlePort(p: PortContext, ev: Event) returns (ghost a: Attempt)
      requires Coupled() && !aborted && !overrun && p in model.portCtx
      modifies this`model, this`log, this`aborted, table, table.ports, table.chans, p
      ensures Coupled()
      ensures S.HandlePortEvent(old(model), p, ev, a) == Result()
      ensures log == old(log) + PortCalls(old(p.handle), ev, a)
      ensures model.portCtx.Keys == old(model).portCtx.Keys
      ensures a.chan.Some? ==> a.chan.value !in old(model).ports && a.chan.value !in old(model).chans
      ensures a.ctx.Some? ==> fresh(a.ctx.value) && a.ctx.value !in old(model).chanCtx
      ensures forall c :: c in model.chanCtx ==> c in old(model).chanCtx || fresh(c)
    {
      if ev.error || ev.hup || ev.msg || ev.sendUnblocked {
        aborted := true;
        a := S.Accept(None, S.Slot(S.NullCookie, 0, 0, 0), None, false, false);
        assert old(log) + [] == old(log);
        return;
      }
      var rc;
      rc, a := DoConnect(p, ev);
    }

    /** dispatch_event, with the assertions it makes. */
    method DispatchEvent(h: int, ev: Event, cookie: Ctx)
      returns (ghost a: Attempt, ghost r: S.Receive, ghost calls: seq<KernelCall>)
      requires Coupled() && !aborted && !overrun && CanDispatch(model, h)
      requires cookie == S.CookieOf(model, h)
      modifies this`model, this`log, this`aborted, this`overrun, table, table.ports, table.chans,
               model.portCtx.Keys, model.chanCtx.Keys, msgBuf
      ensures Coupled()
      ensures S.DispatchEvent(old(model), h, ev, a, r) == Result()
      ensures log == old(log) + calls && Dispatched(old(model), h, ev, a, r, calls)
      ensures model.portCtx.Keys == old(model).portCtx.Keys
      ensures a.chan.Some? ==> a.chan.value !in old(model).ports && a.chan.value !in old(model).chans
      ensures a.ctx.Some? ==> fresh(a.ctx.value) && a.ctx.value !in old(model).chanCtx
      ensures forall c :: c in model.chanCtx ==> c in old(model).chanCtx || fresh(c)
      ensures r.readRc <= if h in old(model).chans then old(model).chans[h].msgLen else 0
    {
      a := S.Accept(None, S.Slot(S.NullCookie, 0, 0, 0), None, false, false);
      r, calls := S.Receive(0, 0, false, 0, 0, 0), [];
      if ev.IsNone() {
        return;
      }
      assert cookie != S.NullCookie;
      if cookie.PortCookie? {
        var p := cookie.port;
        assert p in model.portCtx && p.handler == S.HandlePort && p.handle == h;
        a := HandlePort(p, ev);
        calls := PortCalls(h, ev, a);
        StorageProofs.DispatchesPort(old(model), p, h, ev, a, r);
      } else {
        var c := cookie.chan;
        assert c in model.chanCtx && c.handler == S.HandleChannel && c.handle == h;
        r, calls := HandleChannel(c, h, ev);
        StorageProofs.DispatchesChannel(old(model), c, h, ev, a, r);
      }
    }

    // ---- ports ----

    /** maybe_grow_msg_buf; realloc fails or gives a buffer of the size asked for. */
    method MaybeGrowMsgBuf(newMaxSize: nat) returns (rc: int, ghost reallocOk: bool)
      requires Coupled()
      modifies this`model, this`log, this`msgBuf, this`msgBufSize
      ensures Coupled() && log == old(log) + GrowCalls(old(model).bufSize, newMaxSize, reallocOk)
      ensures msgBuf == old(msgBuf) || fresh(msgBuf)
      ensures var g := S.GrowMsgBuf(old(model), newMaxSize, reallocOk);
        if rc < 0 then rc == ERR_NO_MEMORY && g == None && model == old(model)
        else rc == NO_ERROR && g == Some(model)
    {
      reallocOk := true;
      assert log + [] == log;
      if newMaxSize > msgBufSize {
        var tmp: array?<bv8> := null;
        if * {
          tmp := new bv8[newMaxSize];
        }
        log := log + [Ask(Answer.Realloc(newMaxSize, tmp != null))];
        if tmp == null {
          return ERR_NO_MEMORY, false;
        }
        msgBuf := tmp;
        msgBufSize := newMaxSize;
      }
      rc := NO_ERROR;
      model := S.GrowMsgBuf(model, newMaxSize, true).value;
    }

    /** port_create may fail; it succeeds only when the table has a free slot of the right parity. */
    method OpenPort(path: string, flags: bv32) returns (h: int, ghost cookie: Ctx)
      requires Coupled()
      modifies this`model, this`log, table, table.ports
      ensures Coupled()
      ensures log == old(log) + [Ask(Answer.PortCreate(if h == INVALID_IPC_HANDLE then None else Some(h)))]
      ensures if h == INVALID_IPC_HANDLE then model == old(model)
              else h !in old(model).ports && h !in old(model).chans
                   && model == old(model).(ports := old(model).ports[h := cookie])
    {
      h, cookie := INVALID_IPC_HANDLE, S.NullCookie;
      if * {
        ghost var t := table.View();
        FlatProofs.NewPortIsFirstFit(t, SecureFlag(flags), path);
        h := SysPortCreate(table, Some(path), flags);
        if h != INVALID_IPC_HANDLE {
          PortOpenedMatches(model, t, SecureFlag(flags), path);
          cookie := t.Port(h).cookie;
          model := model.(ports := model.ports[h := cookie]);
        }
      }
      log := log + [Ask(Answer.PortCreate(if h == INVALID_IPC_HANDLE then None else Some(h)))];
    }

    method SetPortCookie(h: int, p: PortContext) returns (rc: int)
      requires Coupled() && h in model.ports
      modifies this`model, this`log, table.ports, table.chans
      ensures Coupled() && log == old(log) + [Ask(Answer.SetCookie(h, rc >= 0))]
      ensures model == if rc < 0 then old(model) else old(model).(ports := old(model).ports[h := S.PortCookie(p)])
    {
      rc := *;
      if rc >= 0 {
        PortCookieMatches(model, table.View(), h, S.PortCookie(p));
        rc := SysSetCookie(table, h, S.PortCookie(p));
        model := model.(ports := model.ports[h := S.PortCookie(p)]);
      }
      log := log + [Ask(Answer.SetCookie(h, rc >= 0))];
    }

    /** close of the port handle that was just got. */
    method UndoOpen(h: int, ghost m: State, ghost cookie: Ctx)
      requires Coupled() && h !in m.ports && h !in m.chans && model == m.(ports := m.ports[h := cookie])
      modifies this`model, table, table.ports, table.chans
      ensures Coupled() && model == m
    {
      Close(h);
      assert m.ports[h := cookie] - {h} == m.ports;
    }

    /** ipc_port_create up to set_cookie: opens the port and binds it to its context. */
    method OpenBoundPort(p: PortContext, path: string, flags: bv32) returns (h: int, rc: int, ghost got: Option<int>)
      requires Coupled()
      modifies this`model, this`log, table, table.ports, table.chans
      ensures Coupled() && log == old(log) + OpenCalls(got, rc >= 0)
      ensures got.Some? ==> got.value !in old(model).ports && got.value !in old(model).chans
      ensures if rc < 0 then model == old(model)
              else got == Some(h) && model == old(model).(ports := old(model).ports[h := S.PortCookie(p)])
    {
      ghost var cookie;
      h, cookie := OpenPort(path, flags);
      if h == INVALID_IPC_HANDLE {
        rc, got := -1, None;
        assert OpenCalls(got, false) == [Ask(Answer.PortCreate(None))];
        return;
      }
      got := Some(h);
      rc := SetPortCookie(h, p);
      CallLog.Associative(old(log), [Ask(Answer.PortCreate(got))], [Ask(Answer.SetCookie(h, rc >= 0))]);
      if rc < 0 {
        UndoOpen(h, old(model), cookie);
        return;
      }
      Rebound(old(model).ports, h, cookie, S.PortCookie(p));
    }

    /** The last statements of ipc_port_create. */
    method InstallPort(p: PortContext, h: int)
      requires Coupled() && p !in model.portCtx
      modifies this`model, p
      ensures Coupled()
      ensures model == old(model).(portCtx := old(model).portCtx[p := S.PortContext(S.HandlePort, h, [])])
    {
      p.handle := h;
      p.handler := S.HandlePort;
      p.channels := [];
      model := model.(portCtx := model.portCtx[p := S.PortContext(S.HandlePort, h, [])]);
    }

    /** ipc_port_create from maybe_grow_msg_buf on. */
    method GrowAndInstall(p: PortContext, h: int, maxBufferSize: nat, ghost m: State)
      returns (rc: int, ghost reallocOk: bool)
      requires Coupled() && m.bufAlloc == m.bufSize && p !in m.portCtx
      requires h !in m.ports && h !in m.chans && model == m.(ports := m.ports[h := S.PortCookie(p)])
      modifies this`model, this`log, this`msgBuf, this`msgBufSize, table, table.ports, table.chans, p
      ensures Coupled() && (msgBuf == old(msgBuf) || fresh(msgBuf))
      ensures log == old(log) + GrowCalls(m.bufSize, maxBufferSize, reallocOk)
      ensures if rc < 0 then model == m && maxBufferSize > m.bufSize && !reallocOk
              else rc == NO_ERROR && Created(m, model, p, h, maxBufferSize) && (maxBufferSize <= m.bufSize || reallocOk)
    {
      rc, reallocOk := MaybeGrowMsgBuf(maxBufferSize);
      if rc < 0 {
        UndoOpen(h, m, S.PortCookie(p));
        return;
      }
      InstallPort(p, h);
      rc := NO_ERROR;
    }

    /** ipc_port_create with a name. */
    method CreateNamed(p: PortContext, path: string, flags: bv32, maxBufferSize: nat)
      returns (rc: int, ghost i: Input)
      requires Coupled() && model.bufAlloc == model.bufSize && p !in model.portCtx
      modifies this`model, this`log, this`msgBuf, this`msgBufSize, table, table.ports, table.chans, p
      ensures Coupled() && (msgBuf == old(msgBuf) || fresh(msgBuf))
      ensures i.Create? && i.p == p && i.maxBuf == maxBufferSize && S.Allowed(old(model), i)
      ensures log == old(log) + CreateCalls(old(model).bufSize, i)
      ensures S.Step(old(model), i) == S.Running(model)
      ensures if rc < 0 then model == old(model) && CannotCreate(old(model), i)
              else rc == NO_ERROR && i.handle.Some? && Created(old(model), model, p, i.handle.value, maxBufferSize)
    {
      ghost var m0 := model;
      var h;
      ghost var got, ok;
      h, rc, got := OpenBoundPort(p, path, flags);
      i := S.Create(p, got, rc >= 0, maxBufferSize, false);
      if rc < 0 {
        assert CreateCalls(m0.bufSize, i) == OpenCalls(got, false);
        CreateFails(m0, i);
        return;
      }
      rc, ok := GrowAndInstall(p, h, maxBufferSize, m0);
      i := i.(reallocOk := ok);
      CallLog.Associative(old(log), OpenCalls(got, true), GrowCalls(m0.bufSize, maxBufferSize, ok));
      if rc < 0 {
        CreateFails(m0, i);
      } else {
        CreateSucceeds(m0, i);
      }
    }

    /** set_cookie and close on something that is not a handle. */
    method SetCookieInVain(h: int, p: PortContext) returns (rc: int)
      requires Coupled() && h < 0
      modifies this`log, table.ports, table.chans
      ensures Coupled() && table.View() == old(table.View())
      ensures log == old(log) + [Ask(Answer.SetCookie(h, rc >= 0))]
    {
      rc := *;
      if rc >= 0 {
        rc := SysSetCookie(table, h, S.PortCookie(p));
      }
      log := log + [Ask(Answer.SetCookie(h, rc >= 0))];
    }

    method CloseInVain(h: int)
      requires Coupled() && h < 0
      modifies table, table.ports, table.chans
      ensures Coupled() && table.View() == old(table.View())
    {
      var rc := SysClose(table, h);
    }

    /** ipc_port_create from maybe_grow_msg_buf on, for a handle that is not open. */
    method GrowAndInstallInVain(p: PortContext, h: int, maxBufferSize: nat) returns (rc: int, ghost reallocOk: bool)
      requires Coupled() && h < 0 && p !in model.portCtx
      modifies this`model, this`log, this`msgBuf, this`msgBufSize, table, table.ports, table.chans, p
      ensures Coupled() && (msgBuf == old(msgBuf) || fresh(msgBuf))
      ensures S.CreateUnopened(old(model), p, h, true, maxBufferSize, reallocOk) ==
              if rc < 0 then S.Fault(S.InactiveHandle) else S.Running(model)
      ensures table.View() == old(table.View())
      ensures log == old(log) + GrowCalls(old(model).bufSize, maxBufferSize, reallocOk)
    {
      ghost var m0 := model;
      assert h !in m0.ports && h !in m0.chans;
      rc, reallocOk := MaybeGrowMsgBuf(maxBufferSize);
      if rc < 0 {
        CloseInVain(h);
      } else {
        InstallPort(p, h);
      }
    }

    /** ipc_port_create without one: the error code passes for a handle. Neither
        set_cookie nor close changes the table then. */
    method CreateUnnamed(p: PortContext, flags: bv32, maxBufferSize: nat) returns (rc: int, ghost i: Input)
      requires Coupled() && p !in model.portCtx
      modifies this`model, this`log, this`msgBuf, this`msgBufSize, table, table.ports, table.chans, p
      ensures Coupled() && (msgBuf == old(msgBuf) || fresh(msgBuf))
      ensures i.Create? && i.p == p && i.maxBuf == maxBufferSize && i.handle == Some(ERR_BAD_PATH)
      ensures log == old(log) + CreateCalls(old(model).bufSize, i)
      ensures S.CreateUnopened(old(model), p, ERR_BAD_PATH, i.setCookieOk, maxBufferSize, i.reallocOk) ==
              if rc < 0 then S.Fault(S.InactiveHandle) else S.Running(model)
      ensures table.View() == old(table.View())
    {
      var h := SysPortCreate(table, None, flags);
      log := log + [Ask(Answer.PortCreate(Some(h)))];
      rc := SetCookieInVain(h, p);
      i := S.Create(p, Some(h), rc >= 0, maxBufferSize, false);
      CallLog.Associative(old(log), [Ask(Answer.PortCreate(Some(h)))], [Ask(Answer.SetCookie(h, rc >= 0))]);
      if rc < 0 {
        assert CreateCalls(model.bufSize, i) == OpenCalls(Some(h), false);
        assert h !in model.ports && h !in model.chans;
        CloseInVain(h);
      } else {
        ghost var ok;
        rc, ok := GrowAndInstallInVain(p, h, maxBufferSize);
        i := i.(reallocOk := ok);
        CallLog.Associative(old(log), OpenCalls(Some(h), true), GrowCalls(old(model).bufSize, maxBufferSize, ok));
      }
    }

    /** ipc_port_create, on a context that is not in use. With a name it does what
        the specification says. Without one it either reports success for a port
        that does not exist or closes a handle that is not open. */
    method PortCreate(p: PortContext, path: Option<string>, flags: bv32, maxBufferSize: nat)
      returns (rc: int, ghost i: Input)
      requires Coupled() && model.bufAlloc == model.bufSize && p !in model.portCtx
      modifies this`model, this`log, this`msgBuf, this`msgBufSize, table, table.ports, table.chans, p
      ensures Coupled() && (msgBuf == old(msgBuf) || fresh(msgBuf))
      ensures i.Create? && i.p == p && i.maxBuf == maxBufferSize
      ensures log == old(log) + CreateCalls(old(model).bufSize, i)
      ensures path.Some? ==>
        && S.Allowed(old(model), i) && S.Step(old(model), i) == S.Running(model)
        && if rc < 0 then model == old(model) && CannotCreate(old(model), i)
           else rc == NO_ERROR && i.handle.Some? && Created(old(model), model, p, i.handle.value, maxBufferSize)
      ensures path.None? ==>
        && table.View() == old(table.View())
        && S.CreateUnopened(old(model), p, ERR_BAD_PATH, i.setCookieOk, maxBufferSize, i.reallocOk) ==
           if rc < 0 then S.Fault(S.InactiveHandle) else S.Running(model)
    {
      match path
      case Some(name) => rc, i := CreateNamed(p, name, flags, maxBufferSize);
      case None => rc, i := CreateUnnamed(p, flags, maxBufferSize);
    }

    // ---- destroying a port ----

    /** list_remove_head_type */
    method RemoveHead(p: PortContext) returns (c: ChannelContext)
      requires Coupled() && p in model.portCtx && p.channels != []
      modifies this`model, p
      ensures Coupled() && c == old(p.channels)[0]
      ensures model == old(model).(portCtx := old(model).portCtx[p :=
        old(model).portCtx[p].(channels := old(model).portCtx[p].channels[1..])])
    {
      c := p.channels[0];
      p.channels := p.channels[1..];
      model := model.(portCtx := model.portCtx[p := model.portCtx[p].(channels := model.portCtx[p].channels[1..])]);
    }

    /** One round of the loop of ipc_port_destroy. */
    method DrainOne(p: PortContext)
      requires Coupled() && p in model.portCtx && model.portCtx[p].channels != []
      requires S.DrainOne(model, p).Running?
      modifies this`model, table, table.ports, table.chans, p, model.chanCtx.Keys
      ensures Coupled() && S.DrainOne(old(model), p) == S.Running(model)
      ensures model.chanCtx.Keys <= old(model).chanCtx.Keys
      ensures p in model.portCtx
    {
      var c := RemoveHead(p);
      assert c in model.chanCtx;
      var h := c.handle;
      OnDisconnect(c);
      Close(h);
    }

    /** The loop of ipc_port_destroy. */
    method DrainChannels(p: PortContext)
      requires Coupled() && p in model.portCtx && S.DrainChannels(model, p).Running?
      modifies this`model, table, table.ports, table.chans, p, model.chanCtx.Keys
      ensures Coupled() && S.DrainChannels(old(model), p) == S.Running(model)
    {
      while p.channels != []
        invariant Coupled() && p in model.portCtx
        invariant model.chanCtx.Keys <= old(model).chanCtx.Keys
        invariant S.DrainChannels(model, p) == S.DrainChannels(old(model), p)
        decreases |p.channels|
      {
        DrainOne(p);
      }
    }

    /** ipc_port_destroy */
    method PortDestroy(p: PortContext)
      requires Coupled() && p in model.portCtx && S.PortDestroy(model, p).Running?
      modifies this`model, table, table.ports, table.chans, p, model.chanCtx.Keys
      ensures Coupled() && S.PortDestroy(old(model), p) == S.Running(model)
    {
      Close(p.handle);
      DrainChannels(p);
      Retire(p);
    }

    /** The end of ipc_port_destroy: the application may use the context again. */
    ghost method Retire(p: PortContext)
      requires Coupled()
      modifies this`model
      ensures Coupled() && model == old(model).(portCtx := old(model).portCtx - {p})
    {
      model := model.(portCtx := model.portCtx - {p});
    }

    // ---- the loop ----

    /** wait_any; with MSG the channel has a new message. Done if it fails or waits
        for ever. */
    method WaitAny() returns (done: bool, h: int, ev: Event, cookie: Ctx, ghost id: nat, ghost len: nat)
      requires Coupled()
      modifies this`model, this`log, table.chans
      ensures Coupled()
      ensures log == old(log) + [Ask(Answer.WaitAny(if done then None else Some((h, ev, id, len))))]
      ensures model.portCtx == old(model).portCtx && model.chanCtx == old(model).chanCtx
      ensures model == if !done && ev.msg then S.NewMsg(old(model), h, id, len) else old(model)
      ensures !done ==> (h in model.ports || h in model.chans) && cookie == S.CookieOf(model, h)
    {
      ghost var msg;
      ghost var t := table.View();
      var rc;
      done, rc, h, ev, cookie, msg := SysWaitAny(table);
      done := done || rc < 0;
      id, len := if msg.Some? then msg.value.0 else 0, if msg.Some? then msg.value.1 else 0;
      if !done && ev.msg {
        NewMsgMatches(model, t, h, id, len);
        model := S.NewMsg(model, h, id, len);
      }
      log := log + [Ask(Answer.WaitAny(if done then None else Some((h, ev, id, len))))];
    }

    /** The event of one round; m is the state before wait_any. */
    method Serve(h: int, ev: Event, cookie: Ctx, ghost id: nat, ghost len: nat, ghost m: State)
      returns (ghost input: Input, ghost calls: seq<KernelCall>)
      requires Coupled() && !aborted && !overrun
      requires CanDispatch(model, h) && cookie == S.CookieOf(model, h)
      requires model == if ev.msg then S.NewMsg(m, h, id, len) else m
      modifies this`model, this`log, this`aborted, this`overrun, table, table.ports, table.chans,
               model.portCtx.Keys, model.chanCtx.Keys, msgBuf
      ensures Coupled() && log == old(log) + calls
      ensures input.Wait? && input.h == h && input.ev == ev && input.msgId == id && input.msgLen == len
      ensures S.Allowed(m, input) && S.Step(m, input) == Result()
      ensures Dispatched(old(model), h, ev, input.accept, input.receive, calls)
      ensures forall c :: c in model.chanCtx ==> c in old(model).chanCtx || fresh(c)
      ensures model.portCtx.Keys == old(model).portCtx.Keys
    {
      ghost var a, r;
      a, r, calls := DispatchEvent(h, ev, cookie);
      input := S.Wait(h, ev, id, len, a, r);
    }

    /** One round of ipc_loop; ends it if wait_any fails or waits for ever. */
    method Round() returns (failed: bool, ghost input: Option<Input>, ghost calls: seq<KernelCall>)
      requires Coupled() && !aborted && !overrun && StorageProofs.Inv(model)
      modifies this`model, this`log, this`aborted, this`overrun, table, table.ports, table.chans,
               model.portCtx.Keys, model.chanCtx.Keys, msgBuf
      ensures Coupled() && (failed <==> input.None?) && log == old(log) + calls
      ensures failed ==> model == old(model) && !aborted && !overrun && calls == [Ask(Answer.WaitAny(None))]
      ensures !failed ==> input.value.Wait? && S.Allowed(old(model), input.value)
      ensures !failed ==> S.Step(old(model), input.value) == Result() && Stands(old(model), input.value, calls)
      ensures forall c :: c in model.chanCtx ==> c in old(model).chanCtx || fresh(c)
      ensures model.portCtx.Keys == old(model).portCtx.Keys
    {
      ghost var m0 := model;
      var h, ev, cookie;
      ghost var id, len;
      failed, h, ev, cookie, id, len := WaitAny();
      input, calls := None, [Ask(Answer.WaitAny(if failed then None else Some((h, ev, id, len))))];
      if !failed {
        ReadyAfterWait(m0, model, h, ev, id, len);
        ghost var i, more;
        i, more := Serve(h, ev, cookie, id, len, m0);
        CallLog.Associative(old(log), calls, more);
        input, calls := Some(i), calls + more;
        assert calls[1..] == more;
      }
    }

    /** One more round of a loop that started in m0 with the log log0. */
    method NextRound(ghost m0: State, ghost log0: seq<KernelCall>, ghost trace0: seq<Input>,
                     ghost calls0: seq<seq<KernelCall>>)
      returns (failed: bool, ghost trace: seq<Input>, ghost calls: seq<seq<KernelCall>>)
      requires Coupled() && !aborted && !overrun && StorageProofs.Inv(model)
      requires LoopDid(m0, trace0, calls0, S.Running(model))
      requires log == log0 + CallLog.Concat(calls0) + LastWait(false)
      modifies this`model, this`log, this`aborted, this`overrun, table, table.ports, table.chans,
               model.portCtx.Keys, model.chanCtx.Keys, msgBuf
      ensures Coupled() && (!aborted && !overrun ==> StorageProofs.Inv(model))
      ensures LoopDid(m0, trace, calls, Result()) && |trace| == |trace0| + if failed then 0 else 1
      ensures failed ==> !aborted && !overrun
      ensures log == log0 + CallLog.Concat(calls) + LastWait(failed)
      ensures forall c :: c in model.chanCtx ==> c in old(model).chanCtx || fresh(c)
      ensures model.portCtx.Keys == old(model).portCtx.Keys
    {
      ghost var m := model;
      ghost var input, made;
      assert log == log0 + CallLog.Concat(calls0);
      failed, input, made := Round();
      trace, calls := trace0, calls0;
      if !failed {
        NextLooped(m0, log0, trace0, calls0, m, input.value, made, Result(), model);
        trace, calls := trace0 + [input.value], calls0 + [made];
      }
    }

    /** ipc_loop, for any number of rounds; it ends earlier only if wait_any fails or
        waits for ever, or if the outcome is not a state. The trace is what happened; by
        `RunInv` nothing can go wrong in it but an overrun of the buffer, whatever the
        kernel and the callbacks did. */
    method IpcLoop(rounds: nat) returns (ghost trace: seq<Input>, ghost calls: seq<seq<KernelCall>>)
      requires Coupled() && Balanced(log) && !aborted && !overrun && StorageProofs.Inv(model)
      modifies this`model, this`log, this`aborted, this`overrun, table, table.ports, table.chans,
               model.portCtx.Keys, model.chanCtx.Keys, msgBuf
      ensures Coupled() && Balanced(log) && |trace| <= rounds
      ensures LoopDid(old(model), trace, calls, Result())
      ensures log == old(log) + CallLog.Concat(calls) + LastWait(|trace| < rounds && Result().Running?)
      ensures !aborted && !overrun ==> StorageProofs.Inv(model)
      ensures forall c :: c in model.chanCtx ==> c in old(model).chanCtx || fresh(c)
      ensures model.portCtx.Keys == old(model).portCtx.Keys
    {
      trace, calls := [], [];
      NothingDid(model, log);
      var n, failed := 0, false;
      while n < rounds && !failed && !aborted && !overrun
        invariant Coupled() && (!aborted && !overrun ==> StorageProofs.Inv(model))
        invariant if failed then !aborted && !overrun && |trace| < rounds else n == |trace| <= rounds
        invariant LoopDid(old(model), trace, calls, Result())
        invariant log == old(log) + CallLog.Concat(calls) + LastWait(failed)
        invariant forall c :: c in model.chanCtx ==> c in old(model).chanCtx || fresh(c)
        invariant model.portCtx.Keys == old(model).portCtx.Keys
      {
        failed, trace, calls := NextRound(old(model), old(log), trace, calls);
        n := n + 1;
      }
      LoopRetires(old(model), old(log), trace, calls, failed, log);
    }
  }

  /** Every connection ever accepted was disconnected and closed exactly once, no
      handle is open, and both counters of the table are 0. */
  ghost predicate NothingOpen(m: State, t: Table<Ctx>) {
    && (forall k :: 0 <= k < |m.sessions| ==> StorageProofs.Over(m.sessions[k]))
    && FlatService.NothingActive(t)
  }

  lemma NoPortNothingOpen(m: State, t: Table<Ctx>)
    requires StorageProofs.Inv(m) && TableMatches(m, t) && m.portCtx == map[]
    ensures NothingOpen(m, t)
  {
    StorageProofs.NoPortNoHandle(m);
    FlatService.NothingOpen(t);
  }

  lemma CreatedIsSound(m: State, p: PortContext, h: int, maxBuf: nat, i: Input)
    requires Created(S.Init(), m, p, h, maxBuf)
    requires i.Create? && S.Allowed(S.Init(), i) && S.Step(S.Init(), i) == S.Running(m)
    ensures StorageProofs.Inv(m) && p in m.portCtx && m.portCtx.Keys == {p}
  {
    StorageProofs.InitInv<int, PortContext, ChannelContext>();
    StorageProofs.StepInv(S.Init(), i);
  }

  /** The history of a service: the creation of its port p, the rounds of the loop,
      and the destruction of the port if the loop came to an end. */
  function History(i: Input, trace: seq<Input>, p: PortContext, ended: bool): seq<Input> {
    [i] + trace + if ended then [S.Destroy(p)] else []
  }

  /** The run of the whole program has the outcome o. */
  ghost predicate ProgramRan(i: Input, trace: seq<Input>, p: PortContext, o: Outcome) {
    && S.AllowedRun(S.Init(), History(i, trace, p, o.Running?))
    && S.Run(S.Init(), History(i, trace, p, o.Running?)) == o
  }

  lemma LoopRan(i: Input, trace: seq<Input>, m0: State, o: Outcome)
    requires S.Allowed(S.Init(), i) && S.Step(S.Init(), i) == S.Running(m0)
    requires S.AllowedRun(m0, trace) && S.Run(m0, trace) == o
    ensures S.AllowedRun(S.Init(), [i] + trace) && S.Run(S.Init(), [i] + trace) == o
  {
    assert ([i] + trace)[1..] == trace;
  }

  /** o is the outcome of the loop, and o1 that of the program. */
  lemma WholeProgramRan(i: Input, trace: seq<Input>, calls: seq<seq<KernelCall>>, p: PortContext, m0: State,
                        o: Outcome, o1: Outcome)
    requires S.Allowed(S.Init(), i) && S.Step(S.Init(), i) == S.Running(m0) && LoopDid(m0, trace, calls, o)
    requires o1 == if o.Running? then S.PortDestroy(o.state, p) else o
    requires o.Running? ==> p in o.state.portCtx && o1.Running?
    ensures ProgramRan(i, trace, p, o1)
  {
    LoopRan(i, trace, m0, o);
    if o.Running? {
      StorageProofs.RunExtend(S.Init(), [i] + trace, S.Destroy(p));
    } else {
      assert History(i, trace, p, false) == [i] + trace;
    }
  }

  /** A service whose port asks for 4096 bytes does not overrun its buffer. */
  lemma EnoughAsked(i: Input, m0: State, trace: seq<Input>, calls: seq<seq<KernelCall>>, p: PortContext, o: Outcome)
    requires i.Create? && ProgramRan(i, trace, p, o) && AllStand(m0, trace, calls)
    ensures i.maxBuf >= S.MSG_BUF_MAX_SIZE ==> !o.Fault?
  {
    if i.maxBuf >= S.MSG_BUF_MAX_SIZE {
      forall k | 0 <= k < |trace|
        ensures trace[k].Wait?
      {
        assert StandsAt(m0, trace, calls, k);
      }
      StorageProofs.InitInv<int, PortContext, ChannelContext>();
      StorageProofs.RunSafe(S.Init(), History(i, trace, p, o.Running?));
    }
  }

  lemma ReadyToDestroy(m: State, p: PortContext)
    requires StorageProofs.Inv(m) && m.portCtx.Keys == {p}
    ensures S.PortDestroy(m, p).Running?
    ensures StorageProofs.Inv(S.PortDestroy(m, p).state) && S.PortDestroy(m, p).state.portCtx == map[]
  {
    StorageProofs.DestroyInv(m, p);
    DestroyRemoves(m, p);
    assert S.PortDestroy(m, p).state.portCtx.Keys == {};
  }

  lemma {:induction false} DrainKeepsPorts(m: State, p: PortContext)
    requires S.DrainChannels(m, p).Running?
    ensures S.DrainChannels(m, p).state.portCtx.Keys == m.portCtx.Keys
    decreases if p in m.portCtx then |m.portCtx[p].channels| else 0
  {
    if m.portCtx[p].channels == [] {
    } else {
      DrainKeepsPorts(S.DrainOne(m, p).state, p);
    }
  }

  lemma DestroyRemoves(m: State, p: PortContext)
    requires S.PortDestroy(m, p).Running?
    ensures S.PortDestroy(m, p).state.portCtx.Keys == m.portCtx.Keys - {p}
  {
    DrainKeepsPorts(S.Close(m, m.portCtx[p].handle).state, p);
  }

  /** The end of the program, on the only port. */
  method Shutdown(server: Server, p: PortContext)
    requires server.Coupled() && StorageProofs.Inv(server.model) && server.model.portCtx.Keys == {p}
    modifies server`model, server.table, server.table.ports, server.table.chans, p, server.model.chanCtx.Keys
    ensures server.Coupled() && S.PortDestroy(old(server.model), p) == S.Running(server.model)
    ensures NothingOpen(server.model, server.table.View())
  {
    ReadyToDestroy(server.model, p);
    server.PortDestroy(p);
    NoPortNothingOpen(server.model, server.table.View());
  }

  /** The start of the program: a fresh server with one port, or none if it could not be created. */
  method Startup(layout: Layout, path: string, flags: bv32, maxBufferSize: nat)
    returns (rc: int, server: Server, p: PortContext, ghost i: Input)
    requires layout.Valid() && layout.portMax < TWO_32 && layout.chanMax - layout.chanMin + 1 < TWO_32
    ensures fresh(server) && fresh(server.table) && fresh(server.table.ports) && fresh(server.table.chans) && fresh(p)
    ensures server.msgBuf == null || fresh(server.msgBuf)
    ensures !server.aborted && !server.overrun && server.Coupled()
    ensures i.Create? && i.p == p && i.maxBuf == maxBufferSize && S.Allowed(S.Init(), i)
    ensures server.log == CreateCalls(0, i)
    ensures S.Step(S.Init(), i) == S.Running(server.model)
    ensures if rc < 0 then server.model == S.Init() && CannotCreate(S.Init(), i)
            else StorageProofs.Inv(server.model) && server.model.portCtx.Keys == {p} && server.model.chanCtx == map[]
  {
    server := new Server(layout);
    p := new PortContext();
    rc, i := server.PortCreate(p, Some(path), flags, maxBufferSize);
    assert [] + CreateCalls(0, i) == CreateCalls(0, i);
    if rc >= 0 {
      CreatedIsSound(server.model, p, i.handle.value, maxBufferSize, i);
    }
  }

  /** The end of the program, if the loop came to one. */
  method Finish(server: Server, p: PortContext, ghost i: Input, ghost m0: State, ghost trace: seq<Input>,
                ghost calls: seq<seq<KernelCall>>)
    requires server.Coupled() && server.model.portCtx.Keys == {p}
    requires !server.aborted && !server.overrun ==> StorageProofs.Inv(server.model)
    requires S.Allowed(S.Init(), i) && S.Step(S.Init(), i) == S.Running(m0)
    requires LoopDid(m0, trace, calls, server.Result())
    modifies server`model, server.table, server.table.ports, server.table.chans, p, server.model.chanCtx.Keys
    ensures server.Coupled() && ProgramRan(i, trace, p, server.Result())
    ensures server.Result().Running? <==> old(server.Result()).Running?
    ensures server.Result().Running? ==> NothingOpen(server.model, server.table.View())
  {
    ghost var looped := server.Result();
    if !server.aborted && !server.overrun {
      Shutdown(server, p);
    }
    WholeProgramRan(i, trace, calls, p, m0, looped, server.Result());
  }

  /** The loop and the end of a service that has its port; m0 is its state before. */
  method Operate(server: Server, p: PortContext, rounds: nat, ghost i: Input, ghost m0: State)
    returns (ghost trace: seq<Input>, ghost calls: seq<seq<KernelCall>>)
    requires server.Coupled() && Balanced(server.log) && !server.aborted && !server.overrun && m0 == server.model
    requires StorageProofs.Inv(m0) && m0.portCtx.Keys == {p} && m0.chanCtx == map[]
    requires S.Allowed(S.Init(), i) && S.Step(S.Init(), i) == S.Running(m0)
    modifies server, server.table, server.table.ports, server.table.chans, p, server.msgBuf
    ensures server.Coupled() && Balanced(server.log) && ProgramRan(i, trace, p, server.Result())
    ensures |trace| <= rounds && AllStand(m0, trace, calls)
    ensures server.log == old(server.log) + CallLog.Concat(calls)
                          + LastWait(|trace| < rounds && server.Result().Running?)
    ensures server.Result().Running? ==> NothingOpen(server.model, server.table.View())
  {
    trace, calls := server.IpcLoop(rounds);
    Finish(server, p, i, m0, trace, calls);
  }

  /** A storage service from start to end: create the port, run the loop for any
      number of rounds, destroy the port. What happened is a run of the specification,
      with one input for each event that wait_any reported and in between the calls
      that it stands for; m0 is the state before the loop. Every message that was
      announced was retired once. Unless a handler called abort() or the buffer was
      overrun, every connection it ever accepted was disconnected and closed exactly
      once, no handle stays open, and both counters of the handle table are 0 again.
      With 4096 bytes or more the buffer is never overrun. */
  method RunStorageService(layout: Layout, path: string, flags: bv32, maxBufferSize: nat, rounds: nat)
    returns (rc: int, server: Server, ghost i: Input, ghost m0: State, ghost trace: seq<Input>,
             ghost calls: seq<seq<KernelCall>>)
    requires layout.Valid() && layout.portMax < TWO_32 && layout.chanMax - layout.chanMin + 1 < TWO_32
    ensures i.Create? && i.maxBuf == maxBufferSize && S.Allowed(S.Init(), i) && S.Step(S.Init(), i) == S.Running(m0)
    ensures if rc < 0 then m0 == S.Init() && CannotCreate(S.Init(), i) && server.Result() == S.Running(m0)
            else rc == NO_ERROR && ProgramRan(i, trace, i.p, server.Result())
    ensures |trace| <= (if rc < 0 then 0 else rounds) && AllStand(m0, trace, calls)
    ensures server.log == CreateCalls(0, i) + CallLog.Concat(calls)
                          + LastWait(rc >= 0 && |trace| < rounds && server.Result().Running?)
    ensures server.Coupled() && Balanced(server.log)
    ensures server.Result().Running? ==> NothingOpen(server.model, server.table.View())
    ensures maxBufferSize >= S.MSG_BUF_MAX_SIZE ==> !server.overrun
  {
    var p;
    rc, server, p, i := Startup(layout, path, flags, maxBufferSize);
    m0, trace, calls := server.model, [], [];
    CreateBalanced(0, i);
    if rc < 0 {
      NothingDid(m0, server.log);
      StorageProofs.InitInv<int, PortContext, ChannelContext>();
      NoPortNothingOpen(m0, server.table.View());
      return;
    }
    trace, calls := Operate(server, p, rounds, i, m0);
    EnoughAsked(i, m0, trace, calls, p, server.Result());
    rc := NO_ERROR;
  }
}
