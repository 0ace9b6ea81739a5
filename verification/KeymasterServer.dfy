/** The keymaster's loop as the C++ code has it: contexts are objects, and the
    handle table is the flat table. As in `StorageServer`, a ghost field holds the
    state of the specification, and every method takes it where the
    specification's function does. */
module KeymasterServer {
  import opened Trusty
  import CallLog
  import opened ServerLog
  import opened FlatSpec
  import FlatProofs
  import FlatTable
  import opened Syscalls
  import K = KeymasterSpec
  import KeymasterProofs

  /** struct keymaster_chan_ctx */
  class ChanCtx {
    var uuid: Uuid
    var chan: int
    var dispatch: K.Dispatcher

    constructor (uuid: Uuid, chan: int, dispatch: K.Dispatcher)
      ensures this.uuid == uuid && this.chan == chan && this.dispatch == dispatch
    {
      this.uuid, this.chan, this.dispatch := uuid, chan, dispatch;
    }
  }

  type Cookie = K.Cookie<ChanCtx>
  type State = K.State<ChanCtx>
  type Input = K.Input<ChanCtx>
  /** What the kernel or the allocator is asked and answers, besides the calls for
      messages. wait_any answers None if it fails or waits for ever. */
  datatype Answer =
    | WaitAny(event: Option<(int, Event)>)
    | Accept(port: int, rc: int, uuid: Uuid)
    | New(memory: Option<ChanCtx>)
    | SetCookie(h: int, rc: int)

  type KernelCall = Entry<Answer>

  ghost predicate TableMatches(m: State, t: Table<Cookie>) {
    && t.Valid()
    && (forall h :: h in m.ports <==> t.IsActivePort(h))
    && (forall h :: h in m.ports ==> m.ports[h] == t.Port(h).cookie)
    && (forall h :: h in m.chans <==> t.IsActiveChan(h))
    && (forall h :: h in m.chans ==> m.chans[h] == t.Chan(h).cookie)
  }

  ghost predicate SameCtx(c: ChanCtx, k: K.Context)
    reads c
  {
    c.uuid == k.uuid && c.chan == k.chan && c.dispatch == k.dispatch
  }

  /** Freeing a handle that is not open changes nothing that matters here. */
  lemma ClosedMatches(m: State, t: Table<Cookie>, h: int)
    requires TableMatches(m, t)
    ensures TableMatches(if K.Close(m, h).Running? then K.Close(m, h).state else m, Next(t, Free(h)))
  {
  }

  lemma AcceptedMatches(m: State, t: Table<Cookie>, a: K.Accept<ChanCtx>)
    requires TableMatches(m, t) && a.rc == Result(t, NewChannel)
    requires t.IsChan(a.rc) ==> a.stale == t.Chan(a.rc).cookie
    ensures a.rc !in m.ports && a.rc !in m.chans && a.rc >= 0
    ensures TableMatches(K.Accepted(m, a), Next(t, NewChannel))
  {
    FlatProofs.NewChannelIsFirstFit(t);
  }

  lemma CookieMatches(m: State, t: Table<Cookie>, h: int, c: ChanCtx)
    requires TableMatches(m, t) && h !in m.ports
    requires h in m.chans || h == INVALID_IPC_HANDLE
    ensures TableMatches(K.SetCookie(m, h, c), Next(t, FlatSpec.SetCookie(h, K.ChannelHandler(c))))
  {
  }

  lemma MessageMatches(m: State, t: Table<Cookie>, h: int, id: nat, len: nat)
    requires TableMatches(m, t)
    ensures TableMatches(m, Next(t, NewMsg(h, id, len)))
    ensures TableMatches(m, Next(t, SetMsgId(h, id)))
  {
  }

  const PORT := "com.android.trusty.keymaster"
  const SECURE_PORT := "com.android.trusty.keymaster.secure"

  function Opened(layout: Layout): Table<Cookie>
    requires layout.Valid()
  {
    var t0 := Empty<Cookie>(layout, K.NullCookie);
    var t1 := Next(t0, NewPort(SecureFlag(IPC_PORT_ALLOW_TA_CONNECT), SECURE_PORT));
    var t2 := Next(t1, FlatSpec.SetCookie(2, K.SecurePortHandler));
    var t3 := Next(t2, NewPort(SecureFlag(IPC_PORT_ALLOW_NS_CONNECT), PORT));
    Next(t3, FlatSpec.SetCookie(1, K.NonSecurePortHandler))
  }

  /** The two ports of keymaster_ipc_init get handles 2 and 1. */
  lemma InitMatches(layout: Layout)
    requires layout.Valid() && layout.portMax >= 2
    ensures var t0 := Empty<Cookie>(layout, K.NullCookie);
      && FirstPort(t0, SecureFlag(IPC_PORT_ALLOW_TA_CONNECT), 1) == 2
      && FirstPort(Next(Next(t0, NewPort(SecureFlag(IPC_PORT_ALLOW_TA_CONNECT), SECURE_PORT)),
                        FlatSpec.SetCookie(2, K.SecurePortHandler)),
                   SecureFlag(IPC_PORT_ALLOW_NS_CONNECT), 1) == 1
    ensures TableMatches(K.Init(2, 1), Opened(layout))
  {
  }

  // ---- one message ----

  /** The result of handle_msg when read_msg answers n: it is kept in an `int`, and
      must cover the command word. */
  function MsgRc(n: int): int {
    if AsInt32(n) < 0 then AsInt32(n)
    else if AsInt32(n) < 4 then ERR_NOT_VALID
    else NO_ERROR
  }

  /** Of the counts that an `int` can tell, those that cover the command word are
      accepted; the length of the message does not matter. */
  lemma MsgAccepted(n: int)
    requires -INT_MAX - 1 <= n <= INT_MAX
    ensures MsgRc(n) == NO_ERROR <==> n >= 4
    ensures MsgRc(n) <= NO_ERROR
  {
  }

  /** Over the flat table, which reads the whole of a message up to INT_MAX bytes,
      these are the messages with a whole command word. */
  lemma WholeMsgAccepted<K>(t: Table<K>, h: int)
    requires t.GetMsgLen(h) <= INT_MAX
    ensures MsgRc(ReadMsgRc(t, h, t.GetMsgId(h), 0, [t.GetMsgLen(h)])) == NO_ERROR <==> t.GetMsgLen(h) >= 4
  {
    FillIsMin(t.GetMsgLen(h), [t.GetMsgLen(h)]);
    SumShort([t.GetMsgLen(h)]);
  }

  // ---- what the calls have to be ----

  /** The calls of handle_msg, and its result: get_msg alone if that fails; else
      get_msg, read_msg and put_msg, all with the announced id. */
  predicate HandlesMsg(calls: seq<KernelCall>, rc: int) {
    && calls != [] && calls[0].Msg? && calls[0].call.GetMsg?
    && var get := calls[0].call;
       if get.rc != NO_ERROR then |calls| == 1 && rc == if get.rc == ERR_NO_MSG then NO_ERROR else get.rc
       else
         && |calls| == 3 && calls[1].Msg? && calls[1].call.ReadMsg? && calls[2].Msg? && calls[2].call.PutMsg?
         && calls[1].call.id == get.id == calls[2].call.id && calls[1].call.lens == [get.len]
         && calls[1].call.rc <= get.len && rc == MsgRc(calls[1].call.rc)
  }

  /** The calls of keymaster_port_handler once accept returned no error below 0. */
  function AdmitCalls(secure: bool, a: K.Accept<ChanCtx>): seq<KernelCall> {
    if !K.Accessible(a.uuid, secure) then []
    else [Ask(Answer.New(a.memory))] + if a.memory.Some? then [Ask(Answer.SetCookie(a.rc, a.cookieRc))] else []
  }

  function PortCalls(port: int, secure: bool, ev: Event, a: K.Accept<ChanCtx>): seq<KernelCall> {
    if KeymasterProofs.Complains(ev) || !ev.ready then []
    else [Ask(Answer.Accept(port, a.rc, a.uuid))] + if a.rc < 0 then [] else AdmitCalls(secure, a)
  }

  /** The calls of one round are those that its input records, with their answers. */
  ghost predicate Stands(s: State, i: Input, calls: seq<KernelCall>) {
    && calls != [] && calls[0] == Ask(Answer.WaitAny(Some((i.h, i.ev))))
    && Dispatched(s, i, calls[1..])
  }

  ghost predicate Dispatched(s: State, i: Input, calls: seq<KernelCall>) {
    match K.CookieOf(s, i.h)
    case NullCookie => calls == []
    case SecurePortHandler => calls == PortCalls(i.h, true, i.ev, i.accept)
    case NonSecurePortHandler => calls == PortCalls(i.h, false, i.ev, i.accept)
    case ChannelHandler(_) => if i.ev.msg && !i.ev.error && !i.ev.ready then HandlesMsg(calls, i.msgRc) else calls == []
  }

  /** A connection on a port, call by call: wait_any, accept, `new` for a peer that
      may use the port, and set_cookie if there is memory; each with the answer that
      the input records. */
  lemma PortRound(s: State, i: Input, calls: seq<KernelCall>)
    requires Stands(s, i, calls) && i.h in s.ports && KeymasterProofs.PortsOk(s.ports)
    ensures calls[0] == Ask(Answer.WaitAny(Some((i.h, i.ev))))
    ensures var a := i.accept;
      var attempt := i.ev.ready && !i.ev.error && !i.ev.hup && !i.ev.msg && !i.ev.sendUnblocked;
      var accepted := attempt && a.rc >= 0 && (s.ports[i.h] == K.SecurePortHandler ==> a.uuid == K.GATEKEEPER_UUID);
      && |calls| == 1 + (if attempt then 1 else 0) + (if accepted then 1 else 0)
           + (if accepted && a.memory.Some? then 1 else 0)
      && (attempt ==> calls[1] == Ask(Answer.Accept(i.h, a.rc, a.uuid)))
      && (accepted ==> calls[2] == Ask(Answer.New(a.memory)))
      && (accepted && a.memory.Some? ==> calls[3] == Ask(Answer.SetCookie(a.rc, a.cookieRc)))
  {
    assert calls == [calls[0]] + calls[1..];
  }

  /** An event on a channel: wait_any, and for a MSG the calls of handle_msg, whose
      result follows from their answers. */
  lemma ChannelRound(s: State, i: Input, calls: seq<KernelCall>)
    requires Stands(s, i, calls) && K.CookieOf(s, i.h).ChannelHandler?
    ensures calls[0] == Ask(Answer.WaitAny(Some((i.h, i.ev))))
    ensures !i.ev.msg || i.ev.error || i.ev.ready ==> |calls| == 1
    ensures i.ev.msg && !i.ev.error && !i.ev.ready ==>
      && |calls| > 1 && calls[1].Msg? && calls[1].call.GetMsg?
      && var get := calls[1].call;
         if get.rc != NO_ERROR then |calls| == 2 && (i.msgRc == NO_ERROR <==> get.rc == ERR_NO_MSG)
         else
           && |calls| == 4 && calls[2].Msg? && calls[2].call.ReadMsg? && calls[2].call.id == get.id
           && calls[3].Msg? && calls[3].call.PutMsg? && calls[3].call.id == get.id
           && (-INT_MAX - 1 <= calls[2].call.rc <= INT_MAX ==> (i.msgRc == NO_ERROR <==> calls[2].call.rc >= 4))
  {
    assert calls == [calls[0]] + calls[1..];
    if i.ev.msg && !i.ev.error && !i.ev.ready && calls[1].call.rc == NO_ERROR {
      assert calls[2] == calls[1..][1] && calls[3] == calls[1..][2];
      var n := calls[2].call.rc;
      if -INT_MAX - 1 <= n <= INT_MAX {
        MsgAccepted(n);
      }
    }
  }

  /** In every round the message that was got, if any, is retired once. */
  lemma RoundRetires(s: State, i: Input, calls: seq<KernelCall>)
    requires Stands(s, i, calls)
    ensures Balanced(calls)
  {
    var rest := calls[1..];
    assert calls == [calls[0]] + rest;
    AsksBalanced([calls[0]]);
    if K.CookieOf(s, i.h).ChannelHandler? && i.ev.msg && !i.ev.error && !i.ev.ready {
      TakenIsBalanced(rest);
    } else {
      AsksBalanced(rest);
    }
    BalancedAppend([calls[0]], rest);
  }

  /** The calls of round k are those of its input, which meets the state that the
      rounds before lead to. */
  ghost predicate StandsAt(s: State, trace: seq<Input>, rounds: seq<seq<KernelCall>>, k: nat)
    requires k < |trace| == |rounds|
  {
    K.Run(s, trace[..k]).Running? && Stands(K.Run(s, trace[..k]).state, trace[k], rounds[k])
  }

  ghost predicate AllStand(s: State, trace: seq<Input>, rounds: seq<seq<KernelCall>>) {
    |rounds| == |trace| && forall k :: 0 <= k < |trace| ==> StandsAt(s, trace, rounds, k)
  }

  lemma AllStandNext(s: State, trace: seq<Input>, rounds: seq<seq<KernelCall>>, t: State, i: Input,
                     calls: seq<KernelCall>)
    requires AllStand(s, trace, rounds) && K.Run(s, trace) == K.Running(t) && Stands(t, i, calls)
    ensures AllStand(s, trace + [i], rounds + [calls])
  {
    forall k | 0 <= k < |trace| + 1
      ensures StandsAt(s, trace + [i], rounds + [calls], k)
    {
      assert (trace + [i])[..k] == trace[..k];
      if k < |trace| {
        assert StandsAt(s, trace, rounds, k);
      } else {
        assert trace[..k] == trace;
      }
    }
  }

  /** What a loop from state m0 has done: one input for each event of wait_any, in
      order, with the calls it stands for. */
  ghost predicate LoopDid(m0: State, trace: seq<Input>, calls: seq<seq<KernelCall>>, o: K.Outcome<State>) {
    K.AllowedRun(m0, trace) && K.Run(m0, trace) == o && AllStand(m0, trace, calls)
  }

  /** The wait_any that ends a loop, if one did. */
  function LastWait(failed: bool): seq<KernelCall> {
    if failed then [Ask(Answer.WaitAny(None))] else []
  }

  lemma NextLooped(m0: State, log0: seq<KernelCall>, trace: seq<Input>, calls: seq<seq<KernelCall>>, m: State,
                   i: Input, made: seq<KernelCall>, o: K.Outcome<State>, t: State)
    requires LoopDid(m0, trace, calls, K.Running(m)) && KeymasterProofs.Inv(m)
    requires K.Allowed(m, i) && K.Step(m, i) == o && Stands(m, i, made)
    ensures LoopDid(m0, trace + [i], calls + [made], o)
    ensures o == K.Running(t) ==> KeymasterProofs.Inv(t)
    ensures (log0 + CallLog.Concat(calls)) + made == log0 + CallLog.Concat(calls + [made]) + LastWait(false)
  {
    KeymasterProofs.RunExtend(m0, trace, m, i);
    KeymasterProofs.StepInv(m, i);
    AllStandNext(m0, trace, calls, m, i, made);
    CallLog.ConcatLast(calls, made);
    CallLog.Associative(log0, CallLog.Concat(calls), made);
  }

  lemma LoopRetires(m0: State, log0: seq<KernelCall>, trace: seq<Input>, calls: seq<seq<KernelCall>>,
                    failed: bool, log: seq<KernelCall>)
    requires AllStand(m0, trace, calls) && Balanced(log0)
    requires log == log0 + CallLog.Concat(calls) + LastWait(failed)
    ensures Balanced(log)
  {
    forall k | 0 <= k < |calls|
      ensures Balanced(calls[k])
    {
      assert StandsAt(m0, trace, calls, k);
      RoundRetires(K.Run(m0, trace[..k]).state, trace[k], calls[k]);
    }
    ConcatBalanced(calls);
    BalancedAppend(log0, CallLog.Concat(calls));
    AsksBalanced(LastWait(failed));
    BalancedAppend(log0 + CallLog.Concat(calls), LastWait(failed));
  }

  class Server {
    const table: FlatTable.HandleTable<Cookie>
    var aborted: bool
    /** A handle was closed that was not open; the check stands for the assertions
        on the handle table that verification adds. */
    var violated: bool
    ghost var model: State
    /** The calls made, with their answers. */
    ghost var log: seq<KernelCall>

    ghost predicate Coupled()
      reads this, table, table.ports, table.chans, model.ctxs.Keys
    {
      && table.Valid()
      && TableMatches(model, table.View())
      && forall c :: c in model.ctxs ==> SameCtx(c, model.ctxs[c])
    }

    /** The server after a successful keymaster_ipc_init. */
    constructor (layout: Layout)
      requires layout.Valid() && layout.portMax >= 2
      ensures Coupled() && KeymasterProofs.Inv(model) && !aborted && !violated && log == []
      ensures fresh(table) && fresh(table.ports) && fresh(table.chans) && model.ctxs == map[]
    {
      table := new FlatTable.HandleTable(layout, K.NullCookie);
      aborted, violated, log := false, false, [];
      model := K.Init(2, 1);
      new;
      OpenPorts();
      InitMatches(layout);
      KeymasterProofs.InitInv<ChanCtx>(2, 1);
    }

    /** keymaster_ipc_init: two ports, and their handlers as cookies. */
    method OpenPorts()
      requires table.Valid() && table.layout.portMax >= 2 && table.View() == Empty(table.layout, K.NullCookie)
      modifies table, table.ports, table.chans
      ensures table.Valid() && table.View() == Opened(table.layout)
    {
      InitMatches(table.layout);
      var secure := SysPortCreate(table, Some(SECURE_PORT), IPC_PORT_ALLOW_TA_CONNECT);
      var rc := SysSetCookie(table, secure, K.SecurePortHandler);
      var nonSecure := SysPortCreate(table, Some(PORT), IPC_PORT_ALLOW_NS_CONNECT);
      rc := SysSetCookie(table, nonSecure, K.NonSecurePortHandler);
    }

    // ---- kernel calls ----

    /** close; noted when the handle is not open. */
    method Close(h: int)
      requires Coupled() && !violated
      modifies this`model, this`violated, table, table.ports, table.chans
      ensures Coupled() && model.ctxs == old(model).ctxs
      ensures K.Close(old(model), h) == if violated then K.Fault(K.NoSuchHandle) else K.Running(model)
    {
      ClosedMatches(model, table.View(), h);
      violated := !(table.layout.IsPort(h) && table.ports[h - 1].active)
                  && !(table.layout.IsChan(h) && table.chans[h - table.layout.chanMin].active);
      assert violated <==> !table.View().IsActive(h);
      var rc := SysClose(table, h);
      if !violated {
        model := K.Close(model, h).state;
      }
    }

    /** set_cookie may fail; the flat table's never does. */
    method SetCookie(h: int, c: ChanCtx) returns (rc: int)
      requires Coupled() && h !in model.ports && (h in model.chans || h == INVALID_IPC_HANDLE)
      modifies this`model, this`log, table.ports, table.chans
      ensures Coupled() && model == if rc < 0 then old(model) else K.SetCookie(old(model), h, c)
      ensures log == old(log) + [Ask(Answer.SetCookie(h, rc))]
    {
      rc := *;
      if rc >= 0 {
        CookieMatches(model, table.View(), h, c);
        rc := SysSetCookie(table, h, K.ChannelHandler(c));
        model := K.SetCookie(model, h, c);
      }
      log := log + [Ask(Answer.SetCookie(h, rc))];
    }

    method GetMsg(h: int) returns (rc: int, id: nat, len: nat)
      requires Coupled()
      modifies this`log
      ensures Coupled() && log == old(log) + [Msg(MsgCall.GetMsg(rc, id, len))]
      ensures rc == NO_ERROR ==> id == table.View().GetMsgId(h) != INVALID_IPC_MSG_ID
      ensures rc == NO_ERROR ==> len == table.View().GetMsgLen(h)
    {
      ghost var err;
      rc, id, len, err := SysGetMsg(table, h);
      log := log + [Msg(MsgCall.GetMsg(rc, id, len))];
    }

    method PutMsg(h: int, id: nat) returns (rc: int)
      requires Coupled()
      modifies this`log, table.chans
      ensures Coupled() && log == old(log) + [Msg(MsgCall.PutMsg(id, rc))]
    {
      MessageMatches(model, table.View(), h, INVALID_IPC_MSG_ID, 0);
      ghost var err;
      rc, err := SysPutMsg(table, h, id);
      log := log + [Msg(MsgCall.PutMsg(id, rc))];
    }

    /** read_msg at offset 0 into the first len bytes of buf. It may also fail, or
        store fewer bytes than there is room for. */
    method ReadMsg(h: int, id: nat, buf: array<bv8>, len: nat) returns (rc: int)
      requires Coupled() && len <= buf.Length
      requires buf as object != table.ports && buf as object != table.chans
      modifies this`log, buf
      ensures Coupled() && log == old(log) + [Msg(MsgCall.ReadMsg(id, [len], rc))]
      ensures rc <= len
      ensures forall k :: len <= k < buf.Length ==> buf[k] == old(buf[k])
    {
      var n: nat :| n <= len;
      var fits;
      rc, fits := SysReadMsgInto(table, h, id, buf, n);
      FillIsMin(table.View().GetMsgLen(h), [n]);
      SumShort([n]);
      if * {
        rc :| rc < NO_ERROR;
      }
      log := log + [Msg(MsgCall.ReadMsg(id, [len], rc))];
    }

    /** read_msg, and put_msg whatever it returned. */
    method ReadAndPut(h: int, id: nat, buf: array<bv8>, len: nat) returns (rc: int, ghost calls: seq<KernelCall>)
      requires Coupled() && len <= buf.Length
      requires buf as object != table.ports && buf as object != table.chans
      modifies this`log, table.chans, buf
      ensures Coupled() && log == old(log) + calls && rc <= len
      ensures |calls| == 2 && calls[0] == Msg(MsgCall.ReadMsg(id, [len], rc))
      ensures calls[1].Msg? && calls[1].call.PutMsg? && calls[1].call.id == id
      ensures forall k :: len <= k < buf.Length ==> buf[k] == old(buf[k])
    {
      rc := ReadMsg(h, id, buf, len);
      // the destructor of MessageDeleter
      var ignored := PutMsg(h, id);
      var read, put := Msg(MsgCall.ReadMsg(id, [len], rc)), Msg(MsgCall.PutMsg(id, ignored));
      CallLog.Associative(old(log), [read], [put]);
      calls := [read] + [put];
    }

    /** handle_msg. Without a message it ends with get_msg. With one, it reads the
        message and retires it, exactly once on every path. The buffer has one byte
        more than the message, which is the terminator before and after the read. */
    method HandleMsg(chan: int) returns (rc: int, buf: array?<bv8>, ghost calls: seq<KernelCall>)
      requires Coupled()
      modifies this`log, table.chans
      ensures Coupled() && log == old(log) + calls && HandlesMsg(calls, rc)
      ensures calls[0].call.rc != NO_ERROR ==> buf == null
      ensures calls[0].call.rc == NO_ERROR ==>
        var id, len := calls[0].call.id, calls[0].call.len;
        && id == old(table.View()).GetMsgId(chan) != INVALID_IPC_MSG_ID && len == old(table.View()).GetMsgLen(chan)
        && buf != null && fresh(buf) && buf.Length == len + 1 && buf[len] == 0
    {
      var id, len;
      rc, id, len := GetMsg(chan);
      calls, buf := [Msg(MsgCall.GetMsg(rc, id, len))], null;
      if rc == ERR_NO_MSG {
        rc := NO_ERROR;
        return;
      }
      if rc != NO_ERROR {
        return;
      }
      buf := new bv8[len + 1];
      buf[len] := 0;
      var n;
      ghost var more;
      n, more := ReadAndPut(chan, id, buf, len);
      CallLog.Associative(old(log), calls, more);
      calls := calls + more;
      rc := AsInt32(n);
      if rc >= 0 {
        rc := if rc < 4 then ERR_NOT_VALID else NO_ERROR;
      }
    }

    // ---- handlers ----

    /** What happened, as an outcome of the specification. */
    ghost function Result(): K.Outcome<State>
      reads this
    {
      if violated then K.Fault(K.NoSuchHandle) else if aborted then K.Aborted else K.Running(model)
    }

    /** keymaster_ctx_close */
    method CtxClose(c: ChanCtx)
      requires Coupled() && !aborted && !violated && c in model.ctxs
      modifies this`model, this`violated, table, table.ports, table.chans
      ensures Coupled() && K.CtxClose(old(model), c) == Result()
      ensures model.ctxs.Keys <= old(model).ctxs.Keys
    {
      Close(c.chan);
      // delete ctx: the context is not used again.
      model := model.(ctxs := model.ctxs - {c}, deleted := model.deleted + 1);
    }

    /** keymaster_chan_handler */
    method ChanHandler(c: ChanCtx, h: int, ev: Event) returns (ghost msgRc: int, ghost calls: seq<KernelCall>)
      requires Coupled() && !aborted && !violated && c in model.ctxs
      modifies this`model, this`violated, this`log, table, table.ports, table.chans
      ensures Coupled() && K.ChanHandler(old(model), c, h, ev, msgRc) == Result()
      ensures log == old(log) + calls
      ensures if ev.msg && !ev.error && !ev.ready then HandlesMsg(calls, msgRc) else calls == []
      ensures model.ctxs.Keys <= old(model).ctxs.Keys
    {
      msgRc, calls := NO_ERROR, [];
      if ev.error || ev.ready {
        Close(h);
        return;
      }
      if ev.msg {
        var rc, buf;
        rc, buf, calls := HandleMsg(c.chan);
        msgRc := rc;
        if rc != NO_ERROR {
          CtxClose(c);
          return;
        }
      }
      if ev.hup {
        CtxClose(c);
      }
    }

    /** accept may fail with an error below 0, or with INVALID_IPC_HANDLE when the
        table is full; the peer is anybody, not only who the flat table reports. */
    method AcceptConnection(port: int) returns (rc: int, uuid: Uuid, ghost a: K.Accept<ChanCtx>)
      requires Coupled()
      modifies this`model, this`log, table, table.chans
      ensures Coupled() && a.rc == rc && a.uuid == uuid && a.memory.None?
      ensures rc !in old(model).ports && rc !in old(model).chans
      ensures model == if rc < 0 then old(model) else K.Accepted(old(model), a)
      ensures rc >= 0 ==> rc in model.chans || rc == INVALID_IPC_HANDLE
      ensures rc !in model.ports
      ensures log == old(log) + [Ask(Answer.Accept(port, rc, uuid))]
    {
      uuid := *;
      rc := *;
      ghost var t := table.View();
      if rc < 0 {
        a := K.Accept(rc, K.NullCookie, uuid, None, 0);
        assert !t.IsActive(rc);
      } else {
        FlatProofs.NewChannelIsFirstFit(t);
        var unused;
        rc, unused := SysAccept(table, port, uuid);
        a := K.Accept(rc, if t.IsChan(rc) then t.Chan(rc).cookie else K.NullCookie, uuid, None, 0);
        AcceptedMatches(model, t, a);
        model := K.Accepted(model, a);
      }
      log := log + [Ask(Answer.Accept(port, rc, uuid))];
    }

    /** keymaster_ctx_open; `new` may return no memory. */
    method CtxOpen(chan: int, uuid: Uuid, secure: bool, ghost a: K.Accept<ChanCtx>)
      returns (c: ChanCtx?, ghost b: K.Accept<ChanCtx>)
      requires Coupled() && a.rc == chan && a.uuid == uuid && a.memory.None?
      modifies this`model, this`log
      ensures Coupled() && b == a.(memory := b.memory)
      ensures b.memory.Some? ==> fresh(b.memory.value) && b.memory.value !in old(model).ctxs
      ensures K.CtxOpen(b, secure) == if c == null then None else Some(c)
      ensures model == if c == null then old(model) else K.Opened(old(model), c, b, secure)
      ensures log == old(log) + if K.Accessible(uuid, secure) then [Ask(Answer.New(b.memory))] else []
    {
      c, b := null, a;
      if !K.Accessible(uuid, secure) {
        assert old(log) + [] == old(log);
        return;
      }
      if * {
        c := new ChanCtx(uuid, chan, if secure then K.DispatchSecure else K.DispatchNonSecure);
        b := a.(memory := Some(c));
        model := K.Opened(model, c, b, secure);
      }
      log := log + [Ask(Answer.New(b.memory))];
    }

    /** keymaster_port_handler once accept returned without an error below 0. */
    method Admit(chan: int, uuid: Uuid, secure: bool, ghost a0: K.Accept<ChanCtx>) returns (ghost a: K.Accept<ChanCtx>)
      requires Coupled() && !aborted && !violated && a0.rc == chan && a0.uuid == uuid && a0.memory.None?
      requires chan !in model.ports && (chan in model.chans || chan == INVALID_IPC_HANDLE)
      modifies this`model, this`violated, this`log, table, table.ports, table.chans
      ensures Coupled() && a == a0.(memory := a.memory, cookieRc := a.cookieRc)
      ensures a.memory.Some? ==> fresh(a.memory.value) && a.memory.value !in old(model).ctxs
      ensures K.Admit(old(model), secure, a) == Result()
      ensures log == old(log) + AdmitCalls(secure, a)
      ensures forall c :: c in model.ctxs ==> c in old(model).ctxs || fresh(c)
    {
      var c;
      c, a := CtxOpen(chan, uuid, secure, a0);
      if c == null {
        assert AdmitCalls(secure, a) == if K.Accessible(uuid, secure) then [Ask(Answer.New(a.memory))] else [];
        Close(chan);
        return;
      }
      var rc := SetCookie(chan, c);
      a := a.(cookieRc := rc);
      CallLog.Associative(old(log), [Ask(Answer.New(a.memory))], [Ask(Answer.SetCookie(chan, rc))]);
      if rc < 0 {
        CtxClose(c);
      }
    }

    /** keymaster_port_handler */
    method PortHandler(secure: bool, port: int, ev: Event) returns (ghost a: K.Accept<ChanCtx>)
      requires Coupled() && !aborted && !violated
      modifies this`model, this`aborted, this`violated, this`log, table, table.ports, table.chans
      ensures Coupled() && K.PortHandler(old(model), secure, ev, a) == Result()
      ensures log == old(log) + PortCalls(port, secure, ev, a)
      ensures a.rc !in old(model).ports && a.rc !in old(model).chans
      ensures a.memory.Some? ==> a.memory.value !in old(model).ctxs
      ensures forall c :: c in model.ctxs ==> c in old(model).ctxs || fresh(c)
    {
      if ev.error || ev.hup || ev.msg || ev.sendUnblocked {
        aborted := true;
      }
      if aborted || !ev.ready {
        a := Nobody();
        assert old(log) + [] == old(log);
        return;
      }
      var chan, uuid;
      chan, uuid, a := AcceptConnection(port);
      if chan < 0 {
        assert PortCalls(port, secure, ev, a) == [Ask(Answer.Accept(port, chan, uuid))];
        return;
      }
      a := Admit(chan, uuid, secure, a);
      CallLog.Associative(old(log), [Ask(Answer.Accept(port, chan, uuid))], AdmitCalls(secure, a));
    }

    /** No connection attempt: handle -1 is never open. */
    ghost method Nobody() returns (a: K.Accept<ChanCtx>)
      requires Coupled()
      ensures a == K.Accept(-1, K.NullCookie, K.GATEKEEPER_UUID, None, 0)
      ensures a.rc !in model.ports && a.rc !in model.chans
    {
      a := K.Accept(-1, K.NullCookie, K.GATEKEEPER_UUID, None, 0);
      assert !table.View().IsActive(-1);
    }

    /** dispatch_event, for an event on an open handle. */
    method DispatchEvent(h: int, ev: Event, cookie: Cookie) returns (ghost i: Input, ghost calls: seq<KernelCall>)
      requires Coupled() && !aborted && !violated
      requires h in model.ports || h in model.chans
      requires cookie == K.CookieOf(model, h)
      requires cookie.ChannelHandler? ==> cookie.ctx in model.ctxs
      modifies this`model, this`aborted, this`violated, this`log, table, table.ports, table.chans
      ensures Coupled() && i.h == h && i.ev == ev && K.Allowed(old(model), i) && K.Step(old(model), i) == Result()
      ensures log == old(log) + calls && Dispatched(old(model), i, calls)
      ensures forall c :: c in model.ctxs ==> c in old(model).ctxs || fresh(c)
    {
      ghost var a := Nobody();
      i, calls := K.Input(h, ev, a, NO_ERROR), [];
      if ev.IsNone() {
        return;
      }
      match cookie
      case NullCookie => Close(h);
      case SecurePortHandler =>
        a := PortHandler(true, h, ev);
        i, calls := i.(accept := a), PortCalls(h, true, ev, a);
      case NonSecurePortHandler =>
        a := PortHandler(false, h, ev);
        i, calls := i.(accept := a), PortCalls(h, false, ev, a);
      case ChannelHandler(c) =>
        ghost var msgRc;
        msgRc, calls := ChanHandler(c, h, ev);
        i := i.(msgRc := msgRc);
    }

    /** wait_any; done if it fails or waits for ever. */
    method WaitAny() returns (done: bool, h: int, ev: Event, cookie: Cookie)
      requires Coupled()
      modifies this`log, table.chans
      ensures Coupled()
      ensures log == old(log) + [Ask(Answer.WaitAny(if done then None else Some((h, ev))))]
      ensures !done ==> (h in model.ports || h in model.chans) && cookie == K.CookieOf(model, h)
    {
      ghost var t := table.View();
      ghost var msg;
      var rc;
      done, rc, h, ev, cookie, msg := SysWaitAny(table);
      done := done || rc < 0;
      if msg.Some? {
        MessageMatches(model, t, h, msg.value.0, msg.value.1);
      }
      log := log + [Ask(Answer.WaitAny(if done then None else Some((h, ev))))];
    }

    /** One round of the main loop; ends it if wait_any fails or waits for ever. */
    method Round() returns (failed: bool, ghost input: Option<Input>, ghost calls: seq<KernelCall>)
      requires Coupled() && !aborted && !violated
      requires KeymasterProofs.PortsOk(model.ports) && KeymasterProofs.ChansOk(model.chans, model.ctxs)
      modifies this`model, this`aborted, this`violated, this`log, table, table.ports, table.chans
      ensures Coupled() && (failed <==> input.None?) && log == old(log) + calls
      ensures failed ==> model == old(model) && !aborted && !violated && calls == [Ask(Answer.WaitAny(None))]
      ensures !failed ==> K.Allowed(old(model), input.value) && K.Step(old(model), input.value) == Result()
      ensures !failed ==> Stands(old(model), input.value, calls)
      ensures forall c :: c in model.ctxs ==> c in old(model).ctxs || fresh(c)
    {
      var h, ev, cookie;
      failed, h, ev, cookie := WaitAny();
      input, calls := None, [Ask(Answer.WaitAny(if failed then None else Some((h, ev))))];
      if !failed {
        ghost var i, more;
        i, more := DispatchEvent(h, ev, cookie);
        CallLog.Associative(old(log), calls, more);
        input, calls := Some(i), calls + more;
        assert calls[1..] == more;
      }
    }

    /** One more round. */
    method NextRound(ghost m0: State, ghost log0: seq<KernelCall>, ghost trace0: seq<Input>,
                     ghost calls0: seq<seq<KernelCall>>)
      returns (failed: bool, ghost trace: seq<Input>, ghost calls: seq<seq<KernelCall>>)
      requires Coupled() && !aborted && !violated && KeymasterProofs.Inv(model)
      requires LoopDid(m0, trace0, calls0, K.Running(model))
      requires log == log0 + CallLog.Concat(calls0) + LastWait(false)
      modifies this`model, this`aborted, this`violated, this`log, table, table.ports, table.chans
      ensures Coupled() && (!aborted && !violated ==> KeymasterProofs.Inv(model))
      ensures LoopDid(m0, trace, calls, Result()) && |trace| == |trace0| + if failed then 0 else 1
      ensures failed ==> !aborted && !violated
      ensures log == log0 + CallLog.Concat(calls) + LastWait(failed)
    {
      ghost var m := model;
      ghost var input, made;
      KeymasterProofs.InvPorts(m);
      assert log == log0 + CallLog.Concat(calls0);
      failed, input, made := Round();
      trace, calls := trace0, calls0;
      if !failed {
        NextLooped(m0, log0, trace0, calls0, m, input.value, made, Result(), model);
        trace, calls := trace0 + [input.value], calls0 + [made];
      }
    }

    /** The main loop, for any number of rounds. It ends earlier only if wait_any
        fails or waits for ever, or if the outcome is not a state. */
    method Loop(rounds: nat) returns (ghost trace: seq<Input>, ghost calls: seq<seq<KernelCall>>)
      requires Coupled() && Balanced(log) && !aborted && !violated && KeymasterProofs.Inv(model)
      modifies this`model, this`aborted, this`violated, this`log, table, table.ports, table.chans
      ensures Coupled() && Balanced(log) && |trace| <= rounds
      ensures LoopDid(old(model), trace, calls, Result())
      ensures log == old(log) + CallLog.Concat(calls) + LastWait(|trace| < rounds && Result().Running?)
    {
      trace, calls := [], [];
      assert old(log) + [] + [] == old(log);
      var n, failed := 0, false;
      while n < rounds && !failed && !aborted && !violated
        invariant Coupled() && (!aborted && !violated ==> KeymasterProofs.Inv(model))
        invariant if failed then !aborted && !violated && |trace| < rounds else n == |trace| <= rounds
        invariant LoopDid(old(model), trace, calls, Result())
        invariant log == old(log) + CallLog.Concat(calls) + LastWait(failed)
      {
        failed, trace, calls := NextRound(old(model), old(log), trace, calls);
        n := n + 1;
      }
      LoopRetires(old(model), old(log), trace, calls, failed, log);
    }
  }
}
