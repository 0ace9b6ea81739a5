/** The storage server seen from the kernel: the calls on handles that it makes for
    every input, in order, and what they do to what the kernel keeps. Over any
    handle table the server's state moves as these calls say; `FlatService` and
    `PtrService` show that the two tables move with them. */
module StorageCalls {
  import opened Trusty
  import S = StorageSpec
  import StorageProofs

  type State<H, P, C> = S.State<H, P, C>
  type Input<H, P, C> = S.Input<H, P, C>
  type Cookie<P, C> = S.Cookie<P, C>
  type Slot<P, C> = S.Slot<P, C>

  /** The flags and the name of a port, and the cookie that its new slot holds. */
  datatype Opening<P, C> = Opening(flags: bv32, path: Option<string>, stale: Cookie<P, C>)

  /** A call that changes what the kernel keeps. An allocation comes with its result
      and with what the new slot holds; `wait_any` is a call only when it brings a
      message. */
  datatype Call<H, P, C> =
    | PortCreate(port: Option<H>, opening: Opening<P, C>)
    | Accept(chan: Option<H>, slot: Slot<P, C>)
    | Close(h: H)
    | SetCookie(h: H, cookie: Cookie<P, C>)
    | PutMsg(h: H)
    | NewMsg(h: H, id: nat, len: nat)

  /** The open handles; the session numbers in the slots do not matter here. */
  datatype View<H, P, C> = View(ports: map<H, Cookie<P, C>>, chans: map<H, Slot<P, C>>) {
    predicate IsOpen(h: H) { h in ports || h in chans }
  }

  /** The call acts on an open handle, or opens one that is not. */
  predicate Possible<H, P, C>(v: View<H, P, C>, c: Call<H, P, C>) {
    match c
    case PortCreate(port, _) => port.Some? ==> !v.IsOpen(port.value)
    case Accept(chan, _) => chan.Some? ==> !v.IsOpen(chan.value)
    case _ => v.IsOpen(c.h)
  }

  function Do<H, P, C>(v: View<H, P, C>, c: Call<H, P, C>): View<H, P, C> {
    match c
    case PortCreate(port, o) => if port.Some? then v.(ports := v.ports[port.value := o.stale]) else v
    case Accept(chan, slot) => if chan.Some? then v.(chans := v.chans[chan.value := slot]) else v
    case Close(h) => View(v.ports - {h}, v.chans - {h})
    case SetCookie(h, cookie) =>
      if h in v.ports then v.(ports := v.ports[h := cookie])
      else if h in v.chans then v.(chans := v.chans[h := v.chans[h].(cookie := cookie)])
      else v
    case PutMsg(h) =>
      if h in v.chans then v.(chans := v.chans[h := v.chans[h].(msgId := INVALID_IPC_MSG_ID)]) else v
    case NewMsg(h, id, len) =>
      if h in v.chans then v.(chans := v.chans[h := v.chans[h].(msgId := id, msgLen := len)]) else v
  }

  function DoAll<H, P, C>(v: View<H, P, C>, cs: seq<Call<H, P, C>>): View<H, P, C>
    decreases |cs|
  {
    if cs == [] then v else DoAll(Do(v, cs[0]), cs[1..])
  }

  predicate AllPossible<H, P, C>(v: View<H, P, C>, cs: seq<Call<H, P, C>>)
    decreases |cs|
  {
    cs != [] ==> Possible(v, cs[0]) && AllPossible(Do(v, cs[0]), cs[1..])
  }

  lemma {:induction false} DoAppend<H, P, C>(v: View<H, P, C>, xs: seq<Call<H, P, C>>, ys: seq<Call<H, P, C>>)
    ensures DoAll(v, xs + ys) == DoAll(DoAll(v, xs), ys)
    ensures AllPossible(v, xs + ys) <==> AllPossible(v, xs) && AllPossible(DoAll(v, xs), ys)
    decreases |xs|
  {
    if xs == [] {
      assert xs + ys == ys;
    } else {
      assert (xs + ys)[0] == xs[0] && (xs + ys)[1..] == xs[1..] + ys;
      DoAppend(Do(v, xs[0]), xs[1..], ys);
    }
  }

  // ---- view and state ----

  ghost predicate SameSlot<P, C>(x: Slot<P, C>, y: Slot<P, C>) {
    x.cookie == y.cookie && x.msgId == y.msgId && x.msgLen == y.msgLen
  }

  ghost predicate Shows<H, P, C>(v: View<H, P, C>, m: State<H, P, C>) {
    && v.ports == m.ports
    && v.chans.Keys == m.chans.Keys
    && forall h :: h in m.chans ==> SameSlot(v.chans[h], m.chans[h])
  }

  function ViewOf<H, P, C>(m: State<H, P, C>): View<H, P, C> {
    View(m.ports, m.chans)
  }

  // ---- the calls for an input ----

  /** From set_cookie on. */
  function BindCalls<H, P, C>(p: P, h: H, setCookieOk: bool, bufferOk: bool): seq<Call<H, P, C>> {
    if !setCookieOk then [Close(h)]
    else [SetCookie(h, S.PortCookie(p))] + if bufferOk then [] else [Close(h)]
  }

  function CreateCalls<H, P, C>(p: P, handle: Option<H>, setCookieOk: bool, bufferOk: bool,
                                o: Opening<P, C>): seq<Call<H, P, C>>
  {
    [PortCreate(handle, o)] + if handle.None? then [] else BindCalls(p, handle.value, setCookieOk, bufferOk)
  }

  /** The handles of the channels in the list of p, from its head. */
  ghost function DrainCalls<H, P, C>(m: State<H, P, C>, p: P): seq<Call<H, P, C>>
    requires S.DrainChannels(m, p).Running?
    decreases if p in m.portCtx then |m.portCtx[p].channels| else 0
  {
    if m.portCtx[p].channels == [] then []
    else [Close(m.chanCtx[m.portCtx[p].channels[0]].handle)] + DrainCalls(S.DrainOne(m, p).state, p)
  }

  function AcceptCalls<H, P, C>(a: S.Accept<H, P, C>): seq<Call<H, P, C>> {
    match a.chan
    case None => [Accept(None, a.stale)]
    case Some(ch) =>
      [Accept(a.chan, a.stale),
       if a.ctx.Some? && a.setCookieOk then SetCookie(ch, S.ChanCookie(a.ctx.value)) else Close(ch)]
  }

  /** put_msg on every message that get_msg announced; then whatever the
      application's handler leaves pending. */
  function MessageCalls<H, P, C>(h: H, slot: Slot<P, C>, r: S.Receive): seq<Call<H, P, C>> {
    if S.GetMsg(slot, r.getErr) != NO_ERROR then []
    else
      (if r.putOk then [PutMsg(h)] else [])
      + if StorageProofs.Accepts(slot, r) then [NewMsg(h, r.idAfter, r.lenAfter)] else []
  }

  function CloseCalls<H, P, C>(h: H, gone: bool): seq<Call<H, P, C>> {
    if gone then [Close(h)] else []
  }

  function ChannelCalls<H, P, C>(h: H, slot: Slot<P, C>, hasMsgHandler: bool, ev: Event,
                                 r: S.Receive): seq<Call<H, P, C>>
  {
    if ev.msg && hasMsgHandler then
      MessageCalls(h, slot, r) + CloseCalls(h, StorageProofs.Refused(slot, r) || ev.hup)
    else CloseCalls(h, ev.msg || ev.hup)
  }

  /** The cookie of an open handle is of the right kind. */
  ghost predicate HasContext<H, P, C>(m: State<H, P, C>, h: H) {
    if h in m.ports then m.ports[h].PortCookie?
    else h in m.chans && m.chans[h].cookie.ChanCookie? && m.chans[h].cookie.chan in m.chanCtx
  }

  /** The event is dispatched in state m, after wait_any. */
  ghost function DispatchCalls<H, P, C>(m: State<H, P, C>, i: Input<H, P, C>): seq<Call<H, P, C>>
    requires i.Wait?
  {
    if !HasContext(m, i.h) then []
    else if i.h in m.ports then if i.ev.ready then AcceptCalls(i.accept) else []
    else ChannelCalls(i.h, m.chans[i.h], m.chanCtx[m.chans[i.h].cookie.chan].hasMsgHandler, i.ev, i.receive)
  }

  ghost function AfterWait<H, P, C>(m: State<H, P, C>, i: Input<H, P, C>): State<H, P, C>
    requires i.Wait?
  {
    if i.ev.msg then S.NewMsg(m, i.h, i.msgId, i.msgLen) else m
  }

  /** wait_any, when it reports MSG, and nothing otherwise. */
  function NewsCalls<H, P, C>(i: Input<H, P, C>): seq<Call<H, P, C>>
    requires i.Wait?
  {
    if i.ev.msg then [NewMsg(i.h, i.msgId, i.msgLen)] else []
  }

  /** The calls that the server makes for an input, in order; o goes with its port_create. */
  ghost function Calls<H, P, C>(m: State<H, P, C>, i: Input<H, P, C>, o: Opening<P, C>): seq<Call<H, P, C>>
    requires S.Step(m, i).Running?
  {
    match i
    case Create(p, handle, setCookieOk, maxBuf, reallocOk) =>
      CreateCalls(p, handle, setCookieOk, maxBuf <= m.bufSize || reallocOk, o)
    case Destroy(p) =>
      [Close(m.portCtx[p].handle)] + DrainCalls(S.Close(m, m.portCtx[p].handle).state, p)
    case Wait(_, _, _, _, _, _) => NewsCalls(i) + DispatchCalls(AfterWait(m, i), i)
  }

  // ---- what the calls do ----

  /** The calls are possible from v, and take it to a view of m. */
  ghost predicate Takes<H, P, C>(v: View<H, P, C>, cs: seq<Call<H, P, C>>, m: State<H, P, C>) {
    AllPossible(v, cs) && Shows(DoAll(v, cs), m)
  }

  lemma TakesNone<H, P, C>(v: View<H, P, C>, m: State<H, P, C>)
    requires Shows(v, m)
    ensures Takes(v, [], m)
  {
  }

  lemma TakesOne<H, P, C>(v: View<H, P, C>, c: Call<H, P, C>, m: State<H, P, C>)
    requires Possible(v, c) && Shows(Do(v, c), m)
    ensures DoAll(v, [c]) == Do(v, c) && Takes(v, [c], m)
  {
    assert [c][1..] == [];
  }

  lemma TakesMore<H, P, C>(v: View<H, P, C>, xs: seq<Call<H, P, C>>, m1: State<H, P, C>,
                           ys: seq<Call<H, P, C>>, m2: State<H, P, C>)
    requires Takes(v, xs, m1) && Takes(DoAll(v, xs), ys, m2)
    ensures Takes(v, xs + ys, m2)
  {
    DoAppend(v, xs, ys);
  }

  lemma CloseTakes<H, P, C>(v: View<H, P, C>, m: State<H, P, C>, h: H)
    requires Shows(v, m) && m.ports.Keys !! m.chans.Keys && S.Close(m, h).Running?
    ensures Takes(v, [Close(h)], S.Close(m, h).state)
  {
    var t := S.Close(m, h).state;
    var u := Do(v, Close(h));
    assert h !in m.ports ==> m.ports - {h} == m.ports;
    assert h !in m.chans ==> v.chans - {h} == v.chans;
    assert u.chans.Keys == t.chans.Keys;
    TakesOne(v, Close(h), t);
  }

  /** m1 is m with the port h open, whatever its cookie. */
  lemma UndoTakes<H, P, C>(v: View<H, P, C>, m: State<H, P, C>, m1: State<H, P, C>, h: H, stale: Cookie<P, C>,
                           t: State<H, P, C>)
    requires h !in m.ports && h !in m.chans && m1 == m.(ports := m.ports[h := stale]) && Shows(v, m1)
    requires t.ports == m.ports && t.chans == m.chans
    ensures Takes(v, [Close(h)], t)
  {
    assert m.ports[h := stale] - {h} == m.ports && v.chans - {h} == v.chans;
    TakesOne(v, Close(h), t);
  }

  lemma BindTakes<H, P, C>(v: View<H, P, C>, m: State<H, P, C>, p: P, h: H, stale: Cookie<P, C>, setCookieOk: bool,
                           bufferOk: bool, t: State<H, P, C>)
    requires h !in m.ports && h !in m.chans && Shows(v, m.(ports := m.ports[h := stale]))
    requires t.ports == (if setCookieOk && bufferOk then m.ports[h := S.PortCookie(p)] else m.ports)
    requires t.chans == m.chans
    ensures Takes(v, BindCalls(p, h, setCookieOk, bufferOk), t)
  {
    if !setCookieOk {
      UndoTakes(v, m, m.(ports := m.ports[h := stale]), h, stale, t);
    } else {
      var c := SetCookie(h, S.PortCookie(p));
      var m2 := m.(ports := m.ports[h := S.PortCookie(p)]);
      assert m.ports[h := stale][h := S.PortCookie(p)] == m2.ports;
      TakesOne(v, c, m2);
      if bufferOk {
        assert [c] + [] == [c];
      } else {
        UndoTakes(DoAll(v, [c]), m, m2, h, S.PortCookie(p), t);
        TakesMore(v, [c], m2, [Close(h)], t);
      }
    }
  }

  lemma CreateTakes<H, P, C>(v: View<H, P, C>, m: State<H, P, C>, p: P, handle: Option<H>, setCookieOk: bool,
                             maxBuf: nat, reallocOk: bool, o: Opening<P, C>)
    requires Shows(v, m) && (handle.Some? ==> handle.value !in m.ports && handle.value !in m.chans)
    ensures S.PortCreate(m, p, handle, setCookieOk, maxBuf, reallocOk).Running?
    ensures Takes(v, CreateCalls(p, handle, setCookieOk, maxBuf <= m.bufSize || reallocOk, o),
                  S.PortCreate(m, p, handle, setCookieOk, maxBuf, reallocOk).state.0)
  {
    var t := S.PortCreate(m, p, handle, setCookieOk, maxBuf, reallocOk).state.0;
    var open := [PortCreate(handle, o)];
    if handle.None? {
      TakesOne(v, PortCreate(None, o), t);
      assert open + [] == open;
    } else {
      var h := handle.value;
      var m1 := m.(ports := m.ports[h := o.stale]);
      var bufferOk := maxBuf <= m.bufSize || reallocOk;
      TakesOne(v, PortCreate(handle, o), m1);
      assert !setCookieOk || !bufferOk ==> t.ports == m.ports;
      BindTakes(DoAll(v, open), m, p, h, o.stale, setCookieOk, bufferOk, t);
      TakesMore(v, open, m1, BindCalls(p, h, setCookieOk, bufferOk), t);
    }
  }

  lemma {:induction false} DrainTakes<H, P, C>(v: View<H, P, C>, m: State<H, P, C>, p: P)
    requires Shows(v, m) && m.ports.Keys !! m.chans.Keys && S.DrainChannels(m, p).Running?
    ensures Takes(v, DrainCalls(m, p), S.DrainChannels(m, p).state)
    decreases if p in m.portCtx then |m.portCtx[p].channels| else 0
  {
    if m.portCtx[p].channels == [] {
      TakesNone(v, m);
    } else {
      var c := m.portCtx[p].channels[0];
      var h := m.chanCtx[c].handle;
      var m1 := S.DrainOne(m, p).state;
      var unlinked := m.(portCtx := m.portCtx[p := m.portCtx[p].(channels := m.portCtx[p].channels[1..])]);
      CloseTakes(v, S.Disconnected(unlinked, c), h);
      DrainTakes(DoAll(v, [Close(h)]), m1, p);
      TakesMore(v, [Close(h)], m1, DrainCalls(m1, p), S.DrainChannels(m1, p).state);
    }
  }

  lemma DestroyTakes<H, P, C>(v: View<H, P, C>, m: State<H, P, C>, p: P, o: Opening<P, C>)
    requires Shows(v, m) && m.ports.Keys !! m.chans.Keys && S.PortDestroy(m, p).Running?
    ensures Takes(v, Calls(m, S.Destroy(p), o), S.PortDestroy(m, p).state)
  {
    var h := m.portCtx[p].handle;
    var m1 := S.Close(m, h).state;
    CloseTakes(v, m, h);
    DrainTakes(DoAll(v, [Close(h)]), m1, p);
    TakesMore(v, [Close(h)], m1, DrainCalls(m1, p), S.DrainChannels(m1, p).state);
  }

  /** do_connect after accept: one more call, set_cookie or close. */
  lemma WelcomeTakes<H, P, C>(v: View<H, P, C>, m: State<H, P, C>, p: P, ch: H, a: S.Accept<H, P, C>)
    requires Shows(v, m) && m.ports.Keys !! m.chans.Keys && |m.sessions| > 0 && ch in m.chans
    requires a.chan == Some(ch) && S.Welcome(m, p, ch, a).Running?
    ensures Takes(v, [AcceptCalls(a)[1]], S.Welcome(m, p, ch, a).state)
  {
    if a.ctx.None? {
      CloseTakes(v, m, ch);
    } else {
      var m2 := S.Connected(m, ch, a.ctx.value, a.hasMsgHandler);
      if a.setCookieOk {
        TakesOne(v, AcceptCalls(a)[1], S.Welcome(m, p, ch, a).state);
      } else {
        CloseTakes(v, S.Disconnected(m2, a.ctx.value), ch);
      }
    }
  }

  lemma ConnectTakes<H, P, C>(v: View<H, P, C>, m: State<H, P, C>, p: P, ev: Event, a: S.Accept<H, P, C>)
    requires Shows(v, m) && m.ports.Keys !! m.chans.Keys && ev.ready && S.DoConnect(m, p, ev, a).Running?
    requires a.chan.Some? ==> a.chan.value !in m.ports && a.chan.value !in m.chans
    ensures Takes(v, AcceptCalls(a), S.DoConnect(m, p, ev, a).state)
  {
    match a.chan
    case None => TakesOne(v, Accept(None, a.stale), m);
    case Some(ch) =>
      var c0, c1 := AcceptCalls(a)[0], AcceptCalls(a)[1];
      var m1 := S.Accepted(m, p, ch, a.stale);
      TakesOne(v, c0, m1);
      WelcomeTakes(DoAll(v, [c0]), m1, p, ch, a);
      TakesMore(v, [c0], m1, [c1], S.Welcome(m1, p, ch, a).state);
      assert [c0] + [c1] == AcceptCalls(a);
  }

  lemma DisconnectTakes<H, P, C>(v: View<H, P, C>, m: State<H, P, C>, c: C, h: H)
    requires Shows(v, m) && m.ports.Keys !! m.chans.Keys && S.DoDisconnect(m, c, h).Running?
    ensures Takes(v, CloseCalls(h, true), S.DoDisconnect(m, c, h).state)
  {
    CloseTakes(v, S.Disconnected(S.ListDelete(m, c).state, c), h);
  }

  lemma MessageTakes<H, P, C>(v: View<H, P, C>, m: State<H, P, C>, c: C, h: H, r: S.Receive)
    requires Shows(v, m) && h in m.chans && S.DoHandleMsg(m, c, h, r).Running?
    ensures Takes(v, MessageCalls(h, m.chans[h], r), S.DoHandleMsg(m, c, h, r).state.0)
    ensures S.DoHandleMsg(m, c, h, r).state.1 < 0 <==> StorageProofs.Refused(m.chans[h], r)
    ensures S.DoHandleMsg(m, c, h, r).state.0.ports == m.ports
    ensures S.DoHandleMsg(m, c, h, r).state.0.chans.Keys == m.chans.Keys
  {
    var slot := m.chans[h];
    var t := S.DoHandleMsg(m, c, h, r).state.0;
    if S.GetMsg(slot, r.getErr) != NO_ERROR {
      TakesNone(v, m);
    } else {
      var puts: seq<Call<H, P, C>> := if r.putOk then [PutMsg(h)] else [];
      var m1 := S.PutMsg(m, h, r.putOk);
      if r.putOk {
        TakesOne(v, PutMsg(h), m1);
      } else {
        TakesNone(v, m1);
      }
      if StorageProofs.Accepts(slot, r) {
        TakesOne(DoAll(v, puts), NewMsg(h, r.idAfter, r.lenAfter), t);
        TakesMore(v, puts, m1, [NewMsg(h, r.idAfter, r.lenAfter)], t);
      } else {
        assert puts + [] == puts;
      }
    }
  }

  lemma ChannelTakes<H, P, C>(v: View<H, P, C>, m: State<H, P, C>, c: C, h: H, ev: Event, r: S.Receive)
    requires Shows(v, m) && m.ports.Keys !! m.chans.Keys && h in m.chans && c in m.chanCtx
    requires S.HandleChannelEvent(m, c, h, ev, r).Running?
    ensures Takes(v, ChannelCalls(h, m.chans[h], m.chanCtx[c].hasMsgHandler, ev, r),
                  S.HandleChannelEvent(m, c, h, ev, r).state)
  {
    if ev.msg && m.chanCtx[c].hasMsgHandler {
      var cs := MessageCalls<H, P, C>(h, m.chans[h], r);
      var gone := StorageProofs.Refused(m.chans[h], r) || ev.hup;
      var m1 := S.DoHandleMsg(m, c, h, r).state.0;
      MessageTakes(v, m, c, h, r);
      if gone {
        DisconnectTakes(DoAll(v, cs), m1, c, h);
        TakesMore(v, cs, m1, CloseCalls(h, true), S.DoDisconnect(m1, c, h).state);
      } else {
        assert cs + [] == cs;
      }
    } else if ev.msg || ev.hup {
      DisconnectTakes(v, m, c, h);
    } else {
      TakesNone(v, m);
    }
  }

  lemma DispatchTakes<H, P, C>(v: View<H, P, C>, m: State<H, P, C>, i: Input<H, P, C>)
    requires Shows(v, m) && m.ports.Keys !! m.chans.Keys && i.Wait? && HasContext(m, i.h)
    requires i.accept.chan.Some? ==> i.accept.chan.value !in m.ports && i.accept.chan.value !in m.chans
    requires S.DispatchEvent(m, i.h, i.ev, i.accept, i.receive).Running?
    ensures Takes(v, DispatchCalls(m, i), S.DispatchEvent(m, i.h, i.ev, i.accept, i.receive).state)
  {
    if i.ev.IsNone() {
      TakesNone(v, m);
    } else if i.h in m.ports {
      if i.ev.ready {
        ConnectTakes(v, m, m.ports[i.h].port, i.ev, i.accept);
      } else {
        TakesNone(v, m);
      }
    } else {
      ChannelTakes(v, m, m.chans[i.h].cookie.chan, i.h, i.ev, i.receive);
    }
  }

  lemma NewsTakes<H, P, C>(v: View<H, P, C>, m: State<H, P, C>, i: Input<H, P, C>)
    requires Shows(v, m) && i.Wait? && (i.h in m.ports || i.h in m.chans)
    ensures Takes(v, NewsCalls(i), AfterWait(m, i))
  {
    if i.ev.msg {
      TakesOne(v, NewMsg(i.h, i.msgId, i.msgLen), AfterWait(m, i));
    } else {
      TakesNone(v, m);
    }
  }

  /** By the invariant an event finds its context. */
  lemma InvHasContext<H, P, C>(m: State<H, P, C>, h: H)
    requires StorageProofs.Inv(m) && (h in m.ports || h in m.chans)
    ensures HasContext(m, h) && m.ports.Keys !! m.chans.Keys
  {
  }

  lemma WaitTakes<H, P, C>(v: View<H, P, C>, m: State<H, P, C>, i: Input<H, P, C>, o: Opening<P, C>)
    requires Shows(v, m) && StorageProofs.Inv(m) && i.Wait? && S.Allowed(m, i) && S.Step(m, i).Running?
    ensures Takes(v, Calls(m, i, o), S.Step(m, i).state)
  {
    var m1 := AfterWait(m, i);
    NewsTakes(v, m, i);
    StorageProofs.NewMsgInv(m, i.h, i.msgId, i.msgLen);
    InvHasContext(m1, i.h);
    DispatchTakes(DoAll(v, NewsCalls(i)), m1, i);
    TakesMore(v, NewsCalls(i), m1, DispatchCalls(m1, i), S.Step(m, i).state);
  }

  /** For every input, each call acts on an open handle (in particular only open
      handles are closed), or opens one that was not; and together they do to the open
      handles, their cookies and messages what the step does. */
  lemma StepTakes<H, P, C>(v: View<H, P, C>, m: State<H, P, C>, i: Input<H, P, C>, o: Opening<P, C>)
    requires Shows(v, m) && StorageProofs.Inv(m) && S.Allowed(m, i) && S.Step(m, i).Running?
    ensures Takes(v, Calls(m, i, o), S.Step(m, i).state)
  {
    match i
    case Create(p, handle, setCookieOk, maxBuf, reallocOk) =>
      CreateTakes(v, m, p, handle, setCookieOk, maxBuf, reallocOk, o);
    case Destroy(p) => DestroyTakes(v, m, p, o);
    case Wait(_, _, _, _, _, _) => WaitTakes(v, m, i, o);
  }

  // ---- runs ----

  /** The calls for a run; os has one opening for each input. */
  ghost function RunCalls<H, P, C>(m: State<H, P, C>, inputs: seq<Input<H, P, C>>,
                                   os: seq<Opening<P, C>>): seq<Call<H, P, C>>
    requires |os| == |inputs| && S.Run(m, inputs).Running?
    decreases |inputs|
  {
    if inputs == [] then []
    else Calls(m, inputs[0], os[0]) + RunCalls(S.Step(m, inputs[0]).state, inputs[1..], os[1..])
  }

  /** The same for runs of any length. */
  lemma {:induction false} RunTakes<H, P, C>(v: View<H, P, C>, m: State<H, P, C>, inputs: seq<Input<H, P, C>>,
                                             os: seq<Opening<P, C>>)
    requires Shows(v, m) && StorageProofs.Inv(m) && S.AllowedRun(m, inputs) && S.Run(m, inputs).Running?
    requires |os| == |inputs|
    ensures Takes(v, RunCalls(m, inputs, os), S.Run(m, inputs).state)
    decreases |inputs|
  {
    if inputs == [] {
      TakesNone(v, m);
    } else {
      var m1 := S.Step(m, inputs[0]).state;
      var cs := Calls(m, inputs[0], os[0]);
      StepTakes(v, m, inputs[0], os[0]);
      StorageProofs.StepInv(m, inputs[0]);
      RunTakes(DoAll(v, cs), m1, inputs[1..], os[1..]);
      TakesMore(v, cs, m1, RunCalls(m1, inputs[1..], os[1..]), S.Run(m, inputs).state);
    }
  }
}
