/** The keymaster's event loop on values: two ports, and a context for every
    channel. C is the type of (pointers to) channel contexts. As in `StorageSpec`,
    what must not happen is an outcome of its own. */
module KeymasterSpec {
  import opened Trusty

  const GATEKEEPER_UUID :=
    Uuid(0x38ba0cdc, 0xdf0e, 0x11e4, [0x98, 0x69, 0x23, 0x3f, 0xb6, 0xae, 0x47, 0x95])

  datatype Dispatcher = DispatchSecure | DispatchNonSecure

  /** struct keymaster_chan_ctx; `viaSecure` is the port it was accepted on. */
  datatype Context = Context(chan: int, uuid: Uuid, dispatch: Dispatcher, viaSecure: bool)

  /** The cookie of a handle: one of the two static port handlers, or a context. */
  datatype Cookie<+C> = NullCookie | SecurePortHandler | NonSecurePortHandler | ChannelHandler(ctx: C)

  datatype Violation =
    | NoSuchHandle    // an event is handled, or a handle closed, that is not open
    | StaleContext    // a context is used or deleted that is not live

  datatype Outcome<+S> = Running(state: S) | Aborted | Fault(why: Violation)

  datatype State<C> = State(ports: map<int, Cookie<C>>, chans: map<int, Cookie<C>>, ctxs: map<C, Context>,
                            created: nat, deleted: nat)

  /** What an incoming connection meets: the result of accept (an error below 0,
      INVALID_IPC_HANDLE, or a new handle), what the handle's slot holds, the peer's
      uuid, the memory `new` returns, and the result of set_cookie. */
  datatype Accept<C> = Accept(rc: int, stale: Cookie<C>, uuid: Uuid, memory: Option<C>, cookieRc: int)

  predicate Accessible(uuid: Uuid, secure: bool) { !secure || uuid == GATEKEEPER_UUID }

  ghost function Close<C>(s: State<C>, h: int): Outcome<State<C>> {
    if h in s.ports then Running(s.(ports := s.ports - {h}))
    else if h in s.chans then Running(s.(chans := s.chans - {h}))
    else Fault(NoSuchHandle)
  }

  /** keymaster_ctx_close */
  ghost function CtxClose<C>(s: State<C>, c: C): Outcome<State<C>> {
    if c !in s.ctxs then Fault(StaleContext)
    else
      match Close(s, s.ctxs[c].chan)
      case Running(t) => Running(t.(ctxs := t.ctxs - {c}, deleted := t.deleted + 1))
      case Aborted => Aborted
      case Fault(w) => Fault(w)
  }

  /** The new context of keymaster_ctx_open; None if access is denied or there is no memory. */
  ghost function CtxOpen<C>(a: Accept<C>, secure: bool): Option<C> {
    if Accessible(a.uuid, secure) then a.memory else None
  }

  ghost function Opened<C>(s: State<C>, c: C, a: Accept<C>, secure: bool): State<C> {
    s.(ctxs := s.ctxs[c := Context(a.rc, a.uuid, if secure then DispatchSecure else DispatchNonSecure, secure)],
       created := s.created + 1)
  }

  /** The state after accept returned without an error. */
  ghost function Accepted<C>(s: State<C>, a: Accept<C>): State<C> {
    if a.rc == INVALID_IPC_HANDLE then s else s.(chans := s.chans[a.rc := a.stale])
  }

  ghost function SetCookie<C>(s: State<C>, h: int, c: C): State<C> {
    if h in s.chans then s.(chans := s.chans[h := ChannelHandler(c)]) else s
  }

  /** keymaster_port_handler. It takes a failure of accept to be below 0. */
  ghost function PortHandler<C>(s: State<C>, secure: bool, ev: Event, a: Accept<C>): Outcome<State<C>> {
    if ev.error || ev.hup || ev.msg || ev.sendUnblocked then Aborted
    else if !ev.ready || a.rc < 0 then Running(s)
    else Admit(Accepted(s, a), secure, a)
  }

  ghost function Admit<C>(s: State<C>, secure: bool, a: Accept<C>): Outcome<State<C>> {
    match CtxOpen(a, secure)
    case None => Close(s, a.rc)
    case Some(c) =>
      if a.cookieRc < 0 then CtxClose(Opened(s, c, a, secure), c)
      else Running(SetCookie(Opened(s, c, a, secure), a.rc, c))
  }

  /** keymaster_chan_handler, given the result of handle_msg. On an ERROR or READY
      event it closes the handle and forgets the context. */
  ghost function ChanHandler<C>(s: State<C>, c: C, h: int, ev: Event, msgRc: int): Outcome<State<C>> {
    if ev.error || ev.ready then Close(s, h)
    else if c !in s.ctxs then Fault(StaleContext)
    else if (ev.msg && msgRc != NO_ERROR) || ev.hup then CtxClose(s, c)
    else Running(s)
  }

  ghost function CookieOf<C>(s: State<C>, h: int): Cookie<C> {
    if h in s.ports then s.ports[h] else if h in s.chans then s.chans[h] else NullCookie
  }

  /** dispatch_event */
  ghost function DispatchEvent<C>(s: State<C>, h: int, ev: Event, a: Accept<C>, msgRc: int): Outcome<State<C>> {
    if ev.IsNone() then Running(s)
    else if CookieOf(s, h) == NullCookie then Close(s, h)
    else if h !in s.ports && h !in s.chans then Fault(NoSuchHandle)
    else
      match CookieOf(s, h)
      case SecurePortHandler => PortHandler(s, true, ev, a)
      case NonSecurePortHandler => PortHandler(s, false, ev, a)
      case ChannelHandler(c) => ChanHandler(s, c, h, ev, msgRc)
  }

  // ---- runs ----

  /** The state after a successful keymaster_ipc_init. */
  ghost function Init<C>(secure: int, nonSecure: int): State<C> {
    State(map[secure := SecurePortHandler, nonSecure := NonSecurePortHandler], map[], map[], 0, 0)
  }

  /** One round of the main loop. */
  datatype Input<C> = Input(h: int, ev: Event, accept: Accept<C>, msgRc: int)

  /** wait_any reports open handles; accept returns new handles and `new` memory
      that is not in use. */
  ghost predicate Allowed<C>(s: State<C>, i: Input<C>) {
    && (i.h in s.ports || i.h in s.chans)
    && i.accept.rc !in s.ports && i.accept.rc !in s.chans
    && (i.accept.memory.Some? ==> i.accept.memory.value !in s.ctxs)
  }

  ghost function Step<C>(s: State<C>, i: Input<C>): Outcome<State<C>> {
    DispatchEvent(s, i.h, i.ev, i.accept, i.msgRc)
  }

  ghost function Run<C>(s: State<C>, inputs: seq<Input<C>>): Outcome<State<C>>
    decreases |inputs|
  {
    if inputs == [] then Running(s)
    else
      match Step(s, inputs[0])
      case Running(t) => Run(t, inputs[1..])
      case Aborted => Aborted
      case Fault(w) => Fault(w)
  }

  ghost predicate AllowedRun<C>(s: State<C>, inputs: seq<Input<C>>)
    decreases |inputs|
  {
    inputs != [] ==>
      Allowed(s, inputs[0]) && (Step(s, inputs[0]).Running? ==> AllowedRun(Step(s, inputs[0]).state, inputs[1..]))
  }
}
