/** What the storage server's IPC layer does, call by call, on values.

    Every C function of `ipc.c` that touches handles, cookies, contexts, channel
    lists or the message buffer is a function from a state to an outcome. The
    outcome says what C would leave unsaid: a failed assertion, the use of a
    freed context, closing a handle that is not open, or a write past the end of
    the message buffer is a `Fault`. `StorageProofs` shows when none occurs.

    H is the type of handles, P and C the types of (pointers to) port and channel
    contexts. What the kernel and the callbacks may do is an input. */
module StorageSpec {
  import opened Trusty

  const MSG_BUF_MAX_SIZE := 4096

  /** What must never happen. */
  datatype Violation =
    | AssertContext     // the cookie of an event is null
    | AssertHandler     // the context has no event handler
    | AssertHandle      // the context belongs to another handle
    | WrongKind         // a port's handler is run on a channel context or the reverse
    | StaleContext      // a context is used that was never set up or is already gone
    | NotLinked         // a list node is deleted that is in no list
    | InactiveHandle    // a handle is used or closed that is not open
    | BufferOverrun     // more bytes are stored in msg_buf than it holds

  datatype Outcome<+S> = Running(state: S) | Aborted | Fault(why: Violation) {
    predicate IsFailure() { !Running? }
    function PropagateFailure<T>(): Outcome<T>
      requires !Running?
    {
      match this
      case Aborted => Aborted
      case Fault(w) => Fault(w)
    }
    function Extract(): S
      requires Running?
    { state }

    /** The same outcome with a return code beside the state. */
    function With<T>(t: T): Outcome<(S, T)> {
      match this
      case Running(s) => Running((s, t))
      case Aborted => Aborted
      case Fault(w) => Fault(w)
    }
  }

  /** A cookie is a pointer to a context; its constructor is the kind of object
      really behind the pointer. */
  datatype Cookie<+P, +C> = NullCookie | PortCookie(port: P) | ChanCookie(chan: C)

  /** The `evt_handler` of a context. */
  datatype Handler = NoHandler | HandlePort | HandleChannel

  datatype PortContext<H, C> = PortContext(handler: Handler, handle: H, channels: seq<C>)

  /** `link` is the port in whose list the node is linked; `sid` numbers the
      accepted connection the context serves. */
  datatype ChanContext<H, P> =
    ChanContext(handler: Handler, handle: H, hasMsgHandler: bool, link: Option<P>, sid: nat)

  /** What the kernel keeps for an open channel handle. */
  datatype Slot<P, C> = Slot(cookie: Cookie<P, C>, msgId: nat, msgLen: nat, sid: nat)

  /** The history of one accepted connection: the port it came in on, its
      handle, the context `on_connect` returned for it, and how often
      `on_disconnect` was called on that context and the handle was closed. */
  datatype Session<H, P, C> =
    Session(port: P, handle: H, ctx: Option<C>, disconnects: nat, closes: nat)

  /** One call of `on_handle_msg`: the announced length and the bytes read. */
  datatype Delivery = Delivery(sid: nat, len: nat, read: int)

  datatype State<H, P, C> = State(
    ports: map<H, Cookie<P, C>>,          // open port handles and their cookies
    chans: map<H, Slot<P, C>>,            // open channel handles
    portCtx: map<P, PortContext<H, C>>,   // port contexts between create and destroy
    chanCtx: map<C, ChanContext<H, P>>,   // channel contexts between on_connect and on_disconnect
    bufSize: nat,                         // msg_buf_size
    bufAlloc: nat,                        // bytes really behind msg_buf
    grows: seq<nat>,                      // sizes asked of maybe_grow_msg_buf and not refused
    sessions: seq<Session<H, P, C>>,
    delivered: seq<Delivery>)

  ghost function Init<H, P, C>(): State<H, P, C> {
    State(map[], map[], map[], map[], 0, 0, [], [], [])
  }

  /** What a connection attempt meets: the handle `accept` returns and what its
      slot happens to hold, what `on_connect` returns, and whether `set_cookie`
      succeeds. */
  datatype Accept<H, P, C> = Accept(chan: Option<H>, stale: Slot<P, C>, ctx: Option<C>,
                                    hasMsgHandler: bool, setCookieOk: bool)

  /** What a read attempt meets: the kernel's error for `get_msg` (or
      nothing below 0), the result of `read_msg`, whether `put_msg` succeeds, the result
      of `on_handle_msg` and the message it leaves pending. */
  datatype Receive = Receive(getErr: int, readRc: int, putOk: bool,
                             handlerRc: int, idAfter: nat, lenAfter: nat)

  // ---- intrusive lists ----

  function Without<T(==)>(xs: seq<T>, x: T): seq<T> {
    if xs == [] then []
    else if xs[0] == x then xs[1..]
    else [xs[0]] + Without(xs[1..], x)
  }

  ghost function AddTail<H, P, C>(s: State<H, P, C>, p: P, c: C): Outcome<State<H, P, C>> {
    if p !in s.portCtx || c !in s.chanCtx then Fault(StaleContext)
    else Running(s.(portCtx := s.portCtx[p := s.portCtx[p].(channels := s.portCtx[p].channels + [c])],
                    chanCtx := s.chanCtx[c := s.chanCtx[c].(link := Some(p))]))
  }

  ghost function ListDelete<H, P, C>(s: State<H, P, C>, c: C): (r: Outcome<State<H, P, C>>)
    ensures r.Running? ==> c in s.chanCtx && c in r.state.chanCtx
  {
    if c !in s.chanCtx then Fault(StaleContext)
    else
      match s.chanCtx[c].link
      case None => Fault(NotLinked)
      case Some(p) =>
        if p !in s.portCtx then Fault(StaleContext)
        else
          Running(s.(portCtx := s.portCtx[p := s.portCtx[p].(channels := Without(s.portCtx[p].channels, c))],
                     chanCtx := s.chanCtx[c := s.chanCtx[c].(link := None)]))
  }

  // ---- kernel calls and callbacks ----

  ghost function NoteClose<H, P, C>(ss: seq<Session<H, P, C>>, i: nat): seq<Session<H, P, C>> {
    if i < |ss| then ss[i := ss[i].(closes := ss[i].closes + 1)] else ss
  }

  ghost function NoteDisconnect<H, P, C>(ss: seq<Session<H, P, C>>, i: nat): seq<Session<H, P, C>> {
    if i < |ss| then ss[i := ss[i].(disconnects := ss[i].disconnects + 1)] else ss
  }

  ghost function Close<H, P, C>(s: State<H, P, C>, h: H): (r: Outcome<State<H, P, C>>)
    ensures r.Running? ==> r.state.portCtx == s.portCtx
  {
    if h in s.ports then Running(s.(ports := s.ports - {h}))
    else if h in s.chans then
      Running(s.(chans := s.chans - {h}, sessions := NoteClose(s.sessions, s.chans[h].sid)))
    else Fault(InactiveHandle)
  }

  /** The state after `on_disconnect`, which ends the life of the context. */
  ghost function Disconnected<H, P, C>(s: State<H, P, C>, c: C): State<H, P, C>
    requires c in s.chanCtx
  {
    s.(chanCtx := s.chanCtx - {c}, sessions := NoteDisconnect(s.sessions, s.chanCtx[c].sid))
  }

  function GetMsg<P, C>(slot: Slot<P, C>, err: int): int {
    if err < NO_ERROR then err
    else if slot.msgId != INVALID_IPC_MSG_ID then NO_ERROR
    else ERR_GENERIC
  }

  ghost function PutMsg<H, P, C>(s: State<H, P, C>, h: H, ok: bool): State<H, P, C> {
    if ok && h in s.chans then s.(chans := s.chans[h := s.chans[h].(msgId := INVALID_IPC_MSG_ID)]) else s
  }

  /** `wait_any` puts a new message on a channel when it reports MSG. */
  ghost function NewMsg<H, P, C>(s: State<H, P, C>, h: H, id: nat, len: nat): State<H, P, C> {
    if h in s.chans then s.(chans := s.chans[h := s.chans[h].(msgId := id, msgLen := len)]) else s
  }

  // ---- ipc.c ----

  ghost function DoDisconnect<H, P, C>(s: State<H, P, C>, c: C, h: H): Outcome<State<H, P, C>> {
    var s1 :- ListDelete(s, c);
    Close(Disconnected(s1, c), h)
  }

  /** The state after `accept` returned ch for port p. */
  ghost function Accepted<H, P, C>(s: State<H, P, C>, p: P, ch: H, stale: Slot<P, C>): State<H, P, C> {
    s.(chans := s.chans[ch := stale.(sid := |s.sessions|)],
       sessions := s.sessions + [Session(p, ch, None, 0, 0)])
  }

  /** The state after `on_connect` returned c for the newest session and its
      handler and handle were filled in. */
  ghost function Connected<H, P, C>(s: State<H, P, C>, ch: H, c: C, hasMsgHandler: bool): State<H, P, C>
    requires |s.sessions| > 0
  {
    var sid := |s.sessions| - 1;
    s.(chanCtx := s.chanCtx[c := ChanContext(HandleChannel, ch, hasMsgHandler, None, sid)],
       sessions := s.sessions[sid := s.sessions[sid].(ctx := Some(c))])
  }

  ghost function SetChanCookie<H, P, C>(s: State<H, P, C>, ch: H, c: C): State<H, P, C> {
    if ch in s.chans then s.(chans := s.chans[ch := s.chans[ch].(cookie := ChanCookie(c))]) else s
  }

  ghost function DoConnect<H, P, C>(s: State<H, P, C>, p: P, ev: Event, a: Accept<H, P, C>): Outcome<State<H, P, C>> {
    if !ev.ready || a.chan.None? then Running(s)
    else Welcome(Accepted(s, p, a.chan.value, a.stale), p, a.chan.value, a)
  }

  /** do_connect after accept: ask for a context and fill it in, or close the new handle. */
  ghost function Welcome<H, P, C>(s: State<H, P, C>, p: P, ch: H, a: Accept<H, P, C>): Outcome<State<H, P, C>>
    requires |s.sessions| > 0
  {
    match a.ctx
    case None => Close(s, ch)
    case Some(c) => Establish(Connected(s, ch, c, a.hasMsgHandler), p, ch, c, a.setCookieOk)
  }

  /** The end of do_connect: set the cookie and link the context, or give both up. */
  ghost function Establish<H, P, C>(s: State<H, P, C>, p: P, ch: H, c: C, setCookieOk: bool): Outcome<State<H, P, C>>
    requires c in s.chanCtx
  {
    if !setCookieOk then Close(Disconnected(s, c), ch)
    else AddTail(SetChanCookie(s, ch, c), p, c)
  }

  ghost function DoHandleMsg<H, P, C>(s: State<H, P, C>, c: C, h: H, r: Receive): Outcome<(State<H, P, C>, int)> {
    if h !in s.chans then Fault(InactiveHandle)
    else
      var rc := GetMsg(s.chans[h], r.getErr);
      var len := s.chans[h].msgLen;
      if rc == ERR_NO_MSG then Running((s, NO_ERROR))
      else if rc != NO_ERROR then Running((s, rc))
      else if len > MSG_BUF_MAX_SIZE then Running((PutMsg(s, h, r.putOk), ERR_NOT_ENOUGH_BUFFER))
      else ReadAndHandle(s, c, h, len, r)
  }

  /** do_handle_msg from read_msg on, for a message of len bytes. */
  ghost function ReadAndHandle<H, P, C>(s: State<H, P, C>, c: C, h: H, len: nat,
                                        r: Receive): Outcome<(State<H, P, C>, int)> {
    if r.readRc > s.bufAlloc then Fault(BufferOverrun)
    else
      var s1 := PutMsg(s, h, r.putOk);
      if r.readRc < 0 then Running((s1, r.readRc))
      else if r.readRc < len then Running((s1, ERR_NOT_VALID))
      else if c !in s1.chanCtx then Fault(StaleContext)
      else
        var s2 := s1.(delivered := s1.delivered + [Delivery(s1.chanCtx[c].sid, len, r.readRc)]);
        Running((NewMsg(s2, h, r.idAfter, r.lenAfter), r.handlerRc))
  }

  ghost function HandleChannelEvent<H, P, C>(s: State<H, P, C>, c: C, h: H, ev: Event,
                                             r: Receive): Outcome<State<H, P, C>> {
    if c !in s.chanCtx then Fault(StaleContext)
    else if ev.error || ev.ready then Aborted
    else if ev.msg then HandleMessageEvent(s, c, h, ev.hup, r)
    else if ev.hup then DoDisconnect(s, c, h)
    else Running(s)
  }

  /** The same for an event with MSG, which may come with HUP. */
  ghost function HandleMessageEvent<H, P, C>(s: State<H, P, C>, c: C, h: H, hup: bool,
                                             r: Receive): Outcome<State<H, P, C>>
    requires c in s.chanCtx
  {
    if s.chanCtx[c].hasMsgHandler then
      var (s1, rc) :- DoHandleMsg(s, c, h, r);
      if rc < 0 || hup then DoDisconnect(s1, c, h) else Running(s1)
    else DoDisconnect(s, c, h)
  }

  ghost function HandlePortEvent<H, P, C>(s: State<H, P, C>, p: P, ev: Event, a: Accept<H, P,
                                          C>): Outcome<State<H, P, C>> {
    if p !in s.portCtx then Fault(StaleContext)
    else if ev.error || ev.hup || ev.msg || ev.sendUnblocked then Aborted
    else DoConnect(s, p, ev, a)
  }

  ghost function CookieOf<H, P, C>(s: State<H, P, C>, h: H): Cookie<P, C> {
    if h in s.ports then s.ports[h] else if h in s.chans then s.chans[h].cookie else NullCookie
  }

  ghost function DispatchEvent<H, P, C>(s: State<H, P, C>, h: H, ev: Event, a: Accept<H, P, C>,
                                        r: Receive): Outcome<State<H, P, C>> {
    if ev.IsNone() then Running(s)
    else
      match CookieOf(s, h)
      case NullCookie => Fault(AssertContext)
      case PortCookie(p) =>
        if p !in s.portCtx then Fault(StaleContext)
        else if s.portCtx[p].handler == NoHandler then Fault(AssertHandler)
        else if s.portCtx[p].handle != h then Fault(AssertHandle)
        else if s.portCtx[p].handler != HandlePort then Fault(WrongKind)
        else HandlePortEvent(s, p, ev, a)
      case ChanCookie(c) =>
        if c !in s.chanCtx then Fault(StaleContext)
        else if s.chanCtx[c].handler == NoHandler then Fault(AssertHandler)
        else if s.chanCtx[c].handle != h then Fault(AssertHandle)
        else if s.chanCtx[c].handler != HandleChannel then Fault(WrongKind)
        else HandleChannelEvent(s, c, h, ev, r)
  }

  /** `maybe_grow_msg_buf`; None when `realloc` fails. */
  ghost function GrowMsgBuf<H, P, C>(s: State<H, P, C>, size: nat, reallocOk: bool): Option<State<H, P, C>> {
    if size <= s.bufSize then Some(s.(grows := s.grows + [size]))
    else if !reallocOk then None
    else Some(s.(bufSize := size, bufAlloc := size, grows := s.grows + [size]))
  }

  /** `ipc_port_create`, with the handle `port_create` returns. */
  ghost function PortCreate<H, P, C>(s: State<H, P, C>, p: P, handle: Option<H>, setCookieOk: bool,
                                     maxBuf: nat, reallocOk: bool): Outcome<(State<H, P, C>, int)> {
    if handle.None? then Running((s, -1))
    else
      var h := handle.value;
      var s1 := s.(ports := s.ports[h := NullCookie]);
      if !setCookieOk then Close(s1, h).With(ERR_GENERIC)
      else
        var s2 := s1.(ports := s1.ports[h := PortCookie(p)]);
        match GrowMsgBuf(s2, maxBuf, reallocOk)
        case None => Close(s2, h).With(ERR_NO_MEMORY)
        case Some(s3) =>
          Running((s3.(portCtx := s3.portCtx[p := PortContext(HandlePort, h, [])]), NO_ERROR))
  }

  /** `ipc_port_create` when `port_create` returns h, which is neither the invalid
      handle nor open: what the flat table does without a port name. `set_cookie`
      passes or fails, without effect. */
  ghost function CreateUnopened<H, P, C>(s: State<H, P, C>, p: P, h: H, setCookieOk: bool,
                                         maxBuf: nat, reallocOk: bool): Outcome<State<H, P, C>> {
    if !setCookieOk then Close(s, h)
    else
      match GrowMsgBuf(s, maxBuf, reallocOk)
      case None => Close(s, h)
      case Some(s1) => Running(s1.(portCtx := s1.portCtx[p := PortContext(HandlePort, h, [])]))
  }

  /** The loop of `ipc_port_destroy`. */
  ghost function DrainChannels<H, P, C>(s: State<H, P, C>, p: P): Outcome<State<H, P, C>>
    decreases if p in s.portCtx then |s.portCtx[p].channels| else 0
  {
    if p !in s.portCtx then Fault(StaleContext)
    else if s.portCtx[p].channels == [] then Running(s)
    else
      var s3 :- DrainOne(s, p);
      DrainChannels(s3, p)
  }

  /** One round of that loop: unlink the head, end its context, close its handle. */
  ghost function DrainOne<H, P, C>(s: State<H, P, C>, p: P): (r: Outcome<State<H, P, C>>)
    requires p in s.portCtx && s.portCtx[p].channels != []
    ensures r.Running? ==> p in r.state.portCtx && r.state.portCtx[p].channels == s.portCtx[p].channels[1..]
  {
    var c := s.portCtx[p].channels[0];
    var s1 := s.(portCtx := s.portCtx[p := s.portCtx[p].(channels := s.portCtx[p].channels[1..])]);
    if c !in s1.chanCtx then Fault(StaleContext)
    else Close(Disconnected(s1, c), s1.chanCtx[c].handle)
  }

  ghost function PortDestroy<H, P, C>(s: State<H, P, C>, p: P): Outcome<State<H, P, C>> {
    if p !in s.portCtx then Fault(StaleContext)
    else
      var s1 :- Close(s, s.portCtx[p].handle);
      var s2 :- DrainChannels(s1, p);
      Running(s2.(portCtx := s2.portCtx - {p}))
  }

  // ---- runs ----

  /** One thing that happens to the server: the application creates or destroys a
      port, or one round of `ipc_loop` handles what `wait_any` reported. */
  datatype Input<H, P, C> =
    | Create(p: P, handle: Option<H>, setCookieOk: bool, maxBuf: nat, reallocOk: bool)
    | Destroy(p: P)
    | Wait(h: H, ev: Event, msgId: nat, msgLen: nat, accept: Accept<H, P, C>, receive: Receive)

  /** What the kernel, the callbacks and the application may do: new handles are
      not open, new contexts are not in use, `wait_any` reports open handles,
      `read_msg` stores at most as many bytes as the message announced, and the
      application creates a port on a context that is not in use and destroys
      only ports it created. */
  ghost predicate Allowed<H, P, C>(s: State<H, P, C>, i: Input<H, P, C>) {
    match i
    case Create(p, handle, _, _, _) =>
      p !in s.portCtx && (handle.Some? ==> handle.value !in s.ports && handle.value !in s.chans)
    case Destroy(p) => p in s.portCtx
    case Wait(h, ev, id, len, a, r) =>
      && (h in s.ports || h in s.chans)
      && (a.chan.Some? ==> a.chan.value !in s.ports && a.chan.value !in s.chans)
      && (a.ctx.Some? ==> a.ctx.value !in s.chanCtx)
      && r.readRc <= (if h !in s.chans then 0 else if ev.msg then len else s.chans[h].msgLen)
  }

  ghost function Step<H, P, C>(s: State<H, P, C>, i: Input<H, P, C>): Outcome<State<H, P, C>> {
    match i
    case Create(p, handle, setCookieOk, maxBuf, reallocOk) =>
      var (s1, _) :- PortCreate(s, p, handle, setCookieOk, maxBuf, reallocOk);
      Running(s1)
    case Destroy(p) => PortDestroy(s, p)
    case Wait(h, ev, id, len, a, r) =>
      DispatchEvent(if ev.msg then NewMsg(s, h, id, len) else s, h, ev, a, r)
  }

  ghost function Run<H, P, C>(s: State<H, P, C>, inputs: seq<Input<H, P, C>>): Outcome<State<H, P, C>>
    decreases |inputs|
  {
    if inputs == [] then Running(s)
    else
      var s1 :- Step(s, inputs[0]);
      Run(s1, inputs[1..])
  }

  /** Every input of the run is allowed in the state it meets. */
  ghost predicate AllowedRun<H, P, C>(s: State<H, P, C>, inputs: seq<Input<H, P, C>>)
    decreases |inputs|
  {
    inputs != [] ==>
      Allowed(s, inputs[0]) && (Step(s, inputs[0]).Running? ==> AllowedRun(Step(s, inputs[0]).state, inputs[1..]))
  }
}
