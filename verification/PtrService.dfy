/** The storage server over the pointer table, with objects as handles: the calls of
    `StorageCalls` keep the heap in the state that the specification describes, step
    by step and over whole runs. */
module PtrService {
  import opened Trusty
  import P = PtrSpec
  import PtrSyscalls
  import Simulation
  import S = StorageSpec
  import StorageProofs
  import opened StorageCalls

  type Heap<A, B> = seq<P.Obj<Cookie<A, B>>>
  type PtrCall<A, B> = Call<nat, A, B>
  type Garbage = Simulation.Garbage

  // ---- heap and state ----

  predicate IsActive<K>(heap: seq<P.Obj<K>>, o: nat, isPort: bool) {
    o < |heap| && heap[o].active && heap[o].isPort == isPort
  }

  ghost predicate InObject<A, B>(x: Slot<A, B>, y: P.Obj<Cookie<A, B>>) {
    x.cookie == y.cookie && x.msgId == y.msgId && x.msgLen == y.msgLen
  }

  /** The open ports are the active port objects, with the same cookies. */
  ghost predicate PortsMatch<A, B>(ports: map<nat, Cookie<A, B>>, heap: Heap<A, B>) {
    && (forall o :: o in ports <==> IsActive(heap, o, true))
    && (forall o :: o in ports ==> ports[o] == heap[o].cookie)
  }

  /** The open channels are the active channel objects, with the same cookies and messages. */
  ghost predicate ChansMatch<A, B>(chans: map<nat, Slot<A, B>>, heap: Heap<A, B>) {
    && (forall o :: o in chans <==> IsActive(heap, o, false))
    && (forall o :: o in chans ==> InObject(chans[o], heap[o]))
  }

  ghost predicate Matches<A, B>(ports: map<nat, Cookie<A, B>>, chans: map<nat, Slot<A, B>>, heap: Heap<A, B>) {
    PortsMatch(ports, heap) && ChansMatch(chans, heap)
  }

  // ---- one call ----

  /** The change of the heap; g is what the environment leaves in a new object. */
  function OpsOf<A, B>(c: PtrCall<A, B>, g: Garbage): seq<P.Op<Cookie<A, B>>> {
    match c
    case PortCreate(port, o) =>
      if o.path.None? then [] else [PtrSyscalls.NewPort(o.flags, P.Choice(port.Some?, g.secure, g.msgId, g.msgLen))]
    case Accept(chan, slot) => [P.NewChannel(P.Choice(chan.Some?, g.secure, slot.msgId, slot.msgLen))]
    case Close(h) => [P.Free(h)]
    case SetCookie(h, cookie) => [P.SetCookie(h, cookie)]
    case PutMsg(h) => [P.SetMsgId(h, INVALID_IPC_MSG_ID)]
    case NewMsg(h, id, len) => [P.NewMsg(h, id, len)]
  }

  /** A new handle is the one that the system call over the heap returns; a new
      object's cookie is null. */
  predicate Fits<A(==), B(==)>(heap: Heap<A, B>, c: PtrCall<A, B>, g: Garbage) {
    match c
    case PortCreate(port, o) =>
      port == PtrSyscalls.PortCreateResult(heap, o.path, o.flags, P.Choice(port.Some?, g.secure, g.msgId, g.msgLen))
      && (port.Some? ==> o.stale == S.NullCookie)
    case Accept(chan, slot) =>
      chan == P.Result(heap, OpsOf(c, g)[0]) && (chan.Some? ==> slot.cookie == S.NullCookie)
    case _ => true
  }

  function Run<A, B>(heap: Heap<A, B>, ops: seq<P.Op<Cookie<A, B>>>): Heap<A, B> {
    P.Run(heap, S.NullCookie, ops)
  }

  /** Freeing an object closes that handle and no other. */
  lemma FreeMatches<A, B>(v: View<nat, A, B>, heap: Heap<A, B>, o: nat)
    requires Matches(v.ports, v.chans, heap)
    ensures Matches(v.ports - {o}, v.chans - {o}, P.Next(heap, S.NullCookie, P.Free(o)))
  {
  }

  /** The next object is a new handle. */
  lemma NewPortMatches<A, B>(v: View<nat, A, B>, heap: Heap<A, B>, x: P.Obj<Cookie<A, B>>)
    requires Matches(v.ports, v.chans, heap) && x.active && x.isPort
    ensures Matches(v.ports[|heap| := x.cookie], v.chans, heap + [x])
  {
  }

  lemma NewChannelMatches<A, B>(v: View<nat, A, B>, heap: Heap<A, B>, x: P.Obj<Cookie<A, B>>, slot: Slot<A, B>)
    requires Matches(v.ports, v.chans, heap) && x.active && !x.isPort && InObject(slot, x)
    ensures Matches(v.ports, v.chans[|heap| := slot], heap + [x])
  {
  }

  lemma CookieMatches<A, B>(v: View<nat, A, B>, heap: Heap<A, B>, o: nat, cookie: Cookie<A, B>)
    requires Matches(v.ports, v.chans, heap) && v.IsOpen(o)
    ensures var u := Do(v, SetCookie(o, cookie));
      Matches(u.ports, u.chans, P.Next(heap, S.NullCookie, P.SetCookie(o, cookie)))
  {
  }

  lemma NewMsgMatches<A, B>(v: View<nat, A, B>, heap: Heap<A, B>, o: nat, id: nat, len: nat)
    requires Matches(v.ports, v.chans, heap)
    ensures var u := Do(v, NewMsg(o, id, len));
      Matches(u.ports, u.chans, P.Next(heap, S.NullCookie, P.NewMsg(o, id, len)))
  {
  }

  lemma PutMsgMatches<A, B>(v: View<nat, A, B>, heap: Heap<A, B>, o: nat)
    requires Matches(v.ports, v.chans, heap)
    ensures var u := Do(v, PutMsg(o));
      Matches(u.ports, u.chans, P.Next(heap, S.NullCookie, P.SetMsgId(o, INVALID_IPC_MSG_ID)))
  {
  }

  /** One call. */
  lemma CallMatches<A, B>(v: View<nat, A, B>, heap: Heap<A, B>, c: PtrCall<A, B>, g: Garbage)
    requires Matches(v.ports, v.chans, heap) && Possible(v, c) && Fits(heap, c, g)
    ensures Matches(Do(v, c).ports, Do(v, c).chans, Run(heap, OpsOf(c, g)))
  {
    if OpsOf(c, g) != [] {
      Simulation.RunOne(heap, S.NullCookie, OpsOf(c, g)[0]);
      match c
      case PortCreate(port, o) =>
        if port.Some? {
          NewPortMatches(v, heap, P.Next(heap, S.NullCookie, OpsOf(c, g)[0])[|heap|]);
        }
      case Accept(chan, slot) =>
        if chan.Some? {
          NewChannelMatches(v, heap, P.Next(heap, S.NullCookie, OpsOf(c, g)[0])[|heap|], slot);
        }
      case Close(h) => FreeMatches(v, heap, h);
      case SetCookie(h, cookie) => CookieMatches(v, heap, h, cookie);
      case PutMsg(h) => PutMsgMatches(v, heap, h);
      case NewMsg(h, id, len) => NewMsgMatches(v, heap, h, id, len);
    }
  }

  // ---- all calls ----

  function AllOps<A, B>(cs: seq<PtrCall<A, B>>, gs: seq<Garbage>): seq<P.Op<Cookie<A, B>>>
    requires |gs| == |cs|
  {
    if cs == [] then [] else OpsOf(cs[0], gs[0]) + AllOps(cs[1..], gs[1..])
  }

  ghost predicate AllFit<A, B>(heap: Heap<A, B>, cs: seq<PtrCall<A, B>>, gs: seq<Garbage>)
    requires |gs| == |cs|
    decreases |cs|
  {
    cs != [] ==> Fits(heap, cs[0], gs[0]) && AllFit(Run(heap, OpsOf(cs[0], gs[0])), cs[1..], gs[1..])
  }

  lemma {:induction false} CallsMatch<A, B>(v: View<nat, A, B>, heap: Heap<A, B>, cs: seq<PtrCall<A, B>>,
                                            gs: seq<Garbage>)
    requires Matches(v.ports, v.chans, heap) && AllPossible(v, cs) && |gs| == |cs| && AllFit(heap, cs, gs)
    ensures Matches(DoAll(v, cs).ports, DoAll(v, cs).chans, Run(heap, AllOps(cs, gs)))
    decreases |cs|
  {
    if cs == [] {
    } else {
      var ops := OpsOf(cs[0], gs[0]);
      CallMatches(v, heap, cs[0], gs[0]);
      CallsMatch(Do(v, cs[0]), Run(heap, ops), cs[1..], gs[1..]);
      Simulation.PtrRunAppend(heap, S.NullCookie, ops, AllOps(cs[1..], gs[1..]));
    }
  }

  lemma TakenMatches<A, B>(v: View<nat, A, B>, cs: seq<PtrCall<A, B>>, m: State<nat, A, B>, heap: Heap<A, B>,
                           gs: seq<Garbage>)
    requires Takes(v, cs, m) && Matches(v.ports, v.chans, heap) && |gs| == |cs| && AllFit(heap, cs, gs)
    ensures Matches(m.ports, m.chans, Run(heap, AllOps(cs, gs)))
  {
    CallsMatch(v, heap, cs, gs);
  }

  // ---- the server ----

  /** Every step of the server is matched by its calls on the heap objects; and the
      cookie of an event is the one that the specification dispatches on. */
  lemma StepMatches<A, B>(m: State<nat, A, B>, heap: Heap<A, B>, i: Input<nat, A, B>, o: Opening<A, B>,
                          gs: seq<Garbage>)
    requires Matches(m.ports, m.chans, heap) && StorageProofs.Inv(m) && S.Allowed(m, i) && S.Step(m, i).Running?
    requires |gs| == |Calls(m, i, o)| && AllFit(heap, Calls(m, i, o), gs)
    ensures Matches(S.Step(m, i).state.ports, S.Step(m, i).state.chans, Run(heap, AllOps(Calls(m, i, o), gs)))
    ensures i.Wait? ==> i.h < |heap| && heap[i.h].active && heap[i.h].cookie == S.CookieOf(m, i.h)
  {
    StepTakes(ViewOf(m), m, i, o);
    TakenMatches(ViewOf(m), Calls(m, i, o), S.Step(m, i).state, heap, gs);
    assert i.Wait? ==> IsActive(heap, i.h, true) || IsActive(heap, i.h, false);
  }

  /** A storage server over the pointer table, from its start: in every state a run
      reaches the active objects are exactly the open handles of a state that
      satisfies the global invariant, and once no port is left no object is active. */
  lemma ServerOverPointers<A, B>(inputs: seq<Input<nat, A, B>>, os: seq<Opening<A, B>>, gs: seq<Garbage>)
    requires var m := S.Init<nat, A, B>();
      && S.AllowedRun(m, inputs) && S.Run(m, inputs).Running? && |os| == |inputs|
      && |gs| == |RunCalls(m, inputs, os)| && AllFit([], RunCalls(m, inputs, os), gs)
    ensures var m := S.Run(S.Init<nat, A, B>(), inputs).state;
      var heap := Run([], AllOps(RunCalls(S.Init<nat, A, B>(), inputs, os), gs));
      && StorageProofs.Inv(m) && Matches(m.ports, m.chans, heap)
      && (m.portCtx == map[] ==> forall o :: 0 <= o < |heap| ==> !heap[o].active)
  {
    var m0 := S.Init<nat, A, B>();
    var cs := RunCalls(m0, inputs, os);
    StorageProofs.InitInv<nat, A, B>();
    StorageProofs.RunInv(m0, inputs);
    RunTakes(ViewOf(m0), m0, inputs, os);
    var m := S.Run(m0, inputs).state;
    TakenMatches(ViewOf(m0), cs, m, [], gs);
    if m.portCtx == map[] {
      var heap := Run([], AllOps(cs, gs));
      StorageProofs.NoPortNoHandle(m);
      forall o | 0 <= o < |heap|
        ensures !heap[o].active
      {
        assert !IsActive(heap, o, true) && !IsActive(heap, o, false);
      }
    }
  }

  /** Over this table ipc_port_create without a name fails and changes nothing. */
  lemma UnnamedPortFails<A, B>(m: State<nat, A, B>, heap: Heap<A, B>, p: A, handle: Option<nat>, setCookieOk: bool,
                               maxBuf: nat, reallocOk: bool, o: Opening<A, B>, g: Garbage)
    requires Fits(heap, PortCreate(handle, o), g) && o.path.None?
    ensures S.PortCreate(m, p, handle, setCookieOk, maxBuf, reallocOk) == S.Running((m, -1))
  {
  }
}
