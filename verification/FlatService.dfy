/** The storage server over the flat table, as a whole program: any ports, created
    and destroyed in any order, for any sizes of buffer. The calls of `StorageCalls`
    keep the table in the state that the specification describes; no slot is freed
    that is not active, so the counters tell how many are. */
module FlatService {
  import opened Trusty
  import F = FlatSpec
  import FlatProofs
  import Syscalls
  import S = StorageSpec
  import StorageProofs
  import opened StorageCalls

  type FlatTable<P, C> = F.Table<Cookie<P, C>>
  type FlatCall<P, C> = Call<int, P, C>

  // ---- table and state ----

  /** The open handles are the active slots of the table, with the same cookies and
      messages, and the counters tell their number. */
  ghost predicate Matches<P, C>(ports: map<int, Cookie<P, C>>, chans: map<int, Slot<P, C>>, t: FlatTable<P, C>) {
    && t.Valid() && FlatProofs.CountersExact(t)
    && t.layout.portMax < TWO_32 && t.layout.chanMax - t.layout.chanMin + 1 < TWO_32
    && (forall h :: h in ports <==> t.IsActivePort(h))
    && (forall h :: h in ports ==> ports[h] == t.Port(h).cookie)
    && (forall h :: h in chans <==> t.IsActiveChan(h))
    && (forall h :: h in chans ==> InSlot(chans[h], t.Chan(h)))
  }

  ghost predicate InSlot<P, C>(x: Slot<P, C>, y: F.ChanSlot<Cookie<P, C>>) {
    x.cookie == y.cookie && x.msgId == y.msgId && x.msgLen == y.msgLen
  }

  lemma EmptyMatches<P, C>(layout: F.Layout)
    requires layout.Valid() && layout.portMax < TWO_32 && layout.chanMax - layout.chanMin + 1 < TWO_32
    ensures Matches(map[], map[], F.Empty<Cookie<P, C>>(layout, S.NullCookie))
  {
    FlatProofs.NoneActive(F.Empty<Cookie<P, C>>(layout, S.NullCookie));
  }

  /** No slot is active, and both counters are 0. */
  ghost predicate NothingActive<K>(t: F.Table<K>) {
    (forall h :: !t.IsActive(h)) && t.nPorts == 0 && t.nChans == 0
  }

  lemma NothingOpen<P, C>(t: FlatTable<P, C>)
    requires Matches(map[], map[], t)
    ensures NothingActive(t)
  {
    forall i | 0 <= i < |t.ports|
      ensures !t.ports[i].active
    {
      assert t.IsPort(i + 1) && !t.IsActivePort(i + 1);
    }
    forall i | 0 <= i < |t.chans|
      ensures !t.chans[i].active
    {
      assert t.IsChan(i + t.layout.chanMin) && !t.IsActiveChan(i + t.layout.chanMin);
    }
    FlatProofs.NoneActive(t);
  }

  // ---- one call ----

  /** The change of the table; an allocation that fails makes none. */
  function OpsOf<P, C>(c: FlatCall<P, C>): seq<F.Op<Cookie<P, C>>> {
    match c
    case PortCreate(port, o) =>
      if port.Some? && o.path.Some? then [F.NewPort(Syscalls.SecureFlag(o.flags), o.path.value)] else []
    case Accept(chan, _) => if chan.Some? then [F.NewChannel] else []
    case Close(h) => [F.Free(h)]
    case SetCookie(h, cookie) => [F.SetCookie(h, cookie)]
    case PutMsg(h) => [F.SetMsgId(h, INVALID_IPC_MSG_ID)]
    case NewMsg(h, id, len) => [F.NewMsg(h, id, len)]
  }

  /** A new handle is the one the system call on the table returns, with what the
      table holds in its slot. The call may also fail on a table with room. */
  ghost predicate Fits<P, C>(t: FlatTable<P, C>, c: FlatCall<P, C>)
    requires t.Valid()
  {
    match c
    case PortCreate(port, o) =>
      o.path.Some? && (port.Some? ==>
        port.value == Syscalls.PortCreateResult(t, o.path, o.flags) != INVALID_IPC_HANDLE
        && t.IsPort(port.value) && o.stale == t.Port(port.value).cookie)
    case Accept(chan, slot) =>
      chan.Some? ==>
        chan.value == F.Result(t, F.NewChannel) != INVALID_IPC_HANDLE
        && t.IsChan(chan.value) && InSlot(slot, t.Chan(chan.value))
    case _ => true
  }

  /** The call frees no slot that is not active. */
  predicate FreesActive<K>(t: F.Table<K>, op: F.Op<K>) {
    !FlatProofs.IsBadPortFree(t, op) && !FlatProofs.IsBadChanFree(t, op)
  }

  lemma RunOne<K>(t: F.Table<K>, op: F.Op<K>)
    requires t.Valid()
    ensures F.Run(t, [op]) == F.Next(t, op)
  {
    assert [op][..0] == [];
  }

  lemma CreateMatches<P, C>(v: View<int, P, C>, t: FlatTable<P, C>, h: int, o: Opening<P, C>)
    requires Matches(v.ports, v.chans, t) && Fits(t, PortCreate(Some(h), o))
    ensures Matches(v.ports[h := o.stale], v.chans, F.Next(t, F.NewPort(Syscalls.SecureFlag(o.flags), o.path.value)))
  {
    var op: F.Op<Cookie<P, C>> := F.NewPort(Syscalls.SecureFlag(o.flags), o.path.value);
    FlatProofs.NewPortIsFirstFit(t, op.secure, op.path);
    FlatProofs.StepKeepsCounters(t, op);
  }

  lemma AcceptMatches<P, C>(v: View<int, P, C>, t: FlatTable<P, C>, ch: int, slot: Slot<P, C>)
    requires Matches(v.ports, v.chans, t) && Fits(t, Accept(Some(ch), slot))
    ensures Matches(v.ports, v.chans[ch := slot], F.Next(t, F.NewChannel))
  {
    FlatProofs.NewChannelIsFirstFit(t);
    FlatProofs.StepKeepsCounters(t, F.NewChannel);
  }

  lemma CloseMatches<P, C>(v: View<int, P, C>, t: FlatTable<P, C>, h: int)
    requires Matches(v.ports, v.chans, t) && v.IsOpen(h)
    ensures FreesActive(t, F.Free(h))
    ensures Matches(v.ports - {h}, v.chans - {h}, F.Next(t, F.Free(h)))
  {
    FlatProofs.StepKeepsCounters(t, F.Free(h));
  }

  lemma CookieMatches<P, C>(v: View<int, P, C>, t: FlatTable<P, C>, h: int, cookie: Cookie<P, C>)
    requires Matches(v.ports, v.chans, t) && v.IsOpen(h)
    ensures var u := Do(v, SetCookie(h, cookie)); Matches(u.ports, u.chans, F.Next(t, F.SetCookie(h, cookie)))
  {
    FlatProofs.StepKeepsCounters(t, F.SetCookie(h, cookie));
  }

  lemma MessageMatches<P, C>(v: View<int, P, C>, t: FlatTable<P, C>, c: FlatCall<P, C>)
    requires Matches(v.ports, v.chans, t) && (c.PutMsg? || c.NewMsg?)
    ensures Matches(Do(v, c).ports, Do(v, c).chans, F.Next(t, OpsOf(c)[0]))
  {
    FlatProofs.StepKeepsCounters(t, OpsOf(c)[0]);
  }

  /** One call. */
  lemma CallMatches<P, C>(v: View<int, P, C>, t: FlatTable<P, C>, c: FlatCall<P, C>)
    requires Matches(v.ports, v.chans, t) && Possible(v, c) && Fits(t, c)
    ensures Matches(Do(v, c).ports, Do(v, c).chans, F.Run(t, OpsOf(c)))
    ensures OpsOf(c) != [] ==> |OpsOf(c)| == 1 && FreesActive(t, OpsOf(c)[0])
  {
    if OpsOf(c) != [] {
      RunOne(t, OpsOf(c)[0]);
      match c
      case PortCreate(port, o) => CreateMatches(v, t, port.value, o);
      case Accept(chan, slot) => AcceptMatches(v, t, chan.value, slot);
      case Close(h) => CloseMatches(v, t, h);
      case SetCookie(h, cookie) => CookieMatches(v, t, h, cookie);
      case _ => MessageMatches(v, t, c);
    }
  }

  // ---- all calls ----

  function AllOps<P, C>(cs: seq<FlatCall<P, C>>): seq<F.Op<Cookie<P, C>>> {
    if cs == [] then [] else OpsOf(cs[0]) + AllOps(cs[1..])
  }

  ghost predicate AllFit<P, C>(t: FlatTable<P, C>, cs: seq<FlatCall<P, C>>)
    requires t.Valid()
    decreases |cs|
  {
    cs != [] ==> Fits(t, cs[0]) && AllFit(F.Run(t, OpsOf(cs[0])), cs[1..])
  }

  predicate AllFreeActive<K>(t: F.Table<K>, ops: seq<F.Op<K>>)
    requires t.Valid()
  {
    FlatProofs.BadPortFrees(t, ops) == 0 && FlatProofs.BadChanFrees(t, ops) == 0
  }

  lemma {:induction false} RunAppend<K>(t: F.Table<K>, xs: seq<F.Op<K>>, ys: seq<F.Op<K>>)
    requires t.Valid()
    ensures F.Run(t, xs + ys) == F.Run(F.Run(t, xs), ys)
    ensures AllFreeActive(t, xs) && AllFreeActive(F.Run(t, xs), ys) ==> AllFreeActive(t, xs + ys)
  {
    if ys == [] {
      assert xs + ys == xs;
    } else {
      var n := |ys| - 1;
      RunAppend(t, xs, ys[..n]);
      assert (xs + ys)[..|xs| + n] == xs + ys[..n];
    }
  }

  lemma {:induction false} CallsMatch<P, C>(v: View<int, P, C>, t: FlatTable<P, C>, cs: seq<FlatCall<P, C>>)
    requires Matches(v.ports, v.chans, t) && AllPossible(v, cs) && AllFit(t, cs)
    ensures Matches(DoAll(v, cs).ports, DoAll(v, cs).chans, F.Run(t, AllOps(cs)))
    ensures AllFreeActive(t, AllOps(cs))
    decreases |cs|
  {
    if cs == [] {
    } else {
      var t1 := F.Run(t, OpsOf(cs[0]));
      CallMatches(v, t, cs[0]);
      if OpsOf(cs[0]) != [] {
        assert OpsOf(cs[0])[..0] == [];
      }
      assert AllFreeActive(t, OpsOf(cs[0]));
      CallsMatch(Do(v, cs[0]), t1, cs[1..]);
      RunAppend(t, OpsOf(cs[0]), AllOps(cs[1..]));
    }
  }

  lemma ShownMatches<P, C>(v: View<int, P, C>, m: State<int, P, C>, t: FlatTable<P, C>)
    requires Shows(v, m) && Matches(v.ports, v.chans, t)
    ensures Matches(m.ports, m.chans, t)
  {
  }

  lemma TakenMatches<P, C>(v: View<int, P, C>, cs: seq<FlatCall<P, C>>, m: State<int, P, C>, t: FlatTable<P, C>)
    requires Takes(v, cs, m) && Matches(v.ports, v.chans, t) && AllFit(t, cs)
    ensures Matches(m.ports, m.chans, F.Run(t, AllOps(cs))) && AllFreeActive(t, AllOps(cs))
  {
    CallsMatch(v, t, cs);
    ShownMatches(DoAll(v, cs), m, F.Run(t, AllOps(cs)));
  }

  // ---- the server ----

  /** One step of the server, from any state with the invariant. */
  lemma StepMatches<P, C>(m: State<int, P, C>, t: FlatTable<P, C>, i: Input<int, P, C>, o: Opening<P, C>)
    requires Matches(m.ports, m.chans, t) && StorageProofs.Inv(m) && S.Allowed(m, i) && S.Step(m, i).Running?
    requires AllFit(t, Calls(m, i, o))
    ensures var ops := AllOps(Calls(m, i, o));
      Matches(S.Step(m, i).state.ports, S.Step(m, i).state.chans, F.Run(t, ops)) && AllFreeActive(t, ops)
  {
    StepTakes(ViewOf(m), m, i, o);
    TakenMatches(ViewOf(m), Calls(m, i, o), S.Step(m, i).state, t);
  }

  /** A storage server over a flat table of any size, from its start: in every state
      a run reaches, the active slots are exactly the open handles of a state with
      the global invariant, both counters tell their number, and every close on the
      way freed an active slot; once no port is left, no slot is active and both
      counters are 0. */
  lemma ServerOverFlat<P, C>(layout: F.Layout, inputs: seq<Input<int, P, C>>, os: seq<Opening<P, C>>)
    requires layout.Valid() && layout.portMax < TWO_32 && layout.chanMax - layout.chanMin + 1 < TWO_32
    requires var m := S.Init<int, P, C>();
      && S.AllowedRun(m, inputs) && S.Run(m, inputs).Running? && |os| == |inputs|
      && AllFit(F.Empty(layout, S.NullCookie), RunCalls(m, inputs, os))
    ensures var m := S.Run(S.Init<int, P, C>(), inputs).state;
      var t0 := F.Empty(layout, S.NullCookie);
      var ops := AllOps(RunCalls(S.Init<int, P, C>(), inputs, os));
      var t := F.Run(t0, ops);
      && StorageProofs.Inv(m) && Matches(m.ports, m.chans, t) && AllFreeActive(t0, ops)
      && (m.portCtx == map[] ==> NothingActive(t))
  {
    var m0 := S.Init<int, P, C>();
    var cs := RunCalls(m0, inputs, os);
    StorageProofs.InitInv<int, P, C>();
    StorageProofs.RunInv(m0, inputs);
    EmptyMatches<P, C>(layout);
    RunTakes(ViewOf(m0), m0, inputs, os);
    var m := S.Run(m0, inputs).state;
    TakenMatches(ViewOf(m0), cs, m, F.Empty(layout, S.NullCookie));
    if m.portCtx == map[] {
      StorageProofs.NoPortNoHandle(m);
      NothingOpen(F.Run(F.Empty(layout, S.NullCookie), AllOps(cs)));
    }
  }
}
