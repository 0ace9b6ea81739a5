/** The global invariant of the storage server and what follows from it for every
    run. */
module StorageProofs {
  import opened Trusty
  import opened StorageSpec

  // ---- the invariant ----

  ghost predicate NoDup<T>(xs: seq<T>) {
    forall i, j :: 0 <= i < j < |xs| ==> xs[i] != xs[j]
  }

  /** Open port handles and port contexts are in bijection; a port in `dying` may
      already have closed its handle. */
  ghost predicate PortsOk<H, P, C>(ports: map<H, Cookie<P, C>>, portCtx: map<P, PortContext<H, C>>, dying: set<P>) {
    && (forall h :: h in ports ==>
         ports[h].PortCookie? && ports[h].port in portCtx && portCtx[ports[h].port].handle == h
         && ports[h].port !in dying)
    && (forall p :: p in portCtx ==>
         portCtx[p].handler == HandlePort
         && (p !in dying ==> portCtx[p].handle in ports && ports[portCtx[p].handle] == PortCookie(p)))
  }

  /** Open channel handles and channel contexts are in bijection. */
  ghost predicate ChansOk<H, P, C>(chans: map<H, Slot<P, C>>, chanCtx: map<C, ChanContext<H, P>>) {
    && (forall h :: h in chans ==>
         chans[h].cookie.ChanCookie? && chans[h].cookie.chan in chanCtx
         && chanCtx[chans[h].cookie.chan].handle == h)
    && (forall c :: c in chanCtx ==>
         chanCtx[c].handler == HandleChannel && chanCtx[c].handle in chans
         && chans[chanCtx[c].handle].cookie == ChanCookie(c)
         && chans[chanCtx[c].handle].sid == chanCtx[c].sid)
  }

  /** Each channel context is in exactly one list, once, and nothing else is in a list. */
  ghost predicate ListsOk<H, P, C>(portCtx: map<P, PortContext<H, C>>, chanCtx: map<C, ChanContext<H, P>>) {
    && (forall p :: p in portCtx ==> NoDup(portCtx[p].channels))
    && (forall p, c :: p in portCtx && c in portCtx[p].channels ==>
         c in chanCtx && chanCtx[c].link == Some(p))
    && (forall c :: c in chanCtx ==>
         chanCtx[c].link.Some? && chanCtx[c].link.value in portCtx
         && c in portCtx[chanCtx[c].link.value].channels)
  }

  /** What is left to do for a session that is over. */
  ghost predicate Over<H, P, C>(x: Session<H, P, C>) {
    x.closes == 1 && x.disconnects == if x.ctx.Some? then 1 else 0
  }

  /** x is the unfinished session of the context c, whose record is k. */
  ghost predicate Serves<H, P, C>(k: ChanContext<H, P>, c: C, x: Session<H, P, C>) {
    x.ctx == Some(c) && x.handle == k.handle && k.link == Some(x.port) && x.closes == 0 && x.disconnects == 0
  }

  /** Each session is either over or the session of one live context and its open handle. */
  ghost predicate SessionsOk<H, P, C>(chanCtx: map<C, ChanContext<H, P>>, sessions: seq<Session<H, P, C>>) {
    && (forall c :: c in chanCtx ==>
         chanCtx[c].sid < |sessions| && Serves(chanCtx[c], c, sessions[chanCtx[c].sid]))
    && (forall i :: 0 <= i < |sessions| ==>
         Over(sessions[i])
         || (sessions[i].ctx.Some? && sessions[i].ctx.value in chanCtx
             && chanCtx[sessions[i].ctx.value].sid == i))
  }

  ghost function MaxOf(xs: seq<nat>): nat {
    if xs == [] then 0 else Max(MaxOf(xs[..|xs| - 1]), xs[|xs| - 1])
  }

  ghost predicate Complete(d: Delivery, size: nat) {
    d.read == d.len <= Min(MSG_BUF_MAX_SIZE, size)
  }

  /** msg_buf holds msg_buf_size bytes, the largest size ever granted, and every
      message handed on was read completely and fitted. */
  ghost predicate BufferOk(bufSize: nat, bufAlloc: nat, grows: seq<nat>, delivered: seq<Delivery>) {
    && bufAlloc == bufSize == MaxOf(grows)
    && forall i :: 0 <= i < |delivered| ==> Complete(delivered[i], bufSize)
  }

  ghost predicate InvExcept<H, P, C>(s: State<H, P, C>, dying: set<P>) {
    && s.ports.Keys !! s.chans.Keys
    && PortsOk(s.ports, s.portCtx, dying)
    && ChansOk(s.chans, s.chanCtx)
    && ListsOk(s.portCtx, s.chanCtx)
    && SessionsOk(s.chanCtx, s.sessions)
    && BufferOk(s.bufSize, s.bufAlloc, s.grows, s.delivered)
  }

  ghost predicate Inv<H, P, C>(s: State<H, P, C>) {
    InvExcept(s, {})
  }

  /** The buffer can take any message that is not refused, or no channel is there to bring one. */
  ghost predicate BufferReady<H, P, C>(s: State<H, P, C>) {
    s.bufSize >= MSG_BUF_MAX_SIZE || forall c :: c in s.chanCtx ==> !s.chanCtx[c].hasMsgHandler
  }

  lemma InitInv<H, P, C>()
    ensures Inv(Init<H, P, C>())
  {
  }

  // ---- history ----

  /** A later history: no session is forgotten or renamed, and one that was over
      is left alone. */
  ghost predicate Extends<H, P, C>(xs: seq<Session<H, P, C>>, ys: seq<Session<H, P, C>>) {
    && |xs| <= |ys|
    && forall i :: 0 <= i < |xs| ==>
         ys[i].port == xs[i].port && ys[i].handle == xs[i].handle && ys[i].ctx == xs[i].ctx
         && (Over(xs[i]) ==> ys[i] == xs[i])
  }

  ghost predicate Progress<H, P, C>(s: State<H, P, C>, t: State<H, P, C>) {
    && Extends(s.sessions, t.sessions)
    && s.bufSize <= t.bufSize
    && s.grows <= t.grows
    && s.delivered <= t.delivered
  }

  lemma ProgressTransitive<H, P, C>(s: State<H, P, C>, t: State<H, P, C>, u: State<H, P, C>)
    requires Progress(s, t) && Progress(t, u)
    ensures Progress(s, u)
  {
  }

  // ---- lists ----

  lemma {:induction false} WithoutNone<T>(xs: seq<T>, x: T)
    requires x !in xs
    ensures Without(xs, x) == xs
  {
    if xs == [] {
    } else {
      WithoutNone(xs[1..], x);
      assert xs == [xs[0]] + xs[1..];
    }
  }

  /** Deleting a node takes it out of its list and leaves the others, in order. */
  lemma {:induction false} WithoutSplits<T>(xs: seq<T>, x: T) returns (k: nat)
    requires x in xs
    ensures k < |xs| && xs[k] == x && x !in xs[..k]
    ensures Without(xs, x) == xs[..k] + xs[k + 1..]
  {
    if xs[0] == x {
      k := 0;
    } else {
      var j := WithoutSplits(xs[1..], x);
      k := j + 1;
      assert xs[..k] == [xs[0]] + xs[1..][..j];
      assert xs[1..][j + 1..] == xs[k + 1..];
    }
  }

  lemma RemoveAt<T>(xs: seq<T>, k: nat)
    requires NoDup(xs) && k < |xs|
    ensures var ys := xs[..k] + xs[k + 1..];
      NoDup(ys) && forall y :: y in ys <==> y in xs && y != xs[k]
  {
    var ys := xs[..k] + xs[k + 1..];
    assert forall i :: 0 <= i < |ys| ==> ys[i] == xs[if i < k then i else i + 1];
    forall y | y in xs && y != xs[k]
      ensures y in ys
    {
      var i :| 0 <= i < |xs| && xs[i] == y;
      assert ys[if i < k then i else i - 1] == y;
    }
  }

  lemma WithoutNoDup<T>(xs: seq<T>, x: T)
    requires NoDup(xs) && x in xs
    ensures NoDup(Without(xs, x))
    ensures forall y :: y in Without(xs, x) <==> y in xs && y != x
  {
    var k := WithoutSplits(xs, x);
    RemoveAt(xs, k);
  }

  // ---- one connection ending ----

  /** t is s after the connection of the live context c ended: c is unlinked and
      gone, its handle is closed, and both are noted in its session. */
  ghost predicate Ended<H, P, C>(s: State<H, P, C>, t: State<H, P, C>, c: C)
    requires c in s.chanCtx && s.chanCtx[c].link.Some? && s.chanCtx[c].link.value in s.portCtx
    requires s.chanCtx[c].sid < |s.sessions|
  {
    var ChanContext(_, h, _, link, i) := s.chanCtx[c];
    var p := link.value;
    && t.ports == s.ports
    && t.chans == s.chans - {h}
    && t.chanCtx == s.chanCtx - {c}
    && p in t.portCtx
    && t.portCtx == s.portCtx[p := s.portCtx[p].(channels := t.portCtx[p].channels)]
    && NoDup(t.portCtx[p].channels)
    && (forall d :: d in t.portCtx[p].channels ==> d in s.portCtx[p].channels && d != c)
    && (forall d :: d in s.portCtx[p].channels && d != c ==> d in t.portCtx[p].channels)
    && t.sessions == NoteClose(NoteDisconnect(s.sessions, i), i)
    && SameBuffer(s, t)
  }

  ghost predicate SameBuffer<H, P, C>(s: State<H, P, C>, t: State<H, P, C>) {
    t.bufSize == s.bufSize && t.bufAlloc == s.bufAlloc && t.grows == s.grows && t.delivered == s.delivered
  }

  lemma EndedSessions<H, P, C>(s: State<H, P, C>, t: State<H, P, C>, c: C)
    requires SessionsOk(s.chanCtx, s.sessions) && ListsOk(s.portCtx, s.chanCtx) && c in s.chanCtx && Ended(s, t, c)
    ensures SessionsOk(t.chanCtx, t.sessions)
    ensures Over(t.sessions[s.chanCtx[c].sid])
  {
    var i := s.chanCtx[c].sid;
    assert Serves(s.chanCtx[c], c, s.sessions[i]);
    assert |t.sessions| == |s.sessions| && Over(t.sessions[i]);
    forall d | d in t.chanCtx
      ensures t.chanCtx[d].sid < |t.sessions| && Serves(t.chanCtx[d], d, t.sessions[t.chanCtx[d].sid])
    {
      assert d in s.chanCtx && t.chanCtx[d] == s.chanCtx[d];
      assert Serves(s.chanCtx[d], d, s.sessions[s.chanCtx[d].sid]);
    }
    forall j | 0 <= j < |t.sessions| && !Over(t.sessions[j])
      ensures t.sessions[j].ctx.Some? && t.sessions[j].ctx.value in t.chanCtx
      ensures t.chanCtx[t.sessions[j].ctx.value].sid == j
    {
      assert t.sessions[j] == s.sessions[j];
    }
  }

  lemma EndedLists<H, P, C>(s: State<H, P, C>, t: State<H, P, C>, c: C)
    requires ListsOk(s.portCtx, s.chanCtx) && SessionsOk(s.chanCtx, s.sessions) && c in s.chanCtx && Ended(s, t, c)
    ensures ListsOk(t.portCtx, t.chanCtx)
  {
    var p := s.chanCtx[c].link.value;
    forall q, d | q in t.portCtx && d in t.portCtx[q].channels
      ensures d in t.chanCtx && t.chanCtx[d].link == Some(q)
    {
      assert d in s.portCtx[q].channels;
    }
  }

  lemma EndedChans<H, P, C>(s: State<H, P, C>, t: State<H, P, C>, c: C)
    requires ChansOk(s.chans, s.chanCtx) && SessionsOk(s.chanCtx, s.sessions)
    requires ListsOk(s.portCtx, s.chanCtx) && c in s.chanCtx && Ended(s, t, c)
    ensures ChansOk(t.chans, t.chanCtx)
  {
    var h := s.chanCtx[c].handle;
    assert s.chans[h].cookie == ChanCookie(c);
    forall g | g in t.chans
      ensures t.chans[g].cookie.ChanCookie? && t.chans[g].cookie.chan in t.chanCtx
      ensures t.chanCtx[t.chans[g].cookie.chan].handle == g
    {
      assert g != h && t.chans[g] == s.chans[g];
      assert s.chans[g].cookie.chan != c;
    }
    forall d | d in t.chanCtx
      ensures t.chanCtx[d].handler == HandleChannel && t.chanCtx[d].handle in t.chans
      ensures t.chans[t.chanCtx[d].handle].cookie == ChanCookie(d)
      ensures t.chans[t.chanCtx[d].handle].sid == t.chanCtx[d].sid
    {
      var g := s.chanCtx[d].handle;
      assert t.chanCtx[d] == s.chanCtx[d] && s.chans[g].cookie == ChanCookie(d);
      assert g != h;
    }
  }

  lemma EndedInv<H, P, C>(s: State<H, P, C>, t: State<H, P, C>, c: C, dying: set<P>)
    requires InvExcept(s, dying) && c in s.chanCtx && Ended(s, t, c)
    ensures InvExcept(t, dying)
    ensures Progress(s, t)
    ensures Over(t.sessions[s.chanCtx[c].sid])
  {
    assert Serves(s.chanCtx[c], c, s.sessions[s.chanCtx[c].sid]);
    EndedSessions(s, t, c);
    EndedLists(s, t, c);
    EndedChans(s, t, c);
    assert PortsOk(t.ports, t.portCtx, dying);
  }

  /** What the invariant says of a live context: its handle is open, it is linked, and its session is unfinished. */
  lemma LiveContext<H, P, C>(s: State<H, P, C>, c: C, dying: set<P>)
    requires InvExcept(s, dying) && c in s.chanCtx
    ensures var ChanContext(_, h, _, link, i) := s.chanCtx[c];
      && h in s.chans && h !in s.ports && s.chans[h].sid == i < |s.sessions|
      && link.Some? && link.value in s.portCtx
      && c in s.portCtx[link.value].channels && NoDup(s.portCtx[link.value].channels)
  {
    assert Serves(s.chanCtx[c], c, s.sessions[s.chanCtx[c].sid]);
  }

  /** The state after do_disconnect on such a context. */
  lemma DisconnectIs<H, P, C>(s: State<H, P, C>, c: C, h: H, p: P)
    requires c in s.chanCtx && s.chanCtx[c].link == Some(p) && p in s.portCtx && h in s.chans && h !in s.ports
    ensures DoDisconnect(s, c, h) == Running(s.(
      chans := s.chans - {h},
      portCtx := s.portCtx[p := s.portCtx[p].(channels := Without(s.portCtx[p].channels, c))],
      chanCtx := s.chanCtx - {c},
      sessions := NoteClose(NoteDisconnect(s.sessions, s.chanCtx[c].sid), s.chans[h].sid)))
  {
    var s1 := ListDelete(s, c).state;
    assert s1.chanCtx - {c} == s.chanCtx - {c};
  }

  /** do_disconnect, on a live context and its handle, succeeds and ends the connection. */
  lemma DisconnectEnds<H, P, C>(s: State<H, P, C>, c: C, h: H)
    requires Inv(s) && c in s.chanCtx && s.chanCtx[c].handle == h
    ensures DoDisconnect(s, c, h).Running?
    ensures Ended(s, DoDisconnect(s, c, h).state, c)
    ensures Inv(DoDisconnect(s, c, h).state)
    ensures Progress(s, DoDisconnect(s, c, h).state)
  {
    LiveContext(s, c, {});
    var p := s.chanCtx[c].link.value;
    DisconnectIs(s, c, h, p);
    WithoutNoDup(s.portCtx[p].channels, c);
    var t := DoDisconnect(s, c, h).state;
    assert Ended(s, t, c);
    EndedInv(s, t, c, {});
  }

  lemma DisconnectInv<H, P, C>(s: State<H, P, C>, c: C, h: H)
    requires Inv(s) && c in s.chanCtx && s.chanCtx[c].handle == h
    ensures DoDisconnect(s, c, h).Running?
    ensures Inv(DoDisconnect(s, c, h).state)
    ensures Progress(s, DoDisconnect(s, c, h).state)
  {
    DisconnectEnds(s, c, h);
  }

  // ---- one connection beginning ----

  /** A connection that never got a context, or lost it at once, leaves only its
      finished session behind. */
  lemma RefusedInv<H, P, C>(s: State<H, P, C>, t: State<H, P, C>, x: Session<H, P, C>)
    requires Inv(s) && Over(x) && t == s.(sessions := s.sessions + [x])
    ensures Inv(t)
  {
  }

  /** t is s after the context c, with the new handle ch, joined the list of p. */
  ghost predicate Joined<H, P, C>(s: State<H, P, C>, t: State<H, P, C>, p: P, ch: H, c: C, hasMsgHandler: bool)
    requires p in s.portCtx
  {
    && t.ports == s.ports
    && ch in t.chans && c in t.chanCtx
    && t.chans == s.chans[ch := t.chans[ch]]
    && t.chans[ch].cookie == ChanCookie(c) && t.chans[ch].sid == |s.sessions|
    && t.chanCtx == s.chanCtx[c := t.chanCtx[c]]
    && t.chanCtx[c].handler == HandleChannel && t.chanCtx[c].handle == ch
    && t.chanCtx[c].link == Some(p) && t.chanCtx[c].sid == |s.sessions|
    && t.chanCtx[c].hasMsgHandler == hasMsgHandler
    && t.portCtx == s.portCtx[p := s.portCtx[p].(channels := s.portCtx[p].channels + [c])]
    && t.sessions == s.sessions + [Session(p, ch, Some(c), 0, 0)]
    && SameBuffer(s, t)
  }

  lemma JoinedChans<H, P, C>(s: State<H, P, C>, t: State<H, P, C>, p: P, ch: H, c: C, m: bool)
    requires ChansOk(s.chans, s.chanCtx) && p in s.portCtx && ch !in s.chans && c !in s.chanCtx
    requires Joined(s, t, p, ch, c, m)
    ensures ChansOk(t.chans, t.chanCtx)
  {
  }

  lemma JoinedLists<H, P, C>(s: State<H, P, C>, t: State<H, P, C>, p: P, ch: H, c: C, m: bool)
    requires ListsOk(s.portCtx, s.chanCtx) && p in s.portCtx && c !in s.chanCtx && Joined(s, t, p, ch, c, m)
    ensures ListsOk(t.portCtx, t.chanCtx)
  {
  }

  lemma JoinedSessions<H, P, C>(s: State<H, P, C>, t: State<H, P, C>, p: P, ch: H, c: C, m: bool)
    requires SessionsOk(s.chanCtx, s.sessions) && p in s.portCtx && c !in s.chanCtx && Joined(s, t, p, ch, c, m)
    ensures SessionsOk(t.chanCtx, t.sessions)
  {
  }

  lemma JoinedPorts<H, P, C>(s: State<H, P, C>, t: State<H, P, C>, p: P, ch: H, c: C, m: bool)
    requires PortsOk(s.ports, s.portCtx, {}) && p in s.portCtx && Joined(s, t, p, ch, c, m)
    ensures PortsOk(t.ports, t.portCtx, {})
  {
  }

  lemma JoinedInv<H, P, C>(s: State<H, P, C>, t: State<H, P, C>, p: P, ch: H, c: C, m: bool)
    requires Inv(s) && p in s.portCtx && Joined(s, t, p, ch, c, m)
    requires ch !in s.ports && ch !in s.chans && c !in s.chanCtx
    ensures Inv(t)
  {
    assert t.ports.Keys !! t.chans.Keys;
    JoinedPorts(s, t, p, ch, c, m);
    JoinedChans(s, t, p, ch, c, m);
    JoinedLists(s, t, p, ch, c, m);
    JoinedSessions(s, t, p, ch, c, m);
  }

  /** The three ways do_connect can end once a connection is accepted: refused by
      on_connect, given up because set_cookie failed, or joined. */
  lemma ConnectEnds<H, P, C>(s: State<H, P, C>, p: P, ev: Event, a: Accept<H, P, C>)
    requires p in s.portCtx && ev.ready && a.chan.Some?
    requires a.chan.value !in s.ports && a.chan.value !in s.chans
    requires a.ctx.Some? ==> a.ctx.value !in s.chanCtx
    ensures DoConnect(s, p, ev, a).Running?
    ensures var t := DoConnect(s, p, ev, a).state;
      if a.ctx.Some? && a.setCookieOk then Joined(s, t, p, a.chan.value, a.ctx.value, a.hasMsgHandler)
      else t == s.(sessions := s.sessions + [Session(p, a.chan.value, a.ctx, if a.ctx.Some? then 1 else 0, 1)])
  {
    var ch := a.chan.value;
    var t := DoConnect(s, p, ev, a).state;
    if a.ctx.None? {
      assert t.chans == s.chans;
      assert t.sessions == s.sessions + [Session(p, ch, None, 0, 1)];
    } else if !a.setCookieOk {
      assert t.chans == s.chans && t.chanCtx == s.chanCtx;
      assert t.sessions == s.sessions + [Session(p, ch, a.ctx, 1, 1)];
    } else {
      assert t.sessions == s.sessions + [Session(p, ch, a.ctx, 0, 0)];
    }
  }

  lemma NoConnection<H, P, C>(s: State<H, P, C>, p: P, ev: Event, a: Accept<H, P, C>)
    requires !ev.ready || a.chan.None?
    ensures DoConnect(s, p, ev, a) == Running(s) && Progress(s, s)
  {
  }

  /** do_connect on a live port keeps the invariant, whatever accept, on_connect
      and set_cookie do. */
  lemma ConnectInv<H, P, C>(s: State<H, P, C>, p: P, ev: Event, a: Accept<H, P, C>)
    requires Inv(s) && p in s.portCtx
    requires a.chan.Some? ==> a.chan.value !in s.ports && a.chan.value !in s.chans
    requires a.ctx.Some? ==> a.ctx.value !in s.chanCtx
    ensures DoConnect(s, p, ev, a).Running?
    ensures Inv(DoConnect(s, p, ev, a).state)
    ensures Progress(s, DoConnect(s, p, ev, a).state)
  {
    if ev.ready && a.chan.Some? {
      ConnectEnds(s, p, ev, a);
      var t := DoConnect(s, p, ev, a).state;
      if a.ctx.Some? && a.setCookieOk {
        JoinedInv(s, t, p, a.chan.value, a.ctx.value, a.hasMsgHandler);
      } else {
        RefusedInv(s, t, Session(p, a.chan.value, a.ctx, if a.ctx.Some? then 1 else 0, 1));
      }
    } else {
      NoConnection(s, p, ev, a);
    }
  }

  // ---- messages ----

  /** t is s but for the pending messages of open channels. */
  ghost predicate OnlyMessages<H, P, C>(s: State<H, P, C>, t: State<H, P, C>) {
    && t == s.(chans := t.chans)
    && t.chans.Keys == s.chans.Keys
    && forall h :: h in s.chans ==> t.chans[h] == s.chans[h].(msgId := t.chans[h].msgId, msgLen := t.chans[h].msgLen)
  }

  lemma MessagesInv<H, P, C>(s: State<H, P, C>, t: State<H, P, C>, dying: set<P>)
    requires InvExcept(s, dying) && OnlyMessages(s, t)
    ensures InvExcept(t, dying)
  {
  }

  lemma NewMsgInv<H, P, C>(s: State<H, P, C>, h: H, id: nat, len: nat)
    requires Inv(s)
    ensures Inv(NewMsg(s, h, id, len))
  {
    assert OnlyMessages(s, NewMsg(s, h, id, len));
    MessagesInv(s, NewMsg(s, h, id, len), {});
  }

  /** The message is one that do_handle_msg reads: get_msg succeeds and its length
      is not over the limit. */
  predicate Reads<P, C>(slot: Slot<P, C>, r: Receive) {
    r.getErr >= 0 && slot.msgId != INVALID_IPC_MSG_ID && slot.msgLen <= 4096
  }

  /** read_msg stores more than the size bytes of the buffer. */
  predicate Overrun<P, C>(slot: Slot<P, C>, r: Receive, size: nat) {
    Reads(slot, r) && r.readRc > size
  }

  /** do_handle_msg can do only one thing wrong. If it does not overrun the buffer
      it changes pending messages only and hands on at most one message, complete. */
  lemma HandleMsgEnds<H, P, C>(s: State<H, P, C>, c: C, h: H, r: Receive) returns (ds: seq<Delivery>)
    requires c in s.chanCtx && h in s.chans && s.bufSize == s.bufAlloc
    requires r.readRc <= s.chans[h].msgLen
    ensures |ds| <= 1 && forall d :: d in ds ==> Complete(d, s.bufSize)
    ensures if Overrun(s.chans[h], r, s.bufSize) then DoHandleMsg(s, c, h, r) == Fault(BufferOverrun)
            else DoHandleMsg(s, c, h, r).Running?
                 && OnlyMessages(s.(delivered := s.delivered + ds), DoHandleMsg(s, c, h, r).state.0)
  {
    var len := s.chans[h].msgLen;
    if Reads(s.chans[h], r) && r.readRc == len <= s.bufSize {
      ds := [Delivery(s.chanCtx[c].sid, len, r.readRc)];
    } else {
      ds := [];
      assert s.delivered + ds == s.delivered;
    }
  }

  lemma HandleMsgInv<H, P, C>(s: State<H, P, C>, c: C, h: H, r: Receive)
    requires Inv(s) && c in s.chanCtx && h in s.chans
    requires r.readRc <= s.chans[h].msgLen && !Overrun(s.chans[h], r, s.bufSize)
    ensures DoHandleMsg(s, c, h, r).Running?
    ensures var t := DoHandleMsg(s, c, h, r).state.0; Inv(t) && t.chanCtx == s.chanCtx && Progress(s, t)
  {
    var ds := HandleMsgEnds(s, c, h, r);
    var s1 := s.(delivered := s.delivered + ds);
    assert BufferOk(s1.bufSize, s1.bufAlloc, s1.grows, s1.delivered);
    MessagesInv(s1, DoHandleMsg(s, c, h, r).state.0, {});
  }

  // ---- events ----

  /** handle_channel runs over the end of the buffer. */
  ghost predicate EventOverruns<P, C>(slot: Slot<P, C>, hasMsgHandler: bool, ev: Event, r: Receive, size: nat) {
    !ev.error && !ev.ready && ev.msg && hasMsgHandler && Overrun(slot, r, size)
  }

  /** What follows on_handle_msg; s1 is the state it leaves and rc its result. */
  lemma AfterMessage<H, P, C>(s: State<H, P, C>, s1: State<H, P, C>, c: C, h: H, end: bool)
    requires Inv(s1) && c in s1.chanCtx && s1.chanCtx[c].handle == h && Progress(s, s1)
    ensures var o := if end then DoDisconnect(s1, c, h) else Running(s1);
      o.Running? && Inv(o.state) && Progress(s, o.state)
  {
    if end {
      DisconnectInv(s1, c, h);
      ProgressTransitive(s, s1, DoDisconnect(s1, c, h).state);
    }
  }

  lemma MessageEventInv<H, P, C>(s: State<H, P, C>, c: C, h: H, hup: bool, r: Receive)
    requires Inv(s) && c in s.chanCtx && s.chanCtx[c].handle == h && h in s.chans
    requires r.readRc <= s.chans[h].msgLen && s.chanCtx[c].hasMsgHandler
    ensures var o := HandleMessageEvent(s, c, h, hup, r);
      if Overrun(s.chans[h], r, s.bufSize) then o == Fault(BufferOverrun)
      else o.Running? && Inv(o.state) && Progress(s, o.state)
  {
    if Overrun(s.chans[h], r, s.bufSize) {
      var ds := HandleMsgEnds(s, c, h, r);
    } else {
      HandleMsgInv(s, c, h, r);
      var (s1, rc) := DoHandleMsg(s, c, h, r).state;
      AfterMessage(s, s1, c, h, rc < 0 || hup);
    }
  }

  lemma HandleChannelInv<H, P, C>(s: State<H, P, C>, c: C, h: H, ev: Event, r: Receive)
    requires Inv(s) && c in s.chanCtx && s.chanCtx[c].handle == h && h in s.chans
    requires r.readRc <= s.chans[h].msgLen
    ensures var o := HandleChannelEvent(s, c, h, ev, r);
      && (o.Aborted? <==> ev.error || ev.ready)
      && (o.Fault? <==> EventOverruns(s.chans[h], s.chanCtx[c].hasMsgHandler, ev, r, s.bufSize))
      && (o.Fault? ==> o == Fault(BufferOverrun))
      && (o.Running? ==> Inv(o.state) && Progress(s, o.state))
  {
    if ev.error || ev.ready {
    } else if ev.msg && s.chanCtx[c].hasMsgHandler {
      MessageEventInv(s, c, h, ev.hup, r);
    } else if ev.msg || ev.hup {
      DisconnectInv(s, c, h);
    }
  }

  /** dispatch_event on a port that is bound to its context: handle_port. */
  lemma DispatchesPort<H, P, C>(s: State<H, P, C>, p: P, h: H, ev: Event, a: Accept<H, P, C>, r: Receive)
    requires h in s.ports && s.ports[h] == PortCookie(p)
    requires p in s.portCtx && s.portCtx[p].handle == h && s.portCtx[p].handler == HandlePort
    ensures DispatchEvent(s, h, ev, a, r) == HandlePortEvent(s, p, ev, a)
  {
  }

  /** The same on a channel: handle_channel. */
  lemma DispatchesChannel<H, P, C>(s: State<H, P, C>, c: C, h: H, ev: Event, a: Accept<H, P, C>, r: Receive)
    requires h !in s.ports && h in s.chans && s.chans[h].cookie == ChanCookie(c)
    requires c in s.chanCtx && s.chanCtx[c].handle == h && s.chanCtx[c].handler == HandleChannel
    ensures DispatchEvent(s, h, ev, a, r) == HandleChannelEvent(s, c, h, ev, r)
  {
  }

  lemma DispatchPortInv<H, P, C>(s: State<H, P, C>, h: H, ev: Event, a: Accept<H, P, C>, r: Receive)
    requires Inv(s) && h in s.ports
    requires a.chan.Some? ==> a.chan.value !in s.ports && a.chan.value !in s.chans
    requires a.ctx.Some? ==> a.ctx.value !in s.chanCtx
    ensures !DispatchEvent(s, h, ev, a, r).Fault?
    ensures DispatchEvent(s, h, ev, a, r).Aborted? <==> ev.error || ev.hup || ev.msg || ev.sendUnblocked
    ensures DispatchEvent(s, h, ev, a, r).Running? ==>
      Inv(DispatchEvent(s, h, ev, a, r).state) && Progress(s, DispatchEvent(s, h, ev, a, r).state)
  {
    var p := s.ports[h].port;
    DispatchesPort(s, p, h, ev, a, r);
    ConnectInv(s, p, ev, a);
  }

  lemma DispatchChannelInv<H, P, C>(s: State<H, P, C>, c: C, h: H, ev: Event, a: Accept<H, P, C>, r: Receive)
    requires Inv(s) && h in s.chans && r.readRc <= s.chans[h].msgLen && s.chans[h].cookie == ChanCookie(c)
    ensures c in s.chanCtx
    ensures var o := DispatchEvent(s, h, ev, a, r);
      && (o.Aborted? <==> ev.error || ev.ready)
      && (o.Fault? <==> EventOverruns(s.chans[h], s.chanCtx[c].hasMsgHandler, ev, r, s.bufSize))
      && (o.Fault? ==> o == Fault(BufferOverrun))
      && (o.Running? ==> Inv(o.state) && Progress(s, o.state))
  {
    assert h !in s.ports;
    DispatchesChannel(s, c, h, ev, a, r);
    HandleChannelInv(s, c, h, ev, r);
  }

  // ---- what an event does ----

  /** do_handle_msg refuses a message exactly when the kernel reports an error
      other than "no message", there is no message, the message is longer than
      4096 bytes or not read completely, or the application refuses it. */
  predicate Refused<P, C>(slot: Slot<P, C>, r: Receive) {
    if r.getErr < 0 then r.getErr != ERR_NO_MSG
    else slot.msgId == 0 || slot.msgLen > 4096 || r.readRc < slot.msgLen || r.handlerRc < 0
  }

  /** The message reaches the application. */
  predicate Accepts<P, C>(slot: Slot<P, C>, r: Receive) {
    Reads(slot, r) && r.readRc >= slot.msgLen
  }

  /** The pending message after do_handle_msg: as before if get_msg fails, what the
      application leaves if it got the message, and retired otherwise, if put_msg
      succeeds. */
  function AfterHandling<P, C>(slot: Slot<P, C>, r: Receive): Slot<P, C> {
    if r.getErr < 0 || slot.msgId == 0 then slot
    else if Accepts(slot, r) then slot.(msgId := r.idAfter, msgLen := r.lenAfter)
    else if r.putOk then slot.(msgId := 0)
    else slot
  }

  lemma HandleMsgOutcome<H, P, C>(s: State<H, P, C>, c: C, h: H, r: Receive)
    requires c in s.chanCtx && h in s.chans && s.bufAlloc == s.bufSize
    requires r.readRc <= s.chans[h].msgLen && !Overrun(s.chans[h], r, s.bufSize)
    ensures DoHandleMsg(s, c, h, r).Running?
    ensures var (t, rc) := DoHandleMsg(s, c, h, r).state; var slot := s.chans[h];
      && (rc < 0 <==> Refused(slot, r))
      && t == s.(chans := s.chans[h := AfterHandling(slot, r)],
                 delivered := s.delivered
                   + if Accepts(slot, r) then [Delivery(s.chanCtx[c].sid, slot.msgLen, slot.msgLen)] else [])
  {
    var (t, rc) := DoHandleMsg(s, c, h, r).state;
    assert t.chans == s.chans[h := AfterHandling(s.chans[h], r)];
  }

  /** t is s but for the connection of the context c on handle h, which is over
      in t exactly when gone. */
  ghost predicate OnlyConnection<H, P, C>(s: State<H, P, C>, t: State<H, P, C>, c: C, h: H, gone: bool) {
    && t.ports == s.ports
    && t.chans - {h} == s.chans - {h}
    && t.chanCtx == (if gone then s.chanCtx - {c} else s.chanCtx)
    && (h in t.chans <==> !gone)
  }

  lemma DisconnectOutcome<H, P, C>(s: State<H, P, C>, c: C, h: H)
    requires Inv(s) && c in s.chanCtx && s.chanCtx[c].handle == h && h in s.chans
    ensures DoDisconnect(s, c, h).Running?
    ensures OnlyConnection(s, DoDisconnect(s, c, h).state, c, h, true)
  {
    LiveContext(s, c, {});
    DisconnectIs(s, c, h, s.chanCtx[c].link.value);
  }

  /** The same after something that left the connection as it was. */
  lemma DisconnectAfter<H, P, C>(s: State<H, P, C>, s1: State<H, P, C>, c: C, h: H)
    requires Inv(s1) && c in s1.chanCtx && s1.chanCtx[c].handle == h && OnlyConnection(s, s1, c, h, false)
    ensures DoDisconnect(s1, c, h).Running?
    ensures OnlyConnection(s, DoDisconnect(s1, c, h).state, c, h, true)
  {
    DisconnectOutcome(s1, c, h);
  }

  lemma MessageKeepsConnection<H, P, C>(s: State<H, P, C>, c: C, h: H, r: Receive)
    requires c in s.chanCtx && h in s.chans && s.bufAlloc == s.bufSize
    requires r.readRc <= s.chans[h].msgLen && !Overrun(s.chans[h], r, s.bufSize)
    ensures DoHandleMsg(s, c, h, r).Running?
    ensures OnlyConnection(s, DoHandleMsg(s, c, h, r).state.0, c, h, false)
  {
    HandleMsgOutcome(s, c, h, r);
  }

  lemma MessageOutcome<H, P, C>(s: State<H, P, C>, c: C, h: H, r: Receive)
    requires Inv(s) && c in s.chanCtx && s.chanCtx[c].handle == h && h in s.chans
    requires r.readRc <= s.chans[h].msgLen && !Overrun(s.chans[h], r, s.bufSize)
    ensures DoHandleMsg(s, c, h, r).Running?
    ensures OnlyConnection(s, DoHandleMsg(s, c, h, r).state.0, c, h, false)
    ensures DoDisconnect(DoHandleMsg(s, c, h, r).state.0, c, h).Running?
    ensures OnlyConnection(s, DoDisconnect(DoHandleMsg(s, c, h, r).state.0, c, h).state, c, h, true)
  {
    HandleMsgInv(s, c, h, r);
    MessageKeepsConnection(s, c, h, r);
    DisconnectAfter(s, DoHandleMsg(s, c, h, r).state.0, c, h);
  }

  /** An event on a channel ends its connection exactly when the peer hung up, a
      message came that the channel has no handler for, or one was refused; MSG
      and HUP in one event end it once. Every other connection is untouched. */
  lemma ChannelEventOutcome<H, P, C>(s: State<H, P, C>, c: C, h: H, ev: Event, r: Receive)
    requires Inv(s) && c in s.chanCtx && s.chanCtx[c].handle == h && h in s.chans
    requires r.readRc <= s.chans[h].msgLen
    requires !EventOverruns(s.chans[h], s.chanCtx[c].hasMsgHandler, ev, r, s.bufSize)
    ensures HandleChannelEvent(s, c, h, ev, r).Aborted? <==> ev.error || ev.ready
    ensures HandleChannelEvent(s, c, h, ev, r).Running? ==>
      OnlyConnection(s, HandleChannelEvent(s, c, h, ev, r).state, c, h,
                     ev.hup || (ev.msg && (!s.chanCtx[c].hasMsgHandler || Refused(s.chans[h], r))))
  {
    if ev.error || ev.ready {
    } else if ev.msg && s.chanCtx[c].hasMsgHandler {
      MessageOutcome(s, c, h, r);
      HandleMsgOutcome(s, c, h, r);
    } else if ev.msg || ev.hup {
      DisconnectOutcome(s, c, h);
    }
  }

  // ---- creating and destroying ports ----

  lemma MaxOfAppend(xs: seq<nat>, x: nat)
    ensures MaxOf(xs + [x]) == Max(MaxOf(xs), x)
  {
  }

  /** maybe_grow_msg_buf keeps the buffer at the largest size asked for so far. */
  lemma GrowBuffer<H, P, C>(s: State<H, P, C>, size: nat, reallocOk: bool)
    requires BufferOk(s.bufSize, s.bufAlloc, s.grows, s.delivered)
    ensures GrowMsgBuf(s, size, reallocOk).None? <==> size > s.bufSize && !reallocOk
    ensures GrowMsgBuf(s, size, reallocOk).Some? ==>
      var t := GrowMsgBuf(s, size, reallocOk).value;
      && BufferOk(t.bufSize, t.bufAlloc, t.grows, t.delivered)
      && t.grows == s.grows + [size] && t.bufSize == Max(s.bufSize, size)
  {
  }

  /** ipc_port_create is all or nothing: it either opens exactly one port handle,
      with the context as its cookie and an empty channel list, or leaves every
      handle, context and the buffer as they were. */
  lemma CreateAllOrNothing<H, P, C>(s: State<H, P, C>, p: P, handle: Option<H>, setCookieOk: bool,
                                    maxBuf: nat, reallocOk: bool)
    requires s.bufAlloc == s.bufSize && p !in s.portCtx
    requires handle.Some? ==> handle.value !in s.ports && handle.value !in s.chans
    ensures PortCreate(s, p, handle, setCookieOk, maxBuf, reallocOk).Running?
    ensures var (t, rc) := PortCreate(s, p, handle, setCookieOk, maxBuf, reallocOk).state;
      && (rc == NO_ERROR <==> handle.Some? && setCookieOk && (maxBuf <= s.bufSize || reallocOk))
      && (rc == NO_ERROR ==>
           t == s.(ports := s.ports[handle.value := PortCookie(p)],
                   portCtx := s.portCtx[p := PortContext(HandlePort, handle.value, [])],
                   bufSize := Max(s.bufSize, maxBuf), bufAlloc := Max(s.bufSize, maxBuf),
                   grows := s.grows + [maxBuf]))
      && (rc != NO_ERROR ==> rc < 0 && t == s)
  {
  }

  lemma CreatedPorts<H, P, C>(s: State<H, P, C>, p: P, h: H)
    requires PortsOk(s.ports, s.portCtx, {}) && p !in s.portCtx && h !in s.ports
    ensures PortsOk(s.ports[h := PortCookie(p)], s.portCtx[p := PortContext(HandlePort, h, [])], {})
  {
  }

  lemma CreatedLists<H, P, C>(s: State<H, P, C>, p: P, h: H)
    requires ListsOk(s.portCtx, s.chanCtx) && p !in s.portCtx
    ensures ListsOk(s.portCtx[p := PortContext(HandlePort, h, [])], s.chanCtx)
  {
  }

  lemma CreatedInv<H, P, C>(s: State<H, P, C>, t: State<H, P, C>, p: P, h: H, maxBuf: nat)
    requires Inv(s) && p !in s.portCtx && h !in s.ports && h !in s.chans
    requires t == s.(ports := s.ports[h := PortCookie(p)], portCtx := s.portCtx[p := PortContext(HandlePort, h, [])],
                     bufSize := Max(s.bufSize, maxBuf), bufAlloc := Max(s.bufSize, maxBuf),
                     grows := s.grows + [maxBuf])
    ensures Inv(t) && Progress(s, t)
  {
    CreatedPorts(s, p, h);
    CreatedLists(s, p, h);
    MaxOfAppend(s.grows, maxBuf);
    assert BufferOk(t.bufSize, t.bufAlloc, t.grows, t.delivered);
  }

  lemma CreateInv<H, P, C>(s: State<H, P, C>, p: P, handle: Option<H>, setCookieOk: bool, maxBuf: nat, reallocOk: bool)
    requires Inv(s) && p !in s.portCtx
    requires handle.Some? ==> handle.value !in s.ports && handle.value !in s.chans
    ensures PortCreate(s, p, handle, setCookieOk, maxBuf, reallocOk).Running?
    ensures var t := PortCreate(s, p, handle, setCookieOk, maxBuf, reallocOk).state.0; Inv(t) && Progress(s, t)
  {
    CreateAllOrNothing(s, p, handle, setCookieOk, maxBuf, reallocOk);
    var (t, rc) := PortCreate(s, p, handle, setCookieOk, maxBuf, reallocOk).state;
    if rc == NO_ERROR {
      CreatedInv(s, t, p, handle.value, maxBuf);
    }
  }

  /** ipc_port_create does not look whether the context is in use already. The
      global invariant survives a successful call exactly when it is not: a second
      port on the same context loses the first one's handle and channels. */
  lemma CreateNeedsUnusedContext<H, P, C>(s: State<H, P, C>, p: P, h: H, maxBuf: nat)
    requires Inv(s) && h !in s.ports && h !in s.chans
    ensures PortCreate(s, p, Some(h), true, maxBuf, true).Running?
    ensures Inv(PortCreate(s, p, Some(h), true, maxBuf, true).state.0) <==> p !in s.portCtx
  {
    if p in s.portCtx {
      var g := s.portCtx[p].handle;
      var t := PortCreate(s, p, Some(h), true, maxBuf, true).state.0;
      assert s.ports[g] == PortCookie(p);
      assert g in t.ports && t.ports[g] == PortCookie(p) && t.portCtx[p].handle == h;
    } else {
      CreateInv(s, p, Some(h), true, maxBuf, true);
    }
  }

  /** ipc_port_create tests the result of port_create against INVALID_IPC_HANDLE only.
      If it gets something else that is not open, it never ends well: it reports
      success for a port whose handle is not open, and breaks the invariant, exactly
      when set_cookie passes and the buffer suffices; else it closes that handle. */
  lemma CreateUnopenedNeverFits<H, P, C>(s: State<H, P, C>, p: P, h: H, setCookieOk: bool, maxBuf: nat, reallocOk: bool)
    requires Inv(s) && h !in s.ports && h !in s.chans
    ensures var o := CreateUnopened(s, p, h, setCookieOk, maxBuf, reallocOk);
      && (o.Running? <==> setCookieOk && (maxBuf <= s.bufSize || reallocOk))
      && (o.Running? ==> !Inv(o.state) && o.state.portCtx[p].handle !in o.state.ports)
      && (!o.Running? ==> o == Fault(InactiveHandle))
  {
    if setCookieOk && (maxBuf <= s.bufSize || reallocOk) {
      var t := CreateUnopened(s, p, h, setCookieOk, maxBuf, reallocOk).state;
      assert t.ports == s.ports && t.portCtx[p] == PortContext(HandlePort, h, []);
      assert !PortsOk(t.ports, t.portCtx, {});
    }
  }

  /** The state after one round of the loop of ipc_port_destroy. */
  lemma DrainOneIs<H, P, C>(s: State<H, P, C>, p: P)
    requires p in s.portCtx && s.portCtx[p].channels != [] && s.portCtx[p].channels[0] in s.chanCtx
    requires var h := s.chanCtx[s.portCtx[p].channels[0]].handle; h in s.chans && h !in s.ports
    ensures var c := s.portCtx[p].channels[0]; var h := s.chanCtx[c].handle;
      DrainOne(s, p) == Running(s.(
        chans := s.chans - {h},
        portCtx := s.portCtx[p := s.portCtx[p].(channels := s.portCtx[p].channels[1..])],
        chanCtx := s.chanCtx - {c},
        sessions := NoteClose(NoteDisconnect(s.sessions, s.chanCtx[c].sid), s.chans[h].sid)))
  {
  }

  lemma DrainedOneEnded<H, P, C>(s: State<H, P, C>, p: P)
    requires p in s.portCtx && s.portCtx[p].channels != [] && s.portCtx[p].channels[0] in s.chanCtx
    requires NoDup(s.portCtx[p].channels)
    requires var k := s.chanCtx[s.portCtx[p].channels[0]];
      k.link == Some(p) && k.handle in s.chans && k.handle !in s.ports && s.chans[k.handle].sid == k.sid < |s.sessions|
    ensures DrainOne(s, p).Running? && Ended(s, DrainOne(s, p).state, s.portCtx[p].channels[0])
  {
    DrainOneIs(s, p);
    RemoveAt(s.portCtx[p].channels, 0);
    assert s.portCtx[p].channels[..0] + s.portCtx[p].channels[1..] == s.portCtx[p].channels[1..];
  }

  /** One round of the loop of ipc_port_destroy ends the connection at the head of
      the dying port's list: its context is disconnected and its handle closed,
      each for the first and only time. */
  lemma DrainOneEnds<H, P, C>(s: State<H, P, C>, p: P)
    requires InvExcept(s, {p}) && p in s.portCtx && s.portCtx[p].channels != []
    ensures DrainOne(s, p).Running?
    ensures var t := DrainOne(s, p).state; var c := s.portCtx[p].channels[0];
      && InvExcept(t, {p}) && Progress(s, t)
      && p in t.portCtx && t.ports == s.ports && OthersKept(s, t, p)
      && c in s.chanCtx && Ended(s, t, c) && Over(t.sessions[s.chanCtx[c].sid])
  {
    var xs := s.portCtx[p].channels;
    var c := xs[0];
    assert c in xs && NoDup(xs);
    LiveContext(s, c, {p});
    DrainedOneEnded(s, p);
    var t := DrainOne(s, p).state;
    EndedInv(s, t, c, {p});
    EndedOthers(s, t, c, p);
  }

  /** The connections of other ports, with their contexts, handles and cookies, are as before. */
  ghost predicate OthersKept<H, P, C>(s: State<H, P, C>, t: State<H, P, C>, p: P) {
    && (forall c :: c in t.chanCtx ==> c in s.chanCtx && t.chanCtx[c] == s.chanCtx[c])
    && (forall c :: c in s.chanCtx && s.chanCtx[c].link != Some(p) ==>
         c in t.chanCtx && t.chanCtx[c] == s.chanCtx[c]
         && (s.chanCtx[c].handle in s.chans ==>
              s.chanCtx[c].handle in t.chans && t.chans[s.chanCtx[c].handle] == s.chans[s.chanCtx[c].handle]))
  }

  lemma EndedOthers<H, P, C>(s: State<H, P, C>, t: State<H, P, C>, c: C, p: P)
    requires ChansOk(s.chans, s.chanCtx) && ListsOk(s.portCtx, s.chanCtx) && SessionsOk(s.chanCtx, s.sessions)
    requires c in s.chanCtx && s.chanCtx[c].link == Some(p) && Ended(s, t, c)
    ensures OthersKept(s, t, p)
  {
  }

  lemma {:induction false} DrainInv<H, P, C>(s: State<H, P, C>, p: P)
    requires InvExcept(s, {p}) && p in s.portCtx
    ensures DrainChannels(s, p).Running?
    ensures var t := DrainChannels(s, p).state;
      InvExcept(t, {p}) && Progress(s, t) && p in t.portCtx && t.portCtx[p].channels == [] && t.ports == s.ports
      && OthersKept(s, t, p)
    decreases |s.portCtx[p].channels|
  {
    if s.portCtx[p].channels == [] {
    } else {
      DrainOneEnds(s, p);
      var s1 := DrainOne(s, p).state;
      DrainInv(s1, p);
      ProgressTransitive(s, s1, DrainChannels(s1, p).state);
    }
  }

  lemma DrainedHasNone<H, P, C>(s: State<H, P, C>, t: State<H, P, C>, p: P)
    requires ListsOk(t.portCtx, t.chanCtx) && OthersKept(s, t, p)
    requires p in t.portCtx && t.portCtx[p].channels == []
    ensures forall c :: c in t.chanCtx ==> s.chanCtx[c].link != Some(p)
  {
  }

  lemma RemovedPort<H, P, C>(s: State<H, P, C>, p: P)
    requires InvExcept(s, {p}) && p in s.portCtx && s.portCtx[p].channels == []
    ensures Inv(s.(portCtx := s.portCtx - {p}))
  {
  }

  /** ipc_port_destroy succeeds on a live port, closes its handle and ends every
      connection of the port, and keeps the invariant for all others. */
  lemma DestroyInv<H, P, C>(s: State<H, P, C>, p: P)
    requires Inv(s) && p in s.portCtx
    ensures PortDestroy(s, p).Running?
    ensures var t := PortDestroy(s, p).state;
      Inv(t) && Progress(s, t) && p !in t.portCtx && t.ports == s.ports - {s.portCtx[p].handle}
      && OthersKept(s, t, p) && forall c :: c in t.chanCtx ==> s.chanCtx[c].link != Some(p)
  {
    var h := s.portCtx[p].handle;
    assert s.ports[h] == PortCookie(p);
    var s1 := s.(ports := s.ports - {h});
    assert PortsOk(s1.ports, s1.portCtx, {p});
    DrainInv(s1, p);
    var s2 := DrainChannels(s1, p).state;
    DrainedHasNone(s1, s2, p);
    RemovedPort(s2, p);
  }

  // ---- one step ----

  /** A call of abort(): a port reports anything but READY, or a channel reports
      ERROR or READY. */
  ghost predicate CallsAbort<H, P, C>(s: State<H, P, C>, i: Input<H, P, C>) {
    i.Wait? && (if i.h in s.ports then i.ev.error || i.ev.hup || i.ev.msg || i.ev.sendUnblocked
                else i.ev.error || i.ev.ready)
  }

  /** The event makes read_msg store more than msg_buf holds: a channel with a
      message handler reports MSG, and the message is not refused before it is read. */
  ghost predicate Overruns<H, P, C>(s: State<H, P, C>, i: Input<H, P, C>) {
    && i.Wait? && i.h !in s.ports && i.h in s.chans && i.ev.msg
    && s.chans[i.h].cookie.ChanCookie? && s.chans[i.h].cookie.chan in s.chanCtx
    && EventOverruns(s.chans[i.h].(msgId := i.msgId, msgLen := i.msgLen),
                     s.chanCtx[s.chans[i.h].cookie.chan].hasMsgHandler, i.ev, i.receive, s.bufSize)
  }

  lemma WaitInv<H, P, C>(s: State<H, P, C>, i: Input<H, P, C>)
    requires Inv(s) && i.Wait? && Allowed(s, i)
    ensures Step(s, i).Fault? <==> Overruns(s, i)
    ensures Step(s, i).Fault? ==> Step(s, i) == Fault(BufferOverrun)
    ensures Step(s, i).Aborted? <==> CallsAbort(s, i)
    ensures Step(s, i).Running? ==> Inv(Step(s, i).state) && Progress(s, Step(s, i).state)
  {
    var s1 := if i.ev.msg then NewMsg(s, i.h, i.msgId, i.msgLen) else s;
    NewMsgInv(s, i.h, i.msgId, i.msgLen);
    if i.h in s.ports {
      DispatchPortInv(s1, i.h, i.ev, i.accept, i.receive);
    } else {
      DispatchChannelInv(s1, s1.chans[i.h].cookie.chan, i.h, i.ev, i.accept, i.receive);
    }
  }

  /** Every step: the only violation there can be is an overrun of the buffer,
      abort() is called only where it is meant to be, and otherwise the invariant holds
      again. */
  lemma StepInv<H, P, C>(s: State<H, P, C>, i: Input<H, P, C>)
    requires Inv(s) && Allowed(s, i)
    ensures Step(s, i).Fault? <==> Overruns(s, i)
    ensures Step(s, i).Fault? ==> Step(s, i) == Fault(BufferOverrun)
    ensures Step(s, i).Aborted? <==> CallsAbort(s, i)
    ensures Step(s, i).Running? ==> Inv(Step(s, i).state) && Progress(s, Step(s, i).state)
  {
    match i
    case Create(p, handle, setCookieOk, maxBuf, reallocOk) => CreateInv(s, p, handle, setCookieOk, maxBuf, reallocOk);
    case Destroy(p) => DestroyInv(s, p);
    case Wait(_, _, _, _, _, _) => WaitInv(s, i);
  }

  /** What an event on a port does: abort(), nothing, or one of the two ends of an
      accepted connection. */
  lemma PortStepOutcome<H, P, C>(s: State<H, P, C>, i: Input<H, P, C>)
    requires Inv(s) && Allowed(s, i) && i.Wait? && i.h in s.ports
    ensures var o := Step(s, i); var a := i.accept; var p := s.ports[i.h].port;
      if i.ev.error || i.ev.hup || i.ev.msg || i.ev.sendUnblocked then o == Aborted
      else if !i.ev.ready || a.chan.None? then o == Running(s)
      else
        && o.Running? && p in s.portCtx
        && if a.ctx.Some? && a.setCookieOk
           then Joined(s, o.state, p, a.chan.value, a.ctx.value, a.hasMsgHandler)
           else o.state == s.(sessions := s.sessions
                  + [Session(p, a.chan.value, a.ctx, if a.ctx.Some? then 1 else 0, 1)])
  {
    var p := s.ports[i.h].port;
    if !i.ev.msg {
      DispatchesPort(s, p, i.h, i.ev, i.accept, i.receive);
      if i.ev.ready && i.accept.chan.Some? {
        ConnectEnds(s, p, i.ev, i.accept);
      }
    } else {
      var s1 := NewMsg(s, i.h, i.msgId, i.msgLen);
      assert i.h !in s.chans && s1 == s;
      DispatchesPort(s, p, i.h, i.ev, i.accept, i.receive);
    }
  }

  /** The pending message that an event on a channel meets, and leaves. */
  ghost function MetSlot<H, P, C>(s: State<H, P, C>, i: Input<H, P, C>): Slot<P, C>
    requires i.Wait? && i.h in s.chans
  {
    if i.ev.msg then s.chans[i.h].(msgId := i.msgId, msgLen := i.msgLen) else s.chans[i.h]
  }

  /** The state after an event with MSG or HUP on the channel of context c, but for
      the end of the connection. */
  ghost function Handled<H, P, C>(s: State<H, P, C>, i: Input<H, P, C>, c: C): State<H, P, C>
    requires i.Wait? && i.h in s.chans && c in s.chanCtx
  {
    var slot := MetSlot(s, i);
    if i.ev.msg && s.chanCtx[c].hasMsgHandler then
      s.(chans := s.chans[i.h := AfterHandling(slot, i.receive)],
         delivered := s.delivered
           + if Accepts(slot, i.receive) then [Delivery(s.chanCtx[c].sid, slot.msgLen, slot.msgLen)] else [])
    else s.(chans := s.chans[i.h := slot])
  }

  ghost predicate EndsConnection<H, P, C>(s: State<H, P, C>, i: Input<H, P, C>, c: C)
    requires i.Wait? && i.h in s.chans && c in s.chanCtx
  {
    i.ev.hup || (i.ev.msg && (!s.chanCtx[c].hasMsgHandler || Refused(MetSlot(s, i), i.receive)))
  }

  /** handle_channel, on the state after wait_any. */
  lemma ChannelEventEnds<H, P, C>(s: State<H, P, C>, c: C, h: H, ev: Event, r: Receive)
    requires Inv(s) && c in s.chanCtx && s.chanCtx[c].handle == h && h in s.chans && !ev.error && !ev.ready
    requires r.readRc <= s.chans[h].msgLen
    requires !EventOverruns(s.chans[h], s.chanCtx[c].hasMsgHandler, ev, r, s.bufSize)
    ensures var slot := s.chans[h]; var handles := ev.msg && s.chanCtx[c].hasMsgHandler;
      var m := if handles then DoHandleMsg(s, c, h, r).state.0 else s;
      && (handles ==> DoHandleMsg(s, c, h, r).Running?) && Inv(m) && m.chanCtx == s.chanCtx
      && HandleChannelEvent(s, c, h, ev, r) ==
           if ev.hup || (ev.msg && (!handles || Refused(slot, r))) then DoDisconnect(m, c, h) else Running(m)
  {
    if ev.msg && s.chanCtx[c].hasMsgHandler {
      HandleMsgInv(s, c, h, r);
      HandleMsgOutcome(s, c, h, r);
    }
  }

  /** The cookie of an open channel is its context. */
  lemma LiveChannel<H, P, C>(s: State<H, P, C>, h: H)
    requires Inv(s) && h in s.chans
    ensures h !in s.ports && s.bufAlloc == s.bufSize
    ensures s.chans[h].cookie.ChanCookie? && s.chans[h].cookie.chan in s.chanCtx
    ensures var k := s.chanCtx[s.chans[h].cookie.chan]; k.handle == h && k.handler == HandleChannel
  {
  }

  /** wait_any and do_handle_msg together. */
  lemma HandledIs<H, P, C>(s: State<H, P, C>, s1: State<H, P, C>, i: Input<H, P, C>, c: C)
    requires i.Wait? && i.h in s.chans && c in s.chanCtx && s.bufAlloc == s.bufSize
    requires s1 == if i.ev.msg then NewMsg(s, i.h, i.msgId, i.msgLen) else s
    requires i.receive.readRc <= s1.chans[i.h].msgLen && !Overrun(s1.chans[i.h], i.receive, s.bufSize)
    ensures s1.chans[i.h] == MetSlot(s, i)
    ensures Handled(s, i, c) ==
            if i.ev.msg && s.chanCtx[c].hasMsgHandler then DoHandleMsg(s1, c, i.h, i.receive).state.0 else s1
  {
    if i.ev.msg && s.chanCtx[c].hasMsgHandler {
      HandleMsgOutcome(s1, c, i.h, i.receive);
      var slot := AfterHandling(s1.chans[i.h], i.receive);
      assert s1.chans[i.h := slot] == s.chans[i.h := slot];
    } else if !i.ev.msg {
      assert s.chans[i.h := s.chans[i.h]] == s.chans;
    }
  }

  lemma StepDispatches<H, P, C>(s: State<H, P, C>, s1: State<H, P, C>, i: Input<H, P, C>, c: C)
    requires Inv(s) && i.Wait? && i.h in s.chans && s.chans[i.h].cookie == ChanCookie(c)
    requires s1 == if i.ev.msg then NewMsg(s, i.h, i.msgId, i.msgLen) else s
    ensures Step(s, i) == HandleChannelEvent(s1, c, i.h, i.ev, i.receive)
  {
    LiveChannel(s, i.h);
    DispatchesChannel(s1, c, i.h, i.ev, i.accept, i.receive);
  }

  /** What an event on a channel does, unless it overruns the buffer: abort(), or
      what handling a message does, followed by the end of the connection exactly
      when the peer hung up or the message had no handler or was refused. */
  lemma ChannelStepOutcome<H, P, C>(s: State<H, P, C>, i: Input<H, P, C>, c: C)
    requires Inv(s) && Allowed(s, i) && i.Wait? && i.h in s.chans && s.chans[i.h].cookie == ChanCookie(c)
    requires !Overruns(s, i) && c in s.chanCtx
    ensures var o := Step(s, i); var m := Handled(s, i, c);
      if i.ev.error || i.ev.ready then o == Aborted
      else if EndsConnection(s, i, c) then o == DoDisconnect(m, c, i.h) && Inv(m) && m.chanCtx == s.chanCtx
      else o == Running(m)
  {
    var s1 := if i.ev.msg then NewMsg(s, i.h, i.msgId, i.msgLen) else s;
    LiveChannel(s, i.h);
    StepDispatches(s, s1, i, c);
    if !i.ev.error && !i.ev.ready {
      assert Inv(s1) by {
        NewMsgInv(s, i.h, i.msgId, i.msgLen);
      }
      ChannelEventEnds(s1, c, i.h, i.ev, i.receive);
      if i.ev.msg && s.chanCtx[c].hasMsgHandler {
        HandledIs(s, s1, i, c);
      } else {
        assert s1.chans == s.chans[i.h := MetSlot(s, i)];
      }
    }
  }

  /** So a connection that an event ends is over: unlinked, disconnected and closed. */
  lemma ChannelStepEnds<H, P, C>(s: State<H, P, C>, i: Input<H, P, C>, c: C)
    requires Inv(s) && Allowed(s, i) && i.Wait? && i.h in s.chans && s.chans[i.h].cookie == ChanCookie(c)
    requires !Overruns(s, i) && !i.ev.error && !i.ev.ready
    requires c in s.chanCtx && EndsConnection(s, i, c)
    requires s.chanCtx[c].link.Some? && s.chanCtx[c].link.value in s.portCtx && s.chanCtx[c].sid < |s.sessions|
    ensures Step(s, i).Running?
    ensures var t := Step(s, i).state; Ended(Handled(s, i, c), t, c) && Over(t.sessions[s.chanCtx[c].sid])
  {
    var m := Handled(s, i, c);
    LiveChannel(s, i.h);
    ChannelStepOutcome(s, i, c);
    DisconnectEnds(m, c, i.h);
    EndedInv(m, Step(s, i).state, c, {});
  }

  /** A ready buffer is never overrun. */
  lemma ReadyNotOverrun<H, P, C>(s: State<H, P, C>, i: Input<H, P, C>)
    requires BufferReady(s) && Allowed(s, i)
    ensures !Overruns(s, i)
  {
  }

  /** The handle of a channel with a message handler, a message of one byte more
      than msg_buf holds, and a read_msg that stores all of it. */
  ghost function Overflowing<H, P, C>(s: State<H, P, C>, h: H): Input<H, P, C> {
    var n := s.bufSize + 1;
    Wait(h, Event(false, false, false, true, false, false), 1, n,
         Accept(None, Slot(NullCookie, 0, 0, 0), None, false, false), Receive(0, n, true, 0, 0, 0))
  }

  lemma OverflowingFaults<H, P, C>(s: State<H, P, C>, c: C, h: H)
    requires c in s.chanCtx && s.chanCtx[c].hasMsgHandler && s.chanCtx[c].handle == h
    requires s.chanCtx[c].handler == HandleChannel
    requires h in s.chans && h !in s.ports && s.chans[h].cookie == ChanCookie(c)
    requires s.bufAlloc == s.bufSize < MSG_BUF_MAX_SIZE
    ensures Allowed(s, Overflowing(s, h)) && Step(s, Overflowing(s, h)) == Fault(BufferOverrun)
  {
  }

  /** The length check of do_handle_msg compares with 4096 and not with the size
      of the buffer. A server step is therefore free of violations, whatever the
      kernel and the callbacks do, exactly when the buffer holds 4096 bytes or no
      channel takes messages. */
  lemma SafeExactlyWhenBufferReady<H, P, C>(s: State<H, P, C>)
    requires Inv(s)
    ensures (forall i :: Allowed(s, i) ==> !Step(s, i).Fault?) <==> BufferReady(s)
  {
    if BufferReady(s) {
      forall i | Allowed(s, i)
        ensures !Step(s, i).Fault?
      {
        StepInv(s, i);
        ReadyNotOverrun(s, i);
      }
    } else {
      var c :| c in s.chanCtx && s.chanCtx[c].hasMsgHandler;
      var h := s.chanCtx[c].handle;
      assert h in s.chans && h !in s.ports && s.chans[h].cookie == ChanCookie(c);
      OverflowingFaults(s, c, h);
    }
  }

  // ---- runs ----

  /** The buffer is large enough, or nothing is open yet. */
  ghost predicate Sized<H, P, C>(s: State<H, P, C>) {
    s.bufSize >= MSG_BUF_MAX_SIZE || (s.ports == map[] && s.chans == map[])
  }

  /** Every port the application creates asks for a buffer that holds the largest
      message do_handle_msg accepts. */
  ghost predicate AsksEnough<H, P, C>(inputs: seq<Input<H, P, C>>) {
    forall k :: 0 <= k < |inputs| && inputs[k].Create? ==> inputs[k].maxBuf >= MSG_BUF_MAX_SIZE
  }

  lemma SizedReady<H, P, C>(s: State<H, P, C>)
    requires Inv(s) && Sized(s)
    ensures BufferReady(s)
  {
  }

  lemma StepSized<H, P, C>(s: State<H, P, C>, i: Input<H, P, C>)
    requires Inv(s) && Sized(s) && Allowed(s, i) && Step(s, i).Running?
    requires s.bufSize >= MSG_BUF_MAX_SIZE || (i.Create? ==> i.maxBuf >= MSG_BUF_MAX_SIZE)
    ensures Sized(Step(s, i).state)
  {
    StepInv(s, i);
    assert forall p :: p in s.portCtx ==> s.portCtx[p].handle in s.ports;
    if i.Create? {
      CreateAllOrNothing(s, i.p, i.handle, i.setCookieOk, i.maxBuf, i.reallocOk);
    }
  }

  /** Every run, of any length, over any ports and events, whatever size of buffer
      they ask for: no assertion fails, no context is used after its on_disconnect,
      no handle is closed that is not open, and the invariant holds at every
      iteration boundary. Only the buffer can be overrun. */
  lemma {:induction false} RunInv<H, P, C>(s: State<H, P, C>, inputs: seq<Input<H, P, C>>)
    requires Inv(s) && AllowedRun(s, inputs)
    ensures Run(s, inputs).Fault? ==> Run(s, inputs) == Fault(BufferOverrun)
    ensures Run(s, inputs).Running? ==> Inv(Run(s, inputs).state) && Progress(s, Run(s, inputs).state)
    decreases |inputs|
  {
    if inputs == [] {
    } else {
      StepInv(s, inputs[0]);
      if Step(s, inputs[0]).Running? {
        var s1 := Step(s, inputs[0]).state;
        RunInv(s1, inputs[1..]);
        if Run(s1, inputs[1..]).Running? {
          ProgressTransitive(s, s1, Run(s1, inputs[1..]).state);
        }
      }
    }
  }

  /** Nor is the buffer overrun when it is large enough from the start, or when
      every port asks for 4096 bytes or more. */
  lemma {:induction false} RunSafe<H, P, C>(s: State<H, P, C>, inputs: seq<Input<H, P, C>>)
    requires Inv(s) && Sized(s) && AllowedRun(s, inputs)
    requires s.bufSize >= MSG_BUF_MAX_SIZE || AsksEnough(inputs)
    ensures !Run(s, inputs).Fault?
    ensures Run(s, inputs).Running? ==> Sized(Run(s, inputs).state)
    decreases |inputs|
  {
    if inputs == [] {
    } else {
      var i := inputs[0];
      StepInv(s, i);
      SizedReady(s);
      ReadyNotOverrun(s, i);
      if Step(s, i).Running? {
        StepSized(s, i);
        assert AsksEnough(inputs) ==> AsksEnough(inputs[1..]);
        RunSafe(Step(s, i).state, inputs[1..]);
      }
    }
  }

  /** Once a port is gone, each connection it ever accepted has had its handle
      closed exactly once and its context, if on_connect gave one, disconnected
      exactly once; and that stays so in every later state. */
  lemma DestroyedPortIsOver<H, P, C>(s: State<H, P, C>, inputs: seq<Input<H, P, C>>, p: P)
    requires Inv(s) && AllowedRun(s, inputs)
    requires p !in s.portCtx && Run(s, inputs).Running?
    ensures var t := Run(s, inputs).state;
      forall i :: 0 <= i < |s.sessions| && s.sessions[i].port == p ==>
        Over(s.sessions[i]) && i < |t.sessions| && t.sessions[i] == s.sessions[i]
  {
    RunInv(s, inputs);
    forall c | c in s.chanCtx
      ensures s.sessions[s.chanCtx[c].sid].port in s.portCtx
    {
      assert Serves(s.chanCtx[c], c, s.sessions[s.chanCtx[c].sid]);
    }
  }

  lemma {:induction false} RunAppend<H, P, C>(s: State<H, P, C>, xs: seq<Input<H, P, C>>, i: Input<H, P, C>)
    requires Run(s, xs).Running?
    requires AllowedRun(s, xs + [i])
    ensures AllowedRun(s, xs) && Allowed(Run(s, xs).state, i)
    ensures Run(s, xs + [i]) == Step(Run(s, xs).state, i)
    decreases |xs|
  {
    if xs == [] {
      assert (xs + [i])[1..] == [];
      assert Run(s, xs + [i]) == Step(s, i);
    } else {
      assert (xs + [i])[0] == xs[0] && (xs + [i])[1..] == xs[1..] + [i];
      RunAppend(Step(s, xs[0]).state, xs[1..], i);
    }
  }

  lemma {:induction false} RunExtend<H, P, C>(s: State<H, P, C>, xs: seq<Input<H, P, C>>, i: Input<H, P, C>)
    requires AllowedRun(s, xs) && Run(s, xs).Running? && Allowed(Run(s, xs).state, i)
    ensures AllowedRun(s, xs + [i])
    ensures Run(s, xs + [i]) == Step(Run(s, xs).state, i)
    decreases |xs|
  {
    if xs == [] {
      assert (xs + [i])[0] == i && (xs + [i])[1..] == [];
    } else {
      assert (xs + [i])[0] == xs[0] && (xs + [i])[1..] == xs[1..] + [i];
      RunExtend(Step(s, xs[0]).state, xs[1..], i);
    }
  }

  /** A run of the whole program that ends with ipc_port_destroy(p): it succeeds,
      and every connection p ever accepted, on whatever path it ended, was
      disconnected and closed exactly once. */
  lemma DestroyEndsAll<H, P, C>(inputs: seq<Input<H, P, C>>, p: P)
    requires AllowedRun(Init(), inputs + [Destroy(p)])
    requires Run(Init<H, P, C>(), inputs).Running?
    ensures Run(Init<H, P, C>(), inputs + [Destroy(p)]).Running?
    ensures var t := Run(Init<H, P, C>(), inputs + [Destroy(p)]).state;
      Inv(t) && forall i :: 0 <= i < |t.sessions| && t.sessions[i].port == p ==> Over(t.sessions[i])
  {
    InitInv<H, P, C>();
    var s0 := Init<H, P, C>();
    RunAppend(s0, inputs, Destroy(p));
    RunInv(s0, inputs);
    var s := Run(s0, inputs).state;
    DestroyInv(s, p);
    DestroyedPortIsOver(PortDestroy(s, p).state, [], p);
  }

  // ---- the size a port asks for ----

  /** The program that creates its first port for messages of up to n bytes, then does anything. */
  ghost function Program<H, P, C>(p: P, h: H, n: nat, inputs: seq<Input<H, P, C>>): seq<Input<H, P, C>> {
    [Create(p, Some(h), true, n, true)] + inputs
  }

  /** What a client of port h does: it connects, on handle ch and with context c,
      and sends a message of one byte more than the port asked for. */
  ghost function OverlongMessage<H, P, C>(h: H, ch: H, c: C, n: nat): seq<Input<H, P, C>> {
    [Wait(h, Event(true, false, false, false, false, false), 0, 0,
          Accept(Some(ch), Slot(NullCookie, 0, 0, 0), Some(c), true, true), Receive(0, 0, true, 0, 0, 0)),
     Wait(ch, Event(false, false, false, true, false, false), 1, n + 1,
          Accept(None, Slot(NullCookie, 0, 0, 0), None, false, false), Receive(0, n + 1, true, 0, 0, 0))]
  }

  /** The state of such a program when the client is connected. */
  lemma ClientConnects<H, P, C>(p: P, h: H, ch: H, c: C, n: nat) returns (s: State<H, P, C>)
    requires h != ch
    ensures var run := Program(p, h, n, [OverlongMessage<H, P, C>(h, ch, c, n)[0]]);
      AllowedRun(Init(), run) && Run(Init(), run) == Running(s)
    ensures c in s.chanCtx && s.chanCtx[c].hasMsgHandler && s.chanCtx[c].handle == ch
    ensures s.chanCtx[c].handler == HandleChannel
    ensures ch in s.chans && ch !in s.ports && s.chans[ch].cookie == ChanCookie(c)
    ensures s.bufAlloc == s.bufSize == n
  {
    var s0 := Init<H, P, C>();
    var i := Create(p, Some(h), true, n, true);
    var w := OverlongMessage<H, P, C>(h, ch, c, n)[0];
    CreateAllOrNothing(s0, p, Some(h), true, n, true);
    RunExtend(s0, [], i);
    var s1 := Step(s0, i).state;
    assert [] + [i] == [i];
    DispatchesPort(s1, p, h, w.ev, w.accept, w.receive);
    ConnectEnds(s1, p, w.ev, w.accept);
    RunExtend(s0, [i], w);
    s := Step(s1, w).state;
  }

  lemma OverlongMessageFaults<H, P, C>(p: P, h: H, ch: H, c: C, n: nat)
    requires h != ch && n < MSG_BUF_MAX_SIZE
    ensures var run := Program(p, h, n, OverlongMessage<H, P, C>(h, ch, c, n));
      AllowedRun(Init(), run) && Run(Init(), run) == Fault(BufferOverrun)
  {
    var inputs := OverlongMessage<H, P, C>(h, ch, c, n);
    var s := ClientConnects(p, h, ch, c, n);
    OverflowingFaults(s, c, ch);
    assert inputs[1] == Overflowing(s, ch);
    RunExtend(Init(), Program(p, h, n, [inputs[0]]), inputs[1]);
    assert Program(p, h, n, [inputs[0]]) + [inputs[1]] == Program(p, h, n, inputs);
  }

  /** A program whose first port asks for messages of up to n bytes is free of
      violations, whatever it does then and whatever its clients do, exactly when n is
      at least 4096. */
  lemma SafeExactlyWhenEnoughAsked<H, P, C>(p: P, h: H, ch: H, c: C, n: nat)
    requires h != ch
    ensures (forall inputs :: AllowedRun<H, P, C>(Init(), Program(p, h, n, inputs)) ==>
              !Run(Init(), Program(p, h, n, inputs)).Fault?) <==> n >= 4096
  {
    if n < MSG_BUF_MAX_SIZE {
      OverlongMessageFaults(p, h, ch, c, n);
    } else {
      forall inputs | AllowedRun<H, P, C>(Init(), Program(p, h, n, inputs))
        ensures !Run(Init(), Program(p, h, n, inputs)).Fault?
      {
        var i := Create(p, Some(h), true, n, true);
        InitInv<H, P, C>();
        StepInv(Init(), i);
        CreateAllOrNothing(Init<H, P, C>(), p, Some(h), true, n, true);
        assert Program(p, h, n, inputs)[1..] == inputs;
        RunSafe(Step(Init(), i).state, inputs);
      }
    }
  }

  /** Without ports nothing is open. */
  lemma NoPortNoHandle<H, P, C>(s: State<H, P, C>)
    requires Inv(s) && s.portCtx == map[]
    ensures s.ports == map[] && s.chans == map[] && s.chanCtx == map[]
  {
    assert s.chanCtx.Keys == {} && s.chans.Keys == {} && s.ports.Keys == {};
  }

  // ---- conservation ----

  ghost function OpenSessions<H, P, C>(xs: seq<Session<H, P, C>>): set<nat> {
    set i | 0 <= i < |xs| && xs[i].closes == 0
  }

  ghost function CountClosed<H, P, C>(xs: seq<Session<H, P, C>>): nat {
    if xs == [] then 0 else CountClosed(xs[..|xs| - 1]) + if xs[|xs| - 1].closes == 0 then 0 else 1
  }

  lemma {:induction false} OpenAndClosed<H, P, C>(xs: seq<Session<H, P, C>>)
    ensures |OpenSessions(xs)| + CountClosed(xs) == |xs|
  {
    if xs == [] {
    } else {
      var n := |xs| - 1;
      OpenAndClosed(xs[..n]);
      if xs[n].closes == 0 {
        assert OpenSessions(xs) == OpenSessions(xs[..n]) + {n};
      } else {
        assert OpenSessions(xs) == OpenSessions(xs[..n]);
      }
    }
  }

  lemma LiveAreOpen<H, P, C>(s: State<H, P, C>)
    requires ChansOk(s.chans, s.chanCtx)
    ensures |s.chans| == |s.chanCtx|
  {
    var f := map c | c in s.chanCtx :: s.chanCtx[c].handle;
    forall h | h in s.chans
      ensures h in f.Values
    {
      assert f[s.chans[h].cookie.chan] == h;
    }
    assert f.Values == s.chans.Keys;
    SameSize(s.chanCtx.Keys, s.chans.Keys, f);
  }

  lemma LiveAreUnfinished<H, P, C>(chanCtx: map<C, ChanContext<H, P>>, sessions: seq<Session<H, P, C>>)
    requires SessionsOk(chanCtx, sessions)
    ensures |chanCtx| == |OpenSessions(sessions)|
  {
    var g := map c | c in chanCtx :: chanCtx[c].sid;
    forall i | i in OpenSessions(sessions)
      ensures i in g.Values
    {
      assert !Over(sessions[i]);
      assert g[sessions[i].ctx.value] == i;
    }
    forall c | c in chanCtx
      ensures g[c] in OpenSessions(sessions) && sessions[g[c]].ctx == Some(c)
    {
      assert Serves(chanCtx[c], c, sessions[g[c]]);
    }
    assert g.Values == OpenSessions(sessions);
    SameSize(chanCtx.Keys, OpenSessions(sessions), g);
  }

  /** accepted = live + closed, in every state that satisfies the invariant: the
      open channels, the live contexts and the unfinished sessions are equally many. */
  lemma AcceptedIsLivePlusClosed<H, P, C>(s: State<H, P, C>)
    requires Inv(s)
    ensures |s.chans| == |s.chanCtx|
    ensures |s.sessions| == |s.chans| + CountClosed(s.sessions)
  {
    LiveAreOpen(s);
    LiveAreUnfinished(s.chanCtx, s.sessions);
    OpenAndClosed(s.sessions);
  }
}
