/** What the flat handle table guarantees over every sequence of calls. */
module FlatProofs {
  import opened Trusty
  import opened FlatSpec

  // ---- one call ----

  /** sea_ht_new_port: fails exactly when every slot of the wanted parity is
      active; otherwise returns the least inactive handle of that parity and
      changes the active flag of that handle only. */
  lemma NewPortIsFirstFit<K>(t: Table<K>, secure: bool, path: string)
    requires t.Valid()
    ensures var r := Result(t, NewPort(secure, path)); var u := Next(t, NewPort(secure, path));
      && (r == INVALID_IPC_HANDLE <==> forall g :: t.IsPort(g) && IsSecure(g) == secure ==> t.Port(g).active)
      && (r == INVALID_IPC_HANDLE ==> u == t)
      && (r != INVALID_IPC_HANDLE ==>
           t.IsPort(r) && IsSecure(r) == secure && !t.IsActive(r)
           && (forall g :: 1 <= g < r && IsSecure(g) == secure ==> t.IsActive(g))
           && forall g :: u.IsActive(g) <==> t.IsActive(g) || g == r)
  {
    FirstPortIsLeast(t, secure, 1);
  }

  /** The same for sea_ht_new_channel, which does not look at parity. */
  lemma NewChannelIsFirstFit<K>(t: Table<K>)
    requires t.Valid()
    ensures var r := Result(t, NewChannel); var u := Next(t, NewChannel);
      && (r == INVALID_IPC_HANDLE <==> forall g :: t.IsChan(g) ==> t.Chan(g).active)
      && (r == INVALID_IPC_HANDLE ==> u == t)
      && (r != INVALID_IPC_HANDLE ==>
           t.IsChan(r) && !t.IsActive(r)
           && (forall g :: t.layout.chanMin <= g < r ==> t.IsActive(g))
           && forall g :: u.IsActive(g) <==> t.IsActive(g) || g == r)
  {
    FirstChanIsLeast(t, t.layout.chanMin);
  }

  // ---- handles held by clients ----

  /** The handles a client holds after a sequence of calls: those it was given and
      has not freed since. It looks at the results only, not into the table. */
  function Held<K>(t: Table<K>, ops: seq<Op<K>>): set<int>
    requires t.Valid()
  {
    if ops == [] then {}
    else
      var n := |ops| - 1;
      var held := Held(t, ops[..n]);
      match ops[n]
      case NewPort(_, _) => held + ({Result(Run(t, ops[..n]), ops[n])} - {INVALID_IPC_HANDLE})
      case NewChannel => held + ({Result(Run(t, ops[..n]), ops[n])} - {INVALID_IPC_HANDLE})
      case Free(h) => held - {h}
      case _ => held
  }

  /** What one call does to the set of active handles. */
  lemma StepActive<K>(t: Table<K>, op: Op<K>, h: int)
    requires t.Valid()
    ensures Next(t, op).IsActive(h) <==>
      (t.IsActive(h) && op != Free(h)) || (h == Result(t, op) && h != INVALID_IPC_HANDLE)
  {
    match op
    case NewPort(secure, path) => NewPortIsFirstFit(t, secure, path);
    case NewChannel => NewChannelIsFirstFit(t);
    case _ =>
  }

  /** After any sequence of calls on an empty table, the active slots are exactly
      the handles that were given out and not freed since. */
  lemma {:induction false} HeldAreActive<K>(layout: Layout, noCookie: K, ops: seq<Op<K>>, h: int)
    requires layout.Valid()
    ensures h in Held(Empty(layout, noCookie), ops) <==> Run(Empty(layout, noCookie), ops).IsActive(h)
  {
    if ops == [] {
    } else {
      var n := |ops| - 1;
      HeldAreActive(layout, noCookie, ops[..n], h);
      StepActive(Run(Empty(layout, noCookie), ops[..n]), ops[n], h);
    }
  }

  /** So no handle is ever given out that somebody still holds. */
  lemma NoTwoHoldersOfOneHandle<K>(layout: Layout, noCookie: K, ops: seq<Op<K>>, op: Op<K>)
    requires layout.Valid()
    ensures var r := Result(Run(Empty(layout, noCookie), ops), op);
      r != INVALID_IPC_HANDLE ==> r !in Held(Empty(layout, noCookie), ops)
  {
    var t := Run(Empty(layout, noCookie), ops);
    HeldAreActive(layout, noCookie, ops, Result(t, op));
    match op
    case NewPort(secure, path) => NewPortIsFirstFit(t, secure, path);
    case NewChannel => NewChannelIsFirstFit(t);
    case _ =>
  }

  // ---- the counters ----

  function CountPorts<K>(ports: seq<PortSlot<K>>): nat {
    if ports == [] then 0 else CountPorts(ports[..|ports| - 1]) + if ports[|ports| - 1].active then 1 else 0
  }

  function CountChans<K>(chans: seq<ChanSlot<K>>): nat {
    if chans == [] then 0 else CountChans(chans[..|chans| - 1]) + if chans[|chans| - 1].active then 1 else 0
  }

  lemma {:induction false} CountPortsUpdate<K>(ports: seq<PortSlot<K>>, i: nat, x: PortSlot<K>)
    requires i < |ports|
    ensures CountPorts(ports[i := x]) ==
      CountPorts(ports) + (if x.active then 1 else 0) - (if ports[i].active then 1 else 0)
  {
    var n := |ports| - 1;
    if i < n {
      assert ports[i := x][..n] == ports[..n][i := x];
      CountPortsUpdate(ports[..n], i, x);
    } else {
      assert ports[i := x][..n] == ports[..n];
    }
  }

  lemma {:induction false} CountChansUpdate<K>(chans: seq<ChanSlot<K>>, i: nat, x: ChanSlot<K>)
    requires i < |chans|
    ensures CountChans(chans[i := x]) ==
      CountChans(chans) + (if x.active then 1 else 0) - (if chans[i].active then 1 else 0)
  {
    var n := |chans| - 1;
    if i < n {
      assert chans[i := x][..n] == chans[..n][i := x];
      CountChansUpdate(chans[..n], i, x);
    } else {
      assert chans[i := x][..n] == chans[..n];
    }
  }

  /** By how much each counter misses the number of active slots. */
  function PortDebt<K>(t: Table<K>): int { CountPorts(t.ports) - t.nPorts }
  function ChanDebt<K>(t: Table<K>): int { CountChans(t.chans) - t.nChans }

  /** Both counters tell the number of active slots. */
  predicate CountersExact<K>(t: Table<K>) {
    t.nPorts == CountPorts(t.ports) && t.nChans == CountChans(t.chans)
  }

  /** The frees of port (channel) slots that were not active at the time. */
  function BadPortFrees<K>(t: Table<K>, ops: seq<Op<K>>): nat
    requires t.Valid()
  {
    if ops == [] then 0
    else
      var n := |ops| - 1;
      BadPortFrees(t, ops[..n]) + if IsBadPortFree(Run(t, ops[..n]), ops[n]) then 1 else 0
  }

  function BadChanFrees<K>(t: Table<K>, ops: seq<Op<K>>): nat
    requires t.Valid()
  {
    if ops == [] then 0
    else
      var n := |ops| - 1;
      BadChanFrees(t, ops[..n]) + if IsBadChanFree(Run(t, ops[..n]), ops[n]) then 1 else 0
  }

  predicate IsBadPortFree<K>(t: Table<K>, op: Op<K>) { op.Free? && t.IsPort(op.h) && !t.IsActivePort(op.h) }
  predicate IsBadChanFree<K>(t: Table<K>, op: Op<K>) {
    op.Free? && !t.IsPort(op.h) && t.IsChan(op.h) && !t.IsActiveChan(op.h)
  }

  /** Counters wrap at 2^32; i and j count the wraps of one call. */
  lemma StepPortDebt<K>(t: Table<K>, op: Op<K>) returns (i: int)
    requires t.Valid()
    ensures PortDebt(Next(t, op)) == PortDebt(t) + (if IsBadPortFree(t, op) then 1 else 0) + i * TWO_32
  {
    var u := Next(t, op);
    i := if op.NewPort? && t.nPorts == TWO_32 - 1 && u != t then 1
         else if op.Free? && t.IsPort(op.h) && t.nPorts == 0 then -1 else 0;
    var h := if op.NewPort? then Result(t, op) else if op.NewChannel? then 0 else op.h;
    if op.NewPort? {
      FirstPortIsLeast(t, op.secure, 1);
    }
    if t.IsPort(h) && |u.ports| == |t.ports| {
      CountPortsUpdate(t.ports, h - 1, u.Port(h));
    }
  }

  lemma StepChanDebt<K>(t: Table<K>, op: Op<K>) returns (j: int)
    requires t.Valid()
    ensures ChanDebt(Next(t, op)) == ChanDebt(t) + (if IsBadChanFree(t, op) then 1 else 0) + j * TWO_32
  {
    var u := Next(t, op);
    j := if op.NewChannel? && t.nChans == TWO_32 - 1 && u != t then 1
         else if op.Free? && !t.IsPort(op.h) && t.IsChan(op.h) && t.nChans == 0 then -1 else 0;
    var h := if op.NewChannel? then Result(t, op) else if op.NewPort? then 0 else op.h;
    if op.NewChannel? {
      FirstChanIsLeast(t, t.layout.chanMin);
    }
    if t.IsChan(h) && |u.chans| == |t.chans| {
      CountChansUpdate(t.chans, h - t.layout.chanMin, u.Chan(h));
    }
  }

  lemma {:induction false} NoneActive<K>(t: Table<K>)
    requires forall i :: 0 <= i < |t.ports| ==> !t.ports[i].active
    requires forall i :: 0 <= i < |t.chans| ==> !t.chans[i].active
    ensures CountPorts(t.ports) == 0 && CountChans(t.chans) == 0
    decreases |t.ports| + |t.chans|
  {
    if t.ports != [] {
      NoneActive(t.(ports := t.ports[..|t.ports| - 1]));
    } else if t.chans != [] {
      NoneActive(t.(chans := t.chans[..|t.chans| - 1]));
    } else {
    }
  }

  /** sea_ht_free decrements its counter whether or not the slot is active. After
      any sequence of calls, the number of active slots is therefore the counter plus
      the number of frees of inactive slots, up to the i and j times 2^32 that the
      counters wrapped. */
  lemma {:induction false} CountersConserved<K>(layout: Layout, noCookie: K, ops: seq<Op<K>>) returns (i: int, j: int)
    requires layout.Valid()
    ensures var t0 := Empty(layout, noCookie); var t := Run(t0, ops);
      && CountPorts(t.ports) == t.nPorts + BadPortFrees(t0, ops) + i * TWO_32
      && CountChans(t.chans) == t.nChans + BadChanFrees(t0, ops) + j * TWO_32
  {
    var t0 := Empty(layout, noCookie);
    if ops == [] {
      NoneActive(t0);
      i, j := 0, 0;
    } else {
      var n := |ops| - 1;
      i, j := CountersConserved(layout, noCookie, ops[..n]);
      var di := StepPortDebt(Run(t0, ops[..n]), ops[n]);
      var dj := StepChanDebt(Run(t0, ops[..n]), ops[n]);
      i, j := i + di, j + dj;
    }
  }

  lemma {:induction false} CountsBounded<K>(t: Table<K>)
    ensures CountPorts(t.ports) <= |t.ports| && CountChans(t.chans) <= |t.chans|
    decreases |t.ports| + |t.chans|
  {
    if t.ports != [] {
      CountsBounded(t.(ports := t.ports[..|t.ports| - 1]));
    } else if t.chans != [] {
      CountsBounded(t.(chans := t.chans[..|t.chans| - 1]));
    } else {
    }
  }

  /** If active == counter + bad + i * 2^32, with active and counter below 2^32,
      they are equal exactly when bad is a multiple of 2^32. */
  lemma EqualUpToWraps(active: nat, counter: nat, bad: nat, i: int)
    requires active < TWO_32 && counter < TWO_32 && active == counter + bad + i * TWO_32
    ensures active == counter <==> bad % TWO_32 == 0
  {
  }

  /** On a table of less than 2^32 slots, the counters are exact after a sequence
      of calls exactly when the frees of inactive slots among them are a multiple of
      2^32 for ports and for channels; in particular when there were none. */
  lemma CountersExactExactlyWhen<K>(layout: Layout, noCookie: K, ops: seq<Op<K>>)
    requires layout.Valid() && layout.portMax < TWO_32 && layout.chanMax - layout.chanMin + 1 < TWO_32
    ensures var t0 := Empty(layout, noCookie);
      CountersExact(Run(t0, ops)) <==>
        BadPortFrees(t0, ops) % TWO_32 == 0 && BadChanFrees(t0, ops) % TWO_32 == 0
  {
    var t0 := Empty(layout, noCookie);
    var t := Run(t0, ops);
    var i, j := CountersConserved(layout, noCookie, ops);
    CountsBounded(t);
    EqualUpToWraps(CountPorts(t.ports), t.nPorts, BadPortFrees(t0, ops), i);
    EqualUpToWraps(CountChans(t.chans), t.nChans, BadChanFrees(t0, ops), j);
  }

  /** One call on a table with exact counters: they stay exact exactly when it is
      not the free of an inactive slot. */
  lemma StepKeepsCounters<K>(t: Table<K>, op: Op<K>)
    requires t.Valid() && CountersExact(t)
    requires t.layout.portMax < TWO_32 && t.layout.chanMax - t.layout.chanMin + 1 < TWO_32
    ensures CountersExact(Next(t, op)) <==> !IsBadPortFree(t, op) && !IsBadChanFree(t, op)
  {
    var i := StepPortDebt(t, op);
    var j := StepChanDebt(t, op);
    CountsBounded(t);
    CountsBounded(Next(t, op));
  }
}
