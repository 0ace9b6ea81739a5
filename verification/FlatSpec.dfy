/** The flat handle table on values: numbered port and channel slots, any number
    of each. K is the type of cookies.

    The table allocates by first fit, keeps a cookie and a pending message per slot
    (neither is cleared when a slot is freed or allocated), and counts its active
    slots in two `unsigned` globals. */
module FlatSpec {
  import opened Trusty

  /** Port handles are 1..portMax, channel handles chanMin..chanMax; the C code has
      Layout(2, 16, 17). */
  datatype Layout = Layout(portMax: nat, chanMin: nat, chanMax: nat) {
    predicate Valid() { 1 <= portMax < chanMin <= chanMax + 1 }
    predicate IsPort(h: int) { 1 <= h <= portMax }
    predicate IsChan(h: int) { chanMin <= h <= chanMax }
  }

  predicate IsSecure(h: int) { h % 2 == 1 }

  datatype PortSlot<K> = PortSlot(active: bool, cookie: K, path: char)
  datatype ChanSlot<K> = ChanSlot(active: bool, cookie: K, msgId: nat, msgLen: nat)

  datatype Table<K> = Table(layout: Layout, ports: seq<PortSlot<K>>, chans: seq<ChanSlot<K>>,
                            nPorts: nat, nChans: nat)
  {
    predicate Valid() {
      && layout.Valid()
      && |ports| == layout.portMax
      && |chans| == layout.chanMax + 1 - layout.chanMin
      && nPorts < TWO_32 && nChans < TWO_32
    }

    predicate IsPort(h: int) { layout.IsPort(h) && h <= |ports| }
    predicate IsChan(h: int) { layout.IsChan(h) && h - layout.chanMin < |chans| }

    function Port(h: int): PortSlot<K>
      requires IsPort(h)
    { ports[h - 1] }

    function Chan(h: int): ChanSlot<K>
      requires IsChan(h)
    { chans[h - layout.chanMin] }

    predicate IsActivePort(h: int) { IsPort(h) && Port(h).active }
    predicate IsActiveChan(h: int) { IsChan(h) && Chan(h).active }
    predicate IsActive(h: int) { IsActivePort(h) || IsActiveChan(h) }

    function GetCookie(h: int, noCookie: K): K {
      if IsPort(h) then Port(h).cookie else if IsChan(h) then Chan(h).cookie else noCookie
    }
    function GetMsgId(h: int): nat { if IsChan(h) then Chan(h).msgId else INVALID_IPC_MSG_ID }
    function GetMsgLen(h: int): nat { if IsChan(h) then Chan(h).msgLen else 0 }

    function WithPort(h: int, slot: PortSlot<K>): Table<K>
      requires IsPort(h)
    { this.(ports := ports[h - 1 := slot]) }

    function WithChan(h: int, slot: ChanSlot<K>): Table<K>
      requires IsChan(h)
    { this.(chans := chans[h - layout.chanMin := slot]) }
  }

  function Empty<K>(layout: Layout, noCookie: K): Table<K>
    requires layout.Valid()
  {
    Table(layout, seq(layout.portMax, _ => PortSlot(false, noCookie, '\0')),
          seq(layout.chanMax + 1 - layout.chanMin, _ => ChanSlot(false, noCookie, 0, 0)), 0, 0)
  }

  // ---- allocation ----

  predicate PortFits<K>(t: Table<K>, h: int, secure: bool)
    requires t.IsPort(h)
  {
    IsSecure(h) == secure && !t.Port(h).active
  }

  /** The first inactive port handle, from h on, of the given parity. */
  function FirstPort<K>(t: Table<K>, secure: bool, h: nat): int
    requires t.Valid() && 1 <= h
    decreases t.layout.portMax + 1 - h
  {
    if !t.IsPort(h) then INVALID_IPC_HANDLE
    else if PortFits(t, h, secure) then h
    else FirstPort(t, secure, h + 1)
  }

  /** The first inactive channel handle from h on. */
  function FirstChan<K>(t: Table<K>, h: nat): int
    requires t.Valid() && t.layout.chanMin <= h
    decreases t.layout.chanMax + 1 - h
  {
    if !t.IsChan(h) then INVALID_IPC_HANDLE
    else if !t.Chan(h).active then h
    else FirstChan(t, h + 1)
  }

  lemma {:induction false} FirstPortIsLeast<K>(t: Table<K>, secure: bool, h: nat)
    requires t.Valid() && 1 <= h
    ensures var r := FirstPort(t, secure, h);
      && (r == INVALID_IPC_HANDLE <==> forall g :: h <= g && t.IsPort(g) && IsSecure(g) == secure ==> t.Port(g).active)
      && (r != INVALID_IPC_HANDLE ==>
           h <= r && t.IsPort(r) && PortFits(t, r, secure)
           && forall g :: h <= g < r && IsSecure(g) == secure ==> t.IsActivePort(g))
    decreases t.layout.portMax + 1 - h
  {
    if !t.IsPort(h) || PortFits(t, h, secure) {
    } else {
      FirstPortIsLeast(t, secure, h + 1);
    }
  }

  lemma {:induction false} FirstChanIsLeast<K>(t: Table<K>, h: nat)
    requires t.Valid() && t.layout.chanMin <= h
    ensures var r := FirstChan(t, h);
      && (r == INVALID_IPC_HANDLE <==> forall g :: h <= g && t.IsChan(g) ==> t.Chan(g).active)
      && (r != INVALID_IPC_HANDLE ==>
           h <= r && t.IsChan(r) && !t.Chan(r).active && forall g :: h <= g < r ==> t.IsActiveChan(g))
    decreases t.layout.chanMax + 1 - h
  {
    if !t.IsChan(h) || !t.Chan(h).active {
    } else {
      FirstChanIsLeast(t, h + 1);
    }
  }

  // ---- operations ----

  /** The calls that change the table. The path stands for a C string: its first
      character is NUL when it is empty. */
  datatype Op<K> =
    | NewPort(secure: bool, path: string)
    | NewChannel
    | Free(h: int)
    | SetCookie(h: int, cookie: K)
    | SetMsgId(h: int, id: nat)
    | SetMsgLen(h: int, len: nat)
    | NewMsg(h: int, id: nat, len: nat)

  /** The handle an allocation returns; 0 for the other calls. */
  function Result<K>(t: Table<K>, op: Op<K>): int
    requires t.Valid()
  {
    match op
    case NewPort(secure, _) => FirstPort(t, secure, 1)
    case NewChannel => FirstChan(t, t.layout.chanMin)
    case _ => INVALID_IPC_HANDLE
  }

  function Next<K>(t: Table<K>, op: Op<K>): (u: Table<K>)
    requires t.Valid()
    ensures u.Valid() && u.layout == t.layout
  {
    match op
    case NewPort(secure, path) =>
      var h := FirstPort(t, secure, 1);
      if t.IsPort(h) then
        t.WithPort(h, t.Port(h).(active := true, path := if path == "" then '\0' else path[0]))
         .(nPorts := (t.nPorts + 1) % TWO_32)
      else t
    case NewChannel =>
      var h := FirstChan(t, t.layout.chanMin);
      if t.IsChan(h) then
        t.WithChan(h, t.Chan(h).(active := true)).(nChans := (t.nChans + 1) % TWO_32)
      else t
    case Free(h) =>
      if t.IsPort(h) then t.WithPort(h, t.Port(h).(active := false)).(nPorts := (t.nPorts - 1) % TWO_32)
      else if t.IsChan(h) then t.WithChan(h, t.Chan(h).(active := false)).(nChans := (t.nChans - 1) % TWO_32)
      else t
    case SetCookie(h, k) =>
      if t.IsPort(h) then t.WithPort(h, t.Port(h).(cookie := k))
      else if t.IsChan(h) then t.WithChan(h, t.Chan(h).(cookie := k))
      else t
    case SetMsgId(h, id) => if t.IsChan(h) then t.WithChan(h, t.Chan(h).(msgId := id)) else t
    case SetMsgLen(h, len) => if t.IsChan(h) then t.WithChan(h, t.Chan(h).(msgLen := len)) else t
    case NewMsg(h, id, len) => if t.IsChan(h) then t.WithChan(h, t.Chan(h).(msgId := id, msgLen := len)) else t
  }

  function Run<K>(t: Table<K>, ops: seq<Op<K>>): (u: Table<K>)
    requires t.Valid()
    ensures u.Valid() && u.layout == t.layout
  {
    if ops == [] then t else Next(Run(t, ops[..|ops| - 1]), ops[|ops| - 1])
  }
}
