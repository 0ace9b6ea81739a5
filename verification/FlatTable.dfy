/** The flat handle table as the C code keeps it: slots and counters updated in
    place. Each method is proved to do what `FlatSpec` says, so what `FlatProofs`
    proves holds of this table. */
module FlatTable {
  import opened Trusty
  import opened FlatSpec

  class HandleTable<K> {
    const layout: Layout
    const noCookie: K
    const ports: array<PortSlot<K>>
    const chans: array<ChanSlot<K>>
    var nPorts: nat
    var nChans: nat

    ghost function View(): Table<K>
      reads this, ports, chans
    {
      Table(layout, ports[..], chans[..], nPorts, nChans)
    }

    ghost predicate Valid()
      reads this, ports, chans
    {
      View().Valid() && ports as object != chans as object
    }

    constructor (layout: Layout, noCookie: K)
      requires layout.Valid()
      ensures Valid() && fresh(ports) && fresh(chans)
      ensures View() == Empty(layout, noCookie) && this.noCookie == noCookie
    {
      this.layout := layout;
      this.noCookie := noCookie;
      ports := new PortSlot<K>[layout.portMax](_ => PortSlot(false, noCookie, '\0'));
      chans := new ChanSlot<K>[layout.chanMax + 1 - layout.chanMin](_ => ChanSlot(false, noCookie, 0, 0));
      nPorts, nChans := 0, 0;
      new;
      assert ports[..] == Empty(layout, noCookie).ports;
      assert chans[..] == Empty(layout, noCookie).chans;
    }

    /** s_first_available_port_handle */
    method FirstAvailablePort(secure: bool) returns (h: int)
      requires Valid()
      ensures h == FirstPort(View(), secure, 1)
    {
      h := 1;
      while h <= layout.portMax
        invariant 1 <= h <= layout.portMax + 1
        invariant FirstPort(View(), secure, 1) == FirstPort(View(), secure, h)
      {
        if IsSecure(h) == secure && !ports[h - 1].active {
          return;
        }
        h := h + 1;
      }
      h := INVALID_IPC_HANDLE;
    }

    /** s_first_available_channel_handle */
    method FirstAvailableChannel() returns (h: int)
      requires Valid()
      ensures h == FirstChan(View(), layout.chanMin)
    {
      h := layout.chanMin;
      while h <= layout.chanMax
        invariant layout.chanMin <= h <= layout.chanMax + 1
        invariant FirstChan(View(), layout.chanMin) == FirstChan(View(), h)
      {
        if !chans[h - layout.chanMin].active {
          return;
        }
        h := h + 1;
      }
      h := INVALID_IPC_HANDLE;
    }

    /** sea_ht_new_port */
    method NewPort(secure: bool, path: string) returns (h: int)
      requires Valid()
      modifies this, ports
      ensures Valid()
      ensures View() == Next(old(View()), FlatSpec.NewPort(secure, path))
      ensures h == Result(old(View()), FlatSpec.NewPort(secure, path))
    {
      h := FirstAvailablePort(secure);
      FirstPortIsLeast(View(), secure, 1);
      if h == INVALID_IPC_HANDLE {
        return;
      }
      nPorts := (nPorts + 1) % TWO_32;
      ports[h - 1] := ports[h - 1].(active := true, path := if path == "" then '\0' else path[0]);
    }

    /** sea_ht_new_channel */
    method NewChannel() returns (h: int)
      requires Valid()
      modifies this, chans
      ensures Valid()
      ensures View() == Next(old(View()), FlatSpec.NewChannel)
      ensures h == Result(old(View()), FlatSpec.NewChannel)
    {
      h := FirstAvailableChannel();
      FirstChanIsLeast(View(), layout.chanMin);
      if h == INVALID_IPC_HANDLE {
        return;
      }
      nChans := (nChans + 1) % TWO_32;
      chans[h - layout.chanMin] := chans[h - layout.chanMin].(active := true);
    }

    /** sea_ht_free */
    method Free(h: int)
      requires Valid()
      modifies this, ports, chans
      ensures Valid()
      ensures View() == Next(old(View()), FlatSpec.Free(h))
    {
      if layout.IsPort(h) {
        ports[h - 1] := ports[h - 1].(active := false);
        nPorts := (nPorts - 1) % TWO_32;
      } else if layout.IsChan(h) {
        chans[h - layout.chanMin] := chans[h - layout.chanMin].(active := false);
        nChans := (nChans - 1) % TWO_32;
      }
    }

    /** sea_ht_set_cookie */
    method SetCookie(h: int, cookie: K)
      requires Valid()
      modifies ports, chans
      ensures Valid()
      ensures View() == Next(old(View()), FlatSpec.SetCookie(h, cookie))
    {
      if layout.IsPort(h) {
        ports[h - 1] := ports[h - 1].(cookie := cookie);
      } else if layout.IsChan(h) {
        chans[h - layout.chanMin] := chans[h - layout.chanMin].(cookie := cookie);
      }
    }

    /** sea_ht_get_cookie */
    method GetCookie(h: int) returns (cookie: K)
      requires Valid()
      ensures cookie == View().GetCookie(h, noCookie)
    {
      if layout.IsPort(h) {
        cookie := ports[h - 1].cookie;
      } else if layout.IsChan(h) {
        cookie := chans[h - layout.chanMin].cookie;
      } else {
        cookie := noCookie;
      }
    }

    /** sea_ht_is_active_port */
    method IsActivePort(h: int) returns (b: bool)
      requires Valid()
      ensures b == View().IsActivePort(h)
    {
      b := layout.IsPort(h) && ports[h - 1].active;
    }

    /** sea_ht_get_msg_id */
    method GetMsgId(h: int) returns (id: nat)
      requires Valid()
      ensures id == View().GetMsgId(h)
    {
      if layout.IsChan(h) { id := chans[h - layout.chanMin].msgId; } else { id := 0; }
    }

    /** sea_ht_get_msg_len */
    method GetMsgLen(h: int) returns (len: nat)
      requires Valid()
      ensures len == View().GetMsgLen(h)
    {
      if layout.IsChan(h) { len := chans[h - layout.chanMin].msgLen; } else { len := 0; }
    }

    /** sea_ht_set_msg_id */
    method SetMsgId(h: int, id: nat)
      requires Valid()
      modifies chans
      ensures Valid()
      ensures View() == Next(old(View()), FlatSpec.SetMsgId(h, id))
    {
      if layout.IsChan(h) {
        chans[h - layout.chanMin] := chans[h - layout.chanMin].(msgId := id);
      }
    }

    /** sea_ht_set_msg_len */
    method SetMsgLen(h: int, len: nat)
      requires Valid()
      modifies chans
      ensures Valid()
      ensures View() == Next(old(View()), FlatSpec.SetMsgLen(h, len))
    {
      if layout.IsChan(h) {
        chans[h - layout.chanMin] := chans[h - layout.chanMin].(msgLen := len);
      }
    }

    /** sea_ht_new_nd_msg, with the values the environment chose. */
    method NewMsg(h: int, id: nat, len: nat)
      requires Valid()
      modifies chans
      ensures Valid()
      ensures View() == Next(old(View()), FlatSpec.NewMsg(h, id, len))
    {
      if layout.IsChan(h) {
        chans[h - layout.chanMin] := chans[h - layout.chanMin].(msgId := id, msgLen := len);
      }
    }

    /** An active handle, or INVALID_IPC_HANDLE if there is none. */
    method AnyActive() returns (h: int)
      requires Valid()
      ensures if h == INVALID_IPC_HANDLE then forall g :: !View().IsActive(g) else View().IsActive(h)
    {
      h := 1;
      while h <= layout.portMax
        invariant 1 <= h <= layout.portMax + 1
        invariant forall g :: 1 <= g < h ==> !View().IsActivePort(g)
      {
        if ports[h - 1].active {
          return;
        }
        h := h + 1;
      }
      h := layout.chanMin;
      while h <= layout.chanMax
        invariant layout.chanMin <= h <= layout.chanMax + 1
        invariant forall g :: layout.chanMin <= g < h ==> !View().IsActiveChan(g)
      {
        if chans[h - layout.chanMin].active {
          return;
        }
        h := h + 1;
      }
      h := INVALID_IPC_HANDLE;
    }
  }
}
