/** The pointer handle table: a handle is a pointer to a heap object. The first
    module says what the calls do on values (an object is named by its place in
    the order of allocation); the second has the objects themselves. */
module PtrSpec {
  import opened Trusty

  datatype Obj<K> = Obj(active: bool, secure: bool, isPort: bool, cookie: K, msgId: nat, msgLen: nat)

  /** What an allocation meets: whether malloc returns memory, what is in the
      `secure` field of a new channel (it is not set), and the message that every
      new object is given. */
  datatype Choice = Choice(mallocOk: bool, secure: bool, msgId: nat, msgLen: nat)

  datatype Op<K> =
    | NewPort(secure: bool, choice: Choice)
    | NewChannel(choice: Choice)
    | Free(o: nat)
    | SetCookie(o: nat, cookie: K)
    | SetMsgId(o: nat, id: nat)
    | SetMsgLen(o: nat, len: nat)
    | NewMsg(o: nat, id: nat, len: nat)

  /** The object an allocation returns. */
  function Result<K>(heap: seq<Obj<K>>, op: Op<K>): Option<nat> {
    match op
    case NewPort(_, c) => if c.mallocOk then Some(|heap|) else None
    case NewChannel(c) => if c.mallocOk then Some(|heap|) else None
    case _ => None
  }

  function Next<K>(heap: seq<Obj<K>>, noCookie: K, op: Op<K>): seq<Obj<K>> {
    match op
    case NewPort(secure, c) =>
      if c.mallocOk then heap + [Obj(true, secure, true, noCookie, c.msgId, c.msgLen)] else heap
    case NewChannel(c) =>
      if c.mallocOk then heap + [Obj(true, c.secure, false, noCookie, c.msgId, c.msgLen)] else heap
    case Free(o) => if o < |heap| then heap[o := heap[o].(active := false)] else heap
    case SetCookie(o, k) => if o < |heap| then heap[o := heap[o].(cookie := k)] else heap
    case SetMsgId(o, id) => if o < |heap| then heap[o := heap[o].(msgId := id)] else heap
    case SetMsgLen(o, len) => if o < |heap| then heap[o := heap[o].(msgLen := len)] else heap
    case NewMsg(o, id, len) => if o < |heap| then heap[o := heap[o].(msgId := id, msgLen := len)] else heap
  }

  function Run<K>(heap: seq<Obj<K>>, noCookie: K, ops: seq<Op<K>>): seq<Obj<K>> {
    if ops == [] then heap else Next(Run(heap, noCookie, ops[..|ops| - 1]), noCookie, ops[|ops| - 1])
  }
}

module PtrTable {
  import opened Trusty
  import PtrSpec

  class HandleState<K> {
    var active: bool
    var secure: bool
    const isPort: bool
    var cookie: K
    var msgId: nat
    var msgLen: nat

    ghost function View(): PtrSpec.Obj<K>
      reads this
    {
      PtrSpec.Obj(active, secure, isPort, cookie, msgId, msgLen)
    }

    constructor (secure: bool, isPort: bool, cookie: K, msgId: nat, msgLen: nat)
      ensures View() == PtrSpec.Obj(true, secure, isPort, cookie, msgId, msgLen)
    {
      this.active := true;
      this.secure := secure;
      this.isPort := isPort;
      this.cookie := cookie;
      this.msgId := msgId;
      this.msgLen := msgLen;
    }
  }

  class HandleHeap<K> {
    const noCookie: K
    /** Every object ever allocated; none is returned to malloc. */
    ghost var objs: seq<HandleState<K>>

    ghost predicate Valid()
      reads this
    {
      forall i, j :: 0 <= i < j < |objs| ==> objs[i] != objs[j]
    }

    ghost function View(): seq<PtrSpec.Obj<K>>
      reads this, objs
    {
      seq(|objs|, i requires 0 <= i < |objs| reads this, objs => objs[i].View())
    }

    constructor (noCookie: K)
      ensures Valid() && objs == [] && this.noCookie == noCookie
    {
      this.noCookie := noCookie;
      objs := [];
    }

    /** sea_ht_new_port: malloc may fail. */
    method NewPort(secure: bool) returns (h: HandleState?<K>, ghost choice: PtrSpec.Choice)
      requires Valid()
      modifies this
      ensures Valid()
      ensures View() == PtrSpec.Next(old(View()), noCookie, PtrSpec.NewPort(secure, choice))
      ensures choice.msgId > INVALID_IPC_MSG_ID
      ensures if h == null then !choice.mallocOk && objs == old(objs)
              else choice.mallocOk && fresh(h) && objs == old(objs) + [h]
    {
      var ok: bool := *;
      var msgId: nat, msgLen: nat :| msgId > INVALID_IPC_MSG_ID;
      choice := PtrSpec.Choice(ok, secure, msgId, msgLen);
      if ok {
        h := new HandleState(secure, true, noCookie, msgId, msgLen);
        objs := objs + [h];
        assert View()[|old(objs)|] == h.View();
      } else {
        h := null;
      }
    }

    /** sea_ht_new_channel: malloc may fail; `secure` is whatever malloc left there. */
    method NewChannel() returns (h: HandleState?<K>, ghost choice: PtrSpec.Choice)
      requires Valid()
      modifies this
      ensures Valid()
      ensures View() == PtrSpec.Next(old(View()), noCookie, PtrSpec.NewChannel(choice))
      ensures choice.msgId > INVALID_IPC_MSG_ID
      ensures if h == null then !choice.mallocOk && objs == old(objs)
              else choice.mallocOk && fresh(h) && objs == old(objs) + [h]
    {
      var ok: bool, secure: bool := *, *;
      var msgId: nat, msgLen: nat :| msgId > INVALID_IPC_MSG_ID;
      choice := PtrSpec.Choice(ok, secure, msgId, msgLen);
      if ok {
        h := new HandleState(secure, false, noCookie, msgId, msgLen);
        objs := objs + [h];
        assert View()[|old(objs)|] == h.View();
      } else {
        h := null;
      }
    }

    /** sea_ht_free: the object stays, inactive. */
    method Free(h: HandleState<K>, ghost o: nat)
      requires Valid() && o < |objs| && objs[o] == h
      modifies h
      ensures View() == PtrSpec.Next(old(View()), noCookie, PtrSpec.Free(o))
    {
      h.active := false;
    }

    /** sea_ht_set_cookie */
    method SetCookie(h: HandleState<K>, cookie: K, ghost o: nat)
      requires Valid() && o < |objs| && objs[o] == h
      modifies h
      ensures View() == PtrSpec.Next(old(View()), noCookie, PtrSpec.SetCookie(o, cookie))
    {
      h.cookie := cookie;
    }

    /** sea_ht_set_msg_id */
    method SetMsgId(h: HandleState<K>, id: nat, ghost o: nat)
      requires Valid() && o < |objs| && objs[o] == h
      modifies h
      ensures View() == PtrSpec.Next(old(View()), noCookie, PtrSpec.SetMsgId(o, id))
    {
      h.msgId := id;
    }

    /** sea_ht_set_msg_len */
    method SetMsgLen(h: HandleState<K>, len: nat, ghost o: nat)
      requires Valid() && o < |objs| && objs[o] == h
      modifies h
      ensures View() == PtrSpec.Next(old(View()), noCookie, PtrSpec.SetMsgLen(o, len))
    {
      h.msgLen := len;
    }

    /** sea_ht_new_nd_msg */
    method NewMsg(h: HandleState<K>, id: nat, len: nat, ghost o: nat)
      requires Valid() && o < |objs| && objs[o] == h
      modifies h
      ensures View() == PtrSpec.Next(old(View()), noCookie, PtrSpec.NewMsg(o, id, len))
    {
      h.msgLen := len;
      h.msgId := id;
    }
  }
}
