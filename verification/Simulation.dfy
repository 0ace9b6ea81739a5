/** The pointer table simulates the flat table: any sequence of calls on the flat
    table is matched, call by call, by calls on heap objects, so that active slots
    and active objects correspond one to one and agree on everything a client may
    rely on. */
module Simulation {
  import opened Trusty
  import F = FlatSpec
  import FlatProofs
  import P = PtrSpec

  /** Both tables side by side. `at` tells which object stands for which active
      handle and `owner` is its inverse; the three sets hold the active handles whose
      cookie, message id and message length were written since the handle was
      allocated. (The flat table does not clear these fields on allocation, the
      pointer table does.) */
  datatype Pair<K> = Pair(flat: F.Table<K>, heap: seq<P.Obj<K>>, noCookie: K,
                          at: map<int, nat>, owner: map<nat, int>,
                          cookies: set<int>, ids: set<int>, lens: set<int>)

  /** Active slots and active objects correspond one to one. */
  ghost predicate Bijection<K>(flat: F.Table<K>, heap: seq<P.Obj<K>>, at: map<int, nat>, owner: map<nat, int>) {
    && (forall h :: h in at <==> flat.IsActive(h))
    && (forall h :: h in at ==> at[h] < |heap| && heap[at[h]].active && at[h] in owner && owner[at[h]] == h)
    && (forall o :: 0 <= o < |heap| && heap[o].active ==> o in owner && owner[o] in at && at[owner[o]] == o)
  }

  /** What a client can see of a handle. */
  datatype Facts<K> = Facts(isPort: bool, secure: bool, cookie: K, msgId: nat, msgLen: nat)

  function FlatFacts<K>(t: F.Table<K>, h: int, noCookie: K): Facts<K> {
    Facts(t.IsPort(h), F.IsSecure(h), t.GetCookie(h, noCookie), t.GetMsgId(h), t.GetMsgLen(h))
  }

  /** The object shows what the slot shows: the kind, the security of a port, and
      whatever was written. */
  ghost predicate Agrees<K>(f: Facts<K>, x: P.Obj<K>, cookie: bool, id: bool, len: bool) {
    && x.isPort == f.isPort
    && (f.isPort ==> x.secure == f.secure)
    && (cookie ==> x.cookie == f.cookie)
    && (id ==> x.msgId == f.msgId)
    && (len ==> x.msgLen == f.msgLen)
  }

  ghost predicate AgreesAt<K>(s: Pair<K>, h: int) {
    h in s.at && s.at[h] < |s.heap|
    && Agrees(FlatFacts(s.flat, h, s.noCookie), s.heap[s.at[h]], h in s.cookies, h in s.ids, h in s.lens)
  }

  ghost predicate Related<K>(s: Pair<K>) {
    && s.flat.Valid()
    && Bijection(s.flat, s.heap, s.at, s.owner)
    && (forall h :: h in s.at ==> AgreesAt(s, h))
    && s.cookies <= s.at.Keys && s.ids <= s.at.Keys && s.lens <= s.at.Keys
  }

  /** What malloc and the environment choose, except that malloc fails exactly when
      the flat table is full. */
  datatype Garbage = Garbage(secure: bool, msgId: nat, msgLen: nat)

  /** The call on the pointer table that matches a call on the flat one. A call on a
      handle that is not active has no object to act on and is matched by none; so
      is a message call on a port, which the flat table ignores. */
  function Match<K>(s: Pair<K>, op: F.Op<K>, g: Garbage): seq<P.Op<K>>
    requires s.flat.Valid()
  {
    var c := P.Choice(F.Result(s.flat, op) != INVALID_IPC_HANDLE, g.secure, g.msgId, g.msgLen);
    match op
    case NewPort(secure, _) => [P.NewPort(secure, c)]
    case NewChannel => [P.NewChannel(c)]
    case Free(h) => if h in s.at then [P.Free(s.at[h])] else []
    case SetCookie(h, k) => if h in s.at then [P.SetCookie(s.at[h], k)] else []
    case SetMsgId(h, id) => if h in s.at && !s.flat.IsPort(h) then [P.SetMsgId(s.at[h], id)] else []
    case SetMsgLen(h, len) => if h in s.at && !s.flat.IsPort(h) then [P.SetMsgLen(s.at[h], len)] else []
    case NewMsg(h, id, len) => if h in s.at && !s.flat.IsPort(h) then [P.NewMsg(s.at[h], id, len)] else []
  }

  /** Both tables after a call and its match. */
  function Step<K>(s: Pair<K>, op: F.Op<K>, g: Garbage): Pair<K>
    requires s.flat.Valid()
  {
    var flat := F.Next(s.flat, op);
    var heap := P.Run(s.heap, s.noCookie, Match(s, op, g));
    var chan := op.SetMsgId? || op.SetMsgLen? || op.NewMsg?;
    if op.NewPort? || op.NewChannel? then
      var h := F.Result(s.flat, op);
      if h == INVALID_IPC_HANDLE then s.(flat := flat, heap := heap)
      else s.(flat := flat, heap := heap, at := s.at[h := |s.heap|], owner := s.owner[|s.heap| := h])
    else if op.Free? then
      s.(flat := flat, heap := heap, at := s.at - {op.h},
         owner := if op.h in s.at then s.owner - {s.at[op.h]} else s.owner,
         cookies := s.cookies - {op.h}, ids := s.ids - {op.h}, lens := s.lens - {op.h})
    else if op.h !in s.at || (chan && s.flat.IsPort(op.h)) then s.(flat := flat, heap := heap)
    else
      s.(flat := flat, heap := heap,
         cookies := if op.SetCookie? then s.cookies + {op.h} else s.cookies,
         ids := if op.SetMsgId? || op.NewMsg? then s.ids + {op.h} else s.ids,
         lens := if op.SetMsgLen? || op.NewMsg? then s.lens + {op.h} else s.lens)
  }

  lemma RunOne<K>(heap: seq<P.Obj<K>>, noCookie: K, op: P.Op<K>)
    ensures P.Run(heap, noCookie, [op]) == P.Next(heap, noCookie, op)
  {
  }

  /** A call leaves alone what the flat table shows of any other handle. */
  lemma FlatFrame<K>(t: F.Table<K>, noCookie: K, op: F.Op<K>, h: int)
    requires t.Valid()
    requires if op.NewPort? || op.NewChannel? then h != F.Result(t, op) || h == 0 else h != op.h
    ensures FlatFacts(F.Next(t, op), h, noCookie) == FlatFacts(t, h, noCookie)
  {
  }

  lemma GrownBijection<K>(flat: F.Table<K>, flat': F.Table<K>, heap: seq<P.Obj<K>>, x: P.Obj<K>,
                          at: map<int, nat>, owner: map<nat, int>, h: int)
    requires Bijection(flat, heap, at, owner) && x.active && h !in at
    requires forall k :: flat'.IsActive(k) <==> flat.IsActive(k) || k == h
    ensures Bijection(flat', heap + [x], at[h := |heap|], owner[|heap| := h])
  {
  }

  lemma AllocBijection<K>(s: Pair<K>, op: F.Op<K>, g: Garbage)
    requires Related(s) && (op.NewPort? || op.NewChannel?)
    ensures var u := Step(s, op, g); Bijection(u.flat, u.heap, u.at, u.owner)
  {
    var u := Step(s, op, g);
    var h := F.Result(s.flat, op);
    RunOne(s.heap, s.noCookie, Match(s, op, g)[0]);
    if op.NewPort? {
      FlatProofs.NewPortIsFirstFit(s.flat, op.secure, op.path);
    } else {
      FlatProofs.NewChannelIsFirstFit(s.flat);
    }
    if h != INVALID_IPC_HANDLE {
      GrownBijection(s.flat, u.flat, s.heap, u.heap[|s.heap|], s.at, s.owner, h);
    }
  }

  /** The allocated handle: its object has the same kind and security. */
  lemma AllocatedAgrees<K>(s: Pair<K>, op: F.Op<K>, g: Garbage)
    requires Related(s) && (op.NewPort? || op.NewChannel?) && F.Result(s.flat, op) != INVALID_IPC_HANDLE
    ensures AgreesAt(Step(s, op, g), F.Result(s.flat, op))
  {
    RunOne(s.heap, s.noCookie, Match(s, op, g)[0]);
    if op.NewPort? {
      FlatProofs.NewPortIsFirstFit(s.flat, op.secure, op.path);
    } else {
      FlatProofs.NewChannelIsFirstFit(s.flat);
    }
  }

  lemma AllocRelated<K>(s: Pair<K>, op: F.Op<K>, g: Garbage)
    requires Related(s) && (op.NewPort? || op.NewChannel?)
    ensures Related(Step(s, op, g))
  {
    var u := Step(s, op, g);
    var h := F.Result(s.flat, op);
    RunOne(s.heap, s.noCookie, Match(s, op, g)[0]);
    AllocBijection(s, op, g);
    FlatProofs.StepActive(s.flat, op, h);
    forall k | k in u.at
      ensures AgreesAt(u, k)
    {
      if k == h && h != INVALID_IPC_HANDLE {
        AllocatedAgrees(s, op, g);
      } else {
        assert AgreesAt(s, k);
        FlatFrame(s.flat, s.noCookie, op, k);
      }
    }
  }

  lemma FreeRelated<K>(s: Pair<K>, op: F.Op<K>, g: Garbage)
    requires Related(s) && op.Free?
    ensures Related(Step(s, op, g))
  {
    var u := Step(s, op, g);
    if op.h in s.at {
      RunOne(s.heap, s.noCookie, Match(s, op, g)[0]);
    }
    forall k
      ensures u.flat.IsActive(k) <==> s.flat.IsActive(k) && k != op.h
    {
      FlatProofs.StepActive(s.flat, op, k);
    }
    assert Bijection(u.flat, u.heap, u.at, u.owner);
    forall k | k in u.at
      ensures AgreesAt(u, k)
    {
      assert AgreesAt(s, k);
      FlatFrame(s.flat, s.noCookie, op, k);
    }
  }

  predicate IsUpdate<K>(op: F.Op<K>) { !op.NewPort? && !op.NewChannel? && !op.Free? }

  lemma UpdateBijection<K>(s: Pair<K>, op: F.Op<K>, g: Garbage)
    requires Related(s) && IsUpdate(op)
    ensures var u := Step(s, op, g); Bijection(u.flat, u.heap, u.at, u.owner)
  {
    var u := Step(s, op, g);
    if |Match(s, op, g)| == 1 {
      RunOne(s.heap, s.noCookie, Match(s, op, g)[0]);
    }
    forall k
      ensures u.flat.IsActive(k) <==> s.flat.IsActive(k)
    {
      FlatProofs.StepActive(s.flat, op, k);
    }
    assert |u.heap| == |s.heap| && forall o :: 0 <= o < |s.heap| ==> u.heap[o].active == s.heap[o].active;
  }

  /** The handle written to: the object gets the same new value. */
  lemma UpdatedAgrees<K>(s: Pair<K>, op: F.Op<K>, g: Garbage)
    requires Related(s) && IsUpdate(op) && op.h in s.at
    ensures AgreesAt(Step(s, op, g), op.h)
  {
    assert AgreesAt(s, op.h);
    if |Match(s, op, g)| == 1 {
      RunOne(s.heap, s.noCookie, Match(s, op, g)[0]);
    }
  }

  lemma OthersAgree<K>(s: Pair<K>, op: F.Op<K>, g: Garbage, k: int)
    requires Related(s) && IsUpdate(op) && k in s.at && k != op.h
    ensures AgreesAt(Step(s, op, g), k)
  {
    if |Match(s, op, g)| == 1 {
      RunOne(s.heap, s.noCookie, Match(s, op, g)[0]);
    }
    assert AgreesAt(s, k);
    FlatFrame(s.flat, s.noCookie, op, k);
    assert op.h in s.at ==> s.at[k] != s.at[op.h];
  }

  lemma UpdateRelated<K>(s: Pair<K>, op: F.Op<K>, g: Garbage)
    requires Related(s) && IsUpdate(op)
    ensures Related(Step(s, op, g))
  {
    var u := Step(s, op, g);
    UpdateBijection(s, op, g);
    forall k | k in u.at
      ensures AgreesAt(u, k)
    {
      if k == op.h {
        UpdatedAgrees(s, op, g);
      } else {
        OthersAgree(s, op, g, k);
      }
    }
  }

  lemma StepRelated<K>(s: Pair<K>, op: F.Op<K>, g: Garbage)
    requires Related(s)
    ensures Related(Step(s, op, g))
  {
    if op.NewPort? || op.NewChannel? {
      AllocRelated(s, op, g);
    } else if op.Free? {
      FreeRelated(s, op, g);
    } else {
      UpdateRelated(s, op, g);
    }
  }

  // ---- runs ----

  function Start<K>(layout: F.Layout, noCookie: K): Pair<K>
    requires layout.Valid()
  {
    Pair(F.Empty(layout, noCookie), [], noCookie, map[], map[], {}, {}, {})
  }

  function RunPair<K>(s: Pair<K>, ops: seq<F.Op<K>>, gs: seq<Garbage>): (u: Pair<K>)
    requires s.flat.Valid() && |ops| == |gs|
    ensures u.flat.Valid()
  {
    if ops == [] then s
    else var n := |ops| - 1; Step(RunPair(s, ops[..n], gs[..n]), ops[n], gs[n])
  }

  /** The calls on the pointer table that match a whole sequence. */
  function Matched<K>(s: Pair<K>, ops: seq<F.Op<K>>, gs: seq<Garbage>): seq<P.Op<K>>
    requires s.flat.Valid() && |ops| == |gs|
  {
    if ops == [] then []
    else
      var n := |ops| - 1;
      Matched(s, ops[..n], gs[..n]) + Match(RunPair(s, ops[..n], gs[..n]), ops[n], gs[n])
  }

  lemma {:induction false} PtrRunAppend<K>(heap: seq<P.Obj<K>>, noCookie: K, xs: seq<P.Op<K>>, ys: seq<P.Op<K>>)
    ensures P.Run(heap, noCookie, xs + ys) == P.Run(P.Run(heap, noCookie, xs), noCookie, ys)
  {
    if ys == [] {
      assert xs + ys == xs;
    } else {
      var n := |ys| - 1;
      PtrRunAppend(heap, noCookie, xs, ys[..n]);
      assert (xs + ys)[..|xs| + n] == xs + ys[..n];
    }
  }

  lemma StartRelated<K>(layout: F.Layout, noCookie: K)
    requires layout.Valid()
    ensures Related(Start(layout, noCookie))
  {
  }

  lemma {:induction false} RunRelated<K>(s: Pair<K>, ops: seq<F.Op<K>>, gs: seq<Garbage>)
    requires Related(s) && |ops| == |gs|
    ensures Related(RunPair(s, ops, gs))
  {
    if ops == [] {
    } else {
      var n := |ops| - 1;
      RunRelated(s, ops[..n], gs[..n]);
      StepRelated(RunPair(s, ops[..n], gs[..n]), ops[n], gs[n]);
    }
  }

  /** Each side of the pair runs by its own rules. */
  lemma {:induction false} RunProjects<K>(s: Pair<K>, ops: seq<F.Op<K>>, gs: seq<Garbage>)
    requires s.flat.Valid() && |ops| == |gs|
    ensures RunPair(s, ops, gs).flat == F.Run(s.flat, ops)
    ensures RunPair(s, ops, gs).heap == P.Run(s.heap, s.noCookie, Matched(s, ops, gs))
    ensures RunPair(s, ops, gs).noCookie == s.noCookie
  {
    if ops == [] {
    } else {
      var n := |ops| - 1;
      RunProjects(s, ops[..n], gs[..n]);
      var v := RunPair(s, ops[..n], gs[..n]);
      PtrRunAppend(s.heap, s.noCookie, Matched(s, ops[..n], gs[..n]), Match(v, ops[n], gs[n]));
    }
  }

  /** Every sequence of calls on the flat table, from the empty table and whatever
      malloc leaves in memory, is matched by the calls `Matched` on the pointer
      table: both sides end as their own calls say, and related. */
  lemma PtrSimulatesFlat<K>(layout: F.Layout, noCookie: K, ops: seq<F.Op<K>>, gs: seq<Garbage>)
    requires layout.Valid() && |ops| == |gs|
    ensures var s := Start(layout, noCookie); var u := RunPair(s, ops, gs);
      && u.flat == F.Run(F.Empty(layout, noCookie), ops)
      && u.heap == P.Run([], noCookie, Matched(s, ops, gs))
      && Related(u)
  {
    StartRelated(layout, noCookie);
    RunRelated(Start(layout, noCookie), ops, gs);
    RunProjects(Start(layout, noCookie), ops, gs);
  }

  /** Allocations succeed together, and the object returned is from then on the one
      that stands for the handle returned. */
  lemma SameAllocations<K>(s: Pair<K>, op: F.Op<K>, g: Garbage)
    requires Related(s) && (op.NewPort? || op.NewChannel?)
    ensures var h := F.Result(s.flat, op); var o := P.Result(s.heap, Match(s, op, g)[0]);
      && (h == INVALID_IPC_HANDLE <==> o == None)
      && (h != INVALID_IPC_HANDLE ==>
           h !in s.at && h in Step(s, op, g).at && Step(s, op, g).at[h] == o.value)
  {
    FlatProofs.StepActive(s.flat, op, F.Result(s.flat, op));
    if op.NewPort? {
      FlatProofs.NewPortIsFirstFit(s.flat, op.secure, op.path);
    } else {
      FlatProofs.NewChannelIsFirstFit(s.flat);
    }
  }

  /** In related tables the queries about an active handle have the same answers;
      has_msg, cookie and message only once they were written. */
  lemma SameAnswers<K>(s: Pair<K>, h: int)
    requires Related(s) && s.flat.IsActive(h)
    ensures h in s.at && s.at[h] < |s.heap|
    ensures var x := s.heap[s.at[h]];
      && (s.flat.IsActivePort(h) <==> x.isPort && x.active)
      && (x.isPort ==> (F.IsSecure(h) <==> x.secure))
      && (h in s.cookies ==> s.flat.GetCookie(h, s.noCookie) == x.cookie)
      && (h in s.ids ==> s.flat.GetMsgId(h) == x.msgId && (s.flat.GetMsgId(h) > 0 <==> x.msgId > 0))
      && (h in s.lens ==> s.flat.GetMsgLen(h) == x.msgLen)
  {
  }

  /** The two tables do differ in what a fresh channel shows: the flat slot still
      has the message and the cookie of its former owner, the new object has the
      message malloc's caller gave it and no cookie. */
  lemma FreshChannelsDiffer<K>(s: Pair<K>, g: Garbage)
    requires Related(s) && F.Result(s.flat, F.NewChannel) != INVALID_IPC_HANDLE
    ensures var h := F.Result(s.flat, F.NewChannel); var u := Step(s, F.NewChannel, g);
      && h in u.at && u.at[h] < |u.heap|
      && u.flat.GetMsgId(h) == s.flat.GetMsgId(h) && u.heap[u.at[h]].msgId == g.msgId
      && u.flat.GetCookie(h, s.noCookie) == s.flat.GetCookie(h, s.noCookie) && u.heap[u.at[h]].cookie == s.noCookie
  {
    FlatProofs.NewChannelIsFirstFit(s.flat);
    RunOne(s.heap, s.noCookie, Match(s, F.NewChannel, g)[0]);
  }
}
