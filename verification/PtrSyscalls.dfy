/** The system calls over the pointer table, where they differ from those over the
    flat one: the result of port_create without a name, and the uuid of a peer. */
module PtrSyscalls {
  import opened Trusty
  import P = PtrSpec
  import Syscalls

  function NewPort<K>(flags: bv32, c: P.Choice): P.Op<K> {
    P.NewPort(Syscalls.SecureFlag(flags), c)
  }

  /** port_create; None is INVALID_IPC_HANDLE. */
  function PortCreateResult<K>(heap: seq<P.Obj<K>>, path: Option<string>, flags: bv32, c: P.Choice): Option<nat> {
    if path.None? then None else P.Result(heap, NewPort(flags, c))
  }

  function PortCreateNext<K>(heap: seq<P.Obj<K>>, noCookie: K, path: Option<string>, flags: bv32,
                             c: P.Choice): seq<P.Obj<K>>
  {
    if path.None? then heap else P.Next(heap, noCookie, NewPort(flags, c))
  }

  /** The result is a newly opened port exactly when a path was given and there was
      memory; otherwise it is the invalid handle, and nothing has changed. Unlike
      over the flat table no other code passes for a handle. */
  lemma PortCreateGivesPort<K>(heap: seq<P.Obj<K>>, noCookie: K, path: Option<string>, flags: bv32, c: P.Choice)
    ensures var r := PortCreateResult(heap, path, flags, c); var next := PortCreateNext(heap, noCookie, path, flags, c);
      && (r.Some? <==> path.Some? && c.mallocOk)
      && (r.Some? ==>
           |heap| <= r.value < |next| && next[r.value].active && next[r.value].isPort
           && (next[r.value].secure <==> Syscalls.SecureFlag(flags)) && next[..|heap|] == heap)
      && (r.None? ==> next == heap)
  {
  }

  /** accept on a port object looks at its `secure` field for the uuid of the peer. */
  predicate AcceptUuid<K>(port: P.Obj<K>, peer: Uuid, uuid: Uuid) {
    Syscalls.PeerUuid(port.secure, peer, uuid)
  }

  /** That field never changes. */
  lemma {:induction false} SecureStays<K>(heap: seq<P.Obj<K>>, noCookie: K, ops: seq<P.Op<K>>, o: nat)
    requires o < |heap|
    ensures o < |P.Run(heap, noCookie, ops)| && P.Run(heap, noCookie, ops)[o].secure == heap[o].secure
  {
    if ops == [] {
    } else {
      SecureStays(heap, noCookie, ops[..|ops| - 1], o);
    }
  }
}
