/** What holds in every reachable state of the keymaster's loop. */
module KeymasterProofs {
  import opened Trusty
  import opened KeymasterSpec
  import FlatSpec
  import FlatProofs
  import PtrSpec
  import PtrSyscalls
  import Syscalls

  /** Every open channel's cookie is a live context for that channel. */
  ghost predicate ChansOk<C>(chans: map<int, Cookie<C>>, ctxs: map<C, Context>) {
    forall h :: h in chans ==> chans[h].ChannelHandler? && chans[h].ctx in ctxs && ctxs[chans[h].ctx].chan == h
  }

  /** A context from the secure port belongs to the gatekeeper and uses the secure
      dispatcher; any other uses the other one. */
  ghost predicate Policy(k: Context) {
    if k.viaSecure then k.uuid == GATEKEEPER_UUID && k.dispatch == DispatchSecure
    else k.dispatch == DispatchNonSecure
  }

  ghost predicate Inv<C>(s: State<C>) {
    && (exists a, b :: a != b && a != INVALID_IPC_HANDLE && b != INVALID_IPC_HANDLE && s.ports == PortMap(a, b))
    && s.ports.Keys !! s.chans.Keys && INVALID_IPC_HANDLE !in s.chans
    && ChansOk(s.chans, s.ctxs)
    && (forall c :: c in s.ctxs ==> Policy(s.ctxs[c]))
    && s.created == s.deleted + |s.ctxs|
  }

  /** The cookies of the ports are the two handlers. */
  ghost predicate PortsOk<C>(ports: map<int, Cookie<C>>) {
    forall h :: h in ports ==> ports[h] == SecurePortHandler || ports[h] == NonSecurePortHandler
  }

  lemma InvPorts<C>(s: State<C>)
    requires Inv(s)
    ensures PortsOk(s.ports) && ChansOk(s.chans, s.ctxs)
  {
  }

  ghost function PortMap<C>(a: int, b: int): map<int, Cookie<C>> {
    map[a := SecurePortHandler, b := NonSecurePortHandler]
  }

  lemma InitInv<C>(secure: int, nonSecure: int)
    requires secure != nonSecure && secure != INVALID_IPC_HANDLE && nonSecure != INVALID_IPC_HANDLE
    ensures Inv(Init<C>(secure, nonSecure))
  {
    assert Init<C>(secure, nonSecure).ports == PortMap(secure, nonSecure);
  }

  /** A port must not report any of these. */
  predicate Complains(ev: Event) {
    ev.error || ev.hup || ev.msg || ev.sendUnblocked
  }

  /** keymaster_port_handler closes INVALID_IPC_HANDLE when accept failed with
      that value and the new context is refused or given up. */
  ghost predicate ClosesInvalid<C>(s: State<C>, i: Input<C>) {
    && i.h in s.ports && i.ev.ready && !Complains(i.ev)
    && i.accept.rc == INVALID_IPC_HANDLE
    && (CtxOpen(i.accept, s.ports[i.h] == SecurePortHandler).None? || i.accept.cookieRc < 0)
  }

  /** The end of a live context whose channel is open keeps the invariant. */
  lemma CtxCloseInv<C>(s: State<C>, c: C)
    requires Inv(s) && c in s.ctxs && s.ctxs[c].chan in s.chans && s.chans[s.ctxs[c].chan] == ChannelHandler(c)
    ensures CtxClose(s, c).Running? && Inv(CtxClose(s, c).state)
  {
  }

  /** A connection that is refused or given up leaves no trace but the counts. */
  lemma RefusedLeavesNothing<C>(s: State<C>, secure: bool, a: Accept<C>)
    requires a.rc !in s.ports && a.rc !in s.chans && a.rc > 0
    requires a.memory.Some? ==> a.memory.value !in s.ctxs
    requires CtxOpen(a, secure).None? || a.cookieRc < 0
    ensures var n := if CtxOpen(a, secure).None? then 0 else 1;
      Admit(Accepted(s, a), secure, a) == Running(s.(created := s.created + n, deleted := s.deleted + n))
  {
    var t := Admit(Accepted(s, a), secure, a).state;
    assert t.chans == s.chans;
    assert t.ctxs == s.ctxs;
  }

  lemma AdmittedInv<C>(s: State<C>, secure: bool, a: Accept<C>)
    requires Inv(s) && a.rc !in s.ports && a.rc !in s.chans && a.rc > 0
    requires a.memory.Some? && a.memory.value !in s.ctxs && Accessible(a.uuid, secure) && a.cookieRc >= 0
    ensures Admit(Accepted(s, a), secure, a).Running?
    ensures Inv(Admit(Accepted(s, a), secure, a).state)
  {
  }

  lemma AdmitInv<C>(s: State<C>, secure: bool, a: Accept<C>)
    requires Inv(s) && a.rc !in s.ports && a.rc !in s.chans && a.rc > 0
    requires a.memory.Some? ==> a.memory.value !in s.ctxs
    ensures Admit(Accepted(s, a), secure, a).Running?
    ensures Inv(Admit(Accepted(s, a), secure, a).state)
  {
    if CtxOpen(a, secure).None? || a.cookieRc < 0 {
      RefusedLeavesNothing(s, secure, a);
    } else {
      AdmittedInv(s, secure, a);
    }
  }

  /** With a failed accept that returned INVALID_IPC_HANDLE, a context may still be
      made: for no channel, and unknown to anybody. */
  lemma AdmitInvalid<C>(s: State<C>, secure: bool, a: Accept<C>)
    requires Inv(s) && a.rc == INVALID_IPC_HANDLE
    requires a.memory.Some? ==> a.memory.value !in s.ctxs
    ensures Admit(s, secure, a) == Fault(NoSuchHandle) <==> CtxOpen(a, secure).None? || a.cookieRc < 0
    ensures Admit(s, secure, a) != Fault(NoSuchHandle) ==>
      Admit(s, secure, a).Running? && Inv(Admit(s, secure, a).state)
  {
  }

  lemma PortHandlerInv<C>(s: State<C>, i: Input<C>, secure: bool)
    requires Inv(s) && Allowed(s, i)
    ensures var r := PortHandler(s, secure, i.ev, i.accept);
      var bad := i.ev.ready && !Complains(i.ev)
                 && i.accept.rc == INVALID_IPC_HANDLE && (CtxOpen(i.accept, secure).None? || i.accept.cookieRc < 0);
      (r.Fault? <==> bad) && (r.Aborted? <==> Complains(i.ev)) && (r.Running? ==> Inv(r.state))
  {
    var a := i.accept;
    if a.rc == INVALID_IPC_HANDLE {
      AdmitInvalid(s, secure, a);
    } else if a.rc > 0 {
      AdmitInv(s, secure, a);
    }
  }

  lemma ChanHandlerInv<C>(s: State<C>, c: C, h: int, ev: Event, msgRc: int)
    requires Inv(s) && h in s.chans && s.chans[h] == ChannelHandler(c)
    ensures ChanHandler(s, c, h, ev, msgRc).Running?
    ensures Inv(ChanHandler(s, c, h, ev, msgRc).state)
  {
  }

  /** Every step from a good state leads to a good state, unless it aborts; and it
      goes wrong exactly when accept failed with INVALID_IPC_HANDLE and no context
      was set up for it. It aborts exactly when a port reports anything but READY. */
  lemma StepInv<C>(s: State<C>, i: Input<C>)
    requires Inv(s) && Allowed(s, i)
    ensures Step(s, i).Fault? <==> ClosesInvalid(s, i)
    ensures Step(s, i).Aborted? <==> i.h in s.ports && Complains(i.ev)
    ensures Step(s, i).Running? ==> Inv(Step(s, i).state)
  {
    if i.h in s.ports {
      PortHandlerInv(s, i, s.ports[i.h] == SecurePortHandler);
    } else {
      ChanHandlerInv(s, s.chans[i.h].ctx, i.h, i.ev, i.msgRc);
    }
  }

  /** In every state that a run reaches the invariant holds, and no context is used
      or deleted that is not live. If accept reports failures below 0, as the code
      expects, no run closes a handle that is not open. */
  lemma {:induction false} RunInv<C>(s: State<C>, inputs: seq<Input<C>>)
    requires Inv(s) && AllowedRun(s, inputs)
    ensures Run(s, inputs) != Fault(StaleContext)
    ensures (forall i :: i in inputs ==> i.accept.rc != INVALID_IPC_HANDLE) ==> !Run(s, inputs).Fault?
    ensures Run(s, inputs).Running? ==> Inv(Run(s, inputs).state)
    decreases |inputs|
  {
    if inputs == [] {
    } else {
      StepInv(s, inputs[0]);
      StepNeverStale(s, inputs[0]);
      if Step(s, inputs[0]).Running? {
        RunInv(Step(s, inputs[0]).state, inputs[1..]);
      }
    }
  }

  /** The first k rounds end in a state in which the next one closes a handle that
      is not open. */
  ghost predicate ClosesInvalidAt<C>(s: State<C>, inputs: seq<Input<C>>, k: nat)
    requires k < |inputs|
  {
    Run(s, inputs[..k]).Running? && ClosesInvalid(Run(s, inputs[..k]).state, inputs[k])
  }

  lemma RunRest<C>(s: State<C>, inputs: seq<Input<C>>, k: nat)
    requires 0 < k < |inputs| && Step(s, inputs[0]).Running?
    ensures Run(s, inputs[..k]) == Run(Step(s, inputs[0]).state, inputs[1..][..k - 1])
    ensures ClosesInvalidAt(s, inputs, k) <==> ClosesInvalidAt(Step(s, inputs[0]).state, inputs[1..], k - 1)
  {
    assert inputs[..k][0] == inputs[0] && inputs[..k][1..] == inputs[1..][..k - 1];
  }

  /** A run goes wrong exactly when one of its rounds, in the state it meets, is
      handed INVALID_IPC_HANDLE by accept and sets up no context for it. */
  lemma {:induction false} RunFaultsExactly<C>(s: State<C>, inputs: seq<Input<C>>)
    requires Inv(s) && AllowedRun(s, inputs)
    ensures Run(s, inputs).Fault? <==> exists k :: 0 <= k < |inputs| && ClosesInvalidAt(s, inputs, k)
    decreases |inputs|
  {
    if inputs == [] {
    } else {
      StepInv(s, inputs[0]);
      assert inputs[..0] == [] && (ClosesInvalidAt(s, inputs, 0) <==> Step(s, inputs[0]).Fault?);
      if Step(s, inputs[0]).Running? {
        var t, rest := Step(s, inputs[0]).state, inputs[1..];
        RunFaultsExactly(t, rest);
        forall k | 0 < k < |inputs|
          ensures ClosesInvalidAt(s, inputs, k) <==> ClosesInvalidAt(t, rest, k - 1)
        {
          RunRest(s, inputs, k);
        }
        if k :| 0 <= k < |rest| && ClosesInvalidAt(t, rest, k) {
          assert ClosesInvalidAt(s, inputs, k + 1);
        }
      } else {
        forall k | 0 < k < |inputs|
          ensures !ClosesInvalidAt(s, inputs, k)
        {
          assert inputs[..k][0] == inputs[0];
        }
      }
    }
  }

  lemma {:induction false} RunExtend<C>(s: State<C>, xs: seq<Input<C>>, t: State<C>, i: Input<C>)
    requires AllowedRun(s, xs) && Run(s, xs) == Running(t) && Allowed(t, i)
    ensures AllowedRun(s, xs + [i]) && Run(s, xs + [i]) == Step(t, i)
    decreases |xs|
  {
    if xs == [] {
      assert (xs + [i])[0] == i && (xs + [i])[1..] == [];
    } else {
      assert (xs + [i])[0] == xs[0] && (xs + [i])[1..] == xs[1..] + [i];
      RunExtend(Step(s, xs[0]).state, xs[1..], t, i);
    }
  }

  lemma StepNeverStale<C>(s: State<C>, i: Input<C>)
    requires Inv(s) && Allowed(s, i)
    ensures Step(s, i) != Fault(StaleContext)
  {
  }

  // ---- what an event does ----

  /** A channel's handle is closed exactly when the channel reports an error, the
      peer hung up, or a message could not be handled; its context is deleted with it
      in the last two cases only. All other channels stay as they are, and the ports
      stay open. */
  lemma ChannelEventOutcome<C>(s: State<C>, i: Input<C>)
    requires Inv(s) && i.h in s.chans
    ensures Step(s, i).Running?
    ensures var t := Step(s, i).state; var c := s.chans[i.h].ctx;
      var broken := i.ev.error || i.ev.ready;
      var over := (i.ev.msg && i.msgRc != NO_ERROR) || i.ev.hup;
      && t.ports == s.ports
      && t.chans == (if broken || over then s.chans - {i.h} else s.chans)
      && t.ctxs == (if !broken && over then s.ctxs - {c} else s.ctxs)
      && t.deleted == s.deleted + (if !broken && over then 1 else 0) && t.created == s.created
  {
  }

  /** An accepted connection gets a channel exactly when the peer may use the port,
      there is memory for its context and the cookie can be set; then its context
      records the peer, the channel and the dispatcher of the port. Otherwise its
      handle is closed again. Either way nothing else changes. */
  lemma ConnectionOutcome<C>(s: State<C>, secure: bool, a: Accept<C>)
    requires Inv(s) && a.rc !in s.ports && a.rc !in s.chans && a.rc > 0
    requires a.memory.Some? ==> a.memory.value !in s.ctxs
    ensures Admit(Accepted(s, a), secure, a).Running?
    ensures var t := Admit(Accepted(s, a), secure, a).state;
      var admitted := (secure ==> a.uuid == GATEKEEPER_UUID) && a.memory.Some? && a.cookieRc >= 0;
      && t.ports == s.ports
      && t.chans == (if admitted then s.chans[a.rc := ChannelHandler(a.memory.value)] else s.chans)
      && t.ctxs == (if admitted
                    then s.ctxs[a.memory.value :=
                      Context(a.rc, a.uuid, if secure then DispatchSecure else DispatchNonSecure, secure)]
                    else s.ctxs)
  {
    if CtxOpen(a, secure).None? || a.cookieRc < 0 {
      RefusedLeavesNothing(s, secure, a);
    }
  }

  lemma PortDispatches<C>(s: State<C>, i: Input<C>)
    requires Inv(s) && i.h in s.ports
    ensures Step(s, i) == PortHandler(s, s.ports[i.h] == SecurePortHandler, i.ev, i.accept)
  {
  }

  /** What an event on a port does. A port that reports an error aborts the
      program. Without READY, or if accept failed below 0, nothing changes. With a
      new handle, the peer has a channel afterwards exactly when it may use this port,
      there is memory for its context and the cookie can be set; the context records
      the peer, the channel and the dispatcher of the port. Otherwise the handle is
      closed again. With INVALID_IPC_HANDLE under the same condition a context is
      made that no channel leads to. Either way all else is as before. */
  lemma PortEventOutcome<C>(s: State<C>, i: Input<C>)
    requires Inv(s) && Allowed(s, i) && i.h in s.ports
    ensures var a := i.accept; var secure := s.ports[i.h] == SecurePortHandler; var o := Step(s, i);
      var attempt := i.ev.ready && !Complains(i.ev) && a.rc >= 0;
      var admitted := attempt && (secure ==> a.uuid == GATEKEEPER_UUID) && a.memory.Some? && a.cookieRc >= 0;
      && (o.Aborted? <==> Complains(i.ev))
      && (o.Fault? <==> attempt && a.rc == INVALID_IPC_HANDLE && !admitted)
      && (o.Running? ==>
           && o.state.ports == s.ports
           && o.state.chans ==
              (if admitted && a.rc > 0 then s.chans[a.rc := ChannelHandler(a.memory.value)] else s.chans)
           && o.state.ctxs == (if admitted
                               then s.ctxs[a.memory.value :=
                                 Context(a.rc, a.uuid, if secure then DispatchSecure else DispatchNonSecure, secure)]
                               else s.ctxs))
  {
    var secure := s.ports[i.h] == SecurePortHandler;
    PortDispatches(s, i);
    if i.ev.ready && !Complains(i.ev) {
      if i.accept.rc > 0 {
        ConnectionOutcome(s, secure, i.accept);
      } else if i.accept.rc == INVALID_IPC_HANDLE {
        AdmitInvalid(s, secure, i.accept);
        if CtxOpen(i.accept, secure).Some? && i.accept.cookieRc >= 0 {
          InvalidAdmitted(s, secure, i.accept);
        }
      }
    }
  }

  lemma InvalidAdmitted<C>(s: State<C>, secure: bool, a: Accept<C>)
    requires Inv(s) && a.rc == INVALID_IPC_HANDLE && CtxOpen(a, secure).Some? && a.cookieRc >= 0
    ensures Admit(s, secure, a) == Running(Opened(s, a.memory.value, a, secure))
  {
  }

  // ---- leaks ----

  /** The live contexts that no open channel leads to. Nothing will ever delete them. */
  ghost function Orphans<C>(s: State<C>): set<C> {
    set c | c in s.ctxs && !Reachable(s, c)
  }

  ghost predicate Reachable<C>(s: State<C>, c: C)
    requires c in s.ctxs
  {
    s.ctxs[c].chan in s.chans && s.chans[s.ctxs[c].chan] == ChannelHandler(c)
  }

  lemma ReachableAsManyAsChannels<C>(s: State<C>)
    requires ChansOk(s.chans, s.ctxs)
    ensures |s.ctxs.Keys - Orphans(s)| == |s.chans|
  {
    var f := map c | c in s.ctxs && Reachable(s, c) :: s.ctxs[c].chan;
    forall h | h in s.chans
      ensures h in f.Values
    {
      assert Reachable(s, s.chans[h].ctx) && f[s.chans[h].ctx] == h;
    }
    assert f.Values == s.chans.Keys;
    assert f.Keys == s.ctxs.Keys - Orphans(s);
    SameSize(f.Keys, s.chans.Keys, f);
  }

  /** Every context ever made is deleted, serves an open channel, or is lost. */
  lemma Accounting<C>(s: State<C>)
    requires Inv(s)
    ensures s.created == s.deleted + |s.chans| + |Orphans(s)|
  {
    ReachableAsManyAsChannels(s);
    assert s.ctxs.Keys == (s.ctxs.Keys - Orphans(s)) + Orphans(s);
  }

  /** A context is lost in this step: its channel reports ERROR or READY, or it was
      made for a connection that accept refused with INVALID_IPC_HANDLE. */
  ghost predicate Leaks<C>(s: State<C>, i: Input<C>) {
    if i.h in s.ports then
      i.ev.ready && !Complains(i.ev)
      && i.accept.rc == INVALID_IPC_HANDLE
      && CtxOpen(i.accept, s.ports[i.h] == SecurePortHandler).Some? && i.accept.cookieRc >= 0
    else i.ev.error || i.ev.ready
  }

  lemma ChannelLeaks<C>(s: State<C>, c: C, h: int, ev: Event, msgRc: int)
    requires Inv(s) && h in s.chans && s.chans[h] == ChannelHandler(c)
    ensures ChanHandler(s, c, h, ev, msgRc).Running?
    ensures Orphans(ChanHandler(s, c, h, ev, msgRc).state) == Orphans(s) + if ev.error || ev.ready then {c} else {}
  {
  }

  lemma AdmittedLeaksNot<C>(s: State<C>, secure: bool, a: Accept<C>)
    requires a.rc !in s.ports && a.rc !in s.chans && a.rc > 0
    requires a.memory.Some? && a.memory.value !in s.ctxs && Accessible(a.uuid, secure) && a.cookieRc >= 0
    ensures Admit(Accepted(s, a), secure, a).Running?
    ensures Orphans(Admit(Accepted(s, a), secure, a).state) == Orphans(s)
  {
  }

  lemma InvalidLeaks<C>(s: State<C>, secure: bool, a: Accept<C>)
    requires Inv(s) && a.rc == INVALID_IPC_HANDLE
    requires a.memory.Some? && a.memory.value !in s.ctxs && Accessible(a.uuid, secure) && a.cookieRc >= 0
    ensures Admit(s, secure, a).Running?
    ensures Orphans(Admit(s, secure, a).state) == Orphans(s) + {a.memory.value}
  {
  }

  lemma PortLeaks<C>(s: State<C>, secure: bool, a: Accept<C>)
    requires Inv(s) && a.rc !in s.ports && a.rc !in s.chans && a.rc >= 0
    requires a.memory.Some? ==> a.memory.value !in s.ctxs
    requires Admit(Accepted(s, a), secure, a).Running?
    ensures Orphans(Admit(Accepted(s, a), secure, a).state) == Orphans(s) +
      if a.rc == INVALID_IPC_HANDLE && CtxOpen(a, secure).Some? && a.cookieRc >= 0 then {CtxOpen(a, secure).value}
      else {}
  {
    if a.rc == INVALID_IPC_HANDLE {
      AdmitInvalid(s, secure, a);
      InvalidLeaks(s, secure, a);
    } else if CtxOpen(a, secure).None? || a.cookieRc < 0 {
      RefusedLeavesNothing(s, secure, a);
      SameContexts(s, Admit(Accepted(s, a), secure, a).state);
    } else {
      AdmittedLeaksNot(s, secure, a);
    }
  }

  lemma SameContexts<C>(s: State<C>, t: State<C>)
    requires t.chans == s.chans && t.ctxs == s.ctxs
    ensures Orphans(t) == Orphans(s)
  {
  }

  lemma PortStepLeaks<C>(s: State<C>, i: Input<C>)
    requires Inv(s) && Allowed(s, i) && Step(s, i).Running? && i.h in s.ports
    ensures |Orphans(Step(s, i).state)| == |Orphans(s)| + if Leaks(s, i) then 1 else 0
  {
    if i.ev.ready && i.accept.rc >= 0 {
      PortLeaks(s, s.ports[i.h] == SecurePortHandler, i.accept);
    } else {
      assert Step(s, i) == Running(s);
    }
  }

  /** A step loses one context when it leaks and none otherwise. So in a run without
      ERROR or READY on a channel, and without INVALID_IPC_HANDLE from accept, every
      context is deleted with its channel. */
  lemma LeaksExactly<C>(s: State<C>, i: Input<C>)
    requires Inv(s) && Allowed(s, i) && Step(s, i).Running?
    ensures |Orphans(Step(s, i).state)| == |Orphans(s)| + if Leaks(s, i) then 1 else 0
  {
    if i.h in s.ports {
      PortStepLeaks(s, i);
    } else {
      assert Reachable(s, s.chans[i.h].ctx);
      ChannelLeaks(s, s.chans[i.h].ctx, i.h, i.ev, i.msgRc);
    }
  }

  /** The rounds of a run in which a context is lost. */
  ghost function LeakingRounds<C>(s: State<C>, inputs: seq<Input<C>>): nat
    requires Run(s, inputs).Running?
    decreases |inputs|
  {
    if inputs == [] then 0
    else (if Leaks(s, inputs[0]) then 1 else 0) + LeakingRounds(Step(s, inputs[0]).state, inputs[1..])
  }

  lemma {:induction false} RunLeaks<C>(s: State<C>, inputs: seq<Input<C>>)
    requires Inv(s) && AllowedRun(s, inputs) && Run(s, inputs).Running?
    ensures |Orphans(Run(s, inputs).state)| == |Orphans(s)| + LeakingRounds(s, inputs)
    decreases |inputs|
  {
    if inputs == [] {
    } else {
      StepInv(s, inputs[0]);
      LeaksExactly(s, inputs[0]);
      RunLeaks(Step(s, inputs[0]).state, inputs[1..]);
    }
  }

  /** Over a whole run: the contexts made are those deleted, those that serve an
      open channel, and one for each leaking round. */
  lemma RunAccounting<C>(secure: int, nonSecure: int, inputs: seq<Input<C>>)
    requires secure != nonSecure && secure != INVALID_IPC_HANDLE && nonSecure != INVALID_IPC_HANDLE
    requires AllowedRun(Init<C>(secure, nonSecure), inputs) && Run(Init<C>(secure, nonSecure), inputs).Running?
    ensures var s := Init<C>(secure, nonSecure); var t := Run(s, inputs).state;
      t.created == t.deleted + |t.chans| + LeakingRounds(s, inputs)
  {
    var s := Init<C>(secure, nonSecure);
    InitInv<C>(secure, nonSecure);
    RunInv(s, inputs);
    RunLeaks(s, inputs);
    Accounting(Run(s, inputs).state);
    assert Orphans(s) == {};
  }

  // ---- the secure port ----

  /** keymaster_ipc_init creates its secure port for trusted applications, and the
      flat table gives such a port an even handle. So over that table no peer is ever
      admitted to the secure port. */
  lemma SecurePortAdmitsNobody<K>(t: FlatSpec.Table<K>, path: string, peer: Uuid, uuid: Uuid)
    requires t.Valid()
    ensures var h := Syscalls.PortCreateResult(t, Some(path), IPC_PORT_ALLOW_TA_CONNECT);
      h != INVALID_IPC_HANDLE && Syscalls.AcceptUuid(h, peer, uuid) ==> !Accessible(uuid, true)
  {
    FlatProofs.NewPortIsFirstFit(t, Syscalls.SecureFlag(IPC_PORT_ALLOW_TA_CONNECT), path);
  }

  /** Nor is one over the pointer table, where the port object is not marked as
      secure, whatever calls follow its creation. */
  lemma SecurePtrPortAdmitsNobody<K>(heap: seq<PtrSpec.Obj<K>>, noCookie: K, path: string, c: PtrSpec.Choice,
                                     ops: seq<PtrSpec.Op<K>>, peer: Uuid, uuid: Uuid)
    requires c.mallocOk
    ensures var o := PtrSyscalls.PortCreateResult(heap, Some(path), IPC_PORT_ALLOW_TA_CONNECT, c);
      var created := PtrSyscalls.PortCreateNext(heap, noCookie, Some(path), IPC_PORT_ALLOW_TA_CONNECT, c);
      var later := PtrSpec.Run(created, noCookie, ops);
      o.Some? && o.value < |later|
      && (PtrSyscalls.AcceptUuid(later[o.value], peer, uuid) ==> !Accessible(uuid, true))
  {
    PtrSyscalls.PortCreateGivesPort(heap, noCookie, Some(path), IPC_PORT_ALLOW_TA_CONNECT, c);
    var created := PtrSyscalls.PortCreateNext(heap, noCookie, Some(path), IPC_PORT_ALLOW_TA_CONNECT, c);
    PtrSyscalls.SecureStays(created, noCookie, ops, |heap|);
  }
}
