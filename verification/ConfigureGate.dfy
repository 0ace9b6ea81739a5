/** The gate of keymaster_dispatch_non_secure: which commands are carried out, and
    what a CONFIGURE command changes for the ones after it. The operations
    themselves are abstract: an operation is executed and has an error result. */
module ConfigureGate {
  import opened Trusty

  const KM_ERROR_OK := 0

  /** The commands, as keymaster_ipc.h numbers them. */
  function Cmd(n: nat): nat { n * 4 }

  const KM_GET_VERSION := Cmd(7)
  const KM_CONFIGURE := Cmd(18)

  /** The ordinary commands that the switch has a case for. 24, which asks to
      destroy the attestation ids, is declared but has none. */
  predicate IsOrdinary(cmd: nat) {
    cmd % 4 == 0 && cmd / 4 <= 25 && cmd / 4 !in {7, 18, 24}
  }

  /** cmd_is_from_bootloader */
  predicate IsFromBootloader(cmd: nat) {
    cmd in {Cmd(0x1000), Cmd(0x2000), Cmd(0x3000), Cmd(0x4000), Cmd(0x5000), Cmd(0x6000), Cmd(0x7000), Cmd(0x8000),
            Cmd(0x9000)}
  }

  /** cmd_allowed_before_configure */
  predicate AllowedBeforeConfigure(cmd: nat) {
    cmd == KM_CONFIGURE || cmd == KM_GET_VERSION || IsFromBootloader(cmd)
  }

  /** The switch has a case for the command. */
  predicate IsKnown(cmd: nat) {
    cmd == KM_GET_VERSION || cmd == KM_CONFIGURE || IsOrdinary(cmd) || IsFromBootloader(cmd)
  }

  datatype Device = Device(configureCalled: bool, configureError: int)

  /** A request: its command, whether it can be deserialized, the error its
      operation would have, and whether the response can be serialized. */
  datatype Request = Request(cmd: nat, valid: bool, error: int, memory: bool)

  /** An operation that was carried out. */
  datatype Exec = Exec(cmd: nat, error: int)

  // ---- what the code does ----

  /** The checks before the switch. */
  function Gate(d: Device, cmd: nat): int {
    if cmd == KM_GET_VERSION then NO_ERROR
    else if !d.configureCalled then
      if !AllowedBeforeConfigure(cmd) then ERR_NOT_CONFIGURED else NO_ERROR
    else if d.configureError != KM_ERROR_OK then ERR_NOT_CONFIGURED
    else if IsFromBootloader(cmd) then ERR_NOT_IMPLEMENTED
    else NO_ERROR
  }

  predicate Executes(d: Device, r: Request) {
    Gate(d, r.cmd) == NO_ERROR && IsKnown(r.cmd) && r.valid
  }

  /** The device after the operation; a CONFIGURE records its error. */
  function After(d: Device, r: Request): Device {
    if Executes(d, r) && r.cmd == KM_CONFIGURE then Device(true, r.error) else d
  }

  function Rc(d: Device, r: Request): int {
    if Gate(d, r.cmd) != NO_ERROR then Gate(d, r.cmd)
    else if !IsKnown(r.cmd) then ERR_NOT_IMPLEMENTED
    else if !r.valid then ERR_NOT_VALID
    else if !r.memory then ERR_NO_MEMORY
    else NO_ERROR
  }

  function AfterAll(d: Device, rs: seq<Request>): Device {
    if rs == [] then d else After(AfterAll(d, rs[..|rs| - 1]), rs[|rs| - 1])
  }

  /** The operations carried out for a sequence of requests. */
  function Executed(d: Device, rs: seq<Request>): seq<Exec> {
    if rs == [] then []
    else
      var n := |rs| - 1;
      Executed(d, rs[..n]) +
      (if Executes(AfterAll(d, rs[..n]), rs[n]) then [Exec(rs[n].cmd, rs[n].error)] else [])
  }

  // ---- what may be executed ----

  predicate ConfiguredBefore(tr: seq<Exec>, i: nat)
    requires i <= |tr|
  {
    exists j :: 0 <= j < i && tr[j].cmd == KM_CONFIGURE
  }

  predicate FailedBefore(tr: seq<Exec>, i: nat)
    requires i <= |tr|
  {
    exists j :: 0 <= j < i && tr[j].cmd == KM_CONFIGURE && tr[j].error != KM_ERROR_OK
  }

  /** Bootloader operations come only before the first CONFIGURE, ordinary ones only
      after it, and after a CONFIGURE that failed there is nothing but GET_VERSION. */
  predicate LegalAt(tr: seq<Exec>, i: nat)
    requires i < |tr|
  {
    var cmd := tr[i].cmd;
    && IsKnown(cmd)
    && (IsFromBootloader(cmd) ==> !ConfiguredBefore(tr, i))
    && (IsOrdinary(cmd) ==> ConfiguredBefore(tr, i))
    && (cmd != KM_GET_VERSION ==> !FailedBefore(tr, i))
  }

  predicate Legal(tr: seq<Exec>) {
    forall i :: 0 <= i < |tr| ==> LegalAt(tr, i)
  }

  // ---- both directions ----

  lemma SamePrefix(tr: seq<Exec>, x: Exec, i: nat)
    requires i <= |tr|
    ensures ConfiguredBefore(tr + [x], i) <==> ConfiguredBefore(tr, i)
    ensures FailedBefore(tr + [x], i) <==> FailedBefore(tr, i)
  {
    assert forall j :: 0 <= j < i ==> (tr + [x])[j] == tr[j];
    if ConfiguredBefore(tr, i) {
      var j :| 0 <= j < i && tr[j].cmd == KM_CONFIGURE;
      assert (tr + [x])[j].cmd == KM_CONFIGURE;
    }
    if FailedBefore(tr, i) {
      var j :| 0 <= j < i && tr[j].cmd == KM_CONFIGURE && tr[j].error != KM_ERROR_OK;
      assert (tr + [x])[j].cmd == KM_CONFIGURE;
    }
  }

  lemma LegalAppend(tr: seq<Exec>, x: Exec)
    ensures Legal(tr + [x]) <==> Legal(tr) && LegalAt(tr + [x], |tr|)
  {
    forall i | 0 <= i < |tr|
      ensures LegalAt(tr + [x], i) <==> LegalAt(tr, i)
    {
      SamePrefix(tr, x, i);
    }
    assert Legal(tr + [x]) ==> forall i :: 0 <= i < |tr| ==> LegalAt(tr + [x], i);
    assert Legal(tr) ==> forall i :: 0 <= i < |tr| ==> LegalAt(tr, i);
  }

  lemma CountsAppend(tr: seq<Exec>, x: Exec)
    ensures ConfiguredBefore(tr + [x], |tr| + 1) <==> ConfiguredBefore(tr, |tr|) || x.cmd == KM_CONFIGURE
    ensures FailedBefore(tr + [x], |tr| + 1) <==>
      FailedBefore(tr, |tr|) || (x.cmd == KM_CONFIGURE && x.error != KM_ERROR_OK)
  {
    var u := tr + [x];
    SamePrefix(tr, x, |tr|);
    assert u[|tr|] == x;
    if ConfiguredBefore(u, |tr| + 1) && x.cmd != KM_CONFIGURE {
      var j :| 0 <= j < |tr| + 1 && u[j].cmd == KM_CONFIGURE;
      assert j < |tr|;
    }
    if FailedBefore(u, |tr| + 1) && !(x.cmd == KM_CONFIGURE && x.error != KM_ERROR_OK) {
      var j :| 0 <= j < |tr| + 1 && u[j].cmd == KM_CONFIGURE && u[j].error != KM_ERROR_OK;
      assert j < |tr|;
    }
  }

  /** The device knows of the past what the gate needs: whether CONFIGURE was
      executed, and, as nothing but GET_VERSION follows a failed one, whether one failed. */
  ghost predicate Remembers(d: Device, tr: seq<Exec>) {
    && d.configureCalled == ConfiguredBefore(tr, |tr|)
    && (d.configureCalled ==> (d.configureError != KM_ERROR_OK <==> FailedBefore(tr, |tr|)))
  }

  lemma GateIsLegality(d: Device, tr: seq<Exec>, x: Exec)
    requires Remembers(d, tr)
    ensures Gate(d, x.cmd) == NO_ERROR && IsKnown(x.cmd) <==> LegalAt(tr + [x], |tr|)
  {
    SamePrefix(tr, x, |tr|);
    assert (tr + [x])[|tr|] == x;
  }

  lemma RemembersNext(d: Device, tr: seq<Exec>, r: Request)
    requires Remembers(d, tr) && Executes(d, r)
    ensures Remembers(After(d, r), tr + [Exec(r.cmd, r.error)])
  {
    CountsAppend(tr, Exec(r.cmd, r.error));
  }

  /** Whatever is requested, in whatever order, what is carried out is legal. */
  lemma {:induction false} ExecutedIsLegal(d: Device, rs: seq<Request>)
    requires !d.configureCalled
    ensures Legal(Executed(d, rs)) && Remembers(AfterAll(d, rs), Executed(d, rs))
  {
    if rs == [] {
    } else {
      var n := |rs| - 1;
      ExecutedIsLegal(d, rs[..n]);
      var tr := Executed(d, rs[..n]);
      var e := AfterAll(d, rs[..n]);
      if Executes(e, rs[n]) {
        var x := Exec(rs[n].cmd, rs[n].error);
        GateIsLegality(e, tr, x);
        LegalAppend(tr, x);
        RemembersNext(e, tr, rs[n]);
      } else {
        assert Executed(d, rs) == tr;
      }
    }
  }

  function Requests(tr: seq<Exec>): seq<Request> {
    if tr == [] then []
    else Requests(tr[..|tr| - 1]) + [Request(tr[|tr| - 1].cmd, true, tr[|tr| - 1].error, true)]
  }

  /** And the gate refuses no more than it must: every legal sequence of operations
      is carried out when it is requested. */
  lemma {:induction false} LegalIsExecuted(d: Device, tr: seq<Exec>)
    requires !d.configureCalled && Legal(tr)
    ensures Executed(d, Requests(tr)) == tr
  {
    if tr == [] {
    } else {
      var n := |tr| - 1;
      var init := tr[..n];
      assert tr == init + [tr[n]];
      LegalAppend(init, tr[n]);
      LegalIsExecuted(d, init);
      var rs := Requests(tr);
      assert rs[..|rs| - 1] == Requests(init);
      ExecutedIsLegal(d, Requests(init));
      GateIsLegality(AfterAll(d, Requests(init)), init, tr[n]);
    }
  }

  /** A failed CONFIGURE is final: from then on only GET_VERSION is carried out,
      another CONFIGURE included. */
  lemma {:induction false} FailureIsAbsorbing(d: Device, rs: seq<Request>, k: nat)
    requires d.configureCalled && d.configureError != KM_ERROR_OK
    ensures AfterAll(d, rs) == d
    ensures k < |Executed(d, rs)| ==> Executed(d, rs)[k].cmd == KM_GET_VERSION
  {
    if rs == [] {
    } else {
      FailureIsAbsorbing(d, rs[..|rs| - 1], k);
    }
  }

  /** The code a client sees: ERR_NOT_CONFIGURED exactly when the gate finds the
      device not configured, and success exactly when the operation was carried out
      and its response could be serialized. */
  lemma CodesTellWhy(d: Device, r: Request)
    ensures Rc(d, r) == ERR_NOT_CONFIGURED <==>
      r.cmd != KM_GET_VERSION
      && (if d.configureCalled then d.configureError != KM_ERROR_OK else !AllowedBeforeConfigure(r.cmd))
    ensures Rc(d, r) == NO_ERROR <==> Executes(d, r) && r.memory
  {
  }

  /** In plain numbers: which command words are carried out, on a new device, after
      a CONFIGURE that succeeded, and after one that failed. 28 asks for the version,
      72 configures, and the multiples of 0x4000 up to the ninth come from the bootloader. */
  lemma CommandNumbers(d: Device, r: Request)
    requires r.valid
    ensures !d.configureCalled ==>
      (Executes(d, r) <==> r.cmd == 28 || r.cmd == 72 || (r.cmd % 0x4000 == 0 && 1 <= r.cmd / 0x4000 <= 9))
    ensures d.configureCalled && d.configureError == 0 ==>
      (Executes(d, r) <==> r.cmd % 4 == 0 && r.cmd / 4 <= 25 && r.cmd != 96)
    ensures d.configureCalled && d.configureError != 0 ==> (Executes(d, r) <==> r.cmd == 28)
  {
  }

  /** The code for a request, in plain numbers as well. Only an executed 72 changes
      the device, which then records the error. */
  lemma CodeNumbers(d: Device, r: Request)
    ensures var boot := r.cmd % 0x4000 == 0 && 1 <= r.cmd / 0x4000 <= 9;
      var ordinary := r.cmd % 4 == 0 && r.cmd / 4 <= 25 && r.cmd != 96;
      var refused := if !d.configureCalled then r.cmd != 28 && r.cmd != 72 && !boot
                     else d.configureError != 0 && r.cmd != 28;
      var unknown := !refused && if d.configureCalled then !ordinary else r.cmd != 28 && r.cmd != 72 && !boot;
      Rc(d, r) == if refused then ERR_NOT_CONFIGURED
                  else if unknown then ERR_NOT_IMPLEMENTED
                  else if !r.valid then ERR_NOT_VALID
                  else if !r.memory then ERR_NO_MEMORY
                  else NO_ERROR
    ensures After(d, r) == if Executes(d, r) && r.cmd == 72 then Device(true, r.error) else d
  {
    if r.valid {
      CommandNumbers(d, r);
    } else {
      CommandNumbers(d, r.(valid := true));
    }
  }

  // ---- the dispatcher ----

  /** The keymaster device as far as the dispatcher uses it, with the operations
      it carried out. */
  class TrustyKeymaster {
    var configureCalled: bool
    var configureError: int
    ghost var executed: seq<Exec>

    ghost function View(): Device
      reads this
    {
      Device(configureCalled, configureError)
    }

    constructor ()
      ensures !configureCalled && executed == []
    {
      configureCalled, configureError := false, KM_ERROR_OK;
      executed := [];
    }

    /** set_configure_error */
    method SetConfigureError(error: int)
      modifies this`configureCalled, this`configureError
      ensures View() == Device(true, error)
    {
      configureCalled, configureError := true, error;
    }

    /** do_dispatch, for a command of the switch. */
    method DoDispatch(r: Request) returns (rc: int)
      modifies this
      ensures executed == old(executed) + if r.valid then [Exec(r.cmd, r.error)] else []
      ensures View() == if r.valid && r.cmd == KM_CONFIGURE then Device(true, r.error) else old(View())
      ensures rc == if !r.valid then ERR_NOT_VALID else if !r.memory then ERR_NO_MEMORY else NO_ERROR
    {
      if !r.valid {
        return ERR_NOT_VALID;
      }
      executed := executed + [Exec(r.cmd, r.error)];
      if r.cmd == KM_CONFIGURE {
        SetConfigureError(r.error);
      }
      rc := if r.memory then NO_ERROR else ERR_NO_MEMORY;
    }

    /** keymaster_dispatch_non_secure */
    method DispatchNonSecure(r: Request) returns (rc: int)
      modifies this
      ensures rc == Rc(old(View()), r)
      ensures View() == After(old(View()), r)
      ensures executed == old(executed) + if Executes(old(View()), r) then [Exec(r.cmd, r.error)] else []
    {
      if r.cmd == KM_GET_VERSION {
      } else if !configureCalled {
        if !AllowedBeforeConfigure(r.cmd) {
          return ERR_NOT_CONFIGURED;
        }
      } else {
        if configureError != KM_ERROR_OK {
          return ERR_NOT_CONFIGURED;
        } else if IsFromBootloader(r.cmd) {
          return ERR_NOT_IMPLEMENTED;
        }
      }
      if IsKnown(r.cmd) {
        rc := DoDispatch(r);
      } else {
        rc := ERR_NOT_IMPLEMENTED;
      }
    }

    /** Any sequence of requests to a new device. */
    method DispatchAll(rs: seq<Request>)
      requires !configureCalled && executed == []
      modifies this
      ensures executed == Executed(old(View()), rs) && Legal(executed)
    {
      var i := 0;
      assert rs[..0] == [];
      while i < |rs|
        invariant 0 <= i <= |rs|
        invariant View() == AfterAll(old(View()), rs[..i])
        invariant executed == Executed(old(View()), rs[..i])
      {
        assert rs[..i + 1][..i] == rs[..i];
        var rc := DispatchNonSecure(rs[i]);
        i := i + 1;
      }
      assert rs[..i] == rs;
      ExecutedIsLegal(old(View()), rs);
    }
  }
}
