/** Logs of kernel calls on a channel, and the exchange that hands over one
    message: send_msg, and wait_to_send after it when there is no room. Both
    applications have the same wait_to_send. M is the type of messages. */
module CallLog {
  import opened Trusty

  /** One call with its answer. For `get_msg`, id and len are what it reports. */
  datatype Call<M> =
    | SendMsg(msg: M, rc: int)
    | Wait(rc: int, ev: Event)
    | GetMsg(rc: int, id: nat, len: nat)
    | ReadMsg(id: nat, lens: seq<nat>, rc: int)
    | PutMsg(id: nat, rc: int)

  /** The messages that the kernel took. */
  function Sent<M>(log: seq<Call<M>>): seq<M> {
    if log == [] then []
    else (if log[0].SendMsg? && log[0].rc >= 0 then [log[0].msg] else []) + Sent(log[1..])
  }

  /** The ids of the messages that get_msg announced, and of those that were retired. */
  function Announced<M>(log: seq<Call<M>>): seq<nat> {
    if log == [] then []
    else (if log[0].GetMsg? && log[0].rc == NO_ERROR then [log[0].id] else []) + Announced(log[1..])
  }

  function Retired<M>(log: seq<Call<M>>): seq<nat> {
    if log == [] then []
    else (if log[0].PutMsg? then [log[0].id] else []) + Retired(log[1..])
  }

  lemma Associative<T>(xs: seq<T>, ys: seq<T>, zs: seq<T>)
    ensures (xs + ys) + zs == xs + (ys + zs)
  {
  }

  /** Several logs, one after the other. */
  function Concat<T>(xss: seq<seq<T>>): seq<T> {
    if xss == [] then [] else Concat(xss[..|xss| - 1]) + xss[|xss| - 1]
  }

  lemma ConcatLast<T>(xss: seq<seq<T>>, xs: seq<T>)
    ensures Concat(xss + [xs]) == Concat(xss) + xs
  {
    assert (xss + [xs])[..|xss|] == xss;
  }

  /** One call at a time. */
  lemma LogStep<M>(log: seq<Call<M>>)
    requires log != []
    ensures Sent(log) == (if log[0].SendMsg? && log[0].rc >= 0 then [log[0].msg] else []) + Sent(log[1..])
    ensures Announced(log) ==
      (if log[0].GetMsg? && log[0].rc == NO_ERROR then [log[0].id] else []) + Announced(log[1..])
    ensures Retired(log) == (if log[0].PutMsg? then [log[0].id] else []) + Retired(log[1..])
  {
  }

  lemma {:induction false} SentAppend<M>(xs: seq<Call<M>>, ys: seq<Call<M>>)
    ensures Sent(xs + ys) == Sent(xs) + Sent(ys)
  {
    if xs == [] {
      assert xs + ys == ys;
    } else {
      var first := if xs[0].SendMsg? && xs[0].rc >= 0 then [xs[0].msg] else [];
      assert (xs + ys)[1..] == xs[1..] + ys;
      SentAppend(xs[1..], ys);
      Associative(first, Sent(xs[1..]), Sent(ys));
    }
  }

  lemma {:induction false} AnnouncedAppend<M>(xs: seq<Call<M>>, ys: seq<Call<M>>)
    ensures Announced(xs + ys) == Announced(xs) + Announced(ys)
  {
    if xs == [] {
      assert xs + ys == ys;
    } else {
      var first := if xs[0].GetMsg? && xs[0].rc == NO_ERROR then [xs[0].id] else [];
      assert (xs + ys)[1..] == xs[1..] + ys;
      AnnouncedAppend(xs[1..], ys);
      Associative(first, Announced(xs[1..]), Announced(ys));
    }
  }

  lemma {:induction false} RetiredAppend<M>(xs: seq<Call<M>>, ys: seq<Call<M>>)
    ensures Retired(xs + ys) == Retired(xs) + Retired(ys)
  {
    if xs == [] {
      assert xs + ys == ys;
    } else {
      var first := if xs[0].PutMsg? then [xs[0].id] else [];
      assert (xs + ys)[1..] == xs[1..] + ys;
      RetiredAppend(xs[1..], ys);
      Associative(first, Retired(xs[1..]), Retired(ys));
    }
  }

  lemma LogAppend<M>(xs: seq<Call<M>>, ys: seq<Call<M>>)
    ensures Announced(xs + ys) == Announced(xs) + Announced(ys)
    ensures Retired(xs + ys) == Retired(xs) + Retired(ys)
  {
    AnnouncedAppend(xs, ys);
    RetiredAppend(xs, ys);
  }

  lemma {:induction false} NothingSent<M>(log: seq<Call<M>>)
    requires forall k :: 0 <= k < |log| ==> !log[k].SendMsg?
    ensures Sent(log) == []
  {
    if log == [] {
    } else {
      NothingSent(log[1..]);
    }
  }

  lemma {:induction false} NothingTaken<M>(log: seq<Call<M>>)
    requires forall k :: 0 <= k < |log| ==> !log[k].GetMsg? && !log[k].PutMsg?
    ensures Announced(log) == [] && Retired(log) == []
  {
    if log == [] {
    } else {
      NothingTaken(log[1..]);
    }
  }

  /** `wait` succeeded and reported none of the three events that wait_to_send looks for. */
  predicate IsSilent<M>(c: Call<M>) {
    c.Wait? && c.rc >= NO_ERROR && !c.ev.sendUnblocked && !c.ev.msg && !c.ev.hup
  }

  /** A call of the log is a silent wait. */
  predicate AnySilent<M>(log: seq<Call<M>>) {
    log != [] && (IsSilent(log[0]) || AnySilent(log[1..]))
  }

  lemma {:induction false} SilentAppend<M>(xs: seq<Call<M>>, ys: seq<Call<M>>)
    ensures AnySilent(xs + ys) <==> AnySilent(xs) || AnySilent(ys)
  {
    if xs == [] {
      assert xs + ys == ys;
    } else {
      assert (xs + ys)[1..] == xs[1..] + ys;
      SilentAppend(xs[1..], ys);
    }
  }

  // ---- one exchange ----

  /** How wait_to_send goes on from the answer of its wait, when log begins with that
      call: the number of calls it makes in all and its result; None if log is not
      what it does for m. */
  function Retry<M(==)>(m: M, log: seq<Call<M>>): Option<(nat, int)> {
    if log == [] || !log[0].Wait? then None
    else if log[0].rc < 0 then Some((1, log[0].rc))
    else if log[0].ev.sendUnblocked then
      if |log| > 1 && log[1].SendMsg? && log[1].msg == m then Some((2, log[1].rc)) else None
    else if log[0].ev.msg then Some((1, ERR_BUSY))
    else if log[0].ev.hup then Some((1, ERR_CHANNEL_CLOSED))
    else Some((1, log[0].rc))
  }

  /** The same for a send_msg of m that is followed by wait_to_send exactly when it
      returns ERR_NOT_ENOUGH_BUFFER. */
  function Exchange<M(==)>(m: M, log: seq<Call<M>>): Option<(nat, int)> {
    if log == [] || !log[0].SendMsg? || log[0].msg != m then None
    else if log[0].rc != ERR_NOT_ENOUGH_BUFFER then Some((1, log[0].rc))
    else
      match Retry(m, log[1..])
      case None => None
      case Some((n, rc)) => Some((n + 1, rc))
  }

  /** What comes after an exchange does not matter to it. */
  lemma ExchangePrefix<M>(m: M, log: seq<Call<M>>, rest: seq<Call<M>>)
    requires Exchange(m, log).Some?
    ensures Exchange(m, log).value.0 <= |log|
    ensures Exchange(m, log + rest) == Exchange(m, log)
  {
    assert |log| > 1 ==> (log + rest)[1..] == log[1..] + rest;
  }

  /** Nor is anything after its calls part of it. */
  lemma ExchangeCut<M>(m: M, log: seq<Call<M>>, n: nat)
    requires Exchange(m, log).Some? && n == Exchange(m, log).value.0 <= |log|
    ensures Exchange(m, log[..n]) == Exchange(m, log)
  {
    if n > 1 {
      var (k, rc) := Retry(m, log[1..]).value;
      assert log[..n][1..] == log[1..][..k];
      assert log[1..][..k][0] == log[1..][0];
    }
  }

  lemma RetrySends<M>(m: M, log: seq<Call<M>>)
    requires Retry(m, log).Some? && Retry(m, log).value.0 == |log|
    ensures Sent(log) == if Retry(m, log).value.1 >= 0 && !AnySilent(log) then [m] else []
    ensures AnySilent(log) ==> Retry(m, log).value.1 >= 0
  {
    LogStep(log);
    if |log| == 2 {
      LogStep(log[1..]);
      assert log[1..][1..] == [];
      assert AnySilent(log[1..]) <==> IsSilent(log[1]);
    } else {
      assert log[1..] == [] && (AnySilent(log) <==> IsSilent(log[0]));
    }
  }

  /** An exchange hands its message over exactly when its result is not negative and
      its wait, if there was one, was not silent; and then once. A silent wait
      passes for a success. */
  lemma ExchangeSends<M>(m: M, log: seq<Call<M>>)
    requires Exchange(m, log).Some? && Exchange(m, log).value.0 == |log|
    ensures Sent(log) == if Exchange(m, log).value.1 >= 0 && !AnySilent(log) then [m] else []
    ensures AnySilent(log) ==> Exchange(m, log).value.1 >= 0
  {
    LogStep(log);
    if log[0].rc != ERR_NOT_ENOUGH_BUFFER {
      assert log[1..] == [] && !AnySilent(log);
    } else {
      RetrySends(m, log[1..]);
    }
  }

  // ---- what every such log looks like ----

  /** The send at k follows a wait that reported SEND_UNBLOCKED. */
  predicate IsRetry<M>(log: seq<Call<M>>, k: nat)
    requires k < |log|
  {
    k > 0 && log[k - 1].Wait? && log[k - 1].rc >= 0 && log[k - 1].ev.sendUnblocked
  }

  /** A first send that found no room. */
  predicate NoRoom<M>(log: seq<Call<M>>, k: nat)
    requires k < |log|
  {
    log[k].SendMsg? && log[k].rc == ERR_NOT_ENOUGH_BUFFER && !IsRetry(log, k)
  }

  /** A first send without room is followed by a wait, and waits come from nowhere
      else. A wait that reports SEND_UNBLOCKED is followed by a send of the same
      message. */
  predicate RetriesAt<M(==)>(log: seq<Call<M>>, k: nat)
    requires k < |log|
  {
    && (NoRoom(log, k) ==> k + 1 < |log| && log[k + 1].Wait?)
    && (log[k].Wait? ==>
         && k > 0 && NoRoom(log, k - 1)
         && (log[k].rc >= 0 && log[k].ev.sendUnblocked ==>
              k + 1 < |log| && log[k + 1].SendMsg? && log[k + 1].msg == log[k - 1].msg))
  }

  /** The error that the call at k is to its caller; NO_ERROR if it is none. */
  function FailureAt<M>(log: seq<Call<M>>, k: nat): int
    requires k < |log|
  {
    match log[k]
    case SendMsg(_, rc) => if rc < 0 && !NoRoom(log, k) then rc else NO_ERROR
    case Wait(rc, ev) =>
      if rc < 0 then rc
      else if ev.sendUnblocked then NO_ERROR
      else if ev.msg then ERR_BUSY
      else if ev.hup then ERR_CHANNEL_CLOSED
      else NO_ERROR
    case _ => NO_ERROR
  }

  ghost predicate WellRetried<M>(log: seq<Call<M>>) {
    && (forall k :: 0 <= k < |log| ==> RetriesAt(log, k))
    && (forall k :: 0 <= k < |log| - 1 ==> FailureAt(log, k) == NO_ERROR)
  }

  lemma ExchangeRetries<M>(m: M, log: seq<Call<M>>)
    requires Exchange(m, log).Some? && Exchange(m, log).value.0 == |log|
    ensures WellRetried(log) && log[0].SendMsg? && log[0].msg == m
    ensures FailureAt(log, |log| - 1) == if Exchange(m, log).value.1 < 0 then Exchange(m, log).value.1 else NO_ERROR
  {
    if |log| > 1 {
      assert log[1..][0] == log[1];
      if |log| > 2 {
        assert log[1..][1] == log[2];
      }
    }
  }

  /** One exchange after others that did not fail. */
  lemma RetriesJoin<M>(xs: seq<Call<M>>, ys: seq<Call<M>>)
    requires xs != [] && ys != [] && WellRetried(xs) && WellRetried(ys)
    requires ys[0].SendMsg? && FailureAt(xs, |xs| - 1) == NO_ERROR
    ensures WellRetried(xs + ys)
    ensures FailureAt(xs + ys, |xs + ys| - 1) == FailureAt(ys, |ys| - 1)
  {
    var log := xs + ys;
    var last := |xs| - 1;
    assert RetriesAt(xs, last);
    forall k | 0 <= k < |xs|
      ensures RetriesAt(log, k) && FailureAt(log, k) == NO_ERROR
    {
      assert RetriesAt(xs, k);
      assert log[k] == xs[k] && (k > 0 ==> log[k - 1] == xs[k - 1]) && (k + 1 < |xs| ==> log[k + 1] == xs[k + 1]);
      assert k < last ==> FailureAt(xs, k) == NO_ERROR;
    }
    forall k | 0 <= k < |ys|
      ensures RetriesAt(log, |xs| + k) && FailureAt(log, |xs| + k) == FailureAt(ys, k)
    {
      RetriesShift(xs, ys, k);
    }
    forall k | 0 <= k < |log|
      ensures RetriesAt(log, k) && (k < |log| - 1 ==> FailureAt(log, k) == NO_ERROR)
    {
      if k >= |xs| {
        assert RetriesAt(log, |xs| + (k - |xs|)) && FailureAt(log, |xs| + (k - |xs|)) == FailureAt(ys, k - |xs|);
      }
    }
  }

  lemma RetriesShift<M>(xs: seq<Call<M>>, ys: seq<Call<M>>, k: nat)
    requires xs != [] && k < |ys| && RetriesAt(ys, k) && ys[0].SendMsg? && RetriesAt(xs, |xs| - 1)
    ensures RetriesAt(xs + ys, |xs| + k) && FailureAt(xs + ys, |xs| + k) == FailureAt(ys, k)
  {
    var log := xs + ys;
    assert log[|xs| + k] == ys[k] && log[|xs| - 1] == xs[|xs| - 1];
    assert k > 0 ==> log[|xs| + k - 1] == ys[k - 1];
    assert k > 1 ==> log[|xs| + k - 2] == ys[k - 2];
    assert k + 1 < |ys| ==> log[|xs| + k + 1] == ys[k + 1];
  }
}
