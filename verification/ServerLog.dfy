/** Logs of a server: calls for messages, and whatever else it asks and is answered.
    A is the type of these answers. */
module ServerLog {
  import opened CallLog

  type MsgCall = Call<()>

  datatype Entry<A> = Msg(call: MsgCall) | Ask(answer: A)

  /** The calls for messages among them. */
  function Msgs<A>(log: seq<Entry<A>>): seq<MsgCall> {
    if log == [] then []
    else (if log[0].Msg? then [log[0].call] else []) + Msgs(log[1..])
  }

  lemma {:induction false} MsgsAppend<A>(xs: seq<Entry<A>>, ys: seq<Entry<A>>)
    ensures Msgs(xs + ys) == Msgs(xs) + Msgs(ys)
  {
    if xs == [] {
      assert xs + ys == ys;
    } else {
      assert (xs + ys)[1..] == xs[1..] + ys;
      MsgsAppend(xs[1..], ys);
      Associative(if xs[0].Msg? then [xs[0].call] else [], Msgs(xs[1..]), Msgs(ys));
    }
  }

  /** Every message that get_msg announced is retired, once and in order. */
  predicate Balanced<A>(log: seq<Entry<A>>) {
    Announced(Msgs(log)) == Retired(Msgs(log))
  }

  lemma BalancedAppend<A>(xs: seq<Entry<A>>, ys: seq<Entry<A>>)
    requires Balanced(xs) && Balanced(ys)
    ensures Balanced(xs + ys)
  {
    MsgsAppend(xs, ys);
    LogAppend(Msgs(xs), Msgs(ys));
  }

  lemma {:induction false} AsksBalanced<A>(log: seq<Entry<A>>)
    requires forall k :: 0 <= k < |log| ==> log[k].Ask?
    ensures Msgs(log) == [] && Balanced(log)
  {
    if log == [] {
    } else {
      AsksBalanced(log[1..]);
    }
  }

  lemma {:induction false} ConcatBalanced<A>(logs: seq<seq<Entry<A>>>)
    requires forall k :: 0 <= k < |logs| ==> Balanced(logs[k])
    ensures Balanced(Concat(logs))
  {
    if logs == [] {
    } else {
      var n := |logs| - 1;
      ConcatBalanced(logs[..n]);
      BalancedAppend(Concat(logs[..n]), logs[n]);
    }
  }

  /** A message is got, perhaps read, and retired. */
  lemma TakenIsBalanced<A>(log: seq<Entry<A>>)
    requires forall k :: 0 <= k < |log| ==> log[k].Msg?
    requires log != [] && log[0].call.GetMsg?
    requires if log[0].call.rc != 0 then |log| == 1
             else
               var n := |log| - 1;
               && 1 <= n <= 2 && (n == 2 ==> log[1].call.ReadMsg?)
               && log[n].call.PutMsg? && log[n].call.id == log[0].call.id
    ensures Balanced(log)
  {
    assert log[1..] == [] || log[1..][1..] == [] || log[1..][1..][1..] == [];
    var msgs := Msgs(log);
    if |log| == 1 {
      assert msgs == [log[0].call];
      LogStep(msgs);
    } else if |log| == 2 {
      assert Msgs(log[1..]) == [log[1].call];
      assert msgs == [log[0].call, log[1].call];
      LogStep(msgs);
      LogStep(msgs[1..]);
    } else {
      assert Msgs(log[1..][1..]) == [log[2].call];
      assert Msgs(log[1..]) == [log[1].call, log[2].call];
      assert msgs == [log[0].call, log[1].call, log[2].call];
      LogStep(msgs);
      LogStep(msgs[1..]);
      LogStep(msgs[1..][1..]);
    }
  }
}
