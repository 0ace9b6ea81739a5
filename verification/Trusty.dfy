/** Constants and small types shared by the whole model: the return codes, the
    event word of `wait`/`wait_any`, and the options for creating ports.

    The header that numbers the return codes, uapi/err.h, is not part of this
    model: all that the proofs use is that the codes are negative and distinct. */
module Trusty {

  datatype Option<+T> = None | Some(value: T)

  const NO_ERROR := 0
  const ERR_GENERIC := -1
  const ERR_NO_MSG := -4
  const ERR_NO_MEMORY := -5
  const ERR_NOT_VALID := -7
  const ERR_NOT_ENOUGH_BUFFER := -9
  const ERR_CHANNEL_CLOSED := -15
  const ERR_BAD_PATH := -18
  const ERR_IO := -20
  const ERR_NOT_IMPLEMENTED := -27
  const ERR_BUSY := -32
  const ERR_NOT_CONFIGURED := -37
  const ERR_BAD_LEN := -46

  /** No two of the codes are equal, and all but NO_ERROR are negative. */
  lemma CodesDiffer()
    ensures var codes := {ERR_GENERIC, ERR_NO_MSG, ERR_NO_MEMORY, ERR_NOT_VALID, ERR_NOT_ENOUGH_BUFFER,
                          ERR_CHANNEL_CLOSED, ERR_BAD_PATH, ERR_IO, ERR_NOT_IMPLEMENTED, ERR_BUSY,
                          ERR_NOT_CONFIGURED, ERR_BAD_LEN};
      |codes| == 12 && forall c :: c in codes ==> c < NO_ERROR == 0
  {
  }

  const INVALID_IPC_HANDLE := 0
  const INVALID_IPC_MSG_ID := 0

  /** The widths that the C code computes in. */
  const TWO_32: int := 0x1_0000_0000
  const TWO_63: int := 0x8000_0000_0000_0000
  const TWO_64: int := 0x1_0000_0000_0000_0000
  const INT_MAX: int := 0x7FFF_FFFF

  /** Conversion of an integer to `int`, as the compilers in use do it. */
  function AsInt32(n: int): (r: int)
    ensures -INT_MAX - 1 <= r <= INT_MAX
    ensures (r - n) % TWO_32 == 0
  {
    var m := n % TWO_32;
    if m <= INT_MAX then m else m - TWO_32
  }

  /** Conversion of a `size_t` result to `ssize_t`. */
  function AsInt64(n: int): (r: int)
    ensures -TWO_63 <= r < TWO_63
    ensures (r - n) % TWO_64 == 0
  {
    var m := n % TWO_64;
    if m < TWO_63 then m else m - TWO_64
  }

  lemma Int64Fits(n: nat)
    requires n < TWO_63
    ensures AsInt64(n) == n
  {
  }

  /** The event word, one flag per bit; `other` stands for the bits that no
      handler looks at. */
  datatype Event = Event(ready: bool, error: bool, hup: bool, msg: bool, sendUnblocked: bool, other: bool) {
    predicate IsNone() {
      !ready && !error && !hup && !msg && !sendUnblocked && !other
    }
  }

  function DecodeEvent(word: bv32): Event {
    Event(word & 0x1 != 0, word & 0x2 != 0, word & 0x4 != 0, word & 0x8 != 0, word & 0x10 != 0,
          word & 0xFFFF_FFE0 != 0)
  }

  /** Comparing the whole word with IPC_HANDLE_POLL_NONE, as `dispatch_event`
      does, is the same as finding every flag clear. */
  lemma NoneIsZero(word: bv32)
    ensures DecodeEvent(word).IsNone() <==> word == 0
  {
  }

  lemma OrMask(a: bv32, b: bv32, mask: bv32)
    ensures (a | b) & mask != 0 <==> a & mask != 0 || b & mask != 0
  {
    assert (a | b) & mask == (a & mask) | (b & mask);
  }

  /** The bits 0 to 4 of the word are READY, ERROR, HUP, MSG and SEND_UNBLOCKED, in
      this order, and the flags of two words put together are those of both. */
  lemma FlagsAreBits(a: bv32, b: bv32)
    ensures DecodeEvent(1) == Event(true, false, false, false, false, false)
    ensures DecodeEvent(2) == Event(false, true, false, false, false, false)
    ensures DecodeEvent(4) == Event(false, false, true, false, false, false)
    ensures DecodeEvent(8) == Event(false, false, false, true, false, false)
    ensures DecodeEvent(16) == Event(false, false, false, false, true, false)
    ensures var x, y, z := DecodeEvent(a), DecodeEvent(b), DecodeEvent(a | b);
      z == Event(x.ready || y.ready, x.error || y.error, x.hup || y.hup, x.msg || y.msg,
                 x.sendUnblocked || y.sendUnblocked, x.other || y.other)
  {
    OrMask(a, b, 1);
    OrMask(a, b, 2);
    OrMask(a, b, 4);
    OrMask(a, b, 8);
    OrMask(a, b, 16);
    OrMask(a, b, 0xFFFF_FFE0);
  }

  /** uuid_t; node stands for clock_seq_and_node. */
  datatype Uuid = Uuid(timeLow: nat, timeMid: nat, timeHi: nat, node: seq<nat>)

  const IPC_PORT_ALLOW_TA_CONNECT: bv32 := 0x1
  const IPC_PORT_ALLOW_NS_CONNECT: bv32 := 0x2

  function Min(a: int, b: int): int { if a < b then a else b }
  function Max(a: int, b: int): int { if a < b then b else a }

  /** A one-to-one map has as many values as keys. */
  lemma {:induction false} SameSize<A, B>(xs: set<A>, ys: set<B>, f: map<A, B>)
    requires f.Keys == xs && f.Values == ys
    requires forall a, b :: a in f && b in f && f[a] == f[b] ==> a == b
    ensures |xs| == |ys|
  {
    if xs == {} {
      assert f == map[];
    } else {
      var a :| a in xs;
      var g := f - {a};
      assert g.Values == ys - {f[a]} by {
        forall y | y in ys - {f[a]}
          ensures y in g.Values
        {
          var b :| b in f && f[b] == y;
          assert b in g && g[b] == y;
        }
      }
      SameSize(xs - {a}, ys - {f[a]}, g);
    }
  }
}
