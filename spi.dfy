/**
 * The SPI bus as `transfer` uses it. Each exchange clocks the frame out and as many bytes
 * in; the bytes that come in are given by the chip, and an exchange whose `ioctl` reports
 * fewer than one byte aborts the process.
 */
module Spi {
  import opened Bytes
  import opened Format
  import opened Trf7960

  /** What the reader chip does on the bus: `miso(k, j)` is the byte it clocks out at
      position `j` of exchange number `k`, and `fails(k)` says that the `ioctl` of exchange
      number `k` returns less than 1. */
  datatype Chip = Chip(miso: (nat, nat) -> byte, fails: nat -> bool)

  /** The `n` bytes received during exchange number `k`. */
  function Reply(chip: Chip, k: nat, n: nat): (rx: seq<byte>)
    ensures |rx| == n
  {
    seq(n, j requires 0 <= j < n => chip.miso(k, j))
  }

  /** None of the `n` exchanges numbered from `base` on fails. */
  predicate Completes(chip: Chip, base: nat, n: nat) {
    forall k :: base <= k < base + n ==> !chip.fails(k)
  }

  /** How many of `n` planned exchanges numbered from `base` on take place: all of them, or
      those up to and including the first that fails, which aborts the process. */
  function Reach(chip: Chip, base: nat, n: nat): (r: nat)
    ensures r <= n
    decreases n
  {
    if n == 0 then 0 else if chip.fails(base) then 1 else 1 + Reach(chip, base + 1, n - 1)
  }

  /** The bus went from trace `before` to trace `after` by sending `plan`: `ok` says that no
      exchange failed, and the frames sent are the whole plan or the plan up to and including
      the first exchange that failed. */
  predicate Sent(chip: Chip, before: seq<Frame>, after: seq<Frame>, plan: seq<Frame>, ok: bool) {
    ok == Completes(chip, |before|, |plan|)
    && after == before + if ok then plan else plan[..Reach(chip, |before|, |plan|)]
  }

  /** A plan that completes is sent in full, and one that does not stops at an exchange that
      fails, after a run of exchanges that do not. */
  lemma {:induction false} ReachIsFirstFailure(chip: Chip, base: nat, n: nat)
    ensures Completes(chip, base, n) ==> Reach(chip, base, n) == n
    ensures !Completes(chip, base, n)
            ==> (0 < Reach(chip, base, n) && chip.fails(base + Reach(chip, base, n) - 1)
                 && Completes(chip, base, Reach(chip, base, n) - 1))
    decreases n
  {
    if n > 0 && !chip.fails(base) {
      ReachIsFirstFailure(chip, base + 1, n - 1);
    }
  }

  /** Splitting a plan in two: the second part is reached only when the first completes. */
  lemma {:induction false} ReachSplit(chip: Chip, base: nat, a: nat, b: nat)
    ensures Completes(chip, base, a + b) == (Completes(chip, base, a) && Completes(chip, base + a, b))
    ensures Reach(chip, base, a + b)
            == if Completes(chip, base, a) then a + Reach(chip, base + a, b) else Reach(chip, base, a)
    decreases a
  {
    if a > 0 && !chip.fails(base) {
      ReachSplit(chip, base + 1, a - 1, b);
    }
  }

  class SpiBus {
    const chip: Chip
    /** Every frame handed to the bus so far, in order. */
    var sent: seq<Frame>

    constructor (chip: Chip)
      ensures this.chip == chip && sent == []
    {
      this.chip := chip;
      sent := [];
    }

    /** One full-duplex exchange: sends `tx`, fills `rx` with the bytes that come back and,
        when `printFlag` is set, returns the hex dump of them. `ok` is false when the
        exchange aborts the process. */
    method Transfer(tx: Frame, rx: array<byte>, printFlag: bool) returns (ok: bool, shown: string)
      requires rx.Length == |Wire(tx)|
      modifies this, rx
      ensures sent == old(sent) + [tx]
      ensures ok == !chip.fails(|old(sent)|)
      ensures ok ==> rx[..] == Reply(chip, |old(sent)|, |Wire(tx)|)
      ensures !ok ==> rx[..] == old(rx[..])
      ensures shown == if ok && printFlag then Dump(rx[..]) else ""
    {
      var k := |sent|;
      sent := sent + [tx];
      ok := !chip.fails(k);
      shown := "";
      if !ok {
        return;
      }
      var reply := Reply(chip, k, rx.Length);
      forall j | 0 <= j < rx.Length {
        rx[j] := reply[j];
      }
      assert rx[..] == reply;
      if printFlag {
        shown := HexDump(rx);
      }
    }

    /** `transfer` of the `i`-th frame of a planned sequence that started from trace `start`,
        into a fresh zeroed receive buffer: afterwards the plan has been sent up to frame `i`,
        or has aborted. */
    method TransferStep(tx: Frame, ghost start: seq<Frame>, ghost plan: seq<Frame>, ghost i: nat)
      returns (ok: bool, reply: seq<byte>)
      requires i < |plan| && plan[i] == tx && Sent(chip, start, sent, plan[..i], true)
      modifies this
      ensures sent == old(sent) + [tx]
      ensures ok ==> Sent(chip, start, sent, plan[..i + 1], true)
      ensures !ok ==> Sent(chip, start, sent, plan, false)
      ensures ok ==> |old(sent)| == |start| + i && reply == Reply(chip, |start| + i, |Wire(tx)|)
    {
      ghost var before := sent;
      var rx := new byte[|Wire(tx)|];
      var shown;
      ok, shown := Transfer(tx, rx, false);
      reply := rx[..];
      SentStep(chip, start, before, sent, plan, i, ok);
    }

    /** `TransferStep` with `printFlag` set: `shown` is the hex dump of the reply. */
    method TransferStepShown(tx: Frame, ghost start: seq<Frame>, ghost plan: seq<Frame>, ghost i: nat)
      returns (ok: bool, reply: seq<byte>, shown: string)
      requires i < |plan| && plan[i] == tx && Sent(chip, start, sent, plan[..i], true)
      modifies this
      ensures sent == old(sent) + [tx]
      ensures ok ==> Sent(chip, start, sent, plan[..i + 1], true)
      ensures !ok ==> Sent(chip, start, sent, plan, false)
      ensures ok ==> |old(sent)| == |start| + i && reply == Reply(chip, |start| + i, |Wire(tx)|)
                     && shown == Dump(reply)
    {
      ghost var before := sent;
      var rx := new byte[|Wire(tx)|];
      ok, shown := Transfer(tx, rx, true);
      reply := rx[..];
      SentStep(chip, start, before, sent, plan, i, ok);
    }
  }

  /** A plan sent in full followed by a second plan is the concatenated plan, which aborts
      where the second one does. */
  lemma SentThen(chip: Chip, start: seq<Frame>, mid: seq<Frame>, after: seq<Frame>, a: seq<Frame>, b: seq<Frame>, ok: bool)
    requires Sent(chip, start, mid, a, true) && Sent(chip, mid, after, b, ok)
    ensures Sent(chip, start, after, a + b, ok)
  {
    ReachSplit(chip, |start|, |a|, |b|);
    if !ok {
      var r := Reach(chip, |mid|, |b|);
      assert (a + b)[..|a| + r] == a + b[..r];
    }
  }

  /** A plan that aborts part-way through a prefix of a longer plan aborts the longer plan at
      the same exchange. */
  lemma AbortWithin(chip: Chip, start: seq<Frame>, after: seq<Frame>, done: seq<Frame>, plan: seq<Frame>)
    requires Sent(chip, start, after, done, false) && done <= plan
    ensures Sent(chip, start, after, plan, false)
  {
    ReachSplit(chip, |start|, |done|, |plan| - |done|);
    var r := Reach(chip, |start|, |done|);
    assert plan[..r] == done[..r];
  }

  /** One more exchange of a planned sequence: if it fails, the whole plan counts as aborted
      there. */
  lemma SentStep(chip: Chip, start: seq<Frame>, before: seq<Frame>, after: seq<Frame>, plan: seq<Frame>, i: nat, ok: bool)
    requires i < |plan| && Sent(chip, start, before, plan[..i], true)
    requires after == before + [plan[i]] && ok == !chip.fails(|before|)
    ensures |before| == |start| + i
    ensures ok ==> Sent(chip, start, after, plan[..i + 1], true)
    ensures !ok ==> Sent(chip, start, after, plan, false)
  {
    ReachIsFirstFailure(chip, |start|, i);
    ReachSplit(chip, |start|, i, 1);
    ReachSplit(chip, |start|, i + 1, |plan| - i - 1);
    assert plan[..i + 1] == plan[..i] + [plan[i]];
  }

  /** The dump `transfer` prints: a line break before every sixth byte starting with the
      first, each byte as two upper-case hexadecimal digits and a space, and a line break at
      the end. */
  method HexDump(rx: array<byte>) returns (out: string)
    ensures out == Dump(rx[..])
  {
    out := "";
    var i := 0;
    while i < rx.Length
      invariant 0 <= i <= rx.Length
      invariant out == DumpUpTo(rx[..], i)
    {
      if i % 6 == 0 {
        out := out + "\n";
      }
      out := out + Hex2(rx[i]) + " ";
      i := i + 1;
    }
    out := out + "\n";
  }
}
