/**
 * The reader's IRQ line as the programs poll it through `gpio_get_value`, and the two ways
 * they wait for it: without a bound, and with a countdown of polls.
 */
module Irq {

  /** The IRQ input. `level(k)` is what the `k`-th read returns (true: high). */
  class IrqLine {
    const level: nat -> bool
    /** The number of reads so far. */
    var polls: nat

    constructor (level: nat -> bool)
      ensures this.level == level && polls == 0
    {
      this.level := level;
      polls := 0;
    }

    method Read() returns (high: bool)
      modifies this
      ensures high == level(old(polls)) && polls == old(polls) + 1
    {
      high := level(polls);
      polls := polls + 1;
    }
  }

  /** The countdown both programs give the wait for a tag's response: `timeout = 1000` at
      the top of every round. */
  const Budget: nat := 1000

  /** The line is high at some read from `from` on. */
  ghost predicate EventuallyHigh(level: nat -> bool, from: nat) {
    exists k :: from <= k && level(k)
  }

  /** The first read from `from` on that is high, given that `bound` is one. */
  function FirstHighFrom(level: nat -> bool, from: nat, bound: nat): (k: nat)
    requires from <= bound && level(bound)
    ensures from <= k <= bound
    decreases bound - from
  {
    if level(from) then from else FirstHighFrom(level, from + 1, bound)
  }

  /** The search stops at a high read, and every read it passes over is low. */
  lemma {:induction false} FirstHighFromIsFirst(level: nat -> bool, from: nat, bound: nat)
    requires from <= bound && level(bound)
    ensures var k := FirstHighFrom(level, from, bound);
            level(k) && forall j :: from <= j < k ==> !level(j)
    decreases bound - from
  {
    if !level(from) {
      FirstHighFromIsFirst(level, from + 1, bound);
    }
  }

  /** The first read from `from` on that is high. */
  ghost function NextHigh(level: nat -> bool, from: nat): (k: nat)
    requires EventuallyHigh(level, from)
    ensures from <= k
  {
    var bound :| from <= bound && level(bound);
    FirstHighFrom(level, from, bound)
  }

  /** `NextHigh` is a high read, and every read before it from `from` on is low. */
  lemma NextHighIsFirst(level: nat -> bool, from: nat)
    requires EventuallyHigh(level, from)
    ensures level(NextHigh(level, from))
    ensures forall j :: from <= j < NextHigh(level, from) ==> !level(j)
  {
    forall bound | from <= bound && level(bound)
      ensures var k := FirstHighFrom(level, from, bound);
              level(k) && forall j :: from <= j < k ==> !level(j)
    {
      FirstHighFromIsFirst(level, from, bound);
    }
  }

  /** There is only one first high read from a given read on. */
  lemma FirstHighUnique(level: nat -> bool, from: nat, a: nat, b: nat)
    requires from <= a && level(a) && forall j :: from <= j < a ==> !level(j)
    requires from <= b && level(b) && forall j :: from <= j < b ==> !level(j)
    ensures a == b
  {
  }

  /** How many reads a countdown of `budget` polls makes, starting at read `from`: it stops
      after the first high read or when the budget is spent. */
  function PollsUntilHigh(level: nat -> bool, from: nat, budget: nat): (n: nat)
    ensures n <= budget
    decreases budget
  {
    if budget == 0 then 0
    else if level(from) then 1
    else 1 + PollsUntilHigh(level, from + 1, budget - 1)
  }

  /** The countdown stops at a high read unless the budget runs out first: a countdown that
      is not spent ends with a high read. */
  lemma {:induction false} PollsStopAtHigh(level: nat -> bool, from: nat, budget: nat)
    ensures var n := PollsUntilHigh(level, from, budget);
            (budget > 0 ==> n > 0) && (n < budget ==> level(from + n - 1))
    decreases budget
  {
    if budget > 0 && !level(from) {
      PollsStopAtHigh(level, from + 1, budget - 1);
    }
  }

  /** Every read of the countdown but the last is low. */
  lemma {:induction false} PollsSkipLow(level: nat -> bool, from: nat, budget: nat)
    ensures forall k :: from <= k < from + PollsUntilHigh(level, from, budget) - 1 ==> !level(k)
    decreases budget
  {
    if budget > 0 && !level(from) {
      PollsSkipLow(level, from + 1, budget - 1);
    }
  }

  /** The countdown is spent exactly when none of the first `budget - 1` reads is high:
      a high line on the last allowed read still counts as spent. */
  lemma {:induction false} SpentIff(level: nat -> bool, from: nat, budget: nat)
    requires budget > 0
    ensures PollsUntilHigh(level, from, budget) == budget
            <==> forall k :: from <= k < from + budget - 1 ==> !level(k)
    decreases budget
  {
    if budget > 1 && !level(from) {
      SpentIff(level, from + 1, budget - 1);
    }
  }

  /** The wait without a bound (BBB_RFID.c:342-346, BBB_SPI_write.c:253-256): while the
      status is not 1, the line is read into it. Entered with `irq_status` equal to `status`,
      it reads nothing when that is already 1, and otherwise reads the line until it is high,
      up to and including the next high read. */
  method WaitUnbounded(line: IrqLine, status: bool) returns (high: bool)
    requires status || EventuallyHigh(line.level, line.polls)
    modifies line
    ensures high
    ensures line.polls == if status then old(line.polls) else NextHigh(line.level, old(line.polls)) + 1
  {
    high := status;
    if high {
      return;
    }
    ghost var start := line.polls;
    ghost var bound :| start <= bound && line.level(bound);
    while !high
      invariant start <= line.polls <= bound + 1
      invariant high ==> start < line.polls && line.level(line.polls - 1)
      invariant forall k :: start <= k < line.polls - (if high then 1 else 0) ==> !line.level(k)
      decreases bound + 1 - line.polls, !high
    {
      high := line.Read();
    }
    NextHighIsFirst(line.level, start);
    FirstHighUnique(line.level, start, line.polls - 1, NextHigh(line.level, start));
  }

  /** The wait with a countdown (BBB_RFID.c:359-364, BBB_SPI_write.c:269-275): the status is
      cleared, then the line is read at most `budget` times, counting the countdown down once
      per read and stopping early at a high read. `high` is the last value read and `left` the
      countdown that remains. */
  method WaitBounded(line: IrqLine, budget: nat) returns (high: bool, left: nat)
    modifies line
    ensures var n := PollsUntilHigh(line.level, old(line.polls), budget);
            line.polls == old(line.polls) + n && left == budget - n
            && high == (n > 0 && line.level(line.polls - 1))
            && (budget > 0 ==> high == (n < budget || line.level(line.polls - 1)))
  {
    high, left := false, budget;
    while !high && left != 0
      invariant line.polls - old(line.polls) + left == budget
      invariant line.polls >= old(line.polls)
      invariant PollsUntilHigh(line.level, old(line.polls), budget)
                == (if high then 0 else PollsUntilHigh(line.level, line.polls, left)) + line.polls - old(line.polls)
      invariant high == (line.polls > old(line.polls) && line.level(line.polls - 1))
    {
      high := line.Read();
      left := left - 1;
    }
    PollsStopAtHigh(line.level, old(line.polls), budget);
  }
}
