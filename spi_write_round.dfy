/**
 * One pass of the `while(1)` loop of `main` in BBB_SPI_write.c: the same single-slot
 * ISO/IEC 15693 inventory through the TRF7960 as BBB_RFID.c, as a bench test that prints
 * what it reads instead of acting on it. It differs from BBB_RFID.c in that `irq_status` is
 * not cleared before the wait for the Inventory IRQ, the FIFO is read whenever the response
 * came in, with the hex dump of `transfer` switched on, and the status checks print.
 *
 * As in `RfidLoop`, the chip and the IRQ line are oracles: `OutcomeOf` says which way the
 * round goes, `Frames` which frames it sends and `Effects` what it prints and when it sleeps.
 */
module SpiWriteLoop {
  import opened Bytes
  import opened Format
  import opened Trf7960
  import opened Spi
  import opened Irq
  import RfidLoop

  /** The value `timeout` holds before the first round. */
  const InitialTimeout: nat := 1000 * 1000
  /** `usleep(100000)` at the end of every round. */
  const RoundGapUs: nat := 100000

  /** The way a round goes. */
  datatype Outcome =
    | Rejected(status: byte)   // the IRQ status after the inventory was not 0x80
    | TimedOut                 // the bounded wait for the response used up its countdown
    | Responded                // the response came in and was read out

  /** What the process does besides talking to the chip and polling the IRQ line. */
  datatype Effect =
    | Pause(us: nat)           // `usleep`
    | Printed(text: string)    // `printf` or `puts` on standard output

  /** `printf(" ERROR: 0x%X. \n", status)`. */
  function RejectedText(status: byte): string {
    " ERROR: 0x" + HexNoPad(status) + ". \n"
  }

  /** `printf("timed out\n")`. */
  const TimedOutText: string := "timed out\n"

  /** `printf("irq error: 0x%X\n", status)`. */
  function IrqErrorText(status: byte): string {
    "irq error: 0x" + HexNoPad(status) + "\n"
  }

  /** `printf("rssi: %d\n", level)`. */
  function RssiText(level: byte): string {
    "rssi: " + Decimal(level as nat) + "\n"
  }

  /** The frames sent once the response has come in: the status reads, the FIFO read and the
      clean-up frames. */
  const ResponseFrames: seq<Frame> := ProbeFrames + [ReadFifoFrame] + CleanupFrames

  /** The frames sent after an IRQ status of 0x80: the FIFO reset, then the response frames
      unless the wait times out. */
  function AwaitFrames(p: Outcome): seq<Frame> {
    [ResetFifoFrame] + if p.TimedOut? then [] else ResponseFrames
  }

  /** The frames sent after the IRQ status has been read: none unless it was 0x80. */
  function ConcludeFrames(p: Outcome): seq<Frame> {
    if p.Rejected? then [] else AwaitFrames(p)
  }

  /** The frames a round with outcome `p` sends, in order. */
  function Frames(p: Outcome): seq<Frame> {
    StartFrames + QueryFrames + ConcludeFrames(p)
  }

  /** The read count after the wait for the Inventory IRQ, entered with `irq_status` equal to
      `status`: it reads nothing when `irq_status` is still 1. */
  ghost function WaitEnd(level: nat -> bool, start: nat, status: bool): nat
    requires status || EventuallyHigh(level, start)
  {
    if status then start else NextHigh(level, start) + 1
  }

  /** How many reads of the IRQ line a round makes after the wait for the Inventory IRQ, when
      read `from` is the first of them. */
  function ConcludePolls(level: nat -> bool, from: nat, p: Outcome): nat {
    if p.Rejected? then 0 else PollsUntilHigh(level, from, Budget)
  }

  /** The outcome of a round whose first exchange is number `base` on the bus, whose first
      read of the IRQ line is number `start` and that begins with `irq_status` equal to
      `status`. Exchange `base + 7` reads the IRQ status after the wait. */
  ghost function OutcomeOf(chip: Chip, base: nat, level: nat -> bool, start: nat, status: bool): Outcome
    requires status || EventuallyHigh(level, start)
  {
    ConcludeOf(chip.miso(base + 7, 1), level, WaitEnd(level, start, status))
  }

  /** The outcome once the IRQ status `status` has been read, when read `from` is the next
      of the IRQ line. */
  function ConcludeOf(status: byte, level: nat -> bool, from: nat): Outcome {
    if status != 0x80 then Rejected(status)
    else if PollsUntilHigh(level, from, Budget) == Budget then TimedOut
    else Responded
  }

  /** The line the second IRQ-status check prints: none when the status is 0x80. */
  function IrqCheckEffects(status: byte): seq<Effect> {
    if status != 0x80 then [Printed(IrqErrorText(status))] else []
  }

  /** The effects once the response has come in, when exchange `k` is the first of
      `ResponseFrames`: the IRQ-status check, the dump of the FIFO read by exchange `k + 2`,
      and the RSSI level read by exchange `k + 4`. */
  function ResponseEffects(chip: Chip, k: nat): seq<Effect> {
    IrqCheckEffects(chip.miso(k, 1)) + [Printed(Dump(Reply(chip, k + 2, 11)))]
    + [Printed(RssiText(chip.miso(k + 4, 1)))]
  }

  /** The effects after an IRQ status of 0x80, when exchange `k` resets the FIFO. */
  function AwaitEffects(chip: Chip, k: nat, p: Outcome): seq<Effect> {
    if p.TimedOut? then [Printed(TimedOutText)] else ResponseEffects(chip, k + 1)
  }

  /** The effects after the IRQ status has been read, when exchange `k` is the next on the
      bus: the error line or what follows a status of 0x80, then the pause before the next
      round. */
  function ConcludeEffects(chip: Chip, k: nat, p: Outcome): seq<Effect> {
    (if p.Rejected? then [Printed(RejectedText(p.status))] else AwaitEffects(chip, k, p))
    + [Pause(RoundGapUs)]
  }

  /** The effects of a round with outcome `p`, in order. */
  function Effects(chip: Chip, base: nat, p: Outcome): seq<Effect> {
    [Pause(SetupPauseUs)] + ConcludeEffects(chip, base + 8, p)
  }

  /** What an effect prints on standard output. */
  function Text(e: Effect): string {
    if e.Printed? then e.text else ""
  }

  /** Everything a sequence of effects prints, in order. */
  function Console(log: seq<Effect>): string {
    Joined(log, Text)
  }

  /** The state of `main` that survives from one round to the next. */
  class Reader {
    const bus: SpiBus
    const irq: IrqLine
    var timeout: nat
    var irqStatus: bool
    /** Everything the process has printed or slept, in order. */
    var log: seq<Effect>

    constructor (chip: Chip, level: nat -> bool)
      ensures fresh(bus) && fresh(irq)
      ensures bus.chip == chip && bus.sent == [] && irq.level == level && irq.polls == 0
      ensures timeout == InitialTimeout && !irqStatus && log == []
    {
      bus := new SpiBus(chip);
      irq := new IrqLine(level);
      timeout, irqStatus, log := InitialTimeout, false, [];
    }

    /** Software initialisation, idle and the chip set-up write, then the 1 ms pause. */
    method Setup() returns (ok: bool)
      modifies this, bus
      ensures Sent(bus.chip, old(bus.sent), bus.sent, StartFrames, ok)
      ensures ok ==> log == old(log) + [Pause(SetupPauseUs)]
      ensures timeout == old(timeout) && irqStatus == old(irqStatus)
    {
      ghost var s0 := bus.sent;
      var rx000;
      ok, rx000 := bus.TransferStep(SoftInitFrame, s0, StartFrames, 0);
      if !ok { return; }
      var rx001;
      ok, rx001 := bus.TransferStep(IdleFrame, s0, StartFrames, 1);
      if !ok { return; }
      var rx0;
      ok, rx0 := bus.TransferStep(ChipSetupFrame, s0, StartFrames, 2);
      if !ok { return; }
      assert StartFrames[..3] == StartFrames;
      log := log + [Pause(SetupPauseUs)];
    }

    /** The Inventory request, the wait for the IRQ line after it, entered with the
        `irq_status` left by the previous round, and the IRQ-status read; `status` is the IRQ
        status read last. */
    method Query() returns (ok: bool, status: byte)
      requires irqStatus || EventuallyHigh(irq.level, irq.polls)
      modifies this, bus, irq
      ensures Sent(bus.chip, old(bus.sent), bus.sent, QueryFrames, ok)
      ensures ok ==> status == bus.chip.miso(|old(bus.sent)| + 4, 1)
                     && irq.polls == WaitEnd(irq.level, old(irq.polls), old(irqStatus)) && irqStatus
      ensures timeout == old(timeout) && log == old(log)
    {
      ghost var s0 := bus.sent;
      status := 0;
      var rx;
      ok, rx := bus.TransferStep(SysClkFrame, s0, QueryFrames, 0);
      if !ok { return; }
      var rx2;
      ok, rx2 := bus.TransferStep(NoResponseWaitFrame, s0, QueryFrames, 1);
      if !ok { return; }
      var rx3;
      ok, rx3 := bus.TransferStep(ReadIrqStatusFrame, s0, QueryFrames, 2);
      if !ok { return; }
      var rx4;
      ok, rx4 := bus.TransferStep(InventoryFrame, s0, QueryFrames, 3);
      if !ok { return; }
      irqStatus := WaitUnbounded(irq, irqStatus);
      var rx5;
      ok, rx5 := bus.TransferStep(ReadIrqStatusFrame, s0, QueryFrames, 4);
      if !ok { return; }
      assert QueryFrames[..5] == QueryFrames;
      status := rx5[1];
    }

    /** The IRQ-status read after the response, with the line it prints unless the status
        is 0x80, and the FIFO-status read. */
    method Probe() returns (ok: bool)
      modifies this, bus
      ensures Sent(bus.chip, old(bus.sent), bus.sent, ProbeFrames, ok)
      ensures ok ==> log == old(log) + IrqCheckEffects(bus.chip.miso(|old(bus.sent)|, 1))
      ensures timeout == old(timeout) && irqStatus == old(irqStatus)
    {
      ghost var s0 := bus.sent;
      var rx7;
      ok, rx7 := bus.TransferStep(ReadIrqStatusFrame, s0, ProbeFrames, 0);
      if !ok { return; }
      if rx7[1] != 0x80 {
        log := log + [Printed(IrqErrorText(rx7[1]))];
      }
      var rx8;
      ok, rx8 := bus.TransferStep(ReadFifoStatusFrame, s0, ProbeFrames, 1);
      if !ok { return; }
      assert ProbeFrames[..2] == ProbeFrames;
    }

    /** The FIFO read with the hex dump of `transfer` switched on. */
    method ReadFifo() returns (ok: bool)
      modifies this, bus
      ensures Sent(bus.chip, old(bus.sent), bus.sent, [ReadFifoFrame], ok)
      ensures ok ==> log == old(log) + [Printed(Dump(Reply(bus.chip, |old(bus.sent)|, 11)))]
      ensures timeout == old(timeout) && irqStatus == old(irqStatus)
    {
      ghost var s0 := bus.sent;
      var rx9, shown;
      ok, rx9, shown := bus.TransferStepShown(ReadFifoFrame, s0, [ReadFifoFrame], 0);
      if !ok { return; }
      assert [ReadFifoFrame][..1] == [ReadFifoFrame];
      log := log + [Printed(shown)];
    }

    /** The clean-up frames, printing the RSSI level read by the second of them. */
    method Cleanup() returns (ok: bool)
      modifies this, bus
      ensures Sent(bus.chip, old(bus.sent), bus.sent, CleanupFrames, ok)
      ensures ok ==> log == old(log) + [Printed(RssiText(bus.chip.miso(|old(bus.sent)| + 1, 1)))]
      ensures timeout == old(timeout) && irqStatus == old(irqStatus)
    {
      ghost var s0 := bus.sent;
      var rx15;
      ok, rx15 := bus.TransferStep(ResetFifoFrame, s0, CleanupFrames, 0);
      if !ok { return; }
      var rx16;
      ok, rx16 := bus.TransferStep(ReadRssiFrame, s0, CleanupFrames, 1);
      if !ok { return; }
      log := log + [Printed(RssiText(rx16[1]))];
      var rx17;
      ok, rx17 := bus.TransferStep(ResetFifoFrame, s0, CleanupFrames, 2);
      if !ok { return; }
      var rx18;
      ok, rx18 := bus.TransferStep(BlockReceiverFrame, s0, CleanupFrames, 3);
      if !ok { return; }
      var rx19;
      ok, rx19 := bus.TransferStep(ReadIrqStatusSingleFrame, s0, CleanupFrames, 4);
      if !ok { return; }
      var rx20;
      ok, rx20 := bus.TransferStep(TransmitterOffFrame, s0, CleanupFrames, 5);
      if !ok { return; }
      assert CleanupFrames[..6] == CleanupFrames;
    }

    /** Everything after a bounded wait that did not time out. The FIFO is read when
        `irq_status` is set, which it always is once the wait has ended before its countdown
        ran out. */
    method Respond() returns (ok: bool)
      requires irqStatus
      modifies this, bus
      ensures Sent(bus.chip, old(bus.sent), bus.sent, ResponseFrames, ok)
      ensures ok ==> log == old(log) + ResponseEffects(bus.chip, |old(bus.sent)|)
      ensures timeout == old(timeout) && irqStatus == old(irqStatus)
    {
      ghost var s0 := bus.sent;
      ghost var chip := bus.chip;
      ghost var l0 := log;
      ok := Probe();
      if !ok {
        AbortWithin(chip, s0, bus.sent, ProbeFrames, ResponseFrames);
        return;
      }
      ghost var s1 := bus.sent;
      ghost var check := IrqCheckEffects(chip.miso(|s0|, 1));
      if irqStatus {
        ok := ReadFifo();
        SentThen(chip, s0, s1, bus.sent, ProbeFrames, [ReadFifoFrame], ok);
        if !ok {
          AbortWithin(chip, s0, bus.sent, ProbeFrames + [ReadFifoFrame], ResponseFrames);
          return;
        }
      }
      ghost var s2 := bus.sent;
      assert |s2| == |s0| + 3;
      ghost var dump := [Printed(Dump(Reply(chip, |s0| + 2, 11)))];
      assert log == (l0 + check) + dump;
      ok := Cleanup();
      SentThen(chip, s0, s2, bus.sent, ProbeFrames + [ReadFifoFrame], CleanupFrames, ok);
      if ok {
        AppendAssoc(l0, check, dump, [Printed(RssiText(chip.miso(|s0| + 4, 1)))]);
      }
    }

    /** The bounded wait for the response: the countdown `timeout` starts at `Budget`, and
        `irqStatus` is the last level read, which is high unless the countdown ran out. */
    method Listen()
      requires timeout == Budget
      modifies this, irq
      ensures var n := PollsUntilHigh(irq.level, old(irq.polls), Budget);
              irq.polls == old(irq.polls) + n && timeout == Budget - n
              && irqStatus == (n < Budget || irq.level(irq.polls - 1))
      ensures log == old(log)
    {
      irqStatus, timeout := WaitBounded(irq, timeout);
    }

    /** What follows an IRQ status of 0x80: the FIFO reset, the bounded wait for the
        response and then either the time-out line or the response. */
    method Await() returns (ok: bool, ghost q: Outcome)
      requires timeout == Budget
      modifies this, bus, irq
      ensures q == ConcludeOf(0x80, irq.level, old(irq.polls))
      ensures Sent(bus.chip, old(bus.sent), bus.sent, AwaitFrames(q), ok)
      ensures ok ==> log == old(log) + AwaitEffects(bus.chip, |old(bus.sent)|, q)
      ensures ok ==> var n := PollsUntilHigh(irq.level, old(irq.polls), Budget);
                     irq.polls == old(irq.polls) + n && timeout == Budget - n
                     && irqStatus == (q.TimedOut? ==> irq.level(irq.polls - 1))
    {
      ghost var s0 := bus.sent;
      ghost var chip := bus.chip;
      ghost var l0 := log;
      q := ConcludeOf(0x80, irq.level, irq.polls);
      var rx6;
      ok, rx6 := bus.TransferStep(ResetFifoFrame, s0, AwaitFrames(q), 0);
      if !ok { return; }
      Listen();
      if timeout == 0 {
        assert AwaitFrames(q) == [ResetFifoFrame];
        log := log + [Printed(TimedOutText)];
        return;
      }
      ghost var s1 := bus.sent;
      assert |s1| == |s0| + 1 && log == l0;
      ok := Respond();
      assert AwaitFrames(q) == [ResetFifoFrame] + ResponseFrames;
      assert AwaitFrames(q)[..1] == [ResetFifoFrame];
      SentThen(chip, s0, s1, bus.sent, [ResetFifoFrame], ResponseFrames, ok);
    }

    /** The top of a round: the countdown reset, the set-up, the Inventory request and the
        wait for its IRQ. `status` is the IRQ status read after it. */
    method Prepare() returns (ok: bool, status: byte)
      requires irqStatus || EventuallyHigh(irq.level, irq.polls)
      modifies this, bus, irq
      ensures Sent(bus.chip, old(bus.sent), bus.sent, StartFrames + QueryFrames, ok)
      ensures ok ==> status == bus.chip.miso(|old(bus.sent)| + 7, 1)
                     && irq.polls == WaitEnd(irq.level, old(irq.polls), old(irqStatus)) && irqStatus
                     && log == old(log) + [Pause(SetupPauseUs)]
      ensures timeout == Budget
    {
      ghost var s0 := bus.sent;
      ghost var chip := bus.chip;
      timeout := Budget;
      ok := Setup();
      if !ok {
        status := 0;
        AbortWithin(chip, s0, bus.sent, StartFrames, StartFrames + QueryFrames);
        return;
      }
      ghost var s1 := bus.sent;
      ok, status := Query();
      SentThen(chip, s0, s1, bus.sent, StartFrames, QueryFrames, ok);
    }

    /** The rest of a round once the IRQ status `status` has been read: what follows a
        status of 0x80 or the error line, then the pause before the next round. */
    method Conclude(status: byte) returns (ok: bool, ghost q: Outcome)
      requires irqStatus && timeout == Budget
      modifies this, bus, irq
      ensures q == ConcludeOf(status, irq.level, old(irq.polls))
      ensures Sent(bus.chip, old(bus.sent), bus.sent, ConcludeFrames(q), ok)
      ensures ok ==> log == old(log) + ConcludeEffects(bus.chip, |old(bus.sent)|, q)
      ensures ok ==> var n := ConcludePolls(irq.level, old(irq.polls), q);
                     irq.polls == old(irq.polls) + n && timeout == Budget - n
                     && irqStatus == (q.TimedOut? ==> irq.level(irq.polls - 1))
    {
      ghost var s0 := bus.sent;
      ghost var chip := bus.chip;
      ghost var l0 := log;
      q := ConcludeOf(status, irq.level, irq.polls);
      ok := true;
      ghost var middle: seq<Effect>;
      if status == 0x80 {
        ok, q := Await();
        if !ok { return; }
        middle := AwaitEffects(chip, |s0|, q);
      } else {
        log := log + [Printed(RejectedText(status))];
        middle := [Printed(RejectedText(status))];
      }
      log := log + [Pause(RoundGapUs)];
      Append3(l0, middle, [Pause(RoundGapUs)]);
    }

    /** One round, entered with the `irq_status` the previous round left. Unless an exchange
        aborts the process, the frames of `Frames(p)` have all been sent and the effects of
        `Effects(p)` have all happened; `timeout` is `Budget` less the reads of the bounded
        wait, and `irq_status` ends low only after a time-out whose last read was low. */
    method Round() returns (aborted: bool, ghost p: Outcome)
      requires irqStatus || EventuallyHigh(irq.level, irq.polls)
      modifies this, bus, irq
      ensures p == OutcomeOf(bus.chip, |old(bus.sent)|, irq.level, old(irq.polls), old(irqStatus))
      ensures Sent(bus.chip, old(bus.sent), bus.sent, Frames(p), !aborted)
      ensures !aborted ==> log == old(log) + Effects(bus.chip, |old(bus.sent)|, p)
      ensures !aborted ==> var w := WaitEnd(irq.level, old(irq.polls), old(irqStatus));
                           var n := ConcludePolls(irq.level, w, p);
                           irq.polls == w + n && timeout == Budget - n
                           && irqStatus == (p.TimedOut? ==> irq.level(irq.polls - 1))
    {
      ghost var s0 := bus.sent;
      ghost var chip := bus.chip;
      ghost var l0 := log;
      p := OutcomeOf(chip, |s0|, irq.level, irq.polls, irqStatus);
      var ok, status := Prepare();
      if !ok {
        AbortWithin(chip, s0, bus.sent, StartFrames + QueryFrames, Frames(p));
        return true, p;
      }
      ghost var s1 := bus.sent;
      assert |s1| == |s0| + 8;
      ghost var q;
      ok, q := Conclude(status);
      assert q == p;
      SentThen(chip, s0, s1, bus.sent, StartFrames + QueryFrames, ConcludeFrames(q), ok);
      aborted := !ok;
      if ok {
        Append3(l0, [Pause(SetupPauseUs)], ConcludeEffects(chip, |s1|, q));
      }
    }
  }

  /** Every round opens with the same seven frames as a round of BBB_RFID.c, and both read
      the IRQ status next. */
  lemma RoundOpening(p: Outcome, q: RfidLoop.Path)
    ensures |Frames(p)| >= 8 && Frames(p)[..7] == InitFrames
    ensures Frames(p)[..8] == RfidLoop.Frames(q)[..8]
  {
    assert Frames(p) == (StartFrames + QueryFrames) + ConcludeFrames(p);
    assert RfidLoop.Frames(q) == (StartFrames + QueryFrames) + RfidLoop.ConcludeFrames(q);
  }

  /** Which frames each outcome sends after the IRQ-status read: none when the status is not
      0x80, only the FIFO reset when the wait times out, and otherwise the status reads, the
      FIFO read, with no check of the FIFO count, and the clean-up frames. */
  lemma RoundFrames(p: Outcome)
    ensures p.Rejected? <==> Frames(p) == StartFrames + QueryFrames
    ensures p.TimedOut? <==> Frames(p) == StartFrames + QueryFrames + [ResetFifoFrame]
    ensures p.Responded?
            <==> Frames(p) == StartFrames + QueryFrames + [ResetFifoFrame] + ProbeFrames + [ReadFifoFrame] + CleanupFrames
  {
    var init := StartFrames + QueryFrames;
    assert |Frames(p)| == |init| + |ConcludeFrames(p)|;
    assert |init| == 8;
  }

  /** The FIFO read and the clean-up frames are sent exactly when the response came in. */
  lemma FifoReadAndCleanupOnResponse(p: Outcome)
    ensures ReadFifoFrame in Frames(p) <==> p.Responded?
    ensures p.Responded?
            <==> |Frames(p)| >= |CleanupFrames| && Frames(p)[|Frames(p)| - |CleanupFrames|..] == CleanupFrames
  {
    RoundFrames(p);
    var f := Frames(p);
    if p.Responded? {
      assert f[11] == ReadFifoFrame;
    } else {
      assert ReadFifoFrame !in StartFrames + QueryFrames + [ResetFifoFrame];
      assert f[|f| - 1] != TransmitterOffFrame;
    }
  }

  /** The outcome in terms of what the round reads: the IRQ status from exchange `base + 7`
      and the bounded wait that starts where the wait for the Inventory IRQ ended. */
  lemma OutcomeConditions(chip: Chip, base: nat, level: nat -> bool, start: nat, status: bool)
    requires status || EventuallyHigh(level, start)
    ensures var p := OutcomeOf(chip, base, level, start, status);
            var from := WaitEnd(level, start, status);
            && (p.Rejected? <==> chip.miso(base + 7, 1) != 0x80)
            && (p.TimedOut? <==> chip.miso(base + 7, 1) == 0x80
                                 && forall k :: from <= k < from + Budget - 1 ==> !level(k))
            && (p.Responded? <==> chip.miso(base + 7, 1) == 0x80 && PollsUntilHigh(level, from, Budget) < Budget)
  {
    SpentIff(level, WaitEnd(level, start, status), Budget);
  }

  /** `irq_status` carried into a round decides the wait for the Inventory IRQ: it reads
      nothing when `irq_status` is still 1 and otherwise reads up to the next high level. The
      `irq_status` a round leaves is 0 only after a time-out whose last read was low, so
      after any other round the next one reads the IRQ status with no wait at all. */
  lemma CarriedStatus(level: nat -> bool, start: nat, status: bool)
    requires status || EventuallyHigh(level, start)
    ensures WaitEnd(level, start, status) == start <==> status
    ensures !status ==> level(WaitEnd(level, start, status) - 1)
                        && forall k :: start <= k < WaitEnd(level, start, status) - 1 ==> !level(k)
  {
    if !status {
      NextHighIsFirst(level, start);
    }
  }

  /** What a round prints: the error line when the IRQ status is not 0x80, the time-out
      line, or else the second status check, the dump of the FIFO and the RSSI line. */
  lemma RoundConsole(chip: Chip, base: nat, p: Outcome)
    ensures Console(Effects(chip, base, p))
            == match p
               case Rejected(s) => RejectedText(s)
               case TimedOut => TimedOutText
               case Responded =>
                 (if chip.miso(base + 9, 1) != 0x80 then IrqErrorText(chip.miso(base + 9, 1)) else "")
                 + Dump(Reply(chip, base + 11, 11)) + RssiText(chip.miso(base + 13, 1))
  {
    var middle := if p.Rejected? then [Printed(RejectedText(p.status))] else AwaitEffects(chip, base + 8, p);
    JoinedAround(Pause(SetupPauseUs), middle, Pause(RoundGapUs), Text);
    match p
    case Rejected(s) =>
      ConsolePrinted([], RejectedText(s));
    case TimedOut =>
      ConsolePrinted([], TimedOutText);
    case Responded =>
      var status := chip.miso(base + 9, 1);
      var check := IrqCheckEffects(status);
      ConsolePrinted(check + [Printed(Dump(Reply(chip, base + 11, 11)))], RssiText(chip.miso(base + 13, 1)));
      ConsolePrinted(check, Dump(Reply(chip, base + 11, 11)));
      if status != 0x80 {
        ConsolePrinted([], IrqErrorText(status));
      }
  }

  /** A line printed after a log adds its text to the output. */
  lemma ConsolePrinted(log: seq<Effect>, text: string)
    ensures Console(log + [Printed(text)]) == Console(log) + text
    ensures log == [] ==> Console([Printed(text)]) == text
  {
    JoinedThen(log, Printed(text), Text);
    JoinedOne(Printed(text), Text);
  }
}
