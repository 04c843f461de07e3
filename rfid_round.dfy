/**
 * One pass of the `while(1)` loop of `main` in BBB_RFID.c: a single-slot ISO/IEC 15693
 * inventory through the TRF7960, followed by UID capture, classification against the known
 * tags and the clean-up frames.
 *
 * The chip is the oracle `Chip` of the bus and the IRQ line the oracle `level` of the line,
 * so the whole round is determined by them: `PathOf` says which way the round goes, `Frames`
 * which frames it sends on that way and `Effects` what else it does, in order.
 */
module RfidLoop {
  import opened Bytes
  import opened Wrappers
  import opened Format
  import opened Iso15693
  import opened Trf7960
  import opened Tags
  import opened Spi
  import opened Irq

  /** `sleep(1)` after a round that captured a UID. */
  const CooldownUs: nat := 1000000
  /** `usleep(500*1000)` at the end of every round. */
  const RoundGapUs: nat := 500000

  /** The way a round goes. */
  datatype Path =
    | Rejected(status: byte)   // the IRQ status after the inventory was not 0x80
    | TimedOut                 // the bounded wait for the response used up its countdown
    | NoUid(count: byte)       // the FIFO did not hold the 10 bytes of a response
    | Captured(uid: Uid)       // a UID was read out of the FIFO

  /** What the process does besides talking to the chip and polling the IRQ line. */
  datatype Effect =
    | Pause(us: nat)               // `usleep` or `sleep`
    | UidFileWritten(text: string) // `uid.txt` opened for writing, `text` written, closed
    | Announced(uid: Uid)          // the `memcmp` chain run on a captured UID
    | RssiPrinted(level: byte)     // `printf("rssi: %d\n\n", level)`

  /** The frames sent once the response has come in: the FIFO is read only when a UID is
      captured, and the clean-up frames always follow. */
  function ResponseFrames(p: Path): seq<Frame> {
    ProbeFrames + (if p.Captured? then [ReadFifoFrame] else []) + CleanupFrames
  }

  /** The frames sent after an IRQ status of 0x80: the FIFO reset, then the response frames
      unless the wait times out. */
  function AwaitFrames(p: Path): seq<Frame> {
    [ResetFifoFrame] + if p.TimedOut? then [] else ResponseFrames(p)
  }

  /** The frames a round sends along path `p`, in order. */
  function Frames(p: Path): seq<Frame> {
    StartFrames + QueryFrames + ConcludeFrames(p)
  }

  /** The frames sent after the IRQ status has been read: none unless it was 0x80. */
  function ConcludeFrames(p: Path): seq<Frame> {
    if p.Rejected? then [] else AwaitFrames(p)
  }

  /** The read count right after the unbounded wait that follows the Inventory request. */
  ghost function WaitEnd(level: nat -> bool, start: nat): nat
    requires EventuallyHigh(level, start)
  {
    NextHigh(level, start) + 1
  }

  /** How many reads of the IRQ line a round makes after the unbounded wait, when read `from`
      is the first of them: none unless the IRQ status was 0x80, and otherwise those of the
      bounded wait. */
  function ConcludePolls(level: nat -> bool, from: nat, p: Path): nat {
    if p.Rejected? then 0 else PollsUntilHigh(level, from, Budget)
  }

  /** The path of a round whose first exchange is number `base` on the bus and whose first
      read of the IRQ line is number `start`. Exchange `base + 7` reads the IRQ status after
      the wait, and the response, if any, is probed from exchange `base + 9` on. */
  ghost function PathOf(chip: Chip, base: nat, level: nat -> bool, start: nat): Path
    requires EventuallyHigh(level, start)
  {
    ConcludeOf(chip.miso(base + 7, 1), chip, base + 8, level, WaitEnd(level, start))
  }

  /** The path once the IRQ status `status` has been read, when exchange `k` is the next on
      the bus and read `from` the next of the IRQ line. */
  function ConcludeOf(status: byte, chip: Chip, k: nat, level: nat -> bool, from: nat): Path {
    if status != 0x80 then Rejected(status) else AwaitOf(chip, k, level, from)
  }

  /** The path after an IRQ status of 0x80, when exchange `k` resets the FIFO and read
      `from` is the first of the bounded wait. */
  function AwaitOf(chip: Chip, k: nat, level: nat -> bool, from: nat): (p: Path)
    ensures !p.Rejected?
  {
    if PollsUntilHigh(level, from, Budget) == Budget then TimedOut
    else ResponseOf(chip, k + 1)
  }

  /** What the round finds in the FIFO when the response has come in and exchange `k` is the
      IRQ-status read that follows: exchange `k + 1` reads the FIFO status and `k + 2` the
      FIFO. */
  function ResponseOf(chip: Chip, k: nat): (p: Path)
    ensures p.NoUid? || p.Captured?
  {
    var count := chip.miso(k + 1, 1);
    if count != 10 then NoUid(count)
    else Captured(UidOf(Reply(chip, k + 2, 11)))
  }

  /** The number of the exchange that reads the RSSI level, the second clean-up frame, when
      exchange `k` is the first of `ResponseFrames(p)`. */
  function RssiExchange(k: nat, p: Path): nat {
    k + |ProbeFrames| + (if p.Captured? then 1 else 0) + 1
  }

  /** What happens once a UID `u` is captured: `uid.txt` is rewritten, then the `memcmp`
      chain runs on `u`. */
  function CaptureEffects(u: Uid): seq<Effect> {
    [UidFileWritten(UidFileText(u)), Announced(u)]
  }

  /** The effects of a round along a path `p` that got a response, when exchange `k` is the
      first of `ResponseFrames(p)`: the capture, the RSSI line, and the one-second pause that
      follows a capture. */
  function ResponseEffects(chip: Chip, k: nat, p: Path): seq<Effect> {
    (if p.Captured? then CaptureEffects(p.uid) else [])
    + [RssiPrinted(chip.miso(RssiExchange(k, p), 1))]
    + (if p.Captured? then [Pause(CooldownUs)] else [])
  }

  /** The effects after an IRQ status of 0x80, when exchange `k` resets the FIFO. */
  function AwaitEffects(chip: Chip, k: nat, p: Path): seq<Effect> {
    if p.TimedOut? then [] else ResponseEffects(chip, k + 1, p)
  }

  /** The effects of a round along path `p`, in order. */
  function Effects(chip: Chip, base: nat, p: Path): seq<Effect> {
    [Pause(SetupPauseUs)] + ConcludeEffects(chip, base + 8, p)
  }

  /** The effects after the IRQ status has been read, when exchange `k` is the next on the
      bus: those after a status of 0x80, then the pause before the next round. */
  function ConcludeEffects(chip: Chip, k: nat, p: Path): seq<Effect> {
    (if p.Rejected? then [] else AwaitEffects(chip, k, p)) + [Pause(RoundGapUs)]
  }

  /** `printf("rssi: %d\n\n", level)`. */
  function RssiText(level: byte): string {
    "rssi: " + Decimal(level as nat) + "\n\n"
  }

  /** What an effect prints on standard output. */
  function Text(e: Effect): string {
    match e
    case Announced(u) => Message(u)
    case RssiPrinted(level) => RssiText(level)
    case _ => ""
  }

  /** Everything a sequence of effects prints, in order. */
  function Console(log: seq<Effect>): string {
    Joined(log, Text)
  }

  /** Whether an effect starts the video stream: the `memcmp` chain does for the `Me` UID. */
  predicate Launches(e: Effect) {
    e.Announced? && Classify(e.uid) == Some(Me)
  }

  /** How many times a sequence of effects starts the video stream. */
  function LaunchCount(log: seq<Effect>): nat
    decreases |log|
  {
    if log == [] then 0 else LaunchCount(log[..|log| - 1]) + if Launches(log[|log| - 1]) then 1 else 0
  }

  /** The state of `main` that survives from one round to the next. */
  class Reader {
    const bus: SpiBus
    const irq: IrqLine
    /** `uid[10]`: a capture writes its first eight bytes. */
    const uid: array<byte>
    var timeout: nat
    var irqStatus: bool
    var wFlag: bool
    /** Everything the process has done besides the bus and the IRQ line, in order. */
    var log: seq<Effect>

    /** Between rounds `wFlag` is 0: a round that sets it clears it again. */
    predicate Valid()
      reads this
    {
      uid.Length == 10 && !wFlag
    }

    constructor (chip: Chip, level: nat -> bool)
      ensures Valid() && fresh(bus) && fresh(irq) && fresh(uid)
      ensures bus.chip == chip && bus.sent == [] && irq.level == level && irq.polls == 0
      ensures uid[..] == seq(10, _ => 0)
      ensures timeout == 0 && !irqStatus && log == []
    {
      bus := new SpiBus(chip);
      irq := new IrqLine(level);
      uid := new byte[10](_ => 0);
      timeout, irqStatus, wFlag, log := 0, false, false, [];
    }

    /** The `uid_cnt` loop: copies the UID out of the FIFO reply in reverse and builds the
        line written to `uid.txt`. */
    method CaptureUid(rx9: seq<byte>) returns (line: string)
      requires |rx9| == 11 && uid.Length == 10
      modifies uid
      ensures uid[..8] == UidOf(rx9) && uid[8..] == old(uid[8..])
      ensures line == UidFileText(UidOf(rx9))
    {
      ghost var want := UidOf(rx9);
      var i := 0;
      line := "";
      while i < 8
        invariant 0 <= i <= 8
        invariant uid[..i] == want[..i] && uid[8..] == old(uid[8..])
        invariant line == HexString(want[..i])
      {
        uid[i] := rx9[10 - i];
        assert want[..i + 1] == want[..i] + [uid[i]];
        HexStringSnoc(want[..i], uid[i]);
        line := line + Hex2(uid[i]);
        i := i + 1;
      }
      line := line + "\n";
    }

    /** Software initialisation, idle and the chip set-up write, then the 1 ms pause. */
    method Setup() returns (ok: bool)
      modifies this, bus
      ensures Sent(bus.chip, old(bus.sent), bus.sent, StartFrames, ok)
      ensures ok ==> log == old(log) + [Pause(SetupPauseUs)]
      ensures timeout == old(timeout) && irqStatus == old(irqStatus) && wFlag == old(wFlag)
    {
      ghost var s0 := bus.sent;
      var rx01;
      ok, rx01 := bus.TransferStep(SoftInitFrame, s0, StartFrames, 0);
      if !ok { return; }
      var rx02;
      ok, rx02 := bus.TransferStep(IdleFrame, s0, StartFrames, 1);
      if !ok { return; }
      var rx03;
      ok, rx03 := bus.TransferStep(ChipSetupFrame, s0, StartFrames, 2);
      if !ok { return; }
      assert StartFrames[..3] == StartFrames;
      log := log + [Pause(SetupPauseUs)];
    }

    /** The Inventory request, the unbounded wait for the IRQ line after it and the IRQ-status
        read; `status` is the IRQ status read last. */
    method Query() returns (ok: bool, status: byte)
      requires EventuallyHigh(irq.level, irq.polls)
      modifies this, bus, irq
      ensures Sent(bus.chip, old(bus.sent), bus.sent, QueryFrames, ok)
      ensures ok ==> status == bus.chip.miso(|old(bus.sent)| + 4, 1)
                     && irq.polls == WaitEnd(irq.level, old(irq.polls)) && irqStatus
      ensures timeout == old(timeout) && wFlag == old(wFlag) && log == old(log)
    {
      ghost var s0 := bus.sent;
      status := 0;
      var rx;
      ok, rx := bus.TransferStep(SysClkFrame, s0, QueryFrames, 0);
      if !ok { return; }
      var rx2;
      ok, rx2 := bus.TransferStep(NoResponseWaitFrame, s0, QueryFrames, 1);
      if !ok { return; }
      var rx3;
      ok, rx3 := bus.TransferStep(ReadIrqStatusFrame, s0, QueryFrames, 2);
      if !ok { return; }
      var rx4;
      ok, rx4 := bus.TransferStep(InventoryFrame, s0, QueryFrames, 3);
      if !ok { return; }
      irqStatus := WaitUnbounded(irq, false);
      var rx5;
      ok, rx5 := bus.TransferStep(ReadIrqStatusFrame, s0, QueryFrames, 4);
      if !ok { return; }
      assert QueryFrames[..5] == QueryFrames;
      status := rx5[1];
    }

    /** The IRQ-status and FIFO-status reads after the response; `count` is the number of
        bytes the FIFO holds. The IRQ status is compared with 0x40 only by a print that is
        commented out, so it has no effect. */
    method Probe() returns (ok: bool, count: byte)
      modifies bus
      ensures Sent(bus.chip, old(bus.sent), bus.sent, ProbeFrames, ok)
      ensures ok ==> count == bus.chip.miso(|old(bus.sent)| + 1, 1)
    {
      ghost var s0 := bus.sent;
      count := 0;
      var rx7;
      ok, rx7 := bus.TransferStep(ReadIrqStatusFrame, s0, ProbeFrames, 0);
      if !ok { return; }
      var rx8;
      ok, rx8 := bus.TransferStep(ReadFifoStatusFrame, s0, ProbeFrames, 1);
      if !ok { return; }
      assert ProbeFrames[..2] == ProbeFrames;
      count := rx8[1];
    }

    /** Reads the FIFO, keeps the UID it holds and reacts to it: `uid.txt`, the console
        line, the video stream for `Me`, and `wFlag`. */
    method ReadUid() returns (ok: bool)
      requires uid.Length == 10
      modifies this, bus, uid
      ensures Sent(bus.chip, old(bus.sent), bus.sent, [ReadFifoFrame], ok)
      ensures ok ==> var u := UidOf(Reply(bus.chip, |old(bus.sent)|, 11));
                     uid[..8] == u && uid[8..] == old(uid[8..]) && log == old(log) + CaptureEffects(u) && wFlag
      ensures timeout == old(timeout) && irqStatus == old(irqStatus)
    {
      ghost var s0 := bus.sent;
      var rx9;
      ok, rx9 := bus.TransferStep(ReadFifoFrame, s0, [ReadFifoFrame], 0);
      if !ok { return; }
      assert [ReadFifoFrame][..1] == [ReadFifoFrame];
      var line := CaptureUid(rx9);
      log := log + [UidFileWritten(line), Announced(uid[..8])];
      wFlag := true;
    }

    /** The clean-up frames, printing the RSSI level read by the second of them. */
    method Cleanup() returns (ok: bool)
      modifies this, bus
      ensures Sent(bus.chip, old(bus.sent), bus.sent, CleanupFrames, ok)
      ensures ok ==> log == old(log) + [RssiPrinted(bus.chip.miso(|old(bus.sent)| + 1, 1))]
      ensures wFlag == old(wFlag) && timeout == old(timeout) && irqStatus == old(irqStatus)
    {
      ghost var s0 := bus.sent;
      var rx15;
      ok, rx15 := bus.TransferStep(ResetFifoFrame, s0, CleanupFrames, 0);
      if !ok { return; }
      var rx16;
      ok, rx16 := bus.TransferStep(ReadRssiFrame, s0, CleanupFrames, 1);
      if !ok { return; }
      log := log + [RssiPrinted(rx16[1])];
      var rx17;
      ok, rx17 := bus.TransferStep(ResetFifoFrame, s0, CleanupFrames, 2);
      if !ok { return; }
      var rx18;
      ok, rx18 := bus.TransferStep(BlockReceiverFrame, s0, CleanupFrames, 3);
      if !ok { return; }
      var rx19;
      ok, rx19 := bus.TransferStep(ReadIrqStatusSingleFrame, s0, CleanupFrames, 4);
      if !ok { return; }
      var rx20;
      ok, rx20 := bus.TransferStep(TransmitterOffFrame, s0, CleanupFrames, 5);
      if !ok { return; }
      assert CleanupFrames[..6] == CleanupFrames;
    }

    /** Everything after a bounded wait that did not time out: the IRQ-status and FIFO-status
        reads, the FIFO read and its UID when the FIFO holds 10 bytes, the clean-up frames,
        and the one-second pause when a UID was captured. */
    method Respond() returns (ok: bool, ghost q: Path)
      requires uid.Length == 10 && !wFlag && irqStatus
      modifies this, bus, uid
      ensures q == ResponseOf(bus.chip, |old(bus.sent)|)
      ensures Sent(bus.chip, old(bus.sent), bus.sent, ResponseFrames(q), ok)
      ensures ok ==> !wFlag && log == old(log) + ResponseEffects(bus.chip, |old(bus.sent)|, q)
      ensures ok ==> uid[8..] == old(uid[8..]) && uid[..8] == if q.Captured? then q.uid else old(uid[..8])
      ensures timeout == old(timeout) && irqStatus == old(irqStatus)
    {
      ghost var s0 := bus.sent;
      ghost var chip := bus.chip;
      ghost var l0 := log;
      q := ResponseOf(chip, |s0|);
      var count;
      ok, count := Probe();
      if !ok {
        AbortWithin(chip, s0, bus.sent, ProbeFrames, ResponseFrames(q));
        return;
      }
      ghost var done := ProbeFrames;
      ghost var capture: seq<Effect> := [];
      if irqStatus && count == 10 {
        ghost var s1 := bus.sent;
        ok := ReadUid();
        SentThen(chip, s0, s1, bus.sent, done, [ReadFifoFrame], ok);
        done := done + [ReadFifoFrame];
        if !ok {
          AbortWithin(chip, s0, bus.sent, done, ResponseFrames(q));
          return;
        }
        capture := CaptureEffects(q.uid);
      } else {
        assert l0 + capture == l0;
      }
      assert ResponseFrames(q) == done + CleanupFrames;
      ghost var s2 := bus.sent;
      ghost var l2 := log;
      assert l2 == l0 + capture && |s2| + 1 == RssiExchange(|s0|, q);
      ok := Cleanup();
      SentThen(chip, s0, s2, bus.sent, done, CleanupFrames, ok);
      if !ok { return; }
      ghost var rssi := [RssiPrinted(chip.miso(|s2| + 1, 1))];
      ghost var pause: seq<Effect> := [];
      if wFlag {
        wFlag := false;
        log := log + [Pause(CooldownUs)];
        pause := [Pause(CooldownUs)];
      } else {
        assert log + pause == log;
      }
      assert log == ((l0 + capture) + rssi) + pause;
      AppendAssoc(l0, capture, rssi, pause);
    }

    /** The bounded wait for the response: the countdown `timeout` starts at `Budget`, and
        `irqStatus` is the last level read, which is high unless the countdown ran out. */
    method Listen()
      requires timeout == Budget
      modifies this, irq
      ensures var n := PollsUntilHigh(irq.level, old(irq.polls), Budget);
              irq.polls == old(irq.polls) + n && timeout == Budget - n
              && irqStatus == (n < Budget || irq.level(irq.polls - 1))
      ensures wFlag == old(wFlag) && log == old(log)
    {
      irqStatus, timeout := WaitBounded(irq, timeout);
    }

    /** What follows an IRQ status of 0x80: the FIFO reset, the bounded wait for the
        response and, unless it times out, the response. */
    method Await() returns (ok: bool, ghost q: Path)
      requires uid.Length == 10 && !wFlag && timeout == Budget
      modifies this, bus, irq, uid
      ensures q == AwaitOf(bus.chip, |old(bus.sent)|, irq.level, old(irq.polls))
      ensures Sent(bus.chip, old(bus.sent), bus.sent, AwaitFrames(q), ok)
      ensures ok ==> !wFlag && log == old(log) + AwaitEffects(bus.chip, |old(bus.sent)|, q)
      ensures ok ==> uid[8..] == old(uid[8..]) && uid[..8] == if q.Captured? then q.uid else old(uid[..8])
      ensures ok ==> var n := PollsUntilHigh(irq.level, old(irq.polls), Budget);
                     irq.polls == old(irq.polls) + n && timeout == Budget - n
                     && irqStatus == (q.TimedOut? ==> irq.level(irq.polls - 1))
    {
      ghost var s0 := bus.sent;
      ghost var chip := bus.chip;
      ghost var l0 := log;
      ghost var u0 := uid[..8];
      ghost var v0 := uid[8..];
      q := AwaitOf(chip, |s0|, irq.level, irq.polls);
      var rx6;
      ok, rx6 := bus.TransferStep(ResetFifoFrame, s0, [ResetFifoFrame], 0);
      assert AwaitFrames(q)[..1] == [ResetFifoFrame];
      if !ok {
        AbortWithin(chip, s0, bus.sent, [ResetFifoFrame], AwaitFrames(q));
        return;
      }
      Listen();
      if timeout == 0 {
        assert q == TimedOut;
        assert AwaitFrames(q) == [ResetFifoFrame] && AwaitEffects(chip, |s0|, q) == [];
        assert [ResetFifoFrame][..1] == [ResetFifoFrame];
        assert log == l0 + [];
        return;
      }
      ghost var s1 := bus.sent;
      assert q == ResponseOf(chip, |s0| + 1);
      assert |s1| == |s0| + 1 && log == l0 && uid[..8] == u0 && uid[8..] == v0;
      ghost var q';
      ok, q' := Respond();
      assert AwaitFrames(q) == [ResetFifoFrame] + ResponseFrames(q);
      assert AwaitFrames(q)[..1] == [ResetFifoFrame];
      SentThen(chip, s0, s1, bus.sent, [ResetFifoFrame], ResponseFrames(q), ok);
      assert ok ==> log == l0 + ResponseEffects(chip, |s1|, q);
    }

    /** The top of a round: the countdown reset, the set-up, the Inventory request and the
        wait for its IRQ. `status` is the IRQ status read after it. */
    method Prepare() returns (ok: bool, status: byte)
      requires EventuallyHigh(irq.level, irq.polls)
      modifies this, bus, irq
      ensures Sent(bus.chip, old(bus.sent), bus.sent, StartFrames + QueryFrames, ok)
      ensures ok ==> status == bus.chip.miso(|old(bus.sent)| + 7, 1)
                     && irq.polls == WaitEnd(irq.level, old(irq.polls)) && irqStatus
                     && timeout == Budget && log == old(log) + [Pause(SetupPauseUs)]
      ensures wFlag == old(wFlag)
    {
      ghost var s0 := bus.sent;
      ghost var chip := bus.chip;
      timeout := Budget;
      ok := Setup();
      if !ok {
        status := 0;
        AbortWithin(chip, s0, bus.sent, StartFrames, StartFrames + QueryFrames);
        return;
      }
      ghost var s1 := bus.sent;
      ok, status := Query();
      SentThen(chip, s0, s1, bus.sent, StartFrames, QueryFrames, ok);
    }

    /** The rest of a round once the IRQ status `status` has been read: what follows a
        status of 0x80, then the half-second pause. */
    method Conclude(status: byte) returns (ok: bool, ghost q: Path)
      requires uid.Length == 10 && !wFlag && irqStatus && timeout == Budget
      modifies this, bus, irq, uid
      ensures q == ConcludeOf(status, bus.chip, |old(bus.sent)|, irq.level, old(irq.polls))
      ensures Sent(bus.chip, old(bus.sent), bus.sent, ConcludeFrames(q), ok)
      ensures ok ==> !wFlag && log == old(log) + ConcludeEffects(bus.chip, |old(bus.sent)|, q)
      ensures ok ==> uid[8..] == old(uid[8..]) && uid[..8] == if q.Captured? then q.uid else old(uid[..8])
      ensures ok ==> var n := ConcludePolls(irq.level, old(irq.polls), q);
                     irq.polls == old(irq.polls) + n && timeout == Budget - n
                     && irqStatus == (q.TimedOut? ==> irq.level(irq.polls - 1))
    {
      ghost var s0 := bus.sent;
      ghost var chip := bus.chip;
      ghost var l0 := log;
      q := ConcludeOf(status, chip, |s0|, irq.level, irq.polls);
      ok := true;
      ghost var middle: seq<Effect> := [];
      if status == 0x80 {
        ok, q := Await();
        if !ok { return; }
        middle := AwaitEffects(chip, |s0|, q);
      } else {
        assert l0 + middle == l0;
      }
      log := log + [Pause(RoundGapUs)];
      Append3(l0, middle, [Pause(RoundGapUs)]);
    }

    /** One round. Unless an exchange aborts the process, the frames of `Frames(p)` have all
        been sent and the effects of `Effects(p)` have all happened. */
    method Round() returns (aborted: bool, ghost p: Path)
      requires Valid() && EventuallyHigh(irq.level, irq.polls)
      modifies this, bus, irq, uid
      ensures p == PathOf(bus.chip, |old(bus.sent)|, irq.level, old(irq.polls))
      ensures Sent(bus.chip, old(bus.sent), bus.sent, Frames(p), !aborted)
      ensures !aborted ==> Valid() && log == old(log) + Effects(bus.chip, |old(bus.sent)|, p)
      ensures !aborted ==> uid[8..] == old(uid[8..]) && uid[..8] == if p.Captured? then p.uid else old(uid[..8])
      ensures !aborted ==> var w := WaitEnd(irq.level, old(irq.polls));
                           var n := ConcludePolls(irq.level, w, p);
                           irq.polls == w + n && timeout == Budget - n
                           && irqStatus == (p.TimedOut? ==> irq.level(irq.polls - 1))
    {
      ghost var s0 := bus.sent;
      ghost var chip := bus.chip;
      ghost var start := irq.polls;
      ghost var l0 := log;
      p := PathOf(chip, |s0|, irq.level, start);
      var ok, status := Prepare();
      if !ok {
        AbortWithin(chip, s0, bus.sent, StartFrames + QueryFrames, Frames(p));
        return true, p;
      }
      ghost var s1 := bus.sent;
      assert |s1| == |s0| + 8;
      ghost var q;
      ok, q := Conclude(status);
      assert q == p;
      SentThen(chip, s0, s1, bus.sent, StartFrames + QueryFrames, ConcludeFrames(q), ok);
      aborted := !ok;
      if ok {
        Append3(l0, [Pause(SetupPauseUs)], ConcludeEffects(chip, |s1|, q));
      }
    }
  }

  /** Every round opens with the same seven frames, whichever way it goes. */
  lemma RoundOpening(p: Path)
    ensures |Frames(p)| >= 8 && Frames(p)[..7] == InitFrames
    ensures Frames(p)[..7] == [SoftInitFrame, IdleFrame, ChipSetupFrame, SysClkFrame,
                               NoResponseWaitFrame, ReadIrqStatusFrame, InventoryFrame]
    ensures Frames(p)[7] == ReadIrqStatusFrame
  {
    assert Frames(p) == InitFrames + ([ReadIrqStatusFrame] + ConcludeFrames(p));
  }

  /** Which frames each path sends after the IRQ-status read: none when the status is not
      0x80, only the FIFO reset when the wait times out, and otherwise the status reads, the
      FIFO read exactly when a UID is captured, and the clean-up frames. */
  lemma RoundFrames(p: Path)
    ensures p.Rejected? <==> Frames(p) == StartFrames + QueryFrames
    ensures p.TimedOut? ==> Frames(p) == StartFrames + QueryFrames + [ResetFifoFrame]
    ensures (p.NoUid? || p.Captured?)
            ==> Frames(p) == StartFrames + QueryFrames + [ResetFifoFrame] + ProbeFrames
                             + (if p.Captured? then [ReadFifoFrame] else []) + CleanupFrames
  {
    if !p.Rejected? {
      assert |Frames(p)| > |StartFrames + QueryFrames|;
    }
  }

  /** The FIFO is read exactly on the path that captures a UID. */
  lemma FifoReadOnCapture(p: Path)
    ensures ReadFifoFrame in Frames(p) <==> p.Captured?
  {
    RoundFrames(p);
    if p.Captured? {
      assert Frames(p)[11] == ReadFifoFrame;
    } else {
      assert ReadFifoFrame !in StartFrames + QueryFrames + [ResetFifoFrame] + ProbeFrames + CleanupFrames;
    }
  }

  /** The round closes with the clean-up frames exactly when the response came in, whether
      or not a UID was read. */
  lemma CleanupOnResponse(p: Path)
    ensures (p.NoUid? || p.Captured?)
            <==> |Frames(p)| >= |CleanupFrames| && Frames(p)[|Frames(p)| - |CleanupFrames|..] == CleanupFrames
  {
    RoundFrames(p);
    var f := Frames(p);
    if p.Rejected? || p.TimedOut? {
      assert f[|f| - 1] != TransmitterOffFrame;
    }
  }

  /** The path in terms of what the round reads: the IRQ status from exchange `base + 7`,
      the bounded wait that starts right after the unbounded one, and the FIFO count from
      exchange `base + 10`; the UID comes out of the reply to exchange `base + 11`. */
  lemma PathConditions(chip: Chip, base: nat, level: nat -> bool, start: nat)
    requires EventuallyHigh(level, start)
    ensures var p := PathOf(chip, base, level, start);
            var from := WaitEnd(level, start);
            && (p.Rejected? <==> chip.miso(base + 7, 1) != 0x80)
            && (p.TimedOut? <==> chip.miso(base + 7, 1) == 0x80
                                 && forall k :: from <= k < from + Budget - 1 ==> !level(k))
            && (p.Captured? <==> chip.miso(base + 7, 1) == 0x80 && PollsUntilHigh(level, from, Budget) < Budget
                                 && chip.miso(base + 10, 1) == 10)
            && (p.Captured? ==> p.uid == UidOf(Reply(chip, base + 11, 11)))
  {
    SpentIff(level, WaitEnd(level, start), Budget);
  }

  /** Counting launches distributes over appending logs. */
  lemma {:induction false} LaunchCountAppend(a: seq<Effect>, b: seq<Effect>)
    ensures LaunchCount(a + b) == LaunchCount(a) + LaunchCount(b)
    decreases |b|
  {
    if b != [] {
      LaunchCountAppend(a, b[..|b| - 1]);
      assert (a + b)[..|a + b| - 1] == a + b[..|b| - 1];
    } else {
      assert a + b == a;
    }
  }

  /** A round starts the video stream once when it captures the `Me` UID, and never
      otherwise. */
  lemma RoundLaunches(chip: Chip, base: nat, p: Path)
    ensures LaunchCount(Effects(chip, base, p)) == if p.Captured? && p.uid == MeUid then 1 else 0
  {
    var rest := if p.Rejected? then [] else AwaitEffects(chip, base + 8, p);
    LaunchCountAppend([Pause(SetupPauseUs)], rest + [Pause(RoundGapUs)]);
    LaunchCountAppend(rest, [Pause(RoundGapUs)]);
    assert LaunchCount([Pause(SetupPauseUs)]) == 0 && LaunchCount([Pause(RoundGapUs)]) == 0;
    if p.NoUid? || p.Captured? {
      var k := base + 9;
      var capture := if p.Captured? then CaptureEffects(p.uid) else [];
      var rssi := [RssiPrinted(chip.miso(RssiExchange(k, p), 1))];
      var cool := if p.Captured? then [Pause(CooldownUs)] else [];
      LaunchCountAppend(capture + rssi, cool);
      LaunchCountAppend(capture, rssi);
      assert LaunchCount(rssi) == 0 && LaunchCount(cool) == 0;
      if p.Captured? {
        CaptureLaunches(p.uid);
      }
    }
  }

  /** Capturing a UID starts the video stream once when it is the `Me` UID. */
  lemma CaptureLaunches(u: Uid)
    ensures LaunchCount(CaptureEffects(u)) == if u == MeUid then 1 else 0
  {
    var ce := CaptureEffects(u);
    TriggerOnlyForMe(u);
    assert ce[..1][..0] == [];
    assert LaunchCount(ce[..1]) == 0;
    assert LaunchCount(ce) == LaunchCount(ce[..1]) + if Launches(ce[1]) then 1 else 0;
  }

  /** What a round does besides the bus, path by path: the set-up pause, then on a response
      the capture (`uid.txt`, the `memcmp` chain), the RSSI line and the one-second pause
      after a capture, and always the half-second pause. */
  lemma RoundEffects(chip: Chip, base: nat, p: Path)
    ensures var level := chip.miso(RssiExchange(base + 9, p), 1);
            Effects(chip, base, p)
            == match p
               case Rejected(_) => [Pause(SetupPauseUs), Pause(RoundGapUs)]
               case TimedOut => [Pause(SetupPauseUs), Pause(RoundGapUs)]
               case NoUid(_) => [Pause(SetupPauseUs), RssiPrinted(level), Pause(RoundGapUs)]
               case Captured(u) => [Pause(SetupPauseUs), UidFileWritten(UidFileText(u)), Announced(u),
                                    RssiPrinted(level), Pause(CooldownUs), Pause(RoundGapUs)]
  {
  }

  /** `uid.txt` is rewritten exactly in the rounds that capture a UID, with that UID's
      sixteen digits and a line break. */
  lemma RoundWritesUidFile(chip: Chip, base: nat, p: Path, text: string)
    ensures UidFileWritten(text) in Effects(chip, base, p) <==> p.Captured? && text == UidFileText(p.uid)
  {
    RoundEffects(chip, base, p);
  }

  /** The exchanges whose replies the round reads are the frames meant for them: exchange 7
      of a round reads the IRQ status, 8 resets the FIFO, 10 reads the FIFO status, 11 the
      FIFO when a UID is captured, and `RssiExchange` the RSSI level. */
  lemma ExchangeRoles(p: Path)
    ensures Frames(p)[7] == ReadIrqStatusFrame
    ensures !p.Rejected? ==> Frames(p)[8] == ResetFifoFrame
    ensures p.NoUid? || p.Captured?
            ==> Frames(p)[9] == ReadIrqStatusFrame && Frames(p)[10] == ReadFifoStatusFrame
                && RssiExchange(9, p) < |Frames(p)| && Frames(p)[RssiExchange(9, p)] == ReadRssiFrame
    ensures p.Captured? ==> Frames(p)[11] == ReadFifoFrame
  {
    RoundFrames(p);
  }

  /** What a round prints: the tag line when it captures a UID, and the RSSI line whenever
      the response came in. */
  lemma RoundConsole(chip: Chip, base: nat, p: Path)
    ensures Console(Effects(chip, base, p))
            == (if p.Captured? then Message(p.uid) else "")
               + (if p.NoUid? || p.Captured? then RssiText(chip.miso(RssiExchange(base + 9, p), 1)) else "")
  {
    var middle := if p.Rejected? then [] else AwaitEffects(chip, base + 8, p);
    JoinedAround(Pause(SetupPauseUs), middle, Pause(RoundGapUs), Text);
    if p.NoUid? || p.Captured? {
      ResponseConsole(chip, base + 9, p);
    } else {
      assert middle == [];
    }
  }

  /** What a round that got a response prints, when exchange `k` is the first of its
      response frames. */
  lemma ResponseConsole(chip: Chip, k: nat, p: Path)
    requires p.NoUid? || p.Captured?
    ensures Console(ResponseEffects(chip, k, p))
            == (if p.Captured? then Message(p.uid) else "") + RssiText(chip.miso(RssiExchange(k, p), 1))
  {
    var rssi := RssiPrinted(chip.miso(RssiExchange(k, p), 1));
    if p.Captured? {
      var written := UidFileWritten(UidFileText(p.uid));
      JoinedQuiet(written, Announced(p.uid), rssi, Pause(CooldownUs), Text);
      assert ResponseEffects(chip, k, p) == [written, Announced(p.uid), rssi, Pause(CooldownUs)];
    } else {
      JoinedOne(rssi, Text);
      assert ResponseEffects(chip, k, p) == [rssi];
    }
  }
}
