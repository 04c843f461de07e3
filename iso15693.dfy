/**
 * The parts of ISO/IEC 15693-3 the inventory round relies on: the request flags byte
 * (section 7.3.1), the Inventory request (section 10.3.1) and the UID the tag returns
 * in its response, least significant byte first.
 */
module Iso15693 {
  import opened Bytes

  /** A tag's unique identifier, most significant byte first. */
  type Uid = s: seq<byte> | |s| == 8 witness [0, 0, 0, 0, 0, 0, 0, 0]

  /** Request flags 1 to 7 as they read when the Inventory flag is set; flag 8 is reserved. */
  datatype RequestFlags = RequestFlags(
    twoSubcarriers: bool,      // flag 1 (0x01)
    highDataRate: bool,        // flag 2 (0x02)
    inventory: bool,           // flag 3 (0x04)
    protocolExtension: bool,   // flag 4 (0x08)
    afi: bool,                 // flag 5 (0x10)
    oneSlot: bool,             // flag 6 (0x20), Nb_slots: set means one slot, clear 16 slots
    option: bool)              // flag 7 (0x40)

  function Pow2(n: nat): (p: nat)
    ensures p >= 1
  {
    if n == 0 then 1 else 2 * Pow2(n - 1)
  }

  /** The number whose binary digits, least significant first, are `bits`. */
  function BitsValue(bits: seq<bool>): (v: nat)
    ensures v < Pow2(|bits|)
  {
    if bits == [] then 0 else (if bits[0] then 1 else 0) + 2 * BitsValue(bits[1..])
  }

  /** The `n` lowest binary digits of `v`, least significant first. */
  function BitsOf(v: nat, n: nat): (bits: seq<bool>)
    ensures |bits| == n
  {
    if n == 0 then [] else [v % 2 == 1] + BitsOf(v / 2, n - 1)
  }

  lemma {:induction false} BitsOfValue(bits: seq<bool>)
    ensures BitsOf(BitsValue(bits), |bits|) == bits
  {
    if bits != [] {
      BitsOfValue(bits[1..]);
    }
  }

  lemma {:induction false} ValueOfBits(v: nat, n: nat)
    requires v < Pow2(n)
    ensures BitsValue(BitsOf(v, n)) == v
  {
    if n > 0 {
      ValueOfBits(v / 2, n - 1);
      assert BitsOf(v, n)[1..] == BitsOf(v / 2, n - 1);
    }
  }

  function FlagList(f: RequestFlags): (bits: seq<bool>)
    ensures |bits| == 7
  {
    [f.twoSubcarriers, f.highDataRate, f.inventory, f.protocolExtension, f.afi, f.oneSlot, f.option]
  }

  function EncodeFlags(f: RequestFlags): (b: byte)
    ensures b < 0x80
  {
    assert Pow2(7) == 0x80;
    BitsValue(FlagList(f)) as byte
  }

  /** Reads flags 1 to 7 of a flags byte. */
  function DecodeFlags(b: byte): RequestFlags {
    var bits := BitsOf(b as nat, 7);
    RequestFlags(bits[0], bits[1], bits[2], bits[3], bits[4], bits[5], bits[6])
  }

  /** Flags survive being encoded and decoded. */
  lemma DecodeEncodeFlags(f: RequestFlags)
    ensures DecodeFlags(EncodeFlags(f)) == f
  {
    BitsOfValue(FlagList(f));
  }

  /** A flags byte whose reserved bit is clear is exactly the encoding of its decoded flags. */
  lemma EncodeDecodeFlags(b: byte)
    requires b < 0x80
    ensures EncodeFlags(DecodeFlags(b)) == b
  {
    assert Pow2(7) == 0x80;
    ValueOfBits(b as nat, 7);
    assert FlagList(DecodeFlags(b)) == BitsOf(b as nat, 7);
  }

  /** The command code of Inventory. */
  const InventoryCommand: byte := 0x01

  /** A single-slot Inventory at the high data rate with one sub-carrier, no AFI and no option. */
  const SingleSlotInventory := RequestFlags(
    twoSubcarriers := false, highDataRate := true, inventory := true,
    protocolExtension := false, afi := false, oneSlot := true, option := false)

  /** The Inventory request without a mask: flags, command code, mask length 0. */
  function InventoryRequest(flags: RequestFlags): (r: seq<byte>)
    ensures |r| == 3 && r[1] == InventoryCommand && r[2] == 0
    ensures DecodeFlags(r[0]) == flags
  {
    DecodeEncodeFlags(flags);
    [EncodeFlags(flags), InventoryCommand, 0x00]
  }

  /** The request bytes `26 01 00` the reader sends are the single-slot Inventory. */
  lemma InventoryRequestBytes()
    ensures InventoryRequest(SingleSlotInventory) == [0x26, 0x01, 0x00]
    ensures DecodeFlags(0x26) == SingleSlotInventory
  {
  }

  /** A tag's Inventory response: response flags, DSFID, then the UID least significant
      byte first. */
  function InventoryResponse(flags: byte, dsfid: byte, uid: Uid): (r: seq<byte>)
    ensures |r| == 10
  {
    [flags, dsfid] + Reverse(uid)
  }

  /** The UID in an 11-byte FIFO read, whose byte 0 is clocked in while the address word
      goes out and whose bytes 1 to 10 are the response: `uid[i] = rx[10 - i]`, which is the
      last eight bytes of the read in reverse order. */
  function UidOf(rx: seq<byte>): (r: Uid)
    requires |rx| == 11
    ensures r == Reverse(rx[3..])
  {
    var r := seq(8, i requires 0 <= i < 8 => rx[10 - i]);
    assert forall i :: 0 <= i < 8 ==> r[i] == Reverse(rx[3..])[i];
    r
  }

  /** Reading the FIFO after a response recovers the tag's UID whatever the first three bytes. */
  lemma UidOfResponse(first: byte, flags: byte, dsfid: byte, uid: Uid)
    ensures UidOf([first] + InventoryResponse(flags, dsfid, uid)) == uid
  {
    var rx := [first] + InventoryResponse(flags, dsfid, uid);
    assert rx[3..] == Reverse(uid);
    ReverseReverse(uid);
  }

  /** Only reply bytes 3 to 10 decide the UID. */
  lemma UidDependsOnTailOnly(rx: seq<byte>, rx': seq<byte>)
    requires |rx| == 11 && |rx'| == 11
    ensures UidOf(rx) == UidOf(rx') <==> rx[3..] == rx'[3..]
  {
    if UidOf(rx) == UidOf(rx') {
      ReverseReverse(rx[3..]);
      ReverseReverse(rx'[3..]);
    }
  }
}
