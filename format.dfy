/**
 * The text the programs print with `printf`: `%.2X` (two upper-case hexadecimal digits),
 * `%X` (upper-case hexadecimal without padding), `%d` (decimal), and the hex dump that
 * `transfer` prints when asked to.
 */
module Format {
  import opened Bytes

  predicate IsHexDigit(c: char) {
    '0' <= c <= '9' || 'A' <= c <= 'F'
  }

  /** Only upper-case hexadecimal digits. */
  predicate IsUpperHex(s: string) {
    forall i :: 0 <= i < |s| ==> IsHexDigit(s[i])
  }

  predicate IsDecimal(s: string) {
    forall i :: 0 <= i < |s| ==> '0' <= s[i] <= '9'
  }

  function HexDigit(d: nat): (c: char)
    requires d < 16
    ensures IsHexDigit(c)
  {
    if d < 10 then (48 + d) as char else (55 + d) as char
  }

  function DigitValue(c: char): (d: nat)
    requires IsHexDigit(c)
    ensures d < 16
    ensures HexDigit(d) == c
  {
    if c <= '9' then c as int - 48 else c as int - 55
  }

  lemma DigitRoundTrip(d: nat)
    requires d < 16
    ensures DigitValue(HexDigit(d)) == d
  {
  }

  /** The number a string of hexadecimal digits denotes, most significant digit first. */
  function HexValue(s: string): nat
    requires IsUpperHex(s)
  {
    if s == [] then 0 else HexValue(s[..|s| - 1]) * 16 + DigitValue(s[|s| - 1])
  }

  /** `%.2X`: a byte as exactly two upper-case hexadecimal digits. */
  function Hex2(b: byte): (r: string)
    ensures |r| == 2 && IsUpperHex(r)
    ensures HexValue(r) == b as int
  {
    var r := [HexDigit(b as int / 16), HexDigit(b as int % 16)];
    DigitRoundTrip(b as int / 16);
    DigitRoundTrip(b as int % 16);
    assert r[..1][..0] == [];
    assert HexValue(r[..1]) == DigitValue(r[0]);
    r
  }

  /** `%X` applied to a byte: its hexadecimal digits with no leading zero. */
  function HexNoPad(b: byte): (r: string)
    ensures 1 <= |r| <= 2 && IsUpperHex(r)
    ensures HexValue(r) == b as int
    ensures |r| == 2 ==> r[0] != '0'
  {
    if b < 16 then [HexDigit(b as int)] else Hex2(b)
  }

  /** The bytes printed one after the other with `%.2X`, no separator. */
  function HexString(bs: seq<byte>): (r: string)
    ensures |r| == 2 * |bs|
  {
    if bs == [] then [] else Hex2(bs[0]) + HexString(bs[1..])
  }

  /** Byte `i` stands at positions `2i` and `2i + 1` of the printed string, as its two
      digits, so the string is made of upper-case hexadecimal digits only. */
  lemma {:induction false} HexStringDigits(bs: seq<byte>)
    ensures IsUpperHex(HexString(bs))
    ensures forall i :: 0 <= i < |bs| ==> HexString(bs)[2 * i..2 * i + 2] == Hex2(bs[i])
  {
    if bs != [] {
      HexStringDigits(bs[1..]);
      var rest := HexString(bs[1..]);
      var r := HexString(bs);
      assert r == Hex2(bs[0]) + rest;
      forall i | 1 <= i < |bs|
        ensures r[2 * i..2 * i + 2] == Hex2(bs[i])
      {
        assert r[2 * i..2 * i + 2] == rest[2 * (i - 1)..2 * (i - 1) + 2];
      }
    }
  }

  /** Printing one more byte appends its two digits. */
  lemma {:induction false} HexStringSnoc(bs: seq<byte>, b: byte)
    ensures HexString(bs + [b]) == HexString(bs) + Hex2(b)
  {
    if bs != [] {
      assert (bs + [b])[1..] == bs[1..] + [b];
      HexStringSnoc(bs[1..], b);
    }
  }

  /** The byte two hexadecimal digits denote. */
  function ParseHex2(s: string): (b: byte)
    requires |s| == 2 && IsUpperHex(s)
  {
    (DigitValue(s[0]) * 16 + DigitValue(s[1])) as byte
  }

  lemma ParseHex2RoundTrip(b: byte)
    ensures ParseHex2(Hex2(b)) == b
  {
  }

  /** Reads back a string of hexadecimal digit pairs. */
  function ParseHex(s: string): (bs: seq<byte>)
    requires |s| % 2 == 0 && IsUpperHex(s)
    ensures |bs| == |s| / 2
  {
    if s == [] then [] else [ParseHex2(s[..2])] + ParseHex(s[2..])
  }

  /** Printing bytes with `%.2X` loses nothing: the digits read back as the same bytes. */
  lemma {:induction false} HexStringRoundTrip(bs: seq<byte>)
    ensures IsUpperHex(HexString(bs)) && ParseHex(HexString(bs)) == bs
  {
    HexStringDigits(bs);
    if bs != [] {
      var s := HexString(bs);
      assert s[..2] == Hex2(bs[0]);
      assert s[2..] == HexString(bs[1..]);
      ParseHex2RoundTrip(bs[0]);
      HexStringRoundTrip(bs[1..]);
    }
  }

  /** The number a string of decimal digits denotes. */
  function DecimalValue(s: string): nat
    requires IsDecimal(s)
  {
    if s == [] then 0 else DecimalValue(s[..|s| - 1]) * 10 + (s[|s| - 1] as int - 48)
  }

  /** `%d` applied to a non-negative number: its decimal digits with no leading zero. */
  function Decimal(n: nat): (r: string)
    ensures |r| >= 1 && IsDecimal(r)
    ensures |r| > 1 ==> r[0] != '0'
    ensures DecimalValue(r) == n
  {
    var last := [(48 + n % 10) as char];
    if n < 10 then last
    else
      var front := Decimal(n / 10);
      var r := front + last;
      assert r[..|r| - 1] == front;
      r
  }

  /** The hex dump of `rx[..n]`: before each byte whose index is a multiple of 6 a line
      break, then every byte as `%.2X` followed by a space. */
  function DumpUpTo(rx: seq<byte>, n: nat): string
    requires n <= |rx|
  {
    if n == 0 then ""
    else DumpUpTo(rx, n - 1) + Separator(n - 1) + Hex2(rx[n - 1]) + " "
  }

  /** What precedes the digits of byte `i` besides the bytes before it. */
  function Separator(i: nat): string {
    if i % 6 == 0 then "\n" else ""
  }

  /** The whole dump `transfer` prints: every byte, then one final line break. */
  function Dump(rx: seq<byte>): (r: string)
    ensures |r| > 0 && r[|r| - 1] == '\n'
  {
    DumpUpTo(rx, |rx|) + "\n"
  }

  /** Where the two digits of byte `i` stand in the dump. */
  function DumpOffset(i: nat): nat {
    3 * i + i / 6 + 1
  }

  /** Three characters per byte and one line break per started group of six. */
  lemma {:induction false} DumpLength(rx: seq<byte>, n: nat)
    requires n <= |rx|
    ensures |DumpUpTo(rx, n)| == 3 * n + (n + 5) / 6
  {
    if n > 0 {
      DumpLength(rx, n - 1);
    }
  }

  /** The digits of byte `i` start right after the dump of the bytes before it and the
      separator. */
  lemma DumpOffsetAfter(rx: seq<byte>, i: nat)
    requires i < |rx|
    ensures |DumpUpTo(rx, i) + Separator(i)| == DumpOffset(i)
  {
    DumpLength(rx, i);
  }

  /** Dumping more bytes only appends to the dump. */
  lemma {:induction false} DumpPrefix(rx: seq<byte>, m: nat, n: nat)
    requires m <= n <= |rx|
    ensures DumpUpTo(rx, m) <= DumpUpTo(rx, n)
    decreases n
  {
    if m < n {
      DumpPrefix(rx, m, n - 1);
      var p, q := DumpUpTo(rx, m), DumpUpTo(rx, n - 1);
      assert DumpUpTo(rx, n)[..|q|] == q;
      assert DumpUpTo(rx, n)[..|p|] == q[..|p|];
    }
  }

  /** The dump of the bytes up to and including byte `i` ends with the digits of byte `i` and
      a space, which follow a line break when `i` is a multiple of 6 and a space otherwise. */
  lemma DumpEnd(rx: seq<byte>, i: nat)
    requires i < |rx|
    ensures |DumpUpTo(rx, i + 1)| == DumpOffset(i) + 3
    ensures DumpUpTo(rx, i + 1)[DumpOffset(i)..] == Hex2(rx[i]) + " "
    ensures DumpUpTo(rx, i + 1)[DumpOffset(i) - 1] == if i % 6 == 0 then '\n' else ' '
  {
    var head := DumpUpTo(rx, i) + Separator(i);
    Append3(head, Hex2(rx[i]), " ");
    DumpOffsetAfter(rx, i);
    if i % 6 != 0 {
      var prev := DumpUpTo(rx, i);
      assert prev == DumpUpTo(rx, i - 1) + Separator(i - 1) + Hex2(rx[i - 1]) + " ";
      assert head[|head| - 1] == prev[|prev| - 1];
    }
  }

  /** Byte `i` appears in the dump at `DumpOffset(i)` as its two digits and a space, right
      after a line break when `i` is a multiple of 6 and after a space otherwise. */
  lemma DumpAt(rx: seq<byte>, n: nat, i: nat)
    requires i < n <= |rx|
    ensures DumpOffset(i) + 3 <= |DumpUpTo(rx, n)|
    ensures DumpUpTo(rx, n)[DumpOffset(i)..DumpOffset(i) + 3] == Hex2(rx[i]) + " "
    ensures DumpUpTo(rx, n)[DumpOffset(i) - 1] == if i % 6 == 0 then '\n' else ' '
  {
    var e := DumpUpTo(rx, i + 1);
    var d := DumpUpTo(rx, n);
    var o := DumpOffset(i);
    DumpEnd(rx, i);
    DumpPrefix(rx, i + 1, n);
    assert e == d[..o + 3];
    assert d[o..o + 3] == e[o..];
  }

  /** Reads the first `n` bytes back out of a dump. */
  function ParseDump(d: string, n: nat): (bs: seq<byte>)
    requires forall i :: 0 <= i < n ==> DumpOffset(i) + 2 <= |d| && IsUpperHex(d[DumpOffset(i)..DumpOffset(i) + 2])
    ensures |bs| == n
  {
    if n == 0 then [] else ParseDump(d, n - 1) + [ParseHex2(d[DumpOffset(n - 1)..DumpOffset(n - 1) + 2])]
  }

  /** The dump shows every byte: reading it back gives the reply that was dumped. */
  lemma {:induction false} DumpRoundTrip(rx: seq<byte>)
    ensures forall i :: 0 <= i < |rx| ==> DumpOffset(i) + 2 <= |Dump(rx)| && IsUpperHex(Dump(rx)[DumpOffset(i)..DumpOffset(i) + 2])
    ensures ParseDump(Dump(rx), |rx|) == rx
  {
    var d := Dump(rx);
    forall i | 0 <= i < |rx|
      ensures DumpOffset(i) + 2 <= |d| && d[DumpOffset(i)..DumpOffset(i) + 2] == Hex2(rx[i])
    {
      DumpAt(rx, |rx|, i);
      assert d[DumpOffset(i)..DumpOffset(i) + 2] == DumpUpTo(rx, |rx|)[DumpOffset(i)..DumpOffset(i) + 3][..2];
    }
    ParseDumpPrefix(rx, d, |rx|);
  }

  lemma {:induction false} ParseDumpPrefix(rx: seq<byte>, d: string, n: nat)
    requires n <= |rx|
    requires forall i :: 0 <= i < |rx| ==> DumpOffset(i) + 2 <= |d| && d[DumpOffset(i)..DumpOffset(i) + 2] == Hex2(rx[i])
    ensures forall i :: 0 <= i < n ==> IsUpperHex(d[DumpOffset(i)..DumpOffset(i) + 2])
    ensures ParseDump(d, n) == rx[..n]
  {
    if n > 0 {
      ParseDumpPrefix(rx, d, n - 1);
      ParseHex2RoundTrip(rx[n - 1]);
      assert rx[..n] == rx[..n - 1] + [rx[n - 1]];
    }
  }

  /** The texts of a sequence of items, one after the other: what a program prints when it
      prints `text(x)` for every `x` in turn. */
  function Joined<T>(items: seq<T>, text: T -> string): string
    decreases |items|
  {
    if items == [] then "" else Joined(items[..|items| - 1], text) + text(items[|items| - 1])
  }

  /** One more item adds its text at the end. */
  lemma JoinedThen<T>(items: seq<T>, x: T, text: T -> string)
    ensures Joined(items + [x], text) == Joined(items, text) + text(x)
  {
    assert (items + [x])[..|items|] == items;
  }

  /** Printing two sequences of items one after the other prints their texts one after the
      other. */
  lemma {:induction false} JoinedAppend<T>(a: seq<T>, b: seq<T>, text: T -> string)
    ensures Joined(a + b, text) == Joined(a, text) + Joined(b, text)
    decreases |b|
  {
    if b != [] {
      var front, x := b[..|b| - 1], b[|b| - 1];
      JoinedAppend(a, front, text);
      assert b == front + [x] && a + b == (a + front) + [x];
      JoinedThen(a + front, x, text);
      JoinedThen(front, x, text);
    } else {
      assert a + b == a;
    }
  }

  /** A single item prints its own text. */
  lemma JoinedOne<T>(x: T, text: T -> string)
    ensures Joined([x], text) == text(x)
  {
    JoinedThen([], x, text);
    assert [] + [x] == [x];
  }

  /** Two items between items that print nothing print one after the other. */
  lemma JoinedQuiet<T>(before: T, a: T, b: T, after: T, text: T -> string)
    requires text(before) == "" && text(after) == ""
    ensures Joined([before, a, b, after], text) == text(a) + text(b)
  {
    JoinedOne(before, text);
    JoinedThen([before], a, text);
    JoinedThen([before, a], b, text);
    JoinedThen([before, a, b], after, text);
    assert [before] + [a] == [before, a];
    assert [before, a] + [b] == [before, a, b];
    assert [before, a, b] + [after] == [before, a, b, after];
  }

  /** Items that print nothing around a sequence of items leave its text as it was. */
  lemma JoinedAround<T>(before: T, items: seq<T>, after: T, text: T -> string)
    requires text(before) == "" && text(after) == ""
    ensures Joined([before] + (items + [after]), text) == Joined(items, text)
  {
    JoinedAppend([before], items + [after], text);
    JoinedThen(items, after, text);
    JoinedOne(before, text);
  }
}
