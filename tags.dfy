/**
 * The known-tag table and what the detection loop does with a captured UID: the label it
 * prints, whether it starts the video stream, and the line it writes to `uid.txt`.
 */
module Tags {
  import opened Bytes
  import opened Wrappers
  import opened Format
  import opened Iso15693

  datatype Tag = Joker | QueenOfSpades | KingOfDiamonds | Me

  const JokerUid: Uid := [0xE0, 0x07, 0x00, 0x00, 0x14, 0xE0, 0x89, 0x2B]
  const QspadeUid: Uid := [0xE0, 0x07, 0x00, 0x00, 0x14, 0xE0, 0x89, 0x2C]
  const KdiamondUid: Uid := [0xE0, 0x07, 0x00, 0x00, 0x30, 0x92, 0x81, 0x13]
  /** The tag that starts the video stream. */
  const MeUid: Uid := [0xE0, 0x07, 0x00, 0x00, 0x03, 0x92, 0xA2, 0x86]

  /** The table in the order the comparisons are made. */
  const KnownTags: seq<(Uid, Tag)> :=
    [(JokerUid, Joker), (QspadeUid, QueenOfSpades), (KdiamondUid, KingOfDiamonds), (MeUid, Me)]

  /** The tag of the first entry whose UID equals `u` byte for byte. */
  function Lookup(table: seq<(Uid, Tag)>, u: Uid): (r: Option<Tag>)
    ensures r.Some? ==> exists i :: 0 <= i < |table| && table[i] == (u, r.value)
                                    && forall j :: 0 <= j < i ==> table[j].0 != u
    ensures r.None? ==> forall i :: 0 <= i < |table| ==> table[i].0 != u
  {
    if table == [] then None
    else if table[0].0 == u then Some(table[0].1)
    else
      var r := Lookup(table[1..], u);
      if r.Some? then
        var i :| 0 <= i < |table[1..]| && table[1..][i] == (u, r.value)
                 && forall j :: 0 <= j < i ==> table[1..][j].0 != u;
        assert table[i + 1] == (u, r.value);
        assert forall j :: 0 <= j < i + 1 ==> table[j].0 != u by {
          forall j | 0 <= j < i + 1 ensures table[j].0 != u {
            if j > 0 { assert table[j] == table[1..][j - 1]; }
          }
        }
        r
      else
        assert forall i :: 1 <= i < |table| ==> table[i] == table[1..][i - 1];
        r
  }

  /** The `memcmp` chain: the first known UID equal to `u`, compared in table order. A tag
      it finds is listed with `u` in the table; it finds none only for an unlisted UID. */
  function Classify(u: Uid): (r: Option<Tag>)
    ensures r.Some? ==> (u, r.value) in KnownTags
    ensures r.None? ==> forall i :: 0 <= i < |KnownTags| ==> KnownTags[i].0 != u
  {
    if u == JokerUid then Some(Joker)
    else if u == QspadeUid then Some(QueenOfSpades)
    else if u == KdiamondUid then Some(KingOfDiamonds)
    else if u == MeUid then Some(Me)
    else None
  }

  /** The comparison chain is the first-match lookup in the table. */
  lemma ClassifyIsLookup(u: Uid)
    ensures Classify(u) == Lookup(KnownTags, u)
  {
    var t1 := KnownTags[1..];
    var t2 := t1[1..];
    var t3 := t2[1..];
    var t4 := t3[1..];
    assert t3 == [(MeUid, Me)] && t4 == [];
    assert Lookup(t3, u) == if u == MeUid then Some(Me) else None;
    assert Lookup(t2, u) == if u == KdiamondUid then Some(KingOfDiamonds) else Lookup(t3, u);
    assert Lookup(t1, u) == if u == QspadeUid then Some(QueenOfSpades) else Lookup(t2, u);
  }

  /** No two entries share a UID, so the first match is the only match. */
  lemma KnownTagsDistinct()
    ensures forall i, j :: 0 <= i < j < |KnownTags| ==> KnownTags[i].0 != KnownTags[j].0
  {
  }

  /** Every known UID carries the ISO/IEC 15693 allocation class 0xE0 in its first byte. */
  lemma KnownUidsAreIso15693()
    ensures forall i :: 0 <= i < |KnownTags| ==> KnownTags[i].0[0] == 0xE0
  {
  }

  /** Classification is exact table membership, in both directions. */
  lemma ClassifyExact(u: Uid, t: Tag)
    ensures Classify(u) == Some(t) <==> (u, t) in KnownTags
  {
    KnownTagsDistinct();
    ClassifyIsLookup(u);
    if (u, t) in KnownTags {
      var k :| 0 <= k < |KnownTags| && KnownTags[k] == (u, t);
      var r := Classify(u);
      var i :| 0 <= i < |KnownTags| && KnownTags[i] == (u, r.value);
      assert i == k;
    }
  }

  /** The stream is started for the `Me` UID and for no other. */
  lemma TriggerOnlyForMe(u: Uid)
    ensures Classify(u) == Some(Me) <==> u == MeUid
  {
    ClassifyExact(u, Me);
  }

  /** A UID matches nothing exactly when it is none of the four constants. */
  lemma UnknownIffNotListed(u: Uid)
    ensures Classify(u) == None <==> u !in {JokerUid, QspadeUid, KdiamondUid, MeUid}
  {
    if u in {JokerUid, QspadeUid, KdiamondUid, MeUid} {
      var k := if u == JokerUid then 0 else if u == QspadeUid then 1 else if u == KdiamondUid then 2 else 3;
      assert KnownTags[k].0 == u;
    }
  }

  /** What the detection loop prints for a captured UID: one line-terminated text, which
      starts with "UID:" exactly when the UID is not in the table. */
  function Message(u: Uid): (r: string)
    ensures |r| > 0 && r[|r| - 1] == '\n'
    ensures Classify(u).None? <==> |r| >= 4 && r[..4] == "UID:"
  {
    var r := match Classify(u)
      case Some(Joker) => "Joker!\n"
      case Some(QueenOfSpades) => "Queen of Spade!\n"
      case Some(KingOfDiamonds) => "King of Diamond!\n"
      case Some(Me) => "Sheng: Start video stream\n"
      case None => "UID:\n" + HexString(u) + "\n";
    assert Classify(u).Some? ==> r[0] != 'U';
    r
  }

  /** An unknown UID is printed as its sixteen upper-case hexadecimal digits, no separators,
      on a line after "UID:", and the digits read back as the UID. */
  lemma UnknownMessageShowsUid(u: Uid)
    requires Classify(u) == None
    ensures var m := Message(u);
            |m| == 22 && m[..5] == "UID:\n" && m[21] == '\n'
            && IsUpperHex(m[5..21]) && ParseHex(m[5..21]) == u
  {
    var m := Message(u);
    assert m[5..21] == HexString(u);
    HexStringRoundTrip(u);
  }

  /** The line written to `uid.txt`: the UID printed with `%.2X` byte after byte, then a
      line break. */
  function UidFileText(u: Uid): (r: string)
    ensures |r| == 2 * |u| + 1 && r[|r| - 1] == '\n'
  {
    HexString(u) + "\n"
  }

  /** The `uid.txt` line is sixteen upper-case hexadecimal digits and a line break, and the
      digits read back as the UID. */
  lemma UidFileTextRoundTrip(u: Uid)
    ensures var r := UidFileText(u);
            |r| == 17 && r[16] == '\n' && IsUpperHex(r[..16]) && ParseHex(r[..16]) == u
  {
    var r := UidFileText(u);
    assert r[..16] == HexString(u);
    HexStringRoundTrip(u);
  }
}
