/**
 The bytes of the typed records (structures/typed_encoding.go), written out: what other readers of the
 same files rely on, beyond the round trips of modules TypedEncoding and VariableEncoding.
 */
module WireFormats {
  import opened Bytes
  import opened IndexKeys
  import opened IndexTypes
  import opened TypedEncoding
  import opened VariableEncoding

  /** Base-128 digits, least significant first. */
  function Base128(b: bytes): nat {
    if b == [] then 0 else b[0] % 128 + 128 * Base128(b[1..])
  }

  /** A uvarint is its base-128 digits, the high bit set on all but the last byte, without padding. */
  lemma {:induction false} UvarintIsBase128(v: nat)
    ensures var b := Uvarint(v);
            && Base128(b) == v && (forall i | 0 <= i < |b| :: b[i] >= 128 <==> i < |b| - 1)
            && (|b| > 1 ==> b[|b| - 1] > 0)
    decreases v
  {
    if v >= 128 {
      UvarintIsBase128(v / 128);
      var b := Uvarint(v);
      assert b[1..] == Uvarint(v / 128);
      assert forall i | 1 <= i < |b| :: b[i] == b[1..][i - 1];
    } else {
      assert Base128([v][1..]) == 0;
    }
  }

  /** A height is the two's complement of 64 bits, most significant byte first. */
  lemma HeightBits(n: int)
    requires IsInt64(n)
    ensures FromBigEndian(Height64(n)) == if n < 0 then n + 0x1_0000_0000_0000_0000 else n
  {
    Pow256Eight();
    BigEndianRoundTrip(Int64Bits(n), 8);
  }

  /** Tag 4, two heights, the tag count; no media, no tail; and no other tag is taken for a class record. */
  lemma MetaBytes(m: Meta, other: bytes)
    requires ValidMeta(m)
    ensures var b := EncodeMeta(m);
            && |b| >= 17 && b[0] == 4 && b[1..9] == Height64(m.installHeight) && b[9..17] == Height64(m.lastHeight)
            && Holds(b, 17, Uvarint(|m.tags|))
            && (b == EncodeFixed(m) <==> m.media == [[], [], [], [], []])
    ensures other == [] || other[0] != 4 ==> DecodeMeta(other) == None
  {
    hide LenStrings, Short, Uvarint, Height64, ReadStrings;
    var b := EncodeMeta(m);
    assert Holds(b, 0, EncodeFixed(m));
    HeadBytes(m, b);
    if m.media != [[], [], [], [], []] {
      assert exists i | 0 <= i < |m.media| :: m.media[i] != [];
      MediaTakesBytes(m.media);
    }
    hide EncodeFixed;
  }

  lemma MediaTakesBytes(media: seq<bytes>)
    requires media != []
    ensures |LenStrings(media)| > 0
  {
  }

  /** A string is kind 1, its length and its bytes, whatever it was in memory; a number is kind 2 and eight bytes. */
  lemma FieldBytes(s: bytes, u: nat)
    ensures EncodeField(RawText(s)) == [1] + Uvarint(|s|) + s == EncodeField(RawOther(s))
    ensures EncodeField(RawNumber(u)) == [2] + BigEndian(u, 8)
  {
    hide Uvarint, BigEndian;
    assert [1] + (Uvarint(|s|) + s) == [1] + Uvarint(|s|) + s;
  }

  /** Tag 2 and a four-byte count; no other tag is taken for a snapshot. */
  lemma SnapshotBytes(vars: seq<RawVar>, other: bytes)
    ensures var b := EncodeVars(vars); |b| >= 5 && b[0] == 2 && b[1..5] == BigEndian(|vars|, 4)
    ensures other == [] || other[0] != 2 ==> DecodeVars(other) == None
  {
    hide EncodeFields, BigEndian, ReadVars, FromBigEndian;
    var b := EncodeVars(vars);
    assert b[1..5] == BigEndian(|vars|, 4);
  }

  /** Where the separators of the keys stand: ':' is 58, '|' is 124 and '@' is 64. */
  lemma SeparatorBytes(scid: bytes, other: bytes, txid: bytes, h: nat)
    ensures HeightKey(scid, h)[|scid|] == 58 && ScVarsKey(scid, h)[|scid|] == 58
    ensures NormTxKey(other, h, txid, scid)[|other|] == 58 && NormTxKey(other, h, txid, scid)[|other| + 9] == 58
    ensures InvocationKey(other, txid, h, scid)[|other|] == 58
    ensures InvocationKey(other, txid, h, scid)[|other| + 1 + |txid|] == 58
    ensures InstallKey(h, scid)[8] == 124 && OwnerScidKey(other, scid)[|other|] == 124
    ensures ClassRowKey(other, h, scid)[|other|] == 124 && ClassRowKey(other, h, scid)[|other| + 9] == 124
    ensures TelaContentKey(scid, other)[|scid|] == 124 && BatchInstallKey(scid, h)[|scid|] == 64
  {
    hide BigEndian, Decimal;
    assert EncHeight(h) + [BAR] + scid == InstallKey(h, scid);
  }
}
